/** `contour_optimization` (src/modules/mod_path.c): marks which pixels of
    one contour to keep. Sub-intervals wait on an explicit stack; each popped
    interval looks for its marked pixel farthest from the chord between its
    ends (`perpendicular_distance` of tools.c, the parameter `dist`), and is
    then split there, thinned out as a straight line, or emptied. The
    functions below give one step of that loop and its run to completion; the
    methods are the loops of the source, proved to compute them. */
module PathContour {
  import opened Types
  import opened PathTypes

  /** `MAX_PERP_DIST`, `MAX_PIXEL_DIST`, `KEEP`, `REMOVE` */
  const MaxPerpDist: real := 0.95
  const MaxPixelDist := 3
  const Keep: byte := 1
  const Remove: byte := 0

  /** A pending sub-interval: the entries `start_depth[k]`, `end_depth[k]`. */
  datatype Interval = Interval(start: nat, end: nat)

  /** The flags and the stack between two turns of the loop. */
  datatype State = State(flags: seq<byte>, stack: seq<Interval>)

  /** The flags cover the contour and every pending interval lies in it. */
  predicate Valid(st: State, n: nat)
  {
    |st.flags| == n && forall k | 0 <= k < |st.stack| :: st.stack[k].start <= st.stack[k].end < n
  }

  /** Distance of pixel i from the chord between pixels s and e. */
  function Dist(contour: seq<EdgeTrack>, dist: (Coord, Coord, Coord) -> real, s: nat, e: nat, i: nat): real
    requires s < |contour| && e < |contour| && i < |contour|
  {
    dist(contour[s].pos, contour[e].pos, contour[i].pos)
  }

  /** `index` and `dmax` of the search loop. */
  datatype Best = Best(index: nat, dmax: real)

  /** The search loop from pixel i on, with the best candidate so far. */
  function FarthestFrom(contour: seq<EdgeTrack>, flags: seq<byte>, dist: (Coord, Coord, Coord) -> real,
                        s: nat, e: nat, i: nat, best: Best): (r: Best)
    requires s < |contour| && e < |contour| && |flags| == |contour|
    ensures r.dmax >= best.dmax
    ensures r == best || (i <= r.index < e && flags[r.index] != 0 &&
                          r.dmax == Dist(contour, dist, s, e, r.index) && r.dmax > best.dmax)
    ensures forall j | i <= j < e && flags[j] != 0 :: Dist(contour, dist, s, e, j) <= r.dmax
    decreases e - i
  {
    if i >= e then best
    else
      var d := Dist(contour, dist, s, e, i);
      FarthestFrom(contour, flags, dist, s, e, i + 1,
                   if flags[i] != 0 && d > best.dmax then Best(i, d) else best)
  }

  /** The search of one interval: the marked pixel strictly inside it
      farthest from its chord, or the interval's start with distance 0 when
      no marked pixel is farther than 0. */
  function Farthest(contour: seq<EdgeTrack>, flags: seq<byte>, dist: (Coord, Coord, Coord) -> real,
                    s: nat, e: nat): (r: Best)
    requires s < |contour| && e < |contour| && |flags| == |contour|
    ensures r == Best(s, 0.0) || (s < r.index < e && flags[r.index] != 0 &&
                                  r.dmax == Dist(contour, dist, s, e, r.index) && r.dmax > 0.0)
    ensures forall j | s < j < e && flags[j] != 0 :: Dist(contour, dist, s, e, j) <= r.dmax
  {
    FarthestFrom(contour, flags, dist, s, e, s + 1, Best(s, 0.0))
  }

  /** The straight-line branch: everything strictly inside is removed, then
      every third pixel from the start is kept while it is more than one
      pixel before the end, and the end is kept. */
  function Collinear(flags: seq<byte>, s: nat, e: nat): (r: seq<byte>)
    requires s <= e < |flags|
    ensures |r| == |flags|
    ensures r[e] == Keep
    ensures forall i | 0 <= i < |flags| && (i < s || i > e) :: r[i] == flags[i]
  {
    seq(|flags|, i requires 0 <= i < |flags| =>
      if i == e then Keep
      else if i == s then (if s + 1 < e then Keep else flags[i])
      else if s < i < e then (if (i - s) % MaxPixelDist == 0 && i + 1 < e then Keep else Remove)
      else flags[i])
  }

  /** The last branch: everything strictly inside is removed. */
  function Removal(flags: seq<byte>, s: nat, e: nat): (r: seq<byte>)
    ensures |r| == |flags|
    ensures forall i | 0 <= i < |flags| :: r[i] == if s < i < e then Remove else flags[i]
  {
    seq(|flags|, i requires 0 <= i < |flags| => if s < i < e then Remove else flags[i])
  }

  /** One turn of the `while (stack_count > 0)` loop. */
  function Step(contour: seq<EdgeTrack>, dist: (Coord, Coord, Coord) -> real, st: State): State
    requires Valid(st, |contour|) && st.stack != []
  {
    var top := st.stack[|st.stack| - 1];
    var rest := st.stack[..|st.stack| - 1];
    var best := Farthest(contour, st.flags, dist, top.start, top.end);
    if best.dmax >= MaxPerpDist then
      State(st.flags, rest + [Interval(top.start, best.index), Interval(best.index, top.end)])
    else if best.dmax == 0.0 then
      State(Collinear(st.flags, top.start, top.end), rest)
    else
      State(Removal(st.flags, top.start, top.end), rest)
  }

  function Sq(n: int): nat
  {
    n * n
  }

  /** The sum of the squared interval lengths: splitting an interval makes it
      smaller, popping one never makes it larger. */
  function Measure(stack: seq<Interval>): nat
  {
    if stack == [] then 0 else Measure(stack[..|stack| - 1]) + Sq(stack[|stack| - 1].end - stack[|stack| - 1].start)
  }

  lemma SplitSmaller(a: int, b: int)
    requires a >= 1 && b >= 1
    ensures Sq(a) + Sq(b) < Sq(a + b)
  {
    assert Sq(a + b) == Sq(a) + Sq(b) + 2 * a * b;
  }

  /** Each turn keeps the state valid and makes progress. */
  lemma StepDecreases(contour: seq<EdgeTrack>, dist: (Coord, Coord, Coord) -> real, st: State)
    requires Valid(st, |contour|) && st.stack != []
    ensures Valid(Step(contour, dist, st), |contour|)
    ensures Measure(Step(contour, dist, st).stack) < Measure(st.stack) ||
            (Measure(Step(contour, dist, st).stack) == Measure(st.stack) &&
             |Step(contour, dist, st).stack| < |st.stack|)
  {
    var top := st.stack[|st.stack| - 1];
    var rest := st.stack[..|st.stack| - 1];
    var best := Farthest(contour, st.flags, dist, top.start, top.end);
    assert Measure(st.stack) == Measure(rest) + Sq(top.end - top.start);
    if best.dmax >= MaxPerpDist {
      SplitMeasure(rest, top.start, best.index, top.end);
    }
  }

  /** Splitting the top interval at an inner pixel lowers the measure. */
  lemma SplitMeasure(rest: seq<Interval>, s: nat, m: nat, e: nat)
    requires s < m < e
    ensures Measure(rest + [Interval(s, m), Interval(m, e)]) < Measure(rest) + Sq(e - s)
  {
    var next := rest + [Interval(s, m), Interval(m, e)];
    assert next[..|next| - 1] == rest + [Interval(s, m)];
    assert (rest + [Interval(s, m)])[..|rest|] == rest;
    SplitSmaller(m - s, e - m);
  }

  /** The loop run to completion. */
  function Run(contour: seq<EdgeTrack>, dist: (Coord, Coord, Coord) -> real, st: State): (flags: seq<byte>)
    requires Valid(st, |contour|)
    ensures |flags| == |contour|
    decreases Measure(st.stack), |st.stack|
  {
    if st.stack == [] then st.flags
    else
      StepDecreases(contour, dist, st);
      Run(contour, dist, Step(contour, dist, st))
  }

  /** `contour_optimization(contour, start, end, opt_contour)` as a
      function of the flags it starts from. */
  function Optimized(contour: seq<EdgeTrack>, dist: (Coord, Coord, Coord) -> real, flags: seq<byte>,
                     start: nat, end: nat): (r: seq<byte>)
    requires start <= end < |contour| == |flags|
    ensures |r| == |flags|
  {
    Run(contour, dist, State(flags, [Interval(start, end)]))
  }

  /** How the flags may change within [lo, hi]: nothing outside changes,
      the two ends can only become KEEP, pixels strictly inside only KEEP or
      REMOVE. */
  predicate Confined(before: seq<byte>, after: seq<byte>, lo: nat, hi: nat)
  {
    |before| == |after| &&
    forall i | 0 <= i < |before| ::
      after[i] == before[i] ||
      (lo <= i <= hi && (after[i] == Keep || (lo < i < hi && after[i] == Remove)))
  }

  lemma ConfinedTransitive(f0: seq<byte>, f1: seq<byte>, f2: seq<byte>, lo: nat, hi: nat)
    requires Confined(f0, f1, lo, hi) && Confined(f1, f2, lo, hi)
    ensures Confined(f0, f2, lo, hi)
  {
  }

  predicate StackInside(stack: seq<Interval>, lo: nat, hi: nat)
  {
    forall k | 0 <= k < |stack| :: lo <= stack[k].start && stack[k].end <= hi
  }

  /** Every pending interval stays within the first one, and the flags only
      ever change as `Confined` allows. */
  lemma {:induction false} RunConfined(contour: seq<EdgeTrack>, dist: (Coord, Coord, Coord) -> real, st: State,
                                       lo: nat, hi: nat)
    requires Valid(st, |contour|) && StackInside(st.stack, lo, hi)
    ensures Confined(st.flags, Run(contour, dist, st), lo, hi)
    decreases Measure(st.stack), |st.stack|
  {
    if st.stack != [] {
      StepDecreases(contour, dist, st);
      var next := Step(contour, dist, st);
      var top := st.stack[|st.stack| - 1];
      assert lo <= top.start && top.end <= hi;
      assert StackInside(next.stack, lo, hi);
      assert Confined(st.flags, next.flags, lo, hi);
      RunConfined(contour, dist, next, lo, hi);
      ConfinedTransitive(st.flags, next.flags, Run(contour, dist, next), lo, hi);
    }
  }

  /** The optimisation never removes the two ends of the interval it is
      given, and leaves every flag outside that interval as it was. */
  lemma EndsKept(contour: seq<EdgeTrack>, dist: (Coord, Coord, Coord) -> real, flags: seq<byte>, start: nat, end: nat)
    requires start <= end < |contour| == |flags|
    requires flags[start] == Keep && flags[end] == Keep
    ensures var r := Optimized(contour, dist, flags, start, end);
            r[start] == Keep && r[end] == Keep &&
            forall i | 0 <= i < |r| && (i < start || i > end) :: r[i] == flags[i]
  {
    RunConfined(contour, dist, State(flags, [Interval(start, end)]), start, end);
  }

  /** On a straight piece (every marked pixel at distance 0 from the chord)
      the loop runs one turn: every third pixel from the start and the end
      are kept, the rest strictly inside is removed. */
  lemma StraightContour(contour: seq<EdgeTrack>, dist: (Coord, Coord, Coord) -> real, flags: seq<byte>, start: nat, end: nat)
    requires start <= end < |contour| == |flags|
    requires forall j | start < j < end && flags[j] != 0 :: Dist(contour, dist, start, end, j) <= 0.0
    ensures Optimized(contour, dist, flags, start, end) == Collinear(flags, start, end)
  {
    var st := State(flags, [Interval(start, end)]);
    var best := Farthest(contour, flags, dist, start, end);
    assert best == Best(start, 0.0);
    var next := Step(contour, dist, st);
    assert next == State(Collinear(flags, start, end), []);
    assert Run(contour, dist, next) == next.flags;
    assert Optimized(contour, dist, flags, start, end) == Run(contour, dist, next);
  }

  /** The search loop of one interval. */
  method FindFarthest(contour: array<EdgeTrack>, opt: array<byte>, dist: (Coord, Coord, Coord) -> real,
                      start: nat, end: nat) returns (index: nat, dmax: real)
    requires start < contour.Length && end < contour.Length && opt.Length == contour.Length
    ensures Best(index, dmax) == Farthest(contour[..], opt[..], dist, start, end)
  {
    index := start;
    dmax := 0.0;
    var i := index + 1;
    while i < end
      invariant start + 1 <= i && (i <= end || i == start + 1)
      invariant FarthestFrom(contour[..], opt[..], dist, start, end, i, Best(index, dmax))
                  == Farthest(contour[..], opt[..], dist, start, end)
    {
      if opt[i] != 0 {
        var distance := dist(contour[start].pos, contour[end].pos, contour[i].pos);
        if distance > dmax {
          index := i;
          dmax := distance;
        }
      }
      i := i + 1;
    }
  }

  /** The straight-line branch: the removal loop, the keep-every-third
      loop, and the final test that keeps the end. */
  method MarkCollinear(opt: array<byte>, start: nat, end: nat)
    requires start <= end < opt.Length
    modifies opt
    ensures opt[..] == Collinear(old(opt[..]), start, end)
  {
    RemoveInterior(opt, start, end);
    ghost var removed := opt[..];
    var k := 0;
    while k * MaxPixelDist + start + 1 < end
      invariant k * MaxPixelDist <= end - start + 1
      invariant k > 0 ==> (k - 1) * MaxPixelDist + start + 1 < end
      invariant forall i | 0 <= i < opt.Length ::
                  opt[i] == if start <= i < end && (i - start) % MaxPixelDist == 0 && i + 1 < end
                                && i < start + k * MaxPixelDist
                            then Keep else removed[i]
    {
      opt[start + k * MaxPixelDist] := Keep;
      k := k + 1;
    }
    if !((k - 1) * MaxPixelDist + start == end) {
      opt[end] := Keep;
      k := k + 1;
    }
    assert opt[..] == Collinear(old(opt[..]), start, end);
  }

  /** The loop that removes every pixel strictly inside an interval. */
  method RemoveInterior(opt: array<byte>, start: nat, end: nat)
    requires end <= opt.Length
    modifies opt
    ensures opt[..] == Removal(old(opt[..]), start, end)
  {
    var i := start + 1;
    while i < end
      invariant start + 1 <= i && (i <= end || i == start + 1)
      invariant forall j | 0 <= j < opt.Length :: opt[j] == if start < j < i then Remove else old(opt[j])
    {
      opt[i] := Remove;
      i := i + 1;
    }
  }

  /** `contour_optimization(contour, start, end, opt_contour)`, the
      interval stack held in a sequence. */
  method ContourOptimization(contour: array<EdgeTrack>, start: nat, end: nat, opt: array<byte>,
                             dist: (Coord, Coord, Coord) -> real)
    requires start <= end < contour.Length == opt.Length
    modifies opt
    ensures opt[..] == Optimized(contour[..], dist, old(opt[..]), start, end)
  {
    var stack := [Interval(start, end)];
    while |stack| > 0
      invariant Valid(State(opt[..], stack), contour.Length)
      invariant Run(contour[..], dist, State(opt[..], stack)) == Optimized(contour[..], dist, old(opt[..]), start, end)
      decreases Measure(stack), |stack|
    {
      ghost var st := State(opt[..], stack);
      StepDecreases(contour[..], dist, st);
      var top := stack[|stack| - 1];
      stack := stack[..|stack| - 1];
      var s, e := top.start, top.end;
      var index, dmax := FindFarthest(contour, opt, dist, s, e);
      if dmax >= MaxPerpDist {
        stack := stack + [Interval(s, index), Interval(index, e)];
      } else if dmax == 0.0 {
        MarkCollinear(opt, s, e);
      } else {
        RemoveInterior(opt, s, e);
      }
      assert State(opt[..], stack) == Step(contour[..], dist, st);
    }
  }
}
