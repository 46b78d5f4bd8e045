/** `set_contours_color` (src/modules/mod_path.c): every pair of edges
    spans a run of contour pixels; the colours the camera saw at those pixels
    are counted, the majority colour is chosen, and it is written to one
    contour slot per spanned pixel, the slots of successive pairs following
    one another from slot 0. The colour buffer indexed by `position()` is the
    parameter `colorAt`. */
module PathColour {
  import opened Types
  import opened PathTypes

  /** The colours seen along a span of contour indices. */
  function ColoursOf(contours: seq<EdgeTrack>, span: seq<nat>, colorAt: Coord -> byte): (cs: seq<byte>)
    requires forall t | 0 <= t < |span| :: span[t] < |contours|
    ensures |cs| == |span|
    ensures forall t | 0 <= t < |span| :: cs[t] == colorAt(contours[span[t]].pos)
  {
    var cs := seq<byte>(|span|, t requires 0 <= t < |span| => colorAt(contours[span[t]].pos));
    cs
  }

  /** How many of the colours are c. */
  function Tally(cs: seq<byte>, c: byte): (n: nat)
    ensures n <= |cs|
  {
    if cs == [] then 0 else Tally(cs[..|cs| - 1], c) + (if cs[|cs| - 1] == c then 1 else 0)
  }

  /** The if-chain of the second loop: red, green or blue when that count
      is above the largest of the other three (`fmax`), black otherwise. */
  function Vote(black: nat, red: nat, green: nat, blue: nat): (c: byte)
    ensures c == Red <==> red > green && red > blue && red > black
    ensures c == Green <==> green > red && green > blue && green > black
    ensures c == Blue <==> blue > red && blue > green && blue > black
    ensures c == Black || c == Red || c == Green || c == Blue
  {
    if red > Max(Max(green, blue), black) then Red
    else if green > Max(Max(blue, red), black) then Green
    else if blue > Max(Max(black, red), green) then Blue
    else Black
  }

  function Max(a: nat, b: nat): (m: nat)
    ensures m >= a && m >= b && (m == a || m == b)
  {
    if a >= b then a else b
  }

  /** The colour chosen for the p-th pair. */
  function PairColour(contours: seq<EdgeTrack>, edges: seq<EdgePos>, p: nat, colorAt: Coord -> byte): byte
    requires 2 * p + 1 < |edges| && IndicesBelow(edges, |contours|)
  {
    var cs := ColoursOf(contours, PairSpan(edges, p), colorAt);
    Vote(Tally(cs, Black), Tally(cs, Red), Tally(cs, Green), Tally(cs, Blue))
  }

  /** Counting a run of one colour. */
  lemma {:induction false} TallyUniform(cs: seq<byte>, c: byte, d: byte)
    requires forall t | 0 <= t < |cs| :: cs[t] == c
    ensures Tally(cs, d) == if d == c then |cs| else 0
    decreases |cs|
  {
    if cs != [] {
      TallyUniform(cs[..|cs| - 1], c, d);
    }
  }

  /** A pair whose pixels were all seen in one colour other than white gets
      that colour. */
  lemma UnanimousPair(contours: seq<EdgeTrack>, edges: seq<EdgePos>, p: nat, colorAt: Coord -> byte, c: byte)
    requires 2 * p + 1 < |edges| && IndicesBelow(edges, |contours|)
    requires c == Red || c == Green || c == Blue || c == Black
    requires |PairSpan(edges, p)| > 0
    requires forall t | 0 <= t < |PairSpan(edges, p)| :: colorAt(contours[PairSpan(edges, p)[t]].pos) == c
    ensures PairColour(contours, edges, p, colorAt) == c
  {
    var cs := ColoursOf(contours, PairSpan(edges, p), colorAt);
    TallyUniform(cs, c, Black);
    TallyUniform(cs, c, Red);
    TallyUniform(cs, c, Green);
    TallyUniform(cs, c, Blue);
  }

  /** A pair with equal indices spans no pixel, so every count is 0 and it
      gets black. */
  lemma EmptyPairIsBlack(contours: seq<EdgeTrack>, edges: seq<EdgePos>, p: nat, colorAt: Coord -> byte)
    requires 2 * p + 1 < |edges| && IndicesBelow(edges, |contours|)
    requires edges[2 * p].index == edges[2 * p + 1].index
    ensures PairColour(contours, edges, p, colorAt) == Black
  {
  }

  /** The colours only depend on the contour positions. */
  lemma ColourIgnoresColours(c1: seq<EdgeTrack>, c2: seq<EdgeTrack>, edges: seq<EdgePos>, p: nat, colorAt: Coord -> byte)
    requires |c1| == |c2| && forall j | 0 <= j < |c1| :: c1[j].pos == c2[j].pos
    requires 2 * p + 1 < |edges| && IndicesBelow(edges, |c1|)
    ensures PairColour(c1, edges, p, colorAt) == PairColour(c2, edges, p, colorAt)
  {
    assert ColoursOf(c1, PairSpan(edges, p), colorAt) == ColoursOf(c2, PairSpan(edges, p), colorAt);
  }

  predicate Counted(cs: seq<byte>, black: nat, red: nat, green: nat, blue: nat)
  {
    black == Tally(cs, Black) && red == Tally(cs, Red) && green == Tally(cs, Green) && blue == Tally(cs, Blue)
  }

  /** The switch over the colour seen at a visited pixel: the count of that
      colour goes up by one; white and unknown codes are not counted. */
  method Tick(c: byte, black: nat, red: nat, green: nat, blue: nat)
    returns (black': nat, red': nat, green': nat, blue': nat)
    ensures forall cs | Counted(cs, black, red, green, blue) :: Counted(cs + [c], black', red', green', blue')
  {
    black', red', green', blue' := black, red, green, blue;
    if c == Black {
      black' := black + 1;
    } else if c == Red {
      red' := red + 1;
    } else if c == Green {
      green' := green + 1;
    } else if c == Blue {
      blue' := blue + 1;
    }
    forall cs | Counted(cs, black, red, green, blue)
      ensures Counted(cs + [c], black', red', green', blue')
    {
      TallyNext(cs, c);
    }
  }

  /** Counting one more colour. */
  lemma TallyNext(cs: seq<byte>, c: byte)
    ensures forall d :: Tally(cs + [c], d) == Tally(cs, d) + (if c == d then 1 else 0)
  {
    assert (cs + [c])[..|cs|] == cs;
  }

  /** The counting loops of one pair. */
  method CountPair(contours: seq<EdgeTrack>, a: u16, b: u16, colorAt: Coord -> byte)
    returns (black: nat, red: nat, green: nat, blue: nat)
    requires a < |contours| && b < |contours|
    ensures Counted(ColoursOf(contours, Span(a, b), colorAt), black, red, green, blue)
  {
    if b > a {
      black, red, green, blue := CountUp(contours, a, b, colorAt);
    } else if b < a {
      black, red, green, blue := CountDown(contours, a, b, colorAt);
    } else {
      black, red, green, blue := 0, 0, 0, 0;
    }
  }

  /** The loop for b > a: j runs upwards from a to b. */
  method CountUp(contours: seq<EdgeTrack>, a: u16, b: u16, colorAt: Coord -> byte)
    returns (black: nat, red: nat, green: nat, blue: nat)
    requires a < b < |contours|
    ensures Counted(ColoursOf(contours, Span(a, b), colorAt), black, red, green, blue)
  {
    ghost var cs := ColoursOf(contours, Span(a, b), colorAt);
    black, red, green, blue := 0, 0, 0, 0;
    var j := a;
    while j <= b
      invariant a <= j <= b + 1
      invariant Counted(cs[..j - a], black, red, green, blue)
    {
      var c := colorAt(contours[j].pos);
      assert cs[..j - a] + [c] == cs[..j - a + 1];
      black, red, green, blue := Tick(c, black, red, green, blue);
      j := j + 1;
    }
    assert cs[..j - a] == cs;
  }

  /** The loop for b < a: j runs downwards from a to b (`int16_t` in the
      source, so that j can go below an index of 0). */
  method CountDown(contours: seq<EdgeTrack>, a: u16, b: u16, colorAt: Coord -> byte)
    returns (black: nat, red: nat, green: nat, blue: nat)
    requires b < a < |contours|
    ensures Counted(ColoursOf(contours, Span(a, b), colorAt), black, red, green, blue)
  {
    ghost var cs := ColoursOf(contours, Span(a, b), colorAt);
    black, red, green, blue := 0, 0, 0, 0;
    var j: int := a;
    while j >= b
      invariant b - 1 <= j <= a
      invariant Counted(cs[..a - j], black, red, green, blue)
    {
      var c := colorAt(contours[j].pos);
      assert cs[..a - j] + [c] == cs[..a - j + 1];
      black, red, green, blue := Tick(c, black, red, green, blue);
      j := j - 1;
    }
    assert cs[..a - j] == cs;
  }

  /** The painting loops of one pair: one slot per visited pixel, from
      slot k on. */
  method PaintPair(contours: array<EdgeTrack>, k: nat, a: u16, b: u16, colour: byte) returns (next: nat)
    requires k + |Span(a, b)| <= contours.Length
    modifies contours
    ensures next == k + |Span(a, b)|
    ensures forall j | 0 <= j < contours.Length ::
              contours[j] == if k <= j < next then old(contours[j]).(color := colour) else old(contours[j])
  {
    next := k;
    if b > a {
      var j := a;
      while j <= b
        invariant a <= j <= b + 1 && next == k + (j - a)
        invariant forall i | 0 <= i < contours.Length ::
                    contours[i] == if k <= i < next then old(contours[i]).(color := colour) else old(contours[i])
      {
        contours[next] := contours[next].(color := colour);
        next := next + 1;
        j := j + 1;
      }
    } else if b < a {
      var j: int := a;
      while j >= b
        invariant b - 1 <= j <= a && next == k + (a - j)
        invariant forall i | 0 <= i < contours.Length ::
                    contours[i] == if k <= i < next then old(contours[i]).(color := colour) else old(contours[i])
      {
        contours[next] := contours[next].(color := colour);
        next := next + 1;
        j := j - 1;
      }
    }
  }

  /** Every pair's slots lie inside the buffer. */
  predicate PairsFit(edges: seq<EdgePos>, n: nat)
    requires |edges| % 2 == 0
  {
    forall p | 0 < p <= |edges| / 2 :: Offset(edges, p) <= n
  }

  /** The t-th slot painted for the p-th pair. */
  function Slot(edges: seq<EdgePos>, p: nat, t: nat): nat
    requires 2 * p <= |edges|
  {
    Offset(edges, p) + t
  }

  /** The first loop of `set_contours_color`: the four counts of every
      pair, in arrays of one entry per pair. */
  method CountPairs(contours: seq<EdgeTrack>, edges: seq<EdgePos>, colorAt: Coord -> byte)
    returns (blackCount: array<nat>, redCount: array<nat>, greenCount: array<nat>, blueCount: array<nat>)
    requires |edges| % 2 == 0 && IndicesBelow(edges, |contours|)
    ensures fresh(blackCount) && fresh(redCount) && fresh(greenCount) && fresh(blueCount)
    ensures blackCount.Length == redCount.Length == greenCount.Length == blueCount.Length == |edges| / 2
    ensures forall q | 0 <= q < |edges| / 2 ::
              Vote(blackCount[q], redCount[q], greenCount[q], blueCount[q]) == PairColour(contours, edges, q, colorAt)
  {
    var pairs := |edges| / 2;
    blackCount := new nat[pairs];
    redCount := new nat[pairs];
    greenCount := new nat[pairs];
    blueCount := new nat[pairs];
    var i, m := 0, 0;
    while i < |edges|
      invariant i == 2 * m && m <= pairs
      invariant forall q | 0 <= q < m ::
                  Vote(blackCount[q], redCount[q], greenCount[q], blueCount[q]) == PairColour(contours, edges, q, colorAt)
    {
      var black, red, green, blue := CountPair(contours, edges[i].index, edges[i + 1].index, colorAt);
      assert PairSpan(edges, m) == Span(edges[i].index, edges[i + 1].index);
      assert Vote(black, red, green, blue) == PairColour(contours, edges, m, colorAt);
      blackCount[m] := black;
      redCount[m] := red;
      greenCount[m] := green;
      blueCount[m] := blue;
      i, m := i + 2, m + 1;
    }
  }

  /** `set_contours_color(color, size_edges)`. Only the colour fields
      change: the slots from `Offset(p)` on take the p-th pair's majority
      colour, and the slots past the last pair keep theirs. */
  method SetContoursColor(contours: array<EdgeTrack>, edges: seq<EdgePos>, colorAt: Coord -> byte)
    requires |edges| % 2 == 0
    requires IndicesBelow(edges, contours.Length) && PairsFit(edges, contours.Length)
    modifies contours
    ensures forall j | 0 <= j < contours.Length :: contours[j] == old(contours[j]).(color := contours[j].color)
    ensures forall p, t | 0 <= p < |edges| / 2 && 0 <= t < |PairSpan(edges, p)| ::
              Slot(edges, p, t) < contours.Length &&
              contours[Slot(edges, p, t)].color == PairColour(old(contours[..]), edges, p, colorAt)
    ensures forall j | Offset(edges, |edges| / 2) <= j < contours.Length :: contours[j] == old(contours[j])
  {
    var pairs := |edges| / 2;
    ghost var original := contours[..];
    var blackCount, redCount, greenCount, blueCount := CountPairs(contours[..], edges, colorAt);

    var i, m := 0, 0;
    var k := 0;
    forall j | 0 <= j < contours.Length
      ensures contours[j] == original[j].(color := contours[j].color)
    {
    }
    assert Painted(contours[..], edges, original, 0, 0, colorAt);
    while i < |edges|
      invariant i == 2 * m && m <= pairs
      invariant Votes(blackCount, redCount, greenCount, blueCount, original, edges, colorAt)
      invariant Painted(contours[..], edges, original, m, k, colorAt)
    {
      var finalColour := Vote(blackCount[m], redCount[m], greenCount[m], blueCount[m]);
      assert finalColour == PairColour(original, edges, m, colorAt);
      k := PaintNext(contours, edges, original, m, k, finalColour, colorAt);
      i, m := i + 2, m + 1;
    }
    assert m == pairs;
  }

  /** The four counts of every pair vote for the pair's colour. */
  ghost predicate Votes(blackCount: array<nat>, redCount: array<nat>, greenCount: array<nat>, blueCount: array<nat>,
                        contours: seq<EdgeTrack>, edges: seq<EdgePos>, colorAt: Coord -> byte)
    reads blackCount, redCount, greenCount, blueCount
  {
    |edges| % 2 == 0 && IndicesBelow(edges, |contours|) &&
    blackCount.Length == redCount.Length == greenCount.Length == blueCount.Length == |edges| / 2 &&
    forall q | 0 <= q < |edges| / 2 ::
      Vote(blackCount[q], redCount[q], greenCount[q], blueCount[q]) == PairColour(contours, edges, q, colorAt)
  }

  /** The contours after the second loop has painted the first m pairs, the
      next free slot being k. */
  ghost predicate Painted(contours: seq<EdgeTrack>, edges: seq<EdgePos>, original: seq<EdgeTrack>,
                          m: nat, k: nat, colorAt: Coord -> byte)
  {
    |edges| % 2 == 0 && 2 * m <= |edges| && |original| == |contours| &&
    IndicesBelow(edges, |contours|) &&
    k == Offset(edges, m) && k <= |contours| &&
    (forall j | 0 <= j < |contours| :: contours[j] == original[j].(color := contours[j].color)) &&
    (forall j | k <= j < |contours| :: contours[j] == original[j]) &&
    (forall q, t | 0 <= q < m && 0 <= t < |PairSpan(edges, q)| ::
       Slot(edges, q, t) < k &&
       contours[Slot(edges, q, t)].color == PairColour(original, edges, q, colorAt))
  }

  /** One turn of the second loop: the m-th pair's slots get its colour. */
  method PaintNext(contours: array<EdgeTrack>, edges: seq<EdgePos>, ghost original: seq<EdgeTrack>,
                   m: nat, k: nat, finalColour: byte, colorAt: Coord -> byte) returns (next: nat)
    requires 2 * m + 1 < |edges| && |edges| % 2 == 0 && PairsFit(edges, contours.Length)
    requires Painted(contours[..], edges, original, m, k, colorAt)
    requires finalColour == PairColour(original, edges, m, colorAt)
    modifies contours
    ensures Painted(contours[..], edges, original, m + 1, next, colorAt)
  {
    ghost var before := contours[..];
    assert PairSpan(edges, m) == Span(edges[2 * m].index, edges[2 * m + 1].index);
    assert Offset(edges, m + 1) == k + |PairSpan(edges, m)|;
    next := PaintPair(contours, k, edges[2 * m].index, edges[2 * m + 1].index, finalColour);
    PaintedStep(before, contours[..], edges, original, m, k, next, finalColour, colorAt);
  }

  /** Painting the m-th pair's slots, from k up to `next`, in its colour
      extends the painted state by one pair. */
  lemma PaintedStep(before: seq<EdgeTrack>, after: seq<EdgeTrack>, edges: seq<EdgePos>, original: seq<EdgeTrack>,
                    m: nat, k: nat, next: nat, colour: byte, colorAt: Coord -> byte)
    requires 2 * m + 1 < |edges| && Painted(before, edges, original, m, k, colorAt)
    requires next == Offset(edges, m + 1) <= |before| == |after|
    requires colour == PairColour(original, edges, m, colorAt)
    requires forall j | 0 <= j < |after| :: after[j] == if k <= j < next then before[j].(color := colour) else before[j]
    ensures Painted(after, edges, original, m + 1, next, colorAt)
  {
    forall j | 0 <= j < |after|
      ensures after[j] == original[j].(color := after[j].color)
    {
      assert before[j] == original[j].(color := before[j].color);
    }
    forall q, t | 0 <= q < m + 1 && 0 <= t < |PairSpan(edges, q)|
      ensures Slot(edges, q, t) < next
      ensures after[Slot(edges, q, t)].color == PairColour(original, edges, q, colorAt)
    {
      if q < m {
        assert Slot(edges, q, t) < k;
        assert after[Slot(edges, q, t)] == before[Slot(edges, q, t)];
      } else {
        assert Slot(edges, q, t) == k + t;
      }
    }
  }
}
