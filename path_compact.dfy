/** `path_optimization` (src/modules/mod_path.c): every traced contour is
    thinned out by `contour_optimization` and the pixels it keeps are moved
    to the front of the `contours` buffer, contour after contour. */
module PathCompact {
  import opened Types
  import opened PathTypes
  import opened PathContour

  /** Where the p-th pair starts and ends in the `contours` buffer. */
  function StartOf(edges: seq<EdgePos>, p: nat): nat
    requires 2 * p + 1 < |edges|
  {
    edges[2 * p].index
  }

  function EndOf(edges: seq<EdgePos>, p: nat): nat
    requires 2 * p + 1 < |edges|
  {
    edges[2 * p + 1].index
  }

  /** The layout `path_tracing` leaves behind: each pair's end lies after
      its start, and the contours follow one another from slot 0 on, so
      that the running `contours_size` always equals the start index of the
      pair being read. */
  predicate Chained(edges: seq<EdgePos>, n: nat)
  {
    (|edges| >= 2 ==> StartOf(edges, 0) == 0) &&
    (forall p {:trigger StartOf(edges, p)} | 0 <= p < |edges| / 2 :: StartOf(edges, p) < EndOf(edges, p) < n) &&
    (forall p | 0 < p < |edges| / 2 :: StartOf(edges, p) == EndOf(edges, p - 1) + 1)
  }

  /** The value of `contours_size` before the p-th pair. */
  function Consumed(edges: seq<EdgePos>, p: nat): nat
    requires 2 * p <= |edges|
  {
    if p == 0 then 0 else EndOf(edges, p - 1) + 1
  }

  lemma ConsumedIsStart(edges: seq<EdgePos>, n: nat, p: nat)
    requires Chained(edges, n) && p < |edges| / 2
    ensures Consumed(edges, p) == StartOf(edges, p)
  {
  }

  /** Every pixel starts out marked KEEP. */
  function AllKeep(n: nat): (r: seq<byte>)
    ensures |r| == n && forall i | 0 <= i < n :: r[i] == Keep
  {
    seq(n, _ => Keep)
  }

  /** The pixels whose flag is KEEP, in their order. */
  function Kept(b: seq<EdgeTrack>, f: seq<byte>): (r: seq<EdgeTrack>)
    requires |b| == |f|
    ensures |r| <= |b|
    ensures forall x | x in r :: x in b
  {
    if b == [] then []
    else Kept(b[..|b| - 1], f[..|f| - 1]) + (if f[|f| - 1] == Keep then [b[|b| - 1]] else [])
  }

  /** Nothing is dropped when every flag is KEEP. */
  lemma {:induction false} KeptAll(b: seq<EdgeTrack>)
    ensures Kept(b, AllKeep(|b|)) == b
  {
    if b != [] {
      assert AllKeep(|b|)[..|b| - 1] == AllKeep(|b| - 1);
      KeptAll(b[..|b| - 1]);
    }
  }

  /** A KEEP flag on the first pixel puts it first. */
  lemma {:induction false} KeptFirst(b: seq<EdgeTrack>, f: seq<byte>)
    requires |b| == |f| && |b| >= 1 && f[0] == Keep
    ensures |Kept(b, f)| >= 1 && Kept(b, f)[0] == b[0]
  {
    if |b| > 1 {
      KeptFirst(b[..|b| - 1], f[..|f| - 1]);
    }
  }

  /** KEEP flags on both ends keep both ends, in place. */
  lemma KeptEnds(b: seq<EdgeTrack>, f: seq<byte>)
    requires |b| == |f| && |b| >= 2 && f[0] == Keep && f[|f| - 1] == Keep
    ensures var r := Kept(b, f); |r| >= 2 && r[0] == b[0] && r[|r| - 1] == b[|b| - 1]
  {
    KeptFirst(b[..|b| - 1], f[..|f| - 1]);
  }

  /** A closed contour ends on the pixel it started from. */
  predicate Closed(seg: seq<EdgeTrack>)
    requires |seg| >= 2
  {
    seg[0].pos == seg[|seg| - 1].pos
  }

  /** The pixels handed to the optimisation: a closed contour's last pixel
      is set aside. */
  function Body(seg: seq<EdgeTrack>): (body: seq<EdgeTrack>)
    requires |seg| >= 2
    ensures |seg| - 1 <= |body| <= |seg| && body == seg[..|body|]
  {
    if Closed(seg) then seg[..|seg| - 1] else seg
  }

  /** The pixels the optimisation of a whole contour keeps. */
  function Thinned(body: seq<EdgeTrack>, dist: (Coord, Coord, Coord) -> real): seq<EdgeTrack>
    requires |body| >= 1
  {
    Kept(body, Optimized(body, dist, AllKeep(|body|), 0, |body| - 1))
  }

  /** What one pair of pixels seg = contours[start..end] becomes. A pair of
      two pixels is copied as it is. Otherwise the body is optimised as one
      interval, the pixels kept are copied and a closed contour's set-aside
      pixel follows. */
  function PairOutput(seg: seq<EdgeTrack>, dist: (Coord, Coord, Coord) -> real): seq<EdgeTrack>
    requires |seg| >= 2
  {
    if |seg| == 2 then seg
    else Thinned(Body(seg), dist) + (if Closed(seg) then [seg[|seg| - 1]] else [])
  }

  /** The optimisation of a whole contour keeps its first and last pixel. */
  lemma ThinnedKeepsEnds(body: seq<EdgeTrack>, dist: (Coord, Coord, Coord) -> real)
    requires |body| >= 2
    ensures var r := Thinned(body, dist);
            |r| >= 2 && r[0] == body[0] && r[|r| - 1] == body[|body| - 1]
  {
    EndsKept(body, dist, AllKeep(|body|), 0, |body| - 1);
    KeptEnds(body, Optimized(body, dist, AllKeep(|body|), 0, |body| - 1));
  }

  /** Each contour keeps its two extremities, in place, and never grows. */
  lemma PairOutputEnds(seg: seq<EdgeTrack>, dist: (Coord, Coord, Coord) -> real)
    requires |seg| >= 2
    ensures var r := PairOutput(seg, dist);
            2 <= |r| <= |seg| && r[0] == seg[0] && r[|r| - 1] == seg[|seg| - 1] &&
            forall x | x in r :: x in seg
  {
    if |seg| > 2 {
      var body := Body(seg);
      ThinnedKeepsEnds(body, dist);
      assert forall x | x in body :: x in seg;
    }
  }

  /** The two-pixel branch copies the pair unchanged. */
  lemma TwoPixelPairCopied(seg: seq<EdgeTrack>, dist: (Coord, Coord, Coord) -> real)
    requires |seg| == 2
    ensures PairOutput(seg, dist) == seg
  {
  }

  /** The pair segment contours[start..end] of the p-th pair. */
  function Segment(contours: seq<EdgeTrack>, edges: seq<EdgePos>, p: nat): (seg: seq<EdgeTrack>)
    requires Chained(edges, |contours|) && p < |edges| / 2
    ensures |seg| >= 2
  {
    contours[StartOf(edges, p)..EndOf(edges, p) + 1]
  }

  /** The buffer front after the first p pairs. */
  function Compacted(contours: seq<EdgeTrack>, edges: seq<EdgePos>, dist: (Coord, Coord, Coord) -> real,
                     p: nat): seq<EdgeTrack>
    requires Chained(edges, |contours|) && p <= |edges| / 2
  {
    if p == 0 then [] else Compacted(contours, edges, dist, p - 1) + PairOutput(Segment(contours, edges, p - 1), dist)
  }

  /** The compacted buffer never outgrows what it was compacted from. */
  lemma {:induction false} CompactedFits(contours: seq<EdgeTrack>, edges: seq<EdgePos>,
                                         dist: (Coord, Coord, Coord) -> real, p: nat)
    requires Chained(edges, |contours|) && p <= |edges| / 2
    ensures |Compacted(contours, edges, dist, p)| <= Consumed(edges, p)
  {
    if p > 0 {
      CompactedFits(contours, edges, dist, p - 1);
      PairOutputEnds(Segment(contours, edges, p - 1), dist);
      ConsumedIsStart(edges, |contours|, p - 1);
    }
  }

  /** The loop of the uint8_t counters `i`, `m` and `j`, as written:
      `for (uint8_t c = from; c < bound; ++c)`. The result is the number of
      turns it takes, or None when it has not ended within `fuel` turns. */
  function U8LoopTurns(bound: nat, c: byte, fuel: nat): Option<nat>
    decreases fuel
  {
    if c as int >= bound then Some(0)
    else if fuel == 0 then None
    else
      match U8LoopTurns(bound, ((c as int + 1) % 256) as byte, fuel - 1)
      case Some(n) => Some(n + 1)
      case None => None
  }

  /** A bound of 256 or more is never reached by a uint8_t counter: the
      loop over a contour of 256 pixels or more, or over 256 pairs or more,
      never ends. */
  lemma {:induction false} U8LoopNeverEnds(bound: nat, c: byte, fuel: nat)
    requires bound >= 256
    ensures U8LoopTurns(bound, c, fuel) == None
    decreases fuel
  {
    if fuel > 0 {
      U8LoopNeverEnds(bound, ((c as int + 1) % 256) as byte, fuel - 1);
    }
  }

  /** Below 256 the loop takes bound - c turns. */
  lemma {:induction false} U8LoopEnds(bound: nat, c: byte, fuel: nat)
    requires bound < 256 && c as int <= bound && fuel >= bound - c as int
    ensures U8LoopTurns(bound, c, fuel) == Some(bound - c as int)
    decreases bound - c as int
  {
    if c as int < bound {
      U8LoopEnds(bound, (c as int + 1) as byte, fuel - 1);
    }
  }

  /** The two buffers `malloc`ed for one contour: its pixels, copied from
      `contours_size` on, and their flags, all KEEP. */
  method NewContour(contours: array<EdgeTrack>, start: nat, length: nat)
      returns (newContour: array<EdgeTrack>, toRemove: array<byte>)
    requires start + length <= contours.Length
    ensures fresh(newContour) && fresh(toRemove)
    ensures newContour[..] == contours[start..start + length]
    ensures toRemove[..] == AllKeep(length)
  {
    newContour := new EdgeTrack[length](_ => EdgeTrack(Coord(0, 0), 0, false, White));
    toRemove := new byte[length];
    var m := 0;
    while m < length
      invariant m <= length
      invariant forall i | 0 <= i < m :: toRemove[i] == Keep
    {
      toRemove[m] := Keep;
      m := m + 1;
    }
    var n := 0;
    while n < length
      invariant n <= length
      invariant forall i | 0 <= i < n :: newContour[i] == contours[start + i]
      invariant forall i | 0 <= i < length :: toRemove[i] == Keep
    {
      newContour[n] := contours[start + n];
      n := n + 1;
    }
    assert toRemove[..] == AllKeep(length);
  }

  /** The loop that copies the pixels flagged KEEP to `opt_contours_size`
      and on. */
  method CopyKept(contours: array<EdgeTrack>, os: nat, newContour: array<EdgeTrack>, toRemove: array<byte>)
      returns (os': nat)
    requires newContour != contours
    requires toRemove.Length == newContour.Length && os + newContour.Length <= contours.Length
    modifies contours
    ensures os' <= os + newContour.Length
    ensures contours[..os'] == old(contours[..os]) + Kept(old(newContour[..]), toRemove[..])
    ensures forall i | os' <= i < contours.Length :: contours[i] == old(contours[i])
  {
    ghost var body, flags := newContour[..], toRemove[..];
    os' := os;
    var j := 0;
    while j < newContour.Length
      invariant j <= newContour.Length
      invariant newContour[..] == body
      invariant os <= os' <= os + j
      invariant contours[..os'] == old(contours[..os]) + Kept(body[..j], flags[..j])
      invariant forall i | os' <= i < contours.Length :: contours[i] == old(contours[i])
    {
      assert body[..j + 1][..j] == body[..j] && flags[..j + 1][..j] == flags[..j];
      if toRemove[j] == Keep {
        contours[os'] := newContour[j];
        os' := os' + 1;
      }
      j := j + 1;
    }
    assert body[..j] == body && flags[..j] == flags;
  }

  /** The optimisation of one contour held in `new_contour`, and the copy
      of the pixels it keeps. */
  method ThinInto(contours: array<EdgeTrack>, os: nat, newContour: array<EdgeTrack>, toRemove: array<byte>,
                  dist: (Coord, Coord, Coord) -> real) returns (os': nat)
    requires newContour != contours && newContour.Length >= 1
    requires toRemove[..] == AllKeep(newContour.Length) && os + newContour.Length <= contours.Length
    modifies contours, toRemove
    ensures os' <= os + newContour.Length
    ensures contours[..os'] == old(contours[..os]) + Thinned(old(newContour[..]), dist)
    ensures forall i | os' <= i < contours.Length :: contours[i] == old(contours[i])
  {
    ghost var body := newContour[..];
    ContourOptimization(newContour, 0, newContour.Length - 1, toRemove, dist);
    assert toRemove[..] == Optimized(body, dist, AllKeep(|body|), 0, |body| - 1);
    os' := CopyKept(contours, os, newContour, toRemove);
  }

  /** The branch of a contour of three pixels or more. */
  method OptimizeLong(contours: array<EdgeTrack>, os: nat, start: nat, end: nat,
                      dist: (Coord, Coord, Coord) -> real) returns (os': nat)
    requires os <= start && start + 2 <= end < contours.Length
    modifies contours
    ensures os' <= os + (end + 1 - start)
    ensures var seg := old(contours[start..end + 1]);
            contours[..os'] == old(contours[..os]) + Thinned(Body(seg), dist) +
                               (if Closed(seg) then [seg[|seg| - 1]] else [])
    ensures forall j | os' <= j < contours.Length :: contours[j] == old(contours[j])
  {
    ghost var seg := contours[start..end + 1];
    ghost var body := Body(seg);
    var length := end - start + 1;
    var closed := false;
    if contours[start].pos == contours[end].pos {
      length := length - 1;
      closed := true;
    }
    assert closed == Closed(seg) && length == |body|;
    var newContour, toRemove := NewContour(contours, start, length);
    assert newContour[..] == body;
    os' := ThinInto(contours, os, newContour, toRemove, dist);
    if closed {
      contours[os'] := contours[start + length];
      os' := os' + 1;
      assert contours[..os'] == old(contours[..os]) + Thinned(body, dist) + [seg[|seg| - 1]];
    }
  }

  /** One pair of `path_optimization`: `os` is `opt_contours_size`, and
      `start`, which the main loop proves equal to `contours_size`, is where
      the pair's pixels are read from. */
  method OptimizePair(contours: array<EdgeTrack>, os: nat, start: nat, end: nat,
                      dist: (Coord, Coord, Coord) -> real) returns (os': nat)
    requires os <= start < end < contours.Length
    modifies contours
    ensures os' == os + |PairOutput(old(contours[start..end + 1]), dist)|
    ensures contours[..os'] == old(contours[..os]) + PairOutput(old(contours[start..end + 1]), dist)
    ensures forall j | os' <= j < contours.Length :: contours[j] == old(contours[j])
  {
    ghost var seg := contours[start..end + 1];
    if end - start == 1 {
      contours[os] := contours[start];
      contours[os + 1] := contours[start + 1];
      os' := os + 2;
      assert contours[..os'] == old(contours[..os]) + seg;
    } else {
      PairOutputEnds(seg, dist);
      os' := OptimizeLong(contours, os, start, end, dist);
      assert PairOutput(seg, dist) == Thinned(Body(seg), dist) + (if Closed(seg) then [seg[|seg| - 1]] else []);
    }
  }

  /** One turn of `path_optimization`'s loop over the pairs: the i-th pair
      is read where the earlier ones ended and its output is written at
      `opt_contours_size`. */
  method OptimizeNext(contours: array<EdgeTrack>, edges: array<EdgePos>, dist: (Coord, Coord, Coord) -> real,
                      i: nat, os: nat, ghost original: seq<EdgeTrack>) returns (os': nat)
    requires Chained(edges[..], contours.Length) && i < edges.Length / 2 && |original| == contours.Length
    requires os <= Consumed(edges[..], i) && os <= contours.Length
    requires forall j | os <= j < contours.Length :: contours[j] == original[j]
    modifies contours
    ensures os' <= Consumed(edges[..], i + 1) && os' <= contours.Length
    ensures contours[..os'] == old(contours[..os]) + PairOutput(Segment(original, edges[..], i), dist)
    ensures forall j | os' <= j < contours.Length :: contours[j] == original[j]
  {
    ConsumedIsStart(edges[..], contours.Length, i);
    var startIndex, endIndex := edges[i * 2].index as nat, edges[i * 2 + 1].index as nat;
    assert startIndex == StartOf(edges[..], i) && endIndex == EndOf(edges[..], i);
    assert contours[startIndex..endIndex + 1] == Segment(original, edges[..], i);
    PairOutputEnds(Segment(original, edges[..], i), dist);
    os' := OptimizePair(contours, os, startIndex, endIndex, dist);
  }

  /** `path_optimization(contours, edges, size_edges)`, with counters that
      do not wrap around; returns `opt_contours_size`. */
  method PathOptimization(contours: array<EdgeTrack>, edges: array<EdgePos>,
                          dist: (Coord, Coord, Coord) -> real) returns (optSize: nat)
    requires Chained(edges[..], contours.Length)
    modifies contours
    ensures optSize <= contours.Length
    ensures contours[..optSize] == Compacted(old(contours[..]), edges[..], dist, edges.Length / 2)
    ensures forall j | optSize <= j < contours.Length :: contours[j] == old(contours[j])
  {
    ghost var original, pairs := contours[..], edges[..];
    var n := edges.Length / 2;
    var os: nat := 0;
    var i: nat := 0;
    while i < n
      invariant i <= n
      invariant os <= Consumed(pairs, i) <= contours.Length
      invariant contours[..os] == Compacted(original, pairs, dist, i)
      invariant forall j | os <= j < contours.Length :: contours[j] == original[j]
    {
      ghost var front := contours[..os];
      os := OptimizeNext(contours, edges, dist, i, os, original);
      assert contours[..os] == front + PairOutput(Segment(original, pairs, i), dist);
      i := i + 1;
    }
    optSize := os;
  }
}
