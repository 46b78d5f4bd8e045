/** The last steps of the path planner (src/modules/mod_path.c):
    `create_final_path` lays the ordered contours end to end, starting from
    the robot's initial position, and `path_planning` gives up early on an
    image without an edge pixel. */
module PathFinal {
  import opened Types
  import opened PathTypes
  import Image

  /** The positions of the pixels at the given indices. */
  function PointsAt(contours: seq<EdgeTrack>, sp: seq<nat>): (r: seq<Coord>)
    requires forall t | 0 <= t < |sp| :: sp[t] < |contours|
    ensures |r| == |sp|
  {
    if sp == [] then [] else PointsAt(contours, sp[..|sp| - 1]) + [contours[sp[|sp| - 1]].pos]
  }

  /** The t-th point is the position of the pixel at the t-th index. */
  lemma {:induction false} PointAt(contours: seq<EdgeTrack>, sp: seq<nat>, t: nat)
    requires forall t | 0 <= t < |sp| :: sp[t] < |contours|
    requires t < |sp|
    ensures PointsAt(contours, sp)[t] == contours[sp[t]].pos
  {
    if t < |sp| - 1 {
      PointAt(contours, sp[..|sp| - 1], t);
    }
  }

  /** White for the first index, then the colours of the pixels at the
      others. */
  function ColoursAt(contours: seq<EdgeTrack>, sp: seq<nat>): (r: seq<byte>)
    requires forall t | 0 <= t < |sp| :: sp[t] < |contours|
    ensures |r| == |sp|
  {
    if sp == [] then []
    else if |sp| == 1 then [White]
    else ColoursAt(contours, sp[..|sp| - 1]) + [contours[sp[|sp| - 1]].color]
  }

  /** The t-th colour is white for t = 0 and the colour of the pixel at the
      t-th index otherwise. */
  lemma {:induction false} ColourAt(contours: seq<EdgeTrack>, sp: seq<nat>, t: nat)
    requires forall t | 0 <= t < |sp| :: sp[t] < |contours|
    requires t < |sp|
    ensures ColoursAt(contours, sp)[t] == if t == 0 then White else contours[sp[t]].color
  {
    if t < |sp| - 1 {
      ColourAt(contours, sp[..|sp| - 1], t);
    }
  }

  /** The points the p-th pair contributes: every pixel its span visits. */
  function PairPoints(contours: seq<EdgeTrack>, edges: seq<EdgePos>, p: nat): (r: seq<Coord>)
    requires 2 * p + 1 < |edges| && IndicesBelow(edges, |contours|)
    ensures |r| == |PairSpan(edges, p)|
  {
    PointsAt(contours, PairSpan(edges, p))
  }

  /** The colours the p-th pair contributes: white (pen up) to reach its
      first pixel, then each pixel's own colour. */
  function PairColours(contours: seq<EdgeTrack>, edges: seq<EdgePos>, p: nat): (r: seq<byte>)
    requires 2 * p + 1 < |edges| && IndicesBelow(edges, |contours|)
    ensures |r| == |PairSpan(edges, p)|
  {
    ColoursAt(contours, PairSpan(edges, p))
  }

  /** The p-th pair's t-th point is the position of the t-th pixel of its
      span. */
  lemma PairPointAt(contours: seq<EdgeTrack>, edges: seq<EdgePos>, p: nat, t: nat)
    requires 2 * p + 1 < |edges| && IndicesBelow(edges, |contours|) && t < |PairSpan(edges, p)|
    ensures PairPoints(contours, edges, p)[t] == contours[PairSpan(edges, p)[t]].pos
  {
    PointAt(contours, PairSpan(edges, p), t);
  }

  /** The p-th pair's t-th colour is white for t = 0 and the colour of the
      t-th pixel of its span otherwise. */
  lemma PairColourAt(contours: seq<EdgeTrack>, edges: seq<EdgePos>, p: nat, t: nat)
    requires 2 * p + 1 < |edges| && IndicesBelow(edges, |contours|) && t < |PairSpan(edges, p)|
    ensures PairColours(contours, edges, p)[t] == if t == 0 then White else contours[PairSpan(edges, p)[t]].color
  {
    ColourAt(contours, PairSpan(edges, p), t);
  }

  /** `final_path` after the first p pairs: the initial position, then the
      pairs' points in order. */
  function FinalPath(contours: seq<EdgeTrack>, edges: seq<EdgePos>, p: nat): (r: seq<Coord>)
    requires 2 * p <= |edges| && IndicesBelow(edges, |contours|)
  {
    if p == 0 then [InitPos] else FinalPath(contours, edges, p - 1) + PairPoints(contours, edges, p - 1)
  }

  /** `color` after the first p pairs: white, then the pairs' colours. */
  function FinalColours(contours: seq<EdgeTrack>, edges: seq<EdgePos>, p: nat): (r: seq<byte>)
    requires 2 * p <= |edges| && IndicesBelow(edges, |contours|)
  {
    if p == 0 then [White] else FinalColours(contours, edges, p - 1) + PairColours(contours, edges, p - 1)
  }

  /** The path holds one point per visited pixel plus the start, and the
      colours match it point for point. */
  lemma {:induction false} FinalPathLength(contours: seq<EdgeTrack>, edges: seq<EdgePos>, p: nat)
    requires 2 * p <= |edges| && IndicesBelow(edges, |contours|)
    ensures |FinalPath(contours, edges, p)| == 1 + Offset(edges, p)
    ensures |FinalColours(contours, edges, p)| == 1 + Offset(edges, p)
  {
    if p > 0 {
      FinalPathLength(contours, edges, p - 1);
    }
  }

  /** The path starts at the robot's initial position, with the pen up. */
  lemma {:induction false} FinalPathStart(contours: seq<EdgeTrack>, edges: seq<EdgePos>, q: nat)
    requires 2 * q <= |edges| && IndicesBelow(edges, |contours|)
    ensures |FinalPath(contours, edges, q)| >= 1 && |FinalColours(contours, edges, q)| >= 1
    ensures FinalPath(contours, edges, q)[0] == InitPos && FinalColours(contours, edges, q)[0] == White
  {
    if q > 0 {
      FinalPathStart(contours, edges, q - 1);
    }
  }

  /** The path of the first p pairs is a prefix of the path of the first q. */
  lemma {:induction false} FinalPathPrefix(contours: seq<EdgeTrack>, edges: seq<EdgePos>, p: nat, q: nat)
    requires p <= q && 2 * q <= |edges| && IndicesBelow(edges, |contours|)
    ensures |FinalPath(contours, edges, p)| <= |FinalPath(contours, edges, q)|
    ensures FinalPath(contours, edges, q)[..|FinalPath(contours, edges, p)|] == FinalPath(contours, edges, p)
    decreases q - p
  {
    if p < q {
      FinalPathPrefix(contours, edges, p, q - 1);
      assert FinalPath(contours, edges, q) == FinalPath(contours, edges, q - 1) + PairPoints(contours, edges, q - 1);
    }
  }

  /** The colours of the first p pairs are a prefix of those of the first q. */
  lemma {:induction false} FinalColoursPrefix(contours: seq<EdgeTrack>, edges: seq<EdgePos>, p: nat, q: nat)
    requires p <= q && 2 * q <= |edges| && IndicesBelow(edges, |contours|)
    ensures |FinalColours(contours, edges, p)| <= |FinalColours(contours, edges, q)|
    ensures FinalColours(contours, edges, q)[..|FinalColours(contours, edges, p)|] == FinalColours(contours, edges, p)
    decreases q - p
  {
    if p < q {
      FinalColoursPrefix(contours, edges, p, q - 1);
      assert FinalColours(contours, edges, q) == FinalColours(contours, edges, q - 1) + PairColours(contours, edges, q - 1);
    }
  }

  /** A sequence that starts with front + tail holds tail's t-th element
      right after front. */
  lemma PrefixAt<T>(whole: seq<T>, front: seq<T>, tail: seq<T>, t: nat)
    requires t < |tail| && |front| + |tail| <= |whole| && whole[..|front| + |tail|] == front + tail
    ensures whole[|front| + t] == tail[t]
  {
    assert whole[|front| + t] == whole[..|front| + |tail|][|front| + t];
  }

  /** Point 1 + Offset(p) + t of the path is the t-th pixel of the p-th
      pair's span. */
  lemma FinalPointAt(contours: seq<EdgeTrack>, edges: seq<EdgePos>, q: nat, p: nat, t: nat)
    requires 2 * q <= |edges| && IndicesBelow(edges, |contours|)
    requires p < q && t < |PairSpan(edges, p)|
    ensures |FinalPath(contours, edges, q)| == 1 + Offset(edges, q)
    ensures 1 + Offset(edges, p) + t < 1 + Offset(edges, q)
    ensures FinalPath(contours, edges, q)[1 + Offset(edges, p) + t] == contours[PairSpan(edges, p)[t]].pos
  {
    FinalPathLength(contours, edges, q);
    FinalPathLength(contours, edges, p);
    FinalPathPrefix(contours, edges, p + 1, q);
    var front, points := FinalPath(contours, edges, p), PairPoints(contours, edges, p);
    assert FinalPath(contours, edges, p + 1) == front + points;
    assert |front| + |points| <= |FinalPath(contours, edges, q)|;
    PrefixAt(FinalPath(contours, edges, q), front, points, t);
    PairPointAt(contours, edges, p, t);
  }

  /** The colour at point 1 + Offset(p) + t is white (pen up) for the first
      pixel of the p-th pair and that pixel's own colour after it. */
  lemma FinalColourAt(contours: seq<EdgeTrack>, edges: seq<EdgePos>, q: nat, p: nat, t: nat)
    requires 2 * q <= |edges| && IndicesBelow(edges, |contours|)
    requires p < q && t < |PairSpan(edges, p)|
    ensures |FinalColours(contours, edges, q)| == 1 + Offset(edges, q)
    ensures 1 + Offset(edges, p) + t < 1 + Offset(edges, q)
    ensures FinalColours(contours, edges, q)[1 + Offset(edges, p) + t] ==
              (if t == 0 then White else contours[PairSpan(edges, p)[t]].color)
  {
    FinalPathLength(contours, edges, q);
    FinalPathLength(contours, edges, p);
    FinalColoursPrefix(contours, edges, p + 1, q);
    var front, colours := FinalColours(contours, edges, p), PairColours(contours, edges, p);
    assert FinalColours(contours, edges, p + 1) == front + colours;
    assert |front| + |colours| <= |FinalColours(contours, edges, q)|;
    PrefixAt(FinalColours(contours, edges, q), front, colours, t);
    PairColourAt(contours, edges, p, t);
  }

  /** One turn of a pair's loop: the pixel's position goes to slot k of the
      path, with white (pen up) for the pair's first pixel and the pixel's
      own colour otherwise. */
  method WritePoint(contours: seq<EdgeTrack>, j: nat, first: bool, k: nat,
                    color: array<byte>, finalPath: array<Coord>)
    requires j < |contours| && k < color.Length && k < finalPath.Length
    modifies color, finalPath
    ensures finalPath[..k + 1] == old(finalPath[..k]) + [contours[j].pos]
    ensures color[..k + 1] == old(color[..k]) + [if first then White else contours[j].color]
  {
    finalPath[k] := contours[j].pos;
    if first {
      color[k] := White;
    } else {
      color[k] := contours[j].color;
    }
  }

  /** Writing the next element of xs after a buffer that holds `before`
      and the first n elements of xs leaves it holding one more. */
  lemma AppendOne<T>(prev: seq<T>, now: seq<T>, before: seq<T>, xs: seq<T>, n: nat)
    requires n < |xs| && prev == before + xs[..n] && now == prev + [xs[n]]
    ensures now == before + xs[..n + 1]
  {
    assert xs[..n + 1] == xs[..n] + [xs[n]];
  }

  /** A pair's loop when its end index b is the larger: indices a up to b. */
  method WriteUp(contours: seq<EdgeTrack>, a: nat, b: nat, k: nat,
                 color: array<byte>, finalPath: array<Coord>) returns (k': nat)
    requires a < b < |contours|
    requires k + |Span(a, b)| <= color.Length && k + |Span(a, b)| <= finalPath.Length
    modifies color, finalPath
    ensures k' == k + |Span(a, b)|
    ensures finalPath[..k'] == old(finalPath[..k]) + PointsAt(contours, Span(a, b))
    ensures color[..k'] == old(color[..k]) + ColoursAt(contours, Span(a, b))
  {
    ghost var sp := Span(a, b);
    ghost var points, colours := PointsAt(contours, sp), ColoursAt(contours, sp);
    ghost var before, beforeColours := finalPath[..k], color[..k];
    k' := k;
    var j := a;
    while j <= b
      invariant a <= j <= b + 1 && k' == k + (j - a)
      invariant finalPath[..k'] == before + points[..k' - k]
      invariant color[..k'] == beforeColours + colours[..k' - k]
    {
      ghost var n, prev, prevColours := k' - k, finalPath[..k'], color[..k'];
      assert sp[n] == j;
      PointAt(contours, sp, n);
      ColourAt(contours, sp, n);
      WritePoint(contours, j, j == a, k', color, finalPath);
      AppendOne(prev, finalPath[..k' + 1], before, points, n);
      AppendOne(prevColours, color[..k' + 1], beforeColours, colours, n);
      k' := k' + 1;
      j := j + 1;
    }
    assert points[..k' - k] == points && colours[..k' - k] == colours;
  }

  /** A pair's loop when its end index b is the smaller: indices a down to
      b, on the `int16_t` counter. */
  method WriteDown(contours: seq<EdgeTrack>, a: nat, b: nat, k: nat,
                   color: array<byte>, finalPath: array<Coord>) returns (k': nat)
    requires b < a < |contours|
    requires k + |Span(a, b)| <= color.Length && k + |Span(a, b)| <= finalPath.Length
    modifies color, finalPath
    ensures k' == k + |Span(a, b)|
    ensures finalPath[..k'] == old(finalPath[..k]) + PointsAt(contours, Span(a, b))
    ensures color[..k'] == old(color[..k]) + ColoursAt(contours, Span(a, b))
  {
    ghost var sp := Span(a, b);
    ghost var points, colours := PointsAt(contours, sp), ColoursAt(contours, sp);
    ghost var before, beforeColours := finalPath[..k], color[..k];
    k' := k;
    var j: int := a;
    while j >= b
      invariant b - 1 <= j <= a && k' == k + (a - j)
      invariant finalPath[..k'] == before + points[..k' - k]
      invariant color[..k'] == beforeColours + colours[..k' - k]
    {
      ghost var n, prev, prevColours := k' - k, finalPath[..k'], color[..k'];
      assert sp[n] == j;
      PointAt(contours, sp, n);
      ColourAt(contours, sp, n);
      WritePoint(contours, j, j == a, k', color, finalPath);
      AppendOne(prev, finalPath[..k' + 1], before, points, n);
      AppendOne(prevColours, color[..k' + 1], beforeColours, colours, n);
      k' := k' + 1;
      j := j - 1;
    }
    assert points[..k' - k] == points && colours[..k' - k] == colours;
  }

  /** One pair's loop: upwards when its end index b is the larger,
      downwards when it is the smaller, nothing when a pair starts and ends
      on the same pixel. */
  method WritePair(contours: seq<EdgeTrack>, a: nat, b: nat, k: nat,
                   color: array<byte>, finalPath: array<Coord>) returns (k': nat)
    requires a < |contours| && b < |contours|
    requires k + |Span(a, b)| <= color.Length && k + |Span(a, b)| <= finalPath.Length
    modifies color, finalPath
    ensures k' == k + |Span(a, b)|
    ensures finalPath[..k'] == old(finalPath[..k]) + PointsAt(contours, Span(a, b))
    ensures color[..k'] == old(color[..k]) + ColoursAt(contours, Span(a, b))
  {
    if a < b {
      k' := WriteUp(contours, a, b, k, color, finalPath);
    } else if b < a {
      k' := WriteDown(contours, a, b, k, color, finalPath);
    } else {
      k' := k;
      assert PointsAt(contours, Span(a, b)) == [] && ColoursAt(contours, Span(a, b)) == [];
    }
  }

  /** The p-th pair, running from contour index a to b, extends the path
      by the points of that span and the offset by its length. */
  lemma FinalPathStep(contours: seq<EdgeTrack>, edges: seq<EdgePos>, p: nat, a: nat, b: nat)
    requires 2 * p + 1 < |edges| && IndicesBelow(edges, |contours|)
    requires a == edges[2 * p].index && b == edges[2 * p + 1].index
    ensures a < |contours| && b < |contours|
    ensures Offset(edges, p + 1) == Offset(edges, p) + |Span(a, b)|
    ensures FinalPath(contours, edges, p + 1) == FinalPath(contours, edges, p) + PointsAt(contours, Span(a, b))
    ensures FinalColours(contours, edges, p + 1) == FinalColours(contours, edges, p) + ColoursAt(contours, Span(a, b))
  {
    assert PairSpan(edges, p) == Span(a, b);
  }

  /** The buffers hold the path and the colours of the first p pairs. */
  ghost predicate Laid(path: seq<Coord>, colours: seq<byte>, contours: seq<EdgeTrack>, edges: seq<EdgePos>, p: nat)
    requires 2 * p <= |edges| && IndicesBelow(edges, |contours|)
  {
    path == FinalPath(contours, edges, p) && colours == FinalColours(contours, edges, p)
  }

  /** One turn of `create_final_path`'s loop: the p-th of n pairs, at edge
      index i, appended to the path laid so far. */
  method LayPair(contours: seq<EdgeTrack>, edges: seq<EdgePos>, i: nat, ghost p: nat, ghost n: nat, k: nat,
                 color: array<byte>, finalPath: array<Coord>) returns (k': nat)
    requires i == 2 * p && p < n && 2 * n <= |edges| && IndicesBelow(edges, |contours|)
    requires 1 + Offset(edges, n) <= color.Length && 1 + Offset(edges, n) <= finalPath.Length
    requires k == 1 + Offset(edges, p) <= 1 + Offset(edges, n)
    requires Laid(finalPath[..k], color[..k], contours, edges, p)
    modifies color, finalPath
    ensures k' == 1 + Offset(edges, p + 1) <= 1 + Offset(edges, n)
    ensures Laid(finalPath[..k'], color[..k'], contours, edges, p + 1)
  {
    OffsetMonotone(edges, p + 1, n);
    var a, b := edges[i].index, edges[i + 1].index;
    FinalPathStep(contours, edges, p, a, b);
    k' := WritePair(contours, a, b, k, color, finalPath);
  }

  /** The pair loop of `create_final_path`, over the n pairs of `edges`,
      after the start point has been written. */
  method LayPairs(contours: seq<EdgeTrack>, edges: seq<EdgePos>, n: nat, color: array<byte>, finalPath: array<Coord>)
    requires |edges| == 2 * n && IndicesBelow(edges, |contours|)
    requires 1 + Offset(edges, n) <= color.Length && 1 + Offset(edges, n) <= finalPath.Length
    requires Laid(finalPath[..1], color[..1], contours, edges, 0)
    modifies color, finalPath
    ensures Laid(finalPath[..1 + Offset(edges, n)], color[..1 + Offset(edges, n)], contours, edges, n)
  {
    var k := 1;
    var i := 0;
    ghost var p := 0;
    OffsetMonotone(edges, 0, n);
    while i < |edges|
      invariant i == 2 * p && p <= n
      invariant k == 1 + Offset(edges, p) <= 1 + Offset(edges, n)
      invariant Laid(finalPath[..k], color[..k], contours, edges, p)
    {
      k := LayPair(contours, edges, i, p, n, k, color, finalPath);
      i := i + 2;
      p := p + 1;
    }
    assert p == n && k == 1 + Offset(edges, n);
  }

  /** `create_final_path(color, size_edges, final_path)`. */
  method CreateFinalPath(contours: seq<EdgeTrack>, edges: seq<EdgePos>, color: array<byte>, finalPath: array<Coord>)
    requires |edges| % 2 == 0 && IndicesBelow(edges, |contours|)
    requires 1 + Offset(edges, |edges| / 2) <= color.Length
    requires 1 + Offset(edges, |edges| / 2) <= finalPath.Length
    modifies color, finalPath
    ensures finalPath[..1 + Offset(edges, |edges| / 2)] == FinalPath(contours, edges, |edges| / 2)
    ensures color[..1 + Offset(edges, |edges| / 2)] == FinalColours(contours, edges, |edges| / 2)
  {
    var n := |edges| / 2;
    finalPath[0] := InitPos;
    color[0] := White;
    LayPairs(contours, edges, n, color, finalPath);
  }

  /** The number of pixels equal to `strong` in columns x0 to 99 and, in
      column x0, rows y0 to 89: what is left to count. */
  function StrongLeft(img: seq<byte>, strong: byte, x0: nat, y0: nat): nat
    requires |img| >= Image.Pixels
    decreases Image.ImLength - x0, Image.ImHeight - y0
  {
    if x0 >= Image.ImLength then 0
    else if y0 >= Image.ImHeight then StrongLeft(img, strong, x0 + 1, 0)
    else (if img[Image.Position(x0, y0)] == strong then 1 else 0) + StrongLeft(img, strong, x0, y0 + 1)
  }

  /** The count is zero exactly when no pixel left to visit is `strong`. */
  lemma {:induction false} StrongLeftZero(img: seq<byte>, strong: byte, x0: nat, y0: nat)
    requires |img| >= Image.Pixels
    ensures StrongLeft(img, strong, x0, y0) == 0 <==>
            forall x, y | x0 <= x < Image.ImLength && 0 <= y < Image.ImHeight && (x > x0 || y >= y0) ::
              img[Image.Position(x, y)] != strong
    decreases Image.ImLength - x0, Image.ImHeight - y0
  {
    if x0 < Image.ImLength {
      if y0 >= Image.ImHeight {
        StrongLeftZero(img, strong, x0 + 1, 0);
      } else {
        StrongLeftZero(img, strong, x0, y0 + 1);
      }
    }
  }

  /** The early exit of `path_planning`: no path is planned exactly when no
      pixel of the 100 x 90 edge image is a strong pixel. */
  lemma NoStrongPixel(img: seq<byte>, strong: byte)
    requires |img| >= Image.Pixels
    ensures StrongLeft(img, strong, 0, 0) == 0 <==> forall p | 0 <= p < Image.Pixels :: img[p] != strong
  {
    StrongLeftZero(img, strong, 0, 0);
    if StrongLeft(img, strong, 0, 0) == 0 {
      forall p | 0 <= p < Image.Pixels
        ensures img[p] != strong
      {
        assert p == Image.Position(p % Image.ImLength, p / Image.ImLength);
      }
    }
  }

  /** The inner counting loop of `path_planning`: the strong pixels of column x. */
  method CountColumn(img: array<byte>, strong: byte, x: nat) returns (count: nat)
    requires img.Length >= Image.Pixels && x < Image.ImLength
    ensures count + StrongLeft(img[..], strong, x + 1, 0) == StrongLeft(img[..], strong, x, 0)
  {
    ghost var pixels := img[..];
    count := 0;
    var y := 0;
    while y < Image.ImHeight
      invariant y <= Image.ImHeight
      invariant count + StrongLeft(pixels, strong, x, y) == StrongLeft(pixels, strong, x, 0)
    {
      var pos := Image.Position(x, y);
      assert img[pos] == pixels[pos];
      if img[pos] == strong {
        count := count + 1;
      }
      y := y + 1;
    }
  }

  /** The counting loops at the head of `path_planning`, `nb_pixels`. */
  method CountStrongPixels(img: array<byte>, strong: byte) returns (nbPixels: nat)
    requires img.Length >= Image.Pixels
    ensures nbPixels == StrongLeft(img[..], strong, 0, 0)
    ensures nbPixels == 0 <==> forall p | 0 <= p < Image.Pixels :: img[p] != strong
  {
    nbPixels := 0;
    var x := 0;
    while x < Image.ImLength
      invariant x <= Image.ImLength
      invariant nbPixels + StrongLeft(img[..], strong, x, 0) == StrongLeft(img[..], strong, 0, 0)
    {
      var count := CountColumn(img, strong, x);
      nbPixels := nbPixels + count;
      x := x + 1;
    }
    NoStrongPixel(img[..], strong);
  }
}
