/** The buffers of the path planner (src/modules/include/mod_path.h): the
    `contours` buffer of traced pixels, the `edges` buffer of contour
    extremities grouped by pairs, and the firmware's colour codes. */
module PathTypes {
  import opened Types

  /** `edge_pos`: an extremity and its index in the `contours` buffer. */
  datatype EdgePos = EdgePos(pos: Coord, index: u16)

  /** `edge_track`: a traced pixel, its label, whether it ends a contour and
      its colour code. */
  datatype EdgeTrack = EdgeTrack(pos: Coord, contourLabel: byte, isExtremity: bool, color: byte)

  /** `enum colour` of the firmware, as stored in the byte buffers. */
  const White: byte := 0
  const Black: byte := 1
  const Red: byte := 2
  const Blue: byte := 3
  const Green: byte := 4

  /** `enum edge_status` */
  const StatusStart: byte := 0
  const StatusEnd: byte := 1

  /** The image has at most 100 · 90 active pixels, and `path_planning`
      allocates `nb_pixels*4/3` contour slots for them. */
  const MaxContours := 9000 * 4 / 3

  /** `INIT_ROBPOS_PX`, `INIT_ROBPOS_PY`: where the robot starts. */
  const InitPos := Coord(50, 0)

  /** The contour indices a pair's loops visit, in order: upwards from a to
      b inclusive when b > a, downwards when b < a, none when they are
      equal. */
  function Span(a: nat, b: nat): (r: seq<nat>)
    ensures |r| == if a == b then 0 else if a < b then b - a + 1 else a - b + 1
    ensures a < b ==> forall t | 0 <= t < |r| :: r[t] == a + t
    ensures b < a ==> forall t | 0 <= t < |r| :: r[t] == a - t
    ensures a != b ==> r[0] == a && r[|r| - 1] == b
  {
    if a < b then seq(b - a + 1, t => a + t)
    else if b < a then seq(a - b + 1, t => a - t)
    else []
  }

  /** Every index a span visits lies between its two ends. */
  lemma SpanBetween(a: nat, b: nat, t: nat)
    requires t < |Span(a, b)|
    ensures Min(a, b) <= Span(a, b)[t] <= (if a < b then b else a)
  {
  }

  /** The span of the p-th pair of `edges`. */
  function PairSpan(edges: seq<EdgePos>, p: nat): seq<nat>
    requires 2 * p + 1 < |edges|
  {
    Span(edges[2 * p].index, edges[2 * p + 1].index)
  }

  /** Every edge points into a contours buffer of n slots. */
  predicate IndicesBelow(edges: seq<EdgePos>, n: nat)
  {
    forall i | 0 <= i < |edges| :: edges[i].index < n
  }

  /** Where the p-th pair's points start once the pairs are laid end to end:
      the number of points the pairs before it span. */
  function Offset(edges: seq<EdgePos>, p: nat): nat
    requires 2 * p <= |edges|
  {
    if p == 0 then 0 else Offset(edges, p - 1) + |PairSpan(edges, p - 1)|
  }

  /** Pairs further on start further on. */
  lemma {:induction false} OffsetMonotone(edges: seq<EdgePos>, p: nat, q: nat)
    requires p <= q && 2 * q <= |edges|
    ensures Offset(edges, p) <= Offset(edges, q)
    decreases q - p
  {
    if p < q {
      OffsetMonotone(edges, p + 1, q);
    }
  }
}
