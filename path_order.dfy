/** The ordering steps of the path planner (src/modules/mod_path.c):
    `reorder_edges_index` points the edges at the compacted contours, and
    `nearest_neighbour` orders the pairs greedily, each pair starting at the
    extremity nearest to where the previous one ended. */
module PathOrder {
  import opened Types
  import opened PathTypes

  /** The indices of the pixels marked as extremities, in order. */
  function Extremities(contours: seq<EdgeTrack>): (r: seq<nat>)
    ensures |r| <= |contours|
    ensures forall k | 0 <= k < |r| :: r[k] < |contours| && contours[r[k]].isExtremity
  {
    if contours == [] then []
    else
      var n := |contours| - 1;
      Extremities(contours[..n]) + (if contours[n].isExtremity then [n] else [])
  }

  /** The list is exactly the extremities, each once, in increasing order. */
  lemma {:induction false} ExtremitiesExact(contours: seq<EdgeTrack>)
    ensures var r := Extremities(contours);
            (forall k, l | 0 <= k < l < |r| :: r[k] < r[l]) &&
            (forall i | 0 <= i < |contours| :: contours[i].isExtremity <==> i in r)
  {
    if contours != [] {
      var n := |contours| - 1;
      ExtremitiesExact(contours[..n]);
      var r := Extremities(contours);
      var front := Extremities(contours[..n]);
      forall i | 0 <= i < |contours|
        ensures contours[i].isExtremity <==> i in r
      {
        if i < n {
          assert contours[..n][i] == contours[i];
          assert i in r <==> i in front;
        }
      }
    }
  }

  /** `opt_contours_size - 1` stored in a uint16_t index. */
  function LastIndex(optSize: nat): u16
  {
    ((optSize - 1) % 0x1_0000) as u16
  }

  /** `reorder_edges_index(opt_contours_size, size_edges)`: the k-th
      extremity of the compacted contours becomes the index of the k-th
      edge, and the last edge is pointed at the last compacted pixel. */
  method ReorderEdgesIndex(contours: array<EdgeTrack>, edges: array<EdgePos>, optSize: nat)
    requires optSize <= contours.Length && optSize < 0x1_0000
    requires edges.Length >= 1 && |Extremities(contours[..optSize])| <= edges.Length
    modifies edges
    ensures var ext := Extremities(contours[..optSize]);
            forall k | 0 <= k < edges.Length - 1 ::
              edges[k] == if k < |ext| then old(edges[k]).(index := ext[k] as u16) else old(edges[k])
    ensures edges[edges.Length - 1] == old(edges[edges.Length - 1]).(index := LastIndex(optSize))
  {
    ReindexExtremities(contours, edges, optSize);
    edges[edges.Length - 1] := edges[edges.Length - 1].(index := LastIndex(optSize));
  }

  /** The loop of `reorder_edges_index`: the first edges receive the
      extremities, in order, and the others keep their index. */
  method ReindexExtremities(contours: array<EdgeTrack>, edges: array<EdgePos>, optSize: nat)
    requires optSize <= contours.Length && optSize < 0x1_0000
    requires |Extremities(contours[..optSize])| <= edges.Length
    modifies edges
    ensures edges[..] == Reindexed(old(edges[..]), Extremities(contours[..optSize]))
  {
    ghost var e0 := edges[..];
    ghost var ex: seq<nat> := [];
    var k := 0;
    var i := 0;
    assert contours[..0] == [];
    while i < optSize
      invariant i <= optSize && ex == Extremities(contours[..i]) && k == |ex| <= edges.Length
      invariant edges[..] == Reindexed(e0, ex)
    {
      ExtremitiesStep(contours[..], i);
      assert contours[..][..i] == contours[..i] && contours[..][..i + 1] == contours[..i + 1];
      ExtremitiesPrefix(contours[..optSize], i + 1);
      assert contours[..optSize][..i + 1] == contours[..i + 1];
      if contours[i].isExtremity {
        ReindexedStep(e0, ex, i);
        edges[k] := edges[k].(index := i as u16);
        k := k + 1;
        ex := ex + [i];
      }
      i := i + 1;
    }
    assert contours[..i] == contours[..optSize];
  }

  /** The edges with the first |ex| indices replaced by the extremities. */
  ghost function Reindexed(e: seq<EdgePos>, ex: seq<nat>): (r: seq<EdgePos>)
    requires |ex| <= |e| && forall k | 0 <= k < |ex| :: ex[k] < 0x1_0000
    ensures |r| == |e|
    ensures forall j | 0 <= j < |e| :: r[j] == if j < |ex| then e[j].(index := ex[j] as u16) else e[j]
  {
    seq(|e|, j requires 0 <= j < |e| => if j < |ex| then e[j].(index := ex[j] as u16) else e[j])
  }

  /** Recording one more extremity rewrites one more edge. */
  lemma ReindexedStep(e: seq<EdgePos>, ex: seq<nat>, i: nat)
    requires |ex| < |e| && i < 0x1_0000 && forall k | 0 <= k < |ex| :: ex[k] < 0x1_0000
    ensures Reindexed(e, ex + [i]) == Reindexed(e, ex)[|ex| := e[|ex|].(index := i as u16)]
  {
  }

  /** One more pixel adds its index when it is an extremity. */
  lemma ExtremitiesStep(contours: seq<EdgeTrack>, i: nat)
    requires i < |contours|
    ensures Extremities(contours[..i + 1]) ==
            Extremities(contours[..i]) + (if contours[i].isExtremity then [i] else [])
  {
    assert contours[..i + 1][..i] == contours[..i];
  }

  /** The extremities of a prefix are a prefix of the extremities. */
  lemma {:induction false} ExtremitiesPrefix(contours: seq<EdgeTrack>, i: nat)
    requires i <= |contours|
    ensures |Extremities(contours[..i])| <= |Extremities(contours)|
    ensures Extremities(contours[..i]) == Extremities(contours)[..|Extremities(contours[..i])|]
    decreases |contours| - i
  {
    if i < |contours| {
      var n := |contours| - 1;
      assert contours[..n][..i] == contours[..i];
      ExtremitiesPrefix(contours[..n], i);
    } else {
      assert contours[..i] == contours;
    }
  }

  /** `IM_HEIGHT_PX + IM_LENGTH_PX`, the distance every round starts from. */
  const MaxDistance: real := 190.0

  /** `min_index` and `min_distance` of the search. */
  datatype Choice = Choice(index: nat, distance: real)

  /** The search for the extremity nearest to `from`, from edge i on. */
  function NearestFrom(edges: seq<EdgePos>, from: Coord, dist: (Coord, Coord) -> real, i: nat, best: Choice): (r: Choice)
    ensures r.distance <= best.distance
    ensures r == best || (i <= r.index < |edges| && r.distance == dist(edges[r.index].pos, from) &&
                          r.distance < best.distance)
    ensures forall j | i <= j < |edges| :: dist(edges[j].pos, from) >= r.distance
    ensures r != best ==> forall j | i <= j < r.index :: dist(edges[j].pos, from) > r.distance
    decreases |edges| - i
  {
    if i >= |edges| then best
    else
      var d := dist(edges[i].pos, from);
      NearestFrom(edges, from, dist, i + 1, if d < best.distance then Choice(i, d) else best)
  }

  /** Where the robot stands before the round at `start`: its initial
      position in the first round, the end of the previous pair after. */
  function From(edges: seq<EdgePos>, start: nat): Coord
    requires start <= |edges|
  {
    if start == 0 then InitPos else edges[start - 1].pos
  }

  /** The index a round picks: the first of the nearest extremities from
      `start` on, or the previous round's `min_index` when none is nearer
      than 190. */
  function Nearest(edges: seq<EdgePos>, start: nat, prev: nat, dist: (Coord, Coord) -> real): (m: nat)
    requires start <= |edges|
    ensures m == prev || start <= m < |edges|
  {
    NearestFrom(edges, From(edges, start), dist, start, Choice(prev, MaxDistance)).index
  }

  /** The other extremity of the pair holding edge m. */
  function Partner(m: nat): nat
  {
    if m % 2 == 0 then m + 1 else m - 1
  }

  /** Both edges of the pair of m and the pair at s exist. */
  predicate Swappable(n: nat, s: nat, m: nat)
  {
    s % 2 == 0 && s + 1 < n && m < n && n % 2 == 0
  }

  /** The exchange of two edges. */
  function Swap(e: seq<EdgePos>, i: nat, j: nat): (r: seq<EdgePos>)
    requires i < |e| && j < |e|
    ensures |r| == |e|
  {
    e[i := e[j]][j := e[i]]
  }

  lemma SwapPermutes(e: seq<EdgePos>, i: nat, j: nat)
    requires i < |e| && j < |e|
    ensures multiset(Swap(e, i, j)) == multiset(e)
  {
  }

  /** What the six assignments of a round do: the pair holding edge m and
      the pair at s trade places, and edge m comes first. */
  function SwapPair(e: seq<EdgePos>, s: nat, m: nat): (r: seq<EdgePos>)
    requires Swappable(|e|, s, m)
    ensures |r| == |e|
  {
    if m % 2 == 0 then Swap(Swap(e, s, m), s + 1, m + 1)
    else Swap(Swap(Swap(e, s, m - 1), s + 1, m), s, s + 1)
  }

  /** A round moves the chosen pair to s, chosen extremity first, moves the
      pair that was at s to where the chosen one was, in its order, and
      leaves every other edge in place. */
  lemma SwapPairPlaces(e: seq<EdgePos>, s: nat, m: nat)
    requires Swappable(|e|, s, m)
    ensures var r := SwapPair(e, s, m);
            var base := m - m % 2;
            r[s] == e[m] && r[s + 1] == e[Partner(m)] &&
            (base != s ==> r[base] == e[s] && r[base + 1] == e[s + 1]) &&
            forall j | 0 <= j < |e| && j / 2 != s / 2 && j / 2 != m / 2 :: r[j] == e[j]
  {
  }

  /** A round only reorders the edges. */
  lemma SwapPairPermutes(e: seq<EdgePos>, s: nat, m: nat)
    requires Swappable(|e|, s, m)
    ensures multiset(SwapPair(e, s, m)) == multiset(e)
  {
    if m % 2 == 0 {
      EvenSwapPermutes(e, s, m);
    } else {
      OddSwapPermutes(e, s, m);
    }
  }

  /** The two exchanges of a round that picked a pair's first extremity. */
  lemma EvenSwapPermutes(e: seq<EdgePos>, s: nat, m: nat)
    requires Swappable(|e|, s, m) && m % 2 == 0
    ensures multiset(SwapPair(e, s, m)) == multiset(e)
  {
    TwoSwapsPermute(e, s, m, s + 1, m + 1);
  }

  /** The three exchanges of a round that picked a pair's second extremity. */
  lemma OddSwapPermutes(e: seq<EdgePos>, s: nat, m: nat)
    requires Swappable(|e|, s, m) && m % 2 == 1 && 0 < m
    ensures multiset(SwapPair(e, s, m)) == multiset(e)
  {
    assert SwapPair(e, s, m) == Swap(Swap(Swap(e, s, m - 1), s + 1, m), s, s + 1);
    ThreeSwapsPermute(e, s, m - 1, s + 1, m, s, s + 1);
  }

  lemma TwoSwapsPermute(e: seq<EdgePos>, i: nat, j: nat, k: nat, l: nat)
    requires i < |e| && j < |e| && k < |e| && l < |e|
    ensures multiset(Swap(Swap(e, i, j), k, l)) == multiset(e)
  {
    SwapPermutes(e, i, j);
    SwapPermutes(Swap(e, i, j), k, l);
  }

  lemma ThreeSwapsPermute(e: seq<EdgePos>, i: nat, j: nat, k: nat, l: nat, x: nat, y: nat)
    requires i < |e| && j < |e| && k < |e| && l < |e| && x < |e| && y < |e|
    ensures multiset(Swap(Swap(Swap(e, i, j), k, l), x, y)) == multiset(e)
  {
    TwoSwapsPermute(e, i, j, k, l);
    SwapPermutes(Swap(Swap(e, i, j), k, l), x, y);
  }

  /** `edges` and `status` as the rounds leave them. */
  datatype Tour = Tour(edges: seq<EdgePos>, status: seq<byte>)

  /** The rounds from `start` on, `prev` being the `min_index` left over
      from the round before. */
  function Rounds(edges: seq<EdgePos>, status: seq<byte>, start: nat, prev: nat, dist: (Coord, Coord) -> real): (t: Tour)
    requires |status| == |edges| && |edges| % 2 == 0 && start % 2 == 0 && start <= |edges|
    requires prev < |edges| || |edges| == 0
    ensures |t.edges| == |edges| && |t.status| == |status|
    decreases |edges| - start
  {
    if start + 1 >= |edges| then Tour(edges, status)
    else
      var m := Nearest(edges, start, prev, dist);
      Rounds(SwapPair(edges, start, m), status[start := if m % 2 == 0 then StatusStart else StatusEnd],
             start + 2, m, dist)
  }

  /** One round, unfolded: the pair nearest to where the robot stands is
      swapped to `start` and its status recorded, then the rounds go on. */
  lemma RoundsStep(edges: seq<EdgePos>, status: seq<byte>, start: nat, prev: nat, dist: (Coord, Coord) -> real)
    requires |status| == |edges| && |edges| % 2 == 0 && start % 2 == 0 && start + 1 < |edges|
    requires prev < |edges|
    ensures start + 2 <= |edges| && (start + 2) % 2 == 0
    ensures var m := Nearest(edges, start, prev, dist);
            Swappable(|edges|, start, m) &&
            Rounds(edges, status, start, prev, dist) ==
            Rounds(SwapPair(edges, start, m), status[start := if m % 2 == 0 then StatusStart else StatusEnd],
                   start + 2, m, dist)
  {
    EvenApart(|edges|, start);
    EvenNext(start);
  }

  /** Two even indices that differ are at least two apart. */
  lemma EvenApart(j: nat, start: nat)
    requires j % 2 == 0 && start % 2 == 0 && start < j
    ensures start + 2 <= j
  {
  }

  /** The next even index is even. */
  lemma EvenNext(start: nat)
    requires start % 2 == 0
    ensures (start + 2) % 2 == 0
  {
  }

  /** `nearest_neighbour` only reorders the edges. */
  lemma {:induction false} RoundsPermute(edges: seq<EdgePos>, status: seq<byte>, start: nat, prev: nat,
                                         dist: (Coord, Coord) -> real)
    requires |status| == |edges| && |edges| % 2 == 0 && start % 2 == 0 && start <= |edges|
    requires prev < |edges| || |edges| == 0
    ensures multiset(Rounds(edges, status, start, prev, dist).edges) == multiset(edges)
    decreases |edges| - start
  {
    if start + 1 < |edges| {
      var m := Nearest(edges, start, prev, dist);
      RoundsStep(edges, status, start, prev, dist);
      var e', s' := SwapPair(edges, start, m), status[start := if m % 2 == 0 then StatusStart else StatusEnd];
      SwapPairPermutes(edges, start, m);
      RoundsPermute(e', s', start + 2, m, dist);
    }
  }

  /** Each pair from `start` on gets a status, START when it keeps its
      order and END when it is reversed; the rest of `status` is kept. */
  lemma {:induction false} RoundsStatus(edges: seq<EdgePos>, status: seq<byte>, start: nat, prev: nat,
                                        dist: (Coord, Coord) -> real)
    requires |status| == |edges| && |edges| % 2 == 0 && start % 2 == 0 && start <= |edges|
    requires prev < |edges| || |edges| == 0
    ensures var t := Rounds(edges, status, start, prev, dist);
            forall j | 0 <= j < |status| && (j < start || j % 2 == 1) :: t.status[j] == status[j]
    ensures var t := Rounds(edges, status, start, prev, dist);
            forall j | start <= j < |status| && j % 2 == 0 :: t.status[j] == StatusStart || t.status[j] == StatusEnd
    decreases |edges| - start
  {
    var t := Rounds(edges, status, start, prev, dist);
    if start + 1 < |edges| {
      var m := Nearest(edges, start, prev, dist);
      RoundsStep(edges, status, start, prev, dist);
      var status' := status[start := if m % 2 == 0 then StatusStart else StatusEnd];
      RoundsStatus(SwapPair(edges, start, m), status', start + 2, m, dist);
      forall j | 0 <= j < |status| && (j < start || j % 2 == 1)
        ensures t.status[j] == status[j]
      {
        assert j != start && t.status[j] == status'[j];
      }
      forall j | start <= j < |status| && j % 2 == 0
        ensures t.status[j] == StatusStart || t.status[j] == StatusEnd
      {
        if j == start {
          assert t.status[j] == status'[start];
        } else {
          EvenApart(j, start);
        }
      }
    } else {
      assert start == |edges|;
    }
  }

  /** When some extremity lies nearer than 190, the round puts first the
      first of the nearest ones, and leaves the pairs before `start` alone. */
  lemma RoundPicksNearest(edges: seq<EdgePos>, start: nat, prev: nat, dist: (Coord, Coord) -> real, i: nat)
    requires Swappable(|edges|, start, prev)
    requires start <= i < |edges| && dist(edges[i].pos, From(edges, start)) < MaxDistance
    ensures var m := Nearest(edges, start, prev, dist);
            var r := SwapPair(edges, start, m);
            var d := dist(r[start].pos, From(edges, start));
            start <= m && r[start] == edges[m] && r[start + 1] == edges[Partner(m)] &&
            (forall j | start <= j < |edges| :: dist(edges[j].pos, From(edges, start)) >= d) &&
            (forall j | start <= j < m :: dist(edges[j].pos, From(edges, start)) > d) &&
            r[..start] == edges[..start]
  {
    var m := Nearest(edges, start, prev, dist);
    var c := NearestFrom(edges, From(edges, start), dist, start, Choice(prev, MaxDistance));
    assert c != Choice(prev, MaxDistance);
    SwapPairPlaces(edges, start, m);
    var r := SwapPair(edges, start, m);
    assert forall j | 0 <= j < start :: j / 2 != start / 2 && j / 2 != m / 2;
  }

  /** The search loop of one round. */
  method FindNearest(edges: array<EdgePos>, start: nat, from: Coord, prev: nat, dist: (Coord, Coord) -> real)
      returns (minIndex: nat)
    requires start <= edges.Length
    ensures minIndex == NearestFrom(edges[..], from, dist, start, Choice(prev, MaxDistance)).index
  {
    minIndex := prev;
    var minDistance := MaxDistance;
    var i := start;
    while i < edges.Length
      invariant start <= i <= edges.Length
      invariant NearestFrom(edges[..], from, dist, i, Choice(minIndex, minDistance))
                  == NearestFrom(edges[..], from, dist, start, Choice(prev, MaxDistance))
    {
      var distance := dist(edges[i].pos, from);
      if distance < minDistance {
        minDistance := distance;
        minIndex := i;
      }
      i := i + 1;
    }
  }

  /** The four assignments of a round whose nearest extremity is the
      start of its pair: the pair moves to `start` in its own order. */
  method MovePair(edges: array<EdgePos>, start: nat, minIndex: nat)
    requires Swappable(edges.Length, start, minIndex) && minIndex % 2 == 0
    modifies edges
    ensures edges[..] == SwapPair(old(edges[..]), start, minIndex)
  {
    ghost var e := edges[..];
    var startTemp, endTemp := edges[minIndex], edges[minIndex + 1];
    edges[minIndex] := edges[start];
    edges[minIndex + 1] := edges[start + 1];
    edges[start] := startTemp;
    edges[start + 1] := endTemp;
    assert forall j | 0 <= j < edges.Length :: edges[j] == SwapPair(e, start, minIndex)[j];
  }

  /** The four assignments of a round whose nearest extremity is the end
      of its pair: the pair moves to `start` reversed. */
  method ReversePair(edges: array<EdgePos>, start: nat, minIndex: nat)
    requires Swappable(edges.Length, start, minIndex) && minIndex % 2 == 1
    modifies edges
    ensures edges[..] == SwapPair(old(edges[..]), start, minIndex)
  {
    ghost var e := edges[..];
    var startTemp, endTemp := edges[minIndex], edges[minIndex - 1];
    edges[minIndex - 1] := edges[start];
    edges[minIndex] := edges[start + 1];
    edges[start] := startTemp;
    edges[start + 1] := endTemp;
    assert forall j | 0 <= j < edges.Length :: edges[j] == SwapPair(e, start, minIndex)[j];
  }

  /** The assignments that end a round. */
  method SwapEdges(edges: array<EdgePos>, status: array<byte>, start: nat, minIndex: nat)
    requires Swappable(edges.Length, start, minIndex) && status.Length == edges.Length
    modifies edges, status
    ensures edges[..] == SwapPair(old(edges[..]), start, minIndex)
    ensures status[..] == old(status[..])[start := if minIndex % 2 == 0 then StatusStart else StatusEnd]
  {
    if minIndex % 2 == 0 {
      MovePair(edges, start, minIndex);
      status[start] := StatusStart;
    } else {
      ReversePair(edges, start, minIndex);
      status[start] := StatusEnd;
    }
  }

  /** One round of `nearest_neighbour`'s loop: the search from where the
      robot stands, then the swap; `firstPos` holds in the first round. */
  method Round(edges: array<EdgePos>, status: array<byte>, start: nat, prev: nat, firstPos: bool,
               dist: (Coord, Coord) -> real) returns (minIndex: nat)
    requires edges.Length % 2 == 0 && status.Length == edges.Length && start % 2 == 0 && start + 1 < edges.Length
    requires prev < edges.Length && (firstPos <==> start == 0)
    modifies edges, status
    ensures minIndex < edges.Length && start + 2 <= edges.Length && (start + 2) % 2 == 0
    ensures Rounds(edges[..], status[..], start + 2, minIndex, dist) == Rounds(old(edges[..]), old(status[..]), start, prev, dist)
  {
    var from := if firstPos then InitPos else edges[start - 1].pos;
    assert from == From(edges[..], start);
    RoundsStep(edges[..], status[..], start, prev, dist);
    minIndex := FindNearest(edges, start, from, prev, dist);
    SwapEdges(edges, status, start, minIndex);
  }

  /** `nearest_neighbour(size_edges)`: the rounds over `edges` and the
      `status` they record. */
  method NearestNeighbour(edges: array<EdgePos>, status: array<byte>, dist: (Coord, Coord) -> real)
    requires edges.Length % 2 == 0 && status.Length == edges.Length
    modifies edges, status
    ensures Tour(edges[..], status[..]) == Rounds(old(edges[..]), old(status[..]), 0, 0, dist)
  {
    var minIndex: nat := 0;
    var firstPos := true;
    var start := 0;
    while start + 1 < edges.Length
      invariant start % 2 == 0 && start <= edges.Length
      invariant firstPos <==> start == 0
      invariant minIndex < edges.Length || edges.Length == 0
      invariant Rounds(edges[..], status[..], start, minIndex, dist) == Rounds(old(edges[..]), old(status[..]), 0, 0, dist)
    {
      minIndex := Round(edges, status, start, minIndex, firstPos, dist);
      firstPos := false;
      start := start + 2;
    }
  }
}
