/** From a list of vertices back to the edges between them, grouped into path items. */
module PathItems {
  import opened Basics
  import opened StreetNetworks

  datatype PathItem = PathItem(way: Option<nat>, transportation: Caracteristic, duration: nat, coordinates: seq<Coord>)

  datatype Path = Path(duration: nat, items: seq<PathItem>)

  const EMPTY_ITEM := PathItem(None, Walk, 0, [])

  /**
   What a path is made from: the graph, the characteristic of an edge (None stands for the
   exception "unhandled path item caracteristic") and the scaling of durations by the speed.
   */
  datatype Street = Street(net: Network, carac: Edge -> Option<Caracteristic>, scale: nat -> nat)

  // ---------- the edge between two vertices ----------

  /** The first edge from `u` to `v` among those of least duration; None when there is no edge. */
  ghost predicate IsBestEdge(net: Network, u: Vertex, v: Vertex, best: Option<Edge>)
    requires u < |net.out|
  {
    match best
    case None => forall e :: e in net.out[u] ==> e.target != v
    case Some(b) => exists k :: 0 <= k < |net.out[u]| && IsFirstLeast(net.out[u], v, k) && net.out[u][k] == b
  }

  ghost predicate IsFirstLeast(out: seq<Edge>, v: Vertex, k: nat)
    requires k < |out|
  {
    && out[k].target == v
    && (forall j :: 0 <= j < k && out[j].target == v ==> out[k].duration < out[j].duration)
    && (forall j :: k < j < |out| && out[j].target == v ==> out[k].duration <= out[j].duration)
  }

  method GetBestEdge(net: Network, u: Vertex, v: Vertex) returns (best: Option<Edge>)
    requires u < |net.out|
    ensures IsBestEdge(net, u, v, best)
  {
    var out := net.out[u];
    best := None;
    ghost var k := 0;
    for i := 0 to |out|
      invariant best.None? ==> forall j :: 0 <= j < i ==> out[j].target != v
      invariant best.Some? ==> 0 <= k < i && out[k] == best.value && IsFirstLeast(out[..i], v, k)
    {
      var e := out[i];
      if e.target == v {
        if best.None? || e.duration < best.value.duration {
          best := Some(e);
          k := i;
        }
      }
      assert out[..i + 1][..i] == out[..i];
    }
    assert out[..|out|] == out;
  }

  lemma BestEdgeIsLeast(net: Network, u: Vertex, b: Edge, e: Edge)
    requires u < |net.out| && IsBestEdge(net, u, b.target, Some(b))
    requires e in net.out[u] && e.target == b.target
    ensures b in net.out[u] && b.duration <= e.duration
  {
    var k :| 0 <= k < |net.out[u]| && IsFirstLeast(net.out[u], b.target, k) && net.out[u][k] == b;
    var j :| 0 <= j < |net.out[u]| && net.out[u][j] == e;
    assert j < k || j == k || k < j;
  }

  // ---------- the grouping, stated on the walked edges ----------

  function Total(scale: nat -> nat, edges: seq<Edge>): nat {
    if edges == [] then 0 else Total(scale, edges[..|edges| - 1]) + scale(edges[|edges| - 1].duration)
  }

  function TotalOfItems(items: seq<PathItem>): nat {
    if items == [] then 0 else TotalOfItems(items[..|items| - 1]) + items[|items| - 1].duration
  }

  function Flatten<T>(groups: seq<seq<T>>): seq<T> {
    if groups == [] then [] else Flatten(groups[..|groups| - 1]) + groups[|groups| - 1]
  }

  /** The points an edge adds to a path: its geometry, or its end when it has none. */
  function Points(net: Network, e: Edge): seq<Coord>
    requires e.target < |net.coords|
  {
    if e.geometry.Some? then e.geometry.value else [net.coords[e.target]]
  }

  ghost predicate EdgesInGraph(net: Network, edges: seq<Edge>) {
    forall e :: e in edges ==> e.target < |net.coords|
  }

  function AllPoints(net: Network, edges: seq<Edge>): seq<Coord>
    requires forall e :: e in edges ==> e.target < |net.coords|
  {
    if edges == [] then []
    else
      var n := |edges| - 1;
      AllPoints(net, edges[..n]) + match edges[n].geometry case Some(points) => points case None => [net.coords[edges[n].target]]
  }

  /** One street: behind an edge on a way every edge is on that way, and all have the same characteristic. */
  ghost predicate Unsplit(s: Street, group: seq<Edge>) {
    forall i, j {:trigger group[i], group[j]} :: 0 <= i < j < |group| ==>
      (group[i].way.Some? ==> group[j].way == group[i].way) && s.carac(group[i]) == s.carac(group[j])
  }

  /** A way is left, for another one or for none, or the characteristic changes. */
  ghost predicate Boundary(s: Street, before: seq<Edge>, after: seq<Edge>) {
    && before != [] && after != []
    && (|| (before[|before| - 1].way.Some? && after[0].way != before[|before| - 1].way)
        || s.carac(before[|before| - 1]) != s.carac(after[0]))
  }

  /** Groups do not split inside; on either side of every boundary they do. */
  ghost predicate WellGrouped(s: Street, groups: seq<seq<Edge>>) {
    && (forall g {:trigger groups[g]} :: 0 <= g < |groups| ==> Unsplit(s, groups[g]))
    && (forall g, h {:trigger groups[g], groups[h]} :: 0 <= g && h == g + 1 && h < |groups| ==>
          Boundary(s, groups[g], groups[h]))
  }

  /** What an item says about the edges it was made of. */
  ghost predicate Summarises(s: Street, item: PathItem, lead: seq<Coord>, group: seq<Edge>) {
    && EdgesInGraph(s.net, group)
    && item.duration == Total(s.scale, group)
    && item.coordinates == lead + AllPoints(s.net, group)
    && item.way == (if group == [] then None else group[|group| - 1].way)
    && (forall e :: e in group ==> s.carac(e) == Some(item.transportation))
    && (forall i :: 0 <= i < |group| && group[i].way.Some? ==> group[i].way == item.way)
  }

  /** Item by item; only the first item starts with the first vertex. */
  ghost predicate SummariseAll(s: Street, items: seq<PathItem>, start: Coord, groups: seq<seq<Edge>>) {
    && |items| == |groups|
    && forall g {:trigger items[g]} {:trigger groups[g]} :: 0 <= g < |groups| ==>
         Summarises(s, items[g], Lead(start, g), groups[g])
  }

  function Lead(start: Coord, group: nat): seq<Coord> {
    if group == 0 then [start] else []
  }

  /** The durations of the items add up to the duration of the edges they are made of. */
  lemma {:induction false} ItemsAddUp(s: Street, start: Coord, items: seq<PathItem>, groups: seq<seq<Edge>>)
    requires SummariseAll(s, items, start, groups)
    ensures TotalOfItems(items) == Total(s.scale, Flatten(groups))
  {
    if items != [] {
      var n := |items| - 1;
      ItemsAddUp(s, start, items[..n], groups[..n]);
      TotalSplits(s.scale, Flatten(groups[..n]), groups[n]);
    }
  }

  lemma {:induction false} TotalSplits(scale: nat -> nat, a: seq<Edge>, b: seq<Edge>)
    ensures Total(scale, a + b) == Total(scale, a) + Total(scale, b)
  {
    if b == [] {
      assert a + b == a;
    } else {
      assert (a + b)[..|a + b| - 1] == a + b[..|b| - 1];
      TotalSplits(scale, a, b[..|b| - 1]);
    }
  }

  // ---------- one step of the grouping ----------

  /** The variables of the loop in `CreatePath`. */
  datatype Draft = Draft(items: seq<PathItem>, item: PathItem, duration: nat,
                         lastWay: Option<nat>, lastCarac: Option<Caracteristic>)

  predicate StartsItem(s: Street, d: Draft, e: Edge) {
    (d.lastWay.Some? && e.way != d.lastWay) || (d.lastCarac.Some? && s.carac(e) != d.lastCarac)
  }

  function Extended(s: Street, item: PathItem, e: Edge): PathItem
    requires s.carac(e).Some? && e.target < |s.net.coords|
  {
    PathItem(e.way, s.carac(e).value, item.duration + s.scale(e.duration), item.coordinates + Points(s.net, e))
  }

  function Append(s: Street, d: Draft, e: Edge): Draft
    requires s.carac(e).Some? && e.target < |s.net.coords|
  {
    if StartsItem(s, d, e) then
      Draft(d.items + [d.item], Extended(s, EMPTY_ITEM, e), d.duration + s.scale(e.duration), e.way, s.carac(e))
    else
      Draft(d.items, Extended(s, d.item, e), d.duration + s.scale(e.duration), e.way, s.carac(e))
  }

  /** The last way and characteristic are those of the last walked edge. */
  ghost predicate Remembers(s: Street, d: Draft, finished: seq<seq<Edge>>, current: seq<Edge>) {
    if current == [] then d.lastWay.None? && d.lastCarac.None? && finished == []
    else d.lastWay == current[|current| - 1].way && d.lastCarac.Some? && d.lastCarac == s.carac(current[|current| - 1])
  }

  /** What the draft holds once the finished groups and the current one have been walked. */
  ghost predicate Drafted(s: Street, start: Coord, d: Draft, finished: seq<seq<Edge>>, current: seq<Edge>) {
    && SummariseAll(s, d.items, start, finished)
    && Summarises(s, d.item, Lead(start, |finished|), current)
    && WellGrouped(s, finished + [current])
    && Remembers(s, d, finished, current)
  }

  lemma ExtendSummary(s: Street, item: PathItem, lead: seq<Coord>, group: seq<Edge>, e: Edge)
    requires s.carac(e).Some? && e.target < |s.net.coords|
    requires Summarises(s, item, lead, group)
    requires group != [] ==> s.carac(group[|group| - 1]) == s.carac(e)
    requires forall i :: 0 <= i < |group| && group[i].way.Some? ==> e.way == group[i].way
    ensures Summarises(s, Extended(s, item, e), lead, group + [e])
  {
    var more := group + [e];
    assert more[..|more| - 1] == group;
    assert lead + AllPoints(s.net, group) + Points(s.net, e) == lead + (AllPoints(s.net, group) + Points(s.net, e));
  }

  lemma KeepGroup(s: Street, finished: seq<seq<Edge>>, current: seq<Edge>, e: Edge)
    requires WellGrouped(s, finished + [current])
    requires finished != [] ==> current != []
    requires current != [] ==> s.carac(current[|current| - 1]) == s.carac(e)
    requires current != [] && current[|current| - 1].way.Some? ==> e.way == current[|current| - 1].way
    ensures WellGrouped(s, finished + [current + [e]])
  {
    var n, old', new' := |finished|, finished + [current], finished + [current + [e]];
    assert forall g :: 0 <= g < n ==> new'[g] == old'[g];
    assert old'[n] == current && new'[n] == current + [e];
    assert Unsplit(s, current);
  }

  lemma StartGroup(s: Street, finished: seq<seq<Edge>>, current: seq<Edge>, e: Edge)
    requires WellGrouped(s, finished + [current])
    requires current != [] && Boundary(s, current, [e])
    ensures WellGrouped(s, finished + [current] + [[e]])
  {
    var n, old', new' := |finished|, finished + [current], finished + [current] + [[e]];
    assert forall g :: 0 <= g <= n ==> new'[g] == old'[g];
    assert old'[n] == current && new'[n + 1] == [e];
  }

  lemma AppendToItem(s: Street, start: Coord, d: Draft, finished: seq<seq<Edge>>, current: seq<Edge>, e: Edge)
    requires s.carac(e).Some? && e.target < |s.net.coords|
    requires Drafted(s, start, d, finished, current) && !StartsItem(s, d, e)
    ensures Drafted(s, start, Append(s, d, e), finished, current + [e])
  {
    KeepGroup(s, finished, current, e);
    ExtendSummary(s, d.item, Lead(start, |finished|), current, e);
    assert (current + [e])[|current + [e]| - 1] == e;
  }

  lemma AppendNewItem(s: Street, start: Coord, d: Draft, finished: seq<seq<Edge>>, current: seq<Edge>, e: Edge)
    requires s.carac(e).Some? && e.target < |s.net.coords|
    requires Drafted(s, start, d, finished, current) && StartsItem(s, d, e)
    ensures Drafted(s, start, Append(s, d, e), finished + [current], [e])
  {
    StartGroup(s, finished, current, e);
    assert Summarises(s, EMPTY_ITEM, [], []);
    ExtendSummary(s, EMPTY_ITEM, [], [], e);
    assert [] + [e] == [e];
  }

  lemma NothingDrafted(s: Street, start: Coord)
    ensures Drafted(s, start, Draft([], EMPTY_ITEM.(coordinates := [start]), 0, None, None), [], [])
  {
    var none: seq<seq<Edge>>, current: seq<Edge> := [], [];
    assert (none + [current])[0] == current;
    assert Summarises(s, EMPTY_ITEM.(coordinates := [start]), [start], current);
  }

  lemma WalkedGrows(scale: nat -> nat, finished: seq<seq<Edge>>, current: seq<Edge>, e: Edge)
    ensures var walked := Flatten(finished) + current;
            && Total(scale, walked + [e]) == Total(scale, walked) + scale(e.duration)
            && Flatten(finished) + (current + [e]) == walked + [e]
            && Flatten(finished + [current]) + [e] == walked + [e]
  {
    var walked := Flatten(finished) + current;
    assert (walked + [e])[..|walked|] == walked;
    assert (finished + [current])[..|finished|] == finished;
  }

  /** Appending an edge keeps the draft in step with the walked edges. */
  lemma AppendKeeps(s: Street, start: Coord, d: Draft, finished: seq<seq<Edge>>, current: seq<Edge>, e: Edge)
    returns (finished': seq<seq<Edge>>, current': seq<Edge>)
    requires s.carac(e).Some? && e.target < |s.net.coords|
    requires Drafted(s, start, d, finished, current)
    ensures Drafted(s, start, Append(s, d, e), finished', current')
    ensures Flatten(finished') + current' == Flatten(finished) + current + [e]
    ensures Total(s.scale, Flatten(finished) + current + [e]) == Total(s.scale, Flatten(finished) + current) + s.scale(e.duration)
  {
    WalkedGrows(s.scale, finished, current, e);
    if StartsItem(s, d, e) {
      AppendNewItem(s, start, d, finished, current, e);
      finished', current' := finished + [current], [e];
    } else {
      AppendToItem(s, start, d, finished, current, e);
      finished', current' := finished, current + [e];
    }
  }

  lemma DraftDone(s: Street, start: Coord, d: Draft, finished: seq<seq<Edge>>, current: seq<Edge>)
    requires Drafted(s, start, d, finished, current)
    ensures Flatten(finished + [current]) == Flatten(finished) + current
    ensures SummariseAll(s, d.items + [d.item], start, finished + [current])
    ensures TotalOfItems(d.items + [d.item]) == Total(s.scale, Flatten(finished) + current)
  {
    assert (finished + [current])[..|finished|] == finished;
    ItemsAddUp(s, start, d.items + [d.item], finished + [current]);
  }

  // ---------- from vertices to a path ----------

  /** The vertices, last one first, are joined by edges, and all those edges have a characteristic. */
  ghost predicate Connected(s: Street, reversePath: seq<Vertex>) {
    && (forall i :: 0 <= i < |reversePath| ==> reversePath[i] < |s.net.out|)
    && forall i :: 0 < i < |reversePath| ==> Joined(s, reversePath[i], reversePath[i - 1])
  }

  ghost predicate Joined(s: Street, u: Vertex, v: Vertex)
    requires u < |s.net.out|
  {
    && (exists e :: e in s.net.out[u] && e.target == v)
    && (forall e :: e in s.net.out[u] && e.target == v ==> s.carac(e).Some?)
  }

  /** The best edge between two joined vertices; it exists and has a characteristic. */
  method EdgeBetween(s: Street, u: Vertex, v: Vertex) returns (edge: Edge)
    requires WellFormed(s.net) && u < |s.net.out| && Joined(s, u, v)
    ensures IsBestEdge(s.net, u, v, Some(edge))
    ensures edge.target == v && edge.target < |s.net.coords| && s.carac(edge).Some?
  {
    var best := GetBestEdge(s.net, u, v);
    assert best.Some? ==> best.value in s.net.out[u];
    edge := best.value;
  }

  /** The edges walked when the loop counter has come down to `i`. */
  ghost predicate WalkedTo(net: Network, reversePath: seq<Vertex>, walked: seq<Edge>, i: nat) {
    && (forall k :: 0 <= k < |reversePath| ==> reversePath[k] < |net.out|)
    && 1 <= i <= |reversePath|
    && |walked| == |reversePath| - i
    && forall k {:trigger walked[k]} :: 0 <= k < |walked| ==>
         IsBestEdge(net, reversePath[|reversePath| - 1 - k], reversePath[|reversePath| - 2 - k], Some(walked[k]))
  }

  lemma WalkOn(net: Network, reversePath: seq<Vertex>, walked: seq<Edge>, i: nat, e: Edge)
    requires i > 1 && WalkedTo(net, reversePath, walked, i)
    requires IsBestEdge(net, reversePath[i - 1], reversePath[i - 2], Some(e))
    ensures WalkedTo(net, reversePath, walked + [e], i - 1)
  {
  }

  /**
   Rebuilds the edges along the vertices and groups them into items. The exceptions "impossible to
   find an edge" and "unhandled path item caracteristic" are excluded by the precondition.
   */
  method CreatePath(s: Street, reversePath: seq<Vertex>, addOneElement: bool)
    returns (path: Path, ghost walked: seq<Edge>, ghost groups: seq<seq<Edge>>)
    requires WellFormed(s.net)
    requires |reversePath| > 0 && Connected(s, reversePath)
    ensures WalkedTo(s.net, reversePath, walked, 1)
    ensures path.duration == Total(s.scale, walked)
    ensures Flatten(groups) == walked && WellGrouped(s, groups)
    ensures path.items == [] <==> |reversePath| == 1 && !addOneElement
    ensures path.items != [] ==> SummariseAll(s, path.items, s.net.coords[reversePath[|reversePath| - 1]], groups)
    ensures path.items != [] ==> TotalOfItems(path.items) == path.duration
  {
    var start := s.net.coords[reversePath[|reversePath| - 1]];
    var draft := Draft([], EMPTY_ITEM.(coordinates := [start]), 0, None, None);
    ghost var finished: seq<seq<Edge>>, current: seq<Edge> := [], [];
    NothingDrafted(s, start);
    walked := [];
    var i := |reversePath|;
    while i > 1
      invariant 1 <= i <= |reversePath|
      invariant WalkedTo(s.net, reversePath, walked, i)
      invariant Flatten(finished) + current == walked
      invariant Drafted(s, start, draft, finished, current)
      invariant draft.duration == Total(s.scale, walked)
    {
      var edge := EdgeBetween(s, reversePath[i - 1], reversePath[i - 2]);
      WalkOn(s.net, reversePath, walked, i, edge);
      finished, current := AppendKeeps(s, start, draft, finished, current, edge);
      draft := Append(s, draft, edge);
      walked := walked + [edge];
      i := i - 1;
    }
    DraftDone(s, start, draft, finished, current);
    groups := finished + [current];
    var minToAdd := if addOneElement then 1 else 2;
    path := Path(draft.duration, if |reversePath| >= minToAdd then draft.items + [draft.item] else draft.items);
  }
}
