/**
 The frontier argument behind the search: what the three colours mean, why the least gray vertex
 is settled, and why a search that stops has not missed anything.
 */
module Frontiers {
  import opened Basics
  import opened StreetNetworks
  import opened ShortestPaths

  datatype Color = White | Gray | Black

  /** Every entry up to `max` is exact, and every vertex with a walk of at most `max` has such an entry. */
  ghost predicate ExactUpTo(p: Problem, a: Arrays, max: Duration)
    requires Proper(p) && Sized(p, a)
  {
    && (forall v {:trigger Bounds(p, v, a.dist[v])} :: 0 <= v < Size(p) && AtMost(a.dist[v], max) ==> Bounds(p, v, a.dist[v]))
    && (forall w :: IsWalk(p, w) && AtMost(Finite(Length(p, w)), max) ==> AtMost(a.dist[End(w)], Finite(Length(p, w))))
  }

  /** The edge has been looked at: its target was seen and cannot be improved by it. */
  ghost predicate Swept(p: Problem, a: Arrays, color: seq<Color>, e: Edge)
    requires Proper(p) && Sized(p, a) && |color| == Size(p) && InGraph(p, e)
  {
    e.target in p.closed ||
    (color[e.target] != White && AtMost(a.dist[e.target], Plus(a.dist[e.source], p.scale(e.duration))))
  }

  ghost predicate AllSwept(p: Problem, a: Arrays, color: seq<Color>, u: Vertex, upTo: nat)
    requires Proper(p) && Sized(p, a) && |color| == Size(p) && u < Size(p) && upTo <= |p.net.out[u]|
  {
    forall i :: 0 <= i < upTo && Usable(p, p.net.out[u][i]) ==> Swept(p, a, color, p.net.out[u][i])
  }

  /** Black vertices are settled and completely scanned. */
  ghost predicate BlackSettled(p: Problem, a: Arrays, color: seq<Color>)
    requires Proper(p) && Sized(p, a) && |color| == Size(p)
  {
    forall v {:trigger AllSwept(p, a, color, v, |p.net.out[v]|)} {:trigger Bounds(p, v, a.dist[v])} ::
      0 <= v < Size(p) && color[v] == Black ==>
        Bounds(p, v, a.dist[v]) && AllSwept(p, a, color, v, |p.net.out[v]|)
  }

  ghost predicate SeedsSeen(p: Problem, color: seq<Color>) {
    forall s :: s in p.seeds ==> s < |color| && color[s] != White
  }

  /** Before the first pop of a search that starts from `lead` alone, which no walk may enter. */
  ghost predicate LeadAlone(p: Problem, color: seq<Color>, queue: set<Vertex>, lead: Vertex)
    requires Proper(p) && |color| == Size(p)
  {
    && lead < Size(p)
    && p.closed == {lead}
    && queue == {lead}
    && (forall v :: 0 <= v < Size(p) ==> color[v] != Black)
    && forall s :: s in p.seeds && s != lead ==> exists e :: e in p.net.out[lead] && Usable(p, e) && e.target == s
  }

  /** A walk that does not end in black has a gray vertex on it that is no farther than its length. */
  lemma {:induction false} WalkMeetsGray(p: Problem, a: Arrays, color: seq<Color>, w: Walk) returns (x: Vertex)
    requires Proper(p) && Tree(p, a) && |color| == Size(p)
    requires BlackSettled(p, a, color) && SeedsSeen(p, color)
    requires IsWalk(p, w) && End(w) < Size(p) && color[End(w)] != Black
    ensures x < Size(p) && color[x] == Gray && AtMost(a.dist[x], Finite(Length(p, w)))
  {
    match w
    case Start(v) => x := v;
    case Step(before, e) =>
      var y := End(before);
      if color[y] == Black {
        assert Bounds(p, y, a.dist[y]);
        assert AllSwept(p, a, color, y, |p.net.out[y]|);
        var i :| 0 <= i < |p.net.out[y]| && p.net.out[y][i] == e;
        assert Swept(p, a, color, e);
        x := e.target;
      } else {
        x := WalkMeetsGray(p, a, color, before);
      }
  }

  lemma WalkEndsInGraph(p: Problem, w: Walk)
    requires Proper(p) && IsWalk(p, w)
    ensures End(w) < Size(p)
  {
    if w.Step? {
      var i :| 0 <= i < |p.net.out[w.edge.source]| && p.net.out[w.edge.source][i] == w.edge;
    }
  }

  /** The least gray vertex is settled. */
  lemma LeastGrayIsSettled(p: Problem, a: Arrays, color: seq<Color>, queue: set<Vertex>, u: Vertex)
    requires Proper(p) && Tree(p, a) && |color| == Size(p)
    requires BlackSettled(p, a, color) && SeedsSeen(p, color)
    requires forall v :: 0 <= v < Size(p) && color[v] == Gray ==> v in queue
    requires u < Size(p) && color[u] == Gray
    requires forall v :: v in queue ==> v < Size(p) && AtMost(a.dist[u], a.dist[v])
    ensures Bounds(p, u, a.dist[u])
  {
    forall w | IsWalk(p, w) && End(w) == u
      ensures AtMost(a.dist[u], Finite(Length(p, w)))
    {
      var x := WalkMeetsGray(p, a, color, w);
    }
  }

  /** No walk enters a closed vertex, so only its own start value counts. */
  lemma ClosedIsSettled(p: Problem, a: Arrays, u: Vertex)
    requires Proper(p) && Tree(p, a)
    requires u < Size(p) && u in p.closed
    ensures Bounds(p, u, a.dist[u])
  {
    forall w | IsWalk(p, w) && End(w) == u
      ensures AtMost(a.dist[u], Finite(Length(p, w)))
    {
    }
  }

  /** When every gray vertex lies beyond `max` (or there is none), nothing up to `max` was missed. */
  lemma NothingMissed(p: Problem, a: Arrays, color: seq<Color>, max: Duration)
    requires Proper(p) && Tree(p, a) && |color| == Size(p)
    requires BlackSettled(p, a, color) && SeedsSeen(p, color)
    requires forall v :: 0 <= v < Size(p) && color[v] == Gray ==> Less(max, a.dist[v])
    ensures ExactUpTo(p, a, max)
    ensures forall w {:trigger IsWalk(p, w)} :: IsWalk(p, w) && AtMost(Finite(Length(p, w)), max) ==>
              End(w) < Size(p) && color[End(w)] == Black
  {
    forall w | IsWalk(p, w) && AtMost(Finite(Length(p, w)), max)
      ensures color[WalkEnd(p, w)] == Black && AtMost(a.dist[End(w)], Finite(Length(p, w)))
    {
      if color[WalkEnd(p, w)] != Black {
        var x := WalkMeetsGray(p, a, color, w);
        assert false;
      }
      assert Bounds(p, End(w), a.dist[End(w)]);
    }
    forall v | 0 <= v < Size(p) && AtMost(a.dist[v], max)
      ensures Bounds(p, v, a.dist[v])
    {
      if color[v] != Black {
        forall w | IsWalk(p, w) && End(w) == v
          ensures AtMost(a.dist[v], Finite(Length(p, w)))
        {
          assert WalkEnd(p, w) == v;
        }
      }
    }
  }

  ghost function WalkEnd(p: Problem, w: Walk): (v: Vertex)
    requires Proper(p) && IsWalk(p, w)
    ensures v == End(w) && v < Size(p)
  {
    WalkEndsInGraph(p, w);
    End(w)
  }

  // ---------- the state of a running search ----------

  /** Every seed has been seen, or the vertex about to be scanned shows the missing ones. */
  ghost predicate SeedsSeenAfter(p: Problem, color: seq<Color>, u: Vertex)
    requires Proper(p) && |color| == Size(p) && u < Size(p)
  {
    SeedsSeen(p, color) ||
    (forall s :: s in p.seeds && s != u ==> s !in p.closed && exists e :: e in p.net.out[u] && Usable(p, e) && e.target == s)
  }

  /** Between two pops. */
  ghost predicate Ready(p: Problem, a: Arrays, color: seq<Color>, queue: set<Vertex>)
    requires Proper(p)
  {
    && Sound(p, a)
    && |color| == Size(p)
    && (forall v :: v in queue <==> 0 <= v < Size(p) && color[v] == Gray)
    && BlackSettled(p, a, color)
    && (|| (SeedsSeen(p, color) && forall c :: c in p.closed && c < Size(p) ==> color[c] == Black)
        || exists lead :: LeadAlone(p, color, queue, lead))
  }

  /** After `u` was popped and its first `i` edges were looked at. */
  ghost predicate Scanning(p: Problem, a: Arrays, color: seq<Color>, queue: set<Vertex>, u: Vertex, i: nat)
    requires Proper(p)
  {
    && Tree(p, a)
    && |color| == Size(p)
    && u < Size(p) && color[u] == Gray && u !in queue
    && i <= |p.net.out[u]|
    && (forall v :: v in queue <==> 0 <= v < Size(p) && color[v] == Gray && v != u)
    && Bounds(p, u, a.dist[u])
    && BlackSettled(p, a, color)
    && AllSwept(p, a, color, u, i)
    && (forall v {:trigger Cheapest(p, a, v)} :: 0 <= v < Size(p) && a.dist[v].Finite? && a.pred[v] != u ==> Cheapest(p, a, v))
    && (forall c :: c in p.closed && c < Size(p) ==> c == u || color[c] == Black)
    && SeedsSeenAfter(p, color, u)
  }

  lemma PopStartsScan(p: Problem, a: Arrays, color: seq<Color>, queue: set<Vertex>, u: Vertex)
    requires Proper(p) && Ready(p, a, color, queue)
    requires u in queue
    requires forall v :: v in queue ==> v < Size(p) && AtMost(a.dist[u], a.dist[v])
    ensures Scanning(p, a, color, queue - {u}, u, 0)
  {
    if SeedsSeen(p, color) && forall c :: c in p.closed && c < Size(p) ==> color[c] == Black {
      LeastGrayIsSettled(p, a, color, queue, u);
    } else {
      var lead :| LeadAlone(p, color, queue, lead);
      assert u == lead;
      ClosedIsSettled(p, a, u);
    }
  }

  /** What looking at one edge does to the arrays. */
  function Looked(p: Problem, a: Arrays, color: seq<Color>, e: Edge): Arrays
    requires p.net.perMode > 0
    requires e.source < |a.dist| && e.target < |a.dist| == |a.pred| == |color|
  {
    if Usable(p, e) && color[e.target] != Black then Relaxed(p, a, e) else a
  }

  /** What looking at one edge does to the colours. */
  function Shown(p: Problem, color: seq<Color>, e: Edge): seq<Color>
    requires p.net.perMode > 0
    requires e.target < |color|
  {
    if Usable(p, e) && color[e.target] == White then color[e.target := Gray] else color
  }

  /** Looking at an edge changes no settled entry. */
  lemma LookKeepsSettled(p: Problem, a: Arrays, color: seq<Color>, queue: set<Vertex>, u: Vertex, i: nat, v: Vertex)
    requires Proper(p) && Scanning(p, a, color, queue, u, i) && i < |p.net.out[u]|
    requires v < Size(p) && Bounds(p, v, a.dist[v])
    ensures Looked(p, a, color, p.net.out[u][i]).dist[v] == a.dist[v]
    ensures Looked(p, a, color, p.net.out[u][i]).pred[v] == a.pred[v]
  {
    var e := p.net.out[u][i];
    if v == e.target && Usable(p, e) && e.target !in p.closed {
      SettledIsKept(p, a, e);
    }
  }

  lemma LookKeepsTree(p: Problem, a: Arrays, color: seq<Color>, queue: set<Vertex>, u: Vertex, i: nat)
    requires Proper(p) && Scanning(p, a, color, queue, u, i) && i < |p.net.out[u]|
    ensures Tree(p, Looked(p, a, color, p.net.out[u][i]))
  {
    var e := p.net.out[u][i];
    if Usable(p, e) && color[e.target] != Black && e.target !in p.closed {
      RelaxKeepsTree(p, a, e);
    } else {
      assert Looked(p, a, color, e) == a;
    }
  }

  lemma LookKeepsBlack(p: Problem, a: Arrays, color: seq<Color>, queue: set<Vertex>, u: Vertex, i: nat)
    requires Proper(p) && Scanning(p, a, color, queue, u, i) && i < |p.net.out[u]|
    ensures BlackSettled(p, Looked(p, a, color, p.net.out[u][i]), Shown(p, color, p.net.out[u][i]))
  {
    var e := p.net.out[u][i];
    var b, shown := Looked(p, a, color, e), Shown(p, color, e);
    forall v | 0 <= v < Size(p) && shown[v] == Black
      ensures Bounds(p, v, b.dist[v]) && AllSwept(p, b, shown, v, |p.net.out[v]|)
    {
      LookKeepsSettled(p, a, color, queue, u, i, v);
      assert AllSwept(p, a, color, v, |p.net.out[v]|);
    }
  }

  lemma LookKeepsCheapest(p: Problem, a: Arrays, color: seq<Color>, queue: set<Vertex>, u: Vertex, i: nat, v: Vertex)
    requires Proper(p) && Scanning(p, a, color, queue, u, i) && i < |p.net.out[u]|
    requires v < Size(p)
    requires Looked(p, a, color, p.net.out[u][i]).dist[v].Finite?
    requires Looked(p, a, color, p.net.out[u][i]).pred[v] != u
    ensures Cheapest(p, Looked(p, a, color, p.net.out[u][i]), v)
  {
    var b := Looked(p, a, color, p.net.out[u][i]);
    assert b.dist[v] == a.dist[v] && b.pred[v] == a.pred[v];
    assert Cheapest(p, a, v);
    assert Supported(p, a, v);
    if a.pred[v] != v {
      LookKeepsSettled(p, a, color, queue, u, i, a.pred[v]);
    }
  }

  lemma LookKeepsScanning(p: Problem, a: Arrays, color: seq<Color>, queue: set<Vertex>, u: Vertex, i: nat)
    requires Proper(p) && Scanning(p, a, color, queue, u, i) && i < |p.net.out[u]|
    ensures var e := p.net.out[u][i];
            Scanning(p, Looked(p, a, color, e), Shown(p, color, e),
                     if Shown(p, color, e) == color then queue else queue + {e.target}, u, i + 1)
  {
    var e := p.net.out[u][i];
    var b, shown := Looked(p, a, color, e), Shown(p, color, e);
    LookKeepsTree(p, a, color, queue, u, i);
    LookKeepsBlack(p, a, color, queue, u, i);
    LookKeepsSettled(p, a, color, queue, u, i, u);
    forall v | 0 <= v < Size(p) && b.dist[v].Finite? && b.pred[v] != u
      ensures Cheapest(p, b, v)
    {
      LookKeepsCheapest(p, a, color, queue, u, i, v);
    }
    assert Usable(p, e) ==> Swept(p, b, shown, e) by {
      if Usable(p, e) && color[e.target] == Black && e.target !in p.closed {
        assert Bounds(p, e.target, a.dist[e.target]);
        SettledIsKept(p, a, e);
      }
    }
    assert AllSwept(p, b, shown, u, i);
  }

  lemma ScannedIsReady(p: Problem, a: Arrays, color: seq<Color>, queue: set<Vertex>, u: Vertex)
    requires u < Size(p)
    requires Proper(p) && Scanning(p, a, color, queue, u, |p.net.out[u]|)
    ensures Ready(p, a, color[u := Black], queue)
  {
    forall v | 0 <= v < Size(p) && a.dist[v].Finite?
      ensures Cheapest(p, a, v)
    {
      if a.pred[v] == u && u != v {
        assert Supported(p, a, v);
        forall e | e in p.net.out[u] && e.target == v && Usable(p, e)
          ensures AtMost(a.dist[v], Plus(a.dist[u], p.scale(e.duration)))
        {
          var i :| 0 <= i < |p.net.out[u]| && p.net.out[u][i] == e;
          assert Swept(p, a, color, e);
        }
      }
    }
    var done := color[u := Black];
    forall v | 0 <= v < Size(p) && done[v] == Black
      ensures Bounds(p, v, a.dist[v]) && AllSwept(p, a, done, v, |p.net.out[v]|)
    {
      assert AllSwept(p, a, color, v, |p.net.out[v]|);
    }
    assert SeedsSeen(p, done);
  }
}
