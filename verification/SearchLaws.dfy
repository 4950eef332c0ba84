/** What follows from the search's contracts: closing the lead, warm restarts, rebuilt paths. */
module SearchLaws {
  import opened Basics
  import opened StreetNetworks
  import opened ShortestPaths
  import opened Frontiers
  import opened PathItems

  // ---------- which streets walks use ----------

  /** A walk keeps to the copies of its mode, and to the kinds of edges that lie in and between them. */
  lemma WalksKeepToLayers(p: Problem, w: Walk)
    requires Proper(p) && IsWalk(p, w) && w.Step?
    ensures var n, u, v, c := p.net.perMode, w.edge.source, w.edge.target, CaracteristicOf(p.net.perMode, w.edge);
            && (p.mode == Walking ==> u < n && v < n && c == Some(Walk))
            && (p.mode == Bike ==> n <= u < 2 * n && n <= v < 2 * n && c == Some(Ride))
            && (p.mode == Bss ==> u < 2 * n && v < 2 * n && c in {Some(Walk), Some(Ride), Some(BssTake), Some(BssPutBack)})
            && (p.mode == Car ==> !(n <= u < 2 * n) && u < 3 * n && !(n <= v < 2 * n) && v < 3 * n
                                  && c in {Some(Walk), Some(Drive), Some(CarLeaveParking), Some(CarPark)})
            && (p.mode == CarNoPark ==> 2 * n <= u < 3 * n && 2 * n <= v < 3 * n && c == Some(Drive))
  {
    WalkEndsInGraph(p, w.before);
    WalkEndsInGraph(p, w);
    CaracteristicIsRange(p.net.perMode, w.edge);
  }

  /** Every edge of the graph within these copies that leads to an open vertex prolongs a walk. */
  lemma LayersMakeWalks(p: Problem, w: Walk, e: Edge)
    requires Proper(p) && IsWalk(p, w) && InGraph(p, e) && e.source == End(w) && e.target !in p.closed
    requires var n, u, v := p.net.perMode, e.source, e.target;
             match p.mode
             case Walking => u < n && v < n
             case Bike => n <= u < 2 * n && n <= v < 2 * n
             case Bss => u < 2 * n && v < 2 * n
             case Car => !(n <= u < 2 * n) && u < 3 * n && !(n <= v < 2 * n) && v < 3 * n
             case CarNoPark => 2 * n <= u < 3 * n && 2 * n <= v < 3 * n
    ensures IsWalk(p, Step(w, e)) && Length(p, Step(w, e)) == Length(p, w) + p.scale(e.duration)
  {
  }

  // ---------- the problem without a closed vertex ----------

  function Opened(p: Problem): Problem {
    p.(closed := {})
  }

  function StartValue(p: Problem, v: Vertex): Duration {
    if v in p.seeds then Finite(p.seeds[v]) else Infinite
  }

  lemma {:induction false} ClosedWalkIsOpen(p: Problem, w: Walk)
    requires Proper(p) && IsWalk(p, w)
    ensures IsWalk(Opened(p), w) && Length(Opened(p), w) == Length(p, w)
  {
    if w.Step? {
      ClosedWalkIsOpen(p, w.before);
    }
  }

  /** Cut a walk at its last visit to the lead: the lead's own start value is no worse. */
  lemma {:induction false} Reroute(p: Problem, lead: Vertex, w: Walk) returns (r: Walk)
    requires Proper(p) && p.closed == {lead} && lead < Size(p)
    requires Bounds(Opened(p), lead, StartValue(p, lead))
    requires IsWalk(Opened(p), w)
    ensures IsWalk(p, r) && End(r) == End(w) && Length(p, r) <= Length(Opened(p), w)
  {
    if w.Step? && w.edge.target == lead {
      r := Start(lead);
    } else if w.Step? {
      var before := Reroute(p, lead, w.before);
      r := Step(before, w.edge);
    } else {
      r := w;
    }
  }

  lemma LeadKeepsStart(p: Problem, lead: Vertex)
    requires Proper(p) && lead in p.closed && lead < Size(p)
    ensures IsDistance(p, lead, StartValue(p, lead))
  {
    if lead in p.seeds {
      assert IsWalk(p, Start(lead)) && End(Start(lead)) == lead;
    }
  }

  /**
   Keeping walks out of the one vertex that is queued changes no distance exactly when no walk
   comes back to that vertex with less than its own start value.
   */
  lemma LeadDecides(p: Problem, lead: Vertex)
    requires Proper(p) && p.closed == {lead} && lead < Size(p)
    ensures (forall v, d :: IsDistance(p, v, d) <==> IsDistance(Opened(p), v, d))
            <==> Bounds(Opened(p), lead, StartValue(p, lead))
  {
    LeadKeepsStart(p, lead);
    if Bounds(Opened(p), lead, StartValue(p, lead)) {
      forall v, d
        ensures IsDistance(p, v, d) <==> IsDistance(Opened(p), v, d)
      {
        SameDistances(p, lead, v, d);
      }
    }
  }

  lemma SameDistances(p: Problem, lead: Vertex, v: Vertex, d: Duration)
    requires Proper(p) && p.closed == {lead} && lead < Size(p)
    requires Bounds(Opened(p), lead, StartValue(p, lead))
    ensures IsDistance(p, v, d) <==> IsDistance(Opened(p), v, d)
  {
    var o := Opened(p);
    if IsDistance(p, v, d) {
      forall w | IsWalk(o, w) && End(w) == v
        ensures AtMost(d, Finite(Length(o, w)))
      {
        var r := Reroute(p, lead, w);
      }
      if d.Finite? {
        var w :| IsWalk(p, w) && End(w) == v && Length(p, w) == d.seconds;
        ClosedWalkIsOpen(p, w);
      }
    }
    if IsDistance(o, v, d) {
      forall w | IsWalk(p, w) && End(w) == v
        ensures AtMost(d, Finite(Length(p, w)))
      {
        ClosedWalkIsOpen(p, w);
      }
      if d.Finite? {
        var w :| IsWalk(o, w) && End(w) == v && Length(o, w) == d.seconds;
        var r := Reroute(p, lead, w);
      }
    }
  }

  /** It is enough that no seed starts below the lead. */
  lemma {:induction false} WalksStartAtSeeds(p: Problem, least: nat, w: Walk)
    requires Proper(p) && forall s :: s in p.seeds ==> least <= p.seeds[s]
    requires IsWalk(p, w)
    ensures least <= Length(p, w)
  {
    if w.Step? {
      WalksStartAtSeeds(p, least, w.before);
    }
  }

  lemma NearerLeadDecides(p: Problem, lead: Vertex)
    requires Proper(p) && p.closed == {lead} && lead < Size(p)
    requires lead in p.seeds && forall s :: s in p.seeds ==> p.seeds[lead] <= p.seeds[s]
    ensures forall v, d :: IsDistance(p, v, d) <==> IsDistance(Opened(p), v, d)
  {
    forall w | IsWalk(Opened(p), w) && End(w) == lead
      ensures AtMost(StartValue(p, lead), Finite(Length(Opened(p), w)))
    {
      WalksStartAtSeeds(Opened(p), p.seeds[lead], w);
    }
    LeadDecides(p, lead);
  }

  // ---------- what the arrays themselves tell ----------

  /** An edge that a search has still to relax: its target's entry could be smaller. */
  ghost predicate Tense(p: Problem, a: Arrays, e: Edge)
    requires Proper(p) && Sized(p, a)
  {
    && InGraph(p, e) && e.target < Size(p) && Usable(p, e) && e.target !in p.closed
    && Less(Plus(a.dist[e.source], p.scale(e.duration)), a.dist[e.target])
  }

  /** No edge would give a smaller entry that is within `max`. */
  ghost predicate NothingTense(p: Problem, a: Arrays, max: Duration)
    requires Proper(p) && Sized(p, a)
  {
    forall e :: Tense(p, a, e) ==> Less(max, Plus(a.dist[e.source], p.scale(e.duration)))
  }

  /**
   Whether the arrays are exact up to a radius can be seen by looking at every edge once, whatever
   searches have left them.
   */
  lemma ExactIffNothingTense(p: Problem, a: Arrays, max: Duration)
    requires Proper(p) && Tree(p, a)
    ensures ExactUpTo(p, a, max) <==> NothingTense(p, a, max)
  {
    if ExactUpTo(p, a, max) {
      forall e | Tense(p, a, e)
        ensures Less(max, Plus(a.dist[e.source], p.scale(e.duration)))
      {
        var w := Realised(p, a, e.source);
        assert IsWalk(p, Step(w, e)) && End(Step(w, e)) == e.target;
      }
    }
    if NothingTense(p, a, max) {
      forall w | IsWalk(p, w) && AtMost(Finite(Length(p, w)), max)
        ensures AtMost(a.dist[WalkEnd(p, w)], Finite(Length(p, w)))
      {
        NotTenseWalk(p, a, max, w);
      }
      forall v | 0 <= v < Size(p) && AtMost(a.dist[v], max)
        ensures Bounds(p, v, a.dist[v])
      {
        forall w | IsWalk(p, w) && End(w) == v
          ensures AtMost(a.dist[v], Finite(Length(p, w)))
        {
          assert WalkEnd(p, w) == v;
        }
      }
    }
  }

  lemma {:induction false} NotTenseWalk(p: Problem, a: Arrays, max: Duration, w: Walk)
    requires Proper(p) && Tree(p, a) && NothingTense(p, a, max)
    requires IsWalk(p, w) && AtMost(Finite(Length(p, w)), max)
    ensures AtMost(a.dist[WalkEnd(p, w)], Finite(Length(p, w)))
  {
    if w.Step? {
      NotTenseWalk(p, a, max, w.before);
      assert WalkEnd(p, w) == w.edge.target;
      assert !Tense(p, a, w.edge) || Less(max, Plus(a.dist[w.edge.source], p.scale(w.edge.duration)));
    }
  }

  // ---------- fresh arrays, and the radius search that stops at its first vertex ----------

  /** The seeds hold their start values and are their own predecessors; nothing else is reached. */
  ghost predicate Written(dist: seq<Duration>, pred: seq<Vertex>, seeds: map<Vertex, nat>)
    requires |dist| == |pred|
  {
    forall v {:trigger dist[v]} {:trigger v in seeds} :: 0 <= v < |dist| ==>
      if v in seeds then dist[v] == Finite(seeds[v]) && pred[v] == v else dist[v] == Infinite
  }

  /** Only the seeds are reached, each by itself. */
  ghost predicate Fresh(p: Problem, a: Arrays)
    requires Proper(p)
  {
    Sized(p, a) && Written(a.dist, a.pred, p.seeds)
  }

  lemma FreshIsSound(p: Problem, a: Arrays)
    requires Proper(p) && Fresh(p, a)
    ensures Sound(p, a)
  {
    forall v | 0 <= v < Size(p) && a.dist[v].Finite?
      ensures Supported(p, a, v) && HasRoot(a.pred, v) && Cheapest(p, a, v)
    {
      assert Rooted(a.pred, v, 0);
    }
  }

  /** An edge that leads from another seed than the lead to a smaller entry within the radius. */
  ghost predicate LeavesWithin(p: Problem, lead: Vertex, e: Edge, max: Duration)
    requires Proper(p)
  {
    && e.source in p.seeds && e.source != lead && InGraph(p, e) && Usable(p, e) && e.target !in p.closed
    && AtMost(Finite(p.seeds[e.source] + p.scale(e.duration)), max)
    && Less(Finite(p.seeds[e.source] + p.scale(e.duration)), StartValue(p, e.target))
  }

  /**
   When the queued end of the start lies beyond the radius, or is no seed, the search changes
   nothing. On fresh arrays it misses something exactly when an edge leads from another seed to a
   smaller entry within the radius; with no other seed it misses nothing.
   */
  lemma StalledSearchIsExact(p: Problem, a: Arrays, lead: Vertex, max: Duration)
    requires Proper(p) && Fresh(p, a) && Less(max, StartValue(p, lead))
    ensures ExactUpTo(p, a, max) <==> forall e :: !LeavesWithin(p, lead, e, max)
    ensures p.seeds.Keys <= {lead} ==> ExactUpTo(p, a, max)
  {
    FreshIsSound(p, a);
    ExactIffNothingTense(p, a, max);
    forall e
      ensures LeavesWithin(p, lead, e, max) <==> Tense(p, a, e) && !Less(max, Plus(a.dist[e.source], p.scale(e.duration)))
    {
      if InGraph(p, e) {
        var i :| 0 <= i < |p.net.out[e.source]| && p.net.out[e.source][i] == e;
        assert e.target < Size(p);
      }
    }
  }

  // ---------- restarting without a reset ----------

  /** Whatever searches ran before, a vertex both searches settled has the same entry in both. */
  lemma WarmEqualsFresh(p: Problem, warm: Arrays, cold: Arrays, max: Duration)
    requires Proper(p) && Tree(p, warm) && Tree(p, cold)
    requires ExactUpTo(p, warm, max) && ExactUpTo(p, cold, max)
    ensures forall v {:trigger warm.dist[v]} {:trigger cold.dist[v]} :: 0 <= v < Size(p) ==>
              (AtMost(warm.dist[v], max) <==> AtMost(cold.dist[v], max)) &&
              (AtMost(warm.dist[v], max) ==> warm.dist[v] == cold.dist[v])
  {
    forall v | 0 <= v < Size(p)
      ensures AtMost(warm.dist[v], max) ==> AtMost(cold.dist[v], warm.dist[v])
      ensures AtMost(cold.dist[v], max) ==> AtMost(warm.dist[v], cold.dist[v])
    {
      if warm.dist[v].Finite? {
        var w := Realised(p, warm, v);
      }
      if cold.dist[v].Finite? {
        var w := Realised(p, cold, v);
      }
    }
  }

  /** Up to the radius the entries are the distances; beyond it they are beyond it. */
  lemma ExactUpToMeans(p: Problem, a: Arrays, max: Duration, v: Vertex, d: Duration)
    requires Proper(p) && Tree(p, a) && ExactUpTo(p, a, max)
    requires v < Size(p) && IsDistance(p, v, d)
    ensures AtMost(a.dist[v], max) <==> AtMost(d, max)
    ensures AtMost(d, max) ==> a.dist[v] == d
  {
    if a.dist[v].Finite? {
      var w := Realised(p, a, v);
    }
    if d.Finite? {
      var w :| IsWalk(p, w) && End(w) == v && Length(p, w) == d.seconds;
    }
    if AtMost(a.dist[v], max) {
      assert Bounds(p, v, a.dist[v]);
    }
  }

  /** Every vertex has a distance. */
  lemma DistanceExists(p: Problem, v: Vertex) returns (d: Duration)
    requires Proper(p)
    ensures IsDistance(p, v, d)
  {
    if w: Walk :| IsWalk(p, w) && End(w) == v {
      var least := w;
      while exists x :: IsWalk(p, x) && End(x) == v && Length(p, x) < Length(p, least)
        invariant IsWalk(p, least) && End(least) == v
        decreases Length(p, least)
      {
        var x :| IsWalk(p, x) && End(x) == v && Length(p, x) < Length(p, least);
        least := x;
      }
      d := Finite(Length(p, least));
    } else {
      d := Infinite;
    }
  }

  // ---------- rebuilt paths ----------

  ghost predicate Monotone(scale: nat -> nat) {
    forall a: nat, b: nat :: a <= b ==> scale(a) <= scale(b)
  }

  /** The vertices met when predecessors are followed from `v` to their end. */
  ghost predicate IsChain(pred: seq<Vertex>, v: Vertex, chain: seq<Vertex>) {
    && |chain| > 0 && chain[0] == v
    && (forall i :: 0 <= i < |chain| ==> chain[i] < |pred|)
    && (forall i :: 0 < i < |chain| ==> chain[i] == pred[chain[i - 1]] && chain[i] != chain[i - 1])
    && pred[chain[|chain| - 1]] == chain[|chain| - 1]
  }

  lemma {:induction false} ChainIsFinite(p: Problem, a: Arrays, v: Vertex, chain: seq<Vertex>, i: nat)
    requires Proper(p) && Tree(p, a) && v < Size(p) && a.dist[v].Finite?
    requires IsChain(a.pred, v, chain) && i < |chain|
    ensures a.dist[chain[i]].Finite?
  {
    if i > 0 {
      ChainIsFinite(p, a, v, chain, i - 1);
      assert Supported(p, a, chain[i - 1]);
    }
  }

  /** The best parallel edge is the one that explains the entry, up to its scaled duration. */
  lemma BestEdgeExplains(p: Problem, a: Arrays, v: Vertex, best: Edge)
    requires Proper(p) && Sound(p, a) && Monotone(p.scale)
    requires v < Size(p) && a.dist[v].Finite? && a.pred[v] != v && a.pred[v] < Size(p)
    requires IsBestEdge(p.net, a.pred[v], v, Some(best))
    ensures a.dist[a.pred[v]].Finite?
    ensures a.dist[v].seconds == a.dist[a.pred[v]].seconds + p.scale(best.duration)
  {
    assert Supported(p, a, v) && Cheapest(p, a, v);
    var e: Edge :| e.target == v && Explains(p, a, e);
    assert best.target == v;
    BestEdgeIsLeast(p.net, a.pred[v], best, e);
    assert Usable(p, best);
  }

  /** The rebuilt path is as long as the entry says: root's start value plus the walked edges. */
  lemma {:induction false} ChainAddsUp(p: Problem, a: Arrays, v: Vertex, chain: seq<Vertex>, walked: seq<Edge>, i: nat)
    requires Proper(p) && Sound(p, a) && Monotone(p.scale)
    requires v < Size(p) && a.dist[v].Finite? && IsChain(a.pred, v, chain)
    requires WalkedTo(p.net, chain, walked, i)
    ensures var root := chain[|chain| - 1];
            root in p.seeds && a.dist[chain[i - 1]] == Finite(p.seeds[root] + Total(p.scale, walked))
  {
    ChainIsFinite(p, a, v, chain, i - 1);
    assert Supported(p, a, chain[i - 1]);
    if walked != [] {
      var n := |walked| - 1;
      assert IsBestEdge(p.net, chain[i], chain[i - 1], Some(walked[n]));
      ChainAddsUp(p, a, v, chain, walked[..n], i + 1);
      BestEdgeExplains(p, a, chain[i - 1], walked[n]);
    }
  }
}
