/**
 Walks taken apart at a vertex: which seed they come from, how they go on from an edge that a search
 has still to relax, and which vertices the search gets to see.
 */
module Restarts {
  import opened Basics
  import opened StreetNetworks
  import opened ShortestPaths
  import opened Frontiers
  import opened SearchLaws

  /** The same streets with a single seed. */
  function From(p: Problem, v: Vertex, start: nat): Problem {
    p.(seeds := map[v := start])
  }

  function Origin(w: Walk): Vertex {
    match w
    case Start(v) => v
    case Step(before, _) => Origin(before)
  }

  /** A walk is a walk from the seed it begins at, and as much longer as that seed's start value. */
  lemma {:induction false} WalkFromOrigin(p: Problem, w: Walk)
    requires Proper(p) && IsWalk(p, w)
    ensures Origin(w) in p.seeds && IsWalk(From(p, Origin(w), 0), w)
    ensures Length(p, w) == p.seeds[Origin(w)] + Length(From(p, Origin(w), 0), w)
  {
    if w.Step? {
      WalkFromOrigin(p, w.before);
    }
  }

  lemma {:induction false} WalkFromSeed(p: Problem, s: Vertex, w: Walk)
    requires Proper(p) && s in p.seeds && IsWalk(From(p, s, 0), w)
    ensures IsWalk(p, w) && Length(p, w) == p.seeds[s] + Length(From(p, s, 0), w) && Origin(w) == s
  {
    if w.Step? {
      WalkFromSeed(p, s, w.before);
    }
  }

  /** The walk `w` continued by `onward`, which begins where `w` ends. */
  function Continued(w: Walk, onward: Walk): Walk {
    match onward
    case Start(_) => w
    case Step(before, e) => Step(Continued(w, before), e)
  }

  lemma {:induction false} ContinuedIsWalk(p: Problem, w: Walk, onward: Walk)
    requires Proper(p) && IsWalk(p, w) && End(w) < Size(p)
    requires IsWalk(From(p, End(w), Length(p, w)), onward)
    ensures IsWalk(p, Continued(w, onward)) && End(Continued(w, onward)) == End(onward)
    ensures Length(p, Continued(w, onward)) == Length(From(p, End(w), Length(p, w)), onward)
  {
    if onward.Step? {
      ContinuedIsWalk(p, w, onward.before);
    }
  }

  // ---------- what a walk shorter than an entry shows ----------

  /** The problem of going on from the far end of an edge that has still to be relaxed. */
  function Beyond(p: Problem, a: Arrays, e: Edge): Problem
    requires e.source < |a.dist| && a.dist[e.source].Finite?
  {
    From(p, e.target, a.dist[e.source].seconds + p.scale(e.duration))
  }

  /** The edge has still to be relaxed, and `onward` goes on from there. */
  ghost predicate Shortcut(p: Problem, a: Arrays, e: Edge, onward: Walk)
    requires Proper(p) && Sized(p, a)
  {
    Tense(p, a, e) && a.dist[e.source].Finite? && IsWalk(Beyond(p, a, e), onward)
  }

  /** A shortcut is a walk of the problem. */
  lemma ShortcutIsWalk(p: Problem, a: Arrays, e: Edge, onward: Walk) returns (w: Walk)
    requires Proper(p) && Tree(p, a) && Shortcut(p, a, e, onward)
    ensures IsWalk(p, w) && End(w) == End(onward) && Length(p, w) == Length(Beyond(p, a, e), onward)
  {
    var before := Realised(p, a, e.source);
    ContinuedIsWalk(p, Step(before, e), onward);
    w := Continued(Step(before, e), onward);
  }

  /** A walk shorter than the entry at its end takes a shortcut. */
  lemma {:induction false} ShortcutExists(p: Problem, a: Arrays, w: Walk) returns (e: Edge, onward: Walk)
    requires Proper(p) && Tree(p, a)
    requires IsWalk(p, w) && End(w) < Size(p) && Less(Finite(Length(p, w)), a.dist[End(w)])
    ensures Shortcut(p, a, e, onward) && End(onward) == End(w)
    ensures Length(Beyond(p, a, e), onward) <= Length(p, w)
  {
    assert w.Step?;
    WalkEndsInGraph(p, w.before);
    if Less(Finite(Length(p, w.before)), a.dist[End(w.before)]) {
      e, onward := ShortcutExists(p, a, w.before);
      onward := Step(onward, w.edge);
    } else {
      e, onward := w.edge, Start(w.edge.target);
      assert Tense(p, a, e);
    }
  }

  // ---------- coming back to the lead ----------

  /** Some way back to the lead is shorter than the lead's own start value. */
  ghost predicate ShorterReturn(p: Problem, lead: Vertex, s: Vertex, w: Walk)
    requires Proper(p)
  {
    && s in p.seeds && s != lead
    && IsWalk(From(Opened(p), s, 0), w) && End(w) == lead
    && Less(Finite(p.seeds[s] + Length(From(Opened(p), s, 0), w)), StartValue(p, lead))
  }

  /**
   Queueing the lead alone changes no distance exactly when no way from another seed to the lead is
   shorter than the difference of the two start values; none at all when the lead is no seed.
   */
  lemma ReturnDecides(p: Problem, lead: Vertex)
    requires Proper(p) && p.closed == {lead} && lead < Size(p)
    ensures (forall v, d :: IsDistance(p, v, d) <==> IsDistance(Opened(p), v, d))
            <==> forall s, w :: !ShorterReturn(p, lead, s, w)
  {
    LeadDecides(p, lead);
    var o := Opened(p);
    if Bounds(o, lead, StartValue(p, lead)) {
      forall s, w
        ensures !ShorterReturn(p, lead, s, w)
      {
        if s in p.seeds && IsWalk(From(o, s, 0), w) {
          WalkFromSeed(o, s, w);
        }
      }
    }
    if forall s, w :: !ShorterReturn(p, lead, s, w) {
      forall w | IsWalk(o, w) && End(w) == lead
        ensures AtMost(StartValue(p, lead), Finite(Length(o, w)))
      {
        WalkFromOrigin(o, w);
        assert !ShorterReturn(p, lead, Origin(w), w);
      }
    }
  }

  // ---------- what a search gets to see ----------

  ghost predicate HasWalk(p: Problem, v: Vertex)
    requires Proper(p)
  {
    exists w :: IsWalk(p, w) && End(w) == v
  }

  ghost predicate WalksEndBlack(p: Problem, color: seq<Color>)
    requires Proper(p)
  {
    forall w {:trigger IsWalk(p, w)} :: IsWalk(p, w) ==> End(w) < |color| && color[End(w)] == Black
  }

  /** The same streets, walked from what is put in the queue, whatever its entries. */
  function Touring(p: Problem, sources: seq<Vertex>): Problem {
    p.(seeds := map s | s in sources :: 0)
  }

  ghost predicate AllLinked(tour: Problem, color: seq<Color>)
    requires Proper(tour)
  {
    forall v :: 0 <= v < |color| && color[v] != White ==> HasWalk(tour, v)
  }

  /** What scanning `u` shows: ends of usable edges that are open to walks. */
  ghost predicate Discovered(p: Problem, before: seq<Color>, after: seq<Color>, u: Vertex)
    requires Proper(p) && u < Size(p)
  {
    && |after| == |before|
    && forall v :: 0 <= v < |after| && after[v] != White && before[v] == White ==> ShownBy(p, u, v)
  }

  ghost predicate ShownBy(p: Problem, u: Vertex, v: Vertex)
    requires Proper(p) && u < Size(p)
  {
    v !in p.closed && exists e :: e in p.net.out[u] && Usable(p, e) && e.target == v
  }

  lemma DiscoveredAreLinked(tour: Problem, before: seq<Color>, after: seq<Color>, u: Vertex)
    requires Proper(tour) && u < Size(tour) && u < |before| && before[u] != White
    requires AllLinked(tour, before) && Discovered(tour, before, after, u)
    ensures AllLinked(tour, after)
  {
    forall v | 0 <= v < |after| && after[v] != White
      ensures HasWalk(tour, v)
    {
      if before[v] == White {
        assert ShownBy(tour, u, v);
        LinkedOnward(tour, u, v);
      }
    }
  }

  lemma LinkedOnward(tour: Problem, u: Vertex, v: Vertex)
    requires Proper(tour) && u < Size(tour) && HasWalk(tour, u) && ShownBy(tour, u, v)
    ensures HasWalk(tour, v)
  {
    var w :| IsWalk(tour, w) && End(w) == u;
    var e :| e in tour.net.out[u] && Usable(tour, e) && e.target == v;
    var i :| 0 <= i < |tour.net.out[u]| && tour.net.out[u][i] == e;
    assert IsWalk(tour, Step(w, e)) && End(Step(w, e)) == v;
  }

  /** When nothing is gray any more, everything linked is black. */
  lemma {:induction false} LinkedEndsBlack(p: Problem, tour: Problem, a: Arrays, color: seq<Color>, w: Walk)
    requires Proper(p) && Proper(tour) && tour == p.(seeds := tour.seeds)
    requires Sized(p, a) && |color| == Size(p) && BlackSettled(p, a, color) && SeedsSeen(tour, color)
    requires forall v :: 0 <= v < Size(p) ==> color[v] != Gray
    requires IsWalk(tour, w)
    ensures End(w) < Size(p) && color[End(w)] == Black
  {
    if w.Step? {
      LinkedEndsBlack(p, tour, a, color, w.before);
      var u, e := End(w.before), w.edge;
      assert AllSwept(p, a, color, u, |p.net.out[u]|);
      var i :| 0 <= i < |p.net.out[u]| && p.net.out[u][i] == e;
      assert Swept(p, a, color, e);
    }
  }

  /** From a queued vertex that is a seed itself, what is linked has a walk. */
  lemma LinkedFromSeed(p: Problem, lead: Vertex, v: Vertex)
    requires Proper(p) && lead in p.seeds && HasWalk(Touring(p, [lead]), v)
    ensures HasWalk(p, v)
  {
    var w :| IsWalk(Touring(p, [lead]), w) && End(w) == v;
    assert Touring(p, [lead]) == From(p, lead, 0);
    WalkFromSeed(p, lead, w);
  }

  /** What has a walk is linked to the queued vertices when every seed is. */
  lemma {:induction false} WalkIsLinked(p: Problem, tour: Problem, w: Walk)
    requires Proper(p) && Proper(tour) && tour == p.(seeds := tour.seeds)
    requires forall s :: s in p.seeds ==> HasWalk(tour, s)
    requires IsWalk(p, w)
    ensures HasWalk(tour, End(w))
  {
    if w.Step? {
      WalkIsLinked(p, tour, w.before);
      var x :| IsWalk(tour, x) && End(x) == End(w.before);
      assert IsWalk(tour, Step(x, w.edge)) && End(Step(x, w.edge)) == End(w);
    }
  }
}
