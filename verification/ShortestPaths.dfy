/**
 What a shortest-path search over the filtered street graph is supposed to compute, and the
 facts about its arrays that one relaxation, one pop and one finished scan keep.
 */
module ShortestPaths {
  import opened Basics
  import opened StreetNetworks

  /**
   One search problem: the graph, the mode whose layers may be used, the scaling of edge
   durations by the speed, the start values of the seeds, and the vertices that no walk may
   enter (it may still start there).
   */
  datatype Problem = Problem(net: Network, mode: Mode, scale: nat -> nat,
                             seeds: map<Vertex, nat>, closed: set<Vertex>)

  ghost predicate Proper(p: Problem) {
    && WellFormed(p.net)
    && Layered(p.net)
    && forall s :: s in p.seeds ==> s < Size(p)
  }

  function Size(p: Problem): nat {
    |p.net.out|
  }

  /** Both ends lie in the copies the mode may use. */
  predicate Usable(p: Problem, e: Edge)
    requires p.net.perMode > 0
  {
    InRange(p.mode, p.net.perMode, e.source) && InRange(p.mode, p.net.perMode, e.target)
  }

  predicate InGraph(p: Problem, e: Edge) {
    e.source < Size(p) && e in p.net.out[e.source]
  }

  // ---------- walks: the independent definition of a distance ----------

  datatype Walk = Start(at: Vertex) | Step(before: Walk, edge: Edge)

  function End(w: Walk): Vertex {
    match w
    case Start(v) => v
    case Step(_, e) => e.target
  }

  ghost predicate IsWalk(p: Problem, w: Walk)
    requires Proper(p)
  {
    match w
    case Start(v) => v in p.seeds
    case Step(before, e) =>
      && IsWalk(p, before)
      && e.source == End(before)
      && InGraph(p, e)
      && Usable(p, e)
      && e.target !in p.closed
  }

  ghost function Length(p: Problem, w: Walk): nat
    requires Proper(p) && IsWalk(p, w)
  {
    match w
    case Start(v) => p.seeds[v]
    case Step(before, e) => Length(p, before) + p.scale(e.duration)
  }

  /** No walk to `v` is shorter than `d`. */
  ghost predicate Bounds(p: Problem, v: Vertex, d: Duration)
    requires Proper(p)
  {
    forall w :: IsWalk(p, w) && End(w) == v ==> AtMost(d, Finite(Length(p, w)))
  }

  /** `d` is the least length of a walk to `v`; infinite when there is none. */
  ghost predicate IsDistance(p: Problem, v: Vertex, d: Duration)
    requires Proper(p)
  {
    && Bounds(p, v, d)
    && (d.Finite? ==> exists w :: IsWalk(p, w) && End(w) == v && Length(p, w) == d.seconds)
  }

  lemma DistanceIsUnique(p: Problem, v: Vertex, d: Duration, d': Duration)
    requires Proper(p)
    requires IsDistance(p, v, d) && IsDistance(p, v, d')
    ensures d == d'
  {
    if d.Finite? {
      var w :| IsWalk(p, w) && End(w) == v && Length(p, w) == d.seconds;
      assert AtMost(d', Finite(Length(p, w)));
    }
    if d'.Finite? {
      var w :| IsWalk(p, w) && End(w) == v && Length(p, w) == d'.seconds;
      assert AtMost(d, Finite(Length(p, w)));
    }
  }

  // ---------- the arrays and what they mean between two searches ----------

  datatype Arrays = Arrays(dist: seq<Duration>, pred: seq<Vertex>)

  ghost predicate Sized(p: Problem, a: Arrays) {
    |a.dist| == |a.pred| == Size(p)
  }

  /** `e` explains the entry of its target: it is the edge the entry was obtained through. */
  ghost predicate Explains(p: Problem, a: Arrays, e: Edge)
    requires Proper(p) && Sized(p, a)
  {
    && InGraph(p, e)
    && Usable(p, e)
    && e.target !in p.closed
    && e.source == a.pred[e.target]
    && a.dist[e.target] == Plus(a.dist[e.source], p.scale(e.duration))
  }

  /** A reached vertex is either an untouched seed or was last improved from a settled vertex. */
  ghost predicate Supported(p: Problem, a: Arrays, v: Vertex)
    requires Proper(p) && Sized(p, a) && v < Size(p)
  {
    var u := a.pred[v];
    && u < Size(p)
    && (u == v ==> v in p.seeds && a.dist[v] == Finite(p.seeds[v]))
    && (u != v ==>
          && a.dist[u].Finite?
          && Bounds(p, u, a.dist[u])
          && exists e: Edge :: e.target == v && Explains(p, a, e))
  }

  /** Following predecessors from `v` meets a vertex that is its own predecessor within `n` steps. */
  ghost predicate Rooted(pred: seq<Vertex>, v: Vertex, n: nat)
    decreases n
  {
    && v < |pred|
    && (pred[v] == v || (n > 0 && Rooted(pred, pred[v], n - 1)))
  }

  ghost predicate HasRoot(pred: seq<Vertex>, v: Vertex) {
    exists n: nat :: Rooted(pred, v, n)
  }

  /** No parallel edge would have given a smaller entry than the one that is there. */
  ghost predicate Cheapest(p: Problem, a: Arrays, v: Vertex)
    requires Proper(p) && Sized(p, a) && v < Size(p)
  {
    var u := a.pred[v];
    u < Size(p) && u != v ==>
      forall e :: e in p.net.out[u] && e.target == v && Usable(p, e) ==>
        AtMost(a.dist[v], Plus(a.dist[u], p.scale(e.duration)))
  }

  /** Everything but `Cheapest`, which does not hold for `u`'s successors while `u` is scanned. */
  ghost predicate Tree(p: Problem, a: Arrays)
    requires Proper(p)
  {
    && Sized(p, a)
    && (forall s :: s in p.seeds ==> AtMost(a.dist[s], Finite(p.seeds[s])))
    && (forall v {:trigger Supported(p, a, v)} :: 0 <= v < Size(p) && a.dist[v].Finite? ==> Supported(p, a, v))
    && (forall v {:trigger HasRoot(a.pred, v)} :: 0 <= v < Size(p) && a.dist[v].Finite? ==> HasRoot(a.pred, v))
  }

  /** The invariant of the arrays between searches. */
  ghost predicate Sound(p: Problem, a: Arrays)
    requires Proper(p)
  {
    && Tree(p, a)
    && forall v {:trigger Cheapest(p, a, v)} :: 0 <= v < Size(p) && a.dist[v].Finite? ==> Cheapest(p, a, v)
  }

  /** The predecessors from `v` up to its root spell out a walk of exactly the stored length. */
  lemma {:induction false} TreeWalk(p: Problem, a: Arrays, v: Vertex, n: nat) returns (w: Walk)
    requires Proper(p) && Tree(p, a)
    requires v < Size(p) && a.dist[v].Finite? && Rooted(a.pred, v, n)
    ensures IsWalk(p, w) && End(w) == v && Length(p, w) == a.dist[v].seconds
    decreases n
  {
    assert Supported(p, a, v);
    if a.pred[v] == v {
      w := Start(v);
    } else {
      var e: Edge :| e.target == v && Explains(p, a, e);
      var before := TreeWalk(p, a, a.pred[v], n - 1);
      w := Step(before, e);
    }
  }

  lemma Realised(p: Problem, a: Arrays, v: Vertex) returns (w: Walk)
    requires Proper(p) && Tree(p, a)
    requires v < Size(p) && a.dist[v].Finite?
    ensures IsWalk(p, w) && End(w) == v && Length(p, w) == a.dist[v].seconds
  {
    assert HasRoot(a.pred, v);
    var n: nat :| Rooted(a.pred, v, n);
    w := TreeWalk(p, a, v, n);
  }

  lemma BoundedIsExact(p: Problem, a: Arrays, v: Vertex)
    requires Proper(p) && Tree(p, a)
    requires v < Size(p) && Bounds(p, v, a.dist[v])
    ensures IsDistance(p, v, a.dist[v])
  {
    if a.dist[v].Finite? {
      var w := Realised(p, a, v);
    }
  }

  // ---------- one relaxation ----------

  function Relaxed(p: Problem, a: Arrays, e: Edge): (r: Arrays)
    requires e.source < |a.dist| && e.target < |a.dist| == |a.pred|
  {
    var d := Plus(a.dist[e.source], p.scale(e.duration));
    if Less(d, a.dist[e.target]) then Arrays(a.dist[e.target := d], a.pred[e.target := e.source]) else a
  }

  /** Along predecessors entries never grow, so nothing above `u` can be a vertex `u` improves. */
  lemma {:induction false} RootedAfterImproving(p: Problem, a: Arrays, t: Vertex, s: Vertex, u: Vertex, n: nat)
    requires Proper(p) && Tree(p, a)
    requires t < Size(p)
    requires u < Size(p) && a.dist[u].Finite? && Rooted(a.pred, u, n)
    requires Less(a.dist[u], a.dist[t])
    ensures Rooted(a.pred[t := s], u, n)
    decreases n
  {
    assert Supported(p, a, u);
    if a.pred[u] != u {
      var f: Edge :| f.target == u && Explains(p, a, f);
      RootedAfterImproving(p, a, t, s, a.pred[u], n - 1);
    }
  }

  lemma {:induction false} RootedLonger(pred: seq<Vertex>, v: Vertex, n: nat, m: nat)
    requires Rooted(pred, v, n) && n <= m
    ensures Rooted(pred, v, m)
    decreases n
  {
    if pred[v] != v {
      RootedLonger(pred, pred[v], n - 1, m - 1);
    }
  }

  /** A vertex whose chain passes through the improved vertex goes on along the improver's chain. */
  lemma {:induction false} RootedElsewhere(pred: seq<Vertex>, t: Vertex, s: Vertex, m: nat, v: Vertex, n: nat)
    requires t < |pred|
    requires Rooted(pred[t := s], t, m)
    requires Rooted(pred, v, n)
    ensures Rooted(pred[t := s], v, n + m)
    decreases n
  {
    if v == t {
      RootedLonger(pred[t := s], t, m, n + m);
    } else if pred[v] != v {
      RootedElsewhere(pred, t, s, m, pred[v], n - 1);
    }
  }

  /** A settled vertex is not improved: some walk realises the entry the edge starts from. */
  lemma SettledIsKept(p: Problem, a: Arrays, e: Edge)
    requires Proper(p) && Tree(p, a)
    requires InGraph(p, e) && Usable(p, e) && e.target !in p.closed
    requires Bounds(p, e.target, a.dist[e.target])
    ensures AtMost(a.dist[e.target], Plus(a.dist[e.source], p.scale(e.duration)))
    ensures Relaxed(p, a, e) == a
  {
    if a.dist[e.source].Finite? {
      var w := Realised(p, a, e.source);
      var longer := Step(w, e);
      assert IsWalk(p, longer) && End(longer) == e.target;
    }
  }

  lemma RelaxKeepsSupport(p: Problem, a: Arrays, e: Edge, v: Vertex)
    requires Proper(p) && Tree(p, a)
    requires InGraph(p, e) && Usable(p, e) && e.target !in p.closed
    requires Bounds(p, e.source, a.dist[e.source])
    requires v < Size(p) && Relaxed(p, a, e).dist[v].Finite?
    ensures Supported(p, Relaxed(p, a, e), v)
  {
    var b := Relaxed(p, a, e);
    if b != a {
      if v == e.target {
        assert Explains(p, b, e);
      } else {
        assert Supported(p, a, v);
        if a.pred[v] != v {
          var f: Edge :| f.target == v && Explains(p, a, f);
          if a.pred[v] == e.target {
            SettledIsKept(p, a, e);
          }
          assert Explains(p, b, f);
        }
      }
    } else {
      assert Supported(p, a, v);
    }
  }

  lemma RelaxKeepsRoots(p: Problem, a: Arrays, e: Edge, v: Vertex)
    requires Proper(p) && Tree(p, a)
    requires e.source < Size(p) && e.target < Size(p)
    requires v < Size(p) && Relaxed(p, a, e).dist[v].Finite?
    ensures HasRoot(Relaxed(p, a, e).pred, v)
  {
    var u, t := e.source, e.target;
    assert v != t || Relaxed(p, a, e) == a ==> HasRoot(a.pred, v);
    if Relaxed(p, a, e) != a {
      assert HasRoot(a.pred, u);
      var m: nat :| Rooted(a.pred, u, m);
      RootedAfterImproving(p, a, t, u, u, m);
      assert Rooted(a.pred[t := u], t, m + 1);
      if v != t {
        var n: nat :| Rooted(a.pred, v, n);
        RootedElsewhere(a.pred, t, u, m + 1, v, n);
      }
    }
  }

  /** Relaxing an edge that leaves a settled vertex keeps the predecessor forest. */
  lemma RelaxKeepsTree(p: Problem, a: Arrays, e: Edge)
    requires Proper(p) && Tree(p, a)
    requires InGraph(p, e) && Usable(p, e) && e.target !in p.closed
    requires Bounds(p, e.source, a.dist[e.source])
    ensures Tree(p, Relaxed(p, a, e))
  {
    var b := Relaxed(p, a, e);
    forall v | 0 <= v < Size(p) && b.dist[v].Finite?
      ensures Supported(p, b, v) && HasRoot(b.pred, v)
    {
      RelaxKeepsSupport(p, a, e, v);
      RelaxKeepsRoots(p, a, e, v);
    }
  }
}
