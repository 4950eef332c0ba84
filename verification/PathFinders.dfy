/**
 The path finder: a start projected on an edge, the arrays of the search, and the searches that
 work on them without resetting them.
 */
module PathFinders {
  import opened Basics
  import opened StreetNetworks
  import opened ShortestPaths
  import opened Frontiers
  import opened PathItems
  import opened SearchLaws
  import opened Restarts
  import opened Projections

  /** The two visitors that stop a search by an exception. */
  datatype Stop = AtRadius(max: Duration) | WhenAllFinished(targets: seq<Vertex>)

  /**
   How a search may be launched: either every seed is put in the queue and no vertex is closed to
   walks, or only `lead` is queued, walks may not enter it, and every other seed is one usable edge
   away from it.
   */
  ghost predicate Launch(p: Problem, sources: seq<Vertex>)
    requires Proper(p)
  {
    && (forall k :: 0 <= k < |sources| ==> sources[k] < Size(p))
    && (|| (p.closed == {} && forall s :: s in p.seeds ==> s in sources)
        || (|sources| == 1 && p.closed == {sources[0]}
            && forall s :: s in p.seeds && s != sources[0] ==>
                 exists e :: e in p.net.out[sources[0]] && Usable(p, e) && e.target == s))
  }

  ghost function Below(n: nat): (all: set<Vertex>)
    ensures forall v :: v in all <==> 0 <= v < n
  {
    if n == 0 then {} else Below(n - 1) + {n - 1}
  }

  /** The targets among the vertices a search has finished. */
  ghost function Finished(color: seq<Color>, targets: seq<Vertex>): set<Vertex> {
    set v | v in targets && v < |color| && color[v] == Black
  }

  /** The visitor's counter is the number of distinct targets finished so far. */
  ghost predicate Counted(stop: Stop, color: seq<Color>, nbFound: nat) {
    stop.WhenAllFinished? ==> nbFound == |Finished(color, stop.targets)|
  }

  ghost predicate AllFound(stop: Stop, nbFound: nat) {
    stop.WhenAllFinished? && stop.targets != [] && nbFound == |stop.targets|
  }

  lemma FinishedGrows(before: seq<Color>, after: seq<Color>, targets: seq<Vertex>, u: Vertex)
    requires u < |before| == |after| && before[u] != Black
    requires forall v :: 0 <= v < |after| ==> (after[v] == Black <==> v == u || before[v] == Black)
    ensures |Finished(after, targets)| == |Finished(before, targets)| + if u in targets then 1 else 0
  {
    assert Finished(after, targets) == Finished(before, targets) + if u in targets then {u} else {};
  }

  lemma LeastExists(queue: set<Vertex>, dist: seq<Duration>)
    requires queue != {}
    requires forall v :: v in queue ==> v < |dist|
    ensures exists u :: u in queue && forall v :: v in queue ==> AtMost(dist[u], dist[v])
  {
    var x :| x in queue;
    if queue != {x} {
      var rest := queue - {x};
      assert queue == rest + {x};
      LeastExists(rest, dist);
      var y :| y in rest && forall v :: v in rest ==> AtMost(dist[y], dist[v]);
      var u := if Less(dist[y], dist[x]) then y else x;
      assert u in queue && forall v :: v in queue ==> AtMost(dist[u], dist[v]);
    }
  }

  /** Two targets are both counted exactly when they are distinct and both finished. */
  lemma BothFinished(color: seq<Color>, u: Vertex, v: Vertex)
    requires u < |color| && v < |color|
    ensures |Finished(color, [u, v])| == 2 <==> u != v && color[u] == Black && color[v] == Black
  {
    var f := Finished(color, [u, v]);
    assert f == (if color[u] == Black then {u} else {}) + (if color[v] == Black then {v} else {});
  }

  lemma BlackIsReached(p: Problem, a: Arrays, color: seq<Color>, v: Vertex)
    requires Proper(p) && Tree(p, a) && |color| == Size(p) && BlackSettled(p, a, color)
    requires v < Size(p) && color[v] == Black
    ensures IsDistance(p, v, a.dist[v])
    ensures a.dist[v].Finite? <==> HasWalk(p, v)
  {
    assert Bounds(p, v, a.dist[v]);
    BoundedIsExact(p, a, v);
  }

  datatype RoutingElement = Reached(duration: Duration) | Unreached | Unknown

  /** The last destination under key `k` that was projected on the graph. */
  function LastFound<K(==)>(destinations: seq<(K, Projection)>, k: K): Option<Projection> {
    if destinations == [] then None
    else
      var n := |destinations| - 1;
      if destinations[n].1.found && destinations[n].0 == k then Some(destinations[n].1)
      else LastFound(destinations[..n], k)
  }

  function FoundOnly<K>(destinations: seq<(K, Projection)>): seq<(K, Projection)> {
    if destinations == [] then []
    else
      var n := |destinations| - 1;
      FoundOnly(destinations[..n]) + if destinations[n].1.found then [destinations[n]] else []
  }

  lemma {:induction false} FoundOnlyKeepsLast<K>(destinations: seq<(K, Projection)>, k: K)
    ensures LastFound(FoundOnly(destinations), k) == LastFound(destinations, k)
  {
    if destinations != [] {
      var n := |destinations| - 1;
      FoundOnlyKeepsLast(destinations[..n], k);
      if destinations[n].1.found {
        assert FoundOnly(destinations)[..|FoundOnly(destinations)| - 1] == FoundOnly(destinations[..n]);
      } else {
        assert FoundOnly(destinations) == FoundOnly(destinations[..n]);
      }
    }
  }

  function Keys<K>(destinations: seq<(K, Projection)>): set<K> {
    set d | d in destinations :: d.0
  }

  lemma KeysGrow<K>(destinations: seq<(K, Projection)>, d: (K, Projection))
    ensures Keys(destinations + [d]) == Keys(destinations) + {d.0}
  {
    assert d in destinations + [d];
    assert forall x :: x in destinations + [d] <==> x in destinations || x == d;
  }

  lemma {:induction false} FoundOnlyMembers<K>(destinations: seq<(K, Projection)>)
    ensures forall d :: d in FoundOnly(destinations) <==> d in destinations && d.1.found
  {
    if destinations != [] {
      var n := |destinations| - 1;
      FoundOnlyMembers(destinations[..n]);
      assert destinations == destinations[..n] + [destinations[n]];
    }
  }

  lemma {:induction false} LastFoundIsThere<K>(destinations: seq<(K, Projection)>, k: K)
    ensures LastFound(destinations, k).Some? ==>
              exists i :: 0 <= i < |destinations| && destinations[i] == (k, LastFound(destinations, k).value) && destinations[i].1.found
  {
    if destinations != [] {
      var n := |destinations| - 1;
      LastFoundIsThere(destinations[..n], k);
    }
  }

  lemma ChainIsConnected(p: Problem, a: Arrays, s: Street, v: Vertex, chain: seq<Vertex>)
    requires Proper(p) && Sound(p, a) && s.net == p.net
    requires forall u, e :: 0 <= u < |p.net.out| && e in p.net.out[u] ==> s.carac(e).Some?
    requires v < Size(p) && a.dist[v].Finite? && IsChain(a.pred, v, chain)
    ensures Connected(s, chain)
  {
    forall i | 0 < i < |chain|
      ensures Joined(s, chain[i], chain[i - 1])
    {
      ChainIsFinite(p, a, v, chain, i - 1);
      assert Supported(p, a, chain[i - 1]);
      var e: Edge :| e.target == chain[i - 1] && Explains(p, a, e);
      assert e in s.net.out[chain[i]];
    }
  }

  /** What is queued has been seen, and what has been seen is linked to it. */
  ghost predicate Toured(tour: Problem, color: seq<Color>)
    requires Proper(tour)
  {
    |color| == Size(tour) && SeedsSeen(tour, color) && AllLinked(tour, color)
  }

  lemma TourBegins(p: Problem, sources: seq<Vertex>, color: seq<Color>)
    requires Proper(p) && |color| == Size(p)
    requires forall k :: 0 <= k < |sources| ==> sources[k] < Size(p)
    requires forall v :: 0 <= v < Size(p) ==> (color[v] != White <==> v in sources)
    ensures Proper(Touring(p, sources)) && Toured(Touring(p, sources), color)
  {
    var tour := Touring(p, sources);
    forall v | 0 <= v < Size(p) && color[v] != White
      ensures HasWalk(tour, v)
    {
      assert IsWalk(tour, Start(v)) && End(Start(v)) == v;
    }
  }

  lemma TourIsOver(p: Problem, tour: Problem, a: Arrays, color: seq<Color>)
    requires Proper(p) && Proper(tour) && tour == p.(seeds := tour.seeds)
    requires Sized(p, a) && |color| == Size(p) && BlackSettled(p, a, color) && Toured(tour, color)
    requires forall v :: 0 <= v < Size(p) ==> color[v] != Gray
    ensures WalksEndBlack(tour, color)
  {
    forall w | IsWalk(tour, w)
      ensures End(w) < |color| && color[End(w)] == Black
    {
      LinkedEndsBlack(p, tour, a, color, w);
    }
  }

  class PathFinder {
    const net: Network
    var mode: Mode
    var speed: Speed
    var startingEdge: Projection
    var distances: seq<Duration>
    var predecessors: seq<Vertex>
    var color: seq<Color>
    var computationLaunch: bool

    ghost function State(): Arrays
      reads this
    {
      Arrays(distances, predecessors)
    }

    /** The relaxation of the graph library: a strict improvement replaces entry and predecessor. */
    method Relax(e: Edge, ghost p: Problem)
      requires p.scale == speed.scale
      requires e.source < |distances| && e.target < |distances| == |predecessors|
      modifies this`distances, this`predecessors
      ensures State() == Relaxed(p, old(State()), e)
    {
      var d := Plus(distances[e.source], speed.scale(e.duration));
      if Less(d, distances[e.target]) {
        distances := distances[e.target := d];
        predecessors := predecessors[e.target := e.source];
      }
    }

    /** Any gray vertex of least entry may come out of the heap. */
    method Top(queue: set<Vertex>) returns (u: Vertex)
      requires queue != {}
      requires forall v :: v in queue ==> v < |distances|
      ensures u in queue && forall v :: v in queue ==> v < |distances| && AtMost(distances[u], distances[v])
    {
      LeastExists(queue, distances);
      u :| u in queue && forall v :: v in queue ==> v < |distances| && AtMost(distances[u], distances[v]);
    }

    /** Looks at one edge out of the popped vertex `u`. */
    method Look(u: Vertex, i: nat, queue: set<Vertex>, ghost p: Problem) returns (more: set<Vertex>)
      requires p.net == net && p.mode == mode && p.scale == speed.scale
      requires Proper(p) && Scanning(p, State(), color, queue, u, i) && i < |net.out[u]|
      modifies this`distances, this`predecessors, this`color
      ensures Scanning(p, State(), color, more, u, i + 1)
      ensures forall v :: 0 <= v < Size(p) ==> (color[v] == Black <==> old(color)[v] == Black)
      ensures forall v :: 0 <= v < Size(p) && old(color)[v] != White ==> color[v] != White
      ensures Discovered(p, old(color), color, u)
    {
      var e := net.out[u][i];
      LookKeepsScanning(p, State(), color, queue, u, i);
      more := queue;
      AcceptsIsRange(net, mode, e.source);
      AcceptsIsRange(net, mode, e.target);
      if Accepts(net, mode, e.source) && Accepts(net, mode, e.target) {
        if color[e.target] == White {
          assert ShownBy(p, u, e.target);
          Relax(e, p);
          color := color[e.target := Gray];
          more := more + {e.target};
        } else if color[e.target] == Gray {
          Relax(e, p);
        }
      }
    }

    /** Looks at every edge out of the popped vertex `u`, then blackens it. */
    method Scan(u: Vertex, queue: set<Vertex>, ghost p: Problem) returns (more: set<Vertex>)
      requires p.net == net && p.mode == mode && p.scale == speed.scale
      requires Proper(p) && Scanning(p, State(), color, queue, u, 0)
      modifies this`distances, this`predecessors, this`color
      ensures Ready(p, State(), color, more)
      ensures SeedsSeen(p, color)
      ensures forall v :: 0 <= v < Size(p) ==> (color[v] == Black <==> v == u || old(color)[v] == Black)
      ensures forall v :: 0 <= v < Size(p) && old(color)[v] != White ==> color[v] != White
      ensures Discovered(p, old(color), color, u)
    {
      more := queue;
      for i := 0 to |net.out[u]|
        invariant Scanning(p, State(), color, more, u, i)
        invariant forall v :: 0 <= v < Size(p) ==> (color[v] == Black <==> old(color)[v] == Black)
        invariant forall v :: 0 <= v < Size(p) && old(color)[v] != White ==> color[v] != White
        invariant Discovered(p, old(color), color, u)
      {
        more := Look(u, i, more, p);
      }
      ScannedIsReady(p, State(), color, more, u);
      color := color[u := Black];
    }

    /** The target visitor counts the targets as they are finished and throws at the last one. */
    method FinishVertex(u: Vertex, stop: Stop, nbFound: nat, ghost before: seq<Color>) returns (count: nat, thrown: bool)
      requires u < |before| == |color| && before[u] != Black
      requires forall v :: 0 <= v < |color| ==> (color[v] == Black <==> v == u || before[v] == Black)
      requires Counted(stop, before, nbFound) && !AllFound(stop, nbFound)
      ensures Counted(stop, color, count)
      ensures thrown <==> AllFound(stop, count)
    {
      count := nbFound;
      if stop.WhenAllFinished? {
        FinishedGrows(before, color, stop.targets, u);
        if u in stop.targets {
          count := count + 1;
          if count == |stop.targets| {
            return count, true;
          }
        }
      }
      thrown := false;
    }

    /** Scans the popped vertex and lets the visitor finish it. */
    method ScanAndFinish(u: Vertex, queue: set<Vertex>, stop: Stop, nbFound: nat, ghost p: Problem, ghost tour: Problem)
      returns (more: set<Vertex>, count: nat, thrown: bool)
      requires p.net == net && p.mode == mode && p.scale == speed.scale
      requires Proper(p) && Ready(p, State(), color, queue)
      requires u in queue && forall v :: v in queue ==> v < |distances| && AtMost(distances[u], distances[v])
      requires Counted(stop, color, nbFound) && !AllFound(stop, nbFound)
      requires Proper(tour) && tour == p.(seeds := tour.seeds) && Toured(tour, color)
      modifies this`distances, this`predecessors, this`color
      ensures Ready(p, State(), color, more)
      ensures SeedsSeen(p, color)
      ensures forall v :: 0 <= v < Size(p) ==> (color[v] == Black <==> v == u || old(color)[v] == Black)
      ensures Counted(stop, color, count) && (thrown <==> AllFound(stop, count))
      ensures Toured(tour, color)
    {
      PopStartsScan(p, State(), color, queue, u);
      more := Scan(u, queue - {u}, p);
      DiscoveredAreLinked(tour, old(color), color, u);
      count, thrown := FinishVertex(u, stop, nbFound, old(color));
    }

    /** The visit: pop a least vertex, let the visitor examine it, scan it, let the visitor finish it. */
    method BreadthFirstVisit(sources: seq<Vertex>, stop: Stop, ghost p: Problem) returns (stopped: bool)
      requires p.net == net && p.mode == mode && p.scale == speed.scale
      requires Proper(p) && Sound(p, State())
      requires |color| == Size(p) && forall v :: 0 <= v < Size(p) ==> color[v] == White
      requires Launch(p, sources)
      modifies this`distances, this`predecessors, this`color
      ensures Sound(p, State())
      ensures |color| == Size(p) && BlackSettled(p, State(), color)
      ensures !stopped ==> ExactUpTo(p, State(), Infinite) && WalksEndBlack(p, color)
      ensures stop.AtRadius? && (p.closed == {} || AtMost(old(distances[sources[0]]), stop.max)) ==>
                ExactUpTo(p, State(), stop.max)
      ensures stop.AtRadius? && p.closed != {} && Less(stop.max, old(distances[sources[0]])) ==>
                stopped && State() == old(State())
      ensures stop.WhenAllFinished? && stop.targets != [] ==>
                (stopped <==> |Finished(color, stop.targets)| == |stop.targets|)
      ensures Proper(Touring(p, sources)) && AllLinked(Touring(p, sources), color)
      ensures !stopped ==> WalksEndBlack(Touring(p, sources), color)
    {
      var queue: set<Vertex> := Enqueue(sources, p);
      ghost var tour := Touring(p, sources);
      ghost var tooFar := stop.AtRadius? && p.closed != {} && Less(stop.max, distances[sources[0]]);
      ghost var open := Below(Size(p));
      var nbFound := 0;
      while queue != {}
        invariant Ready(p, State(), color, queue)
        invariant forall v :: 0 <= v < Size(p) && color[v] != Black ==> v in open
        invariant SeedsSeen(p, color) || (State() == old(State()) && p.closed != {} && queue == {sources[0]})
        invariant tooFar ==> State() == old(State()) && queue == {sources[0]}
        invariant Counted(stop, color, nbFound) && !AllFound(stop, nbFound)
        invariant Toured(tour, color)
        decreases open
      {
        var u := Top(queue);
        if stop.AtRadius? && Less(stop.max, distances[u]) {
          if !tooFar {
            NothingMissed(p, State(), color, stop.max);
          }
          return true;
        }
        open := open - {u};
        var thrown;
        queue, nbFound, thrown := ScanAndFinish(u, queue, stop, nbFound, p, tour);
        if thrown {
          return true;
        }
      }
      NothingMissed(p, State(), color, Infinite);
      TourIsOver(p, tour, State(), color);
      return false;
    }

    method Enqueue(sources: seq<Vertex>, ghost p: Problem) returns (queue: set<Vertex>)
      requires Proper(p) && Sound(p, State())
      requires |color| == Size(p) && forall v :: 0 <= v < Size(p) ==> color[v] == White
      requires Launch(p, sources)
      modifies this`color
      ensures Ready(p, State(), color, queue)
      ensures SeedsSeen(p, color) || (p.closed != {} && queue == {sources[0]})
      ensures p.closed != {} ==> queue == {sources[0]}
      ensures forall v :: 0 <= v < Size(p) ==> color[v] == if v in queue then Gray else White
      ensures Proper(Touring(p, sources)) && Toured(Touring(p, sources), color)
    {
      queue := {};
      for k := 0 to |sources|
        invariant |color| == Size(p)
        invariant forall v :: v in queue <==> v in sources[..k]
        invariant forall v :: 0 <= v < Size(p) ==> color[v] == if v in queue then Gray else White
      {
        color := color[sources[k] := Gray];
        queue := queue + {sources[k]};
      }
      if p.closed != {} {
        assert LeadAlone(p, color, queue, sources[0]);
      }
      TourBegins(p, sources, color);
    }

    // ---------- the path finder's own operations ----------

    /** The search problem posed by the start: walks may not enter the one vertex that is queued. */
    ghost function Task(): Problem
      reads this
    {
      Problem(net, mode, speed.scale, SeedsOf(startingEdge, speed.crowFly),
              if startingEdge.found then {startingEdge.source} else {})
    }

    /** Holds from `InitStart` on, through every search. */
    ghost predicate Valid()
      reads this
    {
      && Proper(Task())
      && Sound(Task(), State())
      && |color| == Size(Task())
      && (startingEdge.found ==> OnEdge(net, mode, startingEdge))
    }

    /** Leaves `predecessors` as an earlier search left them, apart from the two ends. */
    method InitStart(start: Projection, mode': Mode, speed': Speed)
      requires WellFormed(net) && Layered(net)
      requires start.found ==> OnEdge(net, mode', start)
      modifies this
      ensures Valid() && mode == mode' && speed == speed' && startingEdge == start && !computationLaunch
      ensures Fresh(Task(), State())
    {
      computationLaunch := false;
      mode, speed, startingEdge := mode', speed', start;
      var n := |net.out|;
      distances, predecessors := StartValues(n);
      if |color| != n {
        color := seq(n, _ => White);
      }
      FreshIsSound(Task(), State());
    }

    /** The two arrays with the values of the two ends written, in the order the program writes them. */
    method StartValues(n: nat) returns (dist: seq<Duration>, pred: seq<Vertex>)
      requires startingEdge.found ==> startingEdge.source < n && startingEdge.target < n
      ensures |dist| == |pred| == n
      ensures Written(dist, pred, SeedsOf(startingEdge, speed.crowFly))
    {
      dist := seq(n, _ => Infinite);
      pred := if |predecessors| == n then predecessors else seq(n, _ => 0);
      if startingEdge.found {
        var s, t := startingEdge.source, startingEdge.target;
        dist := dist[s := Finite(speed.crowFly(startingEdge.toSource))];
        dist := dist[t := Finite(speed.crowFly(startingEdge.toTarget))];
        pred := pred[s := s];
        pred := pred[t := t];
        if t != s {
          if startingEdge.toSource < ON_NODE {
            pred := pred[t := s];
            dist := dist[t := Infinite];
          } else if startingEdge.toTarget < ON_NODE {
            pred := pred[s := t];
            dist := dist[s := Infinite];
          }
          ghost var seeds := SeedsOf(startingEdge, speed.crowFly);
          assert forall v :: v in seeds ==> v == s || v == t;
        }
      }
    }

    /** The two references handed over bound a half-open range, so only the source end is queued. */
    method Dijkstra(stop: Stop) returns (stopped: bool)
      requires Valid() && startingEdge.found
      modifies this`distances, this`predecessors, this`color
      ensures Valid() && BlackSettled(Task(), State(), color)
      ensures !stopped ==> ExactUpTo(Task(), State(), Infinite) && WalksEndBlack(Task(), color)
      ensures stop.AtRadius? && AtMost(old(distances)[startingEdge.source], stop.max) ==> ExactUpTo(Task(), State(), stop.max)
      ensures stop.AtRadius? && Less(stop.max, old(distances)[startingEdge.source]) ==> stopped && State() == old(State())
      ensures stop.WhenAllFinished? && stop.targets != [] ==>
                (stopped <==> |Finished(color, stop.targets)| == |stop.targets|)
      ensures Proper(Tour()) && AllLinked(Tour(), color)
      ensures !stopped ==> WalksEndBlack(Tour(), color)
    {
      color := seq(|color|, _ => White);
      stopped := BreadthFirstVisit([startingEdge.source], stop, Task());
    }

    /** The streets walked from the one vertex that is queued. */
    ghost function Tour(): Problem
      reads this
    {
      Touring(Task(), [startingEdge.source])
    }

    /**
     Afterwards the arrays are exact up to the radius exactly when the queued end was within it or,
     if the search stalled there, nothing was left to relax within it.
     */
    method StartDistanceDijkstra(radius: Duration)
      requires Valid()
      modifies this`distances, this`predecessors, this`color, this`computationLaunch
      ensures Valid()
      ensures !startingEdge.found ==> State() == old(State())
      ensures startingEdge.found && Less(radius, old(distances)[startingEdge.source]) ==> State() == old(State())
      ensures startingEdge.found ==>
                (ExactUpTo(Task(), State(), radius) <==>
                  AtMost(old(distances)[startingEdge.source], radius) || NothingTense(Task(), old(State()), radius))
    {
      if !startingEdge.found {
        return;
      }
      computationLaunch := true;
      var _ := Dijkstra(AtRadius(radius));
      ExactIffNothingTense(Task(), State(), radius);
    }

    /**
     Two searches from one start, the second with another radius, leave what one fresh search of
     that radius leaves, as far as it goes.
     */
    method SearchTwice(start: Projection, mode': Mode, speed': Speed, first: Duration, second: Duration, ghost cold: Arrays)
      requires WellFormed(net) && Layered(net)
      requires start.found && OnEdge(net, mode', start)
      requires start.source in SeedsOf(start, speed'.crowFly) && AtMost(Finite(SeedsOf(start, speed'.crowFly)[start.source]), second)
      modifies this
      ensures Valid() && startingEdge == start && ExactUpTo(Task(), State(), second)
      ensures Tree(Task(), cold) && ExactUpTo(Task(), cold, second) ==>
                forall v :: 0 <= v < |distances| && (AtMost(distances[v], second) || AtMost(cold.dist[v], second)) ==> distances[v] == cold.dist[v]
    {
      InitStart(start, mode', speed');
      StartDistanceDijkstra(first);
      assert start.source in Task().seeds;
      StartDistanceDijkstra(second);
      if Tree(Task(), cold) && ExactUpTo(Task(), cold, second) {
        WarmEqualsFresh(Task(), State(), cold, second);
      }
    }

    ghost predicate NeedsSearch(target: Projection)
      requires target.source < |distances| && target.target < |distances|
      reads this
    {
      distances[target.source] == Infinite || distances[target.target] == Infinite
    }

    /** The answer is the true duration to the target. */
    ghost predicate IsTrue(target: Projection, answer: Duration)
      requires Valid()
      reads this
    {
      IsNearest(Task(), speed.crowFly, target, false, answer)
    }

    /** The answer is the duration over the end it names; the target end is named only when it is strictly nearer. */
    ghost predicate NamesItsEnd(target: Projection, nearest: (Duration, Direction))
      requires target.source < |distances| && target.target < |distances|
      reads this
    {
      var source, far := Plus(distances[target.source], speed.crowFly(target.toSource)), Plus(distances[target.target], speed.crowFly(target.toTarget));
      if nearest.1 == SourceEnd then nearest.0 == source && AtMost(source, far) else nearest.0 == far && Less(far, source)
    }

    /** Both ends can be counted: they differ and are linked to the queued vertex, and the source end has a walk. */
    ghost predicate CanBeFound(target: Projection)
      requires Valid() && startingEdge.found && Proper(Tour())
      reads this
    {
      target.source != target.target && HasWalk(Task(), target.source) && HasWalk(Tour(), target.target)
    }

    /** The search for both ends of `target`. */
    method SearchFor(target: Projection) returns (nearest: (Duration, Direction))
      requires Valid() && startingEdge.found && target.found
      requires target.source < |distances| && target.target < |distances|
      modifies this`distances, this`predecessors, this`color
      ensures Valid() && Proper(Tour())
      ensures nearest.0.Finite? ==> nearest == FindNearestVertex(distances, speed.crowFly, target, false) && IsTrue(target, nearest.0)
      ensures nearest.0.Finite? <==> CanBeFound(target)
      ensures nearest.0.Finite? ==> NamesItsEnd(target, nearest)
    {
      var targets := [target.source, target.target];
      var found := Dijkstra(WhenAllFinished(targets));
      BothFinished(color, target.source, target.target);
      SeedsAreLinked();
      BlackIffLinked(target.source, found);
      BlackIffLinked(target.target, found);
      if !found {
        return (Infinite, SourceEnd);
      }
      BlackIsReached(Task(), State(), color, target.source);
      BlackIsReached(Task(), State(), color, target.target);
      nearest := FindNearestVertex(distances, speed.crowFly, target, false);
      DirectionMeans(distances, speed.crowFly, target, false);
      assert nearest.0 == OverEnds(speed.crowFly, target, false, distances[target.source], distances[target.target]) || nearest.0 == Infinite;
    }

    /** Whatever has a walk is linked to the queued vertex. */
    lemma SeedsAreLinked()
      requires Valid() && startingEdge.found && Proper(Tour())
      ensures forall v :: HasWalk(Task(), v) ==> HasWalk(Tour(), v)
    {
      var lead, tour := startingEdge.source, Tour();
      assert IsWalk(tour, Start(lead)) && End(Start(lead)) == lead;
      forall s | s in Task().seeds
        ensures HasWalk(tour, s)
      {
        if s != lead {
          assert ShownBy(tour, lead, s);
          LinkedOnward(tour, lead, s);
        }
      }
      forall v | HasWalk(Task(), v)
        ensures HasWalk(tour, v)
      {
        var w :| IsWalk(Task(), w) && End(w) == v;
        WalkIsLinked(Task(), tour, w);
      }
    }

    /** When the queued end has a start value, what is linked to it has a walk. */
    lemma FoundByWalks(target: Projection)
      requires Valid() && startingEdge.found && Proper(Tour()) && startingEdge.source in Task().seeds
      ensures CanBeFound(target) <==>
              target.source != target.target && HasWalk(Task(), target.source) && HasWalk(Task(), target.target)
    {
      SeedsAreLinked();
      if HasWalk(Tour(), target.target) {
        LinkedFromSeed(Task(), startingEdge.source, target.target);
      }
    }

    lemma BlackIffLinked(v: Vertex, stopped: bool)
      requires Valid() && v < |color| && Proper(Tour()) && AllLinked(Tour(), color)
      requires !stopped ==> WalksEndBlack(Tour(), color)
      ensures color[v] == Black ==> HasWalk(Tour(), v)
      ensures !stopped && HasWalk(Tour(), v) ==> color[v] == Black
    {
    }

    /**
     Searches for both ends of `target` unless both already have a finite entry. After a search a
     finite answer is true; without one it is true exactly when no shortcut is left that undercuts it,
     and certainly within a radius that earlier searches covered.
     */
    method UpdatePath(target: Projection, ghost max: Duration) returns (nearest: (Duration, Direction))
      requires Valid() && startingEdge.found
      requires target.found ==> target.source < |distances| && target.target < |distances|
      modifies this`distances, this`predecessors, this`color, this`computationLaunch
      ensures Valid() && Proper(Tour())
      ensures !target.found ==> nearest == (Infinite, SourceEnd) && State() == old(State())
      ensures target.found && nearest.0.Finite? ==> nearest == FindNearestVertex(distances, speed.crowFly, target, false)
      ensures target.found && old(NeedsSearch(target)) ==> (nearest.0.Finite? <==> CanBeFound(target))
      ensures target.found && old(NeedsSearch(target)) && nearest.0.Finite? ==> IsTrue(target, nearest.0)
      ensures target.found && !old(NeedsSearch(target)) ==> State() == old(State()) && nearest.0.Finite?
      ensures target.found && !old(NeedsSearch(target)) ==>
                (IsTrue(target, nearest.0) <==> !Undercut(Task(), State(), speed.crowFly, target, nearest.0))
      ensures target.found && nearest.0.Finite? ==> NamesItsEnd(target, nearest)
      ensures target.found && Within(nearest.0, max) && old(ExactUpTo(Task(), State(), max)) ==> IsTrue(target, nearest.0)
    {
      TourIsProper();
      if !target.found {
        return (Infinite, SourceEnd);
      }
      computationLaunch := true;
      if distances[target.source] == Infinite || distances[target.target] == Infinite {
        nearest := SearchFor(target);
      } else {
        nearest := FindNearestVertex(distances, speed.crowFly, target, false);
        DirectionMeans(distances, speed.crowFly, target, false);
        SkippedIsExact(Task(), State(), speed.crowFly, target);
        CoveredIsExact(target, max);
      }
    }

    /** An answer within a radius the arrays are exact up to is true. */
    lemma CoveredIsExact(target: Projection, max: Duration)
      requires Valid() && target.found && target.source < |distances| && target.target < |distances|
      ensures ExactUpTo(Task(), State(), max) && Within(FindNearestVertex(distances, speed.crowFly, target, false).0, max) ==>
                IsTrue(target, FindNearestVertex(distances, speed.crowFly, target, false).0)
    {
      if ExactUpTo(Task(), State(), max) {
        var least := NearestExists(Task(), speed.crowFly, target, false);
        NearestIsExact(Task(), State(), speed.crowFly, target, false, max, least);
      }
    }

    lemma TourIsProper()
      requires Valid() && startingEdge.found
      ensures Proper(Tour())
    {
    }

    /** What is reported for one projected destination once the search is over. */
    function Routed(radius: Duration, destination: Projection, alongEdge: Projection -> nat): RoutingElement
      requires destination.found && destination.source < |distances| && destination.target < |distances|
      reads this
    {
      var duration :=
        if IsProjectedOnSameEdge(startingEdge, destination) then Finite(alongEdge(destination))
        else FindNearestVertex(distances, speed.crowFly, destination, true).0;
      if AtMost(duration, radius) then Reached(duration) else Unreached
    }

    ghost predicate InRange<K>(destinations: seq<(K, Projection)>)
      reads this
    {
      forall i :: 0 <= i < |destinations| && destinations[i].1.found ==>
        destinations[i].1.source < |distances| && destinations[i].1.target < |distances|
    }

    /** The answers for the destinations looked at so far: the last found one under a key wins. */
    ghost predicate Answered<K>(radius: Duration, found: seq<(K, Projection)>, alongEdge: Projection -> nat, answers: map<K, RoutingElement>)
      requires InRange(found)
      reads this
    {
      forall k :: k in answers ==> AnsweredFor(radius, found, alongEdge, k, answers[k])
    }

    ghost predicate AnsweredFor<K>(radius: Duration, found: seq<(K, Projection)>, alongEdge: Projection -> nat, k: K, answer: RoutingElement)
      requires InRange(found)
      reads this
    {
      match LastFound(found, k)
      case None => answer == Unknown
      case Some(d) => (LastFoundIsThere(found, k); answer == Routed(radius, d, alongEdge))
    }

    /** Keeps the projected destinations, in order, and answers for the others. */
    static method ProjectAll<K(==)>(destinations: seq<(K, Projection)>)
      returns (found: seq<(K, Projection)>, answers: map<K, RoutingElement>)
      ensures found == FoundOnly(destinations)
      ensures forall k :: k in answers ==> answers[k] == Unknown
      ensures answers.Keys + Keys(found) == Keys(destinations)
    {
      answers, found := map[], [];
      for i := 0 to |destinations|
        invariant found == FoundOnly(destinations[..i])
        invariant forall k :: k in answers ==> answers[k] == Unknown
        invariant answers.Keys + Keys(found) == Keys(destinations[..i])
      {
        assert destinations[..i + 1] == destinations[..i] + [destinations[i]];
        KeysGrow(destinations[..i], destinations[i]);
        KeysGrow(found, destinations[i]);
        if destinations[i].1.found {
          found := found + [destinations[i]];
        } else {
          answers := answers[destinations[i].0 := Unknown];
        }
      }
      assert destinations[..|destinations|] == destinations;
    }

    lemma AnsweredNext<K>(radius: Duration, found: seq<(K, Projection)>, d: (K, Projection), alongEdge: Projection -> nat, answers: map<K, RoutingElement>)
      requires InRange(found) && InRange(found + [d])
      requires d.1.found && d.1.source < |distances| && d.1.target < |distances|
      requires Answered(radius, found, alongEdge, answers)
      ensures Answered(radius, found + [d], alongEdge, answers[d.0 := Routed(radius, d.1, alongEdge)])
    {
      assert (found + [d])[..|found|] == found;
      forall k | k in answers && k != d.0
        ensures AnsweredFor(radius, found + [d], alongEdge, k, answers[k])
      {
        assert AnsweredFor(radius, found, alongEdge, k, answers[k]);
      }
    }

    /** Answers for the projected destinations from the entries the search has left. */
    method AnswerAll<K(==)>(radius: Duration, found: seq<(K, Projection)>, alongEdge: Projection -> nat, unknown: map<K, RoutingElement>)
      returns (answers: map<K, RoutingElement>)
      requires InRange(found) && forall d :: d in found ==> d.1.found
      requires forall k :: k in unknown ==> unknown[k] == Unknown
      ensures answers.Keys == unknown.Keys + Keys(found)
      ensures Answered(radius, found, alongEdge, answers)
    {
      answers := unknown;
      for j := 0 to |found|
        invariant answers.Keys == unknown.Keys + Keys(found[..j])
        invariant Answered(radius, found[..j], alongEdge, answers)
      {
        assert found[..j + 1] == found[..j] + [found[j]];
        assert found[j] in found;
        KeysGrow(found[..j], found[j]);
        AnsweredNext(radius, found[..j], found[j], alongEdge, answers);
        answers := answers[found[j].0 := Routed(radius, found[j].1, alongEdge)];
      }
      assert found[..|found|] == found;
    }

    /** Dropping the destinations that were not projected changes no answer. */
    lemma AnsweredAll<K>(radius: Duration, destinations: seq<(K, Projection)>, alongEdge: Projection -> nat, answers: map<K, RoutingElement>)
      requires InRange(destinations) && InRange(FoundOnly(destinations))
      requires Answered(radius, FoundOnly(destinations), alongEdge, answers)
      ensures Answered(radius, destinations, alongEdge, answers)
    {
      forall k | k in answers
        ensures AnsweredFor(radius, destinations, alongEdge, k, answers[k])
      {
        FoundOnlyKeepsLast(destinations, k);
        assert AnsweredFor(radius, FoundOnly(destinations), alongEdge, k, answers[k]);
      }
    }

    /** Not the two ends of the starting edge, or not the same duration and way. */
    ghost predicate OffStart(d: Projection)
      reads this
    {
      || {d.source, d.target} != {startingEdge.source, startingEdge.target}
      || d.edge.duration != startingEdge.edge.duration || d.edge.way != startingEdge.edge.way
    }

    /**
     Off the starting edge, a destination is reported as reached in a finite duration exactly when its
     true duration is within the radius and its source end has an entry, and then with that duration.
     On the starting edge the duration along it decides. Destinations that were not projected are unknown.
     */
    ghost predicate Truthful<K>(radius: Duration, destinations: seq<(K, Projection)>, alongEdge: Projection -> nat, k: K, answer: RoutingElement)
      requires Valid() && InRange(destinations)
      reads this
    {
      match LastFound(destinations, k)
      case None => answer == Unknown
      case Some(d) => (LastFoundIsThere(destinations, k);
        if OffStart(d) then
          && (answer.Reached? || answer.Unreached?)
          && forall least :: IsNearest(Task(), speed.crowFly, d, true, least) ==>
               && (answer.Reached? && answer.duration.Finite? <==> Within(least, radius) && distances[d.source] != Infinite)
               && (answer.Reached? && answer.duration.Finite? ==> answer.duration == least)
        else if AtMost(Finite(alongEdge(d)), radius) then answer == Reached(Finite(alongEdge(d)))
        else answer == Unreached)
    }

    lemma RoutedIsTruthful<K>(radius: Duration, destinations: seq<(K, Projection)>, alongEdge: Projection -> nat, k: K, answer: RoutingElement)
      requires Valid() && InRange(destinations) && ExactUpTo(Task(), State(), radius)
      requires AnsweredFor(radius, destinations, alongEdge, k, answer)
      ensures Truthful(radius, destinations, alongEdge, k, answer)
    {
      LastFoundIsThere(destinations, k);
      if LastFound(destinations, k).Some? {
        var d := LastFound(destinations, k).value;
        SameEdgeMeans(startingEdge, d);
        forall least | IsNearest(Task(), speed.crowFly, d, true, least)
          ensures var answer := FindNearestVertex(distances, speed.crowFly, d, true).0;
                  && (Within(answer, radius) <==> Within(least, radius) && distances[d.source] != Infinite)
                  && (Within(answer, radius) ==> answer == least)
        {
          NearestIsExact(Task(), State(), speed.crowFly, d, true, radius, least);
        }
      }
    }

    lemma AllTruthful<K>(radius: Duration, destinations: seq<(K, Projection)>, alongEdge: Projection -> nat, answers: map<K, RoutingElement>)
      requires Valid() && InRange(destinations) && Answered(radius, destinations, alongEdge, answers)
      ensures ExactUpTo(Task(), State(), radius) ==> forall k :: k in answers ==> Truthful(radius, destinations, alongEdge, k, answers[k])
    {
      if ExactUpTo(Task(), State(), radius) {
        forall k | k in answers
          ensures Truthful(radius, destinations, alongEdge, k, answers[k])
        {
          assert AnsweredFor(radius, destinations, alongEdge, k, answers[k]);
          RoutedIsTruthful(radius, destinations, alongEdge, k, answers[k]);
        }
      }
    }

    /**
     Reports a duration for every destination. None stands for the exception thrown when the start
     itself was not projected; `alongEdge` is the duration between two points of the same edge.
     */
    method FillDurations<K(==)>(radius: Duration, destinations: seq<(K, Projection)>, alongEdge: Projection -> nat)
      returns (result: Option<map<K, RoutingElement>>)
      requires Valid() && InRange(destinations)
      modifies this`distances, this`predecessors, this`color, this`computationLaunch
      ensures Valid() && InRange(destinations)
      ensures result == None <==> !startingEdge.found && FoundOnly(destinations) != []
      ensures FoundOnly(destinations) == [] || !startingEdge.found ==> State() == old(State())
      ensures FoundOnly(destinations) != [] && startingEdge.found ==>
                (ExactUpTo(Task(), State(), radius) <==>
                  AtMost(old(distances)[startingEdge.source], radius) || NothingTense(Task(), old(State()), radius))
      ensures result.Some? ==> result.value.Keys == Keys(destinations)
      ensures result.Some? ==> Answered(radius, destinations, alongEdge, result.value)
      ensures result.Some? && ExactUpTo(Task(), State(), radius) ==>
                forall k :: k in result.value ==> Truthful(radius, destinations, alongEdge, k, result.value[k])
    {
      var found, answers := ProjectAll(destinations);
      FoundOnlyMembers(destinations);
      if found != [] {
        StartDistanceDijkstra(radius);
        if !startingEdge.found {
          return None;
        }
      }
      answers := AnswerAll(radius, found, alongEdge, answers);
      AnsweredAll(radius, destinations, alongEdge, answers);
      AllTruthful(radius, destinations, alongEdge, answers);
      result := Some(answers);
    }

    /** Rebuilds the path to a reached vertex; its duration and the root's start value make up the entry. */
    method BuildPath(v: Vertex) returns (path: Path, ghost walked: seq<Edge>, ghost groups: seq<seq<Edge>>, ghost chain: seq<Vertex>)
      requires Valid() && Monotone(speed.scale)
      requires forall u, e :: 0 <= u < |net.out| && e in net.out[u] ==> CaracteristicOf(net.perMode, e).Some?
      requires v < |distances| && distances[v].Finite?
      ensures IsChain(predecessors, v, chain)
      ensures WalkedTo(net, chain, walked, 1)
      ensures chain[|chain| - 1] in Task().seeds
      ensures distances[v] == Finite(Task().seeds[chain[|chain| - 1]] + path.duration)
      ensures path.duration == TotalOfItems(path.items)
      ensures path.duration == Total(speed.scale, walked)
      ensures Flatten(groups) == walked && WellGrouped(Streets(), groups)
      ensures SummariseAll(Streets(), path.items, net.coords[chain[|chain| - 1]], groups)
    {
      var reversePath := FollowPredecessors(v);
      chain := reversePath;
      ChainIsConnected(Task(), State(), Streets(), v, reversePath);
      path, walked, groups := CreatePath(Streets(), reversePath, true);
      ChainAddsUp(Task(), State(), v, reversePath, walked, 1);
    }

    function Streets(): Street
      requires net.perMode > 0
      reads this
    {
      Street(net, (e: Edge) => CaracteristicOf(net.perMode, e), speed.scale)
    }

    method FollowPredecessors(v: Vertex) returns (reversePath: seq<Vertex>)
      requires Valid() && v < |distances| && distances[v].Finite?
      ensures IsChain(predecessors, v, reversePath)
    {
      reversePath := [];
      var best: Vertex := v;
      assert HasRoot(predecessors, v);
      ghost var n: nat :| Rooted(predecessors, v, n);
      while best != predecessors[best]
        invariant best < |predecessors| && Rooted(predecessors, best, n)
        invariant forall i :: 0 <= i < |reversePath| ==> reversePath[i] < |predecessors|
        invariant forall i :: 0 < i < |reversePath| ==>
                    reversePath[i] == predecessors[reversePath[i - 1]] && reversePath[i] != reversePath[i - 1]
        invariant reversePath == [] ==> best == v
        invariant reversePath != [] ==> reversePath[0] == v
        invariant reversePath != [] ==> best == predecessors[reversePath[|reversePath| - 1]] != reversePath[|reversePath| - 1]
        decreases n
      {
        reversePath := reversePath + [best];
        best := predecessors[best];
        n := n - 1;
      }
      reversePath := reversePath + [best];
    }
  }
}
