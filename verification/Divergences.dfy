/** Concrete streets and starts on which the search does not find the true durations. */
module Divergences {
  import opened Basics
  import opened StreetNetworks
  import opened ShortestPaths
  import opened Frontiers
  import opened SearchLaws
  import opened Restarts
  import opened Projections

  /** Three nodes with the given walking edges. */
  function Three(out0: seq<Edge>, out1: seq<Edge>, out2: seq<Edge>): Network {
    Network(seq(9, _ => Coord(0.0, 0.0)), [out0, out1, out2, [], [], [], [], [], []], 3)
  }

  function Street(u: Vertex, v: Vertex, duration: nat): Edge {
    Edge(u, v, duration, None, None)
  }

  /** A metre a second. */
  function Metres(m: real): nat {
    if m < 0.0 then 0 else m.Floor
  }

  /** On foot, at the speed the edges are measured for, from a start on the street from 0 to 1. */
  function Walkers(net: Network, toSource: real, toTarget: real): Problem {
    Problem(net, Walking, d => d, SeedsOf(Projection(true, 0, 1, Street(0, 1, 100), toSource, toTarget), Metres), {0})
  }

  /** The arrays of a start at 90 from 0 and at 10 from 1, before any search. */
  const AT_START := Arrays([Finite(90), Finite(10), Infinite, Infinite, Infinite, Infinite, Infinite, Infinite, Infinite],
                           [0, 1, 0, 0, 0, 0, 0, 0, 0])

  lemma IsProper(p: Problem, out0: seq<Edge>, out1: seq<Edge>, out2: seq<Edge>)
    requires p.net == Three(out0, out1, out2) && p.seeds.Keys <= {0, 1}
    requires forall i :: 0 <= i < |out0| ==> out0[i].source == 0 && out0[i].target < 3
    requires forall i :: 0 <= i < |out1| ==> out1[i].source == 1 && out1[i].target < 3
    requires forall i :: 0 <= i < |out2| ==> out2[i].source == 2 && out2[i].target < 3
    ensures Proper(p) && Size(p) == 9
  {
  }

  /** The start is at 90 from 0 and at 10 from 1; 2 is one further, and a search of radius 50 misses it. */
  lemma StalledSearchMisses()
    ensures var p := Walkers(Three([Street(0, 1, 100)], [Street(1, 2, 1)], []), 90.0, 10.0);
            Proper(p) && Fresh(p, AT_START) && IsDistance(p, 2, Finite(11)) && !ExactUpTo(p, AT_START, Finite(50))
  {
    var e := Street(1, 2, 1);
    var p := Walkers(Three([Street(0, 1, 100)], [e], []), 90.0, 10.0);
    assert p.seeds == map[0 := 90, 1 := 10];
    IsProper(p, [Street(0, 1, 100)], [e], []);
    assert p.net.out[1][0] == e;
    OneFurther(p, e);
    StalledAtStart(p, e);
  }

  lemma StalledAtStart(p: Problem, e: Edge)
    requires Proper(p) && Size(p) == 9 && p.mode == Walking && p.scale(1) == 1 && p.net.perMode == 3
    requires e == Street(1, 2, 1) && InGraph(p, e) && p.seeds == map[0 := 90, 1 := 10] && p.closed == {0}
    ensures Fresh(p, AT_START) && !ExactUpTo(p, AT_START, Finite(50))
  {
    assert LeavesWithin(p, 0, e, Finite(50));
    StalledSearchIsExact(p, AT_START, 0, Finite(50));
  }

  lemma OneFurther(p: Problem, e: Edge)
    requires Proper(p) && p.mode == Walking && p.scale(1) == 1
    requires e == Street(1, 2, 1) && p.net == Three([Street(0, 1, 100)], [e], []) && InGraph(p, e)
    requires p.seeds == map[0 := 90, 1 := 10] && p.closed == {0}
    ensures IsDistance(p, 2, Finite(11))
  {
    assert IsWalk(p, Start(1)) && Length(p, Start(1)) == 10;
    assert IsWalk(p, Step(Start(1), e)) && Length(p, Step(Start(1), e)) == 11;
    forall x | IsWalk(p, x) && End(x) == 2
      ensures AtMost(Finite(11), Finite(Length(p, x)))
    {
      assert x.Step? && x.edge in p.net.out[x.edge.source];
      assert x.edge == e;
      WalksStartAtSeeds(p, 10, x.before);
    }
  }

  /** The lead at 90 could be reached in 15 over the other end, and keeps 90. */
  lemma ReturnIsMissed()
    ensures var p := Walkers(Three([Street(0, 1, 100)], [Street(1, 0, 5)], []), 90.0, 10.0);
            Proper(p) && IsDistance(p, 0, Finite(90)) && IsDistance(Opened(p), 0, Finite(15))
  {
    var net := Three([Street(0, 1, 100)], [Street(1, 0, 5)], []);
    var p := Walkers(net, 90.0, 10.0);
    assert p.seeds == map[0 := 90, 1 := 10];
    IsProper(p, [Street(0, 1, 100)], [Street(1, 0, 5)], []);
    LeadKeepsStart(p, 0);
    ReturnFrom(Opened(p), net, Street(1, 0, 5), 10);
  }

  /** A start on the far node of its street: the lead is no seed, and the way back to it is lost. */
  lemma NodeStartLosesReturn()
    ensures var p := Walkers(Three([Street(0, 1, 100)], [Street(1, 0, 5)], []), 90.0, 0.0);
            Proper(p) && p.seeds == map[1 := 0] && IsDistance(p, 0, Infinite) && IsDistance(Opened(p), 0, Finite(5))
  {
    var net := Three([Street(0, 1, 100)], [Street(1, 0, 5)], []);
    var p := Walkers(net, 90.0, 0.0);
    assert p.seeds == map[1 := 0];
    IsProper(p, [Street(0, 1, 100)], [Street(1, 0, 5)], []);
    LeadKeepsStart(p, 0);
    ReturnFrom(Opened(p), net, Street(1, 0, 5), 0);
  }

  lemma ReturnFrom(o: Problem, net: Network, e: Edge, start: nat)
    requires Proper(o) && o.closed == {} && o.net == net && o.mode == Walking && o.scale(5) == 5
    requires e == Street(1, 0, 5) && net == Three([Street(0, 1, 100)], [e], [])
    requires 1 in o.seeds && o.seeds[1] == start && forall s :: s in o.seeds ==> start <= o.seeds[s]
    requires 0 in o.seeds ==> o.seeds[0] >= start + 5
    ensures IsDistance(o, 0, Finite(start + 5))
  {
    assert net.out[1][0] == e;
    assert IsWalk(o, Start(1)) && Length(o, Start(1)) == start;
    assert IsWalk(o, Step(Start(1), e)) && Length(o, Step(Start(1), e)) == start + 5;
    forall x | IsWalk(o, x) && End(x) == 0
      ensures AtMost(Finite(start + 5), Finite(Length(o, x)))
    {
      if x.Step? {
        assert x.edge in net.out[x.edge.source];
        assert x.edge == e;
        WalksStartAtSeeds(o, start, x.before);
      }
    }
  }

  /** A target on a one-way street from 2 to 1: its far end is at 10, 2 is unreachable, and the answer is infinite. */
  lemma OneEndUnreached()
    ensures var p := Walkers(Three([Street(0, 1, 100)], [], [Street(2, 1, 20)]), 90.0, 10.0);
            var target := Projection(true, 2, 1, Street(2, 1, 20), 15.0, 5.0);
            && Proper(p) && Fresh(p, AT_START) && Sound(p, AT_START) && ExactUpTo(p, AT_START, Infinite)
            && IsNearest(p, Metres, target, true, Finite(15))
            && FindNearestVertex(AT_START.dist, Metres, target, true).0 == Infinite
  {
    var net := Three([Street(0, 1, 100)], [], [Street(2, 1, 20)]);
    var p := Walkers(net, 90.0, 10.0);
    assert p.seeds == map[0 := 90, 1 := 10];
    IsProper(p, [Street(0, 1, 100)], [], [Street(2, 1, 20)]);
    FreshIsSound(p, AT_START);
    forall e
      ensures !Tense(p, AT_START, e)
    {
      if InGraph(p, e) {
        assert e == Street(0, 1, 100) || e == Street(2, 1, 20);
      }
    }
    ExactIffNothingTense(p, AT_START, Infinite);
    BoundedIsExact(p, AT_START, 1);
    BoundedIsExact(p, AT_START, 2);
    var target := Projection(true, 2, 1, Street(2, 1, 20), 15.0, 5.0);
    assert OverEnds(Metres, target, true, AT_START.dist[2], AT_START.dist[1]) == Finite(15);
  }

  /** Two streets from 0 and one from 1 to 2, from a start at 0. */
  const DETOUR := Walkers(Three([Street(0, 1, 10), Street(0, 2, 100)], [Street(1, 2, 20)], []), 0.0, 10.0)

  const BEGUN := Arrays([Finite(0), Infinite, Infinite, Infinite, Infinite, Infinite, Infinite, Infinite, Infinite], [0, 0, 0, 0, 0, 0, 0, 0, 0])
  const CUT_SHORT := Arrays([Finite(0), Finite(10), Finite(100), Infinite, Infinite, Infinite, Infinite, Infinite, Infinite], [0, 0, 0, 0, 0, 0, 0, 0, 0])

  /**
   A search of radius 5 relaxes the two streets from 0 and stops: 1 and 2 hold 10 and 100. A target
   at 2 is then answered without a search, with 100, although it is 30 away.
   */
  lemma SkippedSearchIsLonger()
    ensures var target := Projection(true, 1, 2, Street(1, 2, 20), 1000.0, 0.0);
            && Proper(DETOUR) && Fresh(DETOUR, BEGUN)
            && CUT_SHORT == Relaxed(DETOUR, Relaxed(DETOUR, BEGUN, Street(0, 1, 10)), Street(0, 2, 100))
            && Sound(DETOUR, CUT_SHORT) && ExactUpTo(DETOUR, CUT_SHORT, Finite(5))
            && FindNearestVertex(CUT_SHORT.dist, Metres, target, false).0 == Finite(100)
            && IsNearest(DETOUR, Metres, target, false, Finite(30))
            && Undercut(DETOUR, CUT_SHORT, Metres, target, Finite(100))
  {
    var e, f, g := Street(0, 1, 10), Street(0, 2, 100), Street(1, 2, 20);
    assert DETOUR.seeds == map[0 := 0];
    IsProper(DETOUR, [e, f], [g], []);
    CutShort(DETOUR, e, f, g);
    SkippedLeavesTense(DETOUR, CUT_SHORT, e, f, g);
    SkippedDistances(DETOUR, e, f, g);
    SkippedAnswer(DETOUR, CUT_SHORT, Projection(true, 1, 2, g, 1000.0, 0.0));
  }

  lemma CutShort(p: Problem, e: Edge, f: Edge, g: Edge)
    requires e == Street(0, 1, 10) && f == Street(0, 2, 100) && g == Street(1, 2, 20)
    requires p == Walkers(Three([e, f], [g], []), 0.0, 10.0) && Proper(p) && p.seeds == map[0 := 0]
    ensures Fresh(p, BEGUN) && CUT_SHORT == Relaxed(p, Relaxed(p, BEGUN, e), f) && Tree(p, CUT_SHORT)
  {
    assert p.net.out[0][0] == e && p.net.out[0][1] == f;
    FreshIsSound(p, BEGUN);
    assert Bounds(p, 0, Finite(0));
    RelaxKeepsTree(p, BEGUN, e);
    RelaxKeepsTree(p, Relaxed(p, BEGUN, e), f);
  }

  lemma SkippedAnswer(p: Problem, a: Arrays, target: Projection)
    requires Proper(p) && Tree(p, a) && target.found && target.source == 1 && target.target == 2 && Size(p) > 2
    requires target.toSource == 1000.0 && target.toTarget == 0.0
    requires a.dist[1] == Finite(10) && a.dist[2] == Finite(100)
    requires IsDistance(p, 1, Finite(10)) && IsDistance(p, 2, Finite(30))
    ensures FindNearestVertex(a.dist, Metres, target, false).0 == Finite(100)
    ensures IsNearest(p, Metres, target, false, Finite(30)) && Undercut(p, a, Metres, target, Finite(100))
  {
    assert OverEnds(Metres, target, false, Finite(10), Finite(30)) == Finite(30);
    NotHundred(p, target);
    SkippedIsExact(p, a, Metres, target);
  }

  lemma SkippedLeavesTense(p: Problem, a: Arrays, e: Edge, f: Edge, g: Edge)
    requires e == Street(0, 1, 10) && f == Street(0, 2, 100) && g == Street(1, 2, 20)
    requires p == Walkers(Three([e, f], [g], []), 0.0, 10.0) && Proper(p) && Tree(p, a) && a == CUT_SHORT
    ensures Sound(p, a) && ExactUpTo(p, a, Finite(5))
  {
    OnlyLastIsTense(p, a, e, f, g);
    ExactIffNothingTense(p, a, Finite(5));
    forall v | 0 <= v < Size(p) && a.dist[v].Finite?
      ensures Cheapest(p, a, v)
    {
      assert v == 0 || v == 1 || v == 2;
    }
  }

  lemma OnlyLastIsTense(p: Problem, a: Arrays, e: Edge, f: Edge, g: Edge)
    requires e == Street(0, 1, 10) && f == Street(0, 2, 100) && g == Street(1, 2, 20)
    requires p == Walkers(Three([e, f], [g], []), 0.0, 10.0) && Proper(p) && Sized(p, a) && a == CUT_SHORT
    ensures forall x :: Tense(p, a, x) ==> x == g
  {
    forall x | Tense(p, a, x)
      ensures x == g
    {
      assert x in [e, f] || x in [g];
    }
  }

  lemma SkippedDistances(p: Problem, e: Edge, f: Edge, g: Edge)
    requires e == Street(0, 1, 10) && f == Street(0, 2, 100) && g == Street(1, 2, 20)
    requires p == Walkers(Three([e, f], [g], []), 0.0, 10.0) && Proper(p) && p.seeds == map[0 := 0]
    ensures IsDistance(p, 1, Finite(10)) && IsDistance(p, 2, Finite(30))
  {
    var a := Arrays([Finite(0), Finite(10), Finite(30), Infinite, Infinite, Infinite, Infinite, Infinite, Infinite], [0, 0, 1, 0, 0, 0, 0, 0, 0]);
    assert p.net.out[0][0] == e && p.net.out[1][0] == g;
    assert IsWalk(p, Start(0)) && Length(p, Start(0)) == 0;
    assert IsWalk(p, Step(Start(0), e)) && Length(p, Step(Start(0), e)) == 10;
    assert IsWalk(p, Step(Step(Start(0), e), g)) && Length(p, Step(Step(Start(0), e), g)) == 30;
    forall w | IsWalk(p, w)
      ensures AtMost(if End(w) == 1 then Finite(10) else if End(w) == 2 then Finite(30) else Finite(0), Finite(Length(p, w)))
    {
      EndsNoSooner(p, e, f, g, w);
    }
  }

  lemma {:induction false} EndsNoSooner(p: Problem, e: Edge, f: Edge, g: Edge, w: Walk)
    requires e == Street(0, 1, 10) && f == Street(0, 2, 100) && g == Street(1, 2, 20)
    requires p == Walkers(Three([e, f], [g], []), 0.0, 10.0) && Proper(p) && p.seeds == map[0 := 0] && IsWalk(p, w)
    ensures End(w) == 1 ==> Length(p, w) >= 10
    ensures End(w) == 2 ==> Length(p, w) >= 30
  {
    if w.Step? {
      EndsNoSooner(p, e, f, g, w.before);
      assert w.edge in [e, f] || w.edge in [g];
    }
  }

  lemma NotHundred(p: Problem, target: Projection)
    requires Proper(p) && IsNearest(p, Metres, target, false, Finite(30))
    ensures !IsNearest(p, Metres, target, false, Finite(100))
  {
    if IsNearest(p, Metres, target, false, Finite(100)) {
      NearestIsUnique(p, Metres, target, false, Finite(30), Finite(100));
    }
  }
}
