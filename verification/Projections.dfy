/** Coordinates projected on edges: what they seed, and how soon they are reached over their two ends. */
module Projections {
  import opened Basics
  import opened StreetNetworks
  import opened ShortestPaths
  import opened Frontiers
  import opened SearchLaws
  import opened Restarts

  /** A coordinate projected on an edge: its two ends and the distance to each of them. */
  datatype Projection = Projection(found: bool, source: Vertex, target: Vertex, edge: Edge,
                                   toSource: real, toTarget: real)

  datatype Direction = SourceEnd | TargetEnd

  /** How the speed factor turns edge durations and metres into seconds. */
  datatype Speed = Speed(scale: nat -> nat, crowFly: real -> nat)

  const ON_NODE := 0.01

  /** The start values `init_start` writes, keyed by the vertex they are written to. */
  function SeedsOf(start: Projection, crowFly: real -> nat): map<Vertex, nat> {
    if !start.found then map[]
    else if start.source == start.target then map[start.target := crowFly(start.toTarget)]
    else if start.toSource < 0.01 then map[start.source := crowFly(start.toSource)]
    else if start.toTarget < 0.01 then map[start.target := crowFly(start.toTarget)]
    else map[start.source := crowFly(start.toSource), start.target := crowFly(start.toTarget)]
  }

  /** The projection lies on an edge of the graph that the mode may use. */
  ghost predicate OnEdge(net: Network, mode: Mode, at: Projection)
    requires WellFormed(net) && Layered(net)
  {
    && at.source < |net.out| && at.target < |net.out|
    && exists e :: e in net.out[at.source] && e.target == at.target
                   && InRange(mode, net.perMode, e.source) && InRange(mode, net.perMode, e.target)
  }

  /** Both projections lie on the same stretch of street, in either direction. */
  predicate IsProjectedOnSameEdge(a: Projection, b: Projection) {
    && ((a.source == b.source && a.target == b.target) || (a.source == b.target && a.target == b.source))
    && a.edge.duration == b.edge.duration && a.edge.way == b.edge.way
  }

  /** The same two ends in any order, and nothing else that tells the edges apart. */
  lemma SameEdgeMeans(a: Projection, b: Projection)
    ensures IsProjectedOnSameEdge(a, b) <==>
            {a.source, a.target} == {b.source, b.target} && a.edge.duration == b.edge.duration && a.edge.way == b.edge.way
  {
    if {a.source, a.target} == {b.source, b.target} {
      assert a.source in {b.source, b.target} && a.target in {b.source, b.target};
      assert b.source in {a.source, a.target} && b.target in {a.source, a.target};
    }
  }

  // ---------- the nearer of two ends ----------

  /** The end of `target` from which it is reached soonest, and how soon. */
  function FindNearestVertex(dist: seq<Duration>, crowFly: real -> nat, target: Projection, handleOnNode: bool): (Duration, Direction)
    requires target.found ==> target.source < |dist| && target.target < |dist|
  {
    if !target.found || dist[target.source] == Infinite then (Infinite, SourceEnd)
    else if handleOnNode && target.toSource < ON_NODE then (dist[target.source], SourceEnd)
    else if handleOnNode && target.toTarget < ON_NODE then (dist[target.target], TargetEnd)
    else
      var sourceDist := Plus(dist[target.source], crowFly(target.toSource));
      var targetDist := Plus(dist[target.target], crowFly(target.toTarget));
      if Less(targetDist, sourceDist) then (targetDist, TargetEnd) else (sourceDist, SourceEnd)
  }

  /**
   The direction goes with the answer: the duration is that over the end it names, and without the
   on-node rule the target end is named only when it is strictly nearer.
   */
  lemma DirectionMeans(dist: seq<Duration>, crowFly: real -> nat, target: Projection, handleOnNode: bool)
    requires target.found && target.source < |dist| && target.target < |dist|
    ensures var (d, end) := FindNearestVertex(dist, crowFly, target, handleOnNode);
            var source, far := Plus(dist[target.source], crowFly(target.toSource)), Plus(dist[target.target], crowFly(target.toTarget));
            && (dist[target.source] == Infinite ==> end == SourceEnd)
            && (!handleOnNode && dist[target.source] != Infinite ==>
                  if end == SourceEnd then d == source && AtMost(source, far) else d == far && Less(far, source))
            && (handleOnNode && dist[target.source] != Infinite && target.toSource < 0.01 ==> end == SourceEnd && d == dist[target.source])
            && (handleOnNode && dist[target.source] != Infinite && target.toSource >= 0.01 && target.toTarget < 0.01 ==>
                  end == TargetEnd && d == dist[target.target])
            && (handleOnNode && dist[target.source] != Infinite && target.toSource >= 0.01 && target.toTarget >= 0.01 ==>
                  if end == SourceEnd then d == source && AtMost(source, far) else d == far && Less(far, source))
  {
  }

  /** The least duration over both ends, or that of the end the target coincides with. */
  function OverEnds(crowFly: real -> nat, target: Projection, handleOnNode: bool, toSource: Duration, toTarget: Duration): Duration {
    if handleOnNode && target.toSource < 0.01 then toSource
    else if handleOnNode && target.toTarget < 0.01 then toTarget
    else Min(Plus(toSource, crowFly(target.toSource)), Plus(toTarget, crowFly(target.toTarget)))
  }

  /** `least` is the true duration to the target. */
  ghost predicate IsNearest(p: Problem, crowFly: real -> nat, target: Projection, handleOnNode: bool, least: Duration)
    requires Proper(p)
  {
    exists s, t :: IsDistance(p, target.source, s) && IsDistance(p, target.target, t) && least == OverEnds(crowFly, target, handleOnNode, s, t)
  }

  lemma NearestExists(p: Problem, crowFly: real -> nat, target: Projection, handleOnNode: bool) returns (least: Duration)
    requires Proper(p)
    ensures IsNearest(p, crowFly, target, handleOnNode, least)
  {
    var s := DistanceExists(p, target.source);
    var t := DistanceExists(p, target.target);
    least := OverEnds(crowFly, target, handleOnNode, s, t);
  }

  lemma NearestIsUnique(p: Problem, crowFly: real -> nat, target: Projection, handleOnNode: bool, d: Duration, d': Duration)
    requires Proper(p) && IsNearest(p, crowFly, target, handleOnNode, d) && IsNearest(p, crowFly, target, handleOnNode, d')
    ensures d == d'
  {
    var s, t :| IsDistance(p, target.source, s) && IsDistance(p, target.target, t) && d == OverEnds(crowFly, target, handleOnNode, s, t);
    var s', t' :| IsDistance(p, target.source, s') && IsDistance(p, target.target, t') && d' == OverEnds(crowFly, target, handleOnNode, s', t');
    DistanceIsUnique(p, target.source, s, s');
    DistanceIsUnique(p, target.target, t, t');
  }

  /**
   After searches exact up to the radius: a finite answer is within the radius exactly when the true
   duration is and the source end has an entry at all, and it is then the true duration.
   */
  lemma NearestIsExact(p: Problem, a: Arrays, crowFly: real -> nat, target: Projection, handleOnNode: bool, radius: Duration, least: Duration)
    requires Proper(p) && Tree(p, a) && ExactUpTo(p, a, radius)
    requires target.found && target.source < Size(p) && target.target < Size(p)
    requires IsNearest(p, crowFly, target, handleOnNode, least)
    ensures var answer := FindNearestVertex(a.dist, crowFly, target, handleOnNode).0;
            && (Within(answer, radius) <==> Within(least, radius) && a.dist[target.source] != Infinite)
            && (Within(answer, radius) ==> answer == least)
  {
    var s, t :| IsDistance(p, target.source, s) && IsDistance(p, target.target, t) && least == OverEnds(crowFly, target, handleOnNode, s, t);
    ExactUpToMeans(p, a, radius, target.source, s);
    ExactUpToMeans(p, a, radius, target.target, t);
    EndsAgree(crowFly, target, handleOnNode, radius, a.dist[target.source], a.dist[target.target], s, t);
    AnswerIsOverEnds(a.dist, crowFly, target, handleOnNode);
  }

  lemma AnswerIsOverEnds(dist: seq<Duration>, crowFly: real -> nat, target: Projection, handleOnNode: bool)
    requires target.found && target.source < |dist| && target.target < |dist|
    ensures FindNearestVertex(dist, crowFly, target, handleOnNode).0 ==
            if dist[target.source] == Infinite then Infinite
            else OverEnds(crowFly, target, handleOnNode, dist[target.source], dist[target.target])
  {
  }

  /** Entries that agree with the true durations up to the radius give answers that do. */
  lemma EndsAgree(crowFly: real -> nat, target: Projection, handleOnNode: bool, radius: Duration,
                  source: Duration, end: Duration, s: Duration, t: Duration)
    requires (AtMost(source, radius) <==> AtMost(s, radius)) && (AtMost(s, radius) ==> source == s)
    requires (AtMost(end, radius) <==> AtMost(t, radius)) && (AtMost(t, radius) ==> end == t)
    ensures var answer := if source == Infinite then Infinite else OverEnds(crowFly, target, handleOnNode, source, end);
            var least := OverEnds(crowFly, target, handleOnNode, s, t);
            && (Within(answer, radius) <==> Within(least, radius) && source != Infinite)
            && (Within(answer, radius) ==> answer == least)
  {
  }

  predicate Within(d: Duration, radius: Duration) {
    d.Finite? && AtMost(d, radius)
  }

  // ---------- an answer without a search ----------

  /** A shortcut that has still to be relaxed leads to one of the two ends, and with it to the target before `answer`. */
  ghost predicate Undercut(p: Problem, a: Arrays, crowFly: real -> nat, target: Projection, answer: Duration)
    requires Proper(p) && Sized(p, a)
  {
    exists e, onward :: Shortcut(p, a, e, onward) && Beats(p, a, crowFly, target, answer, e, onward)
  }

  ghost predicate Beats(p: Problem, a: Arrays, crowFly: real -> nat, target: Projection, answer: Duration, e: Edge, onward: Walk)
    requires Proper(p) && Sized(p, a) && Shortcut(p, a, e, onward)
  {
    var d := Length(Beyond(p, a, e), onward);
    || (End(onward) == target.source && Less(Finite(d + crowFly(target.toSource)), answer))
    || (End(onward) == target.target && Less(Finite(d + crowFly(target.toTarget)), answer))
  }

  /**
   When both ends have entries already, whatever searches have left them, the answer read off them
   is the true duration exactly when no shortcut undercuts it.
   */
  lemma SkippedIsExact(p: Problem, a: Arrays, crowFly: real -> nat, target: Projection)
    requires Proper(p) && Tree(p, a) && target.found && target.source < Size(p) && target.target < Size(p)
    requires a.dist[target.source].Finite? && a.dist[target.target].Finite?
    ensures var answer := FindNearestVertex(a.dist, crowFly, target, false).0;
            IsNearest(p, crowFly, target, false, answer) <==> !Undercut(p, a, crowFly, target, answer)
  {
    var answer := FindNearestVertex(a.dist, crowFly, target, false).0;
    if Undercut(p, a, crowFly, target, answer) {
      var e, onward :| Shortcut(p, a, e, onward) && Beats(p, a, crowFly, target, answer, e, onward);
      var w := ShortcutIsWalk(p, a, e, onward);
      WalkBeats(p, crowFly, target, answer, w);
    } else {
      NotUndercut(p, a, crowFly, target);
    }
  }

  lemma NotUndercut(p: Problem, a: Arrays, crowFly: real -> nat, target: Projection)
    requires Proper(p) && Tree(p, a) && target.found && target.source < Size(p) && target.target < Size(p)
    requires a.dist[target.source].Finite? && a.dist[target.target].Finite?
    requires !Undercut(p, a, crowFly, target, FindNearestVertex(a.dist, crowFly, target, false).0)
    ensures IsNearest(p, crowFly, target, false, FindNearestVertex(a.dist, crowFly, target, false).0)
  {
    AnswerIsOverEnds(a.dist, crowFly, target, false);
    var answer := OverEnds(crowFly, target, false, a.dist[target.source], a.dist[target.target]);
    var s := DistanceExists(p, target.source);
    var t := DistanceExists(p, target.target);
    EndIsNotUndercut(p, a, crowFly, target, answer, target.source, crowFly(target.toSource), s);
    EndIsNotUndercut(p, a, crowFly, target, answer, target.target, crowFly(target.toTarget), t);
    assert answer == OverEnds(crowFly, target, false, s, t);
  }

  lemma WalkBeats(p: Problem, crowFly: real -> nat, target: Projection, answer: Duration, w: Walk)
    requires Proper(p) && IsWalk(p, w)
    requires || (End(w) == target.source && Less(Finite(Length(p, w) + crowFly(target.toSource)), answer))
             || (End(w) == target.target && Less(Finite(Length(p, w) + crowFly(target.toTarget)), answer))
    ensures !IsNearest(p, crowFly, target, false, answer)
  {
    forall s, t | IsDistance(p, target.source, s) && IsDistance(p, target.target, t)
      ensures OverEnds(crowFly, target, false, s, t) != answer
    {
    }
  }

  lemma EndIsNotUndercut(p: Problem, a: Arrays, crowFly: real -> nat, target: Projection, answer: Duration, end: Vertex, far: nat, d: Duration)
    requires Proper(p) && Tree(p, a) && !Undercut(p, a, crowFly, target, answer)
    requires end < Size(p) && a.dist[end].Finite? && AtMost(answer, Plus(a.dist[end], far)) && IsDistance(p, end, d)
    requires (end == target.source && far == crowFly(target.toSource)) || (end == target.target && far == crowFly(target.toTarget))
    ensures AtMost(answer, Plus(d, far)) && AtMost(d, a.dist[end])
  {
    var r := Realised(p, a, end);
    var w :| IsWalk(p, w) && End(w) == end && Length(p, w) == d.seconds;
    if Less(Finite(Length(p, w)), a.dist[end]) {
      var e, onward := ShortcutExists(p, a, w);
      assert !Beats(p, a, crowFly, target, answer, e, onward);
    }
  }
}
