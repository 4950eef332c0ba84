/** Erasing vehicle journeys that never run or are badly formed, with all that refers to them. */
module Cleaning {
  import opened Basics
  import opened Blocks
  import opened Erasing

  /** An entry of the list of all stop times. */
  datatype ListedStop = ListedStop(vehicleJourney: VehicleJourney, rank: nat)

  type MetaJourneys = map<string, seq<VehicleJourney>>

  predicate HasNegativeTime(v: VehicleJourney) {
    exists k :: 0 <= k < |v.stopTimes| && IsNegative(v.stopTimes[k])
  }

  predicate IsNegative(s: StopTime) {
    s.departure < 0 || s.arrival < 0 || s.boarding < 0 || s.alighting < 0
  }

  predicate Condemned(v: VehicleJourney, badlyFormed: set<VehicleJourney>) {
    v in badlyFormed || v.stopTimes == [] || (v.days == {} && v.adaptedDays == {}) || HasNegativeTime(v)
  }

  /** Not badly formed, with stops, active on some day of one of its patterns, and all its times from midnight on. */
  ghost predicate RunsWell(v: VehicleJourney, badlyFormed: set<VehicleJourney>) {
    && v !in badlyFormed && |v.stopTimes| > 0
    && (exists d :: d in v.days || d in v.adaptedDays)
    && forall k :: 0 <= k < |v.stopTimes| ==>
         0 <= v.stopTimes[k].arrival && 0 <= v.stopTimes[k].departure && 0 <= v.stopTimes[k].boarding && 0 <= v.stopTimes[k].alighting
  }

  lemma CondemnedMeans(v: VehicleJourney, badlyFormed: set<VehicleJourney>)
    ensures Condemned(v, badlyFormed) <==> !RunsWell(v, badlyFormed)
  {
    if forall d :: d !in v.days {
      assert v.days == {};
    }
    if forall d :: d !in v.adaptedDays {
      assert v.adaptedDays == {};
    }
    forall k | 0 <= k < |v.stopTimes|
      ensures IsNegative(v.stopTimes[k]) <==> !(0 <= v.stopTimes[k].arrival && 0 <= v.stopTimes[k].departure
                                                && 0 <= v.stopTimes[k].boarding && 0 <= v.stopTimes[k].alighting)
    {
    }
  }

  /** One journey condemned takes along all that share its uri. */
  function Dead(journeys: seq<VehicleJourney>, uris: set<string>): set<VehicleJourney> {
    set v | v in journeys && v.uri in uris
  }

  function DeadStops(stops: seq<ListedStop>, uris: set<string>): set<ListedStop> {
    set s | s in stops && s.vehicleJourney.uri in uris
  }

  function CondemnedUris(journeys: seq<VehicleJourney>, badlyFormed: set<VehicleJourney>): set<string> {
    set v | v in journeys && Condemned(v, badlyFormed) :: v.uri
  }

  /** A link that does not lead to an erased journey. */
  function KeptLink(link: VehicleJourney?, gone: set<VehicleJourney>): VehicleJourney? {
    if link != null && link in gone then null else link
  }

  // ---------- meta journeys ----------

  /** `list` without the first occurrence of `v`. */
  function Drop(list: seq<VehicleJourney>, v: VehicleJourney): seq<VehicleJourney> {
    if list == [] then [] else if list[0] == v then list[1..] else [list[0]] + Drop(list[1..], v)
  }

  ghost predicate MetaValid(metas: MetaJourneys) {
    forall n :: n in metas ==> metas[n] != [] && Distinct(metas[n]) && forall v :: v in metas[n] ==> v.metaName == n
  }

  predicate IsListed(metas: MetaJourneys, v: VehicleJourney) {
    v.metaName in metas && v in metas[v.metaName]
  }

  /** The meta journeys without what is gone; those that would be left empty are gone too. */
  function Remaining(metas: MetaJourneys, gone: set<VehicleJourney>): MetaJourneys {
    map n | n in metas && Survivors(metas[n], gone) != [] :: Survivors(metas[n], gone)
  }

  lemma {:induction false} DropIsSurvivors(list: seq<VehicleJourney>, gone: set<VehicleJourney>, v: VehicleJourney)
    requires Distinct(list)
    ensures Drop(Survivors(list, gone), v) == Survivors(list, gone + {v})
  {
    if list != [] {
      DropIsSurvivors(list[1..], gone, v);
      if list[0] == v {
        SurvivorsSame(list[1..], gone, v);
      }
    }
  }

  lemma {:induction false} SurvivorsSame(list: seq<VehicleJourney>, gone: set<VehicleJourney>, v: VehicleJourney)
    requires v !in list
    ensures Survivors(list, gone + {v}) == Survivors(list, gone)
  {
    if list != [] {
      SurvivorsSame(list[1..], gone, v);
    }
  }

  /** The meta journeys after erasing one more journey. */
  function WithoutOne(metas: MetaJourneys, v: VehicleJourney): MetaJourneys
    requires v.metaName in metas
  {
    var list := Drop(metas[v.metaName], v);
    if list == [] then metas - {v.metaName} else metas[v.metaName := list]
  }

  lemma RemainingNext(metas: MetaJourneys, gone: set<VehicleJourney>, v: VehicleJourney)
    requires MetaValid(metas) && v !in gone
    ensures IsListed(Remaining(metas, gone), v) <==> IsListed(metas, v)
    ensures IsListed(metas, v) ==> WithoutOne(Remaining(metas, gone), v) == Remaining(metas, gone + {v})
  {
    if v.metaName in metas {
      SurvivorsCount(metas[v.metaName], gone, v);
    }
    if IsListed(metas, v) {
      DropIsSurvivors(metas[v.metaName], gone, v);
      forall n | n in metas && n != v.metaName
        ensures Survivors(metas[n], gone + {v}) == Survivors(metas[n], gone)
      {
        SurvivorsSame(metas[n], gone, v);
      }
      OneListChanges(metas, gone, v);
    }
  }

  lemma OneListChanges(metas: MetaJourneys, gone: set<VehicleJourney>, v: VehicleJourney)
    requires v.metaName in Remaining(metas, gone)
    requires Drop(Survivors(metas[v.metaName], gone), v) == Survivors(metas[v.metaName], gone + {v})
    requires forall n :: n in metas && n != v.metaName ==> Survivors(metas[n], gone + {v}) == Survivors(metas[n], gone)
    ensures WithoutOne(Remaining(metas, gone), v) == Remaining(metas, gone + {v})
  {
    var now, next := WithoutOne(Remaining(metas, gone), v), Remaining(metas, gone + {v});
    forall n: string
      ensures n in now <==> n in next
      ensures n in now ==> now[n] == next[n]
    {
      if n in metas {
        assert n in next <==> Survivors(metas[n], gone + {v}) != [];
      }
    }
  }

  lemma {:induction false} NothingGone(metas: MetaJourneys)
    requires MetaValid(metas)
    ensures Remaining(metas, {}) == metas
  {
    forall n | n in metas
      ensures Survivors(metas[n], {}) == metas[n]
    {
      SurvivorsOfNothingMarked(metas[n], {});
    }
  }

  /**
   If the meta journeys list exactly the journeys by name, what remains lists exactly the survivors
   by name, and nothing is left empty.
   */
  lemma RemainingAreSurvivors(metas: MetaJourneys, journeys: seq<VehicleJourney>, dead: set<VehicleJourney>)
    requires MetaValid(metas)
    requires forall v :: v in journeys <==> IsListed(metas, v)
    ensures MetaValid(Remaining(metas, dead))
    ensures forall v :: v in Survivors(journeys, dead) <==> IsListed(Remaining(metas, dead), v)
  {
    var rest := Remaining(metas, dead);
    forall v: VehicleJourney
      ensures v in Survivors(journeys, dead) <==> IsListed(rest, v)
    {
      SurvivorsCount(journeys, dead, v);
      if v.metaName in metas {
        SurvivorsCount(metas[v.metaName], dead, v);
      }
    }
    forall n: string | n in rest
      ensures rest[n] != [] && Distinct(rest[n]) && forall v: VehicleJourney :: v in rest[n] ==> v.metaName == n
    {
      SurvivorsDistinct(metas[n], dead);
      forall v: VehicleJourney | v in rest[n]
        ensures v.metaName == n
      {
        SurvivorsCount(metas[n], dead, v);
      }
    }
  }

  lemma {:induction false} SurvivorsDistinct(list: seq<VehicleJourney>, dead: set<VehicleJourney>)
    requires Distinct(list)
    ensures Distinct(Survivors(list, dead))
  {
    if list != [] {
      SurvivorsDistinct(list[1..], dead);
      SurvivorsCount(list[1..], dead, list[0]);
    }
  }

  predicate AllListed(metas: MetaJourneys, journeys: set<VehicleJourney>) {
    forall v :: v in journeys ==> IsListed(metas, v)
  }

  /** What has been erased when all from `lo` on was dealt with. */
  function DeadBehind(journeys: seq<VehicleJourney>, dead: set<VehicleJourney>, lo: nat): set<VehicleJourney>
    requires lo <= |journeys|
  {
    set v | v in journeys[lo..] && v in dead
  }

  lemma OneMoreDead(journeys: seq<VehicleJourney>, dead: set<VehicleJourney>, lo: nat, e: nat)
    requires e < lo <= |journeys| && Distinct(journeys) && journeys[e] in dead
    requires forall k :: e < k < lo ==> journeys[k] !in dead
    ensures journeys[e] !in DeadBehind(journeys, dead, lo)
    ensures DeadBehind(journeys, dead, e) == DeadBehind(journeys, dead, lo) + {journeys[e]}
  {
    forall v: VehicleJourney
      ensures v in DeadBehind(journeys, dead, e) <==> v in DeadBehind(journeys, dead, lo) || v == journeys[e]
    {
      if v in DeadBehind(journeys, dead, e) {
        var k :| e <= k < |journeys| && journeys[k] == v;
        if k >= lo {
          assert v == journeys[lo..][k - lo];
        }
      }
      if v in DeadBehind(journeys, dead, lo) {
        var k :| lo <= k < |journeys| && journeys[k] == v;
        assert v == journeys[e..][k - e];
      }
      assert journeys[e] == journeys[e..][0];
    }
  }

  // ---------- links ----------

  /** The next and the previous journey of each. */
  type Links = map<VehicleJourney, (VehicleJourney?, VehicleJourney?)>

  /** Links lead to each other and nowhere else. */
  ghost predicate TwoWay(links: Links) {
    forall v {:trigger links[v]} :: v in links ==>
      && (links[v].0 != null ==> links[v].0 in links && links[links[v].0].1 == v)
      && (links[v].1 != null ==> links[v].1 in links && links[links[v].1].0 == v)
  }

  /** What is not gone has kept its links, apart from those to what is gone. */
  ghost predicate LinksKept(links: Links, gone: set<VehicleJourney>)
    reads links.Keys
  {
    forall v {:trigger links[v]} :: v in links && v !in gone ==>
      v.nextVj == KeptLink(links[v].0, gone) && v.prevVj == KeptLink(links[v].1, gone)
  }

  // ---------- the data set ----------

  lemma {:induction false} DropAt(list: seq<VehicleJourney>, v: VehicleJourney, i: nat)
    requires i < |list| && list[i] == v && v !in list[..i]
    ensures Drop(list, v) == list[..i] + list[i + 1..]
  {
    if i > 0 {
      assert list[0] in list[..i];
      assert list[1..][..i - 1] == list[..i][1..];
      DropAt(list[1..], v, i - 1);
    }
  }

  method IndexIn(list: seq<VehicleJourney>, v: VehicleJourney) returns (i: nat)
    ensures i <= |list| && v !in list[..i]
    ensures i < |list| ==> list[i] == v
  {
    i := 0;
    while i < |list| && list[i] != v
      invariant i <= |list| && v !in list[..i]
    {
      i := i + 1;
    }
  }

  class Data {
    var vehicleJourneys: seq<VehicleJourney>
    var stops: seq<ListedStop>
    var metaVjMap: MetaJourneys
    const vjToErase: set<VehicleJourney>

    constructor (journeys: seq<VehicleJourney>, stops: seq<ListedStop>, metas: MetaJourneys, badlyFormed: set<VehicleJourney>)
      ensures vehicleJourneys == journeys && this.stops == stops && metaVjMap == metas && vjToErase == badlyFormed
    {
      vehicleJourneys, this.stops, metaVjMap, vjToErase := journeys, stops, metas, badlyFormed;
    }

    method ToErase() returns (uris: set<string>)
      ensures uris == CondemnedUris(vehicleJourneys, vjToErase)
    {
      uris := {};
      for i := 0 to |vehicleJourneys|
        invariant uris == CondemnedUris(vehicleJourneys[..i], vjToErase)
      {
        assert vehicleJourneys[..i + 1] == vehicleJourneys[..i] + [vehicleJourneys[i]];
        if Condemned(vehicleJourneys[i], vjToErase) {
          uris := uris + {vehicleJourneys[i].uri};
        }
      }
      assert vehicleJourneys[..|vehicleJourneys|] == vehicleJourneys;
    }

    method MarkedStops(uris: set<string>) returns (erase: seq<nat>)
      ensures erase == Marked(stops, DeadStops(stops, uris), |stops|)
    {
      ghost var dead := DeadStops(stops, uris);
      erase := [];
      var i: nat := |stops|;
      while i > 0
        invariant i <= |stops| && erase + Marked(stops, dead, i) == Marked(stops, dead, |stops|)
      {
        i := i - 1;
        if stops[i].vehicleJourney.uri in uris {
          erase := erase + [i];
        }
      }
    }

    method MarkedJourneys(uris: set<string>) returns (erase: seq<nat>)
      ensures erase == Marked(vehicleJourneys, Dead(vehicleJourneys, uris), |vehicleJourneys|)
    {
      ghost var dead := Dead(vehicleJourneys, uris);
      erase := [];
      var i: nat := |vehicleJourneys|;
      while i > 0
        invariant i <= |vehicleJourneys| && erase + Marked(vehicleJourneys, dead, i) == Marked(vehicleJourneys, dead, |vehicleJourneys|)
      {
        i := i - 1;
        if vehicleJourneys[i].uri in uris {
          erase := erase + [i];
        }
      }
    }

    method EraseStops(uris: set<string>)
      modifies this`stops
      ensures multiset(stops) == multiset(Survivors(old(stops), DeadStops(old(stops), uris)))
    {
      var erase := MarkedStops(uris);
      EraseStopsAt(erase, DeadStops(stops, uris));
    }

    method EraseStopsAt(erase: seq<nat>, ghost dead: set<ListedStop>)
      requires erase == Marked(stops, dead, |stops|)
      modifies this`stops
      ensures multiset(stops) == multiset(Survivors(old(stops), dead))
    {
      ghost var was, now, left: nat, lo: nat := stops, stops, |stops|, |stops|;
      var num: nat, todo := |stops|, erase;
      EraseStart(was, dead);
      while todo != []
        invariant lo <= |was| && todo == Marked(was, dead, lo)
        invariant stops == now && num == left && Erased(was, dead, now, left, lo)
        decreases |todo|
      {
        now, left, lo := EraseRound(was, dead, now, left, lo);
        stops := Overwrite(stops, num, todo[0]);
        num, todo := num - 1, todo[1..];
      }
      EraseEnd(was, dead, now, left, lo);
      stops := stops[..num];
    }

    /** Neighbours no longer lead to a journey that is about to be erased. */
    method Unlink(v: VehicleJourney)
      modifies (if v.nextVj == null then {} else {v.nextVj})`prevVj, (if v.prevVj == null then {} else {v.prevVj})`nextVj
      ensures old(v.nextVj) != null ==> old(v.nextVj).prevVj == null
      ensures old(v.prevVj) != null && old(v.nextVj) != v ==> old(v.prevVj).nextVj == null
    {
      if v.nextVj != null {
        v.nextVj.prevVj := null;
      }
      if v.prevVj != null {
        v.prevVj.nextVj := null;
      }
    }

    /** False stands for the exception "impossible to find the vj in the meta vj". */
    method RemoveFromMeta(v: VehicleJourney) returns (found: bool)
      modifies this`metaVjMap
      ensures found <==> IsListed(old(metaVjMap), v)
      ensures found ==> metaVjMap == WithoutOne(old(metaVjMap), v)
    {
      if v.metaName !in metaVjMap {
        metaVjMap := metaVjMap[v.metaName := []];
      }
      var list := metaVjMap[v.metaName];
      var i := IndexIn(list, v);
      if i == |list| {
        return false;
      }
      DropAt(list, v, i);
      list := list[..i] + list[i + 1..];
      metaVjMap := if list == [] then metaVjMap - {v.metaName} else metaVjMap[v.metaName := list];
      found := true;
    }

    /** Erases one more journey and everything that refers to it. */
    method EraseJourney(v: VehicleJourney, ghost links: Links, ghost metas: MetaJourneys, ghost gone: set<VehicleJourney>)
      returns (found: bool)
      requires TwoWay(links) && LinksKept(links, gone) && v in links && v !in gone
      requires MetaValid(metas) && metaVjMap == Remaining(metas, gone)
      modifies this`metaVjMap, links.Keys
      ensures found <==> IsListed(metas, v)
      ensures found ==> metaVjMap == Remaining(metas, gone + {v})
      ensures LinksKept(links, gone + {v})
    {
      RemainingNext(metas, gone, v);
      Unlink(v);
      found := RemoveFromMeta(v);
    }

    /**
     Overwrites the marked journeys, from the back; `num` journeys are left. False stands for the
     exception of `RemoveFromMeta`, at the first of them that its meta journey does not list.
     */
    method OverwriteJourneys(erase: seq<nat>, ghost dead: set<VehicleJourney>, ghost links: Links)
      returns (ok: bool, num: nat, ghost gone: set<VehicleJourney>)
      requires erase == Marked(vehicleJourneys, dead, |vehicleJourneys|)
      requires Distinct(vehicleJourneys) && MetaValid(metaVjMap)
      requires links.Keys == (set v | v in vehicleJourneys) && TwoWay(links) && LinksKept(links, {})
      modifies this`vehicleJourneys, this`metaVjMap, links.Keys
      ensures gone <= dead && AllListed(old(metaVjMap), gone)
      ensures if ok then gone == DeadBehind(old(vehicleJourneys), dead, 0) else !AllListed(old(metaVjMap), dead)
      ensures ok ==> num <= |vehicleJourneys| && multiset(vehicleJourneys[..num]) == multiset(Survivors(old(vehicleJourneys), dead))
      ensures LinksKept(links, gone) || !ok
      ensures ok ==> metaVjMap == Remaining(old(metaVjMap), gone)
    {
      ghost var was, lo: nat := vehicleJourneys, |vehicleJourneys|;
      var todo := erase;
      gone, num := {}, |vehicleJourneys|;
      EraseStart(was, dead);
      NothingGone(metaVjMap);
      ghost var now, left: nat, metas := was, |was|, metaVjMap;
      while todo != []
        invariant lo <= |was| && todo == Marked(was, dead, lo)
        invariant vehicleJourneys == now && num == left && Erased(was, dead, now, left, lo)
        invariant gone == DeadBehind(was, dead, lo) && AllListed(metas, gone)
        invariant LinksKept(links, gone)
        invariant metaVjMap == Remaining(metas, gone)
        decreases |todo|
      {
        ghost var at := lo;
        now, left, lo := EraseRound(was, dead, now, left, at);
        OneMoreDead(was, dead, at, lo);
        var v := vehicleJourneys[todo[0]];
        ok := EraseJourney(v, links, metas, gone);
        if !ok {
          return;
        }
        gone := gone + {v};
        vehicleJourneys := Overwrite(vehicleJourneys, num, todo[0]);
        num, todo := num - 1, todo[1..];
      }
      AllGone(was, dead, lo);
      EraseEnd(was, dead, now, num, lo);
      ok := true;
    }

    ghost predicate Valid()
      reads this, vehicleJourneys
    {
      Distinct(vehicleJourneys) && MetaValid(metaVjMap) && Symmetric(vehicleJourneys)
    }

    ghost function LinksNow(): (links: Links)
      reads this, vehicleJourneys
      ensures links.Keys == set v | v in vehicleJourneys
    {
      map v | v in vehicleJourneys :: (v.nextVj, v.prevVj)
    }

    lemma LinksStart()
      requires Symmetric(vehicleJourneys)
      ensures TwoWay(LinksNow()) && LinksKept(LinksNow(), {})
    {
    }

    method EraseJourneys(uris: set<string>) returns (ok: bool)
      requires Valid()
      modifies this`vehicleJourneys, this`metaVjMap, set v | v in vehicleJourneys
      ensures ok <==> AllListed(old(metaVjMap), Dead(old(vehicleJourneys), uris))
      ensures ok ==> multiset(vehicleJourneys) == multiset(Survivors(old(vehicleJourneys), Dead(old(vehicleJourneys), uris)))
      ensures ok ==> metaVjMap == Remaining(old(metaVjMap), Dead(old(vehicleJourneys), uris))
      ensures ok ==> LinksKept(old(LinksNow()), Dead(old(vehicleJourneys), uris))
    {
      var erase := MarkedJourneys(uris);
      ghost var dead, links := Dead(vehicleJourneys, uris), LinksNow();
      var num;
      ghost var gone;
      LinksStart();
      AllDead(vehicleJourneys, uris);
      ok, num, gone := OverwriteJourneys(erase, dead, links);
      if ok {
        vehicleJourneys := vehicleJourneys[..num];
      }
    }

    /**
     Erases the condemned journeys with their stop times. False stands for the exception about a
     journey that its meta journey does not list.
     */
    method Clean() returns (ok: bool, ghost dead: set<VehicleJourney>)
      requires Valid()
      modifies this`vehicleJourneys, this`stops, this`metaVjMap, set v | v in vehicleJourneys
      ensures forall v :: v in dead <==>
                v in old(vehicleJourneys) && exists w :: w in old(vehicleJourneys) && w.uri == v.uri && !RunsWell(w, vjToErase)
      ensures ok <==> AllListed(old(metaVjMap), dead)
      ensures exists gone: set<ListedStop> :: multiset(stops) == multiset(Survivors(old(stops), gone)) && forall s ::
                s in gone <==> s in old(stops) && exists w :: w in old(vehicleJourneys) && w.uri == s.vehicleJourney.uri && !RunsWell(w, vjToErase)
      ensures ok ==> multiset(vehicleJourneys) == multiset(Survivors(old(vehicleJourneys), dead))
      ensures ok ==> metaVjMap == Remaining(old(metaVjMap), dead)
      ensures ok ==> LinksKept(old(LinksNow()), dead) && Symmetric(vehicleJourneys)
    {
      var uris := ToErase();
      dead := Dead(vehicleJourneys, uris);
      ghost var links, was := LinksNow(), vehicleJourneys;
      forall v: VehicleJourney
        ensures Condemned(v, vjToErase) <==> !RunsWell(v, vjToErase)
      {
        CondemnedMeans(v, vjToErase);
      }
      EraseStops(uris);
      ok := EraseJourneys(uris);
      if ok {
        SurvivorsStaySymmetric(was, vehicleJourneys, links, dead);
      }
    }
  }

  lemma SurvivorsStaySymmetric(was: seq<VehicleJourney>, journeys: seq<VehicleJourney>, links: Links, dead: set<VehicleJourney>)
    requires links.Keys == (set v | v in was) && TwoWay(links) && LinksKept(links, dead)
    requires multiset(journeys) == multiset(Survivors(was, dead))
    ensures Symmetric(journeys)
  {
    forall v: VehicleJourney
      ensures v in journeys <==> v in links && v !in dead
    {
      SurvivorsCount(was, dead, v);
      assert v in multiset(journeys) <==> v in multiset(Survivors(was, dead));
    }
    forall v | v in journeys
      ensures v.nextVj != null ==> v.nextVj in journeys && v.nextVj.prevVj == v
      ensures v.prevVj != null ==> v.prevVj in journeys && v.prevVj.nextVj == v
    {
      var ends := links[v];
      if v.nextVj != null {
        assert links[ends.0].1 == v;
      }
      if v.prevVj != null {
        assert links[ends.1].0 == v;
      }
    }
  }

  lemma AllDead(was: seq<VehicleJourney>, uris: set<string>)
    ensures DeadBehind(was, Dead(was, uris), 0) == Dead(was, uris)
  {
    assert was[0..] == was;
  }

  lemma AllGone(was: seq<VehicleJourney>, dead: set<VehicleJourney>, lo: nat)
    requires lo <= |was| && Marked(was, dead, lo) == []
    ensures DeadBehind(was, dead, 0) == DeadBehind(was, dead, lo)
  {
    NoneMarked(was, dead, lo);
    forall v: VehicleJourney
      ensures v in DeadBehind(was, dead, 0) <==> v in DeadBehind(was, dead, lo)
    {
      if v in DeadBehind(was, dead, 0) {
        var k :| 0 <= k < |was| && was[k] == v;
        assert k >= lo;
        assert v == was[lo..][k - lo];
      }
    }
  }
}
