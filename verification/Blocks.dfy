/**
 Vehicle journeys that share a block: passengers stay in from one to the next. Sorting brings them
 together, linking joins neighbours.
 */
module Blocks {
  import opened Basics
  import opened Words

  datatype StopTime = StopTime(stopPoint: string, arrival: int, departure: int, boarding: int, alighting: int)

  class VehicleJourney {
    const uri: string
    const blockId: string
    const metaName: string
    /** The UTC offset of the days it runs on. */
    const offset: int
    const stopTimes: seq<StopTime>
    const days: set<int>
    const adaptedDays: set<int>
    var prevVj: VehicleJourney?
    var nextVj: VehicleJourney?

    constructor (uri: string, blockId: string, metaName: string, offset: int, stopTimes: seq<StopTime>,
                 days: set<int>, adaptedDays: set<int>)
      ensures this.uri == uri && this.blockId == blockId && this.metaName == metaName && this.offset == offset
      ensures this.stopTimes == stopTimes && this.days == days && this.adaptedDays == adaptedDays
      ensures prevVj == null && nextVj == null
    {
      this.uri, this.blockId, this.metaName, this.offset := uri, blockId, metaName, offset;
      this.stopTimes, this.days, this.adaptedDays := stopTimes, days, adaptedDays;
      prevVj, nextVj := null, null;
    }
  }

  // ---------- the order within and between blocks ----------

  function FirstDeparture(v: VehicleJourney): int
    requires v.stopTimes != []
  {
    v.stopTimes[0].departure
  }

  function Last(v: VehicleJourney): StopTime
    requires v.stopTimes != []
  {
    v.stopTimes[|v.stopTimes| - 1]
  }

  /** The comparison given to the sort. */
  predicate Less(v: VehicleJourney, w: VehicleJourney) {
    if v.blockId != w.blockId then Before(v.blockId, w.blockId)
    else if v.offset != w.offset then v.offset < w.offset
    else if v.stopTimes == [] || w.stopTimes == [] then |v.stopTimes| < |w.stopTimes|
    else FirstDeparture(v) < FirstDeparture(w)
  }

  /** What a sort makes of `journeys`: some order in which nothing comes after anything greater. */
  ghost predicate IsSortOf(order: seq<VehicleJourney>, journeys: seq<VehicleJourney>) {
    && multiset(order) == multiset(journeys)
    && forall i, j :: 0 <= i < j < |order| ==> !Less(order[j], order[i])
  }

  /** Less is a strict weak order, as a sort needs: what is not less either way is equivalent. */
  lemma LessIsWeakOrder(u: VehicleJourney, v: VehicleJourney, w: VehicleJourney)
    ensures !Less(v, v)
    ensures Less(u, v) && Less(v, w) ==> Less(u, w)
    ensures !Less(u, v) && !Less(v, w) ==> !Less(u, w)
  {
    BeforeIsIrreflexive(u.blockId);
    BeforeIsTotal(u.blockId, v.blockId);
    BeforeIsTotal(v.blockId, w.blockId);
    BeforeIsTotal(u.blockId, w.blockId);
    Trichotomy(u.blockId, v.blockId, w.blockId);
  }

  lemma Trichotomy(a: string, b: string, c: string)
    ensures !(Before(a, b) && Before(b, a)) && !(Before(b, c) && Before(c, b)) && !(Before(a, c) && Before(c, a))
    ensures Before(a, b) && Before(b, c) ==> Before(a, c)
    ensures Before(c, b) && Before(b, a) ==> Before(c, a)
  {
    forall x, y | x in {a, b, c} && y in {a, b, c} && Before(x, y)
      ensures !Before(y, x)
    {
      BeforeIsIrreflexive(x);
      if Before(y, x) {
        BeforeIsTransitive(x, y, x);
      }
    }
    if Before(a, b) && Before(b, c) { BeforeIsTransitive(a, b, c); }
    if Before(c, b) && Before(b, a) { BeforeIsTransitive(c, b, a); }
  }

  // ---------- joining neighbours ----------

  /** Both run, in the same block, and `w` leaves no earlier than `v` arrives. */
  predicate Meets(v: VehicleJourney, w: VehicleJourney) {
    && v.blockId != "" && v.blockId == w.blockId
    && v.stopTimes != [] && w.stopTimes != []
    && FirstDeparture(w) >= Last(v).arrival
  }

  /** They meet on different stop points while `v` has not left. */
  predicate Clashes(v: VehicleJourney, w: VehicleJourney) {
    && Meets(v, w)
    && w.stopTimes[0].stopPoint != Last(v).stopPoint
    && Last(v).departure > w.stopTimes[0].arrival
  }

  predicate Joins(v: VehicleJourney, w: VehicleJourney) {
    Meets(v, w) && !Clashes(v, w) && v.offset == w.offset
  }

  /** A clash anywhere ends the linking, for this block and for all blocks behind it. */
  ghost predicate Calm(order: seq<VehicleJourney>, n: int) {
    forall i, j :: 0 <= i && j == i + 1 && j < n && j < |order| ==> !Clashes(order[i], order[j])
  }

  /** Whether the journeys at `i` and just behind it end up linked. */
  ghost predicate Joined(order: seq<VehicleJourney>, i: int) {
    0 <= i < |order| - 1 && Joins(order[i], order[i + 1]) && Calm(order, i + 1)
  }

  /** Where the sort puts journeys: by block, then by offset, those without stops first, then by departure. */
  lemma SortedMeans(order: seq<VehicleJourney>, journeys: seq<VehicleJourney>, i: nat, j: nat)
    requires IsSortOf(order, journeys) && i < j < |order|
    ensures var v, w := order[i], order[j];
            && (v.blockId == w.blockId || Before(v.blockId, w.blockId))
            && (v.blockId == w.blockId ==> v.offset <= w.offset)
            && (v.blockId == w.blockId && v.offset == w.offset && v.stopTimes != [] ==>
                  w.stopTimes != [] && v.stopTimes[0].departure <= w.stopTimes[0].departure)
  {
    assert !Less(order[j], order[i]);
    BeforeIsTotal(order[i].blockId, order[j].blockId);
  }

  /** One block, both with stops, and the second leaves at the earliest when the first arrives. */
  ghost predicate Follows(v: VehicleJourney, w: VehicleJourney) {
    && |v.blockId| > 0 && w.blockId == v.blockId && |v.stopTimes| > 0 && |w.stopTimes| > 0
    && v.stopTimes[|v.stopTimes| - 1].arrival <= w.stopTimes[0].departure
  }

  /** Passengers would have to change stop points before the first has left. */
  ghost predicate Overlaps(v: VehicleJourney, w: VehicleJourney) {
    && Follows(v, w)
    && v.stopTimes[|v.stopTimes| - 1].stopPoint != w.stopTimes[0].stopPoint
    && w.stopTimes[0].arrival < v.stopTimes[|v.stopTimes| - 1].departure
  }

  /** Neighbours are joined exactly when one follows the other on the same offset and nothing overlaps up to there. */
  lemma JoinedMeans(order: seq<VehicleJourney>, i: nat)
    requires i + 1 < |order|
    ensures Joined(order, i) <==>
            && Follows(order[i], order[i + 1]) && order[i].offset == order[i + 1].offset
            && forall k, m {:trigger order[k], order[m]} :: 0 <= k && m == k + 1 && m <= i + 1 ==> !Overlaps(order[k], order[m])
  {
    forall k, m | 0 <= k && m == k + 1 && m < |order|
      ensures Overlaps(order[k], order[m]) <==> Clashes(order[k], order[m])
      ensures Follows(order[k], order[m]) <==> Meets(order[k], order[m])
    {
    }
  }

  /** Links lead to listed journeys, and lead back. */
  ghost predicate Symmetric(journeys: seq<VehicleJourney>)
    reads journeys
  {
    forall v :: v in journeys ==>
      && (v.nextVj != null ==> v.nextVj in journeys && v.nextVj.prevVj == v)
      && (v.prevVj != null ==> v.prevVj in journeys && v.prevVj.nextVj == v)
  }

  ghost predicate Unlinked(journeys: seq<VehicleJourney>)
    reads journeys
  {
    forall v :: v in journeys ==> v.nextVj == null && v.prevVj == null
  }

  ghost function NextOf(order: seq<VehicleJourney>, n: int, k: nat): VehicleJourney? {
    if k + 1 < n && Joined(order, k) then order[k + 1] else null
  }

  ghost function PrevOf(order: seq<VehicleJourney>, n: int, k: nat): VehicleJourney? {
    if k < n && Joined(order, k - 1) then order[k - 1] else null
  }

  /** The links among the first `n` of the order are those of joined neighbours, and no others. */
  ghost predicate LinkedUpTo(order: seq<VehicleJourney>, n: int)
    reads order
  {
    && (forall k {:trigger order[k].nextVj} :: 0 <= k < |order| ==> order[k].nextVj == NextOf(order, n, k))
    && (forall k {:trigger order[k].prevVj} :: 0 <= k < |order| ==> order[k].prevVj == PrevOf(order, n, k))
  }

  class Data {
    var vehicleJourneys: seq<VehicleJourney>

    constructor (journeys: seq<VehicleJourney>)
      ensures vehicleJourneys == journeys
    {
      vehicleJourneys := journeys;
    }

    /** `order` is what the sort made of the journeys; afterwards exactly its joined neighbours are linked. */
    method BuildBlockId(order: seq<VehicleJourney>)
      requires Distinct(order) && IsSortOf(order, vehicleJourneys) && Unlinked(order)
      modifies this, order
      ensures vehicleJourneys == order && LinkedUpTo(order, |order|)
    {
      vehicleJourneys := order;
      LinkNeighbours(order);
    }

    method LinkNeighbours(order: seq<VehicleJourney>)
      requires Distinct(order) && Unlinked(order)
      modifies order
      ensures LinkedUpTo(order, |order|)
    {
      var n := 0;
      while n < |order|
        invariant 0 <= n <= |order|
        invariant Calm(order, n) && LinkedUpTo(order, n)
      {
        if n > 0 && Clashes(order[n - 1], order[n]) {
          NothingBeyondClash(order, n);
          return;
        }
        NextPair(order, n);
        if n > 0 && Joins(order[n - 1], order[n]) {
          assert order[n - 1] != order[n];
          order[n - 1].nextVj := order[n];
          order[n].prevVj := order[n - 1];
        }
        forall k | 0 <= k < |order|
          ensures order[k].nextVj == NextOf(order, n + 1, k) && order[k].prevVj == PrevOf(order, n + 1, k)
        {
          NextLink(order, n, k);
          assert n > 0 && k != n ==> order[k] != order[n];
          assert n > 0 && k != n - 1 ==> order[k] != order[n - 1];
        }
        n := n + 1;
      }
    }
  }

  lemma NothingBeyondClash(order: seq<VehicleJourney>, n: nat)
    requires 0 < n < |order| && Clashes(order[n - 1], order[n])
    ensures forall k: nat :: NextOf(order, |order|, k) == NextOf(order, n, k) && PrevOf(order, |order|, k) == PrevOf(order, n, k)
  {
    forall k: nat
      ensures k + 1 < n || !Joined(order, k)
    {
    }
  }

  lemma NextPair(order: seq<VehicleJourney>, n: nat)
    requires n < |order| && Calm(order, n) && (n > 0 ==> !Clashes(order[n - 1], order[n]))
    ensures Calm(order, n + 1)
    ensures n > 0 ==> (Joined(order, n - 1) <==> Joins(order[n - 1], order[n]))
  {
  }

  lemma NextLink(order: seq<VehicleJourney>, n: nat, k: nat)
    requires n < |order|
    ensures NextOf(order, n + 1, k) == if k == n - 1 && Joined(order, k) then order[n] else NextOf(order, n, k)
    ensures PrevOf(order, n + 1, k) == if k == n && Joined(order, k - 1) then order[k - 1] else PrevOf(order, n, k)
  {
  }

  lemma LinkedIsSymmetric(order: seq<VehicleJourney>)
    requires LinkedUpTo(order, |order|)
    ensures Symmetric(order)
  {
    forall v | v in order
      ensures v.nextVj != null ==> v.nextVj in order && v.nextVj.prevVj == v
      ensures v.prevVj != null ==> v.prevVj in order && v.prevVj.nextVj == v
    {
      var k :| 0 <= k < |order| && order[k] == v;
      assert order[k].nextVj == NextOf(order, |order|, k) && order[k].prevVj == PrevOf(order, |order|, k);
      if order[k].nextVj != null {
        assert order[k + 1].prevVj == PrevOf(order, |order|, k + 1);
      }
      if order[k].prevVj != null {
        assert order[k - 1].nextVj == NextOf(order, |order|, k - 1);
      }
    }
  }

  /**
   Joined journeys belong together: same block and offset, no travel back in time, and no other
   journey of that block and offset starts in between.
   */
  lemma JoinedAreConsecutive(order: seq<VehicleJourney>, journeys: seq<VehicleJourney>, i: nat, u: VehicleJourney)
    requires IsSortOf(order, journeys) && Joined(order, i)
    requires u in journeys && u.blockId == order[i].blockId && u.offset == order[i].offset && u.stopTimes != []
    ensures order[i + 1].blockId == order[i].blockId != "" && order[i + 1].offset == order[i].offset
    ensures FirstDeparture(order[i + 1]) >= Last(order[i]).arrival
    ensures FirstDeparture(u) <= FirstDeparture(order[i]) || FirstDeparture(u) >= FirstDeparture(order[i + 1])
  {
    assert u in multiset(order);
    var k :| 0 <= k < |order| && order[k] == u;
    if k < i {
      assert !Less(order[i], order[k]);
    } else if k > i + 1 {
      assert !Less(order[k], order[i + 1]);
    }
  }

  /** Clashing journeys in one block keep those of a later block from being linked. */
  lemma ClashStopsLaterBlock(order: seq<VehicleJourney>)
    requires |order| == 4 && Distinct(order) && LinkedUpTo(order, 4)
    requires forall k :: 0 <= k < 4 ==> order[k].blockId == (if k < 2 then "A" else "B") && order[k].offset == 0
    requires order[0].stopTimes == [StopTime("p", 0, 0, 0, 0), StopTime("q", 100, 300, 100, 300)]
    requires order[1].stopTimes == [StopTime("r", 150, 200, 150, 200), StopTime("s", 400, 400, 400, 400)]
    requires order[2].stopTimes == [StopTime("t", 0, 0, 0, 0), StopTime("u", 100, 100, 100, 100)]
    requires order[3].stopTimes == [StopTime("u", 200, 200, 200, 200), StopTime("v", 300, 300, 300, 300)]
    ensures IsSortOf(order, order) && Clashes(order[0], order[1])
    ensures Joins(order[2], order[3]) && order[2].nextVj == null && order[3].prevVj == null
  {
    BeforeIsIrreflexive("A");
    BeforeIsIrreflexive("B");
    assert !Calm(order, 3);
    assert order[2].nextVj == NextOf(order, 4, 2) && order[3].prevVj == PrevOf(order, 4, 3);
  }
}
