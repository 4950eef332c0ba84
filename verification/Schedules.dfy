/**
 Shifting vehicle journeys so that they start between midnight and midnight: what one run makes of
 the days and times of all journeys, and why the service stays the same.
 */
module Schedules {

  const BITS := 366
  const NO_START := 0x7fffffff

  // ---------- days, dates and instants ----------

  /** A day has 86400 seconds. */
  function Seconds(days: int): int {
    days * 86400
  }

  /** `days <<= 1`: the last bit falls off. */
  function Later(days: set<int>): set<int> {
    set d | d in days && d + 1 < BITS :: d + 1
  }

  /** `days >>= 1`: the first bit falls off. */
  function Earlier(days: set<int>): set<int> {
    set d | d in days && d >= 1 :: d - 1
  }

  function DatesOf(begin: int, days: set<int>): set<int> {
    set d | d in days :: begin + d
  }

  /** The dates below `limit`, `shift` days earlier. */
  function Moved(dates: set<int>, limit: int, shift: int): set<int> {
    set x | x in dates && x < limit :: x - shift
  }

  /** The absolute instants at which something happens at `time` on every one of the dates. */
  function Instants(dates: set<int>, time: int): set<int> {
    set x | x in dates :: Seconds(x) + time
  }

  /** Division as C++ does it, towards zero. */
  function Quotient(a: int): int {
    if a >= 0 then a / 86400 else -(-a / 86400)
  }

  /** Days to add so that the start falls between midnight and midnight. */
  function ShiftFor(start: int): int {
    (if start >= 0 then 0 else 1) - Quotient(start)
  }

  /** Exactly the starts from one day before to one day after are handled; the day before is excluded. */
  lemma ShiftIsOneDay(start: int)
    ensures -1 <= ShiftFor(start) <= 1 <==> -86400 < start < 2 * 86400
    ensures -1 <= ShiftFor(start) <= 1 ==> 0 <= start + Seconds(ShiftFor(start)) < 86400
  {
  }

  /**
   Moving the dates by whole days and the time of day back by as many keeps the instants, apart from
   the dates at or beyond the limit.
   */
  lemma MovedInstants(dates: set<int>, limit: int, shift: int, time: int)
    ensures Instants(Moved(dates, limit, shift), time + Seconds(shift)) == Instants(Moved(dates, limit, 0), time)
  {
    var a, b := Moved(dates, limit, shift), Moved(dates, limit, 0);
    forall i | i in Instants(a, time + Seconds(shift))
      ensures i in Instants(b, time)
    {
      var y :| y in a && i == Seconds(y) + (time + Seconds(shift));
      assert y + shift in b;
      assert i == Seconds(y + shift) + time;
    }
    forall i | i in Instants(b, time)
      ensures i in Instants(a, time + Seconds(shift))
    {
      var x :| x in b && i == Seconds(x) + time;
      assert x - shift in a;
      assert i == Seconds(x - shift) + (time + Seconds(shift));
    }
  }

  /** The service is conserved exactly when no date lies at or beyond the limit. */
  lemma ServiceIsConserved(dates: set<int>, limit: int, shift: int, time: int)
    ensures Instants(Moved(dates, limit, shift), time + Seconds(shift)) == Instants(dates, time)
            <==> forall x :: x in dates ==> x < limit
  {
    MovedInstants(dates, limit, shift, time);
    if forall x :: x in dates ==> x < limit {
      assert Moved(dates, limit, 0) == dates;
    } else {
      var x :| x in dates && !(x < limit);
      assert Seconds(x) + time in Instants(dates, time);
      assert forall y :: y in Moved(dates, limit, 0) ==> Seconds(y) + time != Seconds(x) + time;
    }
  }

  /** What happens to the days of the pattern of a journey that is moved by `shift` days. */
  function ShiftedDays(days: set<int>, shift: int): set<int> {
    if shift == 1 then Earlier(if 0 in days then Later(days) else days)
    else if shift == -1 then Later(days)
    else days
  }

  /** Moving this journey moves the production period and every listed pattern as well. */
  predicate Rebases(days: set<int>, shift: int) {
    shift == 1 && 0 in days
  }

  /**
   The first date the patterns of journey `j` cannot keep, when the production period started at
   `begin` and journey `trigger` (negative: none) moved it.
   */
  function Limit(begin: int, shift: int, trigger: int, j: int): int {
    if trigger < 0 then begin + (if shift == -1 then 365 else 366)
    else begin + (if shift == -1 then 364 else if shift == 1 && j < trigger then 366 else 365)
  }

  ghost predicate InBits(days: set<int>) {
    forall d :: d in days ==> 0 <= d < BITS
  }

  lemma InDates(begin: int, days: set<int>, x: int)
    ensures x in DatesOf(begin, days) <==> x - begin in days
  {
    if x - begin in days {
      assert x == begin + (x - begin);
    }
  }

  lemma InMoved(dates: set<int>, limit: int, shift: int, x: int)
    ensures x in Moved(dates, limit, shift) <==> x + shift in dates && x + shift < limit
  {
    if x + shift in dates && x + shift < limit {
      assert x == x + shift - shift;
    }
  }

  lemma InLater(days: set<int>, d: int)
    ensures d in Later(days) <==> d - 1 in days && d < BITS
  {
    if d - 1 in days && d < BITS {
      assert d == d - 1 + 1;
    }
  }

  lemma InEarlier(days: set<int>, d: int)
    ensures d in Earlier(days) <==> d + 1 in days && d >= 0
  {
    if d + 1 in days && d >= 0 {
      assert d == d + 1 - 1;
    }
  }

  /** Seen as dates, a later bit is a later date, or the same date when the period starts earlier. */
  lemma LaterMoves(begin: int, days: set<int>, start: int)
    requires InBits(days)
    ensures DatesOf(start, Later(days)) == Moved(DatesOf(begin, days), begin + 365, begin - start - 1)
    ensures InBits(Later(days)) && 0 !in Later(days)
  {
    forall x: int
      ensures x in DatesOf(start, Later(days)) <==> x in Moved(DatesOf(begin, days), begin + 365, begin - start - 1)
    {
      InDates(start, Later(days), x);
      InLater(days, x - start);
      InMoved(DatesOf(begin, days), begin + 365, begin - start - 1, x);
      InDates(begin, days, x + begin - start - 1);
    }
    InLater(days, 0);
  }

  lemma EarlierMoves(begin: int, days: set<int>)
    requires InBits(days) && 0 !in days
    ensures DatesOf(begin, Earlier(days)) == Moved(DatesOf(begin, days), begin + 366, 1)
  {
    forall x: int
      ensures x in DatesOf(begin, Earlier(days)) <==> x in Moved(DatesOf(begin, days), begin + 366, 1)
    {
      InDates(begin, Earlier(days), x);
      InEarlier(days, x - begin);
      InMoved(DatesOf(begin, days), begin + 366, 1, x);
      InDates(begin, days, x + 1);
    }
  }

  lemma MovedTwice(dates: set<int>, limit: int, shift: int, limit': int, shift': int)
    ensures Moved(Moved(dates, limit, shift), limit', shift')
            == Moved(dates, if limit < limit' + shift then limit else limit' + shift, shift + shift')
  {
    var l := if limit < limit' + shift then limit else limit' + shift;
    forall x: int
      ensures x in Moved(dates, l, shift + shift') <==> x in Moved(Moved(dates, limit, shift), limit', shift')
    {
      InMoved(dates, l, shift + shift', x);
      InMoved(Moved(dates, limit, shift), limit', shift', x);
      InMoved(dates, limit, shift, x + shift');
    }
  }

  lemma NothingMoves(begin: int, days: set<int>)
    requires InBits(days)
    ensures DatesOf(begin, days) == Moved(DatesOf(begin, days), begin + 366, 0)
  {
    forall x: int
      ensures x in DatesOf(begin, days) <==> x in Moved(DatesOf(begin, days), begin + 366, 0)
    {
      InDates(begin, days, x);
      InMoved(DatesOf(begin, days), begin + 366, 0, x);
    }
  }

  /** One journey's pattern, seen as dates, when `trigger` says whether the period was moved before. */
  lemma ShiftMovesDates(begin: int, days: set<int>, shift: int, trigger: int, j: int)
    requires InBits(days) && -1 <= shift <= 1 && 0 <= j && trigger < j
    ensures var moved := trigger >= 0;
            var before := if moved then Later(days) else days;
            var start := if moved then begin - 1 else begin;
            && InBits(before)
            && !(moved && Rebases(before, shift))
            && DatesOf(if Rebases(before, shift) then start - 1 else start, ShiftedDays(before, shift))
               == Moved(DatesOf(begin, days), Limit(begin, shift, if Rebases(before, shift) then j else trigger, j), shift)
  {
    var moved := trigger >= 0;
    var before := if moved then Later(days) else days;
    var start := if moved then begin - 1 else begin;
    LaterMoves(begin, days, begin - 1);
    NothingMoves(begin, days);
    NothingMoves(start, before);
    var limit := if moved then begin + 365 else begin + 366;
    assert DatesOf(start, before) == Moved(DatesOf(begin, days), limit, 0);
    if Rebases(before, shift) {
      EarlierMoves(begin - 1, Later(days));
      assert DatesOf(begin - 1, Later(days)) == Moved(DatesOf(begin, days), begin + 365, 0);
      MovedTwice(DatesOf(begin, days), begin + 365, 0, begin + 365, 1);
    } else if shift == 1 {
      EarlierMoves(start, before);
      MovedTwice(DatesOf(begin, days), limit, 0, start + 366, 1);
    } else if shift == -1 {
      LaterMoves(start, before, start);
      MovedTwice(DatesOf(begin, days), limit, 0, start + 365, -1);
    }
  }

  /** A later journey that moves the period trims the patterns of the earlier ones. */
  lemma RebaseMovesDates(begin: int, dates: set<int>, days: set<int>, shift: int, trigger: int, j: int)
    requires InBits(days) && -1 <= shift <= 1 && 0 <= j < trigger
    requires DatesOf(begin, days) == Moved(dates, Limit(begin, shift, -1, j), shift)
    ensures DatesOf(begin - 1, Later(days)) == Moved(dates, Limit(begin, shift, trigger, j), shift)
  {
    LaterMoves(begin, days, begin - 1);
    MovedTwice(dates, Limit(begin, shift, -1, j), shift, begin + 365, 0);
  }

  // ---------- journeys ----------

  datatype Stop = Stop(arrival: int, departure: int, boarding: int, alighting: int)

  /** The bits of the journey's pattern, its stops, and the times of a frequency journey. */
  datatype Journey = Journey(days: set<int>, stops: seq<Stop>, startTime: int, endTime: int)

  /** All journeys, on patterns whose first bit is the first day of the production period. */
  datatype Schedule = Schedule(begin: int, journeys: seq<Journey>)

  predicate IsFrequency(j: Journey) {
    j.startTime != NO_START
  }

  function FirstTime(s: Stop): int {
    if s.arrival < s.boarding then s.arrival else s.boarding
  }

  function Earliest(stops: seq<Stop>): (r: int)
    requires stops != []
    ensures forall s :: s in stops ==> r <= s.arrival && r <= s.boarding
    ensures exists s :: s in stops && r == FirstTime(s)
  {
    var n := |stops| - 1;
    assert stops == stops[..n] + [stops[n]];
    if n == 0 then FirstTime(stops[n])
    else
      var rest := Earliest(stops[..n]);
      if FirstTime(stops[n]) < rest then FirstTime(stops[n]) else rest
  }

  /** The time that has to fall between midnight and midnight. */
  function StartOf(j: Journey): int
    requires j.stops != []
  {
    if IsFrequency(j) then j.startTime else Earliest(j.stops)
  }

  /** Zero for a journey without stops, which is skipped. */
  function ShiftOf(j: Journey): int {
    if j.stops == [] then 0 else ShiftFor(StartOf(j))
  }

  function ShiftedStop(s: Stop, shift: int): Stop {
    Stop(s.arrival + Seconds(shift), s.departure + Seconds(shift), s.boarding + Seconds(shift), s.alighting + Seconds(shift))
  }

  function ShiftedStops(stops: seq<Stop>, shift: int): (r: seq<Stop>)
    ensures |r| == |stops| && forall k :: 0 <= k < |r| ==> r[k] == ShiftedStop(stops[k], shift)
  {
    seq(|stops|, k requires 0 <= k < |stops| => ShiftedStop(stops[k], shift))
  }

  /** The end of a frequency journey is only made positive. */
  function Positive(time: int): int {
    if time < 0 then time % 86400 else time
  }

  function ShiftedJourney(j: Journey, shift: int): Journey {
    Journey(ShiftedDays(j.days, shift), ShiftedStops(j.stops, shift),
            if IsFrequency(j) then j.startTime + Seconds(shift) else j.startTime,
            if IsFrequency(j) then Positive(j.endTime) else j.endTime)
  }

  /** A journey without stops is skipped. */
  function Normalised(j: Journey): Journey {
    if j.stops == [] then j else ShiftedJourney(j, ShiftOf(j))
  }

  function RebasedJourney(j: Journey): Journey {
    j.(days := Later(j.days))
  }

  /** Whether shifting journey `i` moves the production period. */
  predicate RebasesAt(s: Schedule, i: nat)
    requires i < |s.journeys|
  {
    s.journeys[i].stops != [] && Rebases(s.journeys[i].days, ShiftOf(s.journeys[i]))
  }

  /** What shifting journey `i` makes of journey `k`. */
  function StepJourney(s: Schedule, i: nat, k: nat): Journey
    requires i < |s.journeys| && k < |s.journeys|
  {
    if k == i then Normalised(s.journeys[i])
    else if RebasesAt(s, i) then RebasedJourney(s.journeys[k])
    else s.journeys[k]
  }

  /** Shifting journey `i`: it moves, and so do all others when it moves the production period. */
  function Step(s: Schedule, i: nat): (r: Schedule)
    requires i < |s.journeys|
    ensures |r.journeys| == |s.journeys|
  {
    Schedule(if RebasesAt(s, i) then s.begin - 1 else s.begin,
             seq(|s.journeys|, k requires 0 <= k < |s.journeys| => StepJourney(s, i, k)))
  }

  /** False stands for the exception "that's more than one day". */
  predicate CanShift(j: Journey) {
    -1 <= ShiftOf(j) <= 1
  }

  /** The first `n` journeys shifted in turn. */
  function Run(s: Schedule, n: nat): (r: Schedule)
    requires n <= |s.journeys|
    ensures |r.journeys| == |s.journeys|
  {
    if n == 0 then s else Step(Run(s, n - 1), n - 1)
  }

  // ---------- what a run does ----------

  ghost predicate AllInBits(s: Schedule) {
    forall j :: j in s.journeys ==> InBits(j.days)
  }

  /** The first of the first `n` journeys that moves the production period; -1 if none does. */
  function Trigger(s: Schedule, n: nat): int
    requires n <= |s.journeys|
  {
    if n == 0 then -1 else NextTrigger(s, n - 1, Trigger(s, n - 1))
  }

  function NextTrigger(s: Schedule, n: nat, trigger: int): int
    requires n < |s.journeys|
  {
    if trigger < 0 && RebasesAt(s, n) then n else trigger
  }

  lemma {:induction false} TriggerIsFirst(s: Schedule, n: nat, k: nat)
    requires k < n <= |s.journeys|
    ensures -1 <= Trigger(s, n) < n
    ensures Trigger(s, n) < 0 || k < Trigger(s, n) ==> !RebasesAt(s, k)
    ensures Trigger(s, n) == k ==> RebasesAt(s, k)
    decreases n
  {
    if k < n - 1 {
      TriggerIsFirst(s, n - 1, k);
    } else if n > 1 {
      TriggerIsFirst(s, n - 1, n - 2);
    }
  }

  /** A journey still to come is untouched, but for the one move of the production period. */
  ghost predicate Waits(before: Journey, after: Journey, trigger: int) {
    after == if trigger >= 0 then RebasedJourney(before) else before
  }

  /** Journey `k` was shifted by `shift` days, its dates up to the limit and all of its stops. */
  ghost predicate Placed(s: Schedule, r: Schedule, shift: int, trigger: int, k: nat)
    requires k < |s.journeys| == |r.journeys|
  {
    var before, after := s.journeys[k], r.journeys[k];
    && InBits(after.days)
    && DatesOf(r.begin, after.days) == Moved(DatesOf(s.begin, before.days), Limit(s.begin, shift, trigger, k), shift)
    && after.stops == ShiftedStops(before.stops, shift)
  }

  /** Where all journeys stand after the first `n` were shifted and `trigger` moved the period. */
  ghost predicate Reached(s: Schedule, r: Schedule, n: nat, trigger: int) {
    && |r.journeys| == |s.journeys| && n <= |s.journeys| && -1 <= trigger < n
    && r.begin == s.begin - (if trigger >= 0 then 1 else 0)
    && (forall k {:trigger Placed(s, r, ShiftOf(s.journeys[k]), trigger, k)} :: 0 <= k < n ==> Placed(s, r, ShiftOf(s.journeys[k]), trigger, k))
    && (forall k {:trigger Waits(s.journeys[k], r.journeys[k], trigger)} :: n <= k < |s.journeys| ==> Waits(s.journeys[k], r.journeys[k], trigger))
  }

  lemma ShiftNothing(stops: seq<Stop>)
    ensures ShiftedStops(stops, 0) == stops
  {
    assert forall k :: 0 <= k < |stops| ==> ShiftedStop(stops[k], 0) == stops[k];
  }

  lemma ShiftedKeepsBits(days: set<int>, shift: int)
    requires InBits(days)
    ensures InBits(ShiftedDays(days, shift)) && InBits(Later(days))
  {
  }

  /** Once the production period was moved no journey asks for it again. */
  lemma RebasesOnce(begin: int, before: Journey, after: Journey, trigger: int)
    requires InBits(before.days) && Waits(before, after, trigger)
    ensures Rebases(after.days, ShiftOf(after)) <==> trigger < 0 && Rebases(before.days, ShiftOf(before))
    ensures ShiftOf(after) == ShiftOf(before) && after.stops == before.stops
  {
    LaterMoves(begin, before.days, begin - 1);
  }

  /** The journey being shifted. */
  lemma PlacedNow(s: Schedule, r: Schedule, n: nat, trigger: int, trigger': int)
    requires Reached(s, r, n, trigger) && n < |s.journeys| && CanShift(s.journeys[n]) && InBits(s.journeys[n].days)
    requires trigger' == NextTrigger(s, n, trigger)
    ensures Placed(s, Step(r, n), ShiftOf(s.journeys[n]), trigger', n)
    ensures Step(r, n).begin == s.begin - (if trigger' >= 0 then 1 else 0)
  {
    var j := s.journeys[n];
    assert Waits(s.journeys[n], r.journeys[n], trigger);
    RebasesOnce(s.begin, j, r.journeys[n], trigger);
    ShiftMovesDates(s.begin, j.days, ShiftOf(j), trigger, n);
    ShiftedKeepsBits(r.journeys[n].days, ShiftOf(j));
    ShiftNothing(j.stops);
    assert Step(r, n).journeys[n] == StepJourney(r, n, n);
  }

  /** A journey shifted before, which is moved along when the period is. */
  lemma PlacedBefore(s: Schedule, r: Schedule, n: nat, trigger: int, trigger': int, k: nat)
    requires Reached(s, r, n, trigger) && k < n < |s.journeys| && InBits(s.journeys[n].days)
    requires CanShift(s.journeys[k])
    requires trigger' == NextTrigger(s, n, trigger)
    ensures Placed(s, Step(r, n), ShiftOf(s.journeys[k]), trigger', k)
  {
    assert Waits(s.journeys[n], r.journeys[n], trigger);
    RebasesOnce(s.begin, s.journeys[n], r.journeys[n], trigger);
    assert Placed(s, r, ShiftOf(s.journeys[k]), trigger, k);
    assert Step(r, n).journeys[k] == StepJourney(r, n, k);
    if RebasesAt(r, n) {
      RebaseMovesDates(s.begin, DatesOf(s.begin, s.journeys[k].days), r.journeys[k].days, ShiftOf(s.journeys[k]), n, k);
      ShiftedKeepsBits(r.journeys[k].days, 0);
    }
  }

  lemma WaitsOn(s: Schedule, r: Schedule, n: nat, trigger: int, trigger': int, k: nat)
    requires Reached(s, r, n, trigger) && n < k < |s.journeys| && InBits(s.journeys[n].days)
    requires trigger' == NextTrigger(s, n, trigger)
    ensures Waits(s.journeys[k], Step(r, n).journeys[k], trigger')
  {
    assert Waits(s.journeys[n], r.journeys[n], trigger);
    RebasesOnce(s.begin, s.journeys[n], r.journeys[n], trigger);
    assert Waits(s.journeys[k], r.journeys[k], trigger);
    assert Step(r, n).journeys[k] == StepJourney(r, n, k);
  }

  ghost predicate AllCanShift(s: Schedule, n: nat)
    requires n <= |s.journeys|
  {
    forall k {:trigger CanShift(s.journeys[k])} :: 0 <= k < n ==> CanShift(s.journeys[k])
  }

  /** Every run places every journey, and moves the production period at most once. */
  lemma {:induction false} RunReaches(s: Schedule, n: nat)
    requires AllInBits(s) && n <= |s.journeys| && AllCanShift(s, n)
    ensures Reached(s, Run(s, n), n, Trigger(s, n))
  {
    if n > 0 {
      RunReaches(s, n - 1);
      assert s.journeys[n - 1] in s.journeys;
      StepReaches(s, Run(s, n - 1), n - 1, Trigger(s, n - 1), NextTrigger(s, n - 1, Trigger(s, n - 1)));
    }
  }

  lemma StepReaches(s: Schedule, r: Schedule, n: nat, trigger: int, trigger': int)
    requires Reached(s, r, n, trigger) && n < |s.journeys| && AllCanShift(s, n + 1) && InBits(s.journeys[n].days)
    requires trigger' == NextTrigger(s, n, trigger)
    ensures Reached(s, Step(r, n), n + 1, trigger')
  {
    assert CanShift(s.journeys[n]);
    PlacedNow(s, r, n, trigger, trigger');
    forall k | 0 <= k < n
      ensures Placed(s, Step(r, n), ShiftOf(s.journeys[k]), trigger', k)
    {
      assert CanShift(s.journeys[k]);
      PlacedBefore(s, r, n, trigger, trigger', k);
    }
    forall k | n < k < |s.journeys|
      ensures Waits(s.journeys[k], Step(r, n).journeys[k], trigger')
    {
      WaitsOn(s, r, n, trigger, trigger', k);
    }
  }

  /** Whether a journey can be shifted does not depend on the journeys shifted before it. */
  lemma CanShiftOn(s: Schedule, n: nat)
    requires AllInBits(s) && n < |s.journeys| && AllCanShift(s, n)
    ensures CanShift(Run(s, n).journeys[n]) <==> CanShift(s.journeys[n])
    ensures Run(s, n + 1) == Step(Run(s, n), n)
  {
    RunReaches(s, n);
    assert s.journeys[n] in s.journeys;
    assert Waits(s.journeys[n], Run(s, n).journeys[n], Trigger(s, n));
    RebasesOnce(s.begin, s.journeys[n], Run(s, n).journeys[n], Trigger(s, n));
  }

  /** A journey that still waits has kept all dates the period has room for. */
  lemma WaitingIsPlaced(s: Schedule, r: Schedule, n: nat, trigger: int, k: nat)
    requires Reached(s, r, n, trigger) && n <= k < |s.journeys| && InBits(s.journeys[k].days)
    ensures Placed(s, r, 0, trigger, k)
  {
    var j := s.journeys[k];
    assert Waits(j, r.journeys[k], trigger);
    NothingMoves(s.begin, j.days);
    LaterMoves(s.begin, j.days, s.begin - 1);
    ShiftNothing(j.stops);
  }

  /** The four times of a stop as absolute instants. */
  function Service(dates: set<int>, stop: Stop): (set<int>, set<int>, set<int>, set<int>) {
    (Instants(dates, stop.arrival), Instants(dates, stop.departure), Instants(dates, stop.boarding), Instants(dates, stop.alighting))
  }

  lemma StopIsConserved(dates: set<int>, limit: int, shift: int, stop: Stop)
    ensures Service(Moved(dates, limit, shift), ShiftedStop(stop, shift)) == Service(dates, stop)
            <==> forall d :: d in dates ==> d < limit
  {
    ServiceIsConserved(dates, limit, shift, stop.arrival);
    ServiceIsConserved(dates, limit, shift, stop.departure);
    ServiceIsConserved(dates, limit, shift, stop.boarding);
    ServiceIsConserved(dates, limit, shift, stop.alighting);
  }

  function ServiceAt(s: Schedule, k: nat, m: nat): (set<int>, set<int>, set<int>, set<int>)
    requires k < |s.journeys| && m < |s.journeys[k].stops|
  {
    Service(DatesOf(s.begin, s.journeys[k].days), s.journeys[k].stops[m])
  }

  /**
   A run that shifts the first `n` journeys keeps the service of journey `k` exactly when none of its
   active dates lies at or beyond the limit for its shift and its place among the journeys.
   */
  lemma RunConservesService(s: Schedule, n: nat, k: nat, m: nat)
    requires AllInBits(s) && n <= |s.journeys| && k < |s.journeys| && m < |s.journeys[k].stops|
    requires AllCanShift(s, n)
    ensures |Run(s, n).journeys[k].stops| == |s.journeys[k].stops|
    ensures ServiceAt(Run(s, n), k, m) == ServiceAt(s, k, m) <==>
            forall d :: d in DatesOf(s.begin, s.journeys[k].days) ==>
              d < Limit(s.begin, if k < n then ShiftOf(s.journeys[k]) else 0, Trigger(s, n), k)
  {
    RunReaches(s, n);
    var r, trigger := Run(s, n), Trigger(s, n);
    var shift := if k < n then ShiftOf(s.journeys[k]) else 0;
    assert s.journeys[k] in s.journeys;
    if k >= n {
      WaitingIsPlaced(s, r, n, trigger, k);
    }
    PlacedIsConserved(s, r, shift, trigger, k, m);
  }

  lemma PlacedIsConserved(s: Schedule, r: Schedule, shift: int, trigger: int, k: nat, m: nat)
    requires k < |s.journeys| == |r.journeys| && m < |s.journeys[k].stops|
    requires Placed(s, r, shift, trigger, k)
    ensures |r.journeys[k].stops| == |s.journeys[k].stops|
    ensures ServiceAt(r, k, m) == ServiceAt(s, k, m) <==>
            forall d :: d in DatesOf(s.begin, s.journeys[k].days) ==> d < Limit(s.begin, shift, trigger, k)
  {
    var dates, stop := DatesOf(s.begin, s.journeys[k].days), s.journeys[k].stops[m];
    assert r.journeys[k].stops[m] == ShiftedStop(stop, shift);
    StopIsConserved(dates, Limit(s.begin, shift, trigger, k), shift, stop);
  }

  /** A shifted journey starts between midnight and midnight. */
  lemma ShiftedStartsToday(j: Journey)
    requires j.stops != [] && CanShift(j)
    ensures 0 <= StartOf(ShiftedJourney(j, ShiftOf(j))) < 86400
  {
    ShiftIsOneDay(StartOf(j));
    var shift := ShiftOf(j);
    if !IsFrequency(j) {
      EarliestMoves(j.stops, shift);
    }
  }

  /** Shifting the first `n` journeys changes the times of each of them once, whatever their order. */
  lemma {:induction false} RunTimes(s: Schedule, n: nat, k: nat)
    requires n <= |s.journeys| && k < |s.journeys|
    ensures Run(s, n).journeys[k].(days := {}) == (if k < n then Normalised(s.journeys[k]) else s.journeys[k]).(days := {})
  {
    if n > 0 {
      RunTimes(s, n - 1, k);
      assert Run(s, n).journeys[k] == StepJourney(Run(s, n - 1), n - 1, k);
    }
  }

  /** After the run every journey it shifted starts between midnight and midnight. */
  lemma RunStartsToday(s: Schedule, n: nat, k: nat)
    requires k < n <= |s.journeys| && CanShift(s.journeys[k]) && s.journeys[k].stops != []
    ensures Run(s, n).journeys[k].stops != [] && 0 <= StartOf(Run(s, n).journeys[k]) < 86400
  {
    RunTimes(s, n, k);
    var r, j := Run(s, n).journeys[k], ShiftedJourney(s.journeys[k], ShiftOf(s.journeys[k]));
    assert r == j.(days := r.days);
    ShiftedStartsToday(s.journeys[k]);
  }

  /** Which journeys can be shifted: by their start for a frequency, by their earliest stop for others. */
  lemma CanShiftMeans(j: Journey)
    ensures j.stops == [] ==> CanShift(j)
    ensures j.stops != [] && j.startTime != 2147483647 ==> (CanShift(j) <==> -86400 < j.startTime < 172800)
    ensures j.stops != [] && j.startTime == 2147483647 ==>
              (CanShift(j) <==>
                (forall m :: 0 <= m < |j.stops| ==> -86400 < j.stops[m].arrival && -86400 < j.stops[m].boarding) &&
                (exists m :: 0 <= m < |j.stops| && (j.stops[m].arrival < 172800 || j.stops[m].boarding < 172800)))
  {
    if j.stops != [] {
      ShiftIsOneDay(StartOf(j));
      EarliestIsThere(j.stops);
    }
  }

  /** The earliest time bounds all arrivals and boardings and is one of them. */
  lemma EarliestIsThere(stops: seq<Stop>)
    requires stops != []
    ensures forall m :: 0 <= m < |stops| ==> Earliest(stops) <= stops[m].arrival && Earliest(stops) <= stops[m].boarding
    ensures exists m :: 0 <= m < |stops| && (Earliest(stops) == stops[m].arrival || Earliest(stops) == stops[m].boarding)
  {
    forall m | 0 <= m < |stops|
      ensures Earliest(stops) <= stops[m].arrival && Earliest(stops) <= stops[m].boarding
    {
      EarliestBounds(stops, stops[m]);
    }
    var m :| 0 <= m < |stops| && Earliest(stops) == FirstTime(stops[m]);
  }

  /** A frequency after the run: it starts between midnight and midnight, and no stop has moved against it. */
  lemma FrequencyAfterRun(s: Schedule, n: nat, k: nat)
    requires k < n <= |s.journeys| && CanShift(s.journeys[k])
    requires s.journeys[k].stops != [] && s.journeys[k].startTime != 2147483647
    ensures var before, after := s.journeys[k], Run(s, n).journeys[k];
            && 0 <= after.startTime < 86400 && (after.startTime - before.startTime) % 86400 == 0
            && 0 <= after.endTime && (after.endTime - before.endTime) % 86400 == 0
            && (if before.endTime >= 0 then after.endTime == before.endTime else after.endTime < 86400)
            && MovedBy(before.stops, after.stops, after.startTime - before.startTime)
  {
    RunTimes(s, n, k);
    var r, j := Run(s, n).journeys[k], ShiftedJourney(s.journeys[k], ShiftOf(s.journeys[k]));
    assert r == j.(days := r.days);
    ShiftIsOneDay(s.journeys[k].startTime);
  }

  /** Any other journey after the run: no arrival or boarding before midnight, and one of them on the day itself. */
  lemma OthersAfterRun(s: Schedule, n: nat, k: nat)
    requires k < n <= |s.journeys| && CanShift(s.journeys[k])
    requires s.journeys[k].stops != [] && s.journeys[k].startTime == 2147483647
    ensures var before, after := s.journeys[k], Run(s, n).journeys[k];
            && after.startTime == before.startTime && after.endTime == before.endTime
            && (forall m :: 0 <= m < |after.stops| ==> 0 <= after.stops[m].arrival && 0 <= after.stops[m].boarding)
            && (exists m :: 0 <= m < |after.stops| && (after.stops[m].arrival < 86400 || after.stops[m].boarding < 86400))
            && exists days :: MovedBy(before.stops, after.stops, 86400 * days)
  {
    RunTimes(s, n, k);
    var r, shift := Run(s, n).journeys[k], ShiftOf(s.journeys[k]);
    var j := ShiftedJourney(s.journeys[k], shift);
    assert r == j.(days := r.days);
    EarliestIsToday(s.journeys[k].stops, shift);
    assert MovedBy(s.journeys[k].stops, r.stops, 86400 * shift);
  }

  lemma EarliestIsToday(stops: seq<Stop>, shift: int)
    requires stops != [] && shift == ShiftFor(Earliest(stops)) && -1 <= shift <= 1
    ensures var after := ShiftedStops(stops, shift);
            && (forall m :: 0 <= m < |after| ==> 0 <= after[m].arrival && 0 <= after[m].boarding)
            && (exists m :: 0 <= m < |after| && (after[m].arrival < 86400 || after[m].boarding < 86400))
  {
    EarliestMoves(stops, shift);
    ShiftIsOneDay(Earliest(stops));
    EarliestIsThere(ShiftedStops(stops, shift));
  }

  /** All four times of every stop are later by `step`. */
  ghost predicate MovedBy(before: seq<Stop>, after: seq<Stop>, step: int) {
    && |after| == |before|
    && forall m :: 0 <= m < |before| ==>
         after[m] == Stop(before[m].arrival + step, before[m].departure + step, before[m].boarding + step, before[m].alighting + step)
  }

  lemma EarliestMoves(stops: seq<Stop>, shift: int)
    requires stops != []
    ensures Earliest(ShiftedStops(stops, shift)) == Earliest(stops) + Seconds(shift)
  {
    var moved := ShiftedStops(stops, shift);
    var a :| 0 <= a < |stops| && Earliest(stops) == FirstTime(stops[a]);
    var b :| 0 <= b < |moved| && Earliest(moved) == FirstTime(moved[b]);
    assert moved[a] in moved && stops[b] in stops;
    assert moved[a] == ShiftedStop(stops[a], shift) && moved[b] == ShiftedStop(stops[b], shift);
    EarliestBounds(moved, moved[a]);
    EarliestBounds(stops, stops[b]);
  }

  lemma EarliestBounds(stops: seq<Stop>, s: Stop)
    requires s in stops
    ensures Earliest(stops) <= FirstTime(s)
  {
  }
}
