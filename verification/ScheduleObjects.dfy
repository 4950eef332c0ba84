/**
 The shift of `Schedules` as it is done: on validity patterns, stop times and vehicle journeys that
 are shared objects, each journey in turn.
 */
module ScheduleObjects {
  import opened Basics
  import opened Schedules

  class ValidityPattern {
    var days: set<int>
    var beginningDate: int

    constructor (days: set<int>, beginningDate: int)
      ensures this.days == days && this.beginningDate == beginningDate
    {
      this.days, this.beginningDate := days, beginningDate;
    }
  }

  class StopTime {
    var arrivalTime: int
    var departureTime: int
    var boardingTime: int
    var alightingTime: int

    function Times(): Stop
      reads this
    {
      Stop(arrivalTime, departureTime, boardingTime, alightingTime)
    }

    method ShiftTimes(nDays: int)
      modifies this
      ensures Times() == ShiftedStop(old(Times()), nDays)
    {
      arrivalTime := arrivalTime + Seconds(nDays);
      departureTime := departureTime + Seconds(nDays);
      alightingTime := alightingTime + Seconds(nDays);
      boardingTime := boardingTime + Seconds(nDays);
    }
  }

  function TimesOf(stops: seq<StopTime>): (r: seq<Stop>)
    reads stops
    ensures |r| == |stops| && forall k :: 0 <= k < |r| ==> r[k] == stops[k].Times()
  {
    seq(|stops|, k requires 0 <= k < |stops| reads stops => stops[k].Times())
  }

  class VehicleJourney {
    var validityPattern: ValidityPattern
    const stopTimes: seq<StopTime>
    var startTime: int
    var endTime: int

    constructor (pattern: ValidityPattern, stopTimes: seq<StopTime>)
      ensures validityPattern == pattern && this.stopTimes == stopTimes && startTime == NO_START
    {
      validityPattern, this.stopTimes := pattern, stopTimes;
      startTime, endTime := NO_START, NO_START;
    }

    function Contents(): Journey
      reads this, validityPattern, stopTimes
    {
      Journey(validityPattern.days, TimesOf(stopTimes), startTime, endTime)
    }

    method ShiftStops(shift: int)
      requires Distinct(stopTimes)
      modifies stopTimes
      ensures TimesOf(stopTimes) == ShiftedStops(old(TimesOf(stopTimes)), shift)
    {
      ghost var times := TimesOf(stopTimes);
      for k := 0 to |stopTimes|
        invariant forall m :: 0 <= m < k ==> stopTimes[m].Times() == ShiftedStop(times[m], shift)
        invariant forall m :: k <= m < |stopTimes| ==> stopTimes[m].Times() == times[m]
      {
        stopTimes[k].ShiftTimes(shift);
      }
    }

    method ShiftFrequency(shift: int)
      requires startTime != NO_START
      modifies this`startTime, this`endTime
      ensures startTime == old(startTime) + Seconds(shift)
      ensures endTime == Positive(old(endTime))
    {
      startTime := startTime + Seconds(shift);
      while endTime < 0
        invariant endTime % 86400 == old(endTime) % 86400
        invariant old(endTime) < 0 ==> endTime < 86400
        invariant old(endTime) >= 0 ==> endTime == old(endTime)
        invariant startTime == old(startTime) + Seconds(shift)
        decreases -endTime
      {
        endTime := endTime + 86400;
      }
    }

    /** All times of the journey moved by whole days; the end of a frequency is only made positive. */
    method ShiftTimes(shift: int)
      requires Distinct(stopTimes)
      modifies this`startTime, this`endTime, stopTimes
      ensures TimesOf(stopTimes) == ShiftedStops(old(TimesOf(stopTimes)), shift)
      ensures startTime == if old(startTime) != NO_START then old(startTime) + Seconds(shift) else old(startTime)
      ensures endTime == if old(startTime) != NO_START then Positive(old(endTime)) else old(endTime)
    {
      ShiftNothing(TimesOf(stopTimes));
      if shift != 0 {
        ShiftStops(shift);
      }
      if startTime != NO_START {
        ShiftFrequency(shift);
      }
    }
  }

  class Data {
    var validityPatterns: seq<ValidityPattern>
    const vehicleJourneys: seq<VehicleJourney>
    const stops: seq<StopTime>
    var productionBegin: int
    var productionEnd: int

    /** Every listed pattern starts with the production period and has no bit beyond the last. */
    ghost predicate PatternsValid()
      reads this, validityPatterns
    {
      && Distinct(validityPatterns)
      && forall p :: p in validityPatterns ==> p.beginningDate == productionBegin && InBits(p.days)
    }

    /** Every stop time belongs to one place in one journey; patterns are shared and listed. */
    ghost predicate Valid()
      reads this, validityPatterns, vehicleJourneys
    {
      && PatternsValid()
      && Distinct(vehicleJourneys)
      && (forall v :: v in vehicleJourneys ==> v.validityPattern in validityPatterns && Distinct(v.stopTimes))
      && (forall k, m :: 0 <= k < |vehicleJourneys| && 0 <= m < |vehicleJourneys[k].stopTimes| ==> vehicleJourneys[k].stopTimes[m] in stops)
      && (forall v, w, t :: v in vehicleJourneys && w in vehicleJourneys && t in v.stopTimes && t in w.stopTimes ==> v == w)
    }

    ghost predicate Holds(s: Schedule)
      requires Valid()
      reads this, validityPatterns, vehicleJourneys, stops
    {
      && productionBegin == s.begin
      && |vehicleJourneys| == |s.journeys|
      && forall k :: 0 <= k < |vehicleJourneys| ==> vehicleJourneys[k].Contents() == s.journeys[k]
    }

    /** All listed patterns keep their days, or all are moved to a period that starts the day before. */
    twostate predicate ProductionMoved(rebased: bool)
      reads this, validityPatterns
    {
      && old(validityPatterns) <= validityPatterns
      && productionBegin == old(productionBegin) - (if rebased then 1 else 0)
      && forall p :: p in old(validityPatterns) ==> p in validityPatterns && p.days == if rebased then Later(old(p.days)) else old(p.days)
    }

    /** The pattern with the same days, or a new one at the end of the list. */
    method GetOrCreateValidityPattern(vp: ValidityPattern) returns (pattern: ValidityPattern)
      requires PatternsValid() && vp.beginningDate == productionBegin && InBits(vp.days)
      modifies this`validityPatterns
      ensures PatternsValid()
      ensures pattern in validityPatterns && pattern.days == vp.days
      ensures if exists p :: p in old(validityPatterns) && p.days == vp.days then validityPatterns == old(validityPatterns)
              else validityPatterns == old(validityPatterns) + [pattern] && fresh(pattern)
    {
      for i := 0 to |validityPatterns|
        invariant validityPatterns == old(validityPatterns)
        invariant forall k :: 0 <= k < i ==> validityPatterns[k].days != vp.days
      {
        if validityPatterns[i].days == vp.days {
          return validityPatterns[i];
        }
      }
      pattern := new ValidityPattern(vp.days, vp.beginningDate);
      validityPatterns := validityPatterns + [pattern];
    }

    /**
     The same dates, one day earlier. When there is no room the production period starts a day
     earlier, and all listed patterns with it; the period never outgrows the bits.
     */
    method ShiftVpLeft(vp: ValidityPattern)
      requires PatternsValid() && vp !in validityPatterns
      requires vp.beginningDate == productionBegin && InBits(vp.days)
      modifies this`productionBegin, this`productionEnd, validityPatterns, vp
      ensures PatternsValid() && ProductionMoved(0 in old(vp.days))
      ensures vp.beginningDate == productionBegin && InBits(vp.days)
      ensures vp.days == ShiftedDays(old(vp.days), 1)
      ensures 0 !in old(vp.days) ==> productionEnd == old(productionEnd)
      ensures 0 in old(vp.days) ==>
                productionEnd == (if old(productionEnd) - productionBegin > BITS then productionBegin + 365 else old(productionEnd))
    {
      if 0 in vp.days {
        var beginDate, endDate := productionBegin - 1, productionEnd;
        if endDate - beginDate > 366 {
          endDate := beginDate + 365;
        }
        productionBegin, productionEnd := beginDate, endDate;
        for i := 0 to |validityPatterns|
          invariant productionBegin == beginDate && productionEnd == endDate && vp.days == old(vp.days)
          invariant forall k :: 0 <= k < i ==>
                      validityPatterns[k].days == Later(old(validityPatterns[k].days)) && validityPatterns[k].beginningDate == beginDate
          invariant forall k :: i <= k < |validityPatterns| ==>
                      validityPatterns[k].days == old(validityPatterns[k].days)
        {
          validityPatterns[i].days := Later(validityPatterns[i].days);
          validityPatterns[i].beginningDate := beginDate;
        }
        vp.beginningDate := beginDate;
        vp.days := Later(vp.days);
      }
      vp.days := Earlier(vp.days);
    }

    /** Gives the journey the pattern its shift asks for; false stands for the exception. */
    method ShiftPattern(vj: VehicleJourney, shift: int) returns (ok: bool)
      requires PatternsValid() && vj.validityPattern in validityPatterns
      modifies this`validityPatterns, this`productionBegin, this`productionEnd, validityPatterns, vj`validityPattern
      ensures ok <==> -1 <= shift <= 1
      ensures PatternsValid() && vj.validityPattern in validityPatterns
      ensures forall k :: 0 <= k < |validityPatterns| ==> validityPatterns[k] in old(validityPatterns) || fresh(validityPatterns[k])
      ensures ProductionMoved(ok && Rebases(old(vj.validityPattern.days), shift))
      ensures vj.validityPattern.days == if ok then ShiftedDays(old(vj.validityPattern.days), shift) else old(vj.validityPattern.days)
    {
      if shift == 0 {
        return true;
      }
      var vp := new ValidityPattern(vj.validityPattern.days, vj.validityPattern.beginningDate);
      if shift == 1 {
        ShiftVpLeft(vp);
      } else if shift == -1 {
        vp.days := Later(vp.days);
      } else {
        return false;
      }
      var pattern := GetOrCreateValidityPattern(vp);
      vj.validityPattern := pattern;
      ok := true;
    }

    /** One journey: its pattern, its stop times, and the times of a frequency journey. */
    method ShiftJourney(vj: VehicleJourney) returns (ok: bool)
      requires PatternsValid() && vj.validityPattern in validityPatterns && Distinct(vj.stopTimes)
      modifies this`validityPatterns, this`productionBegin, this`productionEnd, validityPatterns, vj, vj.stopTimes
      ensures ok <==> CanShift(old(vj.Contents()))
      ensures PatternsValid() && vj.validityPattern in validityPatterns
      ensures forall k :: 0 <= k < |validityPatterns| ==> validityPatterns[k] in old(validityPatterns) || fresh(validityPatterns[k])
      ensures ProductionMoved(ok && Rebases(old(vj.validityPattern.days), ShiftOf(old(vj.Contents()))))
      ensures vj.Contents() == if ok then Normalised(old(vj.Contents())) else old(vj.Contents())
    {
      if vj.stopTimes == [] {
        return true;
      }
      var shift := ShiftFor(StartOf(vj.Contents()));
      ok := ShiftPattern(vj, shift);
      if ok {
        vj.ShiftTimes(shift);
      }
    }

    /** The next journey to shift. */
    method ShiftNext(i: nat, ghost s: Schedule) returns (ok: bool)
      requires Valid() && Holds(s) && i < |vehicleJourneys|
      modifies this`validityPatterns, this`productionBegin, this`productionEnd, validityPatterns, vehicleJourneys, stops
      ensures Valid() && forall k :: 0 <= k < |validityPatterns| ==> validityPatterns[k] in old(validityPatterns) || fresh(validityPatterns[k])
      ensures ok <==> CanShift(s.journeys[i])
      ensures Holds(if ok then Step(s, i) else s)
    {
      var vj := vehicleJourneys[i];
      ok := ShiftJourney(vj);
      ghost var r := if ok then Step(s, i) else s;
      forall k | 0 <= k < |vehicleJourneys| && k != i
        ensures vehicleJourneys[k].Contents() == r.journeys[k]
      {
        var w := vehicleJourneys[k];
        forall m | 0 <= m < |w.stopTimes|
          ensures w.stopTimes[m].Times() == old(w.stopTimes[m].Times())
        {
          assert w.stopTimes[m] in w.stopTimes && w.stopTimes[m] !in vj.stopTimes;
        }
        assert TimesOf(w.stopTimes) == old(TimesOf(w.stopTimes));
      }
    }

    /** Every listed day fits the bits. */
    lemma HoldsInBits(s: Schedule)
      requires Valid() && Holds(s)
      ensures AllInBits(s)
    {
      forall j | j in s.journeys
        ensures InBits(j.days)
      {
        var k :| 0 <= k < |s.journeys| && s.journeys[k] == j;
        assert vehicleJourneys[k] in vehicleJourneys && vehicleJourneys[k].Contents() == j;
      }
    }

    /** Every frequency among the first `n` journeys starts between midnight and midnight. */
    ghost predicate FrequenciesStartToday(n: nat)
      reads this, vehicleJourneys
    {
      n <= |vehicleJourneys| && forall k :: 0 <= k < n && vehicleJourneys[k].stopTimes != [] && vehicleJourneys[k].startTime != NO_START ==>
        0 <= vehicleJourneys[k].startTime < 86400 && 0 <= vehicleJourneys[k].endTime
    }

    lemma RunStartsFrequencies(s: Schedule, n: nat)
      requires n <= |s.journeys| && Valid() && Holds(Run(s, n)) && AllCanShift(s, n)
      ensures FrequenciesStartToday(n)
    {
      forall k | 0 <= k < n && vehicleJourneys[k].stopTimes != [] && vehicleJourneys[k].startTime != NO_START
        ensures 0 <= vehicleJourneys[k].startTime < 86400 && 0 <= vehicleJourneys[k].endTime
      {
        var r := Run(s, n).journeys[k];
        assert vehicleJourneys[k].Contents() == r;
        RunTimes(s, n, k);
        assert CanShift(s.journeys[k]) && s.journeys[k].stops != [];
        FrequencyAfterRun(s, n, k);
      }
    }

    /**
     Shifts every journey in turn. False stands for the exception "more than one day", thrown at
     the first journey that cannot be shifted.
     */
    method ShiftStopTimes(ghost s: Schedule) returns (ok: bool, ghost upTo: nat)
      requires Valid() && Holds(s)
      modifies this`validityPatterns, this`productionBegin, this`productionEnd, validityPatterns, vehicleJourneys, stops
      ensures Valid() && forall k :: 0 <= k < |validityPatterns| ==> validityPatterns[k] in old(validityPatterns) || fresh(validityPatterns[k])
      ensures upTo <= |s.journeys| && AllCanShift(s, upTo) && Holds(Run(s, upTo))
      ensures if ok then upTo == |s.journeys| else upTo < |s.journeys| && !CanShift(s.journeys[upTo])
      ensures FrequenciesStartToday(upTo)
    {
      HoldsInBits(s);
      ghost var r := s;
      upTo := 0;
      var i := 0;
      while i < |vehicleJourneys|
        invariant upTo == i <= |vehicleJourneys| == |s.journeys|
        invariant Valid() && forall k :: 0 <= k < |validityPatterns| ==> validityPatterns[k] in old(validityPatterns) || fresh(validityPatterns[k])
        invariant AllCanShift(s, i) && r == Run(s, i) && Holds(r)
      {
        CanShiftOn(s, i);
        ok := ShiftNext(i, r);
        if !ok {
          RunStartsFrequencies(s, i);
          return false, i;
        }
        r := Step(r, i);
        i, upTo := i + 1, i + 1;
      }
      RunStartsFrequencies(s, i);
      ok := true;
    }
  }
}
