/** Origin-destination tickets: which pair applies to a journey, and what the sum of its parts costs. */
module FareTickets {
  import opened Basics
  import opened FareTypes

  // ---------- the pair that applies ----------

  function DestinationKeys(s: Section): seq<ODKey> {
    [ODKey(StopArea, s.destStopArea), ODKey(Mode, s.mode), ODKey(Zone, s.destZone)]
  }

  function OriginKeys(l: Label): seq<ODKey> {
    [ODKey(StopArea, l.stopArea), ODKey(Mode, l.mode), ODKey(Zone, l.zone)]
  }

  /** The destination is looked up by stop area, then by mode, then by zone. */
  function DestinationList(m: map<ODKey, seq<string>>, s: Section): Option<seq<string>> {
    var d := DestinationKeys(s);
    if d[0] in m then Some(m[d[0]]) else if d[1] in m then Some(m[d[1]]) else if d[2] in m then Some(m[d[2]]) else None
  }

  function ListFrom(f: Fare, origin: ODKey, s: Section): Option<seq<string>> {
    if origin in f.odTickets then DestinationList(f.odTickets[origin], s) else None
  }

  /** An origin key without a matching destination does not end the search. */
  function ODList(f: Fare, l: Label, s: Section): Option<seq<string>> {
    var o := OriginKeys(l);
    var byStopArea := ListFrom(f, o[0], s);
    if byStopArea.Some? then byStopArea else
    var byMode := ListFrom(f, o[1], s);
    if byMode.Some? then byMode else ListFrom(f, o[2], s)
  }

  /** The pairs of origin and destination keys in the order of preference. */
  function Pairs(l: Label, s: Section): (r: seq<(ODKey, ODKey)>)
    ensures |r| == 9
  {
    [(ODKey(StopArea, l.stopArea), ODKey(StopArea, s.destStopArea)),
     (ODKey(StopArea, l.stopArea), ODKey(Mode, s.mode)),
     (ODKey(StopArea, l.stopArea), ODKey(Zone, s.destZone)),
     (ODKey(Mode, l.mode), ODKey(StopArea, s.destStopArea)),
     (ODKey(Mode, l.mode), ODKey(Mode, s.mode)),
     (ODKey(Mode, l.mode), ODKey(Zone, s.destZone)),
     (ODKey(Zone, l.zone), ODKey(StopArea, s.destStopArea)),
     (ODKey(Zone, l.zone), ODKey(Mode, s.mode)),
     (ODKey(Zone, l.zone), ODKey(Zone, s.destZone))]
  }

  predicate Matches(f: Fare, l: Label, s: Section, rank: nat)
    requires rank < 9
  {
    var (o, d) := Pairs(l, s)[rank];
    o in f.odTickets && d in f.odTickets[o]
  }

  function ListAt(f: Fare, l: Label, s: Section, rank: nat): seq<string>
    requires rank < 9 && Matches(f, l, s, rank)
  {
    f.odTickets[Pairs(l, s)[rank].0][Pairs(l, s)[rank].1]
  }

  /** The list found is that of the first matching pair, origin first, and there is none only if no pair matches. */
  lemma ODListIsFirstMatch(f: Fare, l: Label, s: Section, rank: nat)
    requires rank < 9
    ensures ODList(f, l, s) == None ==> !Matches(f, l, s, rank)
    ensures Matches(f, l, s, rank) && (forall r: nat :: r < rank ==> !Matches(f, l, s, r)) ==>
              ODList(f, l, s) == Some(ListAt(f, l, s, rank))
  {
    if Matches(f, l, s, rank) && forall r: nat :: r < rank ==> !Matches(f, l, s, r) {
      assert rank > 0 ==> !Matches(f, l, s, 0);
      assert rank > 1 ==> !Matches(f, l, s, 1);
      assert rank > 2 ==> !Matches(f, l, s, 2);
      assert rank > 3 ==> !Matches(f, l, s, 3);
      assert rank > 4 ==> !Matches(f, l, s, 4);
      assert rank > 5 ==> !Matches(f, l, s, 5);
      assert rank > 6 ==> !Matches(f, l, s, 6);
      assert rank > 7 ==> !Matches(f, l, s, 7);
    }
  }

  // ---------- the sum of its parts ----------

  /** Period by period, keeping everything of the left ticket but its value. */
  function SumDates(a: DateTicket, b: DateTicket): (r: DateTicket)
    ensures |r| == |a|
  {
    seq(|a|, i requires 0 <= i < |a| =>
      if i < |b| then a[i].(ticket := a[i].ticket.(value := Add(a[i].ticket.value, b[i].ticket.value))) else a[i])
  }

  method PlusDates(a: DateTicket, b: DateTicket) returns (sum: DateTicket)
    ensures sum == SumDates(a, b)
  {
    sum := a;
    var n := if |a| < |b| then |a| else |b|;
    for i := 0 to n
      invariant |sum| == |a|
      invariant forall k :: 0 <= k < |a| ==> sum[k] == if k < i then SumDates(a, b)[k] else a[k]
    {
      sum := sum[i := sum[i].(ticket := sum[i].ticket.(value := Add(b[i].ticket.value, a[i].ticket.value)))];
    }
  }

  /** A key without a ticket counts as a ticket without periods. */
  function Component(f: Fare, key: string): DateTicket {
    if key in f.fareMap then f.fareMap[key] else []
  }

  function SumAll(f: Fare, keys: seq<string>): DateTicket
    requires keys != []
  {
    if |keys| == 1 then Component(f, keys[0])
    else SumDates(SumAll(f, keys[..|keys| - 1]), Component(f, keys[|keys| - 1]))
  }

  /** None stands for `no_ticket`. */
  function ODTicket(f: Fare, l: Label, s: Section): Option<DateTicket>
    requires Loaded(f)
  {
    match ODList(f, l, s)
    case None => None
    case Some(keys) => (ListsAreNonEmpty(f, l, s); Some(SumAll(f, keys)))
  }

  lemma ListsAreNonEmpty(f: Fare, l: Label, s: Section)
    requires Loaded(f)
    ensures ODList(f, l, s).Some? ==> ODList(f, l, s).value != []
  {
  }

  method GetOd(f: Fare, l: Label, s: Section) returns (ticket: Option<DateTicket>)
    requires Loaded(f)
    ensures ticket == ODTicket(f, l, s)
  {
    var od := ODList(f, l, s);
    if od.None? {
      return None;
    }
    ListsAreNonEmpty(f, l, s);
    var keys := od.value;
    var sum: DateTicket := [];
    if keys[0] in f.fareMap {
      sum := f.fareMap[keys[0]];
    }
    assert keys[..1][0] == keys[0];
    for i := 1 to |keys|
      invariant sum == SumAll(f, keys[..i])
    {
      assert keys[..i + 1][..i] == keys[..i];
      if keys[i] in f.fareMap {
        sum := PlusDates(sum, f.fareMap[keys[i]]);
      } else {
        sum := PlusDates(sum, []);
      }
    }
    assert keys[..|keys|] == keys;
    ticket := Some(sum);
  }

  /** Nothing but the values of the first component's tickets changes. */
  lemma {:induction false} SumKeepsTickets(f: Fare, keys: seq<string>)
    requires Loaded(f) && keys != []
    ensures var sum, first := SumAll(f, keys), Component(f, keys[0]);
            |sum| == |first| &&
            forall i :: 0 <= i < |sum| ==> sum[i].period == first[i].period && sum[i].ticket == first[i].ticket.(value := sum[i].ticket.value)
                                           && sum[i].ticket.sections == []
  {
    if |keys| > 1 {
      SumKeepsTickets(f, keys[..|keys| - 1]);
    } else if keys[0] in f.fareMap {
      forall i | 0 <= i < |Component(f, keys[0])|
        ensures Component(f, keys[0])[i].ticket.sections == []
      {
        assert Component(f, keys[0])[i] in f.fareMap[keys[0]];
      }
    }
  }

  /** The same periods, one by one. */
  ghost predicate SamePeriods(a: DateTicket, b: DateTicket) {
    |a| == |b| && forall i :: 0 <= i < |a| ==> a[i].period == b[i].period
  }

  lemma {:induction false} SumOnDate(a: DateTicket, b: DateTicket, date: Date)
    requires SamePeriods(a, b)
    ensures GetFare(SumDates(a, b), date).Some? <==> GetFare(a, date).Some?
    ensures GetFare(b, date).Some? <==> GetFare(a, date).Some?
    ensures GetFare(a, date).Some? ==>
              GetFare(SumDates(a, b), date).value.value == Add(GetFare(a, date).value.value, GetFare(b, date).value.value)
  {
    if a != [] && !Contains(a[0].period, date) {
      SumOnDate(a[1..], b[1..], date);
      assert SumDates(a, b)[1..] == SumDates(a[1..], b[1..]);
    }
  }

  /** The sum of the components' prices on a date; None when a component has no price on it. */
  function PriceOfAll(f: Fare, keys: seq<string>, date: Date): Option<Cost>
    requires keys != []
  {
    var last := GetFare(Component(f, keys[|keys| - 1]), date);
    if last.None? then None
    else if |keys| == 1 then Some(last.value.value)
    else
      var before := PriceOfAll(f, keys[..|keys| - 1], date);
      if before.None? then None else Some(Add(before.value, last.value.value))
  }

  /** With the same periods everywhere the price of the sum is the sum of the prices. */
  lemma {:induction false} ODPriceIsAdditive(f: Fare, keys: seq<string>, date: Date)
    requires keys != []
    requires forall k :: k in keys ==> SamePeriods(Component(f, k), Component(f, keys[0]))
    ensures SamePeriods(SumAll(f, keys), Component(f, keys[0]))
    ensures GetFare(SumAll(f, keys), date).Some? <==> PriceOfAll(f, keys, date).Some?
    ensures PriceOfAll(f, keys, date).Some? ==> GetFare(SumAll(f, keys), date).value.value == PriceOfAll(f, keys, date).value
  {
    if |keys| > 1 {
      var n := |keys| - 1;
      ODPriceIsAdditive(f, keys[..n], date);
      assert keys[n] in keys;
      SumOnDate(SumAll(f, keys[..n]), Component(f, keys[n]), date);
    }
  }
}
