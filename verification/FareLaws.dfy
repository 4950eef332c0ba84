/** The fare of a journey: the ledger every run keeps, and why the returned label is the best run. */
module FareLaws {
  import opened Basics
  import opened FareTypes
  import opened FareTickets
  import opened FareEngine
  import opened FareRuns

  // ---------- the ledger ----------

  function AllSections(tickets: seq<Ticket>): seq<Section> {
    if tickets == [] then [] else AllSections(tickets[..|tickets| - 1]) + tickets[|tickets| - 1].sections
  }

  function Price(tickets: seq<Ticket>): Cost {
    if tickets == [] then Cost(0, false) else Add(Price(tickets[..|tickets| - 1]), tickets[|tickets| - 1].value)
  }

  function UndefinedIn(tickets: seq<Ticket>): nat {
    if tickets == [] then 0
    else UndefinedIn(tickets[..|tickets| - 1]) + if tickets[|tickets| - 1].value.undefined then 1 else 0
  }

  /** All tickets, but for the origin-destination ticket that is still open. */
  function Paid(l: Label): seq<Ticket> {
    if l.currentType == ODFare && l.tickets != [] then l.tickets[..|l.tickets| - 1] else l.tickets
  }

  /**
   Every section is on exactly one ticket, in order; the cost is what the paid tickets cost; the
   counters describe the last ticket.
   */
  ghost predicate Ledger(l: Label, ss: seq<Section>) {
    && AllSections(l.tickets) == ss
    && l.cost == Price(Paid(l))
    && (ss == [] ==> l.tickets == [])
    && (ss != [] ==>
          && l.tickets != [] && Last(l).sections != []
          && l.nbChanges == |Last(l).sections| - 1
          && l.startTime == Last(l).sections[0].startTime)
  }

  ghost predicate AllNamed(ss: seq<Section>) {
    forall s :: s in ss ==> s.startStopArea != ""
  }

  lemma BuyLedger(l: Label, ss: seq<Section>, ticket: Ticket, s: Section, m: Label)
    requires Ledger(l, ss) && l.currentType != ODFare && ticket.sections == []
    requires m.tickets == l.tickets + [ticket.(sections := [s])]
    requires m.nbChanges == 0 && m.startTime == s.startTime
    requires m.cost == if m.currentType == ODFare then l.cost else Add(l.cost, ticket.value)
    ensures Ledger(m, ss + [s])
    ensures Paid(m) == if m.currentType == ODFare then Paid(l) else Paid(l) + [ticket.(sections := [s])]
  {
    assert m.tickets[..|m.tickets| - 1] == l.tickets;
  }

  lemma RideLedger(l: Label, ss: seq<Section>, last: Ticket, s: Section, m: Label)
    requires Ledger(l, ss) && l.tickets != [] && ss != []
    requires last.sections == Last(l).sections + [s]
    requires m.tickets == l.tickets[|l.tickets| - 1 := last]
    requires m.nbChanges == l.nbChanges + 1 && m.startTime == l.startTime
    requires m.cost == Price(Paid(m))
    ensures Ledger(m, ss + [s])
  {
    assert m.tickets[..|m.tickets| - 1] == l.tickets[..|l.tickets| - 1];
    assert AllSections(l.tickets[..|l.tickets| - 1]) + (Last(l).sections + [s]) == AllSections(l.tickets) + [s];
  }

  lemma PriceIgnoresSections(tickets: seq<Ticket>, t: Ticket)
    requires tickets != [] && t.value == tickets[|tickets| - 1].value
    ensures Price(tickets[|tickets| - 1 := t]) == Price(tickets)
    ensures UndefinedIn(tickets[|tickets| - 1 := t]) == UndefinedIn(tickets)
  {
    assert tickets[|tickets| - 1 := t][..|tickets| - 1] == tickets[..|tickets| - 1];
  }

  lemma BoughtStep(l: Label, ss: seq<Section>, ticket: Ticket, s: Section)
    requires Ledger(l, ss) && ticket.sections == [] && l.currentType != ODFare
    requires ticket.kind == ODFare || !IsChange(ticket)
    ensures NextLabel(l, ticket, s).Some?
    ensures Ledger(NextLabel(l, ticket, s).value, ss + [s])
    ensures l.nbUndefined == UndefinedIn(Paid(l)) ==>
              NextLabel(l, ticket, s).value.nbUndefined == UndefinedIn(Paid(NextLabel(l, ticket, s).value))
  {
    var m := NextLabel(l, ticket, s).value;
    assert ticket.sections + [s] == [s];
    BuyLedger(l, ss, ticket, s, m);
    assert m.tickets[..|m.tickets| - 1] == l.tickets;
  }

  lemma RiddenStep(l: Label, ss: seq<Section>, ticket: Ticket, s: Section)
    requires Ledger(l, ss) && l.tickets != []
    requires l.currentType == ODFare <==> ticket.kind == ODFare
    requires if ticket.kind == ODFare then l.stopArea != "" else IsChange(ticket)
    ensures NextLabel(l, ticket, s).Some?
    ensures Ledger(NextLabel(l, ticket, s).value, ss + [s])
    ensures l.nbUndefined == UndefinedIn(Paid(l)) ==>
              NextLabel(l, ticket, s).value.nbUndefined == UndefinedIn(Paid(NextLabel(l, ticket, s).value))
  {
    var m := NextLabel(l, ticket, s).value;
    assert m.tickets[..|m.tickets| - 1] == l.tickets[..|l.tickets| - 1];
    PriceIgnoresSections(l.tickets, Last(m));
    RideLedger(l, ss, Last(m), s, m);
  }

  /** A transition, bought or ridden, keeps the ledger. */
  lemma StepLedger(l: Label, ss: seq<Section>, ticket: Ticket, s: Section)
    requires Ledger(l, ss) && ticket.sections == []
    requires l.currentType == ODFare ==> l.tickets != [] && l.stopArea != "" && ticket.kind == ODFare
    requires NextLabel(l, ticket, s).Some?
    ensures Ledger(NextLabel(l, ticket, s).value, ss + [s])
    ensures l.nbUndefined == UndefinedIn(Paid(l)) ==>
              NextLabel(l, ticket, s).value.nbUndefined == UndefinedIn(Paid(NextLabel(l, ticket, s).value))
  {
    if l.currentType == ODFare || (ticket.kind != ODFare && IsChange(ticket)) {
      RiddenStep(l, ss, ticket, s);
    } else {
      BoughtStep(l, ss, ticket, s);
    }
  }

  /** Settling pays for the open ticket and keeps its sections. */
  lemma SettleLedger(l: Label, ss: seq<Section>, ticket: Ticket, od: Ticket, s: Section)
    requires Ledger(l, ss) && ticket.sections == [] && od.sections == [] && ticket.kind == ODFare
    requires l.currentType == ODFare ==> l.tickets != [] && l.stopArea != ""
    requires NextLabel(l, ticket, s).Some?
    ensures var next := NextLabel(l, ticket, s).value;
            next.tickets != [] && Ledger(Settled(next, l, od, s), ss + [s])
    ensures var next := NextLabel(l, ticket, s).value;
            l.nbUndefined == UndefinedIn(Paid(l)) && !od.value.undefined ==>
              Settled(next, l, od, s).nbUndefined == UndefinedIn(Paid(Settled(next, l, od, s)))
  {
    StepLedger(l, ss, ticket, s);
    var next := NextLabel(l, ticket, s).value;
    var m := Settled(next, l, od, s);
    assert Last(m).sections == Last(next).sections;
    assert m.tickets[..|m.tickets| - 1] == next.tickets[..|next.tickets| - 1];
  }

  // ---------- the ledger along every run ----------

  /** Every ticket an origin-destination list can lead to has a price. */
  ghost predicate ODPricesDefined(f: Fare) {
    forall o, d, k, p :: o in f.odTickets && d in f.odTickets[o] && k in f.odTickets[o][d] && p in Component(f, k) ==>
      !p.ticket.value.undefined
  }

  lemma {:induction false} SumIsDefined(f: Fare, keys: seq<string>)
    requires keys != [] && forall k, p :: k in keys && p in Component(f, k) ==> !p.ticket.value.undefined
    ensures forall i :: 0 <= i < |SumAll(f, keys)| ==> !SumAll(f, keys)[i].ticket.value.undefined
  {
    var n := |keys| - 1;
    assert keys[n] in keys;
    var last := Component(f, keys[n]);
    assert forall i :: 0 <= i < |last| ==> last[i] in last;
    if n > 0 {
      SumIsDefined(f, keys[..n]);
    }
  }

  lemma ODListIsLoaded(f: Fare, l: Label, s: Section)
    requires ODList(f, l, s).Some?
    ensures exists o, d :: o in f.odTickets && d in f.odTickets[o] && f.odTickets[o][d] == ODList(f, l, s).value
  {
  }

  /** The ticket an open label is settled with has no sections yet, and a price if all have one. */
  lemma ODTicketIsClean(f: Fare, l: Label, s: Section, od: Ticket)
    requires Loaded(f) && ODTicket(f, l, s).Some?
    requires GetFare(ODTicket(f, l, s).value, s.date) == Some(od)
    ensures od.sections == []
    ensures ODPricesDefined(f) ==> !od.value.undefined
  {
    var keys := ODList(f, l, s).value;
    ListsAreNonEmpty(f, l, s);
    var sum := SumAll(f, keys);
    SumKeepsTickets(f, keys);
    FoundIsThere(sum, s.date);
    if ODPricesDefined(f) {
      ODListIsLoaded(f, l, s);
      SumIsDefined(f, keys);
    }
  }

  lemma ChooseKeepsLedger(f: Fare, ss: seq<Section>, place: Place, s: Section, choice: Choice)
    requires Loaded(f) && s.startStopArea != ""
    requires Proper(place.at, place.node) && Ledger(place.at, ss)
    requires Choose(f, place, s, choice).Some?
    ensures var p := Choose(f, place, s, choice).value; Proper(p.at, p.node) && Ledger(p.at, ss + [s])
    ensures var p := Choose(f, place, s, choice).value;
            ODPricesDefined(f) && place.at.nbUndefined == UndefinedIn(Paid(place.at)) ==> p.at.nbUndefined == UndefinedIn(Paid(p.at))
  {
    var e := f.edges[choice.edge];
    assert e in f.edges;
    var ticket := TicketOnEdge(f, e.transition, s.date);
    TicketIsSellable(f, e.transition, s.date);
    EnabledSteps(f, e, place.at, s);
    StepLedger(place.at, ss, ticket, s);
    var next := NextLabel(place.at, ticket, s).value;
    if choice.Settle? && (place.at.currentType == ODFare || ticket.kind == ODFare) {
      var od := GetFare(ODTicket(f, next, s).value, s.date).value;
      ODTicketIsClean(f, next, s, od);
      SettleLedger(place.at, ss, ticket, od, s);
    }
  }

  lemma ImposeKeepsLedger(f: Fare, i: nat, ss: seq<Section>, place: Place, s: Section, choice: Choice)
    requires Loaded(f)
    requires Proper(place.at, place.node) && Ledger(place.at, ss)
    requires Impose(f, i, place, s, choice).Some?
    ensures var p := Impose(f, i, place, s, choice).value; Proper(p.at, p.node) && Ledger(p.at, ss + [s])
    ensures var p := Impose(f, i, place, s, choice).value;
            place.at.nbUndefined == UndefinedIn(Paid(place.at)) ==> p.at.nbUndefined == UndefinedIn(Paid(p.at))
  {
    TicketIsSellable(f, f.edges[i].transition, s.date);
    StepLedger(place.at, ss, TicketFor(f, f.edges[i].transition, s.date), s);
  }

  /** Every run keeps the ledger, whatever it chooses. */
  lemma {:induction false} RunKeepsLedger(f: Fare, ss: seq<Section>, run: seq<Choice>)
    requires Loaded(f) && AllNamed(ss) && After(f, ss, run).Some?
    ensures var p := After(f, ss, run).value; Proper(p.at, p.node) && Ledger(p.at, ss)
    ensures var p := After(f, ss, run).value; ODPricesDefined(f) ==> p.at.nbUndefined == UndefinedIn(Paid(p.at))
    decreases |ss|
  {
    if ss != [] {
      var k := |ss| - 1;
      var init, s, choice := ss[..k], ss[k], run[k];
      assert init + [s] == ss && s in ss;
      RunKeepsLedger(f, init, run[..k]);
      var place := After(f, init, run[..k]).value;
      assert After(f, ss, run) == Next(f, init, place, s, choice);
      NextKeepsLedger(f, init, place, s, choice);
    }
  }

  lemma NextKeepsLedger(f: Fare, ss: seq<Section>, place: Place, s: Section, choice: Choice)
    requires Loaded(f) && s.startStopArea != ""
    requires Proper(place.at, place.node) && Ledger(place.at, ss)
    requires Next(f, ss, place, s, choice).Some?
    ensures var p := Next(f, ss, place, s, choice).value; Proper(p.at, p.node) && Ledger(p.at, ss + [s])
    ensures var p := Next(f, ss, place, s, choice).value;
            ODPricesDefined(f) && place.at.nbUndefined == UndefinedIn(Paid(place.at)) ==> p.at.nbUndefined == UndefinedIn(Paid(p.at))
  {
    match ImposedEdge(f, ss, s)
    case Some(i) => ImposeKeepsLedger(f, i, ss, place, s, choice);
    case None => ChooseKeepsLedger(f, ss, place, s, choice);
  }

  // ---------- the result ----------

  datatype Results = Results(tickets: seq<Ticket>, total: Cost, notFound: bool)

  const NO_RESULT := Results([], Cost(0, true), true)

  function ResultOf(l: Label): Results {
    Results(l.tickets, l.cost, l.nbUndefined != 0)
  }

  /** As few undefined tickets; then as cheap, as few tickets and as few changes, in this order. */
  ghost predicate NoWorse(l: Label, m: Label) {
    && l.nbUndefined <= m.nbUndefined
    && (l.nbUndefined == m.nbUndefined ==> l.cost.value <= m.cost.value)
    && (l.nbUndefined == m.nbUndefined && l.cost.value == m.cost.value ==> |l.tickets| <= |m.tickets|)
    && (l.nbUndefined == m.nbUndefined && l.cost.value == m.cost.value && |l.tickets| == |m.tickets| ==> l.nbChanges <= m.nbChanges)
  }

  lemma NotBetterIsNoWorse(l: Label, m: Label)
    ensures !Better(m, l) <==> NoWorse(l, m)
  {
  }

  /** The cost of tickets is the sum of all their values, undefined as soon as one of them is. */
  lemma {:induction false} PriceMeans(tickets: seq<Ticket>)
    ensures Price(tickets).value == SumOfValues(tickets)
    ensures Price(tickets).undefined <==> exists i :: 0 <= i < |tickets| && tickets[i].value.undefined
    ensures UndefinedIn(tickets) > 0 <==> exists i :: 0 <= i < |tickets| && tickets[i].value.undefined
  {
    if tickets != [] {
      var n := |tickets| - 1;
      PriceMeans(tickets[..n]);
      if i :| 0 <= i < |tickets| && tickets[i].value.undefined {
        assert i == n || tickets[..n][i].value.undefined;
      }
    }
  }

  function SumOfValues(tickets: seq<Ticket>): int {
    if tickets == [] then 0 else SumOfValues(tickets[..|tickets| - 1]) + tickets[|tickets| - 1].value.value
  }

  /** The first of the labels no other label is better than. */
  method FindBestLabel(labels: seq<Label>) returns (result: Results, ghost best: nat)
    ensures labels == [] ==> result == NO_RESULT
    ensures labels != [] ==> best < |labels| && result == ResultOf(labels[best])
    ensures labels != [] ==> forall j :: 0 <= j < |labels| ==> NoWorse(labels[best], labels[j])
    ensures labels != [] ==> forall j :: 0 <= j < best ==> !NoWorse(labels[j], labels[best])
  {
    result := NO_RESULT;
    best := 0;
    var bestLabel: Option<Label> := None;
    for i := 0 to |labels|
      invariant bestLabel.None? <==> i == 0
      invariant i == 0 ==> result == NO_RESULT
      invariant i > 0 ==> best < i && bestLabel == Some(labels[best]) && result == ResultOf(labels[best])
      invariant i > 0 ==> forall j :: 0 <= j < i ==> !Better(labels[j], labels[best])
      invariant i > 0 ==> forall j :: 0 <= j < best ==> Better(labels[best], labels[j])
    {
      if bestLabel.None? || Better(labels[i], bestLabel.value) {
        result := ResultOf(labels[i]);
        bestLabel := Some(labels[i]);
        best := i;
      }
    }
    forall j | 0 <= j < |labels|
      ensures NoWorse(labels[best], labels[j]) && (j < best ==> !NoWorse(labels[j], labels[best]))
    {
      NotBetterIsNoWorse(labels[best], labels[j]);
      NotBetterIsNoWorse(labels[j], labels[best]);
    }
  }

  /** A part of a journey: a ride, or anything else, which costs nothing here. */
  datatype Item = Ride(section: Section) | Other

  /** The rides, each knowing its position in the journey. */
  function SectionsOf(items: seq<Item>): seq<Section> {
    if items == [] then []
    else
      var n := |items| - 1;
      SectionsOf(items[..n]) + if items[n].Ride? then [items[n].section.(pathItemIdx := n)] else []
  }

  /** `l` ends a run at the begin node, and no run ends there better. */
  ghost predicate IsBestRun(f: Fare, ss: seq<Section>, l: Label)
    requires Loaded(f)
  {
    Ends(f, ss, 0, l) && forall m :: Ends(f, ss, 0, m) ==> NoWorse(l, m)
  }

  /** The tickets of a run, what they cost together, and whether one of them has no price. */
  ghost predicate Reports(result: Results, l: Label) {
    && result.tickets == l.tickets
    && result.total.value == SumOfValues(l.tickets)
    && (result.total.undefined <==> exists i :: 0 <= i < |l.tickets| && l.tickets[i].value.undefined)
    && (result.notFound <==> l.nbUndefined > 0)
  }

  /** No run with as few undefined tickets costs less; none of those that cost the same has fewer tickets. */
  lemma BestIsCheapest(f: Fare, ss: seq<Section>, l: Label, m: Label)
    requires Loaded(f) && AllNamed(ss) && IsBestRun(f, ss, l) && Ends(f, ss, 0, m)
    ensures Reports(ResultOf(l), l)
    ensures l.nbUndefined <= m.nbUndefined
    ensures l.nbUndefined == m.nbUndefined ==> SumOfValues(l.tickets) <= SumOfValues(m.tickets)
    ensures l.nbUndefined == m.nbUndefined && SumOfValues(l.tickets) == SumOfValues(m.tickets) ==> |l.tickets| <= |m.tickets|
    ensures l.nbUndefined == m.nbUndefined && SumOfValues(l.tickets) == SumOfValues(m.tickets) && |l.tickets| == |m.tickets| ==>
              l.nbChanges <= m.nbChanges
  {
    BeginIsPaid(f, ss, l);
    BeginIsPaid(f, ss, m);
    PriceMeans(l.tickets);
    PriceMeans(m.tickets);
    assert NoWorse(l, m);
  }

  /**
   The cheapest run: fewest undefined tickets, then least total, then fewest tickets and changes.
   Without fare data there is no result.
   */
  method ComputeFare(f: Fare, items: seq<Item>) returns (result: Results)
    requires |f.states| >= 2 ==> Loaded(f)
    requires AllNamed(SectionsOf(items))
    ensures |f.states| < 2 ==> result == NO_RESULT
    ensures |f.states| >= 2 ==> exists l :: IsBestRun(f, SectionsOf(items), l) && Reports(result, l)
    ensures |f.states| >= 2 ==> forall m :: Ends(f, SectionsOf(items), 0, m) ==>
              && (result.notFound || m.nbUndefined > 0 || result.total.value <= SumOfValues(m.tickets))
              && (result.notFound ==> m.nbUndefined > 0)
  {
    if |f.states| < 2 {
      return NO_RESULT;
    }
    var labels := seq(|f.states|, _ => []);
    labels := labels[0 := [FIRST_LABEL]];
    FirstLabelsRepresent(f, labels);
    var sectionIdx := 0;
    for i := 0 to |items|
      invariant sectionIdx == i
      invariant Consistent(f, labels) && Represents(f, SectionsOf(items[..i]), labels)
      invariant labels[0] != []
    {
      assert items[..i + 1][..i] == items[..i];
      if items[i] == Other {
        sectionIdx := sectionIdx + 1;
        assert SectionsOf(items[..i + 1]) == SectionsOf(items[..i]);
      } else {
        var section := items[i].section.(pathItemIdx := sectionIdx);
        sectionIdx := sectionIdx + 1;
        NamedSoFar(items, i);
        var more := ComputeLabels(f, labels, section);
        AdvanceKeepsConsistent(f, labels, section, more);
        AdvanceRepresents(f, SectionsOf(items[..i]), labels, section, more);
        assert SectionsOf(items[..i + 1]) == SectionsOf(items[..i]) + [section];
        labels := more;
      }
    }
    assert items[..|items|] == items;
    ghost var best;
    result, best := FindBestLabel(labels[0]);
    assert labels[0][best] in labels[0];
    assert IsBestRun(f, SectionsOf(items), labels[0][best]);
    BestIsReported(f, SectionsOf(items), labels[0][best]);
  }

  lemma BestIsReported(f: Fare, ss: seq<Section>, l: Label)
    requires Loaded(f) && AllNamed(ss) && IsBestRun(f, ss, l)
    ensures Reports(ResultOf(l), l)
    ensures forall m :: Ends(f, ss, 0, m) ==>
              && (l.nbUndefined > 0 || m.nbUndefined > 0 || l.cost.value <= SumOfValues(m.tickets))
              && (l.nbUndefined > 0 ==> m.nbUndefined > 0)
  {
    BestIsCheapest(f, ss, l, l);
    forall m | Ends(f, ss, 0, m)
      ensures l.nbUndefined > 0 || m.nbUndefined > 0 || l.cost.value <= SumOfValues(m.tickets)
      ensures l.nbUndefined > 0 ==> m.nbUndefined > 0
    {
      BestIsCheapest(f, ss, l, m);
    }
  }

  lemma {:induction false} NamedSoFar(items: seq<Item>, i: nat)
    requires i < |items| && AllNamed(SectionsOf(items)) && items[i].Ride?
    ensures items[i].section.startStopArea != ""
    decreases |items|
  {
    var n := |items| - 1;
    if i == n {
      assert items[i].section.(pathItemIdx := n) in SectionsOf(items);
    } else {
      assert forall s :: s in SectionsOf(items[..n]) ==> s in SectionsOf(items);
      NamedSoFar(items[..n], i);
    }
  }

  /** The price is reported as not found exactly when every run needs a ticket of undefined price. */
  lemma NotFoundIsExact(f: Fare, ss: seq<Section>, l: Label)
    requires Loaded(f) && ODPricesDefined(f) && AllNamed(ss) && IsBestRun(f, ss, l)
    ensures !ResultOf(l).notFound <==> exists m :: Ends(f, ss, 0, m) && UndefinedIn(m.tickets) == 0
  {
    BeginIsPaid(f, ss, l);
    if m: Label :| Ends(f, ss, 0, m) && UndefinedIn(m.tickets) == 0 {
      BeginIsPaid(f, ss, m);
      assert NoWorse(l, m);
    }
  }

  /** At the begin node nothing is left to pay: the ledger covers all tickets. */
  lemma BeginIsPaid(f: Fare, ss: seq<Section>, l: Label)
    requires Loaded(f) && AllNamed(ss) && Ends(f, ss, 0, l)
    ensures Ledger(l, ss) && Paid(l) == l.tickets
    ensures l.cost == Price(l.tickets)
    ensures ODPricesDefined(f) ==> l.nbUndefined == UndefinedIn(l.tickets)
  {
    var run :| After(f, ss, run) == Some(Place(0, l));
    RunKeepsLedger(f, ss, run);
  }
}
