/** Tickets, sections, labels and transitions of the fare engine, and the pure tests on them. */
module FareTypes {
  import opened Basics
  import opened Words

  /** A cost keeps the sum of its defined parts even once a part is undefined. */
  datatype Cost = Cost(value: int, undefined: bool)

  function Add(a: Cost, b: Cost): Cost {
    Cost(a.value + b.value, a.undefined || b.undefined)
  }

  datatype TicketType = FlatFare | GraduatedFare | ODFare | NoType

  type Date = int

  datatype Section = Section(network: string, startStopArea: string, destStopArea: string, line: string,
                             startTime: int, destTime: int, startZone: string, destZone: string,
                             mode: string, date: Date, pathItemIdx: nat)

  datatype Ticket = Ticket(key: string, caption: string, value: Cost, kind: TicketType, sections: seq<Section>)

  /** The ticket of a transition without a ticket key: just a change. */
  const NO_TICKET := Ticket("", "", Cost(0, false), NoType, [])

  const DEFAULT_TICKET := Ticket("unknown_ticket", "unknown ticket", Cost(0, true), FlatFare, [])

  predicate IsChange(t: Ticket) {
    t.caption == "" && t.value == Cost(0, false)
  }

  // ---------- tickets by date ----------

  datatype Period = Always | Between(begin: Date, end: Date)

  predicate Contains(p: Period, date: Date) {
    p.Always? || p.begin <= date < p.end
  }

  datatype PeriodTicket = PeriodTicket(period: Period, ticket: Ticket)

  type DateTicket = seq<PeriodTicket>

  /** The ticket of the first period that contains the date; None stands for `no_ticket`. */
  function GetFare(d: DateTicket, date: Date): Option<Ticket> {
    if d == [] then None
    else if Contains(d[0].period, date) then Some(d[0].ticket)
    else GetFare(d[1..], date)
  }

  // ---------- states, conditions, transitions ----------

  datatype State = State(mode: string, zone: string, stopArea: string, line: string, network: string, ticket: string)

  const BEGIN := State("", "", "", "", "", "")

  datatype Comp = EQ | NEQ | LT | GT | LTE | GTE | True

  function CompareInt(a: int, b: int, comp: Comp): bool {
    match comp
    case LT => a < b
    case GT => a > b
    case GTE => a >= b
    case LTE => a <= b
    case EQ => a == b
    case NEQ => a != b
    case True => true
  }

  function CompareString(a: string, b: string, comp: Comp): bool {
    match comp
    case LT => Before(a, b)
    case GT => Before(b, a)
    case GTE => !Before(a, b)
    case LTE => !Before(b, a)
    case EQ => a == b
    case NEQ => a != b
    case True => true
  }

  /** A condition with its value already read; durations are in minutes. */
  datatype Condition =
    | InZone(zone: string)
    | InStopArea(stopArea: string)
    | Lasting(comp: Comp, minutes: int)
    | Changes(comp: Comp, count: int)
    | WithTicket(comp: Comp, key: string)
    | OnLine(comp: Comp, line: string)
    | Unchecked

  datatype GlobalCondition = Nothing | Exclusive | WithChanges

  datatype Transition = Transition(startConditions: seq<Condition>, endConditions: seq<Condition>,
                                   ticketKey: string, global: GlobalCondition)

  datatype Label = Label(cost: Cost, nbUndefined: nat, startTime: int, nbChanges: int,
                         stopArea: string, zone: string, mode: string, line: string, network: string,
                         currentType: TicketType, tickets: seq<Ticket>)

  const FIRST_LABEL := Label(Cost(0, false), 0, 0, 0, "", "", "", "", "", FlatFare, [])

  function Last(l: Label): Ticket
    requires l.tickets != []
  {
    l.tickets[|l.tickets| - 1]
  }

  function WithLast(l: Label, t: Ticket): Label
    requires l.tickets != []
  {
    l.(tickets := l.tickets[|l.tickets| - 1 := t])
  }

  predicate StateAllowsSection(state: State, section: Section) {
    && (state.mode == "" || state.mode == section.mode)
    && (state.network == "" || state.network == section.network)
    && (state.line == "" || state.line == section.line)
  }

  /** The last ticket is only looked at when the state asks for one; a label without tickets has none. */
  predicate StateAllowsLabel(state: State, l: Label) {
    && (state.mode == "" || state.mode == l.mode)
    && (state.network == "" || state.network == l.network)
    && (state.line == "" || state.line == l.line)
    && (state.ticket == "" || (l.tickets != [] && state.ticket == Last(l).caption))
  }

  const DAY := 86400

  /** From the moment the ticket was punched, past midnight when the time of day is smaller. */
  function Elapsed(punched: int, time: int): int {
    if punched <= time then time - punched else time + DAY - punched
  }

  function PunchTime(t: Transition, section: Section, l: Label): int {
    if t.ticketKey != "" then section.startTime else l.startTime
  }

  predicate StartHolds(c: Condition, t: Transition, section: Section, l: Label) {
    match c
    case InZone(zone) => zone == section.startZone
    case InStopArea(stopArea) => stopArea == section.startStopArea
    case Lasting(comp, minutes) => CompareInt(Elapsed(PunchTime(t, section, l), section.startTime), minutes * 60, comp)
    case Changes(comp, count) =>
      CompareInt(if t.ticketKey != "" || l.tickets == [] then 0 else l.nbChanges + 1, count, comp)
    case WithTicket(comp, key) => l.tickets == [] || CompareString(Last(l).key, key, comp)
    case OnLine(comp, line) => CompareString(section.line, line, comp)
    case Unchecked => true
  }

  predicate EndHolds(c: Condition, t: Transition, section: Section, l: Label) {
    match c
    case InZone(zone) => zone == section.destZone
    case InStopArea(stopArea) => stopArea == section.destStopArea
    case Lasting(comp, minutes) => CompareInt(Elapsed(PunchTime(t, section, l), section.destTime), minutes * 60, comp)
    case _ => true
  }

  predicate TransitionAllows(t: Transition, section: Section, l: Label) {
    && !(l.tickets == [] && t.ticketKey == "" && t.global != WithChanges)
    && !(l.currentType == ODFare && t.global != WithChanges)
    && (forall c :: c in t.startConditions ==> StartHolds(c, t, section, l))
    && (forall c :: c in t.endConditions ==> EndHolds(c, t, section, l))
  }

  // ---------- what the tests mean ----------

  /** Comparisons of numbers are the usual ones. */
  lemma CompareIntMeans(a: int, b: int)
    ensures CompareInt(a, b, LT) <==> b - a > 0
    ensures CompareInt(a, b, GT) <==> a - b > 0
    ensures CompareInt(a, b, LTE) <==> a - b <= 0
    ensures CompareInt(a, b, GTE) <==> b - a <= 0
    ensures CompareInt(a, b, EQ) <==> a - b == 0
    ensures CompareInt(a, b, NEQ) <==> a - b != 0
    ensures CompareInt(a, b, True)
  {
  }

  /** Comparisons of strings follow the order of words. */
  lemma CompareStringMeans(a: string, b: string)
    ensures CompareString(a, b, LT) <==> Before(a, b)
    ensures CompareString(a, b, GT) <==> Before(b, a)
    ensures CompareString(a, b, LTE) <==> a == b || Before(a, b)
    ensures CompareString(a, b, GTE) <==> a == b || Before(b, a)
    ensures CompareString(a, b, EQ) <==> a == b
    ensures CompareString(a, b, NEQ) <==> a != b
    ensures CompareString(a, b, True)
  {
    BeforeIsTotal(a, b);
    BeforeIsIrreflexive(a);
    if Before(a, b) && Before(b, a) {
      BeforeIsTransitive(a, b, a);
    }
  }

  /** The time since the ticket was punched is the one duration below a day that leads to `time`. */
  lemma ElapsedMeans(punched: int, time: int, d: int)
    requires 0 <= punched < 86400 && 0 <= time < 86400
    ensures 0 <= Elapsed(punched, time) < 86400
    ensures 0 <= d < 86400 ==> (d == Elapsed(punched, time) <==> (punched + d) % 86400 == time)
  {
  }

  /** A period holds its first date and not its last. */
  lemma ContainsMeans(begin: Date, end: Date, date: Date)
    ensures Contains(Always, date)
    ensures Contains(Between(begin, end), date) <==> !(date < begin) && !(end <= date)
  {
  }

  /** The ticket found is that of the first period that holds the date. */
  lemma {:induction false} GetFareIsFirst(d: DateTicket, date: Date)
    ensures GetFare(d, date).None? <==> forall i :: 0 <= i < |d| ==> !Contains(d[i].period, date)
    ensures GetFare(d, date).Some? ==> exists i :: IsFirstAt(d, date, i) && GetFare(d, date) == Some(d[i].ticket)
  {
    if d != [] {
      GetFareIsFirst(d[1..], date);
      if Contains(d[0].period, date) {
        assert IsFirstAt(d, date, 0);
      } else if GetFare(d, date).Some? {
        var i :| IsFirstAt(d[1..], date, i) && GetFare(d[1..], date) == Some(d[1..][i].ticket);
        assert IsFirstAt(d, date, i + 1);
      }
    }
  }

  ghost predicate IsFirstAt(d: DateTicket, date: Date, i: int) {
    0 <= i < |d| && Contains(d[i].period, date) && forall j :: 0 <= j < i ==> !Contains(d[j].period, date)
  }

  // ---------- the tests as they are made ----------

  method SectionFits(state: State, section: Section) returns (fits: bool)
    ensures fits <==> StateAllowsSection(state, section)
  {
    fits := !(|| (state.mode != "" && state.mode != section.mode)
              || (state.network != "" && state.network != section.network)
              || (state.line != "" && state.line != section.line));
  }

  method LabelFits(state: State, l: Label) returns (fits: bool)
    ensures fits <==> StateAllowsLabel(state, l)
  {
    fits := !(|| (state.mode != "" && state.mode != l.mode)
              || (state.network != "" && state.network != l.network)
              || (state.line != "" && state.line != l.line)
              || (state.ticket != "" && (l.tickets == [] || state.ticket != Last(l).caption)));
  }

  method FareOn(d: DateTicket, date: Date) returns (ticket: Option<Ticket>)
    ensures ticket == GetFare(d, date)
  {
    for i := 0 to |d|
      invariant GetFare(d, date) == GetFare(d[i..], date)
    {
      assert d[i..][1..] == d[i + 1..];
      if Contains(d[i].period, date) {
        return Some(d[i].ticket);
      }
    }
    ticket := None;
  }

  method DurationSince(punched: int, time: int) returns (duration: int)
    ensures duration == Elapsed(punched, time)
  {
    if punched <= time {
      return time - punched;
    }
    duration := time + 24 * 3600 - punched;
  }

  method PunchedAt(t: Transition, section: Section, l: Label) returns (punched: int)
    ensures punched == PunchTime(t, section, l)
  {
    punched := l.startTime;
    if t.ticketKey != "" {
      punched := section.startTime;
    }
  }

  method StartFits(c: Condition, t: Transition, section: Section, l: Label) returns (fits: bool)
    ensures fits <==> StartHolds(c, t, section, l)
  {
    fits := true;
    match c
    case InZone(zone) =>
      if zone != section.startZone { return false; }
    case InStopArea(stopArea) =>
      if stopArea != section.startStopArea { return false; }
    case Lasting(comp, minutes) =>
      var punched := PunchedAt(t, section, l);
      var duration := DurationSince(punched, section.startTime);
      if !CompareInt(duration, minutes * 60, comp) { return false; }
    case Changes(comp, count) =>
      var after := l.nbChanges + 1;
      if t.ticketKey != "" || l.tickets == [] { after := 0; }
      if !CompareInt(after, count, comp) { return false; }
    case WithTicket(comp, key) =>
      if l.tickets != [] && !CompareString(Last(l).key, key, comp) { return false; }
    case OnLine(comp, line) =>
      if !CompareString(section.line, line, comp) { return false; }
    case Unchecked =>
  }

  method EndFits(c: Condition, t: Transition, section: Section, l: Label) returns (fits: bool)
    ensures fits <==> EndHolds(c, t, section, l)
  {
    fits := true;
    match c
    case InZone(zone) =>
      if zone != section.destZone { return false; }
    case InStopArea(stopArea) =>
      if stopArea != section.destStopArea { return false; }
    case Lasting(comp, minutes) =>
      var punched := PunchedAt(t, section, l);
      var duration := DurationSince(punched, section.destTime);
      if !CompareInt(duration, minutes * 60, comp) { return false; }
    case _ =>
  }

  method TransitionFits(t: Transition, section: Section, l: Label) returns (fits: bool)
    ensures fits <==> TransitionAllows(t, section, l)
  {
    if l.tickets == [] && t.ticketKey == "" && t.global != WithChanges {
      return false;
    }
    if l.currentType == ODFare && t.global != WithChanges {
      return false;
    }
    for i := 0 to |t.startConditions|
      invariant forall k :: 0 <= k < i ==> StartHolds(t.startConditions[k], t, section, l)
    {
      fits := StartFits(t.startConditions[i], t, section, l);
      if !fits { return; }
    }
    for i := 0 to |t.endConditions|
      invariant forall k :: 0 <= k < i ==> EndHolds(t.endConditions[k], t, section, l)
    {
      fits := EndFits(t.endConditions[i], t, section, l);
      if !fits { return; }
    }
    fits := true;
  }

  /** The order in which labels are preferred. */
  predicate Better(a: Label, b: Label) {
    if a.nbUndefined != b.nbUndefined then a.nbUndefined < b.nbUndefined
    else if a.cost.value != b.cost.value then a.cost.value < b.cost.value
    else if |a.tickets| != |b.tickets| then |a.tickets| < |b.tickets|
    else a.nbChanges < b.nbChanges
  }

  // ---------- the fare data ----------

  datatype ODType = Zone | StopArea | Mode

  datatype ODKey = ODKey(kind: ODType, value: string)

  datatype FareEdge = FareEdge(source: nat, target: nat, transition: Transition)

  datatype Fare = Fare(states: seq<State>, edges: seq<FareEdge>, fareMap: map<string, DateTicket>,
                       odTickets: map<ODKey, map<ODKey, seq<string>>>)

  const DEFAULT_EDGE := FareEdge(0, 0, Transition([], [], "unknown_ticket", Nothing))

  /** A ticket that can be bought: it is not read as a change, nor as an open origin-destination ticket. */
  predicate Sellable(t: Ticket) {
    !IsChange(t) && t.kind != ODFare && t.sections == []
  }

  /**
   What the loader guarantees: the begin node and its default transition are there, no transition
   that keeps an origin-destination ticket open enters the begin node, every ticket can be bought,
   and every origin-destination pair lists at least one ticket.
   */
  ghost predicate Loaded(f: Fare) {
    && |f.states| >= 2 && f.states[0] == BEGIN
    && DEFAULT_EDGE in f.edges
    && (forall e :: e in f.edges ==> e.source < |f.states| && e.target < |f.states|)
    && (forall e :: e in f.edges && e.target == 0 ==> e.transition.global != WithChanges)
    && (forall k :: k in f.fareMap ==> forall p :: p in f.fareMap[k] ==> Sellable(p.ticket))
    && (forall o :: o in f.odTickets ==> forall d :: d in f.odTickets[o] ==> f.odTickets[o][d] != [])
  }
}
