/** The fare automaton: one section at a time, from lists of labels per node to new lists. */
module FareEngine {
  import opened Basics
  import opened FareTypes
  import opened FareTickets

  // ---------- one transition on one label ----------

  /** None stands for the exception "internal problem". */
  function NextLabel(l: Label, ticket: Ticket, s: Section): Option<Label> {
    var used := l.(line := s.line, mode := s.mode, network := s.network);
    if ticket.kind == ODFare then
      if l.stopArea == "" || l.currentType != ODFare then
        Some(used.(stopArea := s.startStopArea, zone := s.startZone, nbChanges := 0, startTime := s.startTime,
                   tickets := l.tickets + [ticket.(sections := ticket.sections + [s])], currentType := ticket.kind))
      else if l.tickets == [] then None
      else Some(WithLast(used, Last(l).(sections := Last(l).sections + [s])).(nbChanges := l.nbChanges + 1, currentType := ticket.kind))
    else if IsChange(ticket) then
      if l.tickets == [] then None
      else Some(WithLast(used, Last(l).(sections := Last(l).sections + [s])).(nbChanges := l.nbChanges + 1, currentType := ticket.kind))
    else
      Some(used.(nbUndefined := l.nbUndefined + if ticket.value.undefined then 1 else 0,
                 cost := Add(l.cost, ticket.value),
                 tickets := l.tickets + [ticket.(sections := ticket.sections + [s])],
                 nbChanges := 0, startTime := s.startTime, stopArea := s.startStopArea, currentType := ticket.kind))
  }

  /** The ticket a transition sells on a date; the default ticket when there is none under its key. */
  function TicketFor(f: Fare, t: Transition, date: Date): Ticket {
    if t.ticketKey == "" then NO_TICKET
    else if t.ticketKey in f.fareMap && GetFare(f.fareMap[t.ticketKey], date).Some? then GetFare(f.fareMap[t.ticketKey], date).value
    else DEFAULT_TICKET
  }

  function TicketOnEdge(f: Fare, t: Transition, date: Date): Ticket {
    if t.global == WithChanges then TicketFor(f, t, date).(kind := ODFare) else TicketFor(f, t, date)
  }

  /** Only the first label has no ticket, and it is at the begin node. */
  ghost predicate Ticketed(l: Label, node: nat) {
    l.tickets == [] ==> l == FIRST_LABEL && node == 0
  }

  /** Applies a ticket to a label, one field after the other. */
  method MakeNext(l: Label, ticket: Ticket, s: Section) returns (next: Option<Label>)
    ensures next == NextLabel(l, ticket, s)
  {
    var n := l;
    n := n.(line := s.line);
    n := n.(mode := s.mode);
    n := n.(network := s.network);
    if ticket.kind == ODFare {
      if n.stopArea == "" || n.currentType != ODFare {
        n := n.(stopArea := s.startStopArea, zone := s.startZone);
        n := n.(nbChanges := 0, startTime := s.startTime);
        n := n.(tickets := n.tickets + [ticket.(sections := ticket.sections + [s])]);
      } else {
        if n.tickets == [] {
          return None;
        }
        n := WithLast(n, Last(n).(sections := Last(n).sections + [s]));
        n := n.(nbChanges := n.nbChanges + 1);
      }
    } else {
      if ticket.caption == "" && ticket.value == Cost(0, false) {
        n := n.(nbChanges := n.nbChanges + 1);
      } else {
        if ticket.value.undefined {
          n := n.(nbUndefined := n.nbUndefined + 1);
        }
        n := n.(cost := Add(n.cost, ticket.value), tickets := n.tickets + [ticket]);
        n := n.(nbChanges := 0, startTime := s.startTime, stopArea := s.startStopArea);
      }
      if n.tickets == [] {
        return None;
      }
      n := WithLast(n, Last(n).(sections := Last(n).sections + [s]));
      assert !IsChange(ticket) ==> n.tickets == l.tickets + [ticket.(sections := ticket.sections + [s])];
    }
    next := Some(n.(currentType := ticket.kind));
  }

  /** Looks the ticket of a transition up, and falls back on the default one. */
  method FindTicket(f: Fare, t: Transition, date: Date) returns (ticket: Ticket)
    ensures ticket == TicketFor(f, t, date)
  {
    if t.ticketKey == "" {
      return Ticket("", "", Cost(0, false), NoType, []);
    }
    if t.ticketKey in f.fareMap {
      var found := FareOn(f.fareMap[t.ticketKey], date);
      if found.Some? {
        return found.value;
      }
    }
    ticket := Ticket("unknown_ticket", "unknown ticket", Cost(0, true), FlatFare, []);
  }

  predicate Enabled(f: Fare, e: FareEdge, l: Label, s: Section)
    requires e.source < |f.states| && e.target < |f.states|
  {
    && StateAllowsSection(f.states[e.target], s)
    && StateAllowsLabel(f.states[e.source], l)
    && TransitionAllows(e.transition, s, l)
  }

  /** The settled label: the open ticket is replaced by the origin-destination ticket, now paid. */
  function Settled(next: Label, l: Label, od: Ticket, s: Section): Label
    requires next.tickets != [] && (l.currentType == ODFare ==> l.tickets != [])
  {
    var sections := if l.currentType == ODFare then Last(l).sections else od.sections;
    WithLast(next, od.(sections := sections + [s])).(cost := Add(next.cost, od.value), currentType := FlatFare)
  }

  /** What the begin node receives from taking `e`, if anything. */
  function AtBegin(f: Fare, e: FareEdge, l: Label, s: Section): Option<Label>
    requires Loaded(f)
  {
    var ticket := TicketOnEdge(f, e.transition, s.date);
    match NextLabel(l, ticket, s)
    case None => None
    case Some(next) =>
      if l.currentType == ODFare || ticket.kind == ODFare then
        match ODTicket(f, next, s)
        case None => None
        case Some(d) =>
          match GetFare(d, s.date)
          case None => None
          case Some(od) =>
            if next.tickets == [] || (l.currentType == ODFare && l.tickets == []) then None
            else Some(Settled(next, l, od, s))
      else Some(next)
  }

  // ---------- what well-formed labels are ----------

  ghost predicate Proper(l: Label, node: nat) {
    && Ticketed(l, node)
    && (l.currentType == ODFare ==> l.tickets != [] && l.stopArea != "" && node != 0)
  }

  type Labels = seq<seq<Label>>

  /** Labels per node, all proper; the first label only ever comes alone. */
  ghost predicate Consistent(f: Fare, labels: Labels) {
    && |labels| == |f.states| && |labels| > 0
    && (forall v, l :: 0 <= v < |labels| && l in labels[v] ==> Proper(l, v))
    && ((exists l :: l in labels[0] && l.tickets == []) ==>
          labels[0] == [FIRST_LABEL] && forall v :: 0 < v < |labels| ==> labels[v] == [])
  }

  lemma TicketIsSellable(f: Fare, t: Transition, date: Date)
    requires Loaded(f)
    ensures t.ticketKey != "" ==> Sellable(TicketFor(f, t, date))
    ensures TicketFor(f, t, date).sections == [] && TicketFor(f, t, date).kind != ODFare
  {
    if t.ticketKey != "" && t.ticketKey in f.fareMap {
      FoundIsThere(f.fareMap[t.ticketKey], date);
    }
  }

  lemma {:induction false} FoundIsThere(d: DateTicket, date: Date)
    ensures GetFare(d, date).Some? ==> exists p :: p in d && p.ticket == GetFare(d, date).value
  {
    if d != [] && !Contains(d[0].period, date) {
      FoundIsThere(d[1..], date);
    } else if d != [] {
      assert d[0] in d;
    }
  }

  /** An enabled transition never meets the internal problem and gives a proper label. */
  lemma EnabledSteps(f: Fare, e: FareEdge, l: Label, s: Section)
    requires Loaded(f) && e in f.edges && s.startStopArea != ""
    requires Proper(l, e.source) && Enabled(f, e, l, s)
    ensures var next := NextLabel(l, TicketOnEdge(f, e.transition, s.date), s);
            next.Some? && next.value.tickets != [] && Proper(next.value, e.target)
    ensures AtBegin(f, e, l, s).Some? ==> AtBegin(f, e, l, s).value.tickets != [] && Proper(AtBegin(f, e, l, s).value, 0)
  {
    TicketIsSellable(f, e.transition, s.date);
  }

  // ---------- one section on all labels ----------

  /** Some label is allowed through the exclusive edge `e`. */
  ghost predicate Fires(f: Fare, labels: Labels, e: FareEdge, s: Section)
    requires Loaded(f) && Consistent(f, labels) && e in f.edges
  {
    e.transition.global == Exclusive && exists l :: l in labels[e.source] && Enabled(f, e, l, s)
  }

  /** Edge `e` takes some label to label `m` at node `v`. */
  ghost predicate Delivers(f: Fare, labels: Labels, e: FareEdge, s: Section, v: nat, m: Label)
    requires Loaded(f) && Consistent(f, labels) && e in f.edges
  {
    exists l :: l in labels[e.source] && Enabled(f, e, l, s) && Arrives(f, e, l, s, v, m)
  }

  ghost predicate Arrives(f: Fare, e: FareEdge, l: Label, s: Section, v: nat, m: Label)
    requires Loaded(f)
  {
    || (v == e.target && NextLabel(l, TicketOnEdge(f, e.transition, s.date), s) == Some(m))
    || (v == 0 && AtBegin(f, e, l, s) == Some(m))
  }

  method Push(labels: Labels, v: nat, l: Label) returns (more: Labels)
    requires v < |labels|
    ensures |more| == |labels|
    ensures forall u :: 0 <= u < |more| && u != v ==> more[u] == labels[u]
    ensures forall u, m :: 0 <= u < |more| ==> (m in more[u] <==> m in labels[u] || (u == v && m == l))
  {
    more := labels[v := labels[v] + [l]];
  }

  /** Applies a transition to a label and puts the results into the new lists. */
  method Deliver(f: Fare, e: FareEdge, l: Label, s: Section, before: Labels) returns (after: Labels)
    requires Loaded(f) && e in f.edges && s.startStopArea != ""
    requires Proper(l, e.source) && Enabled(f, e, l, s)
    requires |before| == |f.states|
    ensures |after| == |f.states|
    ensures forall v, m :: 0 <= v < |after| ==> (m in after[v] <==> m in before[v] || Arrives(f, e, l, s, v, m))
  {
    EnabledSteps(f, e, l, s);
    after := before;
    var ticket := FindTicket(f, e.transition, s.date);
    if e.transition.global == WithChanges {
      ticket := ticket.(kind := ODFare);
    }
    var made := MakeNext(l, ticket, s);
    var next := made.value;
    if l.currentType == ODFare || ticket.kind == ODFare {
      var od := GetOd(f, next, s);
      if od.Some? {
        var priced := FareOn(od.value, s.date);
        if priced.Some? {
          var ticketOd := priced.value;
          if l.tickets != [] && l.currentType == ODFare {
            ticketOd := ticketOd.(sections := Last(l).sections);
          }
          ticketOd := ticketOd.(sections := ticketOd.sections + [s]);
          var n := next.(cost := Add(next.cost, ticketOd.value));
          n := WithLast(n, ticketOd);
          n := n.(currentType := FlatFare);
          after := Push(after, 0, n);
        }
      }
    } else {
      if e.target != 0 {
        after := Push(after, 0, next);
      }
    }
    after := Push(after, e.target, next);
  }

  /** Takes one edge on every label of its source; an exclusive transition is thrown as its ticket. */
  method TakeEdge(f: Fare, e: FareEdge, labels: Labels, s: Section, before: Labels)
    returns (after: Labels, thrown: Option<Ticket>)
    requires Loaded(f) && Consistent(f, labels) && e in f.edges && s.startStopArea != ""
    requires |before| == |f.states|
    ensures |after| == |f.states|
    ensures thrown == if Fires(f, labels, e, s) then Some(TicketFor(f, e.transition, s.date)) else None
    ensures thrown.None? ==> forall v, m :: 0 <= v < |after| ==>
              (m in after[v] <==> m in before[v] || Delivers(f, labels, e, s, v, m))
  {
    after := before;
    var fits := SectionFits(f.states[e.target], s);
    if !fits {
      return after, None;
    }
    var source := labels[e.source];
    for j := 0 to |source|
      invariant |after| == |f.states|
      invariant e.transition.global == Exclusive ==> forall k :: 0 <= k < j ==> !Enabled(f, e, source[k], s)
      invariant forall v, m :: 0 <= v < |after| ==>
                  (m in after[v] <==> m in before[v] || exists k :: 0 <= k < j && Enabled(f, e, source[k], s) && Arrives(f, e, source[k], s, v, m))
    {
      var l := source[j];
      var fromState := LabelFits(f.states[e.source], l);
      var allowed := TransitionFits(e.transition, s, l);
      if fromState && allowed {
        assert l in labels[e.source] && Enabled(f, e, l, s);
        var ticket := FindTicket(f, e.transition, s.date);
        if e.transition.global == Exclusive {
          return after, Some(ticket);
        }
        after := Deliver(f, e, l, s, after);
      }
    }
    thrown := None;
  }

  /** The labels of one more section. */
  method ComputeLabels(f: Fare, previous: Labels, s: Section) returns (labels: Labels)
    requires Loaded(f) && Consistent(f, previous) && s.startStopArea != ""
    ensures Advances(f, previous, s, labels)
  {
    labels := seq(|f.states|, _ => []);
    for i := 0 to |f.edges|
      invariant |labels| == |f.states|
      invariant forall k :: 0 <= k < i ==> !Fires(f, previous, f.edges[k], s)
      invariant forall v, m :: 0 <= v < |labels| ==>
                  (m in labels[v] <==> exists k :: 0 <= k < i && Delivers(f, previous, f.edges[k], s, v, m))
    {
      var thrown;
      labels, thrown := TakeEdge(f, f.edges[i], previous, s, labels);
      if thrown.Some? {
        labels := TakeExclusive(f, i, previous, s, thrown.value);
        FirstFiringAdvances(f, i, previous, s, labels);
        return;
      }
    }
  }

  /** Every label of the begin node uses the thrown ticket; all other lists are cleared. */
  method TakeExclusive(f: Fare, i: nat, previous: Labels, s: Section, ticket: Ticket) returns (labels: Labels)
    requires Loaded(f) && Consistent(f, previous) && s.startStopArea != ""
    requires i < |f.edges| && Fires(f, previous, f.edges[i], s) && ticket == TicketFor(f, f.edges[i].transition, s.date)
    ensures UsesTicket(f, previous, s, ticket, labels)
  {
    forall l | l in previous[0]
      ensures NextLabel(l, ticket, s).Some?
    {
      ExclusiveSteps(f, i, previous, s, l);
    }
    var next := UseOnAll(previous[0], ticket, s);
    labels := seq(|f.states|, _ => [])[0 := next];
  }

  method UseOnAll(previous: seq<Label>, ticket: Ticket, s: Section) returns (labels: seq<Label>)
    requires forall l :: l in previous ==> NextLabel(l, ticket, s).Some?
    ensures forall m :: m in labels <==> exists l :: l in previous && NextLabel(l, ticket, s) == Some(m)
  {
    labels := [];
    for j := 0 to |previous|
      invariant forall m :: m in labels <==> exists k :: 0 <= k < j && NextLabel(previous[k], ticket, s) == Some(m)
    {
      var next := MakeNext(previous[j], ticket, s);
      labels := labels + [next.value];
    }
  }

  /** The first edge, in the order of the graph, that throws its ticket. */
  ghost predicate IsFirstFiring(f: Fare, labels: Labels, s: Section, i: nat)
    requires Loaded(f) && Consistent(f, labels) && i < |f.edges|
  {
    Fires(f, labels, f.edges[i], s) && forall k :: 0 <= k < i ==> !Fires(f, labels, f.edges[k], s)
  }

  /** The begin node holds what its labels become with the ticket; the other nodes hold nothing. */
  ghost predicate UsesTicket(f: Fare, previous: Labels, s: Section, ticket: Ticket, labels: Labels) {
    && |labels| == |f.states| && |labels| > 0 && |previous| > 0
    && (forall v :: 0 < v < |labels| ==> labels[v] == [])
    && (forall m :: m in labels[0] <==> exists l :: l in previous[0] && NextLabel(l, ticket, s) == Some(m))
  }

  lemma FirstFiringAdvances(f: Fare, i: nat, previous: Labels, s: Section, labels: Labels)
    requires Loaded(f) && Consistent(f, previous)
    requires i < |f.edges| && IsFirstFiring(f, previous, s, i)
    requires UsesTicket(f, previous, s, TicketFor(f, f.edges[i].transition, s.date), labels)
    ensures Advances(f, previous, s, labels)
  {
    forall k | 0 <= k < |f.edges| && IsFirstFiring(f, previous, s, k)
      ensures k == i
    {
      assert k < i || k == i || i < k;
    }
  }

  /** The new lists hold exactly what the transitions deliver, or what the first exclusive one allows. */
  ghost predicate Advances(f: Fare, previous: Labels, s: Section, labels: Labels)
    requires Loaded(f) && Consistent(f, previous)
  {
    && |labels| == |f.states|
    && (forall i :: 0 <= i < |f.edges| && IsFirstFiring(f, previous, s, i) ==>
          UsesTicket(f, previous, s, TicketFor(f, f.edges[i].transition, s.date), labels))
    && ((forall i :: 0 <= i < |f.edges| ==> !Fires(f, previous, f.edges[i], s)) ==>
          forall v, m :: 0 <= v < |labels| ==>
            (m in labels[v] <==> exists e :: e in f.edges && Delivers(f, previous, e, s, v, m)))
  }

  lemma ExclusiveSteps(f: Fare, i: nat, previous: Labels, s: Section, l: Label)
    requires Loaded(f) && Consistent(f, previous) && s.startStopArea != ""
    requires i < |f.edges| && Fires(f, previous, f.edges[i], s) && l in previous[0]
    ensures var next := NextLabel(l, TicketFor(f, f.edges[i].transition, s.date), s);
            next.Some? && next.value.tickets != [] && Proper(next.value, 0)
  {
    var e := f.edges[i];
    TicketIsSellable(f, e.transition, s.date);
    var fired :| fired in previous[e.source] && Enabled(f, e, fired, s);
    assert l.tickets == [] ==> previous[0] == [FIRST_LABEL];
  }
}
