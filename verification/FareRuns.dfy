/**
 Runs of the fare automaton, defined without any list of labels, and the proof that the lists are
 exactly the runs.
 */
module FareRuns {
  import opened Basics
  import opened FareTypes
  import opened FareTickets
  import opened FareEngine

  /**
   What a run does with a section: take an edge, take an edge and settle at the begin node, or use
   the ticket an exclusive transition imposes.
   */
  datatype Choice = Take(edge: nat) | Settle(edge: nat) | Imposed

  datatype Place = Place(node: nat, at: Label)

  /** Where a run over the sections ends; None when a choice is not possible. */
  ghost function After(f: Fare, ss: seq<Section>, run: seq<Choice>): Option<Place>
    requires Loaded(f)
    decreases |ss|, 0
  {
    if |run| != |ss| then None
    else if ss == [] then Some(Place(0, FIRST_LABEL))
    else
      var k := |ss| - 1;
      match After(f, ss[..k], run[..k])
      case None => None
      case Some(place) =>
        match ImposedEdge(f, ss[..k], ss[k])
        case Some(i) => Impose(f, i, place, ss[k], run[k])
        case None => Choose(f, place, ss[k], run[k])
  }

  ghost function Impose(f: Fare, i: nat, place: Place, s: Section, choice: Choice): Option<Place> {
    if choice != Imposed || place.node != 0 || i >= |f.edges| then None
    else
      match NextLabel(place.at, TicketFor(f, f.edges[i].transition, s.date), s)
      case None => None
      case Some(next) => Some(Place(0, next))
  }

  ghost function Choose(f: Fare, place: Place, s: Section, choice: Choice): Option<Place>
    requires Loaded(f)
  {
    if choice == Imposed || choice.edge >= |f.edges| || f.edges[choice.edge].source != place.node
       || !Enabled(f, f.edges[choice.edge], place.at, s) then None
    else
      var e := f.edges[choice.edge];
      var label' := if choice.Take? then NextLabel(place.at, TicketOnEdge(f, e.transition, s.date), s) else AtBegin(f, e, place.at, s);
      if label'.None? then None else Some(Place(if choice.Take? then e.target else 0, label'.value))
  }

  /** Some run over the sections ends at node `v` with label `l`. */
  ghost predicate Ends(f: Fare, ss: seq<Section>, v: nat, l: Label)
    requires Loaded(f)
    decreases |ss|, 1
  {
    exists run :: After(f, ss, run) == Some(Place(v, l))
  }

  /** Some run so far may take the exclusive edge `i` on the next section. */
  ghost predicate CanImpose(f: Fare, ss: seq<Section>, s: Section, i: nat)
    requires Loaded(f)
    decreases |ss|, 2
  {
    && i < |f.edges| && f.edges[i].transition.global == Exclusive
    && exists l :: Ends(f, ss, f.edges[i].source, l) && Enabled(f, f.edges[i], l, s)
  }

  /** The first exclusive edge some run may take, if any: it overrides all other choices of all runs. */
  ghost function ImposedEdge(f: Fare, ss: seq<Section>, s: Section): (r: Option<nat>)
    requires Loaded(f)
    decreases |ss|, 3
  {
    if i: nat :| i < |f.edges| && CanImpose(f, ss, s, i) && forall k: nat :: k < i ==> !CanImpose(f, ss, s, k) then Some(i) else None
  }

  /** What one more section makes of a place. */
  ghost function Next(f: Fare, ss: seq<Section>, place: Place, s: Section, choice: Choice): Option<Place>
    requires Loaded(f)
  {
    match ImposedEdge(f, ss, s)
    case Some(i) => Impose(f, i, place, s, choice)
    case None => Choose(f, place, s, choice)
  }

  lemma ExtendRun(f: Fare, ss: seq<Section>, v: nat, l: Label, s: Section, choice: Choice)
    requires Loaded(f) && Ends(f, ss, v, l)
    requires Next(f, ss, Place(v, l), s, choice).Some?
    ensures var p := Next(f, ss, Place(v, l), s, choice).value; Ends(f, ss + [s], p.node, p.at)
  {
    var run :| After(f, ss, run) == Some(Place(v, l));
    var more, chosen := ss + [s], run + [choice];
    var k := |ss|;
    assert |run| == |ss|;
    assert more[..k] == ss && chosen[..k] == run;
    var p := Next(f, ss, Place(v, l), s, choice).value;
    assert After(f, more, chosen) == Some(Place(p.node, p.at));
  }

  lemma ShortenRun(f: Fare, ss: seq<Section>, v: nat, l: Label, s: Section) returns (place: Place, choice: Choice)
    requires Loaded(f) && Ends(f, ss + [s], v, l)
    ensures Ends(f, ss, place.node, place.at) && Next(f, ss, place, s, choice) == Some(Place(v, l))
  {
    var more := ss + [s];
    var run :| After(f, more, run) == Some(Place(v, l));
    var k := |ss|;
    assert more[..k] == ss && more[k] == s;
    assert |run| == k + 1;
    place, choice := After(f, ss, run[..k]).value, run[k];
    assert After(f, ss, run[..k]) == Some(Place(place.node, place.at));
  }

  // ---------- the lists of labels are the runs ----------

  /** The lists hold exactly the labels runs end with. */
  ghost predicate Represents(f: Fare, ss: seq<Section>, labels: Labels)
    requires Loaded(f)
  {
    && |labels| == |f.states|
    && forall v: nat, l :: Ends(f, ss, v, l) <==> v < |labels| && l in labels[v]
  }

  lemma FirstLabelsRepresent(f: Fare, labels: Labels)
    requires Loaded(f) && |labels| == |f.states|
    requires labels[0] == [FIRST_LABEL] && forall v :: 0 < v < |labels| ==> labels[v] == []
    ensures Represents(f, [], labels) && Consistent(f, labels)
  {
    assert After(f, [], []) == Some(Place(0, FIRST_LABEL));
  }

  lemma FiringIsImposing(f: Fare, ss: seq<Section>, labels: Labels, s: Section, i: nat)
    requires Loaded(f) && Consistent(f, labels) && Represents(f, ss, labels)
    requires i < |f.edges|
    ensures Fires(f, labels, f.edges[i], s) <==> CanImpose(f, ss, s, i)
  {
  }

  lemma FirstImposing(f: Fare, ss: seq<Section>, s: Section, i: nat) returns (first: nat)
    requires Loaded(f) && CanImpose(f, ss, s, i)
    ensures CanImpose(f, ss, s, first) && forall k: nat :: k < first ==> !CanImpose(f, ss, s, k)
    decreases i
  {
    if k: nat :| k < i && CanImpose(f, ss, s, k) {
      first := FirstImposing(f, ss, s, k);
    } else {
      first := i;
    }
  }

  lemma ImposedIsFirstFiring(f: Fare, ss: seq<Section>, labels: Labels, s: Section, i: nat)
    requires Loaded(f) && Consistent(f, labels) && Represents(f, ss, labels)
    requires ImposedEdge(f, ss, s) == Some(i)
    ensures i < |f.edges| && IsFirstFiring(f, labels, s, i)
  {
    FiringIsImposing(f, ss, labels, s, i);
    forall k: nat | k < i
      ensures !Fires(f, labels, f.edges[k], s)
    {
      NothingFiresBefore(f, ss, labels, s, i, k);
    }
  }

  lemma NothingFiresBefore(f: Fare, ss: seq<Section>, labels: Labels, s: Section, i: nat, k: nat)
    requires Loaded(f) && Consistent(f, labels) && Represents(f, ss, labels)
    requires ImposedEdge(f, ss, s) == Some(i) && k < i < |f.edges|
    ensures !Fires(f, labels, f.edges[k], s)
  {
    FiringIsImposing(f, ss, labels, s, k);
  }

  lemma NothingImposedNothingFires(f: Fare, ss: seq<Section>, labels: Labels, s: Section, i: nat)
    requires Loaded(f) && Consistent(f, labels) && Represents(f, ss, labels)
    requires ImposedEdge(f, ss, s).None? && i < |f.edges|
    ensures !Fires(f, labels, f.edges[i], s)
  {
    FiringIsImposing(f, ss, labels, s, i);
    if CanImpose(f, ss, s, i) {
      var first := FirstImposing(f, ss, s, i);
    }
  }

  /** With no exclusive transition in play, what the choices of the runs give is delivered. */
  lemma ChosenIsDelivered(f: Fare, ss: seq<Section>, labels: Labels, s: Section, v: nat, m: Label)
    requires Loaded(f) && Consistent(f, labels) && Represents(f, ss, labels)
    requires ImposedEdge(f, ss, s).None? && Ends(f, ss + [s], v, m)
    ensures v < |labels| && exists e :: e in f.edges && Delivers(f, labels, e, s, v, m)
  {
    var place, choice := ShortenRun(f, ss, v, m, s);
    var e := f.edges[choice.edge];
    assert e in f.edges && place.at in labels[e.source];
    assert Arrives(f, e, place.at, s, v, m);
    assert Delivers(f, labels, e, s, v, m);
  }

  /** And what is delivered is what some run can choose. */
  lemma DeliveredIsChosen(f: Fare, ss: seq<Section>, labels: Labels, s: Section, v: nat, m: Label, e: FareEdge)
    requires Loaded(f) && Consistent(f, labels) && Represents(f, ss, labels)
    requires ImposedEdge(f, ss, s).None? && e in f.edges && Delivers(f, labels, e, s, v, m)
    ensures Ends(f, ss + [s], v, m)
  {
    var l :| l in labels[e.source] && Enabled(f, e, l, s) && Arrives(f, e, l, s, v, m);
    var i :| 0 <= i < |f.edges| && f.edges[i] == e;
    assert Ends(f, ss, e.source, l);
    var choice := if v == 0 && AtBegin(f, e, l, s) == Some(m) then Settle(i) else Take(i);
    assert Choose(f, Place(e.source, l), s, choice) == Some(Place(v, m));
    ExtendRun(f, ss, e.source, l, s, choice);
  }

  /** With an exclusive transition in play the begin node's labels all use its ticket. */
  lemma ImposedIsUsed(f: Fare, ss: seq<Section>, labels: Labels, s: Section, i: nat, v: nat, m: Label)
    requires Loaded(f) && Consistent(f, labels) && Represents(f, ss, labels)
    requires ImposedEdge(f, ss, s) == Some(i)
    ensures Ends(f, ss + [s], v, m) <==>
              v == 0 && exists l :: l in labels[0] && NextLabel(l, TicketFor(f, f.edges[i].transition, s.date), s) == Some(m)
  {
    if Ends(f, ss + [s], v, m) {
      var place, choice := ShortenRun(f, ss, v, m, s);
      assert place.at in labels[0];
    }
    if v == 0 {
      if l :| l in labels[0] && NextLabel(l, TicketFor(f, f.edges[i].transition, s.date), s) == Some(m) {
        ExtendRun(f, ss, 0, l, s, Imposed);
      }
    }
  }

  /** One round of the program extends the correspondence by one section. */
  lemma AdvanceRepresents(f: Fare, ss: seq<Section>, labels: Labels, s: Section, more: Labels)
    requires Loaded(f) && Consistent(f, labels) && Represents(f, ss, labels)
    requires Advances(f, labels, s, more)
    ensures Represents(f, ss + [s], more)
  {
    forall v: nat, m
      ensures Ends(f, ss + [s], v, m) <==> v < |more| && m in more[v]
    {
      if ImposedEdge(f, ss, s).Some? {
        AdvanceByImposing(f, ss, labels, s, more, v, m);
      } else {
        AdvanceByChoice(f, ss, labels, s, more, v, m);
      }
    }
  }

  lemma AdvanceByImposing(f: Fare, ss: seq<Section>, labels: Labels, s: Section, more: Labels, v: nat, m: Label)
    requires Loaded(f) && Consistent(f, labels) && Represents(f, ss, labels)
    requires Advances(f, labels, s, more) && ImposedEdge(f, ss, s).Some?
    ensures Ends(f, ss + [s], v, m) <==> v < |more| && m in more[v]
  {
    var i := ImposedEdge(f, ss, s).value;
    ImposedIsFirstFiring(f, ss, labels, s, i);
    assert UsesTicket(f, labels, s, TicketFor(f, f.edges[i].transition, s.date), more);
    ImposedIsUsed(f, ss, labels, s, i, v, m);
  }

  lemma AdvanceByChoice(f: Fare, ss: seq<Section>, labels: Labels, s: Section, more: Labels, v: nat, m: Label)
    requires Loaded(f) && Consistent(f, labels) && Represents(f, ss, labels)
    requires Advances(f, labels, s, more) && ImposedEdge(f, ss, s).None?
    ensures Ends(f, ss + [s], v, m) <==> v < |more| && m in more[v]
  {
    forall i: nat | i < |f.edges|
      ensures !Fires(f, labels, f.edges[i], s)
    {
      NothingImposedNothingFires(f, ss, labels, s, i);
    }
    if Ends(f, ss + [s], v, m) {
      ChosenIsDelivered(f, ss, labels, s, v, m);
    }
    if v < |more| && m in more[v] {
      var e :| e in f.edges && Delivers(f, labels, e, s, v, m);
      DeliveredIsChosen(f, ss, labels, s, v, m, e);
    }
  }

  lemma FirstFiring(f: Fare, labels: Labels, s: Section, i: nat) returns (first: nat)
    requires Loaded(f) && Consistent(f, labels) && i < |f.edges| && Fires(f, labels, f.edges[i], s)
    ensures first < |f.edges| && IsFirstFiring(f, labels, s, first)
    decreases i
  {
    if k: nat :| k < i && Fires(f, labels, f.edges[k], s) {
      first := FirstFiring(f, labels, s, k);
    } else {
      first := i;
    }
  }

  lemma ImposedKeepsProper(f: Fare, labels: Labels, s: Section, more: Labels, first: nat)
    requires Loaded(f) && Consistent(f, labels) && Advances(f, labels, s, more) && s.startStopArea != ""
    requires first < |f.edges| && IsFirstFiring(f, labels, s, first)
    ensures forall v, m :: 0 <= v < |more| && m in more[v] ==> m.tickets != [] && Proper(m, v)
    ensures labels[0] != [] ==> more[0] != []
  {
    var ticket := TicketFor(f, f.edges[first].transition, s.date);
    forall l | l in labels[0]
      ensures NextLabel(l, ticket, s).Some? && NextLabel(l, ticket, s).value.tickets != [] && Proper(NextLabel(l, ticket, s).value, 0)
    {
      ExclusiveSteps(f, first, labels, s, l);
    }
    assert UsesTicket(f, labels, s, ticket, more);
    if labels[0] != [] {
      assert labels[0][0] in labels[0];
      assert NextLabel(labels[0][0], ticket, s).value in more[0];
    }
  }

  lemma DeliveredIsProper(f: Fare, labels: Labels, s: Section, e: FareEdge, v: nat, m: Label)
    requires Loaded(f) && Consistent(f, labels) && s.startStopArea != ""
    requires e in f.edges && Delivers(f, labels, e, s, v, m)
    ensures m.tickets != [] && Proper(m, v)
  {
    var l :| l in labels[e.source] && Enabled(f, e, l, s) && Arrives(f, e, l, s, v, m);
    EnabledSteps(f, e, l, s);
  }

  /** The default transition is open to every label of the begin node. */
  lemma DefaultDelivers(f: Fare, labels: Labels, s: Section) returns (m: Label)
    requires Loaded(f) && Consistent(f, labels) && s.startStopArea != "" && labels[0] != []
    ensures Delivers(f, labels, DEFAULT_EDGE, s, 0, m)
  {
    var l := labels[0][0];
    assert l in labels[0];
    EnabledSteps(f, DEFAULT_EDGE, l, s);
    m := NextLabel(l, TicketOnEdge(f, DEFAULT_EDGE.transition, s.date), s).value;
    assert Arrives(f, DEFAULT_EDGE, l, s, 0, m);
  }

  /** Labels stay proper, and the begin node always keeps at least one: a fare always exists. */
  lemma AdvanceKeepsConsistent(f: Fare, labels: Labels, s: Section, more: Labels)
    requires Loaded(f) && Consistent(f, labels) && Advances(f, labels, s, more) && s.startStopArea != ""
    ensures Consistent(f, more)
    ensures forall v, m :: 0 <= v < |more| && m in more[v] ==> m.tickets != []
    ensures labels[0] != [] ==> more[0] != []
  {
    if i: nat :| i < |f.edges| && Fires(f, labels, f.edges[i], s) {
      var first := FirstFiring(f, labels, s, i);
      ImposedKeepsProper(f, labels, s, more, first);
    } else {
      forall v, m | 0 <= v < |more| && m in more[v]
        ensures m.tickets != [] && Proper(m, v)
      {
        var e :| e in f.edges && Delivers(f, labels, e, s, v, m);
        DeliveredIsProper(f, labels, s, e, v, m);
      }
      if labels[0] != [] {
        var m := DefaultDelivers(f, labels, s);
        assert m in more[0];
      }
    }
  }
}
