/** The builder of the layered street graph, and what its layers mean along a path. */
module GeoRefs {
  import opened Basics
  import opened StreetNetworks
  import opened PathItems

  const BSS_PICKUP := 120
  const BSS_PUTBACK := 60
  const PARKING_LEAVE := 300
  const PARKING_PARK := 300

  /** Where the copy for a mode starts; Bss shares the walking copy and CarNoPark the driving one. */
  function Offset(mode: Mode, perMode: nat): nat {
    match mode
    case Walking | Bss => 0
    case Bike => perMode
    case Car | CarNoPark => 2 * perMode
  }

  /** The layer a mode is projected on. */
  function LayerFor(mode: Mode): Mode {
    match mode
    case Walking | Bss => Walking
    case Bike => Bike
    case Car | CarNoPark => Car
  }

  /** `get_mode` undoes the offsets. */
  lemma ModeUndoesOffset(mode: Mode, v: Vertex, perMode: nat)
    requires v < perMode
    ensures LayerOf(perMode, Offset(mode, perMode) + v) == Some(LayerFor(mode))
  {
    var k := match mode case Walking | Bss => 0 case Bike => 1 case Car | CarNoPark => 2;
    QuotientIs(Offset(mode, perMode) + v, k, perMode);
  }

  /** Every edge has one of the seven characteristics, so asking for it never throws. */
  ghost predicate Labelled(net: Network)
    requires net.perMode > 0
  {
    forall u, e :: 0 <= u < |net.out| && e in net.out[u] ==> CaracteristicOf(net.perMode, e).Some?
  }

  ghost predicate Sane(net: Network) {
    WellFormed(net) && Layered(net) && Labelled(net)
  }

  function AddEdge(net: Network, e: Edge): Network
    requires e.source < |net.out|
  {
    net.(out := net.out[e.source := net.out[e.source] + [e]])
  }

  /** The graph `after` has the edges of `before` and `added`, and the same vertices. */
  ghost predicate Extends(before: Network, after: Network, added: set<Edge>) {
    && after.coords == before.coords && after.perMode == before.perMode && |after.out| == |before.out|
    && forall u :: 0 <= u < |after.out| ==>
         before.out[u] <= after.out[u] && forall e :: e in after.out[u] <==> e in before.out[u] || (e in added && e.source == u)
  }

  lemma AddKeepsSane(before: Network, net: Network, added: set<Edge>, e: Edge)
    requires Sane(before) && Sane(net) && Extends(before, net, added)
    requires e.source < |net.out| && e.target < |net.out|
    requires CaracteristicOf(net.perMode, e).Some?
    ensures Sane(AddEdge(net, e)) && Extends(before, AddEdge(net, e), added + {e})
  {
  }

  /** One row of the edge table: whether each mode may use it and how long it takes, if that is known. */
  datatype Row = Row(source: Vertex, target: Vertex, way: nat, geometry: Option<seq<Coord>>,
                     walking: Option<nat>, biking: Option<nat>, driving: Option<nat>)

  function RowEdge(row: Row, mode: Mode, perMode: nat, duration: nat): Edge {
    Edge(Offset(mode, perMode) + row.source, Offset(mode, perMode) + row.target, duration, Some(row.way), row.geometry)
  }

  /** The walking and the other vertex nearest to a station, and the walk between them. */
  datatype Link = Link(walkingV: Vertex, otherV: Vertex, walk: nat, way: Option<nat>)

  /** Edges between vertices of the walking copy are walks. */
  lemma WalkingEdgesAreLabelled(net: Network, n: nat)
    requires WellFormed(net) && net.perMode == n > 0
    requires forall u, e :: 0 <= u < |net.out| && e in net.out[u] ==> e.source < n && e.target < n
    ensures Labelled(net)
  {
    forall u, e | 0 <= u < |net.out| && e in net.out[u]
      ensures CaracteristicOf(n, e).Some?
    {
      ModeUndoesOffset(Walking, e.source, n);
      ModeUndoesOffset(Walking, e.target, n);
    }
  }

  class GeoRef {
    var net: Network
    var offsets: map<Mode, nat>

    ghost predicate Valid()
      reads this
    {
      Sane(net) && forall mode: Mode :: mode in offsets && offsets[mode] == Offset(mode, net.perMode)
    }

    /** Copies the walking nodes for biking and for driving. */
    method Init()
      requires WellFormed(net) && |net.out| > 0
      modifies this
      ensures Valid()
      ensures net.perMode == |old(net).out|
      ensures net.coords == old(net).coords + old(net).coords + old(net).coords
      ensures net.out == old(net).out + seq(2 * net.perMode, _ => [])
    {
      var n := |net.out|;
      var coords, out := net.coords, net.out;
      offsets := map[Walking := 0, Bss := 0];
      offsets := offsets[Bike := |out|];
      coords, out := CopyLayer(coords, out, n);
      offsets := offsets[Car := |out|];
      coords, out := CopyLayer(coords, out, n);
      offsets := offsets[CarNoPark := offsets[Car]];
      assert coords == net.coords + net.coords + net.coords;
      assert out == net.out + seq(2 * n, _ => []);
      net := Network(coords, out, n);
      WalkingEdgesAreLabelled(net, n);
      forall mode: Mode
        ensures mode in offsets && offsets[mode] == Offset(mode, n)
      {
        match mode case Walking => case Bss => case Bike => case Car => case CarNoPark =>
      }
    }

    /** Appends a vertex without edges for each of the first `n`. */
    static method CopyLayer(coords: seq<Coord>, out: seq<seq<Edge>>, n: nat) returns (coords': seq<Coord>, out': seq<seq<Edge>>)
      requires n <= |coords| == |out|
      ensures coords' == coords + coords[..n]
      ensures out' == out + seq(n, _ => [])
    {
      coords', out' := coords, out;
      for v := 0 to n
        invariant coords' == coords + coords[..v]
        invariant out' == out + seq(v, _ => [])
      {
        coords' := coords' + [coords'[v]];
        out' := out' + [[]];
      }
    }

    /** Adds the edge of a row to each layer it is allowed in, as far as its duration is known. */
    method AddRow(row: Row)
      requires Valid() && row.source < net.perMode && row.target < net.perMode
      modifies this`net
      ensures Valid()
      ensures Extends(old(net), net, RowEdges(row, net.perMode))
    {
      ghost var added: set<Edge> := {};
      assert Extends(net, net, added);
      if row.walking.Some? {
        added := Append(Edge(row.source, row.target, row.walking.value, Some(row.way), row.geometry), row, Walking, old(net), added);
      }
      if row.biking.Some? {
        added := Append(Edge(offsets[Bike] + row.source, offsets[Bike] + row.target, row.biking.value, Some(row.way), row.geometry), row, Bike, old(net), added);
      }
      if row.driving.Some? {
        added := Append(Edge(offsets[Car] + row.source, offsets[Car] + row.target, row.driving.value, Some(row.way), row.geometry), row, Car, old(net), added);
      }
    }

    method Append(e: Edge, ghost row: Row, ghost mode: Mode, ghost before: Network, ghost added: set<Edge>)
      returns (ghost more: set<Edge>)
      requires Valid() && Sane(before) && Extends(before, net, added)
      requires row.source < net.perMode && row.target < net.perMode
      requires LayerFor(mode) == mode && e == RowEdge(row, mode, net.perMode, e.duration)
      modifies this`net
      ensures Valid() && more == added + {e} && Extends(before, net, more)
    {
      ModeUndoesOffset(mode, row.source, net.perMode);
      ModeUndoesOffset(mode, row.target, net.perMode);
      AddKeepsSane(before, net, added, e);
      net := AddEdge(net, e);
      more := added + {e};
    }

    /** A bike-sharing station: an edge to take a bike and one to put it back. */
    method AddBssEdges(nearest: Option<Link>) returns (added: bool)
      requires Valid()
      requires nearest.Some? ==> Joins(net, nearest.value, Bike)
      modifies this`net
      ensures Valid()
      ensures added <==> nearest.Some?
      ensures !added ==> net == old(net)
      ensures added ==> Extends(old(net), net, LinkEdges(nearest.value, 120, 60))
    {
      if nearest.None? {
        return false;
      }
      AddLink(nearest.value, BSS_PICKUP, BSS_PUTBACK, Bike);
      added := true;
    }

    /** A car park: an edge to leave it with the car and one to park. */
    method AddParkingEdges(nearest: Option<Link>) returns (added: bool)
      requires Valid()
      requires nearest.Some? ==> Joins(net, nearest.value, Car)
      modifies this`net
      ensures Valid()
      ensures added <==> nearest.Some?
      ensures !added ==> net == old(net)
      ensures added ==> Extends(old(net), net, LinkEdges(nearest.value, 300, 300))
    {
      if nearest.None? {
        return false;
      }
      AddLink(nearest.value, PARKING_LEAVE, PARKING_PARK, Car);
      added := true;
    }

    method AddLink(link: Link, away: nat, back: nat, ghost layer: Mode)
      requires Valid() && (layer == Bike || layer == Car) && Joins(net, link, layer)
      modifies this`net
      ensures Valid() && Extends(old(net), net, LinkEdges(link, away, back))
    {
      var e := Edge(link.walkingV, link.otherV, link.walk + away, link.way, None);
      var f := Edge(link.otherV, link.walkingV, link.walk + back, link.way, None);
      AddKeepsSane(net, net, {}, e);
      AddKeepsSane(net, AddEdge(net, e), {e}, f);
      net := AddEdge(net, e);
      net := AddEdge(net, f);
    }
  }

  function RowEdges(row: Row, perMode: nat): set<Edge> {
    (if row.walking.Some? then {RowEdge(row, Walking, perMode, row.walking.value)} else {}) +
    (if row.biking.Some? then {RowEdge(row, Bike, perMode, row.biking.value)} else {}) +
    (if row.driving.Some? then {RowEdge(row, Car, perMode, row.driving.value)} else {})
  }

  function LinkEdges(link: Link, away: nat, back: nat): set<Edge> {
    {Edge(link.walkingV, link.otherV, link.walk + away, link.way, None),
     Edge(link.otherV, link.walkingV, link.walk + back, link.way, None)}
  }

  ghost predicate Joins(net: Network, link: Link, layer: Mode)
    requires net.perMode > 0
  {
    && link.walkingV < |net.out| && link.otherV < |net.out|
    && LayerOf(net.perMode, link.walkingV) == Some(Walking)
    && LayerOf(net.perMode, link.otherV) == Some(layer)
  }

  // ---------- along a path ----------

  /** Consecutive edges of a graph whose edges all have a characteristic. */
  ghost predicate IsPath(perMode: nat, path: seq<Edge>)
    requires perMode > 0
  {
    && (forall i :: 0 <= i < |path| ==> CaracteristicOf(perMode, path[i]).Some?)
    && (forall i, j {:trigger path[i], path[j]} :: 0 <= i && j == i + 1 && j < |path| ==> path[j].source == path[i].target)
  }

  function CaracAt(perMode: nat, path: seq<Edge>, i: nat): Caracteristic
    requires perMode > 0 && i < |path| && CaracteristicOf(perMode, path[i]).Some?
  {
    CaracteristicOf(perMode, path[i]).value
  }

  /** The layer reached after edge `i` stays the same kind until the next change of that kind. */
  lemma {:induction false} BikeUntilPutBack(perMode: nat, path: seq<Edge>, i: nat, j: nat)
    requires perMode > 0 && IsPath(perMode, path) && i < j < |path|
    requires CaracAt(perMode, path, i) == BssTake || CaracAt(perMode, path, i) == BssPutBack
    requires forall k :: i < k < j ==> CaracAt(perMode, path, k) !in {BssTake, BssPutBack}
    ensures LayerOf(perMode, path[j].source) == Some(Bike) <==> CaracAt(perMode, path, i) == BssTake
    decreases j
  {
    assert path[j].source == path[j - 1].target;
    if j > i + 1 {
      BikeUntilPutBack(perMode, path, i, j - 1);
      assert CaracAt(perMode, path, j - 1) !in {BssTake, BssPutBack};
    }
  }

  /** Between two changes of the same kind lies the opposite one: bikes are taken and put back in turn. */
  lemma BssAlternates(perMode: nat, path: seq<Edge>, i: nat, j: nat)
    requires perMode > 0 && IsPath(perMode, path) && i < j < |path|
    requires CaracAt(perMode, path, i) in {BssTake, BssPutBack} && CaracAt(perMode, path, j) in {BssTake, BssPutBack}
    requires forall k :: i < k < j ==> CaracAt(perMode, path, k) !in {BssTake, BssPutBack}
    ensures CaracAt(perMode, path, i) != CaracAt(perMode, path, j)
  {
    BikeUntilPutBack(perMode, path, i, j);
  }

  lemma {:induction false} CarUntilParked(perMode: nat, path: seq<Edge>, i: nat, j: nat)
    requires perMode > 0 && IsPath(perMode, path) && i < j < |path|
    requires CaracAt(perMode, path, i) == CarLeaveParking || CaracAt(perMode, path, i) == CarPark
    requires forall k :: i < k < j ==> CaracAt(perMode, path, k) !in {CarLeaveParking, CarPark}
    ensures LayerOf(perMode, path[j].source) == Some(Car) <==> CaracAt(perMode, path, i) == CarLeaveParking
    decreases j
  {
    assert path[j].source == path[j - 1].target;
    if j > i + 1 {
      CarUntilParked(perMode, path, i, j - 1);
      assert CaracAt(perMode, path, j - 1) !in {CarLeaveParking, CarPark};
    }
  }

  /** Cars leave a car park and are parked in turn. */
  lemma ParkingAlternates(perMode: nat, path: seq<Edge>, i: nat, j: nat)
    requires perMode > 0 && IsPath(perMode, path) && i < j < |path|
    requires CaracAt(perMode, path, i) in {CarLeaveParking, CarPark} && CaracAt(perMode, path, j) in {CarLeaveParking, CarPark}
    requires forall k :: i < k < j ==> CaracAt(perMode, path, k) !in {CarLeaveParking, CarPark}
    ensures CaracAt(perMode, path, i) != CaracAt(perMode, path, j)
  {
    CarUntilParked(perMode, path, i, j);
  }

  /** The edges of a rebuilt path are consecutive, so the two laws above apply to it. */
  lemma RebuiltIsPath(net: Network, reversePath: seq<Vertex>, walked: seq<Edge>)
    requires Sane(net) && WalkedTo(net, reversePath, walked, 1)
    ensures IsPath(net.perMode, walked)
  {
    forall k | 0 <= k < |walked|
      ensures walked[k].source == reversePath[|reversePath| - 1 - k] && walked[k].target == reversePath[|reversePath| - 2 - k]
      ensures CaracteristicOf(net.perMode, walked[k]).Some?
    {
      assert IsBestEdge(net, reversePath[|reversePath| - 1 - k], reversePath[|reversePath| - 2 - k], Some(walked[k]));
      assert walked[k] in net.out[reversePath[|reversePath| - 1 - k]];
    }
  }
}
