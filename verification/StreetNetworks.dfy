/**
 The street graph: one copy of every street node for walking, one for biking and one for
 driving, laid out one after the other, and edges between them.
 */
module StreetNetworks {
  import opened Basics

  type Vertex = nat

  datatype Coord = Coord(lon: real, lat: real)

  datatype Mode = Walking | Bike | Car | Bss | CarNoPark

  /** What happens along an edge. */
  datatype Caracteristic = Walk | Ride | Drive | BssTake | BssPutBack | CarPark | CarLeaveParking

  /** A directed edge; `way` and `geometry` may be missing. */
  datatype Edge = Edge(source: Vertex, target: Vertex, duration: nat, way: Option<nat>, geometry: Option<seq<Coord>>)

  /** `out[u]` lists the edges leaving `u` in insertion order; `perMode` is the size of one copy. */
  datatype Network = Network(coords: seq<Coord>, out: seq<seq<Edge>>, perMode: nat)

  ghost predicate WellFormed(net: Network) {
    && |net.coords| == |net.out|
    && forall u, i :: 0 <= u < |net.out| && 0 <= i < |net.out[u]| ==>
         net.out[u][i].source == u && net.out[u][i].target < |net.out|
  }

  /** Three complete copies of the same node set, and at least one node. */
  ghost predicate Layered(net: Network) {
    && net.perMode > 0
    && |net.out| == 3 * net.perMode
  }

  /** The copy a vertex belongs to; no value beyond the five modes. */
  function LayerOf(perMode: nat, v: Vertex): Option<Mode>
    requires perMode > 0
  {
    match v / perMode
    case 0 => Some(Walking)
    case 1 => Some(Bike)
    case 2 => Some(Car)
    case 3 => Some(Bss)
    case 4 => Some(CarNoPark)
    case _ => None
  }

  /** None stands for the exception "unhandled path item caracteristic". */
  function CaracteristicOf(perMode: nat, e: Edge): Option<Caracteristic>
    requires perMode > 0
  {
    var s, t := LayerOf(perMode, e.source), LayerOf(perMode, e.target);
    if s == t then
      match s
      case Some(Walking) => Some(Walk)
      case Some(Bike) => Some(Ride)
      case Some(Car) => Some(Drive)
      case _ => None
    else if s == Some(Walking) && t == Some(Bike) then Some(BssTake)
    else if s == Some(Bike) && t == Some(Walking) then Some(BssPutBack)
    else if s == Some(Walking) && t == Some(Car) then Some(CarLeaveParking)
    else if s == Some(Car) && t == Some(Walking) then Some(CarPark)
    else None
  }

  /** The layers a transport mode may use. */
  predicate Allowed(mode: Mode, layer: Mode) {
    match mode
    case Walking => layer == Walking
    case Bike => layer == Bike
    case Car => layer == Car || layer == Walking
    case Bss => layer == Walking || layer == Bike
    case CarNoPark => layer == Car
  }

  /** The vertex filter put on the graph for one search. */
  predicate Accepts(net: Network, mode: Mode, v: Vertex)
    requires net.perMode > 0
  {
    var layer := LayerOf(net.perMode, v);
    layer.Some? && Allowed(mode, layer.value)
  }

  // ---------- the layers as ranges of vertices ----------

  /** What a mode may use, told by the copies: the walking copy comes first, then biking, then driving. */
  predicate InRange(mode: Mode, perMode: nat, v: Vertex) {
    match mode
    case Walking => v < perMode
    case Bike => perMode <= v < 2 * perMode
    case Bss => v < 2 * perMode
    case Car => v < perMode || 2 * perMode <= v < 3 * perMode
    case CarNoPark => 2 * perMode <= v < 3 * perMode
  }

  lemma MultiplesApart(a: nat, b: nat, n: nat)
    ensures a < b ==> a * n + n <= b * n
  {
    if a < b {
      var d := b - a - 1;
      assert b * n == a * n + n + d * n;
    }
  }

  lemma QuotientIs(v: nat, k: nat, n: nat)
    requires n > 0 && k * n <= v < k * n + n
    ensures v / n == k
  {
    MultiplesApart(v / n, k, n);
    MultiplesApart(k, v / n, n);
    assert v == v / n * n + v % n;
  }

  lemma LayerIsRange(v: Vertex, n: nat)
    requires n > 0
    ensures LayerOf(n, v) == Some(Walking) <==> v < n
    ensures LayerOf(n, v) == Some(Bike) <==> n <= v < 2 * n
    ensures LayerOf(n, v) == Some(Car) <==> 2 * n <= v < 3 * n
  {
    if v < n {
      QuotientIs(v, 0, n);
    } else if v < 2 * n {
      QuotientIs(v, 1, n);
    } else if v < 3 * n {
      QuotientIs(v, 2, n);
    } else {
      MultiplesApart(v / n, 3, n);
      assert v == v / n * n + v % n;
    }
  }

  /** The filter accepts exactly the vertices in the ranges of the mode. */
  lemma AcceptsIsRange(net: Network, mode: Mode, v: Vertex)
    requires net.perMode > 0
    ensures Accepts(net, mode, v) <==> InRange(mode, net.perMode, v)
  {
    LayerIsRange(v, net.perMode);
  }

  /** Edges within a copy, and the four kinds of edges between copies; nothing else has a characteristic. */
  lemma CaracteristicIsRange(n: nat, e: Edge)
    requires n > 0 && e.source < 3 * n && e.target < 3 * n
    ensures var c := CaracteristicOf(n, e);
            && (c == Some(Walk) <==> e.source < n && e.target < n)
            && (c == Some(Ride) <==> n <= e.source < 2 * n && n <= e.target < 2 * n)
            && (c == Some(Drive) <==> 2 * n <= e.source && 2 * n <= e.target)
            && (c == Some(BssTake) <==> e.source < n && n <= e.target < 2 * n)
            && (c == Some(BssPutBack) <==> n <= e.source < 2 * n && e.target < n)
            && (c == Some(CarLeaveParking) <==> e.source < n && 2 * n <= e.target)
            && (c == Some(CarPark) <==> 2 * n <= e.source && e.target < n)
  {
    LayerIsRange(e.source, n);
    LayerIsRange(e.target, n);
  }
}
