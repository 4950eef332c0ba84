/** Reading ways, and cutting them into edges of the street network where they meet. */
module OsmWays {
  import opened Basics

  datatype Coord = Coord(lon: int, lat: int)

  /** Flags are set while ways are read and before edges are made; an undefined node has no coordinates. */
  datatype Node = Node(coord: Option<Coord>, usedMoreThanOnce: bool, firstOrLast: bool)

  /** Whether pedestrians, bikes and cars may pass. */
  datatype Rights = Rights(foot: bool, cycle: bool, car: bool)

  /** `ref` is the way it was merged into, or itself; `nodes` are ids. */
  datatype Way = Way(ref: nat, nodes: seq<nat>, forth: Rights, back: Rights, speed: Option<nat>)

  /** A row of the table of edges. */
  datatype Edge = Edge(source: nat, target: nat, way: nat, geometry: seq<Coord>, rights: Rights, speed: Option<nat>)

  type Nodes = map<nat, Node>

  predicate IsDefined(nodes: Nodes, id: nat) {
    id in nodes && nodes[id].coord.Some?
  }

  predicate IsShared(nodes: Nodes, id: nat) {
    id in nodes && nodes[id].usedMoreThanOnce
  }

  /** The nodes that get a row of their own. */
  predicate IsInserted(nodes: Nodes, id: nat) {
    IsDefined(nodes, id) && (nodes[id].usedMoreThanOnce || nodes[id].firstOrLast)
  }

  // ---------- reading ways: which nodes are shared ----------

  /** A reference to a node, read from a street or from another way. */
  datatype Reference = Reference(node: nat, street: bool)

  /** A street refers to `id` when it is known already, from the start or by an earlier reference. */
  ghost predicate MetAgain(known: set<nat>, log: seq<Reference>, id: nat) {
    exists i :: 0 <= i < |log| && log[i] == Reference(id, true) && (id in known || RefersTo(log[..i], id))
  }

  ghost predicate RefersTo(log: seq<Reference>, id: nat) {
    exists j :: 0 <= j < |log| && log[j].node == id
  }

  function References(refs: seq<nat>, street: bool): (r: seq<Reference>)
    ensures |r| == |refs| && forall k :: 0 <= k < |r| ==> r[k] == Reference(refs[k], street)
  {
    seq(|refs|, k requires 0 <= k < |refs| => Reference(refs[k], street))
  }

  /** The nodes that are there, and those flagged, after `log` was read. */
  ghost predicate HasRead(known: set<nat>, log: seq<Reference>, nodes: Nodes) {
    && (forall id :: id in nodes <==> id in known || RefersTo(log, id))
    && (forall id :: IsShared(nodes, id) <==> MetAgain(known, log, id))
  }

  lemma ReadOne(known: set<nat>, log: seq<Reference>, r: Reference, id: nat)
    ensures RefersTo(log + [r], id) <==> RefersTo(log, id) || r.node == id
    ensures MetAgain(known, log + [r], id) <==>
            MetAgain(known, log, id) || (r == Reference(id, true) && (id in known || RefersTo(log, id)))
  {
    var longer := log + [r];
    if RefersTo(log, id) {
      var j :| 0 <= j < |log| && log[j].node == id;
      assert longer[j].node == id;
    }
    if r.node == id {
      assert longer[|log|].node == id;
    }
    assert longer[..|log|] == log;
    assert forall i :: 0 <= i < |log| ==> longer[..i] == log[..i];
    if MetAgain(known, log, id) {
      var i :| 0 <= i < |log| && log[i] == Reference(id, true) && (id in known || RefersTo(log[..i], id));
      assert longer[i] == Reference(id, true);
    }
    if r == Reference(id, true) && (id in known || RefersTo(log, id)) {
      assert longer[|log|] == r;
    }
  }

  /** What a reference does: an unknown node is added, a known one is flagged for a street. */
  function Met(nodes: Nodes, r: Reference): Nodes {
    if r.node !in nodes then nodes[r.node := Node(None, false, false)]
    else if r.street then nodes[r.node := nodes[r.node].(usedMoreThanOnce := true)]
    else nodes
  }

  lemma ReadNext(known: set<nat>, log: seq<Reference>, nodes: Nodes, r: Reference)
    requires HasRead(known, log, nodes)
    ensures HasRead(known, log + [r], Met(nodes, r))
  {
    forall id: nat
      ensures id in Met(nodes, r) <==> id in known || RefersTo(log + [r], id)
      ensures IsShared(Met(nodes, r), id) <==> MetAgain(known, log + [r], id)
    {
      ReadOne(known, log, r, id);
    }
  }

  /** A node that two references of streets lead to is flagged. */
  lemma SharedByStreets(known: set<nat>, log: seq<Reference>, nodes: Nodes, i: nat, j: nat)
    requires HasRead(known, log, nodes) && i < j < |log|
    requires log[i].node == log[j].node && log[j].street
    ensures IsShared(nodes, log[j].node)
  {
    assert log[..j][i].node == log[j].node;
    assert log[j] == Reference(log[j].node, true);
  }

  /** What a street shares with a way read later that is no street is not flagged. */
  lemma SharedWithOtherWay(nodes: Nodes)
    requires HasRead({}, References([1, 2, 3], true) + References([4, 2, 5], false), nodes)
    ensures RefersTo(References([1, 2, 3], true), 2) && RefersTo(References([4, 2, 5], false), 2)
    ensures !IsShared(nodes, 2)
  {
    var a, b := References([1, 2, 3], true), References([4, 2, 5], false);
    assert a[1].node == 2 && b[1].node == 2;
    forall i | 0 <= i < |a + b| && (a + b)[i] == Reference(2, true)
      ensures !RefersTo((a + b)[..i], 2)
    {
      assert i == 1;
      assert (a + b)[..1] == [a[0]];
    }
  }

  // ---------- cutting a way ----------

  /** The defined nodes of a list of ids, in order. */
  function Defined(nodes: Nodes, ids: seq<nat>): (r: seq<nat>)
    ensures forall k :: 0 <= k < |r| ==> IsDefined(nodes, r[k])
  {
    if ids == [] then []
    else
      var n := |ids| - 1;
      Defined(nodes, ids[..n]) + (if IsDefined(nodes, ids[n]) then [ids[n]] else [])
  }

  /** The coordinates of a node; for an undefined one, the greatest there are. */
  function CoordOf(nodes: Nodes, id: nat): Coord {
    if IsDefined(nodes, id) then nodes[id].coord.value else Coord(0x7fffffff, 0x7fffffff)
  }

  function CoordsOf(nodes: Nodes, ids: seq<nat>): (r: seq<Coord>)
    ensures |r| == |ids| && forall k :: 0 <= k < |r| ==> r[k] == CoordOf(nodes, ids[k])
  {
    seq(|ids|, k requires 0 <= k < |ids| => CoordOf(nodes, ids[k]))
  }

  function Final(part: seq<nat>): nat
    requires part != []
  {
    part[|part| - 1]
  }

  /** Where a way is cut: at a shared node, and at the node it ends with, wherever that comes. */
  predicate IsCut(nodes: Nodes, way: Way, id: nat) {
    IsShared(nodes, id) || (way.nodes != [] && id == Final(way.nodes))
  }

  /** Nodes from one cut to the next, both included. */
  type Part = p: seq<nat> | p != [] witness [0]

  /** The parts between cuts, and what has been begun after the last cut. */
  datatype Cutting = Cutting(parts: seq<Part>, open: seq<nat>)

  function Next(nodes: Nodes, way: Way, c: Cutting, id: nat): Cutting {
    if c.open == [] then Cutting(c.parts, [id])
    else if IsCut(nodes, way, id) then Cutting(c.parts + [c.open + [id]], [id])
    else Cutting(c.parts, c.open + [id])
  }

  function Cut(nodes: Nodes, way: Way, ids: seq<nat>): Cutting {
    if ids == [] then Cutting([], [])
    else Next(nodes, way, Cut(nodes, way, ids[..|ids| - 1]), Final(ids))
  }

  function Reversed(s: seq<Coord>): (r: seq<Coord>)
    ensures |r| == |s| && forall k :: 0 <= k < |s| ==> r[k] == s[|s| - 1 - k]
  {
    seq(|s|, k requires 0 <= k < |s| => s[|s| - 1 - k])
  }

  /** The two rows of a part, one for each direction. */
  function PartRows(nodes: Nodes, way: Way, part: Part): (r: seq<Edge>)
    ensures |r| == 2
  {
    var geometry := CoordsOf(nodes, part);
    [Edge(part[0], Final(part), way.ref, geometry, way.forth, way.speed),
     Edge(Final(part), part[0], way.ref, Reversed(geometry), way.back, way.speed)]
  }

  function Rows(nodes: Nodes, way: Way, parts: seq<Part>): (r: seq<Edge>)
    ensures |r| == 2 * |parts|
  {
    if parts == [] then []
    else Rows(nodes, way, parts[..|parts| - 1]) + PartRows(nodes, way, parts[|parts| - 1])
  }

  function WayRows(nodes: Nodes, way: Way): seq<Edge> {
    Rows(nodes, way, Cut(nodes, way, Defined(nodes, way.nodes)).parts)
  }

  /** The rows of the first `n` ways. */
  function AllRows(nodes: Nodes, ways: seq<Way>, n: nat): seq<Edge>
    requires n <= |ways|
  {
    if n == 0 then [] else AllRows(nodes, ways, n - 1) + WayRows(nodes, ways[n - 1])
  }

  lemma {:induction false} RowAt(nodes: Nodes, way: Way, parts: seq<Part>, i: nat)
    requires i < |parts|
    ensures Rows(nodes, way, parts)[2 * i] == PartRows(nodes, way, parts[i])[0]
    ensures Rows(nodes, way, parts)[2 * i + 1] == PartRows(nodes, way, parts[i])[1]
    decreases |parts|
  {
    if i < |parts| - 1 {
      RowAt(nodes, way, parts[..|parts| - 1], i);
    }
  }

  // ---------- what the parts are ----------

  /** Cut at both ends, unless it is the beginning of the way, and nowhere in between. */
  ghost predicate IsPart(nodes: Nodes, way: Way, part: seq<nat>, begins: bool) {
    && |part| >= 2
    && (begins || IsCut(nodes, way, part[0]))
    && IsCut(nodes, way, Final(part))
    && Uncut(nodes, way, part[1..|part| - 1])
  }

  ghost predicate Uncut(nodes: Nodes, way: Way, ids: seq<nat>) {
    forall k :: 0 <= k < |ids| ==> !IsCut(nodes, way, ids[k])
  }

  ghost predicate IsCutting(nodes: Nodes, way: Way, ids: seq<nat>, c: Cutting) {
    && (c.open == [] <==> ids == [])
    && (ids == [] ==> c.parts == [])
    && (ids != [] ==> Uncut(nodes, way, c.open[1..]))
    && (c.parts == [] ==> c.open == ids)
    && (c.parts != [] ==> c.parts[0][0] == ids[0] && IsCut(nodes, way, c.open[0]))
    && forall k :: 0 <= k < |c.parts| ==> IsPart(nodes, way, c.parts[k], k == 0)
  }

  lemma NextIsCutting(nodes: Nodes, way: Way, ids: seq<nat>, c: Cutting, id: nat)
    requires IsCutting(nodes, way, ids, c)
    ensures IsCutting(nodes, way, ids + [id], Next(nodes, way, c, id))
  {
    if c.open != [] {
      assert (c.open + [id])[1..] == c.open[1..] + [id];
      if IsCut(nodes, way, id) {
        assert IsPart(nodes, way, c.open + [id], c.parts == []) by {
          assert (c.open + [id])[1..|c.open|] == c.open[1..];
        }
      }
    }
  }

  lemma {:induction false} CutIsCutting(nodes: Nodes, way: Way, ids: seq<nat>)
    ensures IsCutting(nodes, way, ids, Cut(nodes, way, ids))
  {
    if ids != [] {
      var n := |ids| - 1;
      CutIsCutting(nodes, way, ids[..n]);
      NextIsCutting(nodes, way, ids[..n], Cut(nodes, way, ids[..n]), ids[n]);
      assert ids == ids[..n] + [ids[n]];
    }
  }

  // ---------- nothing is lost ----------

  /** The parts glued where one ends and the next begins. */
  function Glued(parts: seq<Part>): seq<nat> {
    if parts == [] then []
    else if |parts| == 1 then parts[0]
    else Glued(parts[..|parts| - 1]) + parts[|parts| - 1][1..]
  }

  ghost predicate AddsUp(ids: seq<nat>, c: Cutting) {
    ids == if c.parts == [] then c.open else if c.open == [] then Glued(c.parts) else Glued(c.parts) + c.open[1..]
  }

  lemma NextAddsUp(nodes: Nodes, way: Way, ids: seq<nat>, c: Cutting, id: nat)
    requires AddsUp(ids, c) && (c.open == [] ==> c.parts == [])
    ensures AddsUp(ids + [id], Next(nodes, way, c, id))
  {
    var next := Next(nodes, way, c, id);
    if c.open != [] && IsCut(nodes, way, id) {
      assert next.parts[..|c.parts|] == c.parts;
      assert (c.open + [id])[1..] == c.open[1..] + [id];
      assert next.open[1..] == [];
    } else if c.open != [] {
      assert next.open[1..] == c.open[1..] + [id];
    }
  }

  /** The parts and what is left open make up all nodes. */
  lemma {:induction false} PartsAddUp(nodes: Nodes, way: Way, ids: seq<nat>)
    ensures AddsUp(ids, Cut(nodes, way, ids))
  {
    if ids != [] {
      var n := |ids| - 1;
      PartsAddUp(nodes, way, ids[..n]);
      CutIsCutting(nodes, way, ids[..n]);
      NextAddsUp(nodes, way, ids[..n], Cut(nodes, way, ids[..n]), ids[n]);
      assert ids == ids[..n] + [ids[n]];
    }
  }

  /** The geometries of the forward rows, glued in the same way. */
  function GluedRows(rows: seq<Edge>): seq<Coord> {
    if |rows| < 2 then []
    else if |rows| < 4 then rows[0].geometry
    else
      var geometry := rows[|rows| - 2].geometry;
      GluedRows(rows[..|rows| - 2]) + geometry[if geometry == [] then 0 else 1..]
  }

  lemma GlueTwo(rows: seq<Edge>, e: Edge, f: Edge)
    requires e.geometry != []
    ensures GluedRows(rows + [e, f]) == if |rows| < 2 then (rows + [e])[0].geometry else GluedRows(rows) + e.geometry[1..]
  {
    assert (rows + [e, f])[..|rows|] == rows;
  }

  lemma {:induction false} RowsGlue(nodes: Nodes, way: Way, parts: seq<Part>)
    ensures GluedRows(Rows(nodes, way, parts)) == CoordsOf(nodes, Glued(parts))
  {
    if parts != [] {
      var rest, part := parts[..|parts| - 1], parts[|parts| - 1];
      RowsGlue(nodes, way, rest);
      var two := PartRows(nodes, way, part);
      GlueTwo(Rows(nodes, way, rest), two[0], two[1]);
      assert two == [two[0], two[1]];
      assert part == [part[0]] + part[1..];
      GluedCoords(nodes, [part[0]], part[1..]);
      assert CoordsOf(nodes, part)[1..] == CoordsOf(nodes, part[1..]);
      GluedCoords(nodes, Glued(rest), part[1..]);
    }
  }

  lemma GluedCoords(nodes: Nodes, a: seq<nat>, b: seq<nat>)
    ensures CoordsOf(nodes, a + b) == CoordsOf(nodes, a) + CoordsOf(nodes, b)
  {
  }

  /**
   The forward geometries of a way with at least two defined nodes reproduce them exactly when the
   last defined one is shared or ends the way.
   */
  lemma WayIsReproduced(nodes: Nodes, way: Way)
    requires |Defined(nodes, way.nodes)| >= 2
    ensures GluedRows(WayRows(nodes, way)) == CoordsOf(nodes, Defined(nodes, way.nodes))
            <==> IsCut(nodes, way, Final(Defined(nodes, way.nodes)))
  {
    var ids := Defined(nodes, way.nodes);
    var c := Cut(nodes, way, ids);
    CutIsCutting(nodes, way, ids);
    PartsAddUp(nodes, way, ids);
    RowsGlue(nodes, way, c.parts);
    LastIsOpen(nodes, way, ids);
    if IsCut(nodes, way, Final(ids)) {
      assert c.open == [Final(ids)];
      assert Glued(c.parts) == ids;
    } else {
      assert |Glued(c.parts)| < |ids|;
    }
  }

  /** The forward geometries of a way whose nodes are all defined run through all of its nodes. */
  lemma DefinedWayIsReproduced(nodes: Nodes, way: Way)
    requires |way.nodes| >= 2 && forall k :: 0 <= k < |way.nodes| ==> IsDefined(nodes, way.nodes[k])
    ensures GluedRows(WayRows(nodes, way)) == CoordsOf(nodes, way.nodes)
  {
    AllDefined(nodes, way.nodes);
    WayIsReproduced(nodes, way);
  }

  lemma {:induction false} AllDefined(nodes: Nodes, ids: seq<nat>)
    requires forall k :: 0 <= k < |ids| ==> IsDefined(nodes, ids[k])
    ensures Defined(nodes, ids) == ids
  {
    if ids != [] {
      var n := |ids| - 1;
      assert IsDefined(nodes, ids[n]);
      AllDefined(nodes, ids[..n]);
      assert ids == ids[..n] + [ids[n]];
    }
  }

  lemma LastIsOpen(nodes: Nodes, way: Way, ids: seq<nat>)
    requires ids != []
    ensures Cut(nodes, way, ids).open != [] && Final(Cut(nodes, way, ids).open) == Final(ids)
    ensures |ids| >= 2 && IsCut(nodes, way, Final(ids)) <==> Cut(nodes, way, ids).open == [Final(ids)] && |ids| >= 2
  {
    CutIsCutting(nodes, way, ids[..|ids| - 1]);
  }

  // ---------- rows and nodes fit together ----------

  /** The first and the last defined node of the way are flagged. */
  ghost predicate EndsFlagged(nodes: Nodes, way: Way) {
    var ids := Defined(nodes, way.nodes);
    ids != [] ==> nodes[ids[0]].firstOrLast && nodes[Final(ids)].firstOrLast
  }

  lemma {:induction false} DefinedAre(nodes: Nodes, ids: seq<nat>, id: nat)
    ensures id in Defined(nodes, ids) <==> id in ids && IsDefined(nodes, id)
    ensures ids != [] && IsDefined(nodes, Final(ids)) ==> Defined(nodes, ids) != [] && Final(Defined(nodes, ids)) == Final(ids)
  {
    if ids != [] {
      DefinedAre(nodes, ids[..|ids| - 1], id);
      assert ids == ids[..|ids| - 1] + [Final(ids)];
    }
  }

  lemma {:induction false} PartsAreFrom(nodes: Nodes, way: Way, ids: seq<nat>, id: nat)
    ensures id in Cut(nodes, way, ids).open ==> id in ids
    ensures forall k :: 0 <= k < |Cut(nodes, way, ids).parts| && id in Cut(nodes, way, ids).parts[k] ==> id in ids
  {
    if ids != [] {
      PartsAreFrom(nodes, way, ids[..|ids| - 1], id);
      assert ids == ids[..|ids| - 1] + [Final(ids)];
    }
  }

  /** A defined node at which a way begins or is cut has a row of its own. */
  lemma CutIsInserted(nodes: Nodes, way: Way, id: nat)
    requires EndsFlagged(nodes, way)
    requires id in Defined(nodes, way.nodes)
    requires id == Defined(nodes, way.nodes)[0] || IsCut(nodes, way, id)
    ensures IsInserted(nodes, id)
  {
    DefinedAre(nodes, way.nodes, id);
  }

  /** Parts join nodes that have rows of their own, and run through nodes that are not shared. */
  lemma PartsAreClosed(nodes: Nodes, way: Way, i: nat)
    requires EndsFlagged(nodes, way) && i < |Cut(nodes, way, Defined(nodes, way.nodes)).parts|
    ensures var part := Cut(nodes, way, Defined(nodes, way.nodes)).parts[i];
            && IsInserted(nodes, part[0]) && IsInserted(nodes, Final(part))
            && forall k :: 0 < k < |part| - 1 ==> !IsShared(nodes, part[k])
  {
    var ids := Defined(nodes, way.nodes);
    var part := Cut(nodes, way, ids).parts[i];
    CutIsCutting(nodes, way, ids);
    assert IsPart(nodes, way, part, i == 0);
    PartsAreFrom(nodes, way, ids, part[0]);
    PartsAreFrom(nodes, way, ids, Final(part));
    CutIsInserted(nodes, way, part[0]);
    CutIsInserted(nodes, way, Final(part));
    forall k | 0 < k < |part| - 1
      ensures !IsShared(nodes, part[k])
    {
      assert part[1..|part| - 1][k - 1] == part[k];
    }
  }

  /** Both ends of every row are nodes that have rows of their own. */
  lemma RowsAreClosed(nodes: Nodes, way: Way, i: nat)
    requires EndsFlagged(nodes, way) && i < |WayRows(nodes, way)|
    ensures IsInserted(nodes, WayRows(nodes, way)[i].source) && IsInserted(nodes, WayRows(nodes, way)[i].target)
  {
    RowAt(nodes, way, Cut(nodes, way, Defined(nodes, way.nodes)).parts, i / 2);
    PartsAreClosed(nodes, way, i / 2);
    assert i == 2 * (i / 2) || i == 2 * (i / 2) + 1;
  }

  /** The same for the rows of all ways. */
  lemma {:induction false} AllRowsAreClosed(nodes: Nodes, ways: seq<Way>, n: nat, i: nat)
    requires n <= |ways| && i < |AllRows(nodes, ways, n)| && forall w :: w in ways ==> EndsFlagged(nodes, w)
    ensures IsInserted(nodes, AllRows(nodes, ways, n)[i].source) && IsInserted(nodes, AllRows(nodes, ways, n)[i].target)
  {
    var before := |AllRows(nodes, ways, n - 1)|;
    if i < before {
      AllRowsAreClosed(nodes, ways, n - 1, i);
    } else {
      RowsAreClosed(nodes, ways[n - 1], i - before);
    }
  }

  /** No two streets meet at a node in the middle of a row. */
  lemma InteriorIsPrivate(known: set<nat>, log: seq<Reference>, read: Nodes, nodes: Nodes, way: Way, i: nat, k: nat, m: nat, n: nat)
    requires HasRead(known, log, read) && forall id :: IsShared(nodes, id) <==> IsShared(read, id)
    requires EndsFlagged(nodes, way) && i < |Cut(nodes, way, Defined(nodes, way.nodes)).parts|
    requires 0 < k < |Cut(nodes, way, Defined(nodes, way.nodes)).parts[i]| - 1
    requires m < n < |log| && log[m].node == log[n].node == Cut(nodes, way, Defined(nodes, way.nodes)).parts[i][k]
    ensures !log[n].street
  {
    PartsAreClosed(nodes, way, i);
    if log[n].street {
      SharedByStreets(known, log, read, m, n);
    }
  }

  // ---------- the cache ----------

  class OSMCache {
    var nodes: Nodes
    const ways: seq<Way>
    /** The tables of nodes and edges. */
    var nodeTable: map<nat, Coord>
    var edgeTable: seq<Edge>

    constructor (nodes: Nodes, ways: seq<Way>)
      ensures this.nodes == nodes && this.ways == ways && nodeTable == map[] && edgeTable == []
    {
      this.nodes, this.ways, nodeTable, edgeTable := nodes, ways, map[], [];
    }

    /** Reads the references of one way; a known node is flagged when the way is a street. */
    method ReadWay(refs: seq<nat>, isStreet: bool, ghost known: set<nat>, ghost log: seq<Reference>)
      requires HasRead(known, log, nodes)
      modifies this`nodes
      ensures HasRead(known, log + References(refs, isStreet), nodes)
    {
      ghost var read := log;
      assert read + References([], isStreet) == log;
      for i := 0 to |refs|
        invariant read == log + References(refs[..i], isStreet) && HasRead(known, read, nodes)
      {
        var id := refs[i];
        ReadNext(known, read, nodes, Reference(id, isStreet));
        if id !in nodes {
          nodes := nodes[id := Node(None, false, false)];
        } else if isStreet {
          nodes := nodes[id := nodes[id].(usedMoreThanOnce := true)];
        }
        read := read + [Reference(id, isStreet)];
        assert References(refs[..i + 1], isStreet) == References(refs[..i], isStreet) + [Reference(id, isStreet)];
      }
      assert refs[..|refs|] == refs;
    }

    /** Sets the flag of one node. */
    method SetFirstOrLast(id: nat)
      requires id in nodes
      modifies this`nodes
      ensures nodes == old(nodes)[id := old(nodes)[id].(firstOrLast := true)]
    {
      nodes := nodes[id := nodes[id].(firstOrLast := true)];
    }

    /** Flags the first and the last defined node of every way; nothing else changes. */
    method FlagNodes()
      modifies this`nodes
      ensures SameBut(old(nodes), nodes)
      ensures forall w :: w in ways ==> EndsFlagged(nodes, w)
    {
      for k := 0 to |ways|
        invariant SameBut(old(nodes), nodes)
        invariant forall m :: 0 <= m < k ==> EndsFlagged(nodes, ways[m])
      {
        ghost var was := nodes;
        FlagEnds(ways[k].nodes);
        forall m | 0 <= m <= k
          ensures EndsFlagged(nodes, ways[m])
        {
          DefinedSame(was, nodes, ways[m].nodes);
        }
      }
    }

    method FlagFirst(ids: seq<nat>)
      modifies this`nodes
      ensures SameBut(old(nodes), nodes)
      ensures var d := Defined(old(nodes), ids); d != [] ==> nodes[d[0]].firstOrLast
    {
      ghost var was := nodes;
      var i := 0;
      while i < |ids| && !IsDefined(nodes, ids[i])
        invariant 0 <= i <= |ids| && Defined(was, ids[..i]) == []
      {
        assert ids[..i + 1][..i] == ids[..i];
        i := i + 1;
      }
      FirstDefined(was, ids, i);
      if i < |ids| {
        SetFirstOrLast(ids[i]);
      }
    }

    method FlagLast(ids: seq<nat>)
      modifies this`nodes
      ensures SameBut(old(nodes), nodes)
      ensures var d := Defined(old(nodes), ids); d != [] ==> nodes[Final(d)].firstOrLast
    {
      ghost var was := nodes;
      var j := |ids|;
      assert ids[..j] == ids;
      while j > 0 && !IsDefined(nodes, ids[j - 1])
        invariant 0 <= j <= |ids| && Defined(was, ids[..j]) == Defined(was, ids)
      {
        assert ids[..j][..j - 1] == ids[..j - 1];
        j := j - 1;
      }
      if j > 0 {
        assert ids[..j][..j - 1] == ids[..j - 1];
        SetFirstOrLast(ids[j - 1]);
      }
    }

    method FlagEnds(ids: seq<nat>)
      modifies this`nodes
      ensures SameBut(old(nodes), nodes)
      ensures var d := Defined(nodes, ids); d != [] ==> nodes[d[0]].firstOrLast && nodes[Final(d)].firstOrLast
    {
      ghost var was := nodes;
      FlagFirst(ids);
      ghost var flagged := nodes;
      FlagLast(ids);
      DefinedSame(was, flagged, ids);
      DefinedSame(flagged, nodes, ids);
    }

    method InsertNodes()
      modifies this`nodeTable
      ensures forall id :: id in nodeTable <==>
                (id in old(nodeTable) || (id in nodes && nodes[id].coord.Some? && (nodes[id].usedMoreThanOnce || nodes[id].firstOrLast)))
      ensures forall id :: id in nodes && nodes[id].coord.Some? && (nodes[id].usedMoreThanOnce || nodes[id].firstOrLast) ==>
                nodeTable[id] == nodes[id].coord.value
      ensures forall id :: id in old(nodeTable) && !IsInserted(nodes, id) ==> nodeTable[id] == old(nodeTable)[id]
    {
      var rest := nodes.Keys;
      while rest != {}
        invariant rest <= nodes.Keys
        invariant forall id :: id in nodeTable <==> id in old(nodeTable) || (IsInserted(nodes, id) && id !in rest)
        invariant forall id :: id in nodeTable ==>
                    nodeTable[id] == if IsInserted(nodes, id) && id !in rest then CoordOf(nodes, id) else old(nodeTable)[id]
        decreases |rest|
      {
        var id :| id in rest;
        rest := rest - {id};
        if IsInserted(nodes, id) {
          nodeTable := nodeTable[id := CoordOf(nodes, id)];
        }
      }
    }

    /** The rows of one way, in both directions from each cut to the next. */
    method InsertWay(way: Way)
      modifies this`edgeTable
      ensures edgeTable == old(edgeTable) + WayRows(nodes, way)
    {
      var prev: Option<nat>, coords: seq<Coord> := None, [];
      ghost var c := Cutting([], []);
      for i := 0 to |way.nodes|
        invariant c == Cut(nodes, way, Defined(nodes, way.nodes[..i])) && At(nodes, c, prev, coords)
        invariant edgeTable == old(edgeTable) + Rows(nodes, way, c.parts)
      {
        NextDefined(nodes, way, way.nodes, i);
        if IsDefined(nodes, way.nodes[i]) {
          prev, coords := Visit(way, way.nodes[i], prev, coords, c, old(edgeTable));
          c := Next(nodes, way, c, way.nodes[i]);
        }
      }
      assert way.nodes[..|way.nodes|] == way.nodes;
    }

    /** One defined node of a way: two rows when it is a cut behind the last one. */
    method Visit(way: Way, node: nat, prev: Option<nat>, coords: seq<Coord>, ghost c: Cutting, ghost was: seq<Edge>)
      returns (prev': Option<nat>, coords': seq<Coord>)
      requires At(nodes, c, prev, coords) && edgeTable == was + Rows(nodes, way, c.parts)
      modifies this`edgeTable
      ensures At(nodes, Next(nodes, way, c, node), prev', coords')
      ensures edgeTable == was + Rows(nodes, way, Next(nodes, way, c, node).parts)
    {
      prev', coords' := prev, coords;
      if prev.Some? && IsCut(nodes, way, node) {
        coords' := coords + [CoordOf(nodes, node)];
        var forth := Edge(prev.value, node, way.ref, coords', way.forth, way.speed);
        coords' := Reversed(coords');
        var back := Edge(node, prev.value, way.ref, coords', way.back, way.speed);
        edgeTable := edgeTable + [forth, back];
        NextRows(nodes, way, c, node);
        prev' := None;
      }
      if prev'.None? {
        coords', prev' := [], Some(node);
      }
      coords' := coords' + [CoordOf(nodes, node)];
    }

    /** The rows of all ways, one way after the other. */
    method InsertEdges()
      modifies this`edgeTable
      ensures edgeTable == old(edgeTable) + AllRows(nodes, ways, |ways|)
    {
      for k := 0 to |ways|
        invariant edgeTable == old(edgeTable) + AllRows(nodes, ways, k)
      {
        InsertWay(ways[k]);
      }
    }
  }

  /** What the loop over a way carries along: the node of the last cut and the coordinates from there. */
  ghost predicate At(nodes: Nodes, c: Cutting, prev: Option<nat>, coords: seq<Coord>) {
    prev == (if c.open == [] then None else Some(c.open[0])) && coords == CoordsOf(nodes, c.open)
  }

  /** Only flags of ends were set. */
  ghost predicate SameBut(before: Nodes, after: Nodes) {
    && before.Keys == after.Keys
    && forall id :: id in before ==>
         && after[id].coord == before[id].coord && after[id].usedMoreThanOnce == before[id].usedMoreThanOnce
         && (before[id].firstOrLast ==> after[id].firstOrLast)
  }

  lemma {:induction false} DefinedSame(before: Nodes, after: Nodes, ids: seq<nat>)
    requires SameBut(before, after)
    ensures Defined(before, ids) == Defined(after, ids)
  {
    if ids != [] {
      DefinedSame(before, after, ids[..|ids| - 1]);
    }
  }

  lemma {:induction false} FirstDefined(nodes: Nodes, ids: seq<nat>, i: nat)
    requires i <= |ids| && Defined(nodes, ids[..i]) == [] && (i < |ids| ==> IsDefined(nodes, ids[i]))
    ensures i < |ids| ==> Defined(nodes, ids) != [] && Defined(nodes, ids)[0] == ids[i]
    ensures i == |ids| ==> Defined(nodes, ids) == []
  {
    if i == |ids| {
      assert ids[..i] == ids;
    } else if i == |ids| - 1 {
      assert Defined(nodes, ids) == Defined(nodes, ids[..i]) + [ids[i]];
    } else {
      assert ids[..|ids| - 1][..i] == ids[..i];
      FirstDefined(nodes, ids[..|ids| - 1], i);
    }
  }

  lemma NextDefined(nodes: Nodes, way: Way, ids: seq<nat>, i: nat)
    requires i < |ids|
    ensures Cut(nodes, way, Defined(nodes, ids[..i + 1])) ==
            var c := Cut(nodes, way, Defined(nodes, ids[..i])); if IsDefined(nodes, ids[i]) then Next(nodes, way, c, ids[i]) else c
  {
    assert ids[..i + 1][..i] == ids[..i];
    var before, after := Defined(nodes, ids[..i]), Defined(nodes, ids[..i + 1]);
    if IsDefined(nodes, ids[i]) {
      assert after == before + [ids[i]];
      assert after[..|after| - 1] == before;
    } else {
      assert after == before;
    }
  }

  lemma NextRows(nodes: Nodes, way: Way, c: Cutting, id: nat)
    requires c.open != [] && IsCut(nodes, way, id)
    ensures var coords := CoordsOf(nodes, c.open) + [CoordOf(nodes, id)];
            Rows(nodes, way, Next(nodes, way, c, id).parts) == Rows(nodes, way, c.parts)
              + [Edge(c.open[0], id, way.ref, coords, way.forth, way.speed), Edge(id, c.open[0], way.ref, Reversed(coords), way.back, way.speed)]
  {
    var parts := Next(nodes, way, c, id).parts;
    assert parts[..|parts| - 1] == c.parts;
    assert CoordsOf(nodes, c.open + [id]) == CoordsOf(nodes, c.open) + [CoordOf(nodes, id)];
  }
}
