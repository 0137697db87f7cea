/**
 * The diagram's values — states (nodes), transitions (edges), the connection
 * a drag gesture reports — and the pure list updates the editor's state
 * setters apply to them: filtering out deleted ids, appending a new state,
 * relabelling by id, building a new edge, and the projection handed to the
 * renderer.
 */
module Graph {
  import opened Text

  datatype Position = Position(x: int, y: int)

  /** A state of the automaton; `kind` is the renderer's node `type`. */
  datatype Node = Node(id: string, position: Position, caption: string, kind: string)

  datatype Marker = ArrowClosed

  /**
   * A transition. `caption` is absent on an edge that never had one; `kind` is
   * the renderer's edge `type`, absent until the render projection sets it.
   */
  datatype Edge = Edge(
    id: string,
    source: string,
    target: string,
    caption: Option<string>,
    markerEnd: Option<Marker>,
    kind: Option<string>)

  /** What the renderer reports when the user drags from one node to another. */
  datatype Connection = Connection(source: string, target: string)

  /** The fields an edge id encodes. */
  datatype EdgeKey = EdgeKey(source: string, target: string, time: nat)

  /** The two states the editor starts with. */
  const InitialNodes: seq<Node> := [
    Node("1", Position(100, 100), "q0 (Inicial)", "default"),
    Node("2", Position(400, 100), "q1 (Final)", "default")
  ]

  /** The one transition the editor starts with. */
  const InitialEdges: seq<Edge> := [
    Edge("e1-2", "1", "2", Some("a"), Some(ArrowClosed), None)
  ]

  function NodeIds(nds: seq<Node>): set<string> {
    set n | n in nds :: n.id
  }

  function EdgeIds(eds: seq<Edge>): set<string> {
    set e | e in eds :: e.id
  }

  // ---------------------------------------------------------------------------
  // Deletion
  // ---------------------------------------------------------------------------

  /** `r` is `s` with some elements left out, the rest in their original order. */
  ghost predicate IsSubsequence<T>(r: seq<T>, s: seq<T>)
    decreases |s|
  {
    || r == []
    || (s != [] && ((r[0] == s[0] && IsSubsequence(r[1..], s[1..])) || IsSubsequence(r, s[1..])))
  }

  /**
   * `xs.filter(x => !deleted.find(d => d.id === idOf(x)))`: exactly the
   * elements whose id is not listed.
   */
  function Without<T(==,!new)>(xs: seq<T>, idOf: T -> string, deleted: seq<string>): (r: seq<T>)
    ensures forall x :: x in r <==> x in xs && idOf(x) !in deleted
    ensures (forall i :: 0 <= i < |xs| ==> idOf(xs[i]) !in deleted) ==> r == xs
    decreases |xs|
  {
    if xs == [] then []
    else
      var rest := Without(xs[1..], idOf, deleted);
      assert xs == [xs[0]] + xs[1..];
      if idOf(xs[0]) in deleted then rest else [xs[0]] + rest
  }

  /** The kept elements stay in their original order, each as often as before. */
  lemma {:induction false} WithoutKeepsOrderAndCount<T(!new)>(xs: seq<T>, idOf: T -> string, deleted: seq<string>)
    ensures IsSubsequence(Without(xs, idOf, deleted), xs)
    ensures forall x :: multiset(Without(xs, idOf, deleted))[x] ==
                        (if idOf(x) in deleted then 0 else multiset(xs)[x])
    decreases |xs|
  {
    if xs != [] {
      WithoutKeepsOrderAndCount(xs[1..], idOf, deleted);
      var rest := Without(xs[1..], idOf, deleted);
      assert xs == [xs[0]] + xs[1..];
      if idOf(xs[0]) !in deleted {
        assert ([xs[0]] + rest)[1..] == rest;
      }
    }
  }

  /** Every node id is a decimal numeral, as `addState` and the initial diagram make them. */
  ghost predicate DecimalNodeIds(nds: seq<Node>) {
    forall i :: 0 <= i < |nds| ==> IsDecimal(nds[i].id)
  }

  /** Every edge id starts with `e`, as `onConnect` and the initial diagram make them. */
  ghost predicate TaggedEdgeIds(eds: seq<Edge>) {
    forall i :: 0 <= i < |eds| ==> |eds[i].id| > 0 && eds[i].id[0] == 'e'
  }

  /** Under those two shapes no node id is an edge id. */
  lemma NodeIdsAreNotEdgeIds(nds: seq<Node>, eds: seq<Edge>)
    requires DecimalNodeIds(nds) && TaggedEdgeIds(eds)
    ensures NodeIds(nds) !! EdgeIds(eds)
  {
  }

  /** Filtering keeps only elements of the input, so it keeps the id shapes. */
  lemma WithoutKeepsIdShapes(nds: seq<Node>, eds: seq<Edge>, deleted: seq<string>)
    requires DecimalNodeIds(nds) && TaggedEdgeIds(eds)
    ensures DecimalNodeIds(Without(nds, NodeId, deleted))
    ensures TaggedEdgeIds(Without(eds, EdgeId, deleted))
  {
    var ns := Without(nds, NodeId, deleted);
    forall i | 0 <= i < |ns| ensures IsDecimal(ns[i].id) {
      assert ns[i] in nds;
    }
    var es := Without(eds, EdgeId, deleted);
    forall i | 0 <= i < |es| ensures |es[i].id| > 0 && es[i].id[0] == 'e' {
      assert es[i] in eds;
    }
  }

  function NodeId(n: Node): string { n.id }

  function EdgeId(e: Edge): string { e.id }

  /**
   * Deleting nodes filters the edge list by the EDGE's own id, not by its
   * endpoints: when no listed id is an edge id, every edge stays, including
   * the ones whose source or target was deleted.
   */
  lemma NodeDeletionKeepsEdges(eds: seq<Edge>, deleted: seq<string>)
    requires forall d :: d in deleted ==> d !in EdgeIds(eds)
    ensures Without(eds, EdgeId, deleted) == eds
  {
  }

  /**
   * When the listed ids are node ids and ids have the shapes the editor
   * issues, the handler's own edge filter removes no edge. (Edges the
   * renderer drops through its change notifications are another matter.)
   */
  lemma NodeDeletionRemovesNoEdge(nds: seq<Node>, eds: seq<Edge>, deleted: seq<string>)
    requires DecimalNodeIds(nds) && TaggedEdgeIds(eds)
    ensures (forall d :: d in deleted ==> d in NodeIds(nds)) ==> Without(eds, EdgeId, deleted) == eds
  {
    NodeIdsAreNotEdgeIds(nds, eds);
  }

  /** A deletion that leaves a transition pointing at a state that is gone. */
  lemma DeletionCanLeaveDanglingEdge()
    ensures var nds := Without(InitialNodes, NodeId, ["2"]);
            var eds := Without(InitialEdges, EdgeId, ["2"]);
            eds == InitialEdges && "2" !in NodeIds(nds) && eds[0].target == "2"
  {
  }

  // ---------------------------------------------------------------------------
  // Adding a state
  // ---------------------------------------------------------------------------

  /**
   * The state appended when the diagram holds `count` states: its id is
   * `count + 1` and its caption `q` followed by `count`, both in decimal, and it
   * sits 60 units further right for every existing state.
   */
  function NewState(count: nat): (n: Node)
    ensures IsDecimal(n.id) && DecimalValue(n.id) == count + 1 && n.id[0] != '0'
    ensures |n.caption| >= 2 && n.caption[0] == 'q' && IsDecimal(n.caption[1..])
    ensures DecimalValue(n.caption[1..]) == count && (n.caption[1] == '0' ==> n.caption == "q0")
    ensures n.position == Position(100 + count * 60, 200) && n.kind == "default"
  {
    DecimalRoundTrip(count + 1);
    DecimalRoundTrip(count);
    var caption := "q" + NatToDecimal(count);
    assert caption[1..] == NatToDecimal(count);
    Node(NatToDecimal(count + 1), Position(100 + count * 60, 200), caption, "default")
  }

  /**
   * As long as every id is a number no larger than the node count (true of the
   * initial diagram and kept by adding states), the new id is fresh.
   */
  lemma NewStateFreshWhileIdsBounded(nds: seq<Node>)
    requires forall i :: 0 <= i < |nds| ==> IsDecimal(nds[i].id) && DecimalValue(nds[i].id) <= |nds|
    ensures NewState(|nds|).id !in NodeIds(nds)
    ensures forall i :: 0 <= i < |nds| + 1 ==>
      var nds' := nds + [NewState(|nds|)];
      IsDecimal(nds'[i].id) && DecimalValue(nds'[i].id) <= |nds'|
  {
  }

  /** After a deletion the count-derived id can repeat one still in use. */
  lemma NewStateIdCanRepeat()
    ensures var nds := Without(InitialNodes, NodeId, ["1"]);
            NewState(|nds|).id in NodeIds(nds)
  {
  }

  // ---------------------------------------------------------------------------
  // Connecting
  // ---------------------------------------------------------------------------

  /**
   * `e${source}-${target}-${time}`: tagged with `e`, so never a decimal node
   * id, and ending with the decimal time after the two endpoints and three
   * separators.
   */
  function EdgeIdFor(source: string, target: string, time: nat): (r: string)
    ensures |r| > 0 && r[0] == 'e' && !IsDecimal(r)
    ensures var k := |source| + |target| + 3;
            |r| > k && r[k..] == NatToDecimal(time)
  {
    "e" + source + "-" + target + "-" + NatToDecimal(time)
  }

  /**
   * The edge `onConnect` hands to `addEdge`: the connection's endpoints, a
   * time-stamped id, an empty caption and a closed arrow head.
   */
  function NewEdge(c: Connection, time: nat): (e: Edge)
    ensures e.id == EdgeIdFor(c.source, c.target, time)
    ensures e.source == c.source && e.target == c.target
    ensures e.caption == Some("") && e.markerEnd == Some(ArrowClosed) && e.kind == None
    ensures '-' !in c.source && '-' !in c.target ==>
      ParseEdgeId(e.id) == Some(EdgeKey(c.source, c.target, time))
  {
    var e := Edge(EdgeIdFor(c.source, c.target, time), c.source, c.target, Some(""), Some(ArrowClosed), None);
    if '-' !in c.source && '-' !in c.target then
      EdgeIdRoundTrip(c.source, c.target, time);
      e
    else e
  }

  /**
   * The new edge's id reads back as its endpoints and time exactly when the
   * endpoints contain no dash, as every node id the editor issues does.
   */
  lemma NewEdgeIdReadsBack(c: Connection, time: nat)
    ensures ParseEdgeId(NewEdge(c, time).id) ==
      if '-' !in c.source && '-' !in c.target then Some(EdgeKey(c.source, c.target, time)) else None
  {
    if '-' !in c.source && '-' !in c.target {
      EdgeIdRoundTrip(c.source, c.target, time);
    } else {
      EdgeIdUnreadableWithDashes(c.source, c.target, time);
    }
  }

  /** Reads an edge id of the form `e<source>-<target>-<digits>` back into its fields. */
  function ParseEdgeId(id: string): (r: Option<EdgeKey>)
    ensures r.Some? ==> '-' !in r.value.source && '-' !in r.value.target
  {
    if |id| == 0 || id[0] != 'e' then None
    else
      var body := id[1..];
      match IndexOf(body, '-')
      case None => None
      case Some(i) =>
        var rest := body[i + 1..];
        match IndexOf(rest, '-')
        case None => None
        case Some(j) =>
          var digits := rest[j + 1..];
          if IsDecimal(digits) then Some(EdgeKey(body[..i], rest[..j], DecimalValue(digits))) else None
  }

  /** With dash-free endpoints (every id the editor issues), the id gives back all three fields. */
  lemma EdgeIdRoundTrip(source: string, target: string, time: nat)
    requires '-' !in source && '-' !in target
    ensures ParseEdgeId(EdgeIdFor(source, target, time)) == Some(EdgeKey(source, target, time))
  {
    var digits := NatToDecimal(time);
    var id := EdgeIdFor(source, target, time);
    var body := id[1..];
    assert body == source + ['-'] + (target + "-" + digits);
    IndexOfAfterPrefix(source, '-', target + "-" + digits);
    var rest := body[|source| + 1..];
    assert rest == target + ['-'] + digits;
    IndexOfAfterPrefix(target, '-', digits);
    assert rest[|target| + 1..] == digits;
    assert body[..|source|] == source;
    assert rest[..|target|] == target;
    DecimalRoundTrip(time);
  }

  /**
   * A dash inside an endpoint shifts the split, so the part read as the time
   * still holds the last separator and the id reads back as nothing.
   */
  lemma EdgeIdUnreadableWithDashes(source: string, target: string, time: nat)
    requires '-' in source || '-' in target
    ensures ParseEdgeId(EdgeIdFor(source, target, time)) == None
  {
    var id := EdgeIdFor(source, target, time);
    var body := id[1..];
    var p := |source| + 1 + |target|;
    assert body == source + "-" + target + "-" + NatToDecimal(time);
    assert body[|source|] == '-' && body[p] == '-';
    if '-' in source {
      var k :| 0 <= k < |source| && source[k] == '-';
      assert body[k] == '-';
      UnreadableWithThreeDashes(id, k, |source|, p);
    } else {
      var k :| 0 <= k < |target| && target[k] == '-';
      assert body[|source| + 1 + k] == '-';
      UnreadableWithThreeDashes(id, |source|, |source| + 1 + k, p);
    }
  }

  /** Three dashes after the `e`: the third always lands in the part read as the time. */
  lemma UnreadableWithThreeDashes(id: string, a: nat, b: nat, p: nat)
    requires |id| > 0 && a < b < p < |id| - 1
    requires id[a + 1] == '-' && id[b + 1] == '-' && id[p + 1] == '-'
    ensures ParseEdgeId(id) == None
  {
  }

  /** Parallel edges made at different times get different ids. */
  lemma ParallelEdgeIdsDistinct(c: Connection, t1: nat, t2: nat)
    requires t1 != t2
    ensures NewEdge(c, t1).id != NewEdge(c, t2).id
  {
    NatToDecimalInjective(t1, t2);
  }

  /** With dash-free endpoints, equal ids mean the same endpoints and time. */
  lemma EdgeIdInjective(c1: Connection, t1: nat, c2: Connection, t2: nat)
    requires '-' !in c1.source && '-' !in c1.target && '-' !in c2.source && '-' !in c2.target
    requires EdgeIdFor(c1.source, c1.target, t1) == EdgeIdFor(c2.source, c2.target, t2)
    ensures c1 == c2 && t1 == t2
  {
    NewEdgeIdReadsBack(c1, t1);
    NewEdgeIdReadsBack(c2, t2);
  }

  /** Without that restriction two different connections can share an id. */
  lemma EdgeIdAmbiguousWithDashes()
    ensures NewEdge(Connection("1-2", "3"), 0).id == NewEdge(Connection("1", "2-3"), 0).id
  {
  }

  // ---------------------------------------------------------------------------
  // Relabelling
  // ---------------------------------------------------------------------------

  /** Every node with id `id` gets caption `caption`; every other node is kept as is. */
  function RenameNodes(nds: seq<Node>, id: string, caption: string): (r: seq<Node>)
    ensures |r| == |nds|
    ensures forall i :: 0 <= i < |nds| ==>
      if nds[i].id == id then r[i] == nds[i].(caption := caption) else r[i] == nds[i]
    ensures id !in NodeIds(nds) ==> r == nds
    decreases |nds|
  {
    if nds == [] then []
    else
      var n := if nds[0].id == id then nds[0].(caption := caption) else nds[0];
      var rest := RenameNodes(nds[1..], id, caption);
      assert id !in NodeIds(nds) ==> id !in NodeIds(nds[1..]) && n == nds[0] by {
        if id !in NodeIds(nds) { assert nds[0] in nds; }
      }
      [n] + rest
  }

  /** Every edge with id `id` gets caption `caption`; every other edge is kept as is. */
  function RelabelEdges(eds: seq<Edge>, id: string, caption: string): (r: seq<Edge>)
    ensures |r| == |eds|
    ensures forall i :: 0 <= i < |eds| ==>
      if eds[i].id == id then r[i] == eds[i].(caption := Some(caption)) else r[i] == eds[i]
    ensures id !in EdgeIds(eds) ==> r == eds
    decreases |eds|
  {
    if eds == [] then []
    else
      var e := if eds[0].id == id then eds[0].(caption := Some(caption)) else eds[0];
      var rest := RelabelEdges(eds[1..], id, caption);
      assert id !in EdgeIds(eds) ==> id !in EdgeIds(eds[1..]) && e == eds[0] by {
        if id !in EdgeIds(eds) { assert eds[0] in eds; }
      }
      [e] + rest
  }

  /** Renaming and relabelling keep every id, so they keep the id shapes. */
  lemma RelabellingKeepsIdShapes(nds: seq<Node>, eds: seq<Edge>, id: string, caption: string)
    ensures DecimalNodeIds(nds) ==> DecimalNodeIds(RenameNodes(nds, id, caption))
    ensures TaggedEdgeIds(eds) ==> TaggedEdgeIds(RelabelEdges(eds, id, caption))
  {
  }

  /** A second rename of the same node replaces the first: the last commit wins. */
  lemma RenameLastWins(nds: seq<Node>, id: string, a: string, b: string)
    ensures RenameNodes(RenameNodes(nds, id, a), id, b) == RenameNodes(nds, id, b)
  {
  }

  /** A second relabel of the same edge replaces the first: the last commit wins. */
  lemma RelabelLastWins(eds: seq<Edge>, id: string, a: string, b: string)
    ensures RelabelEdges(RelabelEdges(eds, id, a), id, b) == RelabelEdges(eds, id, b)
  {
  }

  // ---------------------------------------------------------------------------
  // Render projection
  // ---------------------------------------------------------------------------

  /** `edges.map(e => ({ ...e, type: 'custom' }))`: every edge drawn by the custom edge component. */
  function RenderEdges(eds: seq<Edge>): (r: seq<Edge>)
    ensures |r| == |eds|
    ensures forall i :: 0 <= i < |eds| ==>
      r[i].kind == Some("custom") && r[i].(kind := eds[i].kind) == eds[i]
    decreases |eds|
  {
    if eds == [] then [] else [eds[0].(kind := Some("custom"))] + RenderEdges(eds[1..])
  }

  /** Projecting an already projected list changes nothing. */
  lemma RenderIdempotent(eds: seq<Edge>)
    ensures RenderEdges(RenderEdges(eds)) == RenderEdges(eds)
  {
  }

  /** Relabelling before or after the projection gives the same drawn edges. */
  lemma RenderCommutesWithRelabel(eds: seq<Edge>, id: string, caption: string)
    ensures RenderEdges(RelabelEdges(eds, id, caption)) == RelabelEdges(RenderEdges(eds), id, caption)
  {
  }
}
