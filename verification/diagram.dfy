/**
 * The `AutomataDiagram` component's state and its event handlers. Each field
 * is one piece of component state (the node and edge lists, the id of the
 * edge created last, the inline edge-label editor, the rename dialog), and
 * each method is one handler, run synchronously on the current state.
 */
module Diagram {
  import opened Text
  import opened Graph

  /**
   * The node id the rename dialog may commit to: the dialog's node id when it
   * is set and non-empty (a JavaScript truthy string) and the draft, once
   * trimmed, is not empty. Enter and Guardar both commit exactly then.
   */
  function ModalCommitTarget(modalNodeId: Option<string>, draft: string): (r: Option<string>)
    ensures r.Some? <==> modalNodeId.Some? && modalNodeId.value != "" && !IsBlank(draft)
    ensures r.Some? ==> r == modalNodeId
  {
    TrimEmptyIffBlank(draft);
    if modalNodeId.Some? && modalNodeId.value != "" && Trim(draft) != "" then modalNodeId else None
  }

  /** The editor's whole state, one field per piece of component state. */
  class AutomataDiagram {
    var nodes: seq<Node>
    var edges: seq<Edge>
    /** The id of the edge `onConnect` created last and not yet promoted to the label editor. */
    var lastCreatedEdgeId: Option<string>
    /** The edge whose caption the inline editor is showing, if any. */
    var editingEdgeId: Option<string>
    var edgeLabelInput: string
    var modalOpen: bool
    var modalNodeId: Option<string>
    var modalInput: string

    /**
     * Ids stay in the shapes the editor issues them in: node ids are decimal
     * numerals, edge ids (and the pending one) start with `e`. So no node id
     * is ever an edge id.
     */
    ghost predicate Valid()
      reads this
    {
      && DecimalNodeIds(nodes)
      && TaggedEdgeIds(edges)
      && (lastCreatedEdgeId.Some? ==> |lastCreatedEdgeId.value| > 0 && lastCreatedEdgeId.value[0] == 'e')
    }

    /** The two initial states joined by one transition, nothing pending, nothing being edited. */
    constructor ()
      ensures Valid()
      ensures nodes == InitialNodes && edges == InitialEdges
      ensures lastCreatedEdgeId == None && editingEdgeId == None && edgeLabelInput == ""
      ensures !modalOpen && modalNodeId == None && modalInput == ""
    {
      nodes := InitialNodes;
      edges := InitialEdges;
      lastCreatedEdgeId := None;
      editingEdgeId := None;
      edgeLabelInput := "";
      modalOpen := false;
      modalNodeId := None;
      modalInput := "";
    }

    /**
     * `onNodesDelete`: drops the nodes and the edges whose own id is listed.
     * When only node ids are listed this filter removes no edge; edges the
     * renderer drops through its change notifications are not modelled.
     */
    method OnNodesDelete(deleted: seq<string>)
      requires Valid()
      modifies this
      ensures Valid()
      ensures nodes == Without(old(nodes), NodeId, deleted)
      ensures edges == Without(old(edges), EdgeId, deleted)
      ensures (forall d :: d in deleted ==> d in NodeIds(old(nodes))) ==> edges == old(edges)
      ensures lastCreatedEdgeId == old(lastCreatedEdgeId)
      ensures editingEdgeId == old(editingEdgeId) && edgeLabelInput == old(edgeLabelInput)
      ensures modalOpen == old(modalOpen) && modalNodeId == old(modalNodeId) && modalInput == old(modalInput)
    {
      NodeDeletionRemovesNoEdge(nodes, edges, deleted);
      WithoutKeepsIdShapes(nodes, edges, deleted);
      nodes := Without(nodes, NodeId, deleted);
      edges := Without(edges, EdgeId, deleted);
    }

    /** `addState`: appends the state derived from the current node count; nothing else changes. */
    method AddState()
      requires Valid()
      modifies this
      ensures Valid()
      ensures nodes == old(nodes) + [NewState(|old(nodes)|)]
      ensures edges == old(edges) && lastCreatedEdgeId == old(lastCreatedEdgeId)
      ensures editingEdgeId == old(editingEdgeId) && edgeLabelInput == old(edgeLabelInput)
      ensures modalOpen == old(modalOpen) && modalNodeId == old(modalNodeId) && modalInput == old(modalInput)
    {
      nodes := nodes + [NewState(|nodes|)];
    }

    /**
     * `onConnect`: builds the new edge with the id stamped by `now` (the
     * clock reading) and records that id as pending. `accepted` is what
     * `addEdge` decided: append the edge, or return the list unchanged.
     */
    method OnConnect(params: Connection, now: nat, accepted: bool)
      requires Valid()
      modifies this
      ensures Valid()
      ensures edges == if accepted then old(edges) + [NewEdge(params, now)] else old(edges)
      ensures lastCreatedEdgeId == Some(NewEdge(params, now).id)
      ensures nodes == old(nodes)
      ensures editingEdgeId == old(editingEdgeId) && edgeLabelInput == old(edgeLabelInput)
      ensures modalOpen == old(modalOpen) && modalNodeId == old(modalNodeId) && modalInput == old(modalInput)
    {
      var edge := NewEdge(params, now);
      lastCreatedEdgeId := Some(edge.id);
      if accepted {
        edges := edges + [edge];
      }
    }

    /**
     * `handleEdgesChange`: a pending id (a truthy one: not "") opens the
     * inline editor on that edge with an empty draft and stops being pending;
     * without one the editor state is left alone. Pending ids start with `e`,
     * so every pending id is promoted.
     */
    method HandleEdgesChange()
      requires Valid()
      modifies this
      ensures Valid()
      ensures if old(lastCreatedEdgeId).Some? && old(lastCreatedEdgeId).value != "" then
                editingEdgeId == old(lastCreatedEdgeId) && edgeLabelInput == "" && lastCreatedEdgeId == None
              else
                editingEdgeId == old(editingEdgeId) && edgeLabelInput == old(edgeLabelInput)
                && lastCreatedEdgeId == old(lastCreatedEdgeId)
      ensures old(lastCreatedEdgeId).Some? ==> editingEdgeId == old(lastCreatedEdgeId) && lastCreatedEdgeId == None
      ensures nodes == old(nodes) && edges == old(edges)
      ensures modalOpen == old(modalOpen) && modalNodeId == old(modalNodeId) && modalInput == old(modalInput)
    {
      if lastCreatedEdgeId.Some? && lastCreatedEdgeId.value != "" {
        editingEdgeId := lastCreatedEdgeId;
        edgeLabelInput := "";
        lastCreatedEdgeId := None;
      }
    }

    /** `onEdgeDoubleClick`: opens the inline editor on `edge`, seeded with its caption or "" without one. */
    method OnEdgeDoubleClick(edge: Edge)
      requires Valid()
      modifies this
      ensures Valid()
      ensures editingEdgeId == Some(edge.id)
      ensures edgeLabelInput == if edge.caption.Some? then edge.caption.value else ""
      ensures nodes == old(nodes) && edges == old(edges) && lastCreatedEdgeId == old(lastCreatedEdgeId)
      ensures modalOpen == old(modalOpen) && modalNodeId == old(modalNodeId) && modalInput == old(modalInput)
    {
      editingEdgeId := Some(edge.id);
      edgeLabelInput := match edge.caption
        case Some(text) => text
        case None => "";
    }

    /** `handleEdgeLabelChange`: the draft becomes what was typed. */
    method HandleEdgeLabelChange(value: string)
      requires Valid()
      modifies this
      ensures Valid()
      ensures edgeLabelInput == value
      ensures nodes == old(nodes) && edges == old(edges) && lastCreatedEdgeId == old(lastCreatedEdgeId)
      ensures editingEdgeId == old(editingEdgeId)
      ensures modalOpen == old(modalOpen) && modalNodeId == old(modalNodeId) && modalInput == old(modalInput)
    {
      edgeLabelInput := value;
    }

    /**
     * `handleEdgeLabelBlur`: with an edge being edited, every edge with that
     * id takes the draft verbatim (even "") and the editor closes; an id that
     * no longer exists leaves the edges as they were. With no edge being
     * edited nothing changes.
     */
    method HandleEdgeLabelBlur()
      requires Valid()
      modifies this
      ensures Valid()
      ensures old(editingEdgeId).Some? ==>
                edges == RelabelEdges(old(edges), old(editingEdgeId).value, old(edgeLabelInput))
                && editingEdgeId == None
      ensures old(editingEdgeId).Some? && old(editingEdgeId).value !in EdgeIds(old(edges)) ==>
                edges == old(edges)
      ensures old(editingEdgeId).None? ==> edges == old(edges) && editingEdgeId == None
      ensures nodes == old(nodes) && edgeLabelInput == old(edgeLabelInput)
      ensures lastCreatedEdgeId == old(lastCreatedEdgeId)
      ensures modalOpen == old(modalOpen) && modalNodeId == old(modalNodeId) && modalInput == old(modalInput)
    {
      if editingEdgeId.Some? {
        RelabellingKeepsIdShapes(nodes, edges, editingEdgeId.value, edgeLabelInput);
        edges := RelabelEdges(edges, editingEdgeId.value, edgeLabelInput);
        editingEdgeId := None;
      }
    }

    /** `handleNodeDoubleClick`: opens the rename dialog on `node`, seeded with its caption. */
    method HandleNodeDoubleClick(node: Node)
      requires Valid()
      modifies this
      ensures Valid()
      ensures modalNodeId == Some(node.id) && modalInput == node.caption && modalOpen
      ensures nodes == old(nodes) && edges == old(edges) && lastCreatedEdgeId == old(lastCreatedEdgeId)
      ensures editingEdgeId == old(editingEdgeId) && edgeLabelInput == old(edgeLabelInput)
    {
      modalNodeId := Some(node.id);
      modalInput := node.caption;
      modalOpen := true;
    }

    /** `handleModalInputChange`: the dialog's draft becomes what was typed. */
    method HandleModalInputChange(value: string)
      requires Valid()
      modifies this
      ensures Valid()
      ensures modalInput == value
      ensures nodes == old(nodes) && edges == old(edges) && lastCreatedEdgeId == old(lastCreatedEdgeId)
      ensures editingEdgeId == old(editingEdgeId) && edgeLabelInput == old(edgeLabelInput)
      ensures modalOpen == old(modalOpen) && modalNodeId == old(modalNodeId)
    {
      modalInput := value;
    }

    /**
     * `handleModalKeyDown`: Enter with a committable draft renames that node
     * and closes the dialog; otherwise Escape closes it without renaming;
     * any other key, and Enter on a blank draft, changes nothing.
     */
    method HandleModalKeyDown(key: string)
      requires Valid()
      modifies this
      ensures Valid()
      ensures var target := ModalCommitTarget(old(modalNodeId), old(modalInput));
              if key == "Enter" && target.Some? then
                nodes == RenameNodes(old(nodes), target.value, old(modalInput))
                && !modalOpen && modalNodeId == None
              else if key == "Escape" then
                nodes == old(nodes) && !modalOpen && modalNodeId == None
              else
                nodes == old(nodes) && modalOpen == old(modalOpen) && modalNodeId == old(modalNodeId)
      ensures edges == old(edges) && lastCreatedEdgeId == old(lastCreatedEdgeId)
      ensures editingEdgeId == old(editingEdgeId) && edgeLabelInput == old(edgeLabelInput)
      ensures modalInput == old(modalInput)
    {
      var target := ModalCommitTarget(modalNodeId, modalInput);
      if key == "Enter" && target.Some? {
        CommitRename(target.value);
      } else if key == "Escape" {
        modalOpen := false;
        modalNodeId := None;
      }
    }

    /** The commit Enter and Guardar share: the node takes the draft as its caption and the dialog closes. */
    method CommitRename(target: string)
      requires Valid()
      modifies this
      ensures Valid()
      ensures nodes == RenameNodes(old(nodes), target, old(modalInput))
      ensures !modalOpen && modalNodeId == None
      ensures edges == old(edges) && lastCreatedEdgeId == old(lastCreatedEdgeId)
      ensures editingEdgeId == old(editingEdgeId) && edgeLabelInput == old(edgeLabelInput)
      ensures modalInput == old(modalInput)
    {
      RelabellingKeepsIdShapes(nodes, edges, target, modalInput);
      nodes := RenameNodes(nodes, target, modalInput);
      modalOpen := false;
      modalNodeId := None;
    }

    /** The Guardar button: renames and closes exactly when Enter would; otherwise nothing changes. */
    method OnSaveClick()
      requires Valid()
      modifies this
      ensures Valid()
      ensures var target := ModalCommitTarget(old(modalNodeId), old(modalInput));
              if target.Some? then
                nodes == RenameNodes(old(nodes), target.value, old(modalInput))
                && !modalOpen && modalNodeId == None
              else
                nodes == old(nodes) && modalOpen == old(modalOpen) && modalNodeId == old(modalNodeId)
      ensures edges == old(edges) && lastCreatedEdgeId == old(lastCreatedEdgeId)
      ensures editingEdgeId == old(editingEdgeId) && edgeLabelInput == old(edgeLabelInput)
      ensures modalInput == old(modalInput)
    {
      var target := ModalCommitTarget(modalNodeId, modalInput);
      if target.Some? {
        CommitRename(target.value);
      }
    }

    /** `handleModalClose` (the Cancelar button): closes the dialog; the nodes are untouched. */
    method HandleModalClose()
      requires Valid()
      modifies this
      ensures Valid()
      ensures !modalOpen && modalNodeId == None
      ensures nodes == old(nodes) && edges == old(edges) && lastCreatedEdgeId == old(lastCreatedEdgeId)
      ensures editingEdgeId == old(editingEdgeId) && edgeLabelInput == old(edgeLabelInput)
      ensures modalInput == old(modalInput)
    {
      modalOpen := false;
      modalNodeId := None;
    }

    /** The edge list handed to the renderer: every edge, in order, tagged for the custom edge component. */
    function RenderedEdges(): (r: seq<Edge>)
      reads this
      ensures |r| == |edges|
      ensures forall i :: 0 <= i < |edges| ==>
        r[i].kind == Some("custom") && r[i].(kind := edges[i].kind) == edges[i]
    {
      RenderEdges(edges)
    }
  }

  /**
   * A session driven through the handlers: add a state, connect the first
   * state to it, let the renderer report the change, type a caption and
   * leave the field.
   */
  method CaptionSession(now: nat)
  {
    var d := new AutomataDiagram();
    d.AddState();
    assert NatToDecimal(3) == "3" && NatToDecimal(2) == "2";
    assert d.nodes[2].id == "3" && d.nodes[2].caption == "q2";

    d.OnConnect(Connection("1", "3"), now, true);
    d.HandleEdgesChange();
    assert d.editingEdgeId == Some(EdgeIdFor("1", "3", now)) && d.edgeLabelInput == "";

    d.HandleEdgeLabelChange("a");
    d.HandleEdgeLabelBlur();
    assert d.edges[1].caption == Some("a") && d.editingEdgeId == None;
  }

  /**
   * The handler's own filter keeps the transition into a deleted state (any
   * removal of connected edges would come from the renderer's change
   * notifications, which are not modelled), and the edge editor and the
   * rename dialog can be open at the same time.
   */
  method DeletionSession(now: nat)
  {
    var d := new AutomataDiagram();
    d.AddState();
    assert NatToDecimal(3) == "3";
    d.OnConnect(Connection("1", "3"), now, true);
    assert d.nodes[2] in d.nodes && d.nodes[2].id == "3";
    d.OnNodesDelete(["3"]);
    assert |d.edges| == 2 && d.edges[1].target == "3";
    assert "3" !in NodeIds(d.nodes);

    d.OnEdgeDoubleClick(InitialEdges[0]);
    d.HandleNodeDoubleClick(InitialNodes[0]);
    assert d.editingEdgeId == Some("e1-2") && d.modalOpen;
  }
}
