# Automata diagram editor: a Dafny model of its state engine

The editor draws finite-automaton diagrams. States are nodes and transitions
are edges. The parent page triggers `addState` through the function the
component hands it (src/AutomataDiagram.tsx:72-74). The user drags from one
state to another to connect them, types a caption on a new transition,
double-clicks a transition to edit its caption, double-clicks a state to
rename it in a dialog, and deletes states with the delete key.

This project models the state engine of the `AutomataDiagram` component.
That engine is the component's state plus the event handlers that change it:

- `Text` (`text.dfy`) holds the string operations the handlers rely on.
  These are the decimal rendering of a non-negative integer (`toString()`,
  template strings) with its inverse, JavaScript's `String.prototype.trim`,
  and a first-index search.
- `Graph` (`graph.dfy`) holds the values and the pure list updates inside the
  state setters. The values are `Node`, `Edge`, `Connection` and the initial
  diagram. The updates are the id filter of a deletion, the appended state,
  the relabel-by-id map, the new edge, and the `type: 'custom'` projection
  given to the renderer. The lemmas about them live here too.
- `Diagram` (`diagram.dfy`) holds the class `AutomataDiagram`. Its fields are
  the component state: `nodes`, `edges`, the pending new-edge id
  `lastCreatedEdgeId`, the inline edge editor (`editingEdgeId`,
  `edgeLabelInput`) and the rename dialog (`modalOpen`, `modalNodeId`,
  `modalInput`). Each handler is a method that states the whole new state.
  The class invariant `Valid` says node ids are decimal numerals and edge ids
  (and the pending id) start with `e`. Two client methods, `CaptionSession`
  and `DeletionSession`, drive a session through the handlers.

Values the code takes from outside are parameters. `Date.now()` is the `now`
argument of `OnConnect`. The decision of the `reactflow` library function
`addEdge` is the `accepted` argument: `true` appends the new edge, `false`
keeps the old list.

The node and edge field `label` is called `caption` here, because `label` is
a Dafny keyword. A node's renderer `type` and an edge's renderer `type` are
both called `kind`.

Behaviour of the code that a reader might not expect, modelled as written:

- Deleting states filters the edge list by each edge's own id, not by its
  endpoints, so the handler's own filter (lines 53-54) removes no edge when
  it is given node ids (`NodeDeletionRemovesNoEdge`,
  `DeletionCanLeaveDanglingEdge`). Any removal of the connected edges comes
  from the renderer's change notifications, whose application is not
  modelled.
- A new state's id is the node count plus one. After a deletion it can repeat
  an id still in use (`NewStateIdCanRepeat`). It is fresh at least while every
  id is at most the node count (`NewStateFreshWhileIdsBounded`, a sufficient
  condition).
- The inline edge editor and the rename dialog are independent. Both can be
  open at once (`DeletionSession`).
- An edge id reads back as its endpoints and time only when the endpoints
  contain no dash (`NewEdgeIdReadsBack`). With dashes, two different
  connections can get the same id (`EdgeIdAmbiguousWithDashes`). Node ids in
  this editor are always decimal numerals, so this does not arise.

## Model

| member | source | states |
|---|---|---|
| `Text.NatToDecimal` | src/AutomataDiagram.tsx:59 | The rendering of a count is a non-empty digit string with no leading zero. |
| `Text.DecimalRoundTrip` | src/AutomataDiagram.tsx:59 | Reading back the decimal rendering of `n` gives `n`. |
| `Text.NatToDecimalInjective` | src/AutomataDiagram.tsx:83 | Two numbers render the same exactly when they are equal. |
| `Text.TrimStart` | src/AutomataDiagram.tsx:184 | The result is a suffix of the input; everything dropped is JavaScript whitespace; it does not start with whitespace. |
| `Text.TrimEnd` | src/AutomataDiagram.tsx:235 | The result is a prefix of the input; everything dropped is whitespace; it does not end with whitespace. |
| `Text.Trim` | src/AutomataDiagram.tsx:184 | `.trim()` leaves a contiguous slice of the input, and the prefix and suffix it drops are whitespace. |
| `Text.TrimEnds` | src/AutomataDiagram.tsx:184 | The trimmed string neither starts nor ends with whitespace, so with `Text.Trim` it is the largest such slice. |
| `Text.TrimEmptyIffBlank` | src/AutomataDiagram.tsx:184 | `s.trim() === ''` holds exactly when every character of `s` is whitespace. Both directions are proved. |
| `Graph.Without` | src/AutomataDiagram.tsx:53-54 | The filter keeps exactly the elements whose id is not in the deleted list. With no listed id present, the list is unchanged. |
| `Graph.WithoutKeepsOrderAndCount` | src/AutomataDiagram.tsx:53-54 | The kept elements keep their original order (a subsequence) and each keeps its multiplicity; deleted ones occur zero times. |
| `Graph.NodeDeletionKeepsEdges` | src/AutomataDiagram.tsx:54 | Edges are matched by their own id: when no listed id is an edge id, every edge survives, whatever its source or target. |
| `Graph.NodeDeletionRemovesNoEdge` | src/AutomataDiagram.tsx:52-55 | Under the id shapes the editor issues, deleting node ids leaves the edge list unchanged. |
| `Graph.DeletionCanLeaveDanglingEdge` | src/AutomataDiagram.tsx:52-55 | Deleting state `2` from the initial diagram keeps transition `e1-2`, whose target no longer exists. |
| `Graph.NewState` | src/AutomataDiagram.tsx:58-68 | The appended state for count `c` has id the canonical numeral (no leading zero) reading back as `c + 1`, caption `q` followed by the canonical numeral reading back as `c`, position `(100 + 60c, 200)` and type `default`. |
| `Graph.NewStateFreshWhileIdsBounded` | src/AutomataDiagram.tsx:59 | While every node id is a numeral no larger than the count, the new id is not in use, and adding the state keeps that condition. |
| `Graph.NewStateIdCanRepeat` | src/AutomataDiagram.tsx:59 | After deleting state `1` from the initial diagram, the next new id equals the id of the remaining state `2`. |
| `Graph.NewEdgeIdReadsBack` | src/AutomataDiagram.tsx:83-84 | The new edge's id parses back to its source, target and time exactly when the endpoints contain no dash. Otherwise it does not parse. |
| `Graph.EdgeIdRoundTrip` | src/AutomataDiagram.tsx:83 | `e<source>-<target>-<time>` with dash-free endpoints parses back to those three values. |
| `Graph.EdgeIdUnreadableWithDashes` | src/AutomataDiagram.tsx:83 | With a dash in an endpoint, the id does not parse as an edge id. |
| `Graph.EdgeIdFor` | src/AutomataDiagram.tsx:83 | The id starts with `e`, so it is never a decimal node id, and whatever the endpoints it ends with the decimal time stamp after the endpoints and three separators. |
| `Graph.NewEdge` | src/AutomataDiagram.tsx:84 | The new edge takes its source and target from the connection, has caption `''`, a closed arrow head and no type, and its id is the `e<source>-<target>-<time>` template of `Graph.EdgeIdFor` (canonical decimal time), which parses back to the endpoints and time when they are dash-free. |
| `Graph.ParallelEdgeIdsDistinct` | src/AutomataDiagram.tsx:82-83 | Two connections of the same pair at different times get different ids. |
| `Graph.EdgeIdInjective` | src/AutomataDiagram.tsx:83 | With dash-free endpoints, equal edge ids mean the same source, target and time. |
| `Graph.EdgeIdAmbiguousWithDashes` | src/AutomataDiagram.tsx:83 | Connections `1-2 → 3` and `1 → 2-3` made at the same time get the same id. |
| `Graph.RenameNodes` | src/AutomataDiagram.tsx:185 | Same length. Every node with the given id gets the new caption and nothing else changes; every other node is unchanged; an absent id leaves the list unchanged. |
| `Graph.RelabelEdges` | src/AutomataDiagram.tsx:120 | Same length. Every edge with the given id gets the draft as caption (even ""); every other edge is unchanged; an absent id leaves the list unchanged. |
| `Graph.RelabellingKeepsIdShapes` | src/AutomataDiagram.tsx:236 | Renaming nodes and relabelling edges keep every id, so the id shapes hold afterwards. |
| `Graph.RenameLastWins` | src/AutomataDiagram.tsx:236 | Renaming a node twice equals renaming it once with the second caption. |
| `Graph.RelabelLastWins` | src/AutomataDiagram.tsx:120 | Relabelling an edge twice equals relabelling it once with the second caption. |
| `Graph.RenderEdges` | src/AutomataDiagram.tsx:203 | Same length and order. Every drawn edge has type `custom` and differs from its source edge in nothing else. |
| `Graph.RenderIdempotent` | src/AutomataDiagram.tsx:203 | Projecting a projected edge list changes nothing. |
| `Graph.RenderCommutesWithRelabel` | src/AutomataDiagram.tsx:203 | Relabelling an edge before or after the projection gives the same drawn list. |
| `Diagram.ModalCommitTarget` | src/AutomataDiagram.tsx:184 | The dialog commits exactly when its node id is set and non-empty and the draft is not all whitespace; it commits to that node id. |
| `Diagram.AutomataDiagram.constructor` | src/AutomataDiagram.tsx:17-48 | The editor starts with states `1` and `2`, transition `e1-2` captioned `a`, nothing pending, no edge editor and no dialog. |
| `Diagram.AutomataDiagram.OnNodesDelete` | src/AutomataDiagram.tsx:52-55 | Nodes and edges become the filtered lists. If every deleted id is a node id, the edges are unchanged. All other state is unchanged. |
| `Diagram.AutomataDiagram.AddState` | src/AutomataDiagram.tsx:58-69 | Exactly one state is appended (`NewState` of the old count); earlier nodes and all other state are unchanged. |
| `Diagram.AutomataDiagram.OnConnect` | src/AutomataDiagram.tsx:79-90 | The pending id becomes the new edge's id whether or not `addEdge` accepts it; the edges gain that edge only if accepted; all other state is unchanged. |
| `Diagram.AutomataDiagram.HandleEdgesChange` | src/AutomataDiagram.tsx:93-103 | A pending id opens the edge editor on that id with an empty draft and is cleared; without one the edit state is untouched. |
| `Diagram.AutomataDiagram.OnEdgeDoubleClick` | src/AutomataDiagram.tsx:109-113 | The edge editor opens on the clicked edge, seeded with its caption or "" when it has none. |
| `Diagram.AutomataDiagram.HandleEdgeLabelChange` | src/AutomataDiagram.tsx:115-117 | Only the edge draft changes, to the typed value. |
| `Diagram.AutomataDiagram.HandleEdgeLabelBlur` | src/AutomataDiagram.tsx:118-123 | With an edge being edited, edges become `RelabelEdges` with the draft and the editor closes; a vanished id leaves the edges unchanged; with none being edited nothing changes. |
| `Diagram.AutomataDiagram.HandleNodeDoubleClick` | src/AutomataDiagram.tsx:173-177 | The dialog opens on the clicked node with its caption as draft; nodes and edges are unchanged. |
| `Diagram.AutomataDiagram.HandleModalInputChange` | src/AutomataDiagram.tsx:179-181 | Only the dialog draft changes, to the typed value. |
| `Diagram.AutomataDiagram.HandleModalKeyDown` | src/AutomataDiagram.tsx:183-192 | Enter with a committable draft renames that node and closes the dialog. Otherwise Escape closes the dialog without touching nodes. Any other key, and Enter on a blank draft, changes nothing. |
| `Diagram.AutomataDiagram.CommitRename` | src/AutomataDiagram.tsx:185-187 | The commit Enter and Guardar share: only the target node's caption changes, and the dialog closes with its node id cleared. |
| `Diagram.AutomataDiagram.OnSaveClick` | src/AutomataDiagram.tsx:234-240 | Guardar renames and closes exactly when Enter would; otherwise nothing changes. |
| `Diagram.AutomataDiagram.HandleModalClose` | src/AutomataDiagram.tsx:194-197 | Cancelar closes the dialog and clears its node id; nodes, edges and the draft are unchanged. |
| `Diagram.AutomataDiagram.RenderedEdges` | src/AutomataDiagram.tsx:203 | The list given to the renderer is the edge list in order, each edge tagged `custom` and otherwise unchanged. |

## Left out

- Rendering is not modelled: the JSX, the `CustomEdge` drawing, the inline input, the dialog markup, MiniMap, Controls and Background (src/AutomataDiagram.tsx:126-166, 199-251). This includes `CustomEdge`'s choice between the input and static text (line 129). It is presentation only.
- The `getBezierPath` midpoint geometry (line 128) is float arithmetic inside the rendering library.
- `useNodesState`/`useEdgesState` and the change application of `onNodesChange`/`onEdgesChange` (lines 47-48, 95) are library code. Drags, selection and removals reported as changes are not modelled.
- `Diagram.AutomataDiagram.HandleEdgesChange`: does not model the library's application of the reported edge changes (line 95), so its contract keeps the edge list unchanged.
- `addEdge` (line 86) is library code. Its decision is the `accepted` parameter of `OnConnect`. Its duplicate and parallel-edge rules are not modelled.
- `Date.now()` (line 83) is the `now` parameter, taken as a non-negative integer.
- A connection carries only `source` and `target`, as strings. Handle ids copied by `...params` are not modelled. The rendering of a `null` endpoint in the id is not modelled either.
- An edge caption is a string or absent. `String(edge.label)` of a non-string label (line 112) is not modelled.
- `event.stopPropagation()` (line 110) is an event-system call with no effect on the state.
- The `setAddStateRef` effect (lines 72-74) is a callback hand-off to the parent page.
- `maxLength={32}` (line 229) is enforced by the browser, not by the handlers.
- React scheduling is not modelled. Each handler runs to completion on one snapshot. `addState` reads the count from `nodes` for the id and from the updater's `nds` for the caption and position (lines 59-65); the model takes both from one list. `lastCreatedEdgeId` is set inside the `setEdges` updater (line 85); the model sets it when `OnConnect` runs.
- src/App.tsx is not part of this model. It is static page markup with a logo and an unused form.
