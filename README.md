# AlgoStrat workflow editor — a Dafny model of its canvas engine

AlgoStrat ("Algorithm Strategy Workbench") is a browser editor for workflow graphs. Operator
nodes (START, INPUT, LLM, PYTHON, AB_TEST, FILTER, IF_ELSE, TRANSFORMER, OUTPUT, END) sit on a
pannable, zoomable canvas and are wired output-port to input-port by edges. All of its logic
lives in the `App` component of `App.tsx`. This project models that logic and proves
properties of it.

- `types.dfy` (`Types`): the records of `types.ts`. These are operator type, position, node,
  edge, scenario and execution log entry, plus a partial node used as an update patch.
  JavaScript truthiness of a nullable string is the predicate `Truthy`.
- `seqs.dfy` (`Seqs`): `Array.prototype.filter` as a function. Its contract covers membership,
  multiplicity and order; order is stated as a subsequence.
- `graph.dfy` (`Graph`): the scenario updaters. These are look-up by id, `createEdge`,
  `addNode`, `updateNode`, `deleteNode` with its edge cascade, the edge click-to-delete, and
  the `.map` that rewrites the nodes carrying one id. The map is used by node drags and by the
  run walker.
- `geometry.dfy` (`Geometry`): pure canvas geometry.
  - `getPortPos`, and the control points of `getBezierPath` as a record rather than an SVG
    string.
  - The screen/logical transforms, the drag and pan arithmetic, and the insertion point of a
    new node.
  - The snap-distance test, done on squared distances instead of `Math.hypot`.
- `viewport.dfy` (`Viewport`): wheel zoom, clamped to [0.1, 3], and button zoom. Zoom-in is
  capped at 3 and zoom-out floored at 0.1, so the buttons keep a zoom in [0.1, 3] that starts
  there.
- `snap.dfy` (`Snap`): the first-match snap search of the connecting gesture. It has two
  parts:
  - a specification function, `SnapSearch`;
  - the source's loop, `FindSnap`, with `continue` and `break`, proved equal to that function.
- `editor.dfy` (`Editor`): the component's state as the class `Editor.Editor`. Its fields are
  scenario, selection, editing, run flag, logs, zoom, canvas offset, drag, pan, connect and
  snap state.
  - Each event handler is a method that states the whole new state.
  - The class invariant `Valid` holds between events:
    - zoom stays in [0.1, 3];
    - no edge is a self-loop;
    - no (source, target, sourceHandle) triple appears twice;
    - no run is in progress.
  - `Run` is the run walker's loop. It is proved against `RunLog`, `RunTrace` and
    `AllSucceeded`.

Real numbers stand for the browser's floating-point coordinates. Ids and timestamps come from
`Date.now()` in the source; here they are method parameters, and `updatedAt` is a counter that
the structural edits increase. The canvas element's bounding rectangle is a parameter:
`Some(rect)` when the canvas is mounted, `None` otherwise.

Facts about the code that the model keeps:
- The run walker visits `scenario.nodes` in array order and marks every node success. It does
  not traverse the graph.
- The snap target is the first eligible node in array order whose input port is within the
  radius.
- The IF_ELSE output ports sit at fixed offsets of -9 and +11 from the node's port line.

Two consequences of the code that the model makes explicit:
- A release over an input port runs the port's `onConnectEnd` and then the root's
  `handleMouseUp`. Both read `connecting` and `snapNodeId` from the render before the event.
  The root's `createEdge` updater, though, runs on the scenario the port's commit produced
  (App.tsx:299). This is modelled as `Editor.Editor.ReleaseOverInputPort`.
  - When the snap target is the port under the pointer, the duplicate check makes the second
    commit a no-op, so one edge results.
  - When the pointer is snapped to node A but released over node B's port, both commits
    run. Each one adds its edge only if that edge is not a self-loop and its
    (source, target, handle) triple is new. So up to two edges are added, one to B and one to A.
    Both commits usually take the same `edge-${Date.now()}` id (App.tsx:303), so one click on
    either edge (App.tsx:540) removes both.
- `updateNode` and `handleMouseUp` test their ids for truthiness. An empty-string id counts as
  absent.

## Model

| member | source | states |
|---|---|---|
| `Seqs.Filter` | App.tsx:341-342 | the result holds exactly the elements that satisfy the predicate, each with its original multiplicity, in the original relative order |
| `Seqs.SubsequencePairwise` | App.tsx:341-342 | a property of every ordered pair is kept by any subsequence; this is how filtering keeps "no duplicate triple" and "unique ids" |
| `Graph.FirstIndex` | App.tsx:276 | `find` scans from the front: it returns the first index carrying the id, or none when no node carries it |
| `Graph.FindNode` | App.tsx:276 | the look-up is absent exactly when no node has the id; otherwise it returns the first node in the list with that id |
| `Graph.FindUnique` | App.tsx:276 | with unique ids, the look-up of a node's id returns that very node |
| `Graph.TripleCountPositive` | App.tsx:300 | the duplicate test `.some(...)` is true exactly when at least one edge carries the (source, target, handle) triple |
| `Graph.CreateEdge` | App.tsx:297-310 | unchanged if and only if the edge is a self-loop or its triple already exists; otherwise exactly the new edge is appended after all prior edges, the nodes are unchanged and the timestamp advances; the triple then occurs exactly once; "no self-loops" and "no duplicate triples" are kept, and "edges reference nodes" is kept when both endpoints are nodes (the code checks neither) |
| `Graph.CreateEdgeIdempotent` | App.tsx:297-310 | repeating the same connection is a no-op, whatever id the second edge would get |
| `Graph.CreateEdgeTwiceLeavesOne` | App.tsx:297-310 | two identical connect calls from a state without that triple leave exactly one edge with it |
| `Graph.MapWhere` | App.tsx:333 | the rewrite keeps the length and rewrites exactly the nodes whose id matches, leaving every other node as it was |
| `Graph.MapWhereKeepsFirstIndex` | App.tsx:380-386 | a rewrite that keeps ids keeps every look-up's index |
| `Graph.MoveNode` | App.tsx:380-386 | the drag update gives the matching nodes the new position, changes no other node and no id, and keeps ids unique |
| `Graph.MoveNodeFinds` | App.tsx:380-386 | after the drag update, looking up the dragged id finds the same node, now at the new position |
| `Graph.SetStatus` | App.tsx:442-445 | the run update gives the matching nodes the status and leaves every other node unchanged |
| `Graph.Merge` | App.tsx:333 | spreading a patch over a node: every field present in the patch wins, the id included, and every field it leaves out keeps the node's value; so a name-only or config-only patch changes only that field, and an empty patch is the identity |
| `Graph.MergeIdempotent` | App.tsx:333 | spreading the same patch twice equals spreading it once |
| `Graph.UpdateNode` | App.tsx:329-336 | only the nodes carrying the edited id are merged, and all other nodes, all edges and the scenario's id, name and description are unchanged; the timestamp advances; a patch without an id keeps every id and keeps edges referring to nodes |
| `Graph.AddNode` | App.tsx:325 | the node is appended after the existing ones; the edges and the scenario's id, name and description are unchanged and the timestamp advances; edge references are kept, and ids stay unique when the new id is fresh |
| `Graph.DeleteNode` | App.tsx:338-345 | afterwards no node has the id and no edge touches it; every other node and every edge not touching the node is kept with its original number of copies, in its original order, and nothing else remains; the scenario's id, name and description are unchanged and the timestamp advances; edges still reference nodes, ids stay unique, and there are still no self-loops or duplicate triples |
| `Graph.DeleteEdge` | App.tsx:540 | exactly the edges with other ids remain, each with its original number of copies and in its original order; everything else in the scenario, timestamp included, is unchanged, and every edge invariant is kept |
| `Geometry.Abs` | App.tsx:42 | `Math.abs`: non-negative and equal to the argument or its negation |
| `Geometry.PortPos` | App.tsx:275-295 | an id carried by no node gives the origin (0, 0) |
| `Geometry.PortsOfFound` | App.tsx:275-295 | for the node the look-up finds for the id, repeated ids included: input port (x - 8, y + 47); output port x + 154 + 8, at y + 47 for non-branch nodes; for IF_ELSE the "true" handle is at y + 47 - 9 and any other handle at y + 47 + 11 |
| `Geometry.PortsOfNode` | App.tsx:275-295 | with unique ids, for every node under its own id: input port (x - 8, y + 47); output port x + 154 + 8, at y + 47 for non-branch nodes; for IF_ELSE the "true" handle is at y + 47 - 9 and any other handle at y + 47 + 11 |
| `Geometry.BranchPortsOrdered` | App.tsx:285-288 | the two IF_ELSE output ports share their x, and the "true" port is 20 units, so strictly, above the other |
| `Geometry.HandleOnlyMattersForBranches` | App.tsx:278-294 | input ports never depend on the handle, and output ports depend on it only for IF_ELSE nodes |
| `Geometry.PortsFollowMove` | App.tsx:380-386 | dragging a node shifts each of its ports by exactly the node's displacement |
| `Geometry.Curvature` | App.tsx:42-43 | the curvature is the larger of half the horizontal span and 30 |
| `Geometry.BezierCurve` | App.tsx:41-45 | the curve runs from start to end, and its two control points are level with their ends and offset inward by the same curvature |
| `Geometry.BezierTranslationInvariant` | App.tsx:41-45 | translating both ends translates every control point by the same amount |
| `Geometry.BezierShape` | App.tsx:41-45 | the first control point lies at least 30 right of the start and the second at least 30 left of the end; the curve is level when the ends are |
| `Geometry.LogicalScreenInverse` | App.tsx:398-399 | the pointer-to-logical conversion and the canvas transform translate(offset) scale(zoom) are mutually inverse |
| `Geometry.DragPosition` | App.tsx:379-385 | a dragged node's displacement times zoom equals the pointer's travel on screen |
| `Geometry.PanMovesContentWithPointer` | App.tsx:388-394 | after a pan every logical point appears on screen moved by exactly the pointer's travel, at any zoom |
| `Geometry.InsertionPoint` | App.tsx:313-315 | a new node is centred horizontally on the visible canvas with its top 40 units above the vertical centre; without a canvas rectangle it is placed at (100, 150) |
| `Geometry.SquaredDistance` | App.tsx:405 | the squared distance is never negative |
| `Geometry.SquareMonotone` | App.tsx:405-406 | for non-negative reals, comparing squares decides the same as comparing the values |
| `Geometry.WithinSnapIsHypotTest` | App.tsx:405-406 | the squared comparison holds exactly when the Euclidean distance is strictly below 40 / zoom; a distance exactly equal to the threshold does not snap |
| `Geometry.SnapRadiusInScreenPixels` | App.tsx:398-406 | in screen pixels the snap radius is 40 at every zoom |
| `Viewport.Clamp` | App.tsx:434 | the result lies in [lo, hi], equals the value when it is in range, and equals the nearer bound otherwise |
| `Viewport.WheelZoom` | App.tsx:428-436 | without Ctrl or Meta the zoom is unchanged; with one, a negative deltaY multiplies it by 1.05 and any other deltaY divides it by 1.05, the result clamped to [0.1, 3] (either bound whenever the product or quotient leaves the range); from an in-range zoom a negative deltaY never zooms out and any other never zooms in |
| `Viewport.ZoomIn` | App.tsx:570 | the smaller of zoom times 1.1 and 3; from a zoom in range the result stays in range and does not decrease |
| `Viewport.ZoomOut` | App.tsx:571 | the larger of zoom divided by 1.1 and 0.1; from a zoom in range the result stays in range and does not increase |
| `Viewport.ZoomButtonsInverse` | App.tsx:570-571 | away from the bounds, zooming in then out, or out then in, returns to the starting zoom |
| `Snap.FirstEligible` | App.tsx:402-411 | the search from index k returns an index at or after k inside the list, or none |
| `Snap.FirstEligibleIsFirst` | App.tsx:402-411 | the index returned is a candidate and every earlier index is not; none means no candidate at or after k |
| `Snap.SnapSearchIsFirstMatch` | App.tsx:400-411 | there is no target exactly when no node is eligible, and the endpoint is then the raw logical pointer; otherwise the target is the first eligible node in array order, never the origin and never a START node, and the endpoint is its input port |
| `Snap.SnapTargetPort` | App.tsx:400-411 | with unique ids, the target is a non-START node whose input port (x - 8, y + 47) is the endpoint and lies within the snap radius |
| `Snap.FindSnap` | App.tsx:400-411 | the loop with `continue` and `break` yields exactly the target and endpoint of the first-match search |
| `Editor.RunLog` | App.tsx:447-453 | the run log has exactly one entry per node |
| `Editor.RunLogEntries` | App.tsx:447-453 | the entry at each index belongs to the node at that index, has status success, and has message "Processed: " followed by the node's name |
| `Editor.RunTrace` | App.tsx:441-457 | the run makes exactly two status writes per node |
| `Editor.RunTraceEvents` | App.tsx:441-457 | for the node at index k, write 2k sets it running and write 2k+1 sets it success, so nodes are handled one at a time in array order |
| `Editor.AllSucceededMeaning` | App.tsx:441-457 | the final node list has the snapshot's length, every node in it has status success, and nothing else about any node changes |
| `Editor.Progress` | App.tsx:441-457 | the intermediate node list of the walk has the snapshot's length |
| `Editor.ProgressStart` | App.tsx:441 | before the first iteration the nodes are the snapshot |
| `Editor.ProgressEnd` | App.tsx:458 | after the last iteration every node of the snapshot is marked success |
| `Editor.RunStep` | App.tsx:442-457 | one iteration (running, then log, then success) extends the walk, its log and its trace by exactly one node |
| `Editor.Editor.constructor` | App.tsx:243-267 | the initial state: scenario `sc-1` with no nodes or edges, zoom 1, offset (0, 0), no selection, no gesture, empty log |
| `Editor.Editor.MouseDown` | App.tsx:349-358 | a press on the background starts a pan from the current offset and pointer and clears the selection and editing; a press elsewhere changes nothing |
| `Editor.Editor.DragStart` | App.tsx:360-370 | for a known node, records the drag from its position and the pointer, selects it and closes editing; an unknown id changes nothing |
| `Editor.Editor.ConnectStart` | App.tsx:372-375 | starts a connection from the node and handle, with its endpoint at that output port |
| `Editor.Editor.MouseMove` | App.tsx:377-416 | a drag moves only the dragged node (edges, offset and gesture state unchanged); otherwise a pan sets only the offset; otherwise a connection with a canvas rectangle stores the first-match snap target and endpoint of the logical pointer; otherwise nothing changes |
| `Editor.Editor.MouseUp` | App.tsx:418-426 | an edge (origin, snap target, handle) is committed only when connecting with a truthy snap target, otherwise the scenario is unchanged; afterwards there is no drag, pan, connection or snap target |
| `Editor.Editor.ConnectEnd` | App.tsx:559 | while connecting, the edge to the port's node is committed whether or not it was the snap target, and the connection and snap target are cleared; otherwise nothing changes and the connection stays absent |
| `Editor.Editor.ReleaseOverInputPort` | App.tsx:138 | the root's commit uses the `connecting` and `snapNodeId` from before the event but runs on the scenario the port's commit produced; when the snap target is the port's node the result is that of a single commit |
| `Editor.Editor.Wheel` | App.tsx:428-436 | the wheel zoom is applied and zoom stays in [0.1, 3] |
| `Editor.Editor.ZoomInButton` | App.tsx:570 | the zoom grows by 1.1, capped at 3, and stays in range |
| `Editor.Editor.ZoomOutButton` | App.tsx:571 | the zoom shrinks by 1.1, floored at 0.1, and stays in range |
| `Editor.Editor.ResetView` | App.tsx:572 | offset (0, 0) and zoom 1 |
| `Editor.Editor.AddNode` | App.tsx:312-327 | the scenario gains the new idle node with the type's label, default config and centred position, and editing closes |
| `Editor.Editor.UpdateNode` | App.tsx:329-336 | with a truthy editing id, the patch is merged into that node; otherwise the scenario is unchanged |
| `Editor.Editor.DeleteNode` | App.tsx:338-347 | the cascade delete is applied, and editing and selection are cleared exactly when they referred to the node |
| `Editor.Editor.DeleteEdge` | App.tsx:540 | the edge click removes that edge, and every edge invariant is kept |
| `Editor.Editor.SelectNode` | App.tsx:554 | the clicked node becomes the active one |
| `Editor.Editor.EditNode` | App.tsx:555 | the node's settings open |
| `Editor.Editor.CloseSettings` | App.tsx:591 | the settings panel closes |
| `Editor.Editor.Run` | App.tsx:438-460 | with no nodes, nothing happens, since the button is disabled; otherwise every node present at the click ends with status success and nothing else changes. The log is exactly one success entry per node in array order, and the status writes are running then success per node in array order. |

## Left out

- Markup and presentation. This covers `SidebarItem`, `NodeCard`, `ProtocolModal`,
  `SettingsPanel`, CSS and SVG. The event wiring of `NodeCard` is modelled as the distinct
  `Editor` methods it dispatches to.
- DOM hit-testing. The `closest('.port')`/`closest('.action-btn')` guard of the node card and
  the background test of `handleMouseDown` are not modelled as DOM queries. The node-card guard
  means the caller chooses a different event method. The background test is the `onBackground`
  parameter of `MouseDown`.
- `services/geminiService.ts` is not part of this model. It is a network client, and the run
  walker does not call it. For the same reason the "AI Optimize" button and `JSON.stringify`
  of the scenario are omitted, along with the clipboard, the protocol modal and its open flag,
  and the `aiTips` text.
- `constants.tsx` is not part of this model. The catalogue's label per operator type is the
  function `labelOf` given to the `Editor` constructor.
- Clock and timers: `Date.now()` ids are parameters (`edgeId`, node `id`). `updatedAt` is a
  counter rather than an ISO time string, and `setTimeout` delays are omitted. The log
  entry's `id` and `timestamp` fields are omitted, since both come from the clock.
- `Graph.CreateEdge`, `Graph.UpdateNode`, `Graph.AddNode`, `Graph.DeleteNode`: the strict
  increase of `updatedAt` holds for the counter. Two real timestamps taken in the same
  millisecond could be equal.
- `getBoundingClientRect` is a parameter (`Option<Rect>`).
- Floating point: coordinates and zoom are reals, so rounding is not modelled. `Math.hypot` is
  replaced by the squared-distance comparison, which `Geometry.WithinSnapIsHypotTest` shows
  decides the same thing for exact arithmetic.
- `async`/`await` in `handleRun`: the walker runs as one uninterrupted loop. Events that arrive
  during the 400 ms pauses are not interleaved with it, so a run that overlaps an edit is not
  modelled. The class invariant's `!isRunning` is what holds between events in this
  sequential model.
- React's batching of state updates. Each method applies its updates at once, in order.
  `ReleaseOverInputPort` is the one place where two handlers read the same earlier render, and
  it is modelled explicitly.
- `Node.status` is optional in `types.ts`. Here it is a required field, since every place that
  creates or writes a node sets it.
- Node `config` values are modelled as numbers or strings only. `Record<string, any>` can hold
  other values, which no code path here creates. The log entry's optional `data` is omitted.
- The settings panel's field editors build their patches from the node's own data. Only
  `UpdateNode`, which applies a given patch, is modelled; which patch each text box builds
  is not.
- Partial updates: a patch field is either absent or holds a value. An own key explicitly set
  to `undefined`, which the JavaScript spread would copy over, is not modelled.
