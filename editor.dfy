/** The `App` component's interaction state and its event handlers: canvas, node and port
    mouse-downs, mouse-move (drag, pan or connect), mouse-up, the input port's own mouse-up,
    wheel and button zoom, view reset, node add/update/delete, edge delete, and the run
    walker. Each handler is a method; the component's state hooks are the class's fields. */
module Editor {
  import opened Types
  import Graph
  import opened Geometry
  import Viewport
  import opened Snap

  /** `draggingNode`: which node, where it was and where the pointer was when the drag began. */
  datatype DragState = DragState(id: string, startNodePos: Position, startMousePos: Position)

  /** `panning`: the offset and the pointer position when the pan began. */
  datatype PanState = PanState(startOffset: Position, startMousePos: Position)

  /** `connecting`: the origin node and handle, and the current visual endpoint. */
  datatype ConnectState = ConnectState(fromId: string, fromHandle: Option<string>, currentPos: Position)

  /** One status write of the run walker. */
  datatype StatusEvent = StatusEvent(nodeId: string, status: Status)

  const InitialScenario: Scenario :=
    Scenario("sc-1", "Algorithm Strategy Workbench", "Dynamic strategy flow builder", [], [], 0)

  /** The log line `handleRun` appends for a processed node. */
  function LogFor(n: Node): LogEntry
  {
    LogEntry(n.id, LogSuccess, "Processed: " + n.name)
  }

  /** The log of a run over `nodes`: one line per node, in array order. */
  function RunLog(nodes: seq<Node>): (log: seq<LogEntry>)
    ensures |log| == |nodes|
  {
    if |nodes| == 0 then [] else RunLog(nodes[..|nodes| - 1]) + [LogFor(nodes[|nodes| - 1])]
  }

  /** Each line of the run log is a success line for the node at the same index. */
  lemma {:induction false} RunLogEntries(nodes: seq<Node>)
    ensures forall k :: 0 <= k < |nodes| ==> RunLog(nodes)[k].nodeId == nodes[k].id && RunLog(nodes)[k].status == LogSuccess
    ensures forall k :: 0 <= k < |nodes| ==> RunLog(nodes)[k].message == "Processed: " + nodes[k].name
  {
    if |nodes| > 0 {
      var init := nodes[..|nodes| - 1];
      RunLogEntries(init);
      forall k | 0 <= k < |init| ensures nodes[k] == init[k] {}
    }
  }

  /** The status writes of a run over `nodes`. */
  function RunTrace(nodes: seq<Node>): (t: seq<StatusEvent>)
    ensures |t| == 2 * |nodes|
  {
    if |nodes| == 0 then []
    else
      var n := nodes[|nodes| - 1];
      RunTrace(nodes[..|nodes| - 1]) + [StatusEvent(n.id, Running), StatusEvent(n.id, Success)]
  }

  /** Each node in array order is set running and then success, before the next node is
      touched. */
  lemma {:induction false} RunTraceEvents(nodes: seq<Node>)
    ensures forall k :: 0 <= k < |nodes| ==> RunTrace(nodes)[2 * k] == StatusEvent(nodes[k].id, Running)
    ensures forall k :: 0 <= k < |nodes| ==> RunTrace(nodes)[2 * k + 1] == StatusEvent(nodes[k].id, Success)
  {
    if |nodes| > 0 {
      var init := nodes[..|nodes| - 1];
      RunTraceEvents(init);
      forall k | 0 <= k < |init| ensures nodes[k] == init[k] {}
    }
  }

  /** Every node marked success, nothing else changed. */
  function AllSucceeded(nodes: seq<Node>): seq<Node>
  {
    seq(|nodes|, k requires 0 <= k < |nodes| => nodes[k].(status := Success))
  }

  lemma AllSucceededMeaning(nodes: seq<Node>)
    ensures |AllSucceeded(nodes)| == |nodes|
    ensures forall k :: 0 <= k < |nodes| ==> AllSucceeded(nodes)[k].status == Success
    ensures forall k :: 0 <= k < |nodes| ==> AllSucceeded(nodes)[k].(status := nodes[k].status) == nodes[k]
  {
  }

  /** Some node of `prefix` carries `id`. */
  predicate IdAmong(id: string, prefix: seq<Node>)
  {
    exists j :: 0 <= j < |prefix| && prefix[j].id == id
  }

  /** The nodes after the walker has finished the first `i` snapshot entries: every node whose
      id was among them is marked success. */
  function Progress(snapshot: seq<Node>, i: nat): (r: seq<Node>)
    requires i <= |snapshot|
    ensures |r| == |snapshot|
  {
    seq(|snapshot|, k requires 0 <= k < |snapshot| =>
      if IdAmong(snapshot[k].id, snapshot[..i]) then snapshot[k].(status := Success) else snapshot[k])
  }

  lemma ProgressStart(snapshot: seq<Node>)
    ensures Progress(snapshot, 0) == snapshot
  {
  }

  lemma ProgressEnd(snapshot: seq<Node>)
    ensures Progress(snapshot, |snapshot|) == AllSucceeded(snapshot)
    ensures snapshot[..|snapshot|] == snapshot
  {
    forall k | 0 <= k < |snapshot| ensures IdAmong(snapshot[k].id, snapshot[..|snapshot|]) {
      assert snapshot[..|snapshot|][k] == snapshot[k];
    }
  }

  /** One iteration of the walker: set entry `i` running, then success, and extend the log
      and the trace by that entry. */
  lemma RunStep(snapshot: seq<Node>, i: nat)
    requires i < |snapshot|
    ensures var id := snapshot[i].id;
      Graph.SetStatus(Graph.SetStatus(Progress(snapshot, i), id, Running), id, Success) == Progress(snapshot, i + 1)
    ensures RunLog(snapshot[..i + 1]) == RunLog(snapshot[..i]) + [LogFor(snapshot[i])]
    ensures RunTrace(snapshot[..i + 1]) == RunTrace(snapshot[..i]) + [StatusEvent(snapshot[i].id, Running), StatusEvent(snapshot[i].id, Success)]
  {
    var node := snapshot[i];
    assert snapshot[..i + 1][..i] == snapshot[..i];
    assert snapshot[..i + 1][i] == node;
    var a := Graph.SetStatus(Graph.SetStatus(Progress(snapshot, i), node.id, Running), node.id, Success);
    var b := Progress(snapshot, i + 1);
    forall k | 0 <= k < |snapshot| ensures a[k] == b[k] {
      assert IdAmong(snapshot[k].id, snapshot[..i + 1]) <==> IdAmong(snapshot[k].id, snapshot[..i]) || snapshot[k].id == node.id by {
        if IdAmong(snapshot[k].id, snapshot[..i + 1]) && snapshot[k].id != node.id {
          var j :| 0 <= j < i + 1 && snapshot[..i + 1][j].id == snapshot[k].id;
          assert snapshot[..i][j].id == snapshot[k].id;
        }
        if IdAmong(snapshot[k].id, snapshot[..i]) {
          var j :| 0 <= j < i && snapshot[..i][j].id == snapshot[k].id;
          assert snapshot[..i + 1][j].id == snapshot[k].id;
        }
        if snapshot[k].id == node.id {
          assert snapshot[..i + 1][i].id == snapshot[k].id;
        }
      }
    }
  }

  class Editor {
    /** `OPERATOR_METADATA[type].label`, the catalogue's display name of each operator type. */
    const labelOf: OperatorType -> string

    var scenario: Scenario
    var activeNodeId: Option<string>
    var editingNodeId: Option<string>
    var isRunning: bool
    var logs: seq<LogEntry>

    var zoom: real
    var canvasOffset: Position
    var draggingNode: Option<DragState>
    var panning: Option<PanState>
    var connecting: Option<ConnectState>
    var snapNodeId: Option<string>

    /** Every status write the run walker has made, in order. */
    ghost var statusEvents: seq<StatusEvent>

    /** Zoom stays in [0.1, 3]; no edge is a self-loop and no triple is repeated; no run is
        in progress between events. */
    ghost predicate Valid()
      reads this
    {
      && Viewport.InRange(zoom)
      && Graph.NoSelfLoops(scenario.edges)
      && Graph.NoDuplicateTriples(scenario.edges)
      && !isRunning
    }

    /** The component's initial state. */
    constructor (labelOf: OperatorType -> string)
      ensures Valid()
      ensures this.labelOf == labelOf
      ensures scenario == InitialScenario && logs == [] && statusEvents == []
      ensures activeNodeId == None && editingNodeId == None
      ensures zoom == 1.0 && canvasOffset == Position(0.0, 0.0)
      ensures draggingNode == None && panning == None && connecting == None && snapNodeId == None
    {
      this.labelOf := labelOf;
      scenario := InitialScenario;
      activeNodeId, editingNodeId := None, None;
      isRunning, logs := false, [];
      zoom, canvasOffset := 1.0, Position(0.0, 0.0);
      draggingNode, panning, connecting, snapNodeId := None, None, None, None;
      statusEvents := [];
    }

    // -------------------------------------------------------------------------------------
    // Mouse-down events

    /** `handleMouseDown` on the canvas: when the press lands on the background itself (the
        canvas element or its grid), begin a pan and clear the selection; a press that lands on
        anything else changes nothing here. */
    method MouseDown(client: Position, onBackground: bool)
      requires Valid()
      modifies this`panning, this`activeNodeId, this`editingNodeId
      ensures Valid()
      ensures onBackground ==> panning == Some(PanState(canvasOffset, client)) && activeNodeId == None && editingNodeId == None
      ensures !onBackground ==> panning == old(panning) && activeNodeId == old(activeNodeId) && editingNodeId == old(editingNodeId)
    {
      if onBackground {
        panning := Some(PanState(canvasOffset, client));
        activeNodeId := None;
        editingNodeId := None;
      }
    }

    /** `handleDragStart` on a node body: for a known id, record the drag, select the node and
        close its settings; an unknown id changes nothing. */
    method DragStart(id: string, client: Position)
      requires Valid()
      modifies this`draggingNode, this`activeNodeId, this`editingNodeId
      ensures Valid()
      ensures Graph.FindNode(scenario.nodes, id).None? ==>
        draggingNode == old(draggingNode) && activeNodeId == old(activeNodeId) && editingNodeId == old(editingNodeId)
      ensures Graph.FindNode(scenario.nodes, id).Some? ==>
        && draggingNode == Some(DragState(id, Graph.FindNode(scenario.nodes, id).value.position, client))
        && activeNodeId == Some(id) && editingNodeId == None
    {
      var node := Graph.FindNode(scenario.nodes, id);
      if node.None? {
        return;
      }
      draggingNode := Some(DragState(id, node.value.position, client));
      activeNodeId := Some(id);
      editingNodeId := None;
    }

    /** `handleConnectStart` on an output port (with its handle, for IF_ELSE). */
    method ConnectStart(id: string, handle: Option<string>)
      requires Valid()
      modifies this`connecting
      ensures Valid()
      ensures connecting == Some(ConnectState(id, handle, PortPos(scenario.nodes, id, Out, handle)))
    {
      connecting := Some(ConnectState(id, handle, PortPos(scenario.nodes, id, Out, handle)));
    }

    // -------------------------------------------------------------------------------------
    // Mouse-move

    /** `handleMouseMove`: a drag moves only the dragged node; otherwise a pan moves only the
        offset; otherwise a connecting gesture (when the canvas has a rectangle) runs the snap
        search from the logical pointer and stores its target and endpoint. */
    method MouseMove(client: Position, rect: Option<Rect>)
      requires Valid()
      modifies this`scenario, this`canvasOffset, this`connecting, this`snapNodeId
      ensures Valid()
      ensures draggingNode.Some? ==>
        var d := draggingNode.value;
        && scenario == old(scenario).(nodes := Graph.MoveNode(old(scenario.nodes), d.id,
                                                DragPosition(d.startNodePos, d.startMousePos, client, zoom)))
        && canvasOffset == old(canvasOffset) && connecting == old(connecting) && snapNodeId == old(snapNodeId)
      ensures draggingNode.None? && panning.Some? ==>
        && canvasOffset == PanOffset(panning.value.startOffset, panning.value.startMousePos, client)
        && scenario == old(scenario) && connecting == old(connecting) && snapNodeId == old(snapNodeId)
      ensures draggingNode.None? && panning.None? && old(connecting).Some? && rect.Some? ==>
        var r := SnapSearch(scenario.nodes, old(connecting).value.fromId,
                            ToLogical(client, rect.value, canvasOffset, zoom), zoom);
        && snapNodeId == r.target
        && connecting == Some(old(connecting).value.(currentPos := r.endpoint))
        && scenario == old(scenario) && canvasOffset == old(canvasOffset)
      ensures draggingNode.None? && panning.None? && (old(connecting).None? || rect.None?) ==>
        && scenario == old(scenario) && canvasOffset == old(canvasOffset)
        && connecting == old(connecting) && snapNodeId == old(snapNodeId)
    {
      if draggingNode.Some? {
        var d := draggingNode.value;
        var pos := DragPosition(d.startNodePos, d.startMousePos, client, zoom);
        scenario := scenario.(nodes := Graph.MoveNode(scenario.nodes, d.id, pos));
      } else if panning.Some? {
        canvasOffset := PanOffset(panning.value.startOffset, panning.value.startMousePos, client);
      } else if connecting.Some? {
        if rect.Some? {
          var mouse := ToLogical(client, rect.value, canvasOffset, zoom);
          var snappedId, finalPos := FindSnap(scenario.nodes, connecting.value.fromId, mouse, zoom);
          connecting := Some(connecting.value.(currentPos := finalPos));
          snapNodeId := snappedId;
        }
      }
    }

    // -------------------------------------------------------------------------------------
    // Mouse-up

    /** `handleMouseUp`: commit an edge only when connecting with a (truthy) snap target, then
        end every gesture. */
    method MouseUp(edgeId: string)
      requires Valid()
      modifies this`scenario, this`draggingNode, this`panning, this`connecting, this`snapNodeId
      ensures Valid()
      ensures old(connecting).Some? && Truthy(old(snapNodeId)) ==>
        scenario == Graph.CreateEdge(old(scenario), old(connecting).value.fromId, old(snapNodeId).value,
                                     old(connecting).value.fromHandle, edgeId)
      ensures !(old(connecting).Some? && Truthy(old(snapNodeId))) ==> scenario == old(scenario)
      ensures draggingNode == None && panning == None && connecting == None && snapNodeId == None
    {
      if connecting.Some? && Truthy(snapNodeId) {
        scenario := Graph.CreateEdge(scenario, connecting.value.fromId, snapNodeId.value, connecting.value.fromHandle, edgeId);
      }
      draggingNode, panning, connecting, snapNodeId := None, None, None, None;
    }

    /** `onConnectEnd(id)`, the input port's own mouse-up: while connecting, commit an edge to
        this node whether or not it is the snap target, and end the connecting gesture. */
    method ConnectEnd(id: string, edgeId: string)
      requires Valid()
      modifies this`scenario, this`connecting, this`snapNodeId
      ensures Valid()
      ensures old(connecting).Some? ==>
        && scenario == Graph.CreateEdge(old(scenario), old(connecting).value.fromId, id, old(connecting).value.fromHandle, edgeId)
        && connecting == None && snapNodeId == None
      ensures old(connecting).None? ==> scenario == old(scenario) && connecting == None && snapNodeId == old(snapNodeId)
    {
      if connecting.Some? {
        scenario := Graph.CreateEdge(scenario, connecting.value.fromId, id, connecting.value.fromHandle, edgeId);
        connecting := None;
        snapNodeId := None;
      }
    }

    /** A release over node `id`'s input port: the port's `onConnectEnd` runs and the event
        then reaches the root's `handleMouseUp`, whose closure still sees the `connecting` and
        `snapNodeId` of the render before the event. When the snap target is the port under
        the pointer, the duplicate check makes the second commit a no-op and exactly one edge
        is added. */
    method ReleaseOverInputPort(id: string, portEdgeId: string, rootEdgeId: string)
      requires Valid()
      modifies this`scenario, this`draggingNode, this`panning, this`connecting, this`snapNodeId
      ensures Valid()
      ensures old(connecting).None? ==> scenario == old(scenario)
      ensures old(connecting).Some? ==>
        var c := old(connecting).value;
        var s1 := Graph.CreateEdge(old(scenario), c.fromId, id, c.fromHandle, portEdgeId);
        scenario == if Truthy(old(snapNodeId)) then Graph.CreateEdge(s1, c.fromId, old(snapNodeId).value, c.fromHandle, rootEdgeId)
                    else s1
      ensures old(connecting).Some? && old(snapNodeId) == Some(id) ==>
        scenario == Graph.CreateEdge(old(scenario), old(connecting).value.fromId, id, old(connecting).value.fromHandle, portEdgeId)
      ensures draggingNode == None && panning == None && connecting == None && snapNodeId == None
    {
      var c, snap := connecting, snapNodeId;
      if c.Some? {
        var afterPort := Graph.CreateEdge(scenario, c.value.fromId, id, c.value.fromHandle, portEdgeId);
        if Truthy(snap) {
          if snap == Some(id) {
            Graph.CreateEdgeIdempotent(scenario, c.value.fromId, id, c.value.fromHandle, portEdgeId, rootEdgeId);
          }
          scenario := Graph.CreateEdge(afterPort, c.value.fromId, snap.value, c.value.fromHandle, rootEdgeId);
        } else {
          scenario := afterPort;
        }
      }
      draggingNode, panning, connecting, snapNodeId := None, None, None, None;
    }

    // -------------------------------------------------------------------------------------
    // Zoom and view

    /** `handleWheel`: zoom only with Ctrl or Meta held, clamped to [0.1, 3]. */
    method Wheel(ctrlOrMeta: bool, deltaY: real)
      requires Valid()
      modifies this`zoom
      ensures Valid()
      ensures zoom == Viewport.WheelZoom(old(zoom), ctrlOrMeta, deltaY)
    {
      zoom := Viewport.WheelZoom(zoom, ctrlOrMeta, deltaY);
    }

    /** The zoom-in button. */
    method ZoomInButton()
      requires Valid()
      modifies this`zoom
      ensures Valid()
      ensures zoom == Viewport.ZoomIn(old(zoom)) && zoom >= old(zoom)
    {
      zoom := Viewport.ZoomIn(zoom);
    }

    /** The zoom-out button. */
    method ZoomOutButton()
      requires Valid()
      modifies this`zoom
      ensures Valid()
      ensures zoom == Viewport.ZoomOut(old(zoom)) && zoom <= old(zoom)
    {
      zoom := Viewport.ZoomOut(zoom);
    }

    /** The reset button: offset back to the origin and zoom back to 1. */
    method ResetView()
      requires Valid()
      modifies this`zoom, this`canvasOffset
      ensures Valid()
      ensures canvasOffset == Position(0.0, 0.0) && zoom == 1.0
    {
      canvasOffset := Position(0.0, 0.0);
      zoom := 1.0;
    }

    // -------------------------------------------------------------------------------------
    // Graph edits

    /** `addNode(type)`: a new idle node named by the catalogue label, with the type's default
        config, placed at the canvas centre; the settings panel closes. */
    method AddNode(kind: OperatorType, rect: Option<Rect>, id: string)
      requires Valid()
      modifies this`scenario, this`editingNodeId
      ensures Valid()
      ensures scenario == Graph.AddNode(old(scenario), Graph.NewNode(id, kind, labelOf(kind), InsertionPoint(rect, canvasOffset, zoom)))
      ensures editingNodeId == None
    {
      var pos := InsertionPoint(rect, canvasOffset, zoom);
      scenario := Graph.AddNode(scenario, Graph.NewNode(id, kind, labelOf(kind), pos));
      editingNodeId := None;
    }

    /** `updateNode(updates)`: merge into the node being edited; nothing without one. */
    method UpdateNode(patch: NodePatch)
      requires Valid()
      modifies this`scenario
      ensures Valid()
      ensures Truthy(editingNodeId) ==> scenario == Graph.UpdateNode(old(scenario), editingNodeId.value, patch)
      ensures !Truthy(editingNodeId) ==> scenario == old(scenario)
    {
      if !Truthy(editingNodeId) {
        return;
      }
      scenario := Graph.UpdateNode(scenario, editingNodeId.value, patch);
    }

    /** `deleteNode(id)`: delete with the edge cascade and clear the selection references
        that pointed at the node. */
    method DeleteNode(id: string)
      requires Valid()
      modifies this`scenario, this`editingNodeId, this`activeNodeId
      ensures Valid()
      ensures scenario == Graph.DeleteNode(old(scenario), id)
      ensures editingNodeId == if old(editingNodeId) == Some(id) then None else old(editingNodeId)
      ensures activeNodeId == if old(activeNodeId) == Some(id) then None else old(activeNodeId)
    {
      scenario := Graph.DeleteNode(scenario, id);
      if editingNodeId == Some(id) {
        editingNodeId := None;
      }
      if activeNodeId == Some(id) {
        activeNodeId := None;
      }
    }

    /** A click on an edge: remove it. */
    method DeleteEdge(edgeId: string)
      requires Valid()
      modifies this`scenario
      ensures Valid()
      ensures scenario == Graph.DeleteEdge(old(scenario), edgeId)
    {
      scenario := Graph.DeleteEdge(scenario, edgeId);
    }

    /** A click on a node card. */
    method SelectNode(id: string)
      requires Valid()
      modifies this`activeNodeId
      ensures Valid() && activeNodeId == Some(id)
    {
      activeNodeId := Some(id);
    }

    /** The node card's edit button. */
    method EditNode(id: string)
      requires Valid()
      modifies this`editingNodeId
      ensures Valid() && editingNodeId == Some(id)
    {
      editingNodeId := Some(id);
    }

    /** The settings panel's close and save buttons. */
    method CloseSettings()
      requires Valid()
      modifies this`editingNodeId
      ensures Valid() && editingNodeId == None
    {
      editingNodeId := None;
    }

    // -------------------------------------------------------------------------------------
    // Run

    /** The Run button and `handleRun`: with no nodes the button is disabled and nothing
        happens; otherwise the log is cleared and the nodes present at the click are walked in
        array order, each set running, logged as processed and set success. */
    method Run()
      requires Valid()
      modifies this`scenario, this`logs, this`isRunning, this`statusEvents
      ensures Valid()
      ensures |old(scenario.nodes)| == 0 ==>
        scenario == old(scenario) && logs == old(logs) && statusEvents == old(statusEvents)
      ensures |old(scenario.nodes)| > 0 ==>
        && scenario == old(scenario).(nodes := AllSucceeded(old(scenario.nodes)))
        && logs == RunLog(old(scenario.nodes))
        && statusEvents == old(statusEvents) + RunTrace(old(scenario.nodes))
    {
      if |scenario.nodes| == 0 {
        return;
      }
      isRunning := true;
      logs := [];
      var snapshot := scenario.nodes;
      ProgressStart(snapshot);
      for i := 0 to |snapshot|
        invariant scenario == old(scenario).(nodes := Progress(snapshot, i))
        invariant logs == RunLog(snapshot[..i])
        invariant statusEvents == old(statusEvents) + RunTrace(snapshot[..i])
      {
        var node := snapshot[i];
        RunStep(snapshot, i);
        scenario := scenario.(nodes := Graph.SetStatus(scenario.nodes, node.id, Running));
        statusEvents := statusEvents + [StatusEvent(node.id, Running)];
        logs := logs + [LogFor(node)];
        scenario := scenario.(nodes := Graph.SetStatus(scenario.nodes, node.id, Success));
        statusEvents := statusEvents + [StatusEvent(node.id, Success)];
      }
      ProgressEnd(snapshot);
      isRunning := false;
    }
  }
}
