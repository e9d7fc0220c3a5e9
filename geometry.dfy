/** Canvas geometry of App.tsx: port positions per node type and handle, the control points
    of the edge curve, the screen/logical transforms, the drag and pan arithmetic, the
    insertion point of a new node, and the squared-distance snap test. */
module Geometry {
  import opened Types
  import opened Graph

  const NodeWidth: real := 154.0
  const PortYOffset: real := 47.0
  const PortInXOffset: real := -8.0
  const PortOutXOffset: real := 8.0
  const SnapThreshold: real := 40.0
  /** How far the IF_ELSE "true" port sits above, and the other port below, the centre line. */
  const TrueHandleRise: real := 9.0
  const FalseHandleDrop: real := 11.0
  /** Minimum horizontal offset of the curve's control points. */
  const MinCurvature: real := 30.0

  datatype PortKind = In | Out

  function Abs(r: real): (a: real)
    ensures a >= 0.0 && (a == r || a == -r)
  {
    if r < 0.0 then -r else r
  }

  // ---------------------------------------------------------------------------------------
  // getPortPos

  /** The logical position of a port of `node`: the input port on the left, the output port
      on the right, with IF_ELSE's "true" port raised and its other port lowered. */
  function PortOf(node: Node, kind: PortKind, handle: Option<string>): Position
  {
    if kind == In then
      Position(node.position.x + PortInXOffset, node.position.y + PortYOffset)
    else
      var yFinal :=
        if node.kind == IfElse then
          (if handle == Some("true") then node.position.y + PortYOffset - TrueHandleRise
           else node.position.y + PortYOffset + FalseHandleDrop)
        else node.position.y + PortYOffset;
      Position(node.position.x + NodeWidth + PortOutXOffset, yFinal)
  }

  /** `getPortPos(nodeId, kind, handle)`: the port of the first node carrying `id`, or the
      origin if there is none. */
  function PortPos(nodes: seq<Node>, id: string, kind: PortKind, handle: Option<string>): (p: Position)
    ensures (forall n :: n in nodes ==> n.id != id) ==> p == Position(0.0, 0.0)
  {
    match FindNode(nodes, id)
    case None => Position(0.0, 0.0)
    case Some(node) => PortOf(node, kind, handle)
  }

  /** The ports of the node the look-up finds for `id` (the first node carrying it, repeated
      ids included): input at (x - 8, y + 47); output at (x + 154 + 8, y + 47), except IF_ELSE
      whose "true" port is at y + 47 - 9 and whose other port is at y + 47 + 11. */
  lemma PortsOfFound(nodes: seq<Node>, id: string, n: Node, handle: Option<string>)
    requires FindNode(nodes, id) == Some(n)
    ensures PortPos(nodes, id, In, handle) == Position(n.position.x - 8.0, n.position.y + 47.0)
    ensures PortPos(nodes, id, Out, handle).x == n.position.x + 154.0 + 8.0
    ensures n.kind != IfElse ==> PortPos(nodes, id, Out, handle).y == n.position.y + 47.0
    ensures n.kind == IfElse && handle == Some("true") ==> PortPos(nodes, id, Out, handle).y == n.position.y + 47.0 - 9.0
    ensures n.kind == IfElse && handle != Some("true") ==> PortPos(nodes, id, Out, handle).y == n.position.y + 47.0 + 11.0
  {
  }

  /** With unique ids, those are the ports of every node of the list under its own id. */
  lemma PortsOfNode(nodes: seq<Node>, i: nat, handle: Option<string>)
    requires UniqueIds(nodes) && i < |nodes|
    ensures var n := nodes[i];
      && PortPos(nodes, n.id, In, handle) == Position(n.position.x - 8.0, n.position.y + 47.0)
      && PortPos(nodes, n.id, Out, handle).x == n.position.x + 154.0 + 8.0
      && (n.kind != IfElse ==> PortPos(nodes, n.id, Out, handle).y == n.position.y + 47.0)
      && (n.kind == IfElse && handle == Some("true") ==> PortPos(nodes, n.id, Out, handle).y == n.position.y + 47.0 - 9.0)
      && (n.kind == IfElse && handle != Some("true") ==> PortPos(nodes, n.id, Out, handle).y == n.position.y + 47.0 + 11.0)
  {
    FindUnique(nodes, i);
    PortsOfFound(nodes, nodes[i].id, nodes[i], handle);
  }

  /** The two IF_ELSE output ports share their x and the "true" port is 20 units above
      any other handle's port. */
  lemma BranchPortsOrdered(nodes: seq<Node>, id: string, other: Option<string>)
    requires FindNode(nodes, id).Some? && FindNode(nodes, id).value.kind == IfElse
    requires other != Some("true")
    ensures PortPos(nodes, id, Out, Some("true")).x == PortPos(nodes, id, Out, other).x
    ensures PortPos(nodes, id, Out, Some("true")).y + 20.0 == PortPos(nodes, id, Out, other).y
    ensures PortPos(nodes, id, Out, Some("true")).y < PortPos(nodes, id, Out, other).y
  {
  }

  /** Only IF_ELSE output ports depend on the handle; input ports never do. */
  lemma HandleOnlyMattersForBranches(nodes: seq<Node>, id: string, h1: Option<string>, h2: Option<string>)
    ensures PortPos(nodes, id, In, h1) == PortPos(nodes, id, In, h2)
    ensures (FindNode(nodes, id).None? || FindNode(nodes, id).value.kind != IfElse)
            ==> PortPos(nodes, id, Out, h1) == PortPos(nodes, id, Out, h2)
  {
  }

  /** Moving a node carries its ports with it: each port shifts by exactly the node's own
      displacement, so edges stay attached during a drag. */
  lemma PortsFollowMove(nodes: seq<Node>, id: string, pos: Position, kind: PortKind, handle: Option<string>)
    requires FindNode(nodes, id).Some?
    ensures var was := FindNode(nodes, id).value.position;
      && PortPos(MoveNode(nodes, id, pos), id, kind, handle).x == PortPos(nodes, id, kind, handle).x + (pos.x - was.x)
      && PortPos(MoveNode(nodes, id, pos), id, kind, handle).y == PortPos(nodes, id, kind, handle).y + (pos.y - was.y)
  {
    MoveNodeFinds(nodes, id, pos);
  }

  // ---------------------------------------------------------------------------------------
  // getBezierPath

  /** The cubic curve from `start` to `end` with its two control points. */
  datatype Curve = Curve(start: Position, control1: Position, control2: Position, end: Position)

  /** `max(|end.x - start.x| * 0.5, 30)`. */
  function Curvature(start: Position, end: Position): (c: real)
    ensures c >= MinCurvature && c >= Abs(end.x - start.x) * 0.5
    ensures c == MinCurvature || c == Abs(end.x - start.x) * 0.5
  {
    var dx := Abs(end.x - start.x) * 0.5;
    if dx > MinCurvature then dx else MinCurvature
  }

  /** `getBezierPath(start, end)`, as the points of its `M … C …` path. */
  function BezierCurve(start: Position, end: Position): (c: Curve)
    ensures c.start == start && c.end == end
    ensures c.control1.y == start.y && c.control2.y == end.y
    ensures c.control1.x - start.x == end.x - c.control2.x == Curvature(start, end)
  {
    var k := Curvature(start, end);
    Curve(start, Position(start.x + k, start.y), Position(end.x - k, end.y), end)
  }

  function Translate(p: Position, d: Position): Position
  {
    Position(p.x + d.x, p.y + d.y)
  }

  /** The curve's shape depends only on the relative position of its ends. */
  lemma BezierTranslationInvariant(start: Position, end: Position, d: Position)
    ensures var c := BezierCurve(start, end);
      BezierCurve(Translate(start, d), Translate(end, d))
        == Curve(Translate(c.start, d), Translate(c.control1, d), Translate(c.control2, d), Translate(c.end, d))
  {
  }

  /** Between ports on the same row the curve is a straight horizontal segment; the first
      control point always lies to the right of the start and the second to the left of the
      end, so the curve leaves and enters horizontally. */
  lemma BezierShape(start: Position, end: Position)
    ensures var c := BezierCurve(start, end);
      && c.control1.x >= start.x + 30.0 && c.control2.x <= end.x - 30.0
      && (start.y == end.y ==> c.control1.y == c.control2.y == start.y)
  {
  }

  // ---------------------------------------------------------------------------------------
  // Screen and logical space

  /** `(client - rect.left - offset) / zoom`, component-wise. */
  function ToLogical(client: Position, rect: Rect, offset: Position, zoom: real): Position
    requires zoom > 0.0
  {
    Position((client.x - rect.left - offset.x) / zoom, (client.y - rect.top - offset.y) / zoom)
  }

  /** The rendering transform: `translate(offset) scale(zoom)` inside the canvas element. */
  function ToScreen(p: Position, rect: Rect, offset: Position, zoom: real): Position
  {
    Position(p.x * zoom + offset.x + rect.left, p.y * zoom + offset.y + rect.top)
  }

  lemma LogicalScreenInverse(client: Position, p: Position, rect: Rect, offset: Position, zoom: real)
    requires zoom > 0.0
    ensures ToScreen(ToLogical(client, rect, offset, zoom), rect, offset, zoom) == client
    ensures ToLogical(ToScreen(p, rect, offset, zoom), rect, offset, zoom) == p
  {
  }

  /** A node's position under a drag: start position plus the pointer's travel divided by
      zoom, so that on screen the node moves exactly as far as the pointer. */
  function DragPosition(startNodePos: Position, startMousePos: Position, client: Position, zoom: real): (p: Position)
    requires zoom > 0.0
    ensures (p.x - startNodePos.x) * zoom == client.x - startMousePos.x
    ensures (p.y - startNodePos.y) * zoom == client.y - startMousePos.y
  {
    Position(startNodePos.x + (client.x - startMousePos.x) / zoom,
             startNodePos.y + (client.y - startMousePos.y) / zoom)
  }

  /** The pan offset: start offset plus the pointer's travel, with no zoom division. */
  function PanOffset(startOffset: Position, startMousePos: Position, client: Position): Position
  {
    Position(startOffset.x + (client.x - startMousePos.x), startOffset.y + (client.y - startMousePos.y))
  }

  /** Panning moves every logical point on screen by exactly the pointer's travel,
      whatever the zoom. */
  lemma PanMovesContentWithPointer(p: Position, rect: Rect, startOffset: Position, startMousePos: Position, client: Position, zoom: real)
    ensures ToScreen(p, rect, PanOffset(startOffset, startMousePos, client), zoom)
         == Translate(ToScreen(p, rect, startOffset, zoom),
                      Position(client.x - startMousePos.x, client.y - startMousePos.y))
  {
  }

  /** Where `addNode` places a new node: centred horizontally on the canvas and 40 units
      above its vertical centre, or at (100, 150) when the canvas has no rectangle. */
  function InsertionPoint(rect: Option<Rect>, offset: Position, zoom: real): (p: Position)
    requires zoom > 0.0
    ensures rect.None? ==> p == Position(100.0, 150.0)
    ensures rect.Some? ==> (p.x + NodeWidth / 2.0) * zoom + offset.x == rect.value.width / 2.0
    ensures rect.Some? ==> (p.y + 40.0) * zoom + offset.y == rect.value.height / 2.0
  {
    match rect
    case None => Position(100.0, 150.0)
    case Some(r) =>
      Position(((r.width / 2.0) - offset.x) / zoom - (NodeWidth / 2.0),
               ((r.height / 2.0) - offset.y) / zoom - 40.0)
  }

  // ---------------------------------------------------------------------------------------
  // Snap test

  function SquaredDistance(a: Position, b: Position): (d: real)
    ensures d >= 0.0
  {
    (a.x - b.x) * (a.x - b.x) + (a.y - b.y) * (a.y - b.y)
  }

  /** `Math.hypot(pointer - port) < SNAP_THRESHOLD / zoom`, compared on squares. */
  predicate WithinSnap(pointer: Position, port: Position, zoom: real)
    requires zoom > 0.0
  {
    SquaredDistance(pointer, port) < (SnapThreshold / zoom) * (SnapThreshold / zoom)
  }

  lemma SquareMonotone(d: real, t: real)
    requires d >= 0.0 && t >= 0.0
    ensures d * d < t * t <==> d < t
  {
    var dd, dt, tt := d * d, d * t, t * t;
    if d < t {
      assert dd <= dt by { assert dt - dd == d * (t - d); }
      assert dt < tt by { assert tt - dt == t * (t - d); }
    } else {
      assert tt <= dt by { assert dt - tt == t * (d - t); }
      assert dt <= dd by { assert dd - dt == d * (d - t); }
    }
  }

  /** The squared comparison decides exactly what the `Math.hypot` comparison decides:
      for the Euclidean distance `dist`, a snap happens if and only if
      `dist < SNAP_THRESHOLD / zoom`, so a pointer exactly on the threshold does not snap. */
  lemma WithinSnapIsHypotTest(pointer: Position, port: Position, zoom: real, dist: real)
    requires zoom > 0.0 && dist >= 0.0 && dist * dist == SquaredDistance(pointer, port)
    ensures WithinSnap(pointer, port, zoom) <==> dist < SnapThreshold / zoom
    ensures dist == SnapThreshold / zoom ==> !WithinSnap(pointer, port, zoom)
  {
    SquareMonotone(dist, SnapThreshold / zoom);
  }

  /** The snap radius is 40 screen pixels at every zoom: measured on screen, a pointer
      snaps to a port exactly when it is closer than SNAP_THRESHOLD. */
  lemma SnapRadiusInScreenPixels(client: Position, port: Position, rect: Rect, offset: Position, zoom: real)
    requires zoom > 0.0
    ensures WithinSnap(ToLogical(client, rect, offset, zoom), port, zoom)
        <==> SquaredDistance(client, ToScreen(port, rect, offset, zoom)) < SnapThreshold * SnapThreshold
  {
    var p := ToLogical(client, rect, offset, zoom);
    var q := ToScreen(port, rect, offset, zoom);
    var dx, dy := p.x - port.x, p.y - port.y;
    assert client.x - q.x == dx * zoom;
    assert client.y - q.y == dy * zoom;
    var sl := SquaredDistance(p, port);
    assert SquaredDistance(client, q) == sl * (zoom * zoom) by {
      assert (dx * zoom) * (dx * zoom) == (dx * dx) * (zoom * zoom);
      assert (dy * zoom) * (dy * zoom) == (dy * dy) * (zoom * zoom);
    }
    var t := SnapThreshold / zoom;
    assert t * zoom == SnapThreshold;
    assert SnapThreshold * SnapThreshold == (t * t) * (zoom * zoom);
    var z2 := zoom * zoom;
    assert z2 > 0.0;
    assert sl < t * t <==> sl * z2 < (t * t) * z2;
  }
}
