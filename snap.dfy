/** The magnetic snap search of the connecting gesture in `handleMouseMove`: the first node,
    in `scenario.nodes` order, other than the origin node and START nodes, whose input port
    is within the snap radius of the pointer. */
module Snap {
  import opened Types
  import opened Graph
  import opened Geometry

  /** Node `i` is a snap candidate: not the origin of the gesture, not a START node, and its
      input port (looked up by id, as `getPortPos` does) lies within the radius. */
  predicate Eligible(nodes: seq<Node>, i: nat, fromId: string, pointer: Position, zoom: real)
    requires i < |nodes| && zoom > 0.0
  {
    && nodes[i].id != fromId
    && nodes[i].kind != Start
    && WithinSnap(pointer, PortPos(nodes, nodes[i].id, In, None), zoom)
  }

  /** The first candidate at index `k` or later. */
  function FirstEligible(nodes: seq<Node>, fromId: string, pointer: Position, zoom: real, k: nat): (r: Option<nat>)
    requires zoom > 0.0 && k <= |nodes|
    ensures r.Some? ==> k <= r.value < |nodes|
    decreases |nodes| - k
  {
    if k == |nodes| then None
    else if Eligible(nodes, k, fromId, pointer, zoom) then Some(k)
    else FirstEligible(nodes, fromId, pointer, zoom, k + 1)
  }

  lemma {:induction false} FirstEligibleIsFirst(nodes: seq<Node>, fromId: string, pointer: Position, zoom: real, k: nat)
    requires zoom > 0.0 && k <= |nodes|
    ensures var r := FirstEligible(nodes, fromId, pointer, zoom, k);
      && (r.Some? ==> k <= r.value < |nodes| && Eligible(nodes, r.value, fromId, pointer, zoom))
      && (r.Some? ==> forall j :: k <= j < r.value ==> !Eligible(nodes, j, fromId, pointer, zoom))
      && (r.None? ==> forall j :: k <= j < |nodes| ==> !Eligible(nodes, j, fromId, pointer, zoom))
    decreases |nodes| - k
  {
    if k < |nodes| && !Eligible(nodes, k, fromId, pointer, zoom) {
      FirstEligibleIsFirst(nodes, fromId, pointer, zoom, k + 1);
      assert FirstEligible(nodes, fromId, pointer, zoom, k) == FirstEligible(nodes, fromId, pointer, zoom, k + 1);
    }
  }

  /** What the search leaves behind: the snap target's id, and the gesture's visual endpoint. */
  datatype SnapResult = SnapResult(target: Option<string>, endpoint: Position)

  function SnapSearch(nodes: seq<Node>, fromId: string, pointer: Position, zoom: real): SnapResult
    requires zoom > 0.0
  {
    match FirstEligible(nodes, fromId, pointer, zoom, 0)
    case None => SnapResult(None, pointer)
    case Some(i) => SnapResult(Some(nodes[i].id), PortPos(nodes, nodes[i].id, In, None))
  }

  /** The search result, stated without the search: no target exactly when no node is a
      candidate (the endpoint is then the pointer itself); otherwise the target is the first
      candidate in array order, never the origin node, and the endpoint is its input port. */
  lemma SnapSearchIsFirstMatch(nodes: seq<Node>, fromId: string, pointer: Position, zoom: real)
    requires zoom > 0.0
    ensures var r := SnapSearch(nodes, fromId, pointer, zoom);
      && (r.target.None? <==> forall j :: 0 <= j < |nodes| ==> !Eligible(nodes, j, fromId, pointer, zoom))
      && (r.target.None? ==> r.endpoint == pointer)
      && (r.target.Some? ==> r.target.value != fromId)
      && (r.target.Some? ==>
            exists i :: 0 <= i < |nodes| && Eligible(nodes, i, fromId, pointer, zoom)
                     && (forall j :: 0 <= j < i ==> !Eligible(nodes, j, fromId, pointer, zoom))
                     && r.target.value == nodes[i].id
                     && r.endpoint == PortPos(nodes, nodes[i].id, In, None))
  {
    FirstEligibleIsFirst(nodes, fromId, pointer, zoom, 0);
  }

  /** With unique ids the test is on the candidate's own position: input port at
      (x - 8, y + 47), and the snapped endpoint is exactly that port. */
  lemma SnapTargetPort(nodes: seq<Node>, fromId: string, pointer: Position, zoom: real)
    requires zoom > 0.0 && UniqueIds(nodes)
    ensures var r := SnapSearch(nodes, fromId, pointer, zoom);
      r.target.Some? ==>
        exists i :: 0 <= i < |nodes| && nodes[i].id == r.target.value && nodes[i].kind != Start
                 && r.endpoint == Position(nodes[i].position.x - 8.0, nodes[i].position.y + 47.0)
                 && WithinSnap(pointer, r.endpoint, zoom)
  {
    FirstEligibleIsFirst(nodes, fromId, pointer, zoom, 0);
    var r := SnapSearch(nodes, fromId, pointer, zoom);
    if r.target.Some? {
      var i := FirstEligible(nodes, fromId, pointer, zoom, 0).value;
      PortsOfNode(nodes, i, None);
    }
  }

  /** The loop of `handleMouseMove` (`for … continue … break`) that computes `snappedId`
      and `finalPos`. */
  method FindSnap(nodes: seq<Node>, fromId: string, mouse: Position, zoom: real)
    returns (snappedId: Option<string>, finalPos: Position)
    requires zoom > 0.0
    ensures SnapResult(snappedId, finalPos) == SnapSearch(nodes, fromId, mouse, zoom)
  {
    snappedId := None;
    finalPos := mouse;
    var i := 0;
    while i < |nodes|
      invariant i <= |nodes|
      invariant FirstEligible(nodes, fromId, mouse, zoom, i) == FirstEligible(nodes, fromId, mouse, zoom, 0)
      invariant snappedId == None && finalPos == mouse
    {
      var node := nodes[i];
      if node.id == fromId || node.kind == Start {
        i := i + 1;
        continue;
      }
      var inPort := PortPos(nodes, node.id, In, None);
      if WithinSnap(mouse, inPort, zoom) {
        snappedId := Some(node.id);
        finalPos := inPort;
        break;
      }
      i := i + 1;
    }
  }
}
