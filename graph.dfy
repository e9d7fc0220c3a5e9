/** The scenario updaters of App.tsx: look-up by id, edge creation with its rejections, node
    addition and deletion with the edge cascade, partial node updates, and the `.map` that
    rewrites the nodes carrying one id (used by updates, drags and the run walker). */
module Graph {
  import opened Types
  import Seqs

  // ---------------------------------------------------------------------------------------
  // Look-up

  /** Index of the first node carrying `id`, as `Array.prototype.find` scans. */
  function FirstIndex(nodes: seq<Node>, id: string): (r: Option<nat>)
    ensures r.Some? ==> r.value < |nodes| && nodes[r.value].id == id
    ensures r.Some? ==> forall j :: 0 <= j < r.value ==> nodes[j].id != id
    ensures r.None? ==> forall j :: 0 <= j < |nodes| ==> nodes[j].id != id
  {
    if |nodes| == 0 then None
    else if nodes[0].id == id then Some(0)
    else match FirstIndex(nodes[1..], id)
      case None => None
      case Some(k) => Some(k + 1)
  }

  /** `nodes.find(n => n.id === id)`. */
  function FindNode(nodes: seq<Node>, id: string): (r: Option<Node>)
    ensures r.None? <==> forall n :: n in nodes ==> n.id != id
    ensures r.Some? ==> r.value in nodes && r.value.id == id
    ensures r.Some? ==> exists k :: 0 <= k < |nodes| && nodes[k] == r.value && forall j :: 0 <= j < k ==> nodes[j].id != id
  {
    match FirstIndex(nodes, id)
    case None => None
    case Some(k) => Some(nodes[k])
  }

  predicate NodeExists(nodes: seq<Node>, id: string)
  {
    exists n :: n in nodes && n.id == id
  }

  ghost predicate UniqueIds(nodes: seq<Node>)
  {
    forall i, j :: 0 <= i < j < |nodes| ==> nodes[i].id != nodes[j].id
  }

  /** With unique ids, the node found for an id is the one that carries it. */
  lemma FindUnique(nodes: seq<Node>, i: nat)
    requires UniqueIds(nodes) && i < |nodes|
    ensures FindNode(nodes, nodes[i].id) == Some(nodes[i])
  {
    var k := FirstIndex(nodes, nodes[i].id).value;
    assert k == i;
  }

  // ---------------------------------------------------------------------------------------
  // Edge invariants

  predicate SameTriple(e: Edge, source: string, target: string, handle: Option<string>)
  {
    e.source == source && e.target == target && e.sourceHandle == handle
  }

  /** `edges.some(e => e.source === source && e.target === target && e.sourceHandle === handle)`. */
  predicate HasEdge(edges: seq<Edge>, source: string, target: string, handle: Option<string>)
  {
    exists e :: e in edges && SameTriple(e, source, target, handle)
  }

  /** Number of edges carrying the triple. */
  function TripleCount(edges: seq<Edge>, source: string, target: string, handle: Option<string>): nat
  {
    if |edges| == 0 then 0
    else TripleCount(edges[..|edges| - 1], source, target, handle)
         + (if SameTriple(edges[|edges| - 1], source, target, handle) then 1 else 0)
  }

  lemma {:induction false} TripleCountPositive(edges: seq<Edge>, source: string, target: string, handle: Option<string>)
    ensures TripleCount(edges, source, target, handle) > 0 <==> HasEdge(edges, source, target, handle)
  {
    if |edges| > 0 {
      var init := edges[..|edges| - 1];
      TripleCountPositive(init, source, target, handle);
      assert edges == init + [edges[|edges| - 1]];
      if HasEdge(edges, source, target, handle) && !SameTriple(edges[|edges| - 1], source, target, handle) {
        var e :| e in edges && SameTriple(e, source, target, handle);
        assert e in init;
      }
    }
  }

  ghost predicate NoSelfLoops(edges: seq<Edge>)
  {
    forall e :: e in edges ==> e.source != e.target
  }

  predicate DistinctTriples(e1: Edge, e2: Edge)
  {
    !SameTriple(e2, e1.source, e1.target, e1.sourceHandle)
  }

  ghost predicate NoDuplicateTriples(edges: seq<Edge>)
  {
    Seqs.Pairwise(DistinctTriples, edges)
  }

  /** Every edge joins two nodes that exist (the cascade invariant). */
  ghost predicate EdgesReferenceNodes(s: Scenario)
  {
    forall e :: e in s.edges ==> NodeExists(s.nodes, e.source) && NodeExists(s.nodes, e.target)
  }

  // ---------------------------------------------------------------------------------------
  // createEdge

  /** `createEdge(fromId, toId, fromHandle)`: a self-loop or an existing triple leaves the
      scenario as it is; otherwise one edge is appended and the timestamp bumped. */
  function CreateEdge(s: Scenario, fromId: string, toId: string, fromHandle: Option<string>, edgeId: string): (r: Scenario)
    ensures r == s <==> fromId == toId || HasEdge(s.edges, fromId, toId, fromHandle)
    ensures r != s ==> (r == s.(edges := s.edges + [Edge(edgeId, fromId, toId, fromHandle)], updatedAt := r.updatedAt)
                       && r.updatedAt > s.updatedAt)
    ensures TripleCount(r.edges, fromId, toId, fromHandle)
         == if fromId == toId then TripleCount(s.edges, fromId, toId, fromHandle)
            else if TripleCount(s.edges, fromId, toId, fromHandle) == 0 then 1
            else TripleCount(s.edges, fromId, toId, fromHandle)
    ensures NoSelfLoops(s.edges) ==> NoSelfLoops(r.edges)
    ensures NoDuplicateTriples(s.edges) ==> NoDuplicateTriples(r.edges)
    ensures EdgesReferenceNodes(s) && NodeExists(s.nodes, fromId) && NodeExists(s.nodes, toId) ==> EdgesReferenceNodes(r)
  {
    TripleCountPositive(s.edges, fromId, toId, fromHandle);
    if fromId == toId then s
    else if HasEdge(s.edges, fromId, toId, fromHandle) then s
    else
      var e := Edge(edgeId, fromId, toId, fromHandle);
      var edges := s.edges + [e];
      assert edges[..|s.edges|] == s.edges;
      assert NoDuplicateTriples(s.edges) ==> NoDuplicateTriples(edges) by {
        if NoDuplicateTriples(s.edges) {
          forall i, j | 0 <= i < j < |edges| ensures DistinctTriples(edges[i], edges[j]) {
            assert edges[i] == s.edges[i] && edges[i] in s.edges;
            if j < |s.edges| {
              assert edges[j] == s.edges[j];
            }
          }
        }
      }
      s.(edges := edges, updatedAt := s.updatedAt + 1)
  }

  /** Connecting the same triple again is a no-op, whatever id the second edge would get. */
  lemma CreateEdgeIdempotent(s: Scenario, fromId: string, toId: string, fromHandle: Option<string>, id1: string, id2: string)
    ensures CreateEdge(CreateEdge(s, fromId, toId, fromHandle, id1), fromId, toId, fromHandle, id2)
         == CreateEdge(s, fromId, toId, fromHandle, id1)
  {
    var r := CreateEdge(s, fromId, toId, fromHandle, id1);
    if r != s {
      assert r.edges[|r.edges| - 1] in r.edges;
    }
  }

  /** Two identical connect calls starting from no such edge leave exactly one. */
  lemma CreateEdgeTwiceLeavesOne(s: Scenario, fromId: string, toId: string, fromHandle: Option<string>, id1: string, id2: string)
    requires fromId != toId && !HasEdge(s.edges, fromId, toId, fromHandle)
    ensures TripleCount(CreateEdge(CreateEdge(s, fromId, toId, fromHandle, id1), fromId, toId, fromHandle, id2).edges,
                        fromId, toId, fromHandle) == 1
  {
    TripleCountPositive(s.edges, fromId, toId, fromHandle);
    CreateEdgeIdempotent(s, fromId, toId, fromHandle, id1, id2);
  }

  // ---------------------------------------------------------------------------------------
  // `.map` over the nodes carrying one id

  /** `nodes.map(n => n.id === id ? f(n) : n)`. */
  function MapWhere(nodes: seq<Node>, id: string, f: Node -> Node): (r: seq<Node>)
    ensures |r| == |nodes|
    ensures forall i :: 0 <= i < |nodes| ==> r[i] == if nodes[i].id == id then f(nodes[i]) else nodes[i]
  {
    if |nodes| == 0 then []
    else [if nodes[0].id == id then f(nodes[0]) else nodes[0]] + MapWhere(nodes[1..], id, f)
  }

  /** A rewrite that keeps every node's id keeps the look-up. */
  lemma {:induction false} MapWhereKeepsFirstIndex(nodes: seq<Node>, id: string, f: Node -> Node, key: string)
    requires forall n :: f(n).id == n.id
    ensures FirstIndex(MapWhere(nodes, id, f), key) == FirstIndex(nodes, key)
  {
    if |nodes| > 0 {
      MapWhereKeepsFirstIndex(nodes[1..], id, f, key);
      assert MapWhere(nodes, id, f)[1..] == MapWhere(nodes[1..], id, f);
    }
  }

  /** The drag update: every node carrying `id` gets `pos`. */
  function MoveNode(nodes: seq<Node>, id: string, pos: Position): (r: seq<Node>)
    ensures |r| == |nodes|
    ensures forall i :: 0 <= i < |r| ==> r[i].id == nodes[i].id
    ensures forall i :: 0 <= i < |r| && nodes[i].id != id ==> r[i] == nodes[i]
    ensures forall i :: 0 <= i < |r| && nodes[i].id == id ==> r[i] == nodes[i].(position := pos)
    ensures UniqueIds(nodes) ==> UniqueIds(r)
  {
    MapWhere(nodes, id, (n: Node) => n.(position := pos))
  }

  /** After a drag update, the look-up of the dragged id finds the same node at its new
      position. */
  lemma MoveNodeFinds(nodes: seq<Node>, id: string, pos: Position)
    requires FindNode(nodes, id).Some?
    ensures FindNode(MoveNode(nodes, id, pos), id) == Some(FindNode(nodes, id).value.(position := pos))
  {
    var k := FirstIndex(nodes, id).value;
    MapWhereKeepsFirstIndex(nodes, id, (n: Node) => n.(position := pos), id);
    assert MoveNode(nodes, id, pos)[k] == nodes[k].(position := pos);
  }

  /** The run walker's status update for every node carrying `id`. */
  function SetStatus(nodes: seq<Node>, id: string, st: Status): (r: seq<Node>)
    ensures |r| == |nodes|
    ensures forall i :: 0 <= i < |r| && nodes[i].id != id ==> r[i] == nodes[i]
    ensures forall i :: 0 <= i < |r| && nodes[i].id == id ==> r[i] == nodes[i].(status := st)
  {
    MapWhere(nodes, id, (n: Node) => n.(status := st))
  }

  // ---------------------------------------------------------------------------------------
  // updateNode

  /** `{ ...n, ...updates }`: each field present in the patch overrides the node's. */
  function Merge(n: Node, p: NodePatch): (r: Node)
    ensures p == NodePatch(None, None, None, None, None, None) ==> r == n
    ensures p.id.Some? ==> r.id == p.id.value
    ensures p.id.None? ==> r.id == n.id
    ensures p.name.Some? ==> r.name == p.name.value
    ensures p.config.Some? ==> r.config == p.config.value
    ensures p.kind.Some? ==> r.kind == p.kind.value
    ensures p.position.Some? ==> r.position == p.position.value
    ensures p.status.Some? ==> r.status == p.status.value
    ensures p.kind.None? ==> r.kind == n.kind
    ensures p.name.None? ==> r.name == n.name
    ensures p.position.None? ==> r.position == n.position
    ensures p.config.None? ==> r.config == n.config
    ensures p.status.None? ==> r.status == n.status
    ensures p == NodePatch(None, None, p.name, None, None, None) && p.name.Some? ==> r == n.(name := p.name.value)
    ensures p == NodePatch(None, None, None, None, p.config, None) && p.config.Some? ==> r == n.(config := p.config.value)
  {
    Node(
      if p.id.Some? then p.id.value else n.id,
      if p.kind.Some? then p.kind.value else n.kind,
      if p.name.Some? then p.name.value else n.name,
      if p.position.Some? then p.position.value else n.position,
      if p.config.Some? then p.config.value else n.config,
      if p.status.Some? then p.status.value else n.status)
  }

  /** Applying the same patch twice is the same as once. */
  lemma MergeIdempotent(n: Node, p: NodePatch)
    ensures Merge(Merge(n, p), p) == Merge(n, p)
  {
  }

  /** The scenario part of `updateNode(updates)`: merge into the nodes carrying `id` only. */
  function UpdateNode(s: Scenario, id: string, p: NodePatch): (r: Scenario)
    ensures r == s.(nodes := r.nodes, updatedAt := r.updatedAt)
    ensures r.edges == s.edges && r.updatedAt > s.updatedAt
    ensures |r.nodes| == |s.nodes|
    ensures forall i :: 0 <= i < |s.nodes| && s.nodes[i].id != id ==> r.nodes[i] == s.nodes[i]
    ensures forall i :: 0 <= i < |s.nodes| && s.nodes[i].id == id ==> r.nodes[i] == Merge(s.nodes[i], p)
    ensures p.id.None? ==> forall i :: 0 <= i < |s.nodes| ==> r.nodes[i].id == s.nodes[i].id
    ensures p.id.None? && EdgesReferenceNodes(s) ==> EdgesReferenceNodes(r)
  {
    var r := s.(nodes := MapWhere(s.nodes, id, n => Merge(n, p)), updatedAt := s.updatedAt + 1);
    assert p.id.None? && EdgesReferenceNodes(s) ==> EdgesReferenceNodes(r) by {
      if p.id.None? && EdgesReferenceNodes(s) {
        forall e | e in r.edges ensures NodeExists(r.nodes, e.source) && NodeExists(r.nodes, e.target) {
          var a :| a in s.nodes && a.id == e.source;
          var b :| b in s.nodes && b.id == e.target;
          var i :| 0 <= i < |s.nodes| && s.nodes[i] == a;
          var j :| 0 <= j < |s.nodes| && s.nodes[j] == b;
          assert r.nodes[i] in r.nodes && r.nodes[j] in r.nodes;
        }
      }
    }
    r
  }

  // ---------------------------------------------------------------------------------------
  // addNode

  /** The type-dependent default configuration of a new node. */
  function DefaultConfig(kind: OperatorType): Config
  {
    if kind == AbTest then map["split" := Number(50.0)]
    else if kind == IfElse then map["expression" := Text("input > 100")]
    else map[]
  }

  /** A freshly created node: catalogue label as its name, default config, status idle. */
  function NewNode(id: string, kind: OperatorType, title: string, pos: Position): Node
  {
    Node(id, kind, title, pos, DefaultConfig(kind), Idle)
  }

  /** The scenario part of `addNode`: the node is appended, nothing else moves. */
  function AddNode(s: Scenario, n: Node): (r: Scenario)
    ensures r == s.(nodes := r.nodes, updatedAt := r.updatedAt)
    ensures r.nodes == s.nodes + [n] && r.edges == s.edges && r.updatedAt > s.updatedAt
    ensures EdgesReferenceNodes(s) ==> EdgesReferenceNodes(r)
    ensures UniqueIds(s.nodes) && !NodeExists(s.nodes, n.id) ==> UniqueIds(r.nodes)
  {
    var r := s.(nodes := s.nodes + [n], updatedAt := s.updatedAt + 1);
    assert UniqueIds(s.nodes) && !NodeExists(s.nodes, n.id) ==> UniqueIds(r.nodes) by {
      if UniqueIds(s.nodes) && !NodeExists(s.nodes, n.id) {
        forall i, j | 0 <= i < j < |r.nodes| ensures r.nodes[i].id != r.nodes[j].id {
          if j == |s.nodes| {
            assert r.nodes[i] == s.nodes[i] && s.nodes[i] in s.nodes;
          } else {
            assert r.nodes[i] == s.nodes[i] && r.nodes[j] == s.nodes[j];
          }
        }
      }
    }
    r
  }

  // ---------------------------------------------------------------------------------------
  // deleteNode and the edge click-to-delete

  predicate NotNode(id: string, n: Node) { n.id != id }

  predicate NotTouching(id: string, e: Edge) { e.source != id && e.target != id }

  predicate NotEdge(edgeId: string, e: Edge) { e.id != edgeId }

  /** The scenario part of `deleteNode(id)`: the node goes and so does every edge touching
      it; everything else is kept, in its original order. */
  function DeleteNode(s: Scenario, id: string): (r: Scenario)
    ensures r == s.(nodes := r.nodes, edges := r.edges, updatedAt := r.updatedAt)
    ensures forall n :: n in r.nodes <==> n in s.nodes && n.id != id
    ensures forall e :: e in r.edges <==> e in s.edges && e.source != id && e.target != id
    ensures forall n :: multiset(r.nodes)[n] == if n.id != id then multiset(s.nodes)[n] else 0
    ensures forall e :: multiset(r.edges)[e] == if NotTouching(id, e) then multiset(s.edges)[e] else 0
    ensures Seqs.Subsequence(r.nodes, s.nodes) && Seqs.Subsequence(r.edges, s.edges)
    ensures !NodeExists(r.nodes, id)
    ensures r.updatedAt > s.updatedAt
    ensures EdgesReferenceNodes(s) ==> EdgesReferenceNodes(r)
    ensures NoSelfLoops(s.edges) ==> NoSelfLoops(r.edges)
    ensures NoDuplicateTriples(s.edges) ==> NoDuplicateTriples(r.edges)
    ensures UniqueIds(s.nodes) ==> UniqueIds(r.nodes)
  {
    var nodes := Seqs.Filter(n => NotNode(id, n), s.nodes);
    var edges := Seqs.Filter(e => NotTouching(id, e), s.edges);
    assert NoDuplicateTriples(s.edges) ==> NoDuplicateTriples(edges) by {
      if NoDuplicateTriples(s.edges) {
        Seqs.SubsequencePairwise(DistinctTriples, edges, s.edges);
      }
    }
    assert UniqueIds(s.nodes) ==> UniqueIds(nodes) by {
      if UniqueIds(s.nodes) {
        Seqs.SubsequencePairwise((a: Node, b: Node) => a.id != b.id, nodes, s.nodes);
      }
    }
    var r := s.(nodes := nodes, edges := edges, updatedAt := s.updatedAt + 1);
    assert EdgesReferenceNodes(s) ==> EdgesReferenceNodes(r) by {
      if EdgesReferenceNodes(s) {
        forall e | e in r.edges ensures NodeExists(r.nodes, e.source) && NodeExists(r.nodes, e.target) {
          var a :| a in s.nodes && a.id == e.source;
          var b :| b in s.nodes && b.id == e.target;
          assert a in r.nodes && b in r.nodes;
        }
      }
    }
    r
  }

  /** The edge click handler: drop the edges with that id (the timestamp is not bumped). */
  function DeleteEdge(s: Scenario, edgeId: string): (r: Scenario)
    ensures r == s.(edges := r.edges)
    ensures r.nodes == s.nodes && r.updatedAt == s.updatedAt
    ensures forall e :: e in r.edges <==> e in s.edges && e.id != edgeId
    ensures forall e :: multiset(r.edges)[e] == if e.id != edgeId then multiset(s.edges)[e] else 0
    ensures Seqs.Subsequence(r.edges, s.edges)
    ensures EdgesReferenceNodes(s) ==> EdgesReferenceNodes(r)
    ensures NoSelfLoops(s.edges) ==> NoSelfLoops(r.edges)
    ensures NoDuplicateTriples(s.edges) ==> NoDuplicateTriples(r.edges)
  {
    var edges := Seqs.Filter(e => NotEdge(edgeId, e), s.edges);
    assert NoDuplicateTriples(s.edges) ==> NoDuplicateTriples(edges) by {
      if NoDuplicateTriples(s.edges) {
        Seqs.SubsequencePairwise(DistinctTriples, edges, s.edges);
      }
    }
    s.(edges := edges)
  }
}
