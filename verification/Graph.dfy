/**
 The memory graph as a value (src/graph.rs).

 `Graph` is the abstract value of the class in MemoryGraph.dfy: the same fields,
 and one function per mutation.  The theory modules (GraphIndex, CascadeTheory,
 CascadeTermination, DrainBounds, GraphHistory, GraphLives, Explain) prove what the
 program promises about these functions over whole runs.
 */
module GraphSpec {
  import opened Wrappers
  import opened Nodes
  import Chars
  import Sorting

  datatype Graph = Graph(
    nodes: seq<Node>, byId: map<NodeId, NodeIdx>, outEdges: seq<seq<Edge>>, inEdges: seq<seq<Edge>>,
    byKey: map<string, seq<NodeIdx>>, liveByKey: map<string, seq<NodeIdx>>,
    maxCascade: nat, maxDepth: nat, version: nat,
    log: seq<(nat, seq<NodeIdx>)>, pending: seq<NodeIdx>)

  const EmptyGraph := Graph([], map[], [], [], map[], map[], 64, 8, 0, [], [])

  /** Every index stored anywhere points at a node, and edges sit in the list of their own end. */
  ghost predicate Shape(g: Graph) {
    && |g.outEdges| == |g.inEdges| == |g.nodes|
    && (forall i, e :: 0 <= i < |g.nodes| && e in g.outEdges[i] ==> e.src == i && e.dst < |g.nodes|)
    && (forall i, e :: 0 <= i < |g.nodes| && e in g.inEdges[i] ==> e.dst == i && e.src < |g.nodes|)
    && (forall id :: id in g.byId ==> g.byId[id] < |g.nodes|)
    && Within(g.pending, |g.nodes|)
  }

  ghost predicate Within(s: seq<NodeIdx>, n: nat) {
    forall k :: 0 <= k < |s| ==> s[k] < n
  }

  predicate IsSuperseded(g: Graph, i: NodeIdx)
    requires i < |g.nodes|
  {
    g.nodes[i].status == Superseded
  }

  function Bucket(m: map<string, seq<NodeIdx>>, key: string): seq<NodeIdx> {
    if key in m then m[key] else []
  }

  function Without(s: seq<NodeIdx>, i: NodeIdx): (r: seq<NodeIdx>)
    ensures forall x :: x in r <==> x in s && x != i
    ensures |r| <= |s|
  {
    if s == [] then []
    else if s[0] == i then Without(s[1..], i)
    else [s[0]] + Without(s[1..], i)
  }

  function WithoutId(s: seq<NodeId>, id: NodeId): seq<NodeId> {
    if s == [] then []
    else if s[0] == id then WithoutId(s[1..], id)
    else [s[0]] + WithoutId(s[1..], id)
  }

  function PushNew<T(==)>(s: seq<T>, x: T): seq<T> {
    if x in s then s else s + [x]
  }

  function Bump(g: Graph): Graph {
    g.(version := g.version + 1)
  }

  function SetNode(g: Graph, i: NodeIdx, n: Node): (h: Graph)
    requires i < |g.nodes|
    ensures Shape(g) ==> Shape(h)
  {
    g.(nodes := g.nodes[i := n])
  }

  function SetMeta(g: Graph, i: NodeIdx, m: Meta): (h: Graph)
    requires i < |g.nodes|
    ensures Shape(g) ==> Shape(h)
  {
    SetNode(g, i, g.nodes[i].(meta := m))
  }

  // ---- edges and statuses -------------------------------------------------

  function AddEdge(g: Graph, src: NodeIdx, dst: NodeIdx, kind: EdgeType): Graph
    requires src < |g.outEdges| && dst < |g.inEdges|
  {
    var edge := Edge(src, dst, kind);
    if edge in g.outEdges[src] then g
    else Bump(g.(outEdges := g.outEdges[src := g.outEdges[src] + [edge]],
                 inEdges := g.inEdges[dst := g.inEdges[dst] + [edge]]))
  }

  /** `restore_edge`: an edge between two ids, if both are there. */
  function RestoreEdge(g: Graph, src: NodeId, dst: NodeId, kind: EdgeType): Graph
    requires Shape(g)
  {
    if src in g.byId && dst in g.byId then AddEdge(g, g.byId[src], g.byId[dst], kind) else g
  }

  /** Only crossing the superseded boundary moves the live index. */
  function SetStatus(g: Graph, i: NodeIdx, status: Status): (h: Graph)
    requires i < |g.nodes|
    ensures h == g.(nodes := g.nodes[i := g.nodes[i].(status := status)], liveByKey := h.liveByKey)
    ensures Shape(g) ==> Shape(h)
  {
    var was := g.nodes[i].status;
    var g1 := SetNode(g, i, g.nodes[i].(status := status));
    if (was != Superseded) == (status != Superseded) then g1
    else
      match g.nodes[i].key
      case None => g1
      case Some(key) =>
        var list := Bucket(g.liveByKey, key);
        g1.(liveByKey := g.liveByKey[key := if status != Superseded then PushNew(list, i) else Without(list, i)])
  }

  // ---- the invalidation cascade -------------------------------------------

  function DependencySources(edges: seq<Edge>): seq<NodeIdx> {
    if edges == [] then []
    else if edges[0].kind.IsDependency() then [edges[0].src] + DependencySources(edges[1..])
    else DependencySources(edges[1..])
  }

  /** The nodes that depend directly on `i`, in edge order. */
  function Dependents(g: Graph, i: NodeIdx): seq<NodeIdx>
    requires i < |g.inEdges|
  {
    DependencySources(g.inEdges[i])
  }

  lemma {:induction false} DependencySourcesAre(edges: seq<Edge>, x: NodeIdx)
    ensures x in DependencySources(edges) <==> exists e :: e in edges && e.kind.IsDependency() && e.src == x
  {
    if edges != [] {
      DependencySourcesAre(edges[1..], x);
      assert edges == [edges[0]] + edges[1..];
    }
  }

  lemma {:induction false} DependentsInRange(g: Graph, i: NodeIdx)
    requires Shape(g) && i < |g.nodes|
    ensures Within(Dependents(g, i), |g.nodes|)
  {
    var deps := Dependents(g, i);
    forall k | 0 <= k < |deps|
      ensures deps[k] < |g.nodes|
    {
      assert deps[k] in deps;
      DependencySourcesAre(g.inEdges[i], deps[k]);
    }
  }

  function At(nodes: seq<NodeIdx>, depth: nat): (r: seq<(NodeIdx, nat)>)
    ensures |r| == |nodes| && forall k :: 0 <= k < |r| ==> r[k] == (nodes[k], depth)
  {
    seq(|nodes|, k requires 0 <= k < |nodes| => (nodes[k], depth))
  }

  ghost predicate QueueOk(g: Graph, queue: seq<(NodeIdx, nat)>) {
    forall k :: 0 <= k < |queue| ==> queue[k].0 < |g.nodes|
  }

  ghost function Id(i: nat): nat { i }

  ghost function Indices(n: nat): set<nat> {
    set i {:trigger Id(i)} | 0 <= i < n && Id(i) == i
  }

  /** The working variables of the cascade loop. */
  datatype WalkState = WalkState(
    queue: seq<(NodeIdx, nat)>, seen: set<NodeIdx>, marked: seq<NodeIdx>, deferred: seq<NodeIdx>)

  /** What one cascade decides: the nodes it marks and the tail it defers. */
  datatype Cascade = Cascade(marked: seq<NodeIdx>, deferred: seq<NodeIdx>)

  /** One turn of the loop in `invalidate`. */
  ghost function Advance(g: Graph, s: WalkState): (r: WalkState)
    requires Shape(g) && QueueOk(g, s.queue) && s.queue != []
    ensures QueueOk(g, r.queue)
    ensures r.seen == s.seen + {s.queue[0].0}
    ensures s.queue[0].0 in s.seen ==> r.seen == s.seen && |r.queue| < |s.queue|
  {
    var (current, depth) := s.queue[0];
    var rest := s.queue[1..];
    var seen := s.seen + {current};
    if current in s.seen then s.(queue := rest, seen := seen)
    else if |s.marked| >= g.maxCascade || depth > g.maxDepth then
      WalkState(rest, seen, s.marked, s.deferred + [current])
    else if IsSuperseded(g, current) then s.(queue := rest, seen := seen)
    else
      DependentsInRange(g, current);
      WalkState(rest + At(Dependents(g, current), depth + 1), seen, s.marked + [current], s.deferred)
  }

  /** The breadth-first loop of `invalidate`, over a graph whose edges and superseded nodes stay put. */
  ghost function Walk(g: Graph, s: WalkState): Cascade
    requires Shape(g) && QueueOk(g, s.queue)
    decreases Indices(|g.nodes|) - s.seen, |s.queue|
  {
    if s.queue == [] then Cascade(s.marked, s.deferred)
    else
      assert Id(s.queue[0].0) == s.queue[0].0;
      Walk(g, Advance(g, s))
  }

  function StartQueue(g: Graph, node: NodeIdx, includeSelf: bool): seq<(NodeIdx, nat)>
    requires node < |g.inEdges|
  {
    if includeSelf then [(node, 0)] else At(Dependents(g, node), 1)
  }

  lemma {:induction false} StartQueueOk(g: Graph, node: NodeIdx, includeSelf: bool)
    requires Shape(g) && node < |g.nodes|
    ensures QueueOk(g, StartQueue(g, node, includeSelf))
  {
    DependentsInRange(g, node);
  }

  ghost function StartState(g: Graph, node: NodeIdx, includeSelf: bool): (s: WalkState)
    requires Shape(g) && node < |g.nodes|
    ensures QueueOk(g, s.queue)
  {
    StartQueueOk(g, node, includeSelf);
    WalkState(StartQueue(g, node, includeSelf), {}, [], [])
  }

  ghost function CascadeFrom(g: Graph, node: NodeIdx, includeSelf: bool): Cascade
    requires Shape(g) && node < |g.nodes|
  {
    Walk(g, StartState(g, node, includeSelf))
  }

  /** Marked nodes go stale and drop their cached result; evidence is only recorded as marked. */
  function Marked(nodes: seq<Node>, marked: seq<NodeIdx>): (r: seq<Node>)
    ensures |r| == |nodes|
  {
    seq(|nodes|, i requires 0 <= i < |nodes| =>
      if i in marked && nodes[i].kind != Evidence then nodes[i].(status := Stale, cachedResult := None)
      else nodes[i])
  }

  ghost function Invalidate(g: Graph, node: NodeIdx, includeSelf: bool): Graph
    requires Shape(g) && node < |g.nodes|
  {
    var c := CascadeFrom(g, node, includeSelf);
    var g1 := g.(nodes := Marked(g.nodes, c.marked), pending := g.pending + c.deferred);
    if c.marked == [] then g1 else Bump(g1.(log := g1.log + [(g1.version, c.marked)]))
  }

  ghost predicate StateInRange(g: Graph, s: WalkState) {
    && QueueOk(g, s.queue) && Within(s.marked, |g.nodes|) && Within(s.deferred, |g.nodes|)
    && forall k :: 0 <= k < |s.marked| ==> !IsSuperseded(g, s.marked[k])
  }

  lemma {:induction false} WalkInRange(g: Graph, s: WalkState)
    requires Shape(g) && StateInRange(g, s)
    ensures var c := Walk(g, s);
      && Within(c.marked, |g.nodes|) && Within(c.deferred, |g.nodes|)
      && forall k :: 0 <= k < |c.marked| ==> !IsSuperseded(g, c.marked[k])
    decreases Indices(|g.nodes|) - s.seen, |s.queue|
  {
    if s.queue != [] {
      assert Id(s.queue[0].0) == s.queue[0].0;
      WalkInRange(g, Advance(g, s));
    }
  }

  /** What a caller of `invalidate` may rely on about everything but the cascade itself. */
  lemma {:induction false} InvalidateFrame(g: Graph, node: NodeIdx, includeSelf: bool)
    requires Shape(g) && node < |g.nodes|
    ensures var h := Invalidate(g, node, includeSelf);
      && Shape(h)
      && h == g.(nodes := h.nodes, pending := h.pending, log := h.log, version := h.version)
      && |h.nodes| == |g.nodes|
      && (forall i :: 0 <= i < |g.nodes| ==>
            h.nodes[i] == g.nodes[i]
            || (!IsSuperseded(g, i) && h.nodes[i] == g.nodes[i].(status := Stale, cachedResult := None)))
  {
    hide Walk, DependencySources;
    WalkInRange(g, StartState(g, node, includeSelf));
    var c := CascadeFrom(g, node, includeSelf);
    var h := Invalidate(g, node, includeSelf);
    assert h.pending == g.pending + c.deferred;
  }

  /** One `drain_pending` step: resume the oldest deferred node. */
  ghost function DrainOne(g: Graph): Graph
    requires Shape(g) && g.pending != []
  {
    Invalidate(g.(pending := g.pending[1..]), g.pending[0], true)
  }

  ghost function Pops(g: Graph, n: nat): Graph
    requires Shape(g)
    decreases n
  {
    if n == 0 || g.pending == [] then g
    else
      assert Shape(g.(pending := g.pending[1..]));
      InvalidateFrame(g.(pending := g.pending[1..]), g.pending[0], true);
      Pops(DrainOne(g), n - 1)
  }

  /** `drain_pending(limit)` fixes how many nodes it resumes before it starts. */
  ghost function DrainPending(g: Graph, limit: nat): Graph
    requires Shape(g)
  {
    Pops(g, if limit < |g.pending| then limit else |g.pending|)
  }

  // ---- insertion ----------------------------------------------------------

  datatype ProvenanceError =
    | SkillWithoutArtifact
    | EvidenceWithoutSpan
    | Ungrounded
    | UnknownSpans
    | DoesNotReachEvidence

  function ReachesEvidence(g: Graph, id: NodeId): bool
    requires id in g.byId ==> g.byId[id] < |g.nodes|
  {
    id in g.byId &&
    var n := g.nodes[g.byId[id]];
    n.kind == Evidence || n.spans != [] || n.meta.grounded
  }

  /** The provenance rule: what `upsert` refuses, and in which order it looks. */
  ghost function RequireGrounding(g: Graph, node: Node, knownSpans: set<string>): Option<ProvenanceError>
    requires Shape(g)
  {
    if node.kind == Skill then
      if node.meta.source.Some? && !Chars.IsBlank(node.meta.source.value) then None else Some(SkillWithoutArtifact)
    else if node.kind == Evidence && node.spans == [] then Some(EvidenceWithoutSpan)
    else if node.kind != Evidence && !node.IsGrounded() then Some(Ungrounded)
    else if exists s :: s in node.spans && s !in knownSpans then Some(UnknownSpans)
    else if node.kind != Evidence && node.spans == [] && !exists d :: d in node.deps && ReachesEvidence(g, d) then
      Some(DoesNotReachEvidence)
    else None
  }

  /** Appending a node: restored from disk, or seen for the first time. */
  function InsertNode(g: Graph, node: Node): Graph {
    var i := |g.nodes|;
    var g1 := g.(nodes := g.nodes + [node], byId := g.byId[node.id := i],
                 outEdges := g.outEdges + [[]], inEdges := g.inEdges + [[]]);
    match node.key
    case None => g1
    case Some(key) =>
      var g2 := g1.(byKey := g.byKey[key := Bucket(g.byKey, key) + [i]]);
      if node.status == Superseded then g2
      else g2.(liveByKey := g.liveByKey[key := Bucket(g.liveByKey, key) + [i]])
  }

  /** First insertion through `upsert` puts the node in the live index whatever its status says. */
  function InsertFresh(g: Graph, node: Node): Graph {
    var i := |g.nodes|;
    var g1 := g.(nodes := g.nodes + [node], byId := g.byId[node.id := i],
                 outEdges := g.outEdges + [[]], inEdges := g.inEdges + [[]]);
    match node.key
    case None => g1
    case Some(key) =>
      g1.(byKey := g.byKey[key := Bucket(g.byKey, key) + [i]],
          liveByKey := g.liveByKey[key := Bucket(g.liveByKey, key) + [i]])
  }

  function Removed(m: map<string, seq<NodeIdx>>, key: Option<string>, i: NodeIdx): map<string, seq<NodeIdx>> {
    if key.Some? && key.value in m then m[key.value := Without(m[key.value], i)] else m
  }

  /** Replacing a node in place: both key indices follow a key change. */
  function ReplaceNode(g: Graph, i: NodeIdx, node: Node): Graph
    requires i < |g.nodes|
  {
    var was := g.nodes[i].key;
    var moved := was != node.key;
    var byKey1 := if moved then Removed(g.byKey, was, i) else g.byKey;
    var live1 := if moved then Removed(g.liveByKey, was, i) else g.liveByKey;
    var byKey2 := if moved && node.key.Some? then byKey1[node.key.value := Bucket(byKey1, node.key.value) + [i]]
                  else byKey1;
    var live2 := if node.key.Some? then live1[node.key.value := PushNew(Bucket(live1, node.key.value), i)] else live1;
    g.(nodes := g.nodes[i := node], byKey := byKey2, liveByKey := live2)
  }

  /** Dependency edges to the inputs that exist; a live dependent clears their superseded flag. */
  function LinkDeps(g: Graph, i: NodeIdx, deps: seq<NodeId>, kind: EdgeType, live: bool): (h: Graph)
    requires Shape(g) && i < |g.nodes|
    ensures Shape(h) && |h.nodes| == |g.nodes|
    decreases |deps|
  {
    if deps == [] then g
    else if deps[0] !in g.byId then LinkDeps(g, i, deps[1..], kind, live)
    else
      var d := g.byId[deps[0]];
      var g1 := AddEdge(g, i, d, kind);
      assert Shape(g1) by { AddEdgeShape(g, i, d, kind); }
      var g2 := if live then SetMeta(g1, d, g1.nodes[d].meta.(supersededSource := false)) else g1;
      LinkDeps(g2, i, deps[1..], kind, live)
  }

  lemma {:induction false} AddEdgeShape(g: Graph, src: NodeIdx, dst: NodeIdx, kind: EdgeType)
    requires Shape(g) && src < |g.nodes| && dst < |g.nodes|
    ensures Shape(AddEdge(g, src, dst, kind))
  {
    var edge := Edge(src, dst, kind);
    var h := AddEdge(g, src, dst, kind);
    if edge !in g.outEdges[src] {
      forall i, e | 0 <= i < |h.nodes| && e in h.outEdges[i]
        ensures e.src == i && e.dst < |h.nodes|
      {
        assert e in g.outEdges[i] || e == edge;
      }
      forall i, e | 0 <= i < |h.nodes| && e in h.inEdges[i]
        ensures e.dst == i && e.src < |h.nodes|
      {
        assert e in g.inEdges[i] || e == edge;
      }
    }
  }

  lemma {:induction false} InsertShape(g: Graph, node: Node)
    requires Shape(g)
    ensures Shape(InsertNode(g, node)) && Shape(InsertFresh(g, node))
  {
    AppendShape(g, InsertNode(g, node));
    AppendShape(g, InsertFresh(g, node));
  }

  lemma {:induction false} AppendShape(g: Graph, h: Graph)
    requires Shape(g) && |h.nodes| == |g.nodes| + 1 && h.pending == g.pending
    requires h.outEdges == g.outEdges + [[]] && h.inEdges == g.inEdges + [[]]
    requires forall id :: id in h.byId ==> (id in g.byId && h.byId[id] == g.byId[id]) || h.byId[id] == |g.nodes|
    ensures Shape(h)
  {
  }

  function DependencyKind(kind: Kind): EdgeType {
    if kind == Claim then Supports else DerivedFrom
  }

  datatype Upserted = Upserted(graph: Graph, result: Result<NodeIdx, ProvenanceError>, now: nat)

  /** `upsert`: refuse, or stamp and insert or replace, then link. */
  ghost function Upsert(g: Graph, node: Node, knownSpans: set<string>, now: nat): (r: Upserted)
    requires Shape(g)
    ensures Shape(r.graph) && |r.graph.nodes| >= |g.nodes|
    ensures r.result.Ok? ==> r.result.value < |r.graph.nodes|
  {
    var refused := RequireGrounding(g, node, knownSpans);
    if refused.Some? then Upserted(g, Err(refused.value), now)
    else
      var stamped := node.(meta := node.meta.(grounded := true), timestamp := now + 1);
      var (g1, i) := Placed(g, stamped);
      var n := g1.nodes[i];
      var g2 := LinkDeps(g1, i, n.deps, DependencyKind(n.kind), n.status != Superseded);
      Upserted(Bump(g2), Ok(i), now + 1)
  }

  /** The node in its slot: replaced (and its dependents invalidated if it changed) or appended. */
  ghost function Placed(g: Graph, stamped: Node): (r: (Graph, NodeIdx))
    requires Shape(g)
    ensures Shape(r.0) && r.1 < |r.0.nodes| && |r.0.nodes| >= |g.nodes|
  {
    if stamped.id in g.byId then
      var i := g.byId[stamped.id];
      var g1 := ReplaceNode(g, i, stamped);
      if g.nodes[i].SameFingerprint(stamped) then (g1, i)
      else
        InvalidateFrame(g1, i, false);
        (Invalidate(g1, i, false), i)
    else
      InsertShape(g, stamped);
      (InsertFresh(g, stamped), |g.nodes|)
  }

  // ---- revision -----------------------------------------------------------

  /** Return a contested node to fresh once nothing live disagrees with it. */
  function Settle(g: Graph, i: NodeIdx): (h: Graph)
    requires i < |g.nodes| && forall id :: id in g.byId ==> g.byId[id] < |g.nodes|
    ensures |h.nodes| == |g.nodes| && (Shape(g) ==> Shape(h))
  {
    if g.nodes[i].status == Contradicted
      && !exists id :: id in g.nodes[i].meta.contradicts && id in g.byId && g.nodes[g.byId[id]].status.IsLive()
    then SetStatus(g, i, Fresh)
    else g
  }

  function HasLiveDependent(g: Graph, i: NodeIdx): bool
    requires Shape(g) && i < |g.nodes|
  {
    exists e :: e in g.inEdges[i] && e.kind.IsDependency() && !IsSuperseded(g, e.src)
  }

  /** Flag each piece of evidence behind a superseded node that supports nothing live any more. */
  function MarkOrphaned(g: Graph, deps: seq<NodeId>, corrected: Option<NodeId>): (h: Graph)
    requires Shape(g)
    ensures Shape(h) && |h.nodes| == |g.nodes|
    decreases |deps|
  {
    if deps == [] then g
    else if deps[0] !in g.byId || g.nodes[g.byId[deps[0]]].kind != Evidence then
      MarkOrphaned(g, deps[1..], corrected)
    else
      var d := g.byId[deps[0]];
      var m := g.nodes[d].meta.(supersededSource := !HasLiveDependent(g, d));
      var m1 := if corrected.Some? then m.(correctedBy := PushNew(m.correctedBy, corrected.value)) else m;
      MarkOrphaned(SetMeta(g, d, m1), deps[1..], corrected)
  }

  /** The pointers and warnings `supersede` rewrites on both nodes. */
  function Resolve(g: Graph, loser: NodeIdx, winner: NodeIdx): (h: Graph)
    requires loser < |g.nodes| && winner < |g.nodes|
    ensures h == g.(nodes := h.nodes) && |h.nodes| == |g.nodes| && (Shape(g) ==> Shape(h))
  {
    var loserId, winnerId := g.nodes[loser].id, g.nodes[winner].id;
    var g1 := SetMeta(g, loser, g.nodes[loser].meta.(supersededBy := Some(winnerId)));
    var g2 := SetMeta(g1, winner, g1.nodes[winner].meta.(supersedes := g1.nodes[winner].meta.supersedes + [loserId]));
    var g3 := SetMeta(g2, winner, g2.nodes[winner].meta.(contradicts := WithoutId(g2.nodes[winner].meta.contradicts, loserId)));
    SetMeta(g3, loser, g3.nodes[loser].meta.(contradicts := WithoutId(g3.nodes[loser].meta.contradicts, winnerId)))
  }

  /** Revision without deletion, up to the cascade: edge, status, pointers, survivor settled. */
  function Retire(g: Graph, loser: NodeIdx, winner: NodeIdx): (h: Graph)
    requires Shape(g) && loser < |g.nodes| && winner < |g.nodes|
    ensures Shape(h) && |h.nodes| == |g.nodes|
  {
    var g1 := AddEdge(g, winner, loser, Supersedes);
    assert Shape(g1) by { AddEdgeShape(g, winner, loser, Supersedes); }
    Settle(Resolve(SetStatus(g1, loser, Superseded), loser, winner), winner)
  }

  /** The rest of a supersession: the dependents go stale, the orphaned evidence is flagged. */
  ghost function Disown(g: Graph, loser: NodeIdx): (h: Graph)
    requires Shape(g) && loser < |g.nodes|
    ensures Shape(h) && |h.nodes| == |g.nodes|
  {
    InvalidateFrame(g, loser, false);
    FlagEvidence(Invalidate(g, loser, false), loser)
  }

  function FlagEvidence(g: Graph, loser: NodeIdx): (h: Graph)
    requires Shape(g) && loser < |g.nodes|
    ensures Shape(h) && |h.nodes| == |g.nodes|
  {
    Bump(MarkOrphaned(g, g.nodes[loser].deps, g.nodes[loser].meta.supersededBy))
  }

  ghost function Supersede(g: Graph, loser: NodeIdx, winner: NodeIdx): (h: Graph)
    requires Shape(g) && loser < |g.nodes| && winner < |g.nodes|
    ensures Shape(h) && |h.nodes| == |g.nodes|
  {
    Disown(Retire(g, loser, winner), loser)
  }

  function Contest(g: Graph, i: NodeIdx, other: NodeId): (h: Graph)
    requires i < |g.nodes|
    ensures h == g.(nodes := h.nodes, liveByKey := h.liveByKey) && |h.nodes| == |g.nodes| && (Shape(g) ==> Shape(h))
  {
    var g1 := SetMeta(g, i, g.nodes[i].meta.(contradicts := PushNew(g.nodes[i].meta.contradicts, other)));
    if g.nodes[i].status == Fresh then SetStatus(g1, i, Contradicted) else g1
  }

  function Contradict(g: Graph, a: NodeIdx, b: NodeIdx): (h: Graph)
    requires Shape(g) && a < |g.nodes| && b < |g.nodes|
    ensures Shape(h) && |h.nodes| == |g.nodes|
  {
    var g1 := AddEdge(g, a, b, Contradicts);
    assert Shape(g1) by { AddEdgeShape(g, a, b, Contradicts); }
    var g2 := AddEdge(g1, b, a, Contradicts);
    assert Shape(g2) by { AddEdgeShape(g1, b, a, Contradicts); }
    var aId, bId := g.nodes[a].id, g.nodes[b].id;
    Contest(Contest(g2, a, bId), b, aId)
  }

  function Revalidate(g: Graph, i: NodeIdx, now: nat): Graph
    requires i < |g.nodes|
  {
    var g1 := SetStatus(g, i, Fresh);
    Bump(SetNode(g1, i, g1.nodes[i].(timestamp := now + 1)))
  }

  // ---- reads --------------------------------------------------------------

  function Live(g: Graph, bucket: seq<NodeIdx>): (r: seq<NodeIdx>)
    requires Within(bucket, |g.nodes|)
    ensures forall x :: x in r <==> x in bucket && x < |g.nodes| && !IsSuperseded(g, x)
  {
    if bucket == [] then []
    else if IsSuperseded(g, bucket[0]) then Live(g, bucket[1..])
    else [bucket[0]] + Live(g, bucket[1..])
  }

  function ByStamp(nodes: seq<Node>): (NodeIdx, NodeIdx) -> bool {
    (a: NodeIdx, b: NodeIdx) => Stamp(nodes, a) <= Stamp(nodes, b)
  }

  function Stamp(nodes: seq<Node>, i: NodeIdx): nat {
    if i < |nodes| then nodes[i].timestamp else 0
  }

  /** `by_key(key, fresh_only)`: the nodes carrying the key, oldest first. */
  function ByKey(g: Graph, key: string, freshOnly: bool): seq<NodeIdx>
    requires Within(Bucket(g.byKey, key), |g.nodes|)
  {
    var found := if freshOnly then Live(g, Bucket(g.byKey, key)) else Bucket(g.byKey, key);
    Sorting.Sort(ByStamp(g.nodes), found)
  }

  function LiveByKeySorted(g: Graph, key: string): seq<NodeIdx> {
    Sorting.Sort(ByStamp(g.nodes), Bucket(g.liveByKey, key))
  }

  /** Everything marked by invalidations logged at `version` or later. */
  ghost function InvalidatedSince(g: Graph, version: nat): set<NodeIdx> {
    set k, x | 0 <= k < |g.log| && g.log[k].0 >= version && x in g.log[k].1 :: x
  }
}
