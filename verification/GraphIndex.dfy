/**
 The redundant indices of the memory graph over whole runs (src/graph.rs): the key
 index, the incrementally kept live index, the id index, the mirrored edge lists and
 the distinct timestamps.
 */
module GraphIndex {
  import opened Wrappers
  import opened Nodes
  import opened GraphSpec
  import Sorting

  ghost predicate NoDups<T>(s: seq<T>) {
    forall i, j :: 0 <= i < j < |s| ==> s[i] != s[j]
  }

  /** Each key lists exactly the nodes that carry it. */
  ghost predicate KeyIndex(g: Graph) {
    forall k: string ::
      && NoDups(Bucket(g.byKey, k))
      && forall i: NodeIdx :: i in Bucket(g.byKey, k) <==> i < |g.nodes| && g.nodes[i].key == Some(k)
  }

  /** Each key's live list holds exactly its nodes that are not superseded. */
  ghost predicate LiveIndex(g: Graph) {
    forall k: string ::
      && NoDups(Bucket(g.liveByKey, k))
      && forall i: NodeIdx :: i in Bucket(g.liveByKey, k) <==>
           i < |g.nodes| && g.nodes[i].key == Some(k) && g.nodes[i].status != Superseded
  }

  ghost predicate IdIndex(g: Graph) {
    && (forall id :: id in g.byId ==> g.byId[id] < |g.nodes| && g.nodes[g.byId[id]].id == id)
    && (forall i: NodeIdx :: i < |g.nodes| ==> g.nodes[i].id in g.byId && g.byId[g.nodes[i].id] == i)
  }

  ghost predicate Stamps(g: Graph, now: nat) {
    && (forall i: NodeIdx :: i < |g.nodes| ==> g.nodes[i].timestamp <= now)
    && (forall i: NodeIdx, j: NodeIdx :: i < j < |g.nodes| ==> g.nodes[i].timestamp != g.nodes[j].timestamp)
  }

  /** The two edge lists hold the same edges, each once. */
  ghost predicate Mirror(g: Graph) {
    && |g.outEdges| == |g.inEdges|
    && (forall i: NodeIdx :: i < |g.outEdges| ==> NoDups(g.outEdges[i]) && NoDups(g.inEdges[i]))
    && (forall e: Edge :: e.src < |g.outEdges| && e.dst < |g.inEdges| ==>
          (e in g.outEdges[e.src] <==> e in g.inEdges[e.dst]))
  }

  ghost predicate Indexed(g: Graph, now: nat) {
    Shape(g) && KeyIndex(g) && LiveIndex(g) && IdIndex(g) && Stamps(g, now) && Mirror(g)
  }

  // ---- what does not touch the indices ------------------------------------

  /** Nodes with the same identity, key, stamp and liveness, under the same indices and edges. */
  ghost predicate SameFaces(g: Graph, h: Graph) {
    && |g.nodes| == |h.nodes| && g.byId == h.byId && g.byKey == h.byKey && g.liveByKey == h.liveByKey
    && g.outEdges == h.outEdges && g.inEdges == h.inEdges && Within(h.pending, |h.nodes|)
    && forall i: NodeIdx :: i < |g.nodes| ==>
         && g.nodes[i].id == h.nodes[i].id && g.nodes[i].key == h.nodes[i].key
         && g.nodes[i].timestamp == h.nodes[i].timestamp
         && (g.nodes[i].status == Superseded <==> h.nodes[i].status == Superseded)
  }

  lemma {:induction false} SameFacesKeeps(g: Graph, h: Graph, now: nat)
    requires Indexed(g, now) && SameFaces(g, h)
    ensures Indexed(h, now)
  {
    assert KeyIndex(h) by {
      assert forall k: string :: Bucket(g.byKey, k) == Bucket(h.byKey, k);
    }
    assert LiveIndex(h) by {
      assert forall k: string :: Bucket(g.liveByKey, k) == Bucket(h.liveByKey, k);
    }
  }

  lemma {:induction false} InvalidateFaces(g: Graph, node: NodeIdx, includeSelf: bool)
    requires Shape(g) && node < |g.nodes|
    ensures Shape(Invalidate(g, node, includeSelf)) && SameFaces(g, Invalidate(g, node, includeSelf))
  {
    hide Invalidate;
    InvalidateFrame(g, node, includeSelf);
  }

  lemma {:induction false} SameFacesReflexive(g: Graph)
    requires Shape(g)
    ensures SameFaces(g, g)
  {
  }

  lemma {:induction false} DrainOneFaces(g: Graph)
    requires Shape(g) && g.pending != []
    ensures Shape(DrainOne(g)) && SameFaces(g, DrainOne(g))
  {
    hide Invalidate;
    var g1 := g.(pending := g.pending[1..]);
    assert Shape(g1);
    InvalidateFaces(g1, g.pending[0], true);
  }

  lemma {:induction false} PopsFaces(g: Graph, n: nat)
    requires Shape(g)
    ensures Shape(Pops(g, n)) && SameFaces(g, Pops(g, n))
    decreases n
  {
    hide DrainOne, SameFaces, Shape;
    SameFacesReflexive(g);
    if n > 0 && g.pending != [] {
      DrainOneFaces(g);
      PopsFaces(DrainOne(g), n - 1);
      FacesTransitive(g, DrainOne(g), Pops(DrainOne(g), n - 1));
    }
  }

  lemma {:induction false} SetMetaFaces(g: Graph, i: NodeIdx, m: Meta)
    requires Shape(g) && i < |g.nodes|
    ensures SameFaces(g, SetMeta(g, i, m))
  {
  }

  /** A status change that does not cross the superseded boundary. */
  lemma {:induction false} SetStatusFaces(g: Graph, i: NodeIdx, status: Status)
    requires Shape(g) && i < |g.nodes| && (g.nodes[i].status == Superseded <==> status == Superseded)
    ensures SameFaces(g, SetStatus(g, i, status))
  {
  }

  lemma {:induction false} FacesTransitive(g: Graph, h: Graph, k: Graph)
    requires SameFaces(g, h) && SameFaces(h, k)
    ensures SameFaces(g, k)
  {
  }

  lemma {:induction false} MarkOrphanedFaces(g: Graph, deps: seq<NodeId>, corrected: Option<NodeId>)
    requires Shape(g)
    ensures SameFaces(g, MarkOrphaned(g, deps, corrected))
    decreases |deps|
  {
    if deps != [] {
      if deps[0] !in g.byId || g.nodes[g.byId[deps[0]]].kind != Evidence {
        MarkOrphanedFaces(g, deps[1..], corrected);
      } else {
        var d := g.byId[deps[0]];
        var m := g.nodes[d].meta.(supersededSource := !HasLiveDependent(g, d));
        var m1 := if corrected.Some? then m.(correctedBy := PushNew(m.correctedBy, corrected.value)) else m;
        var g1 := SetMeta(g, d, m1);
        SetMetaFaces(g, d, m1);
        MarkOrphanedFaces(g1, deps[1..], corrected);
        FacesTransitive(g, g1, MarkOrphaned(g1, deps[1..], corrected));
      }
    }
  }

  // ---- edges --------------------------------------------------------------

  lemma {:induction false} AddEdgeKeeps(g: Graph, src: NodeIdx, dst: NodeIdx, kind: EdgeType, now: nat)
    requires Indexed(g, now) && src < |g.nodes| && dst < |g.nodes|
    ensures Indexed(AddEdge(g, src, dst, kind), now)
  {
    var edge := Edge(src, dst, kind);
    var h := AddEdge(g, src, dst, kind);
    AddEdgeShape(g, src, dst, kind);
    AddEdgeMirror(g, src, dst, kind);
    assert h.nodes == g.nodes && h.byId == g.byId && h.byKey == g.byKey && h.liveByKey == g.liveByKey;
    NodesKeep(g, h, now);
  }

  lemma {:induction false} NodesKeep(g: Graph, h: Graph, now: nat)
    requires KeyIndex(g) && LiveIndex(g) && IdIndex(g) && Stamps(g, now)
    requires h.nodes == g.nodes && h.byId == g.byId && h.byKey == g.byKey && h.liveByKey == g.liveByKey
    ensures KeyIndex(h) && LiveIndex(h) && IdIndex(h) && Stamps(h, now)
  {
    assert forall k: string :: Bucket(g.byKey, k) == Bucket(h.byKey, k);
    assert forall k: string :: Bucket(g.liveByKey, k) == Bucket(h.liveByKey, k);
  }

  lemma {:induction false} AddEdgeMirror(g: Graph, src: NodeIdx, dst: NodeIdx, kind: EdgeType)
    requires Shape(g) && Mirror(g) && src < |g.nodes| && dst < |g.nodes|
    ensures Mirror(AddEdge(g, src, dst, kind))
  {
    var edge := Edge(src, dst, kind);
    var h := AddEdge(g, src, dst, kind);
    if edge !in g.outEdges[src] {
      assert edge !in g.inEdges[dst];
      forall e: Edge | e.src < |h.outEdges| && e.dst < |h.inEdges|
        ensures e in h.outEdges[e.src] <==> e in h.inEdges[e.dst]
      {
        assert e in h.outEdges[e.src] <==> e in g.outEdges[e.src] || e == edge;
        assert e in h.inEdges[e.dst] <==> e in g.inEdges[e.dst] || e == edge;
      }
    }
  }

  lemma {:induction false} LinkDepsKeeps(g: Graph, i: NodeIdx, deps: seq<NodeId>, kind: EdgeType, live: bool, now: nat)
    requires Indexed(g, now) && i < |g.nodes|
    ensures Indexed(LinkDeps(g, i, deps, kind, live), now)
    decreases |deps|
  {
    hide Indexed, AddEdge, SetMeta;
    assert Shape(g) by { IndexedShape(g, now); }
    if deps != [] {
      if deps[0] !in g.byId {
        LinkDepsKeeps(g, i, deps[1..], kind, live, now);
      } else {
        var d := g.byId[deps[0]];
        var g1 := AddEdge(g, i, d, kind);
        AddEdgeKeeps(g, i, d, kind, now);
        IndexedShape(g1, now);
        AddEdgeNodes(g, i, d, kind);
        var g2 := if live then SetMeta(g1, d, g1.nodes[d].meta.(supersededSource := false)) else g1;
        if live {
          SetMetaFaces(g1, d, g1.nodes[d].meta.(supersededSource := false));
          SameFacesKeeps(g1, g2, now);
        }
        SetMetaNodes(g1, d, g1.nodes[d].meta.(supersededSource := false));
        LinkDepsKeeps(g2, i, deps[1..], kind, live, now);
      }
    }
  }

  lemma {:induction false} IndexedShape(g: Graph, now: nat)
    requires Indexed(g, now)
    ensures Shape(g)
  {
  }

  lemma {:induction false} AddEdgeNodes(g: Graph, src: NodeIdx, dst: NodeIdx, kind: EdgeType)
    requires src < |g.outEdges| && dst < |g.inEdges|
    ensures AddEdge(g, src, dst, kind).nodes == g.nodes && AddEdge(g, src, dst, kind).byId == g.byId
  {
  }

  lemma {:induction false} SetMetaNodes(g: Graph, i: NodeIdx, m: Meta)
    requires i < |g.nodes|
    ensures |SetMeta(g, i, m).nodes| == |g.nodes| && SetMeta(g, i, m).byId == g.byId
  {
  }

  // ---- crossing the superseded boundary -----------------------------------

  lemma {:induction false} WithoutNoDups(s: seq<NodeIdx>, i: NodeIdx)
    requires NoDups(s)
    ensures NoDups(Without(s, i))
  {
    if s != [] {
      WithoutNoDups(s[1..], i);
      if s[0] != i {
        assert s[0] !in s[1..];
      }
    }
  }

  lemma {:induction false} SetStatusLive(g: Graph, i: NodeIdx, status: Status)
    requires LiveIndex(g) && i < |g.nodes|
    ensures LiveIndex(SetStatus(g, i, status))
  {
    var h := SetStatus(g, i, status);
    forall k: string
      ensures NoDups(Bucket(h.liveByKey, k))
      ensures forall j: NodeIdx :: j in Bucket(h.liveByKey, k) <==>
        j < |h.nodes| && h.nodes[j].key == Some(k) && h.nodes[j].status != Superseded
    {
      WithoutNoDups(Bucket(g.liveByKey, k), i);
    }
  }

  lemma {:induction false} SetStatusKeeps(g: Graph, i: NodeIdx, status: Status, now: nat)
    requires Indexed(g, now) && i < |g.nodes|
    ensures Indexed(SetStatus(g, i, status), now)
  {
    hide SetStatus, LiveIndex;
    var h := SetStatus(g, i, status);
    SetStatusLive(g, i, status);
    assert h == g.(nodes := g.nodes[i := g.nodes[i].(status := status)], liveByKey := h.liveByKey);
    assert KeyIndex(h) by {
      assert forall k: string :: Bucket(g.byKey, k) == Bucket(h.byKey, k);
    }
  }

  // ---- insertion and replacement ------------------------------------------

  /** The key index after appending node number `i`. */
  lemma {:induction false} AppendKeys(g: Graph, h: Graph, node: Node)
    requires KeyIndex(g) && h.nodes == g.nodes + [node]
    requires h.byKey == if node.key.Some? then g.byKey[node.key.value := Bucket(g.byKey, node.key.value) + [|g.nodes|]]
                        else g.byKey
    ensures KeyIndex(h)
  {
    forall k: string
      ensures NoDups(Bucket(h.byKey, k))
      ensures forall i: NodeIdx :: i in Bucket(h.byKey, k) <==> i < |h.nodes| && h.nodes[i].key == Some(k)
    {
      assert |g.nodes| !in Bucket(g.byKey, k);
    }
  }

  lemma {:induction false} AppendLive(g: Graph, h: Graph, node: Node)
    requires LiveIndex(g) && h.nodes == g.nodes + [node]
    requires h.liveByKey ==
      if node.key.Some? && node.status != Superseded
      then g.liveByKey[node.key.value := Bucket(g.liveByKey, node.key.value) + [|g.nodes|]] else g.liveByKey
    ensures LiveIndex(h)
  {
    forall k: string
      ensures NoDups(Bucket(h.liveByKey, k))
      ensures forall i: NodeIdx :: i in Bucket(h.liveByKey, k) <==>
        i < |h.nodes| && h.nodes[i].key == Some(k) && h.nodes[i].status != Superseded
    {
      assert |g.nodes| !in Bucket(g.liveByKey, k);
    }
  }

  lemma {:induction false} AppendEdges(g: Graph, h: Graph)
    requires Shape(g) && Mirror(g)
    requires h.outEdges == g.outEdges + [[]] && h.inEdges == g.inEdges + [[]]
    ensures Mirror(h)
  {
    forall e: Edge | e.src < |h.outEdges| && e.dst < |h.inEdges|
      ensures e in h.outEdges[e.src] <==> e in h.inEdges[e.dst]
    {
      if e.src < |g.outEdges| && e.dst < |g.inEdges| {
        assert h.outEdges[e.src] == g.outEdges[e.src] && h.inEdges[e.dst] == g.inEdges[e.dst];
      } else if e.src < |g.outEdges| {
        assert e !in g.outEdges[e.src];
      } else if e.dst < |g.inEdges| {
        assert e !in g.inEdges[e.dst];
      }
    }
  }

  lemma {:induction false} InsertKeeps(g: Graph, node: Node, now: nat)
    requires Indexed(g, now) && node.id !in g.byId && node.timestamp <= now
    requires forall i: NodeIdx :: i < |g.nodes| ==> g.nodes[i].timestamp != node.timestamp
    ensures Indexed(InsertNode(g, node), now)
    ensures KeepsLive(node) ==> InsertFresh(g, node) == InsertNode(g, node)
  {
    hide KeyIndex, LiveIndex, Mirror, Shape, IdIndex, Stamps;
    var h := InsertNode(g, node);
    InsertShape(g, node);
    AppendKeys(g, h, node);
    AppendLive(g, h, node);
    AppendEdges(g, h);
    AppendIds(g, h, node);
    AppendStamps(g, h, node, now);
  }

  lemma {:induction false} AppendIds(g: Graph, h: Graph, node: Node)
    requires IdIndex(g) && node.id !in g.byId
    requires h.nodes == g.nodes + [node] && h.byId == g.byId[node.id := |g.nodes|]
    ensures IdIndex(h)
  {
  }

  lemma {:induction false} AppendStamps(g: Graph, h: Graph, node: Node, now: nat)
    requires Stamps(g, now) && node.timestamp <= now && h.nodes == g.nodes + [node]
    requires forall i: NodeIdx :: i < |g.nodes| ==> g.nodes[i].timestamp != node.timestamp
    ensures Stamps(h, now)
  {
  }

  /** A node the live index can take in: live, or carrying no key at all. */
  ghost predicate KeepsLive(node: Node) {
    node.status != Superseded || node.key.None?
  }

  /** What replacing a node in place leaves in a bucket of an index it belongs to. */
  lemma {:induction false} ReplaceKeys(g: Graph, i: NodeIdx, node: Node)
    requires KeyIndex(g) && i < |g.nodes|
    ensures KeyIndex(ReplaceNode(g, i, node))
  {
    var h := ReplaceNode(g, i, node);
    forall k: string
      ensures NoDups(Bucket(h.byKey, k))
      ensures forall j: NodeIdx :: j in Bucket(h.byKey, k) <==> j < |h.nodes| && h.nodes[j].key == Some(k)
    {
      WithoutNoDups(Bucket(g.byKey, k), i);
    }
  }

  lemma {:induction false} ReplaceLive(g: Graph, i: NodeIdx, node: Node)
    requires LiveIndex(g) && i < |g.nodes| && KeepsLive(node)
    ensures LiveIndex(ReplaceNode(g, i, node))
  {
    var h := ReplaceNode(g, i, node);
    forall k: string
      ensures NoDups(Bucket(h.liveByKey, k))
      ensures forall j: NodeIdx :: j in Bucket(h.liveByKey, k) <==>
        j < |h.nodes| && h.nodes[j].key == Some(k) && h.nodes[j].status != Superseded
    {
      WithoutNoDups(Bucket(g.liveByKey, k), i);
    }
  }

  lemma {:induction false} ReplaceKeeps(g: Graph, i: NodeIdx, node: Node, now: nat)
    requires Indexed(g, now) && i < |g.nodes| && KeepsLive(node) && node.id == g.nodes[i].id
    requires node.timestamp == now + 1
    ensures Indexed(ReplaceNode(g, i, node), now + 1)
  {
    var h := ReplaceNode(g, i, node);
    ReplaceKeys(g, i, node);
    ReplaceLive(g, i, node);
    assert h == g.(nodes := g.nodes[i := node], byKey := h.byKey, liveByKey := h.liveByKey);
    hide KeyIndex, LiveIndex, ReplaceNode;
    assert Mirror(h) && Shape(h) && IdIndex(h) && Stamps(h, now + 1);
  }

  lemma {:induction false} LaterStamps(g: Graph, now: nat, later: nat)
    requires Indexed(g, now) && now <= later
    ensures Indexed(g, later)
  {
  }

  lemma {:induction false} PlacedKeeps(g: Graph, stamped: Node, now: nat)
    requires Indexed(g, now) && stamped.timestamp == now + 1 && KeepsLive(stamped)
    ensures Indexed(Placed(g, stamped).0, now + 1)
  {
    hide Indexed, Invalidate, ReplaceNode, InsertFresh, InsertNode, SameFaces;
    IndexedShape(g, now);
    if stamped.id in g.byId {
      var i := g.byId[stamped.id];
      IdOf(g, stamped.id, now);
      var g1 := ReplaceNode(g, i, stamped);
      ReplaceKeeps(g, i, stamped, now);
      IndexedShape(g1, now + 1);
      ReplaceSize(g, i, stamped);
      if !g.nodes[i].SameFingerprint(stamped) {
        InvalidateFaces(g1, i, false);
        SameFacesKeeps(g1, Invalidate(g1, i, false), now + 1);
      }
    } else {
      LaterStamps(g, now, now + 1);
      EarlierStamps(g, now);
      InsertKeeps(g, stamped, now + 1);
    }
  }

  lemma {:induction false} ReplaceSize(g: Graph, i: NodeIdx, node: Node)
    requires i < |g.nodes|
    ensures |ReplaceNode(g, i, node).nodes| == |g.nodes|
  {
  }

  lemma {:induction false} EarlierStamps(g: Graph, now: nat)
    requires Indexed(g, now)
    ensures forall i: NodeIdx :: i < |g.nodes| ==> g.nodes[i].timestamp != now + 1
  {
  }

  lemma {:induction false} IdOf(g: Graph, id: NodeId, now: nat)
    requires Indexed(g, now) && id in g.byId
    ensures g.byId[id] < |g.nodes| && g.nodes[g.byId[id]].id == id
  {
  }

  lemma {:induction false} BumpKeeps(g: Graph, now: nat)
    requires Indexed(g, now)
    ensures Indexed(Bump(g), now)
  {
    SameFacesKeeps(g, Bump(g), now);
  }

  /** `upsert` of a live node keeps every index, whether it refuses, inserts or replaces. */
  lemma {:induction false} UpsertKeeps(g: Graph, node: Node, knownSpans: set<string>, now: nat)
    requires Indexed(g, now) && KeepsLive(node)
    ensures Indexed(Upsert(g, node, knownSpans, now).graph, Upsert(g, node, knownSpans, now).now)
  {
    hide Indexed, Placed, LinkDeps, Bump, RequireGrounding;
    IndexedShape(g, now);
    if RequireGrounding(g, node, knownSpans).None? {
      var stamped := node.(meta := node.meta.(grounded := true), timestamp := now + 1);
      PlacedKeeps(g, stamped, now);
      var (g1, i) := Placed(g, stamped);
      var n := g1.nodes[i];
      LinkDepsKeeps(g1, i, n.deps, DependencyKind(n.kind), n.status != Superseded, now + 1);
      BumpKeeps(LinkDeps(g1, i, n.deps, DependencyKind(n.kind), n.status != Superseded), now + 1);
    }
  }

  lemma {:induction false} LinkDepsStatuses(g: Graph, i: NodeIdx, deps: seq<NodeId>, kind: EdgeType, live: bool)
    requires Shape(g) && i < |g.nodes|
    ensures var h := LinkDeps(g, i, deps, kind, live);
      && h.liveByKey == g.liveByKey && |h.nodes| == |g.nodes|
      && forall j: NodeIdx :: j < |g.nodes| ==> h.nodes[j].key == g.nodes[j].key && h.nodes[j].status == g.nodes[j].status
    decreases |deps|
  {
    hide Shape;
    if deps != [] {
      if deps[0] !in g.byId {
        LinkDepsStatuses(g, i, deps[1..], kind, live);
      } else {
        ByIdInRange(g, deps[0]);
        var d := g.byId[deps[0]];
        AddEdgeShape(g, i, d, kind);
        var g1 := AddEdge(g, i, d, kind);
        var g2 := if live then SetMeta(g1, d, g1.nodes[d].meta.(supersededSource := false)) else g1;
        LinkDepsStatuses(g2, i, deps[1..], kind, live);
      }
    }
  }

  lemma {:induction false} ByIdInRange(g: Graph, id: NodeId)
    requires Shape(g) && id in g.byId
    ensures g.byId[id] < |g.nodes| && |g.outEdges| == |g.inEdges| == |g.nodes|
  {
  }

  lemma {:induction false} PlacedSuperseded(g: Graph, stamped: Node, key: string)
    requires Shape(g) && stamped.key == Some(key) && stamped.status == Superseded
    ensures var (h, i) := Placed(g, stamped);
      i in Bucket(h.liveByKey, key) && h.nodes[i].status == Superseded
  {
    hide Invalidate;
    if stamped.id in g.byId {
      var i := g.byId[stamped.id];
      var g1 := ReplaceNode(g, i, stamped);
      InvalidateFrame(g1, i, false);
    }
  }

  /**
   An accepted `upsert` keeps the live index exactly when the node is live or has no key:
   the program lists whatever it inserts as live, whatever its status says.
   */
  lemma {:induction false} UpsertKeepsLiveIff(g: Graph, node: Node, knownSpans: set<string>, now: nat)
    requires Indexed(g, now) && RequireGrounding(g, node, knownSpans).None?
    ensures LiveIndex(Upsert(g, node, knownSpans, now).graph) <==> node.status != Superseded || node.key.None?
  {
    hide Placed, LinkDeps, RequireGrounding;
    if node.status != Superseded || node.key.None? {
      UpsertKeeps(g, node, knownSpans, now);
    } else {
      var stamped := node.(meta := node.meta.(grounded := true), timestamp := now + 1);
      PlacedSuperseded(g, stamped, node.key.value);
      var (g1, i) := Placed(g, stamped);
      var n := g1.nodes[i];
      LinkDepsStatuses(g1, i, n.deps, DependencyKind(n.kind), n.status != Superseded);
      var h := Upsert(g, node, knownSpans, now).graph;
      assert i in Bucket(h.liveByKey, node.key.value) && h.nodes[i].status == Superseded;
    }
  }

  // ---- revision -----------------------------------------------------------

  lemma {:induction false} ResolveFaces(g: Graph, loser: NodeIdx, winner: NodeIdx)
    requires Shape(g) && loser < |g.nodes| && winner < |g.nodes|
    ensures SameFaces(g, Resolve(g, loser, winner))
  {
  }

  lemma {:induction false} SettleFaces(g: Graph, i: NodeIdx)
    requires Shape(g) && i < |g.nodes|
    ensures SameFaces(g, Settle(g, i))
  {
    SetStatusFaces(g, i, if g.nodes[i].status == Contradicted then Fresh else g.nodes[i].status);
  }

  lemma {:induction false} RetireKeeps(g: Graph, loser: NodeIdx, winner: NodeIdx, now: nat)
    requires Indexed(g, now) && loser < |g.nodes| && winner < |g.nodes|
    ensures Indexed(Retire(g, loser, winner), now)
  {
    hide Indexed, AddEdge, SetStatus, Resolve, Settle, SameFaces;
    IndexedShape(g, now);
    var g1 := AddEdge(g, winner, loser, Supersedes);
    AddEdgeNodes(g, winner, loser, Supersedes);
    AddEdgeKeeps(g, winner, loser, Supersedes, now);
    IndexedShape(g1, now);
    var g2 := SetStatus(g1, loser, Superseded);
    SetStatusKeeps(g1, loser, Superseded, now);
    var g3 := Resolve(g2, loser, winner);
    ResolveFaces(g2, loser, winner);
    SameFacesKeeps(g2, g3, now);
    SettleFaces(g3, winner);
    SameFacesKeeps(g3, Settle(g3, winner), now);
  }

  lemma {:induction false} SupersedeKeeps(g: Graph, loser: NodeIdx, winner: NodeIdx, now: nat)
    requires Indexed(g, now) && loser < |g.nodes| && winner < |g.nodes|
    ensures Indexed(Supersede(g, loser, winner), now)
  {
    hide Indexed, Retire, Invalidate, MarkOrphaned, SameFaces, Bump;
    IndexedShape(g, now);
    RetireKeeps(g, loser, winner, now);
    var g4 := Retire(g, loser, winner);
    InvalidateFaces(g4, loser, false);
    var g5 := Invalidate(g4, loser, false);
    SameFacesKeeps(g4, g5, now);
    SameFacesSize(g4, g5);
    MarkOrphanedFaces(g5, g5.nodes[loser].deps, g5.nodes[loser].meta.supersededBy);
    var g6 := MarkOrphaned(g5, g5.nodes[loser].deps, g5.nodes[loser].meta.supersededBy);
    SameFacesKeeps(g5, g6, now);
    BumpKeeps(g6, now);
  }

  lemma {:induction false} SameFacesSize(g: Graph, h: Graph)
    requires SameFaces(g, h)
    ensures |g.nodes| == |h.nodes|
  {
  }

  lemma {:induction false} ContestKeeps(g: Graph, i: NodeIdx, other: NodeId, now: nat)
    requires Indexed(g, now) && i < |g.nodes|
    ensures Indexed(Contest(g, i, other), now)
  {
    var m := g.nodes[i].meta.(contradicts := PushNew(g.nodes[i].meta.contradicts, other));
    var g1 := SetMeta(g, i, m);
    SetMetaFaces(g, i, m);
    hide Indexed, KeyIndex, LiveIndex, IdIndex, Mirror, Stamps;
    SameFacesKeeps(g, g1, now);
    if g.nodes[i].status == Fresh {
      IndexedShape(g1, now);
      SetStatusFaces(g1, i, Contradicted);
      SameFacesKeeps(g1, SetStatus(g1, i, Contradicted), now);
    }
  }

  lemma {:induction false} ContradictKeeps(g: Graph, a: NodeIdx, b: NodeIdx, now: nat)
    requires Indexed(g, now) && a < |g.nodes| && b < |g.nodes|
    ensures Indexed(Contradict(g, a, b), now)
  {
    hide Indexed, AddEdge, Contest;
    IndexedShape(g, now);
    var g1 := AddEdge(g, a, b, Contradicts);
    AddEdgeKeeps(g, a, b, Contradicts, now);
    AddEdgeNodes(g, a, b, Contradicts);
    IndexedShape(g1, now);
    var g2 := AddEdge(g1, b, a, Contradicts);
    AddEdgeKeeps(g1, b, a, Contradicts, now);
    AddEdgeNodes(g1, b, a, Contradicts);
    ContestKeeps(g2, a, g.nodes[b].id, now);
    ContestKeeps(Contest(g2, a, g.nodes[b].id), b, g.nodes[a].id, now);
  }

  lemma {:induction false} RevalidateKeeps(g: Graph, i: NodeIdx, now: nat)
    requires Indexed(g, now) && i < |g.nodes|
    ensures Indexed(Revalidate(g, i, now), now + 1)
  {
    SetStatusKeeps(g, i, Fresh, now);
    var g1 := SetStatus(g, i, Fresh);
    RestampKeeps(g1, i, now);
  }

  lemma {:induction false} RestampKeeps(g: Graph, i: NodeIdx, now: nat)
    requires Indexed(g, now) && i < |g.nodes|
    ensures Indexed(Bump(SetNode(g, i, g.nodes[i].(timestamp := now + 1))), now + 1)
  {
    hide KeyIndex, LiveIndex;
    var h := Bump(SetNode(g, i, g.nodes[i].(timestamp := now + 1)));
    RestampIndices(g, h);
  }

  lemma {:induction false} RestampIndices(g: Graph, h: Graph)
    requires KeyIndex(g) && LiveIndex(g) && h.byKey == g.byKey && h.liveByKey == g.liveByKey
    requires |h.nodes| == |g.nodes|
    requires forall i: NodeIdx :: i < |g.nodes| ==>
      h.nodes[i].key == g.nodes[i].key && h.nodes[i].status == g.nodes[i].status
    ensures KeyIndex(h) && LiveIndex(h)
  {
    assert forall k: string :: Bucket(g.byKey, k) == Bucket(h.byKey, k);
    assert forall k: string :: Bucket(g.liveByKey, k) == Bucket(h.liveByKey, k);
  }

  // ---- runs ---------------------------------------------------------------

  datatype Op =
    | UpsertOp(node: Node, knownSpans: set<string>)
    | RestoreOp(restored: Node)
    | EdgeOp(src: NodeIdx, dst: NodeIdx, kind: EdgeType)
    | SupersedeOp(loser: NodeIdx, winner: NodeIdx)
    | ContradictOp(a: NodeIdx, b: NodeIdx)
    | InvalidateOp(target: NodeIdx, includeSelf: bool)
    | DrainOp(limit: nat)
    | RevalidateOp(stale: NodeIdx)
    | AmendOp(idx: NodeIdx, amended: Node)

  /** A graph and the clock it is stamped by. */
  datatype World = World(graph: Graph, now: nat)

  /**
   What each caller brings: indices that exist, a node that is not already superseded, a
   persisted node whose id and stamp are still its own, and direct mutations that leave a
   node's id, key, stamp and status alone.
   */
  ghost predicate Admissible(w: World, op: Op) {
    var n := |w.graph.nodes|;
    match op
    case UpsertOp(node, _) => KeepsLive(node)
    case RestoreOp(node) =>
      && node.id !in w.graph.byId && node.timestamp <= w.now
      && forall i: NodeIdx :: i < n ==> w.graph.nodes[i].timestamp != node.timestamp
    case EdgeOp(src, dst, _) => src < n && dst < n
    case SupersedeOp(loser, winner) => loser < n && winner < n
    case ContradictOp(a, b) => a < n && b < n
    case InvalidateOp(i, _) => i < n
    case DrainOp(_) => true
    case RevalidateOp(i) => i < n
    case AmendOp(i, node) =>
      i < n && node.(spans := w.graph.nodes[i].spans, deps := w.graph.nodes[i].deps, value := w.graph.nodes[i].value,
                     kind := w.graph.nodes[i].kind, cachedResult := w.graph.nodes[i].cachedResult,
                     meta := w.graph.nodes[i].meta) == w.graph.nodes[i]
  }

  ghost function Apply(w: World, op: Op): World
    requires Shape(w.graph) && Admissible(w, op)
  {
    var g := w.graph;
    match op
    case UpsertOp(node, known) => var u := Upsert(g, node, known, w.now); World(u.graph, u.now)
    case RestoreOp(node) => World(InsertNode(g, node), w.now)
    case EdgeOp(src, dst, kind) => World(AddEdge(g, src, dst, kind), w.now)
    case SupersedeOp(loser, winner) => World(Supersede(g, loser, winner), w.now)
    case ContradictOp(a, b) => World(Contradict(g, a, b), w.now)
    case InvalidateOp(i, includeSelf) => World(Invalidate(g, i, includeSelf), w.now)
    case DrainOp(limit) => World(DrainPending(g, limit), w.now)
    case RevalidateOp(i) => World(Revalidate(g, i, w.now), w.now + 1)
    case AmendOp(i, node) => World(SetNode(g, i, node), w.now)
  }

  /** Every mutation keeps every index. */
  lemma {:induction false} ApplyKeeps(w: World, op: Op)
    requires Indexed(w.graph, w.now) && Admissible(w, op)
    ensures Shape(w.graph) && Indexed(Apply(w, op).graph, Apply(w, op).now)
  {
    hide Indexed, SameFaces, Upsert, InsertNode, AddEdge, Supersede, Contradict, Invalidate, Pops, Revalidate;
    var g := w.graph;
    IndexedShape(g, w.now);
    match op
    case UpsertOp(node, known) => UpsertKeeps(g, node, known, w.now);
    case RestoreOp(node) => InsertKeeps(g, node, w.now);
    case EdgeOp(src, dst, kind) => AddEdgeKeeps(g, src, dst, kind, w.now);
    case SupersedeOp(loser, winner) => SupersedeKeeps(g, loser, winner, w.now);
    case ContradictOp(a, b) => ContradictKeeps(g, a, b, w.now);
    case InvalidateOp(i, includeSelf) =>
      InvalidateFaces(g, i, includeSelf);
      SameFacesKeeps(g, Invalidate(g, i, includeSelf), w.now);
    case DrainOp(limit) =>
      PopsFaces(g, if limit < |g.pending| then limit else |g.pending|);
      SameFacesKeeps(g, DrainPending(g, limit), w.now);
    case RevalidateOp(i) => RevalidateKeeps(g, i, w.now);
    case AmendOp(i, node) =>
      AmendFaces(g, i, node);
      SameFacesKeeps(g, SetNode(g, i, node), w.now);
  }

  lemma {:induction false} AmendFaces(g: Graph, i: NodeIdx, node: Node)
    requires Shape(g) && i < |g.nodes|
    requires node.id == g.nodes[i].id && node.key == g.nodes[i].key && node.timestamp == g.nodes[i].timestamp
    requires node.status == g.nodes[i].status
    ensures SameFaces(g, SetNode(g, i, node))
  {
  }

  /** `run` is a run: it starts at `from` and each world is the last one with an admissible op applied. */
  ghost predicate IsRun(from: World, ops: seq<Op>, run: seq<World>) {
    && |run| == |ops| + 1 && run[0] == from
    && forall k: nat :: k < |ops| ==>
         Shape(run[k].graph) && Admissible(run[k], ops[k]) && run[k + 1] == Apply(run[k], ops[k])
  }

  lemma {:induction false} RunKeepsIndexed(from: World, ops: seq<Op>, run: seq<World>, k: nat)
    requires Indexed(from.graph, from.now) && IsRun(from, ops, run) && k < |run|
    ensures Indexed(run[k].graph, run[k].now)
  {
    hide Indexed;
    if k > 0 {
      RunKeepsIndexed(from, ops, run, k - 1);
      ApplyKeeps(run[k - 1], ops[k - 1]);
      assert run[k - 1 + 1] == Apply(run[k - 1], ops[k - 1]);
    }
  }

  lemma {:induction false} EmptyIndexed(now: nat)
    ensures Indexed(EmptyGraph, now)
  {
  }

  // ---- the promise of the live index --------------------------------------

  lemma {:induction false} LiveNoDups(g: Graph, bucket: seq<NodeIdx>)
    requires Within(bucket, |g.nodes|) && NoDups(bucket)
    ensures NoDups(Live(g, bucket))
  {
    if bucket != [] {
      LiveNoDups(g, bucket[1..]);
      assert bucket[0] !in bucket[1..];
    }
  }

  lemma {:induction false} SameElementsSameMultiset(a: seq<NodeIdx>, b: seq<NodeIdx>)
    requires NoDups(a) && NoDups(b) && forall x :: x in a <==> x in b
    ensures multiset(a) == multiset(b)
  {
    forall x: NodeIdx
      ensures multiset(a)[x] == multiset(b)[x]
    {
      Sorting.CountedOnce(a, x);
      Sorting.CountedOnce(b, x);
    }
  }

  lemma {:induction false} ByStampIsPreorder(nodes: seq<Node>)
    ensures Sorting.TotalPreorder(ByStamp(nodes))
  {
  }

  /**
   What `live_by_key_sorted` promises: the same nodes in the same order as filtering and
   sorting the whole bucket of the key.
   */
  lemma {:induction false} LiveEqualsByKey(g: Graph, now: nat, key: string)
    requires Indexed(g, now)
    ensures Within(Bucket(g.byKey, key), |g.nodes|)
    ensures LiveByKeySorted(g, key) == ByKey(g, key, true)
  {
    var bucket, live := Bucket(g.byKey, key), Bucket(g.liveByKey, key);
    assert forall k :: 0 <= k < |bucket| ==> bucket[k] in bucket;
    LiveNoDups(g, bucket);
    SameElementsSameMultiset(live, Live(g, bucket));
    ByStampIsPreorder(g.nodes);
    assert forall x, y :: x in live && y in live && ByStamp(g.nodes)(x, y) && ByStamp(g.nodes)(y, x) ==> x == y;
    Sorting.SortInvariant(ByStamp(g.nodes), live, Live(g, bucket));
  }

  /** A key's nodes, or its live ones, each once and oldest first. */
  lemma {:induction false} ByKeyIsTimeline(g: Graph, now: nat, key: string, freshOnly: bool)
    requires Indexed(g, now)
    ensures Within(Bucket(g.byKey, key), |g.nodes|)
    ensures var found := ByKey(g, key, freshOnly);
      && (forall x: NodeIdx :: x in found <==>
            x < |g.nodes| && g.nodes[x].key == Some(key) && (freshOnly ==> g.nodes[x].status != Superseded))
      && (forall i: nat, j: nat :: i < j < |found| ==>
            found[i] < |g.nodes| && found[j] < |g.nodes| && g.nodes[found[i]].timestamp < g.nodes[found[j]].timestamp)
  {
    hide LiveIndex, IdIndex, Mirror, Shape;
    var bucket := Bucket(g.byKey, key);
    assert forall k :: 0 <= k < |bucket| ==> bucket[k] in bucket;
    var pool := if freshOnly then Live(g, bucket) else bucket;
    LiveNoDups(g, bucket);
    ByStampIsPreorder(g.nodes);
    var found := ByKey(g, key, freshOnly);
    Sorting.SortSorted(ByStamp(g.nodes), pool);
    Sorting.SortMembers(ByStamp(g.nodes), pool);
    Sorting.SortPermutes(ByStamp(g.nodes), pool);
    forall i: nat, j: nat | i < j < |found|
      ensures found[i] < |g.nodes| && found[j] < |g.nodes|
      ensures g.nodes[found[i]].timestamp < g.nodes[found[j]].timestamp
    {
      assert ByStamp(g.nodes)(found[i], found[j]);
      assert found[i] in found && found[j] in found;
      if found[i] == found[j] {
        Sorting.CountedTwice(found, i, j);
        Sorting.CountedOnce(pool, found[i]);
      }
    }
  }

  /** The promise holds in every world of every run from an empty graph. */
  lemma {:induction false} LiveEqualsByKeyInEveryRun(now: nat, ops: seq<Op>, run: seq<World>, k: nat, key: string)
    requires IsRun(World(EmptyGraph, now), ops, run) && k < |run|
    ensures Within(Bucket(run[k].graph.byKey, key), |run[k].graph.nodes|)
    ensures LiveByKeySorted(run[k].graph, key) == ByKey(run[k].graph, key, true)
  {
    EmptyIndexed(now);
    RunKeepsIndexed(World(EmptyGraph, now), ops, run, k);
    LiveEqualsByKey(run[k].graph, run[k].now, key);
  }
}
