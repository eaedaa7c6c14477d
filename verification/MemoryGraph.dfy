/**
 The memory graph as the program keeps it (src/graph.rs): a class whose methods update
 its fields in place.  `Value()` is the graph the fields stand for, and every method is
 proved to do to that value exactly what the function of the same name in GraphSpec
 does.
 */
module MemoryGraphClass {
  import opened Wrappers
  import opened Nodes
  import G = GraphSpec
  import I = GraphIndex
  import E = Explain
  import L = GraphLives
  import C = CascadeTheory
  import Chars
  import Sorting

  /** The logical clock: `tick` is the stamp put on nodes (src/ids.rs). */
  class Clock {
    var now: nat

    constructor ()
      ensures now == 0
    {
      now := 0;
    }

    method Tick() returns (t: nat)
      modifies this
      ensures now == old(now) + 1 && t == now
    {
      now := now + 1;
      t := now;
    }
  }

  class MemoryGraph {
    var nodes: seq<Node>
    var byId: map<NodeId, NodeIdx>
    var outEdges: seq<seq<Edge>>
    var inEdges: seq<seq<Edge>>
    var keyIndex: map<string, seq<NodeIdx>>
    var liveIndex: map<string, seq<NodeIdx>>
    var maxCascade: nat
    var maxDepth: nat
    var version: nat
    var log: seq<(nat, seq<NodeIdx>)>
    var pending: seq<NodeIdx>

    ghost function Value(): G.Graph
      reads this
    {
      G.Graph(nodes, byId, outEdges, inEdges, keyIndex, liveIndex, maxCascade, maxDepth, version, log, pending)
    }

    constructor ()
      ensures Value() == G.EmptyGraph
    {
      nodes, byId, outEdges, inEdges := [], map[], [], [];
      keyIndex, liveIndex := map[], map[];
      maxCascade, maxDepth, version := 64, 8, 0;
      log, pending := [], [];
    }

    method Bump()
      modifies this
      ensures Value() == G.Bump(old(Value()))
    {
      version := version + 1;
    }

    // -- mutation -----------------------------------------------------------

    method InsertRestored(node: Node) returns (i: NodeIdx)
      modifies this
      ensures i == |old(nodes)| && Value() == G.InsertNode(old(Value()), node)
    {
      i := |nodes|;
      match node.key {
        case None =>
        case Some(key) =>
          keyIndex := keyIndex[key := G.Bucket(keyIndex, key) + [i]];
          if node.status != Superseded {
            liveIndex := liveIndex[key := G.Bucket(liveIndex, key) + [i]];
          }
      }
      byId := byId[node.id := i];
      nodes := nodes + [node];
      outEdges := outEdges + [[]];
      inEdges := inEdges + [[]];
    }

    method InsertFresh(node: Node) returns (i: NodeIdx)
      modifies this
      ensures i == |old(nodes)| && Value() == G.InsertFresh(old(Value()), node)
    {
      i := |nodes|;
      match node.key {
        case None =>
        case Some(key) =>
          keyIndex := keyIndex[key := G.Bucket(keyIndex, key) + [i]];
          liveIndex := liveIndex[key := G.Bucket(liveIndex, key) + [i]];
      }
      byId := byId[node.id := i];
      nodes := nodes + [node];
      outEdges := outEdges + [[]];
      inEdges := inEdges + [[]];
    }

    method ReindexKey(i: NodeIdx, was: Option<string>, key: Option<string>)
      modifies this`keyIndex
      ensures keyIndex ==
        var removed := if was != key then G.Removed(old(keyIndex), was, i) else old(keyIndex);
        if was != key && key.Some? then removed[key.value := G.Bucket(removed, key.value) + [i]] else removed
    {
      if was == key {
        return;
      }
      if was.Some? && was.value in keyIndex {
        keyIndex := keyIndex[was.value := G.Without(keyIndex[was.value], i)];
      }
      if key.Some? {
        keyIndex := keyIndex[key.value := G.Bucket(keyIndex, key.value) + [i]];
      }
    }

    method Replace(i: NodeIdx, node: Node)
      requires i < |nodes|
      modifies this
      ensures Value() == G.ReplaceNode(old(Value()), i, node)
    {
      var was := nodes[i].key;
      nodes := nodes[i := node];
      ReindexKey(i, was, node.key);
      if was != node.key {
        if was.Some? && was.value in liveIndex {
          liveIndex := liveIndex[was.value := G.Without(liveIndex[was.value], i)];
        }
      }
      if node.key.Some? {
        var list := G.Bucket(liveIndex, node.key.value);
        liveIndex := liveIndex[node.key.value := if i in list then list else list + [i]];
      }
    }

    method RequireGrounding(node: Node, knownSpans: set<string>) returns (refused: Option<G.ProvenanceError>)
      requires G.Shape(Value())
      ensures refused == G.RequireGrounding(Value(), node, knownSpans)
    {
      if node.kind == Skill {
        match node.meta.source {
          case Some(reference) =>
            if !Chars.IsBlank(reference) {
              return None;
            }
          case None =>
        }
        return Some(G.SkillWithoutArtifact);
      }
      if node.kind == Evidence {
        if node.spans == [] {
          return Some(G.EvidenceWithoutSpan);
        }
      } else if !node.IsGrounded() {
        return Some(G.Ungrounded);
      }
      if exists s :: s in node.spans && s !in knownSpans {
        return Some(G.UnknownSpans);
      }
      if node.kind != Evidence && node.spans == []
        && !exists d :: d in node.deps && G.ReachesEvidence(G.Graph(nodes, byId, outEdges, inEdges, keyIndex, liveIndex,
                                                                   maxCascade, maxDepth, version, log, pending), d) {
        return Some(G.DoesNotReachEvidence);
      }
      return None;
    }

    method AddEdge(src: NodeIdx, dst: NodeIdx, kind: EdgeType) returns (edge: Edge)
      requires src < |outEdges| && dst < |inEdges|
      modifies this
      ensures edge == Edge(src, dst, kind) && Value() == G.AddEdge(old(Value()), src, dst, kind)
    {
      edge := Edge(src, dst, kind);
      if edge in outEdges[src] {
        return;
      }
      outEdges := outEdges[src := outEdges[src] + [edge]];
      inEdges := inEdges[dst := inEdges[dst] + [edge]];
      Bump();
    }

    /** An edge read back from a persisted store. */
    method RestoreEdge(src: NodeId, dst: NodeId, kind: EdgeType)
      requires G.Shape(Value())
      modifies this
      ensures Value() == G.RestoreEdge(old(Value()), src, dst, kind)
    {
      if src in byId && dst in byId {
        var edge := AddEdge(byId[src], byId[dst], kind);
      }
    }

    /** Dependency edges to the inputs that exist, in the order they are listed. */
    method LinkDeps(i: NodeIdx, deps: seq<NodeId>, kind: EdgeType, live: bool)
      requires G.Shape(Value()) && i < |nodes|
      modifies this
      ensures Value() == G.LinkDeps(old(Value()), i, deps, kind, live)
    {
      ghost var goal := G.LinkDeps(Value(), i, deps, kind, live);
      assert deps[0..] == deps;
      for k := 0 to |deps|
        invariant G.Shape(Value()) && i < |nodes|
        invariant G.LinkDeps(Value(), i, deps[k..], kind, live) == goal
      {
        ghost var before := Value();
        assert deps[k..][1..] == deps[k + 1..] && deps[k..] != [];
        if deps[k] in byId {
          var d := byId[deps[k]];
          G.AddEdgeShape(before, i, d, kind);
          var edge := AddEdge(i, d, kind);
          if live {
            nodes := nodes[d := nodes[d].(meta := nodes[d].meta.(supersededSource := false))];
          }
        }
      }
    }

    /** Replaces the node under its id, invalidating its dependents if it changed, or appends it. */
    method Place(stamped: Node) returns (i: NodeIdx)
      requires G.Shape(Value())
      modifies this
      ensures (Value(), i) == G.Placed(old(Value()), stamped)
    {
      hide G.Invalidate, G.ReplaceNode, G.InsertFresh, G.CascadeFrom;
      ghost var before := Value();
      if stamped.id in byId {
        i := byId[stamped.id];
        var changed := !nodes[i].SameFingerprint(stamped);
        Replace(i, stamped);
        ReplaceShape(before, i, stamped);
        if changed {
          var marked := Invalidate(i, false);
        }
      } else {
        i := InsertFresh(stamped);
      }
    }

    method Upsert(node: Node, knownSpans: set<string>, clock: Clock)
      returns (result: Result<NodeIdx, G.ProvenanceError>)
      requires G.Shape(Value())
      modifies this, clock
      ensures G.Upserted(Value(), result, clock.now) == G.Upsert(old(Value()), node, knownSpans, old(clock.now))
    {
      hide G.RequireGrounding, G.LinkDeps, G.Placed, G.Shape;
      ghost var before := Value();
      var refused := RequireGrounding(node, knownSpans);
      if refused.Some? {
        return Err(refused.value);
      }
      var t := clock.Tick();
      var stamped := node.(meta := node.meta.(grounded := true), timestamp := t);
      var i := Place(stamped);
      assert G.Shape(Value()) && i < |nodes| by {
        assert (Value(), i) == G.Placed(before, stamped);
      }
      LinkDeps(i, nodes[i].deps, G.DependencyKind(nodes[i].kind), nodes[i].status != Superseded);
      Bump();
      return Ok(i);
    }

    method SetStatus(i: NodeIdx, status: Status)
      requires i < |nodes|
      modifies this
      ensures Value() == G.SetStatus(old(Value()), i, status)
    {
      var was := nodes[i].status;
      nodes := nodes[i := nodes[i].(status := status)];
      if (was != Superseded) == (status != Superseded) {
        return;
      }
      match nodes[i].key {
        case None =>
        case Some(key) =>
          var list := G.Bucket(liveIndex, key);
          if status != Superseded {
            liveIndex := liveIndex[key := if i in list then list else list + [i]];
          } else {
            liveIndex := liveIndex[key := G.Without(list, i)];
          }
      }
    }

    method SetMeta(i: NodeIdx, m: Meta)
      requires i < |nodes|
      modifies this
      ensures Value() == G.SetMeta(old(Value()), i, m)
    {
      nodes := nodes[i := nodes[i].(meta := m)];
    }

    /** The pointers and warnings on both sides of a supersession. */
    method Resolve(loser: NodeIdx, winner: NodeIdx)
      requires loser < |nodes| && winner < |nodes|
      modifies this
      ensures Value() == G.Resolve(old(Value()), loser, winner)
    {
      var loserId, winnerId := nodes[loser].id, nodes[winner].id;
      SetMeta(loser, nodes[loser].meta.(supersededBy := Some(winnerId)));
      SetMeta(winner, nodes[winner].meta.(supersedes := nodes[winner].meta.supersedes + [loserId]));
      SetMeta(winner, nodes[winner].meta.(contradicts := G.WithoutId(nodes[winner].meta.contradicts, loserId)));
      SetMeta(loser, nodes[loser].meta.(contradicts := G.WithoutId(nodes[loser].meta.contradicts, winnerId)));
    }

    /** Revision without deletion: the old node stays, marked superseded. */
    method Supersede(loser: NodeIdx, winner: NodeIdx)
      requires G.Shape(Value()) && loser < |nodes| && winner < |nodes|
      modifies this
      ensures Value() == G.Supersede(old(Value()), loser, winner)
    {
      hide G.Invalidate, G.MarkOrphaned, G.SetStatus, G.Settle, G.Resolve, G.AddEdge, G.Shape;
      ghost var before := Value();
      SizesOf(before);
      G.AddEdgeShape(before, winner, loser, Supersedes);
      AddEdgeSize(before, winner, loser, Supersedes);
      var edge := AddEdge(winner, loser, Supersedes);
      SetStatus(loser, Superseded);
      Resolve(loser, winner);
      Settle(winner);
      assert Value() == G.Retire(before, loser, winner);
      G.InvalidateFrame(Value(), loser, false);
      var marked := Invalidate(loser, false);
      MarkOrphanedEvidence(nodes[loser].deps, nodes[loser].meta.supersededBy);
      Bump();
    }

    method MarkOrphanedEvidence(deps: seq<NodeId>, corrected: Option<NodeId>)
      requires G.Shape(Value())
      modifies this
      ensures Value() == G.MarkOrphaned(old(Value()), deps, corrected)
    {
      ghost var goal := G.MarkOrphaned(Value(), deps, corrected);
      assert deps[0..] == deps;
      for k := 0 to |deps|
        invariant G.Shape(Value())
        invariant G.MarkOrphaned(Value(), deps[k..], corrected) == goal
      {
        ghost var before := Value();
        assert deps[k..][1..] == deps[k + 1..] && deps[k..] != [];
        if deps[k] in byId && nodes[byId[deps[k]]].kind == Evidence {
          var d := byId[deps[k]];
          var live := exists e :: e in inEdges[d] && e.kind.IsDependency() && nodes[e.src].status != Superseded;
          assert live == G.HasLiveDependent(before, d);
          var m := nodes[d].meta.(supersededSource := !live);
          if corrected.Some? {
            m := m.(correctedBy := G.PushNew(m.correctedBy, corrected.value));
          }
          SetMeta(d, m);
        }
      }
    }

    method Contest(i: NodeIdx, other: NodeId)
      requires i < |nodes|
      modifies this
      ensures Value() == G.Contest(old(Value()), i, other)
    {
      var marks := nodes[i].meta.contradicts;
      SetMeta(i, nodes[i].meta.(contradicts := if other in marks then marks else marks + [other]));
      if nodes[i].status == Fresh {
        SetStatus(i, Contradicted);
      }
    }

    method Contradict(a: NodeIdx, b: NodeIdx)
      requires G.Shape(Value()) && a < |nodes| && b < |nodes|
      modifies this
      ensures Value() == G.Contradict(old(Value()), a, b)
    {
      ghost var before := Value();
      G.AddEdgeShape(before, a, b, Contradicts);
      var edge := AddEdge(a, b, Contradicts);
      edge := AddEdge(b, a, Contradicts);
      var aId, bId := nodes[a].id, nodes[b].id;
      Contest(a, bId);
      Contest(b, aId);
    }

    method Settle(i: NodeIdx)
      requires G.Shape(Value()) && i < |nodes|
      modifies this
      ensures Value() == G.Settle(old(Value()), i)
    {
      if nodes[i].status != Contradicted {
        return;
      }
      var live := exists id :: id in nodes[i].meta.contradicts && id in byId && nodes[byId[id]].status.IsLive();
      if !live {
        SetStatus(i, Fresh);
      }
    }

    /** Stale, and without a cached result; evidence is left as it is. */
    method MarkStale(i: NodeIdx)
      requires i < |nodes| && nodes[i].status != Superseded
      modifies this
      ensures Value() == old(Value()).(nodes :=
        if old(nodes)[i].kind == Evidence then old(nodes)
        else old(nodes)[i := old(nodes)[i].(status := Stale, cachedResult := None)])
    {
      if nodes[i].kind != Evidence {
        SetStatus(i, Stale);
        nodes := nodes[i := nodes[i].(cachedResult := None)];
      }
    }

    /** Marks a node and its transitive dependents stale, cascade-bounded. */
    method Invalidate(node: NodeIdx, includeSelf: bool) returns (marked: seq<NodeIdx>)
      requires G.Shape(Value()) && node < |nodes|
      modifies this
      ensures Value() == G.Invalidate(old(Value()), node, includeSelf)
      ensures marked == G.CascadeFrom(old(Value()), node, includeSelf).marked
    {
      hide G.Walk, G.Advance, G.Shape, G.DependencySources, G.Marked, G.Indices, G.Dependents, G.StartQueue;
      ghost var g := Value();
      ghost var c := G.CascadeFrom(g, node, includeSelf);
      marked := [];
      var seen: set<NodeIdx> := {};
      SizesOf(g);
      StartQueueIs(g, node, includeSelf);
      var queue: seq<(NodeIdx, nat)> := if includeSelf then [(node, 0)] else G.At(G.DependencySources(inEdges[node]), 1);
      ghost var deferred: seq<NodeIdx> := [];
      assert g.pending + deferred == g.pending;
      MarkedNone(g.nodes);
      while queue != []
        invariant G.QueueOk(g, queue)
        invariant G.Walk(g, G.WalkState(queue, seen, marked, deferred)) == c
        invariant Value() == g.(nodes := G.Marked(g.nodes, marked), pending := g.pending + deferred)
        invariant forall x :: x in marked ==> x in seen
        decreases G.Indices(|g.nodes|) - seen, |queue|
      {
        ghost var s := G.WalkState(queue, seen, marked, deferred);
        var (current, depth) := queue[0];
        WalkTurn(g, s);
        queue := queue[1..];
        if current in seen {
          continue;
        }
        MarkedElsewhere(g.nodes, marked, current);
        seen := seen + {current};
        if |marked| >= maxCascade || depth > maxDepth {
          pending := pending + [current];
          deferred := deferred + [current];
          assert g.pending + deferred == g.pending + s.deferred + [current];
          continue;
        }
        if nodes[current].status == Superseded {
          continue;
        }
        MarkedOneMore(g, marked, current);
        MarkStale(current);
        marked := marked + [current];
        queue := queue + G.At(G.DependencySources(inEdges[current]), depth + 1);
      }
      WalkDone(g, G.WalkState(queue, seen, marked, deferred));
      if marked != [] {
        log := log + [(version, marked)];
        Bump();
      }
    }

    /** Resumes the oldest deferred node. */
    method DrainOldest() returns (marked: seq<NodeIdx>)
      requires G.Shape(Value()) && pending != []
      modifies this
      ensures G.Shape(old(Value())) && Value() == G.DrainOne(old(Value())) && G.Shape(Value())
      ensures marked == C.DrainedMarks(old(Value()))
    {
      hide G.Invalidate, G.CascadeFrom;
      ghost var before := Value();
      C.DrainOneShape(before);
      var i := pending[0];
      pending := pending[1..];
      assert Value() == before.(pending := before.pending[1..]);
      marked := Invalidate(i, true);
    }

    /** Resumes a deferred cascade tail. */
    method DrainPending(limit: nat) returns (marked: seq<NodeIdx>)
      requires G.Shape(Value())
      modifies this
      ensures Value() == G.DrainPending(old(Value()), limit)
      ensures marked == C.DrainMarks(old(Value()), limit)
    {
      hide G.Shape, G.DrainOne, C.DrainedMarks, G.Pops, C.PopMarks;
      ghost var g := Value();
      marked := [];
      var count := if limit < |pending| then limit else |pending|;
      assert [] + C.PopMarks(g, count) == C.PopMarks(g, count);
      for k := 0 to count
        invariant G.Shape(Value())
        invariant G.Pops(Value(), count - k) == G.DrainPending(g, limit)
        invariant marked + C.PopMarks(Value(), count - k) == C.DrainMarks(g, limit)
      {
        ghost var before, earlier := Value(), marked;
        PopsEmpty(before, count - k);
        PopsEmpty(before, count - k - 1);
        if pending != [] {
          C.PopsStep(before, count - k);
          var more := DrainOldest();
          marked := marked + more;
          assert earlier + C.PopMarks(before, count - k) == marked + C.PopMarks(Value(), count - k - 1);
        }
      }
      PopsNone(Value());
      assert marked + [] == marked;
    }

    method Revalidate(i: NodeIdx, clock: Clock)
      requires i < |nodes|
      modifies this, clock
      ensures Value() == G.Revalidate(old(Value()), i, old(clock.now)) && clock.now == old(clock.now) + 1
    {
      SetStatus(i, Fresh);
      var t := clock.Tick();
      nodes := nodes[i := nodes[i].(timestamp := t)];
      Bump();
    }

    // -- reads --------------------------------------------------------------

    method ByKey(key: string, freshOnly: bool) returns (found: seq<NodeIdx>)
      requires G.Within(G.Bucket(keyIndex, key), |nodes|)
      ensures found == G.ByKey(Value(), key, freshOnly)
    {
      hide G.Live, Sorting.Sort;
      ghost var g := Value();
      var bucket := G.Bucket(keyIndex, key);
      found := [];
      LiveEnd(g);
      for k := 0 to |bucket|
        invariant found == if freshOnly then G.Live(g, bucket[..k]) else bucket[..k]
      {
        LiveNext(g, bucket[..k], bucket[k]);
        assert bucket[..k + 1] == bucket[..k] + [bucket[k]];
        if !freshOnly || nodes[bucket[k]].status != Superseded {
          found := found + [bucket[k]];
        }
      }
      assert bucket[..|bucket|] == bucket;
      found := Sorting.Sort(G.ByStamp(nodes), found);
    }

    /** The live nodes of a key, oldest first: in an indexed graph, exactly `by_key(key, true)`. */
    method LiveByKeySorted(key: string, ghost now: nat) returns (found: seq<NodeIdx>)
      requires I.Indexed(Value(), now)
      ensures G.Within(G.Bucket(keyIndex, key), |nodes|) && found == G.ByKey(Value(), key, true)
    {
      found := Sorting.Sort(G.ByStamp(nodes), G.Bucket(liveIndex, key));
      I.LiveEqualsByKey(Value(), now, key);
    }

    /** The audit path of a node, at the caller's depth cap or the graph's own. */
    method ExplainNode(root: NodeIdx, cap: Option<nat>) returns (path: E.ExplainPath)
      requires G.Shape(Value()) && root < |nodes|
      ensures path == E.ExplainOf(Value(), root, cap.GetOr(maxDepth))
    {
      hide E.Follow, E.Visit, G.Shape, G.Indices, E.PushSpans, E.DependencyEdges;
      ghost var g := Value();
      SizesOf(g);
      var depthCap := cap.GetOr(maxDepth);
      ghost var goal := E.Follow(g, depthCap, E.StartTrail(root));
      var queue: seq<(NodeIdx, nat)>, seen: set<NodeIdx> := [(root, 0)], {};
      var found: seq<NodeIdx>, edges: seq<Edge>, spans: seq<string> := [], [], [];
      var truncated: seq<NodeIdx>, depths: map<NodeIdx, nat>, reached := [], map[], false;
      while queue != []
        invariant G.QueueOk(g, queue)
        invariant E.Follow(g, depthCap, E.Trail(queue, seen, found, edges, spans, truncated, depths, reached)) == goal
        decreases G.Indices(|g.nodes|) - seen, |queue|
      {
        TrailTurn(g, depthCap, E.Trail(queue, seen, found, edges, spans, truncated, depths, reached));
        var (current, depth) := queue[0];
        queue := queue[1..];
        if current in seen {
          continue;
        }
        seen := seen + {current};
        var node := nodes[current];
        found := found + [current];
        depths := depths[current := depth];
        spans := E.PushSpans(spans, node.spans);
        if node.kind == Evidence || node.spans != [] {
          reached := true;
        }
        if depth >= depthCap {
          if node.deps != [] {
            truncated := truncated + [current];
          }
          continue;
        }
        var out := E.DependencyEdges(outEdges[current]);
        edges := edges + out;
        queue := queue + E.Targets(out, depth + 1);
      }
      TrailDone(g, depthCap, E.Trail(queue, seen, found, edges, spans, truncated, depths, reached));
      path := E.ExplainPath(root, found, edges, spans, truncated == [] && reached, truncated, depths);
    }

    /** Everything marked by invalidations logged at `since` or later. */
    method InvalidatedSince(since: nat) returns (touched: set<NodeIdx>)
      ensures touched == G.InvalidatedSince(Value(), since)
    {
      touched := {};
      for k := 0 to |log|
        invariant touched == set j, x | 0 <= j < k && log[j].0 >= since && x in log[j].1 :: x
      {
        if log[k].0 >= since {
          touched := touched + set x | x in log[k].1;
        }
      }
    }
  }

  // ---- one turn of each loop ----------------------------------------------

  /** The part of `load` that brings the graph back: every node, then every edge. */
  method Load(nodes: seq<Node>, links: seq<L.Link>) returns (graph: MemoryGraph)
    ensures fresh(graph) && graph.Value() == L.Loaded(nodes, links)
  {
    hide G.InsertNode, G.RestoreEdge, G.Shape;
    graph := new MemoryGraph();
    for k := 0 to |nodes|
      invariant graph.Value() == L.RestoreNodes(G.EmptyGraph, nodes[..k])
    {
      assert nodes[..k + 1][..k] == nodes[..k];
      var i := graph.InsertRestored(nodes[k]);
    }
    assert nodes[..|nodes|] == nodes;
    L.RestoreShape(nodes);
    ghost var bare := graph.Value();
    for k := 0 to |links|
      invariant G.Shape(bare) && graph.Value() == L.RestoreLinks(bare, links[..k])
    {
      assert links[..k + 1][..k] == links[..k];
      graph.RestoreEdge(links[k].0, links[k].1, links[k].2);
    }
    assert links[..|links|] == links;
  }

  lemma {:induction false} SizesOf(g: G.Graph)
    requires G.Shape(g)
    ensures |g.outEdges| == |g.inEdges| == |g.nodes|
  {
  }

  lemma {:induction false} AddEdgeSize(g: G.Graph, src: NodeIdx, dst: NodeIdx, kind: EdgeType)
    requires src < |g.outEdges| && dst < |g.inEdges|
    ensures G.AddEdge(g, src, dst, kind).nodes == g.nodes
  {
  }

  lemma {:induction false} ReplaceShape(g: G.Graph, i: NodeIdx, node: Node)
    requires G.Shape(g) && i < |g.nodes|
    ensures G.Shape(G.ReplaceNode(g, i, node)) && |G.ReplaceNode(g, i, node).nodes| == |g.nodes|
  {
  }

  lemma {:induction false} StartQueueIs(g: G.Graph, node: NodeIdx, includeSelf: bool)
    requires G.Shape(g) && node < |g.nodes|
    ensures var queue := if includeSelf then [(node, 0)] else G.At(G.DependencySources(g.inEdges[node]), 1);
      && G.StartState(g, node, includeSelf) == G.WalkState(queue, {}, [], []) && G.QueueOk(g, queue)
  {
    G.StartQueueOk(g, node, includeSelf);
  }

  lemma {:induction false} WalkDone(g: G.Graph, s: G.WalkState)
    requires G.Shape(g) && s.queue == []
    ensures G.Walk(g, s) == G.Cascade(s.marked, s.deferred)
  {
  }

  /** What the cascade loop does to its variables in one turn, and that it makes progress. */
  lemma {:induction false} WalkTurn(g: G.Graph, s: G.WalkState)
    requires G.Shape(g) && G.QueueOk(g, s.queue) && s.queue != []
    ensures var (current, depth) := s.queue[0];
      var rest, seen := s.queue[1..], s.seen + {current};
      var next :=
        if current in s.seen then G.WalkState(rest, s.seen, s.marked, s.deferred)
        else if |s.marked| >= g.maxCascade || depth > g.maxDepth then
          G.WalkState(rest, seen, s.marked, s.deferred + [current])
        else if G.IsSuperseded(g, current) then G.WalkState(rest, seen, s.marked, s.deferred)
        else G.WalkState(rest + G.At(G.DependencySources(g.inEdges[current]), depth + 1), seen,
                         s.marked + [current], s.deferred);
      && G.QueueOk(g, next.queue) && G.Walk(g, s) == G.Walk(g, next)
      && (current !in s.seen ==> G.Indices(|g.nodes|) - seen < G.Indices(|g.nodes|) - s.seen)
  {
    var (current, depth) := s.queue[0];
    assert G.Id(current) == current;
    if current in s.seen {
      assert s.seen + {current} == s.seen;
    } else {
      G.DependentsInRange(g, current);
      assert current in G.Indices(|g.nodes|) - s.seen;
    }
  }

  lemma {:induction false} LiveNext(g: G.Graph, front: seq<NodeIdx>, x: NodeIdx)
    requires G.Within(front, |g.nodes|) && x < |g.nodes|
    ensures G.Within(front + [x], |g.nodes|)
    ensures G.Live(g, front + [x]) == G.Live(g, front) + if G.IsSuperseded(g, x) then [] else [x]
  {
    if front == [] {
      assert front + [x] == [x] && [x][1..] == [];
    } else {
      assert (front + [x])[1..] == front[1..] + [x];
      LiveNext(g, front[1..], x);
    }
  }

  lemma {:induction false} LiveEnd(g: G.Graph)
    ensures G.Live(g, []) == []
  {
  }

  lemma {:induction false} PopsEmpty(g: G.Graph, n: nat)
    requires G.Shape(g)
    ensures g.pending == [] ==> G.Pops(g, n) == g && C.PopMarks(g, n) == []
  {
  }

  lemma {:induction false} PopsNone(g: G.Graph)
    requires G.Shape(g)
    ensures G.Pops(g, 0) == g && C.PopMarks(g, 0) == []
  {
  }

  /** What the audit loop does to its variables in one turn. */
  ghost function TrailNext(g: G.Graph, cap: nat, t: E.Trail): E.Trail
    requires t.queue != [] && t.queue[0].0 < |g.nodes| && |g.outEdges| == |g.nodes|
  {
    var (current, depth) := t.queue[0];
    var rest := t.queue[1..];
    var node := g.nodes[current];
    var t1 := t.(queue := rest, seen := t.seen + {current}, nodes := t.nodes + [current],
                 depths := t.depths[current := depth], spans := E.PushSpans(t.spans, node.spans),
                 reachedEvidence := t.reachedEvidence || node.kind == Evidence || node.spans != []);
    var out := E.DependencyEdges(g.outEdges[current]);
    if current in t.seen then t.(queue := rest)
    else if depth >= cap then t1.(truncated := if node.deps != [] then t.truncated + [current] else t.truncated)
    else t1.(queue := rest + E.Targets(out, depth + 1), edges := t.edges + out)
  }

  lemma {:induction false} TrailNextIs(g: G.Graph, cap: nat, t: E.Trail)
    requires G.Shape(g) && G.QueueOk(g, t.queue) && t.queue != []
    ensures TrailNext(g, cap, t) == E.Visit(g, cap, t)
  {
    hide E.PushSpans, E.DependencyEdges, G.QueueOk;
    if t.queue[0].0 in t.seen {
      assert t.seen + {t.queue[0].0} == t.seen;
    }
  }

  lemma {:induction false} TrailTurn(g: G.Graph, cap: nat, t: E.Trail)
    requires G.Shape(g) && G.QueueOk(g, t.queue) && t.queue != []
    ensures var next := TrailNext(g, cap, t);
      && G.QueueOk(g, next.queue) && E.Follow(g, cap, t) == E.Follow(g, cap, next)
      && (t.queue[0].0 !in t.seen ==>
            G.Indices(|g.nodes|) - (t.seen + {t.queue[0].0}) < G.Indices(|g.nodes|) - t.seen)
  {
    hide E.Visit, TrailNext, G.Shape;
    assert G.Id(t.queue[0].0) == t.queue[0].0;
    TrailNextIs(g, cap, t);
    if t.queue[0].0 !in t.seen {
      assert t.queue[0].0 in G.Indices(|g.nodes|) - t.seen;
    }
  }

  lemma {:induction false} TrailDone(g: G.Graph, cap: nat, t: E.Trail)
    requires G.Shape(g) && t.queue == []
    ensures E.Follow(g, cap, t) == t
  {
  }

  // ---- marks, one at a time -----------------------------------------------

  lemma {:induction false} MarkedNone(nodes: seq<Node>)
    ensures G.Marked(nodes, []) == nodes
  {
  }

  lemma {:induction false} MarkedElsewhere(nodes: seq<Node>, marked: seq<NodeIdx>, i: NodeIdx)
    requires i < |nodes| && i !in marked
    ensures G.Marked(nodes, marked)[i] == nodes[i]
  {
  }

  lemma {:induction false} MarkedOneMore(g: G.Graph, marked: seq<NodeIdx>, i: NodeIdx)
    requires i < |g.nodes|
    ensures G.Marked(g.nodes, marked + [i]) ==
      var before := G.Marked(g.nodes, marked);
      if g.nodes[i].kind == Evidence then before
      else before[i := before[i].(status := Stale, cachedResult := None)]
  {
    var before := G.Marked(g.nodes, marked);
    var after := G.Marked(g.nodes, marked + [i]);
    forall j | 0 <= j < |g.nodes|
      ensures after[j] == if j == i && g.nodes[i].kind != Evidence
        then before[j].(status := Stale, cachedResult := None) else before[j]
    {
      assert j in marked + [i] <==> j in marked || j == i;
    }
  }
}
