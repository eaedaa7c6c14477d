/**
 What the memory graph never forgets (src/graph.rs): provenance, the invalidation log
 and the evidence flags, over whole runs.

 `Evolves` is what every mutation other than an accepted `upsert` does to the past:
 edges and log entries are only added, no node loses its grounding, and only evidence
 gains the superseded-source flag.

 Spans may come and go: a restatement gives a node without spans one under its old id,
 and inserting the node again as it was built takes it away.  So grounding is followed to
 nodes whose id was hashed from spans, which the id itself remembers.
 */
module GraphHistory {
  import opened Wrappers
  import opened Nodes
  import opened GraphSpec
  import opened GraphIndex

  // ---- grounding ----------------------------------------------------------

  /** Grounded on its own: it carries a span, or it is a capability with an artifact. */
  ghost predicate Witness(n: Node) {
    n.spans != [] || n.kind == Skill
  }

  /** What the O(1) check in `upsert` takes as grounded. */
  ghost predicate Claimed(n: Node) {
    n.meta.grounded || n.spans != [] || n.kind == Evidence
  }

  ghost predicate DependsOn(g: Graph, i: NodeIdx, j: NodeIdx)
    requires i < |g.outEdges|
  {
    exists e :: e in g.outEdges[i] && e.kind.IsDependency() && e.dst == j
  }

  /** A chain of at most `len` dependency edges leads from `i` to a node grounded on its own. */
  ghost predicate GroundedIn(g: Graph, i: NodeIdx, len: nat)
    requires Shape(g)
    decreases len
  {
    i < |g.nodes| &&
    (Witness(g.nodes[i]) ||
     (len > 0 && exists j: NodeIdx :: j < |g.nodes| && DependsOn(g, i, j) && GroundedIn(g, j, len - 1)))
  }

  ghost predicate Grounded(g: Graph, i: NodeIdx)
    requires Shape(g)
  {
    exists len: nat :: GroundedIn(g, i, len)
  }

  /** What an id remembers: whether the node it was hashed for was built with spans, or as a skill. */
  type Built = NodeId -> bool

  /** Grounded on its own from the start. */
  ghost predicate Anchored(built: Built, n: Node) {
    built(n.id) && Witness(n)
  }

  /** A chain of at most `len` dependency edges leads from `i` to an anchored node. */
  ghost predicate RootedIn(built: Built, g: Graph, i: NodeIdx, len: nat)
    requires Shape(g)
    decreases len
  {
    i < |g.nodes| &&
    (Anchored(built, g.nodes[i]) ||
     (len > 0 && exists j: NodeIdx :: j < |g.nodes| && DependsOn(g, i, j) && RootedIn(built, g, j, len - 1)))
  }

  ghost predicate Rooted(built: Built, g: Graph, i: NodeIdx)
    requires Shape(g)
  {
    exists len: nat :: RootedIn(built, g, i, len)
  }

  lemma {:induction false} RootedInGrounds(built: Built, g: Graph, i: NodeIdx, len: nat)
    requires Shape(g) && RootedIn(built, g, i, len)
    ensures GroundedIn(g, i, len)
    decreases len
  {
    hide DependsOn;
    if !Anchored(built, g.nodes[i]) {
      var j: NodeIdx :| j < |g.nodes| && DependsOn(g, i, j) && RootedIn(built, g, j, len - 1);
      RootedInGrounds(built, g, j, len - 1);
    }
  }

  lemma {:induction false} RootedGrounds(built: Built, g: Graph, i: NodeIdx)
    requires Shape(g) && Rooted(built, g, i)
    ensures Grounded(g, i) && i < |g.nodes|
  {
    hide GroundedIn, Shape;
    var len: nat :| RootedIn(built, g, i, len);
    RootedInGrounds(built, g, i, len);
  }

  /** Every node the program believes grounded really is. */
  ghost predicate RootInv(built: Built, g: Graph) {
    Shape(g) && forall i: NodeIdx :: i < |g.nodes| && Claimed(g.nodes[i]) ==> Rooted(built, g, i)
  }

  // ---- flags and log ------------------------------------------------------

  ghost predicate FlagInv(g: Graph) {
    forall i: NodeIdx :: i < |g.nodes| && g.nodes[i].meta.supersededSource ==> g.nodes[i].kind == Evidence
  }

  /** Every logged invalidation began before the current version. */
  ghost predicate LogInv(g: Graph) {
    forall k: nat :: k < |g.log| ==> g.log[k].0 < g.version
  }

  ghost predicate LogGrows(g: Graph, h: Graph) {
    && g.version <= h.version && |g.log| <= |h.log|
    && h.log[..|g.log|] == g.log
    && forall k: nat :: |g.log| <= k < |h.log| ==> g.version <= h.log[k].0 < h.version
  }

  lemma {:induction false} LogGrowsTransitive(g: Graph, h: Graph, k: Graph)
    requires LogGrows(g, h) && LogGrows(h, k)
    ensures LogGrows(g, k)
  {
    assert k.log[..|g.log|] == k.log[..|h.log|][..|g.log|];
    forall n: nat | |g.log| <= n < |k.log|
      ensures g.version <= k.log[n].0 < k.version
    {
      if n < |h.log| {
        assert k.log[..|h.log|][n] == h.log[n];
      }
    }
  }

  /** The nodes marked by the log entries from position `n` on. */
  ghost function MarksFrom(g: Graph, n: nat): set<NodeIdx> {
    set k: nat, x | n <= k < |g.log| && x in g.log[k].1 :: x
  }

  /**
   The consistency check reads exactly the right entries: what `invalidated_since` the
   version of a snapshot reports is what invalidations logged after the snapshot marked.
   */
  lemma {:induction false} SnapshotSeesLaterMarks(snapshot: Graph, later: Graph)
    requires LogInv(snapshot) && LogGrows(snapshot, later)
    ensures InvalidatedSince(later, snapshot.version) == MarksFrom(later, |snapshot.log|)
  {
    forall k: nat | k < |later.log|
      ensures later.log[k].0 >= snapshot.version <==> k >= |snapshot.log|
    {
      if k < |snapshot.log| {
        assert later.log[..|snapshot.log|][k] == snapshot.log[k];
      }
    }
    forall x: NodeIdx
      ensures x in InvalidatedSince(later, snapshot.version) <==> x in MarksFrom(later, |snapshot.log|)
    {
    }
  }

  /** An invalidation that marks anything logs exactly its marks, so a later check sees them. */
  lemma {:induction false} InvalidateIsSeen(snapshot: Graph, g: Graph, node: NodeIdx, includeSelf: bool, x: NodeIdx)
    requires LogInv(snapshot) && LogGrows(snapshot, g) && Shape(g) && node < |g.nodes|
    requires x in CascadeFrom(g, node, includeSelf).marked
    ensures x in InvalidatedSince(Invalidate(g, node, includeSelf), snapshot.version)
  {
    hide CascadeFrom;
    var h := Invalidate(g, node, includeSelf);
    assert h.log[|g.log|] == (g.version, CascadeFrom(g, node, includeSelf).marked);
  }

  // ---- evolution ----------------------------------------------------------

  ghost predicate NodeKept(a: Node, b: Node) {
    a.id == b.id && (Witness(a) ==> Witness(b)) && (Claimed(b) ==> Claimed(a)) && FlagKept(a, b)
  }

  ghost predicate FlagKept(a: Node, b: Node) {
    b.meta.supersededSource ==> b.kind == Evidence || (a.meta.supersededSource && a.kind == b.kind)
  }

  ghost predicate EdgesGrow(g: Graph, h: Graph) {
    && |g.outEdges| <= |h.outEdges|
    && forall i: NodeIdx, e :: i < |g.outEdges| && e in g.outEdges[i] ==> e in h.outEdges[i]
  }

  ghost predicate Evolves(g: Graph, h: Graph) {
    && |g.nodes| == |h.nodes| && EdgesGrow(g, h) && LogGrows(g, h)
    && forall i: NodeIdx :: i < |g.nodes| ==> NodeKept(g.nodes[i], h.nodes[i])
  }

  lemma {:induction false} EvolvesTransitive(g: Graph, h: Graph, k: Graph)
    requires Evolves(g, h) && Evolves(h, k)
    ensures Evolves(g, k)
  {
    LogGrowsTransitive(g, h, k);
    forall i: NodeIdx | i < |g.nodes|
      ensures NodeKept(g.nodes[i], k.nodes[i])
    {
      assert NodeKept(g.nodes[i], h.nodes[i]) && NodeKept(h.nodes[i], k.nodes[i]);
    }
  }

  /** No anchored node stops being one. */
  ghost predicate AnchorsKept(built: Built, g: Graph, h: Graph) {
    && |g.nodes| <= |h.nodes|
    && forall j: NodeIdx :: j < |g.nodes| && Anchored(built, g.nodes[j]) ==> Anchored(built, h.nodes[j])
  }

  lemma {:induction false} RootedSurvives(built: Built, g: Graph, h: Graph, i: NodeIdx, len: nat)
    requires Shape(g) && Shape(h) && AnchorsKept(built, g, h) && EdgesGrow(g, h) && RootedIn(built, g, i, len)
    ensures RootedIn(built, h, i, len)
    decreases len
  {
    hide Anchored;
    if !Anchored(built, g.nodes[i]) {
      var j: NodeIdx :| j < |g.nodes| && DependsOn(g, i, j) && RootedIn(built, g, j, len - 1);
      RootedSurvives(built, g, h, j, len - 1);
      var e :| e in g.outEdges[i] && e.kind.IsDependency() && e.dst == j;
      assert e in h.outEdges[i];
      assert DependsOn(h, i, j);
    }
  }

  lemma {:induction false} StaysRooted(built: Built, g: Graph, h: Graph, i: NodeIdx)
    requires Shape(g) && Shape(h) && AnchorsKept(built, g, h) && EdgesGrow(g, h) && Rooted(built, g, i)
    ensures Rooted(built, h, i)
  {
    hide RootedIn, AnchorsKept, EdgesGrow, Shape;
    var len: nat :| RootedIn(built, g, i, len);
    RootedSurvives(built, g, h, i, len);
  }

  lemma {:induction false} EvolvesKeepsAnchors(built: Built, g: Graph, h: Graph)
    requires Evolves(g, h)
    ensures AnchorsKept(built, g, h)
  {
    hide EdgesGrow, LogGrows;
    forall j: NodeIdx | j < |g.nodes| && Anchored(built, g.nodes[j]) ensures Anchored(built, h.nodes[j]) {
      assert NodeKept(g.nodes[j], h.nodes[j]);
    }
  }

  /** Provenance survives every mutation that evolves the graph. */
  lemma {:induction false} EvolvesKeepsRoots(built: Built, g: Graph, h: Graph)
    requires RootInv(built, g) && Shape(h) && Evolves(g, h)
    ensures RootInv(built, h)
    ensures forall i: NodeIdx :: Rooted(built, g, i) ==> Rooted(built, h, i)
  {
    hide Rooted, Shape, AnchorsKept, EdgesGrow, LogGrows;
    EvolvesKeepsAnchors(built, g, h);
    forall i: NodeIdx | Rooted(built, g, i) ensures Rooted(built, h, i) {
      StaysRooted(built, g, h, i);
    }
    forall i: NodeIdx | i < |h.nodes| && Claimed(h.nodes[i]) ensures Rooted(built, h, i) {
      assert NodeKept(g.nodes[i], h.nodes[i]);
    }
  }

  lemma {:induction false} EvolvesKeepsFlags(g: Graph, h: Graph)
    requires FlagInv(g) && Evolves(g, h)
    ensures FlagInv(h)
  {
    forall i: NodeIdx | i < |h.nodes| && h.nodes[i].meta.supersededSource
      ensures h.nodes[i].kind == Evidence
    {
      assert NodeKept(g.nodes[i], h.nodes[i]);
    }
  }

  lemma {:induction false} LogGrowsKeepsLog(g: Graph, h: Graph)
    requires LogInv(g) && LogGrows(g, h)
    ensures LogInv(h)
  {
    forall k: nat | k < |h.log|
      ensures h.log[k].0 < h.version
    {
      if k < |g.log| {
        assert h.log[..|g.log|][k] == g.log[k];
      }
    }
  }

  /** Mutations that touch neither log nor edges, and treat one node well. */
  lemma {:induction false} NodeStep(g: Graph, h: Graph)
    requires |h.nodes| == |g.nodes| && h.outEdges == g.outEdges && h.log == g.log && g.version <= h.version
    requires forall i: NodeIdx :: i < |g.nodes| ==> NodeKept(g.nodes[i], h.nodes[i])
    ensures Evolves(g, h)
  {
    assert h.log[..|g.log|] == g.log;
  }

  lemma {:induction false} BumpEvolves(g: Graph)
    ensures Evolves(g, Bump(g))
  {
    NodeStep(g, Bump(g));
  }

  lemma {:induction false} AddEdgeEvolves(g: Graph, src: NodeIdx, dst: NodeIdx, kind: EdgeType)
    requires Shape(g) && src < |g.nodes| && dst < |g.nodes|
    ensures Evolves(g, AddEdge(g, src, dst, kind))
    ensures Edge(src, dst, kind) in AddEdge(g, src, dst, kind).outEdges[src]
  {
    var h := AddEdge(g, src, dst, kind);
    assert h.log[..|g.log|] == g.log;
    forall i: NodeIdx, e | i < |g.outEdges| && e in g.outEdges[i]
      ensures e in h.outEdges[i]
    {
    }
  }

  lemma {:induction false} InvalidateEvolves(g: Graph, node: NodeIdx, includeSelf: bool)
    requires Shape(g) && node < |g.nodes|
    ensures Evolves(g, Invalidate(g, node, includeSelf))
  {
    InvalidateFrame(g, node, includeSelf);
    InvalidateLog(g, node, includeSelf);
    hide Invalidate;
    var h := Invalidate(g, node, includeSelf);
    forall i: NodeIdx | i < |g.nodes|
      ensures NodeKept(g.nodes[i], h.nodes[i])
    {
      assert h.nodes[i] == g.nodes[i] || h.nodes[i] == g.nodes[i].(status := Stale, cachedResult := None);
    }
  }

  lemma {:induction false} InvalidateLog(g: Graph, node: NodeIdx, includeSelf: bool)
    requires Shape(g) && node < |g.nodes|
    ensures LogGrows(g, Invalidate(g, node, includeSelf))
  {
    hide CascadeFrom;
    var h := Invalidate(g, node, includeSelf);
    assert h.log[..|g.log|] == g.log;
  }

  lemma {:induction false} PopsEvolves(g: Graph, n: nat)
    requires Shape(g)
    ensures Shape(Pops(g, n)) && Evolves(g, Pops(g, n))
    decreases n
  {
    hide DrainOne, Evolves, Shape;
    NodeStepSame(g);
    if n > 0 && g.pending != [] {
      DrainOneEvolves(g);
      PopsEvolves(DrainOne(g), n - 1);
      EvolvesTransitive(g, DrainOne(g), Pops(DrainOne(g), n - 1));
    }
  }

  lemma {:induction false} NodeStepSame(g: Graph)
    ensures Evolves(g, g)
  {
    NodeStep(g, g);
  }

  lemma {:induction false} DrainOneEvolves(g: Graph)
    requires Shape(g) && g.pending != []
    ensures Shape(DrainOne(g)) && Evolves(g, DrainOne(g))
  {
    hide Invalidate;
    var g1 := g.(pending := g.pending[1..]);
    assert Shape(g1);
    NodeStep(g, g1);
    InvalidateFrame(g1, g.pending[0], true);
    InvalidateEvolves(g1, g.pending[0], true);
    EvolvesTransitive(g, g1, DrainOne(g));
  }

  lemma {:induction false} MarkOrphanedEvolves(g: Graph, deps: seq<NodeId>, corrected: Option<NodeId>)
    requires Shape(g)
    ensures Evolves(g, MarkOrphaned(g, deps, corrected))
    decreases |deps|
  {
    hide Evolves, HasLiveDependent;
    NodeStepSame(g);
    if deps != [] {
      if deps[0] !in g.byId || g.nodes[g.byId[deps[0]]].kind != Evidence {
        MarkOrphanedEvolves(g, deps[1..], corrected);
      } else {
        var d := g.byId[deps[0]];
        var m := g.nodes[d].meta.(supersededSource := !HasLiveDependent(g, d));
        var m1 := if corrected.Some? then m.(correctedBy := PushNew(m.correctedBy, corrected.value)) else m;
        var g1 := SetMeta(g, d, m1);
        NodeStep(g, g1);
        MarkOrphanedEvolves(g1, deps[1..], corrected);
        EvolvesTransitive(g, g1, MarkOrphaned(g1, deps[1..], corrected));
      }
    }
  }

  lemma {:induction false} LinkDepsEvolves(g: Graph, i: NodeIdx, deps: seq<NodeId>, kind: EdgeType, live: bool)
    requires Shape(g) && i < |g.nodes|
    ensures Evolves(g, LinkDeps(g, i, deps, kind, live)) && LinkDeps(g, i, deps, kind, live).byId == g.byId
    ensures forall d :: d in deps && d in g.byId ==>
      Edge(i, g.byId[d], kind) in LinkDeps(g, i, deps, kind, live).outEdges[i]
    decreases |deps|
  {
    hide Evolves, AddEdge, SetMeta;
    NodeStepSame(g);
    EvolvesSizes(g, LinkDeps(g, i, deps, kind, live));
    if deps != [] {
      assert deps == [deps[0]] + deps[1..];
      if deps[0] !in g.byId {
        LinkDepsEvolves(g, i, deps[1..], kind, live);
      } else {
        var d := g.byId[deps[0]];
        var g1 := AddEdge(g, i, d, kind);
        AddEdgeShape(g, i, d, kind);
        AddEdgeNodes(g, i, d, kind);
        AddEdgeEvolves(g, i, d, kind);
        var m := g1.nodes[d].meta.(supersededSource := false);
        var g2 := if live then SetMeta(g1, d, m) else g1;
        UnflagEvolves(g1, d);
        NodeStepSame(g1);
        EvolvesTransitive(g, g1, g2);
        LinkDepsEvolves(g2, i, deps[1..], kind, live);
        var h := LinkDeps(g2, i, deps[1..], kind, live);
        EvolvesTransitive(g, g2, h);
        EvolvesEdge(g1, g2, i, Edge(i, d, kind));
        EvolvesEdge(g2, h, i, Edge(i, d, kind));
      }
    }
  }

  lemma {:induction false} EvolvesSizes(g: Graph, h: Graph)
    requires Shape(g) && Shape(h) && |g.nodes| == |h.nodes|
    ensures |g.outEdges| == |h.outEdges|
  {
  }

  lemma {:induction false} EvolvesEdge(g: Graph, h: Graph, i: NodeIdx, e: Edge)
    requires Evolves(g, h) && i < |g.outEdges| && e in g.outEdges[i]
    ensures i < |h.outEdges| && e in h.outEdges[i]
  {
  }

  lemma {:induction false} UnflagEvolves(g: Graph, d: NodeIdx)
    requires d < |g.nodes|
    ensures var h := SetMeta(g, d, g.nodes[d].meta.(supersededSource := false));
      Evolves(g, h) && h.byId == g.byId && |h.nodes| == |g.nodes|
  {
    NodeStep(g, SetMeta(g, d, g.nodes[d].meta.(supersededSource := false)));
  }

  lemma {:induction false} SetStatusEvolves(g: Graph, i: NodeIdx, status: Status)
    requires i < |g.nodes|
    ensures Evolves(g, SetStatus(g, i, status))
  {
    NodeStep(g, SetStatus(g, i, status));
  }

  lemma {:induction false} ResolveEvolves(g: Graph, loser: NodeIdx, winner: NodeIdx)
    requires loser < |g.nodes| && winner < |g.nodes|
    ensures Evolves(g, Resolve(g, loser, winner))
  {
    NodeStep(g, Resolve(g, loser, winner));
  }

  lemma {:induction false} SettleEvolves(g: Graph, i: NodeIdx)
    requires Shape(g) && i < |g.nodes|
    ensures Evolves(g, Settle(g, i))
  {
    NodeStepSame(g);
    SetStatusEvolves(g, i, Fresh);
    hide Evolves;
  }

  lemma {:induction false} SupersedeEvolves(g: Graph, loser: NodeIdx, winner: NodeIdx)
    requires Shape(g) && loser < |g.nodes| && winner < |g.nodes|
    ensures Evolves(g, Supersede(g, loser, winner))
  {
    hide Evolves, AddEdge, SetStatus, Resolve, Settle, Invalidate, MarkOrphaned, Bump, Shape;
    EvolvesRetire(g, loser, winner);
    var g4 := Retire(g, loser, winner);
    InvalidateFrame(g4, loser, false);
    InvalidateEvolves(g4, loser, false);
    var g5 := Invalidate(g4, loser, false);
    MarkOrphanedEvolves(g5, g5.nodes[loser].deps, g5.nodes[loser].meta.supersededBy);
    var g6 := MarkOrphaned(g5, g5.nodes[loser].deps, g5.nodes[loser].meta.supersededBy);
    BumpEvolves(g6);
    EvolvesTransitive(g, g4, g5);
    EvolvesTransitive(g, g5, g6);
    EvolvesTransitive(g, g6, Bump(g6));
  }

  lemma {:induction false} EvolvesRetire(g: Graph, loser: NodeIdx, winner: NodeIdx)
    requires Shape(g) && loser < |g.nodes| && winner < |g.nodes|
    ensures Evolves(g, Retire(g, loser, winner))
  {
    hide Evolves, AddEdge, SetStatus, Resolve, Settle, Shape;
    ShapeSizes(g);
    var g1 := AddEdge(g, winner, loser, Supersedes);
    AddEdgeNodes(g, winner, loser, Supersedes);
    AddEdgeShape(g, winner, loser, Supersedes);
    AddEdgeEvolves(g, winner, loser, Supersedes);
    var g2 := SetStatus(g1, loser, Superseded);
    SetStatusEvolves(g1, loser, Superseded);
    var g3 := Resolve(g2, loser, winner);
    ResolveEvolves(g2, loser, winner);
    SettleEvolves(g3, winner);
    EvolvesTransitive(g, g1, g2);
    EvolvesTransitive(g, g2, g3);
    EvolvesTransitive(g, g3, Settle(g3, winner));
  }

  lemma {:induction false} ContestEvolves(g: Graph, i: NodeIdx, other: NodeId)
    requires i < |g.nodes|
    ensures Evolves(g, Contest(g, i, other))
  {
    NodeStep(g, Contest(g, i, other));
  }

  lemma {:induction false} ContradictEvolves(g: Graph, a: NodeIdx, b: NodeIdx)
    requires Shape(g) && a < |g.nodes| && b < |g.nodes|
    ensures Evolves(g, Contradict(g, a, b))
  {
    hide Evolves, AddEdge, Contest, Shape;
    ShapeSizes(g);
    var g1 := AddEdge(g, a, b, Contradicts);
    AddEdgeNodes(g, a, b, Contradicts);
    AddEdgeShape(g, a, b, Contradicts);
    AddEdgeEvolves(g, a, b, Contradicts);
    var g2 := AddEdge(g1, b, a, Contradicts);
    ShapeSizes(g1);
    AddEdgeNodes(g1, b, a, Contradicts);
    AddEdgeShape(g1, b, a, Contradicts);
    AddEdgeEvolves(g1, b, a, Contradicts);
    var g3 := Contest(g2, a, g.nodes[b].id);
    ContestEvolves(g2, a, g.nodes[b].id);
    var g4 := Contest(g3, b, g.nodes[a].id);
    ContestEvolves(g3, b, g.nodes[a].id);
    EvolvesTransitive(g, g1, g2);
    EvolvesTransitive(g, g2, g3);
    EvolvesTransitive(g, g3, g4);
  }

  lemma {:induction false} ShapeSizes(g: Graph)
    requires Shape(g)
    ensures |g.outEdges| == |g.inEdges| == |g.nodes|
  {
  }

  lemma {:induction false} RevalidateEvolves(g: Graph, i: NodeIdx, now: nat)
    requires i < |g.nodes|
    ensures Evolves(g, Revalidate(g, i, now))
  {
    NodeStep(g, Revalidate(g, i, now));
  }

  // ---- upsert -------------------------------------------------------------

  /** The past after an `upsert` put a node into slot `i`. */
  ghost predicate PlacedWell(g: Graph, h: Graph, i: NodeIdx, node: Node) {
    && |g.nodes| <= |h.nodes| && i < |h.nodes| && |h.nodes| <= |g.nodes| + 1 && (|h.nodes| > |g.nodes| ==> i == |g.nodes|)
    && (node.id in g.byId <==> i < |g.nodes|)
    && EdgesGrow(g, h) && LogGrows(g, h)
    && (forall j: NodeIdx :: j < |g.nodes| && j != i ==> NodeKept(g.nodes[j], h.nodes[j]))
    && h.nodes[i].spans == node.spans && h.nodes[i].kind == node.kind && h.nodes[i].deps == node.deps
    && h.nodes[i].meta.supersededSource == node.meta.supersededSource && h.nodes[i].id == node.id
    && (node.id in g.byId ==> h.byId == g.byId && g.byId[node.id] == i)
    && (node.id !in g.byId ==> h.byId == g.byId[node.id := i])
  }

  lemma {:induction false} PlacedIsWell(g: Graph, stamped: Node)
    requires Shape(g)
    ensures var (h, i) := Placed(g, stamped); PlacedWell(g, h, i, stamped)
  {
    hide Invalidate, LogGrows;
    if stamped.id in g.byId {
      var i := g.byId[stamped.id];
      var g1 := ReplaceNode(g, i, stamped);
      ReplaceIsWell(g, i, stamped);
      if !g.nodes[i].SameFingerprint(stamped) {
        var h := Invalidate(g1, i, false);
        InvalidateEvolves(g1, i, false);
        InvalidateFrame(g1, i, false);
        LogGrowsTransitive(g, g1, h);
        forall j: NodeIdx | j < |g.nodes| && j != i
          ensures NodeKept(g.nodes[j], h.nodes[j])
        {
          assert g1.nodes[j] == g.nodes[j];
        }
      }
    } else {
      AppendIsWell(g, stamped);
    }
  }

  lemma {:induction false} ReplaceIsWell(g: Graph, i: NodeIdx, node: Node)
    requires Shape(g) && i < |g.nodes| && node.id in g.byId && g.byId[node.id] == i
    ensures PlacedWell(g, ReplaceNode(g, i, node), i, node)
  {
    var h := ReplaceNode(g, i, node);
    assert h.log[..|g.log|] == g.log;
  }

  lemma {:induction false} AppendIsWell(g: Graph, node: Node)
    requires Shape(g) && node.id !in g.byId
    ensures PlacedWell(g, InsertFresh(g, node), |g.nodes|, node)
  {
    var h := InsertFresh(g, node);
    assert h.log[..|g.log|] == g.log;
  }

  /** The steps of an accepted `upsert`: the placement, the links and the version. */
  ghost predicate Accepted(g: Graph, node: Node, g1: Graph, g2: Graph, i: NodeIdx, stamped: Node) {
    && stamped == node.(meta := stamped.meta, timestamp := stamped.timestamp)
    && stamped.meta.supersededSource == node.meta.supersededSource
    && Shape(g1) && Shape(g2) && PlacedWell(g, g1, i, stamped) && Evolves(g1, g2) && g2.byId == g1.byId
    && forall d :: d in node.deps && d in g1.byId ==> Edge(i, g1.byId[d], DependencyKind(node.kind)) in g2.outEdges[i]
  }

  lemma {:induction false} UpsertSteps(g: Graph, node: Node, knownSpans: set<string>, now: nat)
    returns (g1: Graph, g2: Graph, i: NodeIdx, stamped: Node)
    requires Shape(g) && RequireGrounding(g, node, knownSpans).None?
    ensures |g2.outEdges| == |g2.nodes| && i < |g2.nodes| && Accepted(g, node, g1, g2, i, stamped)
    ensures Upsert(g, node, knownSpans, now) == Upserted(Bump(g2), Ok(i), now + 1)
  {
    hide Placed, LinkDeps, PlacedWell, Evolves, RequireGrounding;
    stamped := node.(meta := node.meta.(grounded := true), timestamp := now + 1);
    PlacedIsWell(g, stamped);
    g1, i := Placed(g, stamped).0, Placed(g, stamped).1;
    PlacedNode(g, g1, i, stamped);
    var n := g1.nodes[i];
    g2 := LinkDeps(g1, i, n.deps, DependencyKind(n.kind), n.status != Superseded);
    LinkDepsEvolves(g1, i, n.deps, DependencyKind(n.kind), n.status != Superseded);
    EvolvesCount(g1, g2);
    ShapeSizes(g2);
  }

  lemma {:induction false} EvolvesCount(g: Graph, h: Graph)
    requires Evolves(g, h)
    ensures |g.nodes| == |h.nodes|
  {
  }

  lemma {:induction false} PlacedNode(g: Graph, h: Graph, i: NodeIdx, node: Node)
    requires PlacedWell(g, h, i, node)
    ensures h.nodes[i].deps == node.deps && h.nodes[i].kind == node.kind
  {
  }

  /**
   What an id says of a node offered to `upsert`: one built with spans has them still, and
   one with spans was built with them, or is on record.
   */
  ghost predicate IdTells(built: Built, g: Graph, node: Node)
    requires Shape(g)
  {
    && (built(node.id) ==> Witness(node))
    && (Witness(node) ==> built(node.id) || (node.id in g.byId && Claimed(g.nodes[g.byId[node.id]])))
  }

  /** The node an `upsert` accepts is grounded in the graph it leaves behind, and whatever was grounded stays so. */
  lemma {:induction false} UpsertGrounds(built: Built, g: Graph, node: Node, knownSpans: set<string>, now: nat)
    requires RootInv(built, g) && IdIndex(g) && IdTells(built, g, node)
    ensures var u := Upsert(g, node, knownSpans, now);
      && RootInv(built, u.graph)
      && (u.result.Ok? ==> Rooted(built, u.graph, u.result.value) && Grounded(u.graph, u.result.value))
      && forall j: NodeIdx :: Rooted(built, g, j) ==> Rooted(built, u.graph, j)
  {
    hide RequireGrounding, Rooted, Grounded, Accepted, Evolves, IdIndex, IdTells, Shape;
    RootShape(built, g);
    if RequireGrounding(g, node, knownSpans).None? {
      var g1, g2, i, stamped := UpsertSteps(g, node, knownSpans, now);
      AcceptedAnchors(built, g, node, g1, g2, i, stamped);
      UpsertGroundsSlot(built, g, node, knownSpans, g1, g2, i, stamped);
      UpsertGroundsRest(built, g, node, g1, g2, i, stamped);
      BumpEvolves(g2);
      EvolvesKeepsRoots(built, g2, Bump(g2));
      RootedGrounds(built, Bump(g2), i);
    }
  }

  /** Neither the placement nor what follows it takes an anchor away. */
  lemma {:induction false} AcceptedAnchors(
    built: Built, g: Graph, node: Node, g1: Graph, g2: Graph, i: NodeIdx, stamped: Node)
    requires Shape(g) && IdIndex(g) && IdTells(built, g, node) && Accepted(g, node, g1, g2, i, stamped)
    ensures Shape(g2) && AnchorsKept(built, g, g2) && EdgesGrow(g, g2) && i < |g2.nodes|
    ensures g2.nodes[i].id == node.id && (Witness(node) ==> Witness(g2.nodes[i]))
  {
    hide LogGrows, Claimed, Shape;
    forall j: NodeIdx | j < |g2.nodes|
      ensures Witness(g1.nodes[j]) ==> Witness(g2.nodes[j])
      ensures g1.nodes[j].id == g2.nodes[j].id
      ensures j < |g.nodes| && Anchored(built, g.nodes[j]) ==> Anchored(built, g2.nodes[j])
    {
      assert NodeKept(g1.nodes[j], g2.nodes[j]);
      assert j != i && j < |g.nodes| ==> NodeKept(g.nodes[j], g1.nodes[j]);
      assert j == i && j < |g.nodes| ==> g.nodes[j].id == node.id;
    }
  }

  lemma {:induction false} UpsertGroundsSlot(
    built: Built, g: Graph, node: Node, knownSpans: set<string>, g1: Graph, g2: Graph, i: NodeIdx, stamped: Node)
    requires RootInv(built, g) && IdTells(built, g, node) && RequireGrounding(g, node, knownSpans).None?
    requires Shape(g) && Accepted(g, node, g1, g2, i, stamped) && AnchorsKept(built, g, g2) && EdgesGrow(g, g2)
    requires i < |g2.nodes| && g2.nodes[i].id == node.id && (Witness(node) ==> Witness(g2.nodes[i]))
    ensures Shape(g2) && Rooted(built, g2, i)
  {
    hide Shape, PlacedWell, RequireGrounding, Claimed, RootedIn, EdgesGrow, AnchorsKept, Witness, Evolves;
    ShapeSizes(g2);
    PlacedSlot(g, g1, i, stamped);
    if Witness(node) && built(node.id) {
      AnchorIsRoot(built, g2, i);
    } else if Witness(node) {
      StaysRooted(built, g, g2, i);
    } else {
      var d := GroundingInput(built, g, node, knownSpans);
      StaysRooted(built, g, g2, g.byId[d]);
      PlacedIds(g, g1, i, stamped, d);
      DependsBy(g2, i, g.byId[d], Edge(i, g.byId[d], DependencyKind(node.kind)));
      RootedOneMore(built, g2, i, g.byId[d]);
    }
  }

  lemma {:induction false} PlacedSlot(g: Graph, h: Graph, i: NodeIdx, node: Node)
    requires PlacedWell(g, h, i, node)
    ensures node.id in g.byId ==> g.byId[node.id] == i && i < |g.nodes|
  {
  }

  lemma {:induction false} AnchorIsRoot(built: Built, g: Graph, i: NodeIdx)
    requires Shape(g) && i < |g.nodes| && Anchored(built, g.nodes[i])
    ensures Rooted(built, g, i)
  {
    assert RootedIn(built, g, i, 0);
  }

  /** A node that is not grounded on its own is accepted for an input that is grounded. */
  lemma {:induction false} GroundingInput(built: Built, g: Graph, node: Node, knownSpans: set<string>)
    returns (d: NodeId)
    requires RootInv(built, g) && Shape(g) && RequireGrounding(g, node, knownSpans).None? && !Witness(node)
    ensures d in node.deps && d in g.byId && g.byId[d] < |g.nodes| && Rooted(built, g, g.byId[d])
  {
    hide Rooted;
    d :| d in node.deps && ReachesEvidence(g, d);
    assert Claimed(g.nodes[g.byId[d]]);
  }

  lemma {:induction false} PlacedIds(g: Graph, h: Graph, i: NodeIdx, node: Node, d: NodeId)
    requires PlacedWell(g, h, i, node) && d in g.byId && g.byId[d] < |g.nodes|
    ensures d in h.byId && h.byId[d] == g.byId[d]
  {
  }

  lemma {:induction false} DependsBy(g: Graph, i: NodeIdx, j: NodeIdx, e: Edge)
    requires i < |g.outEdges| && e in g.outEdges[i] && e.kind.IsDependency() && e.dst == j
    ensures DependsOn(g, i, j)
  {
  }

  lemma {:induction false} RootedOneMore(built: Built, g: Graph, i: NodeIdx, j: NodeIdx)
    requires Shape(g) && i < |g.outEdges| && i < |g.nodes| && DependsOn(g, i, j) && Rooted(built, g, j)
    ensures Rooted(built, g, i)
  {
    hide DependsOn, Shape;
    var len: nat :| RootedIn(built, g, j, len);
    assert RootedIn(built, g, i, len + 1);
  }

  lemma {:induction false} UpsertGroundsRest(
    built: Built, g: Graph, node: Node, g1: Graph, g2: Graph, i: NodeIdx, stamped: Node)
    requires RootInv(built, g) && Shape(g) && Accepted(g, node, g1, g2, i, stamped)
    requires AnchorsKept(built, g, g2) && EdgesGrow(g, g2) && Shape(g2) && Rooted(built, g2, i)
    ensures RootInv(built, g2) && forall j: NodeIdx :: Rooted(built, g, j) ==> Rooted(built, g2, j)
  {
    hide Rooted, Shape, AnchorsKept, EdgesGrow, LogGrows;
    forall j: NodeIdx | Rooted(built, g, j) ensures Rooted(built, g2, j) {
      StaysRooted(built, g, g2, j);
    }
    forall j: NodeIdx | j < |g2.nodes| && Claimed(g2.nodes[j]) ensures Rooted(built, g2, j) {
      assert NodeKept(g1.nodes[j], g2.nodes[j]);
      assert j != i ==> NodeKept(g.nodes[j], g1.nodes[j]);
    }
  }

  lemma {:induction false} UpsertLog(g: Graph, node: Node, knownSpans: set<string>, now: nat)
    requires Shape(g)
    ensures LogGrows(g, Upsert(g, node, knownSpans, now).graph)
  {
    hide RequireGrounding, LogGrows, EdgesGrow, NodeKept, Shape;
    LogGrowsSame(g);
    if RequireGrounding(g, node, knownSpans).None? {
      var g1, g2, i, stamped := UpsertSteps(g, node, knownSpans, now);
      LogGrowsTransitive(g, g1, g2);
      BumpEvolves(g2);
      LogGrowsTransitive(g, g2, Bump(g2));
    }
  }

  lemma {:induction false} UpsertFlags(g: Graph, node: Node, knownSpans: set<string>, now: nat)
    requires Shape(g) && FlagInv(g) && (node.meta.supersededSource ==> node.kind == Evidence)
    ensures FlagInv(Upsert(g, node, knownSpans, now).graph)
  {
    hide RequireGrounding, LogGrows, EdgesGrow, Evolves, Shape;
    if RequireGrounding(g, node, knownSpans).None? {
      var g1, g2, i, stamped := UpsertSteps(g, node, knownSpans, now);
      forall j: NodeIdx | j < |g1.nodes| && g1.nodes[j].meta.supersededSource ensures g1.nodes[j].kind == Evidence {
        assert j != i ==> NodeKept(g.nodes[j], g1.nodes[j]);
      }
      EvolvesKeepsFlags(g1, g2);
      BumpEvolves(g2);
      EvolvesKeepsFlags(g2, Bump(g2));
    }
  }

  lemma {:induction false} LogGrowsSame(g: Graph)
    ensures LogGrows(g, g)
  {
    assert g.log[..|g.log|] == g.log;
  }

  // ---- nodes amended and restored -----------------------------------------

  /** Amending a node in place takes no grounding away and claims none it has not got. */
  ghost predicate AmendsWell(built: Built, a: Node, b: Node) {
    (Witness(a) ==> Witness(b)) && (Claimed(b) ==> Claimed(a) || Anchored(built, b))
  }

  lemma {:induction false} AmendKeepsRoots(built: Built, g: Graph, i: NodeIdx, node: Node)
    requires RootInv(built, g) && i < |g.nodes| && node.id == g.nodes[i].id && AmendsWell(built, g.nodes[i], node)
    ensures var h := SetNode(g, i, node);
            RootInv(built, h) && forall j: NodeIdx :: Rooted(built, g, j) ==> Rooted(built, h, j)
  {
    hide Rooted, Claimed, Witness;
    var h := SetNode(g, i, node);
    forall j: NodeIdx | Rooted(built, g, j) ensures Rooted(built, h, j) {
      StaysRooted(built, g, h, j);
    }
    forall j: NodeIdx | j < |h.nodes| && Claimed(h.nodes[j]) ensures Rooted(built, h, j) {
      if j == i && Anchored(built, node) {
        AnchorIsRoot(built, h, i);
      }
    }
  }

  lemma {:induction false} RootShape(built: Built, g: Graph)
    requires RootInv(built, g)
    ensures Shape(g)
  {
  }

  lemma {:induction false} InsertFrame(g: Graph, node: Node)
    ensures var h := InsertNode(g, node);
            && h.nodes == g.nodes + [node] && h.outEdges == g.outEdges + [[]] && EdgesGrow(g, h)
            && h.log == g.log && h.version == g.version && h.byId == g.byId[node.id := |g.nodes|]
            && LogGrows(g, h)
  {
    assert g.log[..|g.log|] == g.log;
  }

  lemma {:induction false} RestoreKeepsRoots(built: Built, g: Graph, node: Node)
    requires RootInv(built, g)
    ensures var h := InsertNode(g, node);
            && Shape(h) && (forall j: NodeIdx :: Rooted(built, g, j) ==> Rooted(built, h, j))
            && ((Claimed(node) ==> Anchored(built, node)) ==> RootInv(built, h))
  {
    hide Rooted, Claimed, Shape, InsertNode;
    RootShape(built, g);
    InsertShape(g, node);
    InsertFrame(g, node);
    var h := InsertNode(g, node);
    forall j: NodeIdx | Rooted(built, g, j) ensures Rooted(built, h, j) {
      StaysRooted(built, g, h, j);
    }
    forall j: NodeIdx | j < |h.nodes| && Claimed(h.nodes[j]) && (Claimed(node) ==> Anchored(built, node))
      ensures Rooted(built, h, j)
    {
      if j == |g.nodes| {
        AnchorIsRoot(built, h, j);
      } else {
        assert h.nodes[j] == g.nodes[j];
      }
    }
  }

  /**
   A node restored alone has no edges yet: it keeps the invariant exactly when it claims no
   grounding it does not bring.  A whole graph comes back without that (`GraphLives`).
   */
  lemma {:induction false} RestoreKeepsRootsIff(built: Built, g: Graph, node: Node)
    requires RootInv(built, g)
    ensures RootInv(built, InsertNode(g, node)) <==> (Claimed(node) ==> Anchored(built, node))
  {
    hide Claimed, Anchored, RootInv;
    RootShape(built, g);
    InsertFrame(g, node);
    RestoreKeepsRoots(built, g, node);
    if RootInv(built, InsertNode(g, node)) {
      LoneNode(built, InsertNode(g, node), |g.nodes|);
    }
  }

  /** A node without edges is grounded by itself or not at all. */
  lemma {:induction false} LoneNode(built: Built, h: Graph, i: NodeIdx)
    requires RootInv(built, h) && i < |h.nodes| && i < |h.outEdges| && h.outEdges[i] == []
    ensures Claimed(h.nodes[i]) ==> Anchored(built, h.nodes[i])
  {
    hide Claimed, Anchored, Shape;
    if Claimed(h.nodes[i]) {
      var len: nat :| RootedIn(built, h, i, len);
    }
  }

  // ---- mutations ----------------------------------------------------------

  /** Every mutation, whatever its arguments, only ever extends the log. */
  lemma {:induction false} ApplyKeepsLog(w: World, op: Op)
    requires Shape(w.graph) && Admissible(w, op)
    ensures LogGrows(w.graph, Apply(w, op).graph)
  {
    hide LogGrows, NodeKept, EdgesGrow, Upsert, InsertNode, AddEdge, Supersede, Contradict, Invalidate, Pops,
      Revalidate, Shape;
    var g := w.graph;
    match op
    case UpsertOp(node, known) => UpsertLog(g, node, known, w.now);
    case RestoreOp(node) => InsertFrame(g, node);
    case EdgeOp(src, dst, kind) => AddEdgeEvolves(g, src, dst, kind);
    case SupersedeOp(loser, winner) => SupersedeEvolves(g, loser, winner);
    case ContradictOp(a, b) => ContradictEvolves(g, a, b);
    case InvalidateOp(i, includeSelf) => InvalidateEvolves(g, i, includeSelf);
    case DrainOp(limit) => PopsEvolves(g, if limit < |g.pending| then limit else |g.pending|);
    case RevalidateOp(i) => RevalidateEvolves(g, i, w.now);
    case AmendOp(i, node) => SameLog(g, SetNode(g, i, node));
  }

  lemma {:induction false} SameLog(g: Graph, h: Graph)
    requires h.log == g.log && h.version == g.version
    ensures LogGrows(g, h)
  {
    assert h.log[..|g.log|] == g.log;
  }

  /** Nodes that come in from outside are flagged only if they are evidence. */
  ghost predicate FlagsHonestly(w: World, op: Op) {
    match op
    case UpsertOp(node, _) => node.meta.supersededSource ==> node.kind == Evidence
    case RestoreOp(node) => node.meta.supersededSource ==> node.kind == Evidence
    case AmendOp(i, node) => i < |w.graph.nodes| && FlagKept(w.graph.nodes[i], node)
    case _ => true
  }

  /** Then only evidence is ever flagged. */
  lemma {:induction false} ApplyKeepsFlags(w: World, op: Op)
    requires Shape(w.graph) && FlagInv(w.graph) && Admissible(w, op) && FlagsHonestly(w, op)
    ensures FlagInv(Apply(w, op).graph)
  {
    hide Evolves, FlagInv, Upsert, InsertNode, AddEdge, Supersede, Contradict, Invalidate, Pops, Revalidate, Shape;
    var g := w.graph;
    match op
    case UpsertOp(node, known) => UpsertFlags(g, node, known, w.now);
    case RestoreOp(node) =>
      InsertFrame(g, node);
      InsertFlags(g, Apply(w, op).graph, node);
    case AmendOp(i, node) => AmendFlags(g, i, node);
    case _ =>
      OthersEvolve(w, op);
      EvolvesKeepsFlags(g, Apply(w, op).graph);
  }

  lemma {:induction false} InsertFlags(g: Graph, h: Graph, node: Node)
    requires FlagInv(g) && h.nodes == g.nodes + [node] && (node.meta.supersededSource ==> node.kind == Evidence)
    ensures FlagInv(h)
  {
  }

  lemma {:induction false} AmendFlags(g: Graph, i: NodeIdx, node: Node)
    requires FlagInv(g) && i < |g.nodes| && FlagKept(g.nodes[i], node)
    ensures FlagInv(SetNode(g, i, node))
  {
  }

  /** The mutations that bring no node in. */
  lemma {:induction false} OthersEvolve(w: World, op: Op)
    requires Shape(w.graph) && Admissible(w, op) && !op.UpsertOp? && !op.RestoreOp? && !op.AmendOp?
    ensures Evolves(w.graph, Apply(w, op).graph)
  {
    hide Evolves, AddEdge, Supersede, Contradict, Invalidate, Pops, Revalidate, Shape;
    var g := w.graph;
    match op
    case EdgeOp(src, dst, kind) => AddEdgeEvolves(g, src, dst, kind);
    case SupersedeOp(loser, winner) => SupersedeEvolves(g, loser, winner);
    case ContradictOp(a, b) => ContradictEvolves(g, a, b);
    case InvalidateOp(i, includeSelf) => InvalidateEvolves(g, i, includeSelf);
    case DrainOp(limit) => PopsEvolves(g, if limit < |g.pending| then limit else |g.pending|);
    case RevalidateOp(i) => RevalidateEvolves(g, i, w.now);
  }

  /** Ids tell how nodes were built, and amending a node in place leaves its grounding alone. */
  ghost predicate Honest(built: Built, w: World, op: Op)
    requires Shape(w.graph)
  {
    match op
    case UpsertOp(node, _) => IdTells(built, w.graph, node)
    case RestoreOp(node) => Claimed(node) ==> Anchored(built, node)
    case AmendOp(i, node) => i < |w.graph.nodes| && AmendsWell(built, w.graph.nodes[i], node)
    case _ => true
  }

  /** Then every mutation keeps what the program believes grounded so, and no node loses its grounding. */
  lemma {:induction false} ApplyKeepsRoots(built: Built, w: World, op: Op)
    requires RootInv(built, w.graph) && IdIndex(w.graph) && Shape(w.graph) && Admissible(w, op) && Honest(built, w, op)
    requires Shape(Apply(w, op).graph)
    ensures RootInv(built, Apply(w, op).graph)
    ensures forall j: NodeIdx :: Rooted(built, w.graph, j) ==> Rooted(built, Apply(w, op).graph, j)
  {
    hide Evolves, RootInv, Rooted, IdIndex, IdTells, AmendsWell, Upsert, InsertNode, AddEdge, Supersede, Contradict,
      Invalidate, Pops, Revalidate, SetNode, Shape, Claimed, Anchored;
    var g := w.graph;
    match op
    case UpsertOp(node, known) => UpsertGrounds(built, g, node, known, w.now);
    case RestoreOp(node) => RestoreKeepsRoots(built, g, node);
    case AmendOp(i, node) => AmendKeepsRoots(built, g, i, node);
    case _ =>
      OthersEvolve(w, op);
      EvolvesKeepsRoots(built, g, Apply(w, op).graph);
  }

  lemma {:induction false} EmptyKeeps(built: Built)
    ensures RootInv(built, EmptyGraph) && FlagInv(EmptyGraph) && LogInv(EmptyGraph)
  {
  }
}
