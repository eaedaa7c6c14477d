/**
 What a revision does to the nodes that rest on the revised one (src/graph.rs), in terms
 of edges, the log and the fields of the nodes alone.
 */
module RevisionTheory {
  import opened Wrappers
  import opened Nodes
  import opened GraphSpec
  import opened CascadeTheory
  import Chars
  import GraphIndex
  import H = GraphHistory

  /** A dependency edge leads from `x` to `i`. */
  ghost predicate RestsOn(g: Graph, x: NodeIdx, i: NodeIdx) {
    i < |g.inEdges| && exists e: Edge :: e in g.inEdges[i] && e.src == x && (e.kind == Supports || e.kind == DerivedFrom)
  }

  /** A chain of `len` such edges does. */
  ghost predicate RestsAt(g: Graph, x: NodeIdx, i: NodeIdx, len: nat)
    decreases len
  {
    if len == 0 then x == i
    else exists y: NodeIdx :: RestsOn(g, x, y) && RestsAt(g, y, i, len - 1)
  }

  /** Since the version `v` the node was marked, or it waits to be. */
  ghost predicate Noticed(h: Graph, v: nat, x: NodeIdx) {
    x in InvalidatedSince(h, v) || x in h.pending
  }

  ghost predicate StaleNow(n: Node) {
    n.status == Stale && n.cachedResult == None
  }

  // ---- one cascade --------------------------------------------------------

  lemma {:induction false} RestsOnIs(g: Graph, x: NodeIdx, i: NodeIdx)
    requires i < |g.inEdges|
    ensures RestsOn(g, x, i) <==> x in Dependents(g, i)
  {
    DependencySourcesAre(g.inEdges[i], x);
  }

  lemma {:induction false} InvalidateLogs(g: Graph, node: NodeIdx, includeSelf: bool, v: nat, x: NodeIdx)
    requires Shape(g) && node < |g.nodes| && v <= g.version
    ensures var h := Invalidate(g, node, includeSelf);
      && (x in InvalidatedSince(h, v) <==>
          x in InvalidatedSince(g, v) || x in CascadeFrom(g, node, includeSelf).marked)
      && (x in h.pending <==> x in g.pending || x in CascadeFrom(g, node, includeSelf).deferred)
  {
    hide CascadeFrom;
    var h := Invalidate(g, node, includeSelf);
    var c := CascadeFrom(g, node, includeSelf);
    if c.marked != [] {
      assert h.log == g.log + [(g.version, c.marked)];
      assert h.log[|g.log|] == (g.version, c.marked);
      assert forall k :: 0 <= k < |g.log| ==> h.log[k] == g.log[k];
    } else {
      assert h.log == g.log;
    }
  }

  /** Whatever rests on the changed node directly is noticed. */
  lemma {:induction false} InvalidateReaches(g: Graph, node: NodeIdx, v: nat, x: NodeIdx)
    requires Shape(g) && node < |g.nodes| && v <= g.version
    requires x < |g.nodes| && g.nodes[x].status != Superseded && RestsOn(g, x, node)
    ensures Noticed(Invalidate(g, node, false), v, x)
  {
    hide CascadeFrom, Invalidate, RestsOn, InvalidatedSince, MarkedSoundly, ArrivesSomehow;
    RestsOnIs(g, x, node);
    InvalidateBounded(g, node, false);
    InvalidateLogs(g, node, false, v, x);
    assert x in Starts(g, node, false);
  }

  lemma {:induction false} QuietBefore(g: Graph, x: NodeIdx)
    requires H.LogInv(g)
    ensures x !in InvalidatedSince(g, g.version)
  {
  }

  /** What a cascade marks goes stale unless it is evidence, and nothing else changes. */
  lemma {:induction false} InvalidateMarks(g: Graph, node: NodeIdx, includeSelf: bool, v: nat, x: NodeIdx)
    requires Shape(g) && node < |g.nodes| && v <= g.version && x < |g.nodes| && x !in InvalidatedSince(g, v)
    ensures var h := Invalidate(g, node, includeSelf);
      && |h.nodes| == |g.nodes|
      && (x in InvalidatedSince(h, v) ==> g.nodes[x].status != Superseded && h.nodes[x].kind == g.nodes[x].kind)
      && (x in InvalidatedSince(h, v) && g.nodes[x].kind != Evidence ==> StaleNow(h.nodes[x]))
      && (x !in InvalidatedSince(h, v) || g.nodes[x].kind == Evidence ==> h.nodes[x] == g.nodes[x])
  {
    hide CascadeFrom, InvalidatedSince;
    InvalidateLogs(g, node, includeSelf, v, x);
    MarkedAreLive(g, node, includeSelf, x);
  }

  lemma {:induction false} MarkedAreLive(g: Graph, node: NodeIdx, includeSelf: bool, x: NodeIdx)
    requires Shape(g) && node < |g.nodes| && x < |g.nodes|
    ensures x in CascadeFrom(g, node, includeSelf).marked ==> g.nodes[x].status != Superseded
  {
    hide Walk;
    WalkInRange(g, StartState(g, node, includeSelf));
  }

  lemma {:induction false} ReachedRests(g: Graph, node: NodeIdx, x: NodeIdx, len: nat)
    requires Shape(g) && node < |g.nodes| && ReachIn(g, Dependents(g, node), x, len)
    ensures RestsAt(g, x, node, len + 1)
    decreases len
  {
    hide RestsOn, Dependents;
    if len == 0 {
      RestsOnIs(g, x, node);
      assert RestsAt(g, node, node, 0);
    } else {
      var y: nat :| y < |g.nodes| && ReachIn(g, Dependents(g, node), y, len - 1) && x in Dependents(g, y);
      ReachedRests(g, node, y, len - 1);
      RestsOnIs(g, x, y);
    }
  }

  /** What is marked rests on the changed node, within the depth limit. */
  lemma {:induction false} InvalidateOnly(g: Graph, node: NodeIdx, v: nat, x: NodeIdx)
    requires Shape(g) && node < |g.nodes| && v <= g.version && x !in InvalidatedSince(g, v)
    requires x in InvalidatedSince(Invalidate(g, node, false), v)
    ensures exists len: nat :: 0 < len <= g.maxDepth && RestsAt(g, x, node, len)
  {
    hide CascadeFrom, Invalidate, RestsAt, InvalidatedSince, ReachIn, ArrivesSomehow;
    InvalidateLogs(g, node, false, v, x);
    InvalidateBounded(g, node, false);
    var marked := CascadeFrom(g, node, false).marked;
    var k :| 0 <= k < |marked| && marked[k] == x;
    assert MarkedSoundly(g, Starts(g, node, false), marked[k], 1);
    var len: nat :| len + 1 <= g.maxDepth && ReachIn(g, Starts(g, node, false), x, len);
    ReachedRests(g, node, x, len);
  }

  // ---- supersession -------------------------------------------------------

  /** Only statuses, successors and warnings of the two nodes change, and an edge that is no dependency is added. */
  ghost predicate RetiredFrom(g: Graph, h: Graph, loser: NodeIdx, winner: NodeIdx) {
    && Shape(g) && Shape(h) && |h.nodes| == |g.nodes| && loser < |g.nodes| && winner < |g.nodes|
    && h.log == g.log && h.pending == g.pending && h.version >= g.version && h.byId == g.byId
    && h.maxDepth == g.maxDepth && (forall x: NodeIdx, i: NodeIdx :: RestsOn(h, x, i) <==> RestsOn(g, x, i))
    && h.nodes[loser].status == Superseded && h.nodes[loser].meta.supersededBy == Some(g.nodes[winner].id)
    && (forall x: NodeIdx :: x < |g.nodes| && x != loser ==> SameButWarnings(g.nodes[x], h.nodes[x], x == winner))
    && h.nodes[loser].deps == g.nodes[loser].deps && h.nodes[loser].kind == g.nodes[loser].kind
    && h.nodes[loser].meta.supersededSource == g.nodes[loser].meta.supersededSource
  }

  /** The winner of a dispute may become fresh; nobody else's status changes. */
  ghost predicate SameButWarnings(a: Node, b: Node, winner: bool) {
    && b == a.(status := b.status, meta := b.meta) && a.meta.supersededSource == b.meta.supersededSource
    && (b.status == a.status || (winner && a.status == Contradicted && b.status == Fresh))
  }

  lemma {:induction false} SupersedesIsNoSupport(g: Graph, src: NodeIdx, dst: NodeIdx, x: NodeIdx, i: NodeIdx)
    requires Shape(g) && src < |g.nodes| && dst < |g.nodes|
    ensures RestsOn(AddEdge(g, src, dst, Supersedes), x, i) <==> RestsOn(g, x, i)
  {
    var h := AddEdge(g, src, dst, Supersedes);
    if RestsOn(g, x, i) {
      var e: Edge :| e in g.inEdges[i] && e.src == x && (e.kind == Supports || e.kind == DerivedFrom);
      assert e in h.inEdges[i];
    }
  }

  lemma {:induction false} RetireIs(g: Graph, loser: NodeIdx, winner: NodeIdx)
    requires Shape(g) && loser < |g.nodes| && winner < |g.nodes|
    ensures RetiredFrom(g, Retire(g, loser, winner), loser, winner)
  {
    hide RestsOn, Resolve, Settle, SetStatus, AddEdge, Shape, SameButWarnings;
    H.ShapeSizes(g);
    var g1 := AddEdge(g, winner, loser, Supersedes);
    AddEdgeShape(g, winner, loser, Supersedes);
    AddEdgeFrame(g, winner, loser, Supersedes);
    forall x: NodeIdx, i: NodeIdx ensures RestsOn(g1, x, i) <==> RestsOn(g, x, i) {
      SupersedesIsNoSupport(g, winner, loser, x, i);
    }
    var h := Retire(g, loser, winner);
    SettledNodes(g1, loser, winner);
    forall x: NodeIdx, i: NodeIdx ensures RestsOn(h, x, i) <==> RestsOn(g1, x, i) {
      SameEdgesRest(g1, h, x, i);
    }
  }

  lemma {:induction false} AddEdgeFrame(g: Graph, src: NodeIdx, dst: NodeIdx, kind: EdgeType)
    requires src < |g.outEdges| && dst < |g.inEdges|
    ensures var h := AddEdge(g, src, dst, kind);
      && h == g.(outEdges := h.outEdges, inEdges := h.inEdges, version := h.version) && h.version >= g.version
      && |h.outEdges| == |g.outEdges| && |h.inEdges| == |g.inEdges|
  {
  }

  lemma {:induction false} SettledNodes(g: Graph, loser: NodeIdx, winner: NodeIdx)
    requires Shape(g) && loser < |g.nodes| && winner < |g.nodes|
    ensures var h := Settle(Resolve(SetStatus(g, loser, Superseded), loser, winner), winner);
      && h == g.(nodes := h.nodes, liveByKey := h.liveByKey) && |h.nodes| == |g.nodes|
      && h.nodes[loser].status == Superseded && h.nodes[loser].meta.supersededBy == Some(g.nodes[winner].id)
      && h.nodes[loser].deps == g.nodes[loser].deps && h.nodes[loser].kind == g.nodes[loser].kind
      && h.nodes[loser].meta.supersededSource == g.nodes[loser].meta.supersededSource
      && (forall x: NodeIdx :: x < |g.nodes| && x != loser ==> SameButWarnings(g.nodes[x], h.nodes[x], x == winner))
  {
    hide WithoutId, Shape, SetStatus, Settle;
    IdsInRange(g);
    var g1 := SetStatus(g, loser, Superseded);
    var g2 := Resolve(g1, loser, winner);
    SettleFrame(g2, winner);
  }

  lemma {:induction false} IdsInRange(g: Graph)
    requires Shape(g)
    ensures forall id :: id in g.byId ==> g.byId[id] < |g.nodes|
  {
  }

  lemma {:induction false} SettleFrame(g: Graph, i: NodeIdx)
    requires i < |g.nodes| && forall id :: id in g.byId ==> g.byId[id] < |g.nodes|
    ensures var h := Settle(g, i);
      && h == g.(nodes := h.nodes, liveByKey := h.liveByKey) && |h.nodes| == |g.nodes|
      && (forall x: NodeIdx :: x < |g.nodes| && x != i ==> h.nodes[x] == g.nodes[x])
      && h.nodes[i] == g.nodes[i].(status := h.nodes[i].status)
      && (h.nodes[i].status == g.nodes[i].status || (g.nodes[i].status == Contradicted && h.nodes[i].status == Fresh))
  {
    hide SetStatus;
  }

  lemma {:induction false} SameEdgesRest(g: Graph, h: Graph, x: NodeIdx, i: NodeIdx)
    requires g.inEdges == h.inEdges
    ensures RestsOn(h, x, i) <==> RestsOn(g, x, i)
  {
  }

  /** The same node but for its flag and the corrections it points at. */
  ghost predicate Flags(a: Node, b: Node) {
    b == a.(meta := a.meta.(supersededSource := b.meta.supersededSource, correctedBy := b.meta.correctedBy))
  }

  lemma {:induction false} FlagsSame(nodes: seq<Node>)
    ensures forall i: NodeIdx :: i < |nodes| ==> Flags(nodes[i], nodes[i])
  {
  }

  lemma {:induction false} FlagsTwice(a: Node, b: Node, c: Node)
    requires Flags(a, b) && Flags(b, c)
    ensures Flags(a, c)
  {
  }

  lemma {:induction false} FlagsOf(n: Node, m: Meta)
    requires m == n.meta.(supersededSource := m.supersededSource, correctedBy := m.correctedBy)
    ensures Flags(n, n.(meta := m))
  {
  }

  /** Flagging evidence touches nothing else. */
  lemma {:induction false} MarkOrphanedFrame(g: Graph, deps: seq<NodeId>, corrected: Option<NodeId>)
    requires Shape(g)
    ensures var h := MarkOrphaned(g, deps, corrected);
      && h == g.(nodes := h.nodes) && |h.nodes| == |g.nodes|
      && forall i: NodeIdx :: i < |g.nodes| ==> Flags(g.nodes[i], h.nodes[i])
    decreases |deps|
  {
    hide HasLiveDependent, Shape, Flags;
    FlagsSame(g.nodes);
    if deps != [] && deps[0] !in g.byId {
      MarkOrphanedFrame(g, deps[1..], corrected);
    } else if deps != [] {
      GraphIndex.ByIdInRange(g, deps[0]);
      var d := g.byId[deps[0]];
      if g.nodes[d].kind != Evidence {
        MarkOrphanedFrame(g, deps[1..], corrected);
      } else {
        var m := g.nodes[d].meta.(supersededSource := !HasLiveDependent(g, d));
        var m1 := if corrected.Some? then m.(correctedBy := PushNew(m.correctedBy, corrected.value)) else m;
        var g1 := SetMeta(g, d, m1);
        FlagsOf(g.nodes[d], m1);
        MarkOrphanedFrame(g1, deps[1..], corrected);
        var h := MarkOrphaned(g1, deps[1..], corrected);
        forall i: NodeIdx | i < |g.nodes| ensures Flags(g.nodes[i], h.nodes[i]) {
          FlagsTwice(g.nodes[i], g1.nodes[i], h.nodes[i]);
        }
      }
    }
  }

  /**
   What rests on a superseded node is noticed: whoever depends on it directly and is not
   superseded is marked by the call or waits to be marked.
   */
  lemma {:induction false} SupersedeReaches(g: Graph, loser: NodeIdx, winner: NodeIdx, x: NodeIdx)
    requires Shape(g) && loser < |g.nodes| && winner < |g.nodes| && x < |g.nodes| && x != loser
    requires g.nodes[x].status != Superseded && RestsOn(g, x, loser)
    ensures Noticed(Supersede(g, loser, winner), g.version, x)
  {
    hide RestsOn, Invalidate, Retire, InvalidatedSince, MarkOrphaned, Shape;
    RetireIs(g, loser, winner);
    var g1 := Retire(g, loser, winner);
    assert RestsOn(g1, x, loser);
    assert SameButWarnings(g.nodes[x], g1.nodes[x], x == winner);
    InvalidateReaches(g1, loser, g.version, x);
    InvalidateFrame(g1, loser, false);
    var g2 := Invalidate(g1, loser, false);
    MarkOrphanedFrame(g2, g2.nodes[loser].deps, g2.nodes[loser].meta.supersededBy);
    SameLogSince(g2, Supersede(g, loser, winner), g.version);
  }

  lemma {:induction false} SameLogSince(g: Graph, h: Graph, v: nat)
    requires g.log == h.log
    ensures InvalidatedSince(g, v) == InvalidatedSince(h, v)
  {
  }

  /**
   And of the call's own marks: the loser is superseded and names its successor, marked
   nodes are stale and hold no result unless they are evidence, and every other node keeps
   its status but for a winner whose dispute it ends.
   */
  lemma {:induction false} SupersedeMarks(g: Graph, loser: NodeIdx, winner: NodeIdx, x: NodeIdx)
    requires Shape(g) && H.LogInv(g) && loser < |g.nodes| && winner < |g.nodes| && x < |g.nodes|
    ensures var h := Supersede(g, loser, winner);
      var marked := x in InvalidatedSince(h, g.version);
      && (marked ==> x != loser && g.nodes[x].status != Superseded)
      && (x == loser ==> h.nodes[x].status == Superseded && h.nodes[x].meta.supersededBy == Some(g.nodes[winner].id))
      && (marked && g.nodes[x].kind != Evidence ==> StaleNow(h.nodes[x]))
      && (x != loser && (!marked || g.nodes[x].kind == Evidence) ==>
            && h.nodes[x].cachedResult == g.nodes[x].cachedResult
            && (h.nodes[x].status == g.nodes[x].status ||
                (x == winner && g.nodes[x].status == Contradicted && h.nodes[x].status == Fresh)))
  {
    hide RestsOn, Invalidate, Retire, InvalidatedSince, MarkOrphaned, Shape;
    RetireIs(g, loser, winner);
    QuietBefore(g, x);
    var g1 := Retire(g, loser, winner);
    SameLogSince(g, g1, g.version);
    assert x != loser ==> SameButWarnings(g.nodes[x], g1.nodes[x], x == winner);
    InvalidateMarks(g1, loser, false, g.version, x);
    InvalidateFrame(g1, loser, false);
    var g2 := Invalidate(g1, loser, false);
    var h := Supersede(g, loser, winner);
    MarkOrphanedFrame(g2, g2.nodes[loser].deps, g2.nodes[loser].meta.supersededBy);
    assert Flags(g2.nodes[x], h.nodes[x]);
    SameLogSince(g2, h, g.version);
  }

  lemma {:induction false} RestsAlike(g: Graph, h: Graph, x: NodeIdx, i: NodeIdx, len: nat)
    requires (forall a: NodeIdx, b: NodeIdx :: RestsOn(h, a, b) <==> RestsOn(g, a, b)) && RestsAt(h, x, i, len)
    ensures RestsAt(g, x, i, len)
    decreases len
  {
    hide RestsOn;
    if len > 0 {
      var y: NodeIdx :| RestsOn(h, x, y) && RestsAt(h, y, i, len - 1);
      RestsAlike(g, h, y, i, len - 1);
    }
  }

  /** Nothing is marked that does not rest on the loser, directly or through others. */
  lemma {:induction false} SupersedeOnly(g: Graph, loser: NodeIdx, winner: NodeIdx, x: NodeIdx)
    requires Shape(g) && H.LogInv(g) && loser < |g.nodes| && winner < |g.nodes|
    requires x in InvalidatedSince(Supersede(g, loser, winner), g.version)
    ensures exists len: nat :: 0 < len <= g.maxDepth && RestsAt(g, x, loser, len)
  {
    hide RestsOn, RestsAt, Invalidate, Retire, InvalidatedSince, MarkOrphaned, Shape, SameButWarnings;
    RetireIs(g, loser, winner);
    QuietBefore(g, x);
    var g1 := Retire(g, loser, winner);
    SameLogSince(g, g1, g.version);
    InvalidateFrame(g1, loser, false);
    var g2 := Invalidate(g1, loser, false);
    MarkOrphanedFrame(g2, g2.nodes[loser].deps, g2.nodes[loser].meta.supersededBy);
    SameLogSince(g2, Supersede(g, loser, winner), g.version);
    InvalidateOnly(g1, loser, g.version, x);
    var len: nat :| 0 < len <= g1.maxDepth && RestsAt(g1, x, loser, len);
    RestsAlike(g, g1, x, loser, len);
  }

  // ---- orphaned evidence --------------------------------------------------

  /** Evidence on record under one of the ids. */
  ghost predicate Behind(g: Graph, ids: seq<NodeId>, d: NodeIdx) {
    d < |g.nodes| && g.nodes[d].kind == Evidence && exists id :: id in ids && id in g.byId && g.byId[id] == d
  }

  /** Somebody who is not superseded depends on it. */
  ghost predicate Upheld(g: Graph, d: NodeIdx) {
    exists x: NodeIdx :: x < |g.nodes| && RestsOn(g, x, d) && g.nodes[x].status != Superseded
  }

  lemma {:induction false} UpheldIs(g: Graph, d: NodeIdx)
    requires Shape(g) && d < |g.nodes|
    ensures Upheld(g, d) <==> HasLiveDependent(g, d)
  {
    if HasLiveDependent(g, d) {
      var e :| e in g.inEdges[d] && e.kind.IsDependency() && !IsSuperseded(g, e.src);
      assert RestsOn(g, e.src, d);
    }
    if Upheld(g, d) {
      var x: NodeIdx :| x < |g.nodes| && RestsOn(g, x, d) && g.nodes[x].status != Superseded;
      var e: Edge :| e in g.inEdges[d] && e.src == x && (e.kind == Supports || e.kind == DerivedFrom);
      assert !IsSuperseded(g, e.src);
    }
  }

  lemma {:induction false} UpheldFrame(g: Graph, h: Graph, d: NodeIdx)
    requires g.inEdges == h.inEdges && |g.nodes| == |h.nodes|
    requires forall x: NodeIdx :: x < |g.nodes| ==> (g.nodes[x].status == Superseded <==> h.nodes[x].status == Superseded)
    ensures Upheld(g, d) <==> Upheld(h, d)
  {
    hide RestsOn;
    forall x: NodeIdx ensures RestsOn(g, x, d) <==> RestsOn(h, x, d) {
      SameEdgesRest(g, h, x, d);
    }
  }

  /** Evidence behind the ids is flagged exactly when nothing live upholds it, and points at the correction. */
  lemma {:induction false} OrphansFlagged(g: Graph, ids: seq<NodeId>, corrected: Option<NodeId>, d: NodeIdx)
    requires Shape(g) && d < |g.nodes|
    ensures var h := MarkOrphaned(g, ids, corrected);
      && (Behind(g, ids, d) ==>
            && (h.nodes[d].meta.supersededSource <==> !Upheld(g, d))
            && (corrected.Some? ==> corrected.value in h.nodes[d].meta.correctedBy))
      && (!Behind(g, ids, d) ==> h.nodes[d] == g.nodes[d])
    decreases |ids|
  {
    hide HasLiveDependent, Upheld, Shape, Flags;
    if ids != [] {
      assert ids == [ids[0]] + ids[1..];
      if ids[0] !in g.byId {
        OrphansFlagged(g, ids[1..], corrected, d);
      } else {
        OrphanFlagged(g, ids, corrected, d);
      }
    }
  }

  lemma {:induction false} OrphanFlagged(g: Graph, ids: seq<NodeId>, corrected: Option<NodeId>, d: NodeIdx)
    requires Shape(g) && d < |g.nodes| && ids != [] && ids[0] in g.byId
    ensures var h := MarkOrphaned(g, ids, corrected);
      && (Behind(g, ids, d) ==>
            && (h.nodes[d].meta.supersededSource <==> !Upheld(g, d))
            && (corrected.Some? ==> corrected.value in h.nodes[d].meta.correctedBy))
      && (!Behind(g, ids, d) ==> h.nodes[d] == g.nodes[d])
    decreases |ids|, 0
  {
    hide HasLiveDependent, Upheld, Shape, Flags;
    assert ids == [ids[0]] + ids[1..];
    GraphIndex.ByIdInRange(g, ids[0]);
    var c := g.byId[ids[0]];
    if g.nodes[c].kind != Evidence {
      OrphansFlagged(g, ids[1..], corrected, d);
    } else {
      var m := g.nodes[c].meta.(supersededSource := !HasLiveDependent(g, c));
      var m1 := if corrected.Some? then m.(correctedBy := PushNew(m.correctedBy, corrected.value)) else m;
      var g1 := SetMeta(g, c, m1);
      UpheldIs(g, c);
      UpheldFrame(g, g1, d);
      OrphansFlagged(g1, ids[1..], corrected, d);
    }
  }

  /**
   After a supersession the evidence behind the loser is flagged exactly when nobody but
   the loser and the superseded depends on it, and points at the winner; no other flag moves.
   */
  lemma {:induction false} SupersedeFlags(g: Graph, loser: NodeIdx, winner: NodeIdx, d: NodeIdx)
    requires Shape(g) && loser < |g.nodes| && winner < |g.nodes| && d < |g.nodes|
    ensures var h := Supersede(g, loser, winner);
      && (Behind(g, g.nodes[loser].deps, d) ==>
            && (h.nodes[d].meta.supersededSource <==>
                !exists x: NodeIdx ::
                  x < |g.nodes| && x != loser && RestsOn(g, x, d) && g.nodes[x].status != Superseded)
            && g.nodes[winner].id in h.nodes[d].meta.correctedBy)
      && (!Behind(g, g.nodes[loser].deps, d) ==>
            h.nodes[d].meta.supersededSource == g.nodes[d].meta.supersededSource)
  {
    hide RestsOn, Invalidate, Retire, MarkOrphaned, Shape, Flags, Behind, Upheld;
    RetireIs(g, loser, winner);
    var g1 := Retire(g, loser, winner);
    InvalidateFrame(g1, loser, false);
    var g2 := Invalidate(g1, loser, false);
    assert g2.nodes[loser].deps == g.nodes[loser].deps;
    assert g2.nodes[loser].meta.supersededBy == Some(g.nodes[winner].id);
    OrphansFlagged(g2, g2.nodes[loser].deps, g2.nodes[loser].meta.supersededBy, d);
    RetiredUpholds(g, g1, loser, winner, d);
    UpheldFrame(g1, g2, d);
    RetiredBehind(g, g2, g.nodes[loser].deps, d);
  }

  lemma {:induction false} RetiredBehind(g: Graph, h: Graph, ids: seq<NodeId>, d: NodeIdx)
    requires g.byId == h.byId && |g.nodes| == |h.nodes| && (d < |g.nodes| ==> h.nodes[d].kind == g.nodes[d].kind)
    ensures Behind(g, ids, d) <==> Behind(h, ids, d)
  {
  }

  lemma {:induction false} RetiredUpholds(g: Graph, h: Graph, loser: NodeIdx, winner: NodeIdx, d: NodeIdx)
    requires RetiredFrom(g, h, loser, winner)
    ensures Upheld(h, d) <==>
      exists x: NodeIdx :: x < |g.nodes| && x != loser && RestsOn(g, x, d) && g.nodes[x].status != Superseded
  {
    hide RestsOn, Shape;
    if Upheld(h, d) {
      var x: NodeIdx :| x < |h.nodes| && RestsOn(h, x, d) && h.nodes[x].status != Superseded;
      assert SameButWarnings(g.nodes[x], h.nodes[x], x == winner);
    }
    if exists x: NodeIdx :: x < |g.nodes| && x != loser && RestsOn(g, x, d) && g.nodes[x].status != Superseded {
      var x: NodeIdx :| x < |g.nodes| && x != loser && RestsOn(g, x, d) && g.nodes[x].status != Superseded;
      assert SameButWarnings(g.nodes[x], h.nodes[x], x == winner);
    }
  }

  // ---- upsert -------------------------------------------------------------

  /** The same node but for its flag, which a live dependent clears. */
  ghost predicate Unflags(a: Node, b: Node) {
    b == a || b == a.(meta := a.meta.(supersededSource := false))
  }

  lemma {:induction false} UnflagsSame(nodes: seq<Node>)
    ensures forall j: NodeIdx :: j < |nodes| ==> Unflags(nodes[j], nodes[j])
  {
  }

  lemma {:induction false} UnflagsEither(a: Node, b: Node)
    requires b == a || b == a.(meta := a.meta.(supersededSource := false))
    ensures Unflags(a, b)
  {
  }

  lemma {:induction false} UnflagsTwice(a: Node, b: Node, c: Node)
    requires Unflags(a, b) && Unflags(b, c)
    ensures Unflags(a, c)
  {
  }

  lemma {:induction false} UnflagOne(g: Graph, d: NodeIdx)
    requires d < |g.nodes|
    ensures var h := SetMeta(g, d, g.nodes[d].meta.(supersededSource := false));
      |h.nodes| == |g.nodes| && forall j: NodeIdx :: j < |g.nodes| ==> Unflags(g.nodes[j], h.nodes[j])
  {
  }

  lemma {:induction false} LinkDepsFrame(g: Graph, i: NodeIdx, deps: seq<NodeId>, kind: EdgeType, live: bool)
    requires Shape(g) && i < |g.nodes|
    ensures var h := LinkDeps(g, i, deps, kind, live);
      && h.log == g.log && h.pending == g.pending && |h.nodes| == |g.nodes| && h.byId == g.byId
      && h.version >= g.version
      && forall j: NodeIdx :: j < |g.nodes| ==> Unflags(g.nodes[j], h.nodes[j])
    decreases |deps|
  {
    hide Shape, AddEdge, Unflags;
    UnflagsSame(g.nodes);
    if deps != [] && deps[0] !in g.byId {
      LinkDepsFrame(g, i, deps[1..], kind, live);
    } else if deps != [] {
      GraphIndex.ByIdInRange(g, deps[0]);
      var d := g.byId[deps[0]];
      AddEdgeShape(g, i, d, kind);
      AddEdgeFrame(g, i, d, kind);
      var g1 := AddEdge(g, i, d, kind);
      var g2 := if live then SetMeta(g1, d, g1.nodes[d].meta.(supersededSource := false)) else g1;
      LinkDepsFrame(g2, i, deps[1..], kind, live);
      UnflagOne(g1, d);
      var h := LinkDeps(g, i, deps, kind, live);
      forall j: NodeIdx | j < |g.nodes| ensures Unflags(g.nodes[j], h.nodes[j]) {
        UnflagsTwice(g.nodes[j], g2.nodes[j], h.nodes[j]);
      }
    }
  }

  /** Kind, value, inputs or spans differ; inputs and spans in whatever order. */
  ghost predicate Differs(before: Node, after: Node) {
    || before.kind != after.kind || before.value != after.value
    || multiset(before.deps) != multiset(after.deps) || multiset(before.spans) != multiset(after.spans)
  }

  lemma {:induction false} ReplaceFrame(g: Graph, i: NodeIdx, node: Node)
    requires i < |g.nodes|
    ensures var h := ReplaceNode(g, i, node);
      h == g.(nodes := g.nodes[i := node], byKey := h.byKey, liveByKey := h.liveByKey) && (Shape(g) ==> Shape(h))
  {
  }

  lemma {:induction false} DiffersIs(a: Node, b: Node, m: Meta, stamp: nat)
    ensures Differs(a, b) <==> !a.SameFingerprint(b.(meta := m, timestamp := stamp))
  {
  }

  /** The steps of an accepted upsert over a recorded id: the slot is filled, what rested on it is invalidated, links follow. */
  lemma {:induction false} UpsertRecorded(g: Graph, node: Node, known: set<string>, now: nat)
    returns (g1: Graph, g2: Graph, i: NodeIdx)
    requires Shape(g) && node.id in g.byId && Upsert(g, node, known, now).result.Ok?
    ensures i == g.byId[node.id] < |g.nodes| && Upsert(g, node, known, now).result == Ok(i)
    ensures Shape(g1) && |g1.nodes| == |g.nodes| == |g2.nodes| && g1.inEdges == g.inEdges && g1.version == g.version
    ensures g1.log == g.log && g1.pending == g.pending && g1.maxDepth == g.maxDepth
    ensures g1.nodes == g.nodes[i := node.(meta := node.meta.(grounded := true), timestamp := now + 1)]
    ensures g2 == if Differs(g.nodes[i], node) then Invalidate(g1, i, false) else g1
    ensures var h := Upsert(g, node, known, now).graph;
      && h.log == g2.log && h.pending == g2.pending && |h.nodes| == |g2.nodes|
      && forall j: NodeIdx :: j < |g2.nodes| ==> Unflags(g2.nodes[j], h.nodes[j])
  {
    hide Invalidate, LinkDeps, Unflags, RequireGrounding, ReplaceNode, Differs, Shape;
    GraphIndex.ByIdInRange(g, node.id);
    i := g.byId[node.id];
    var stamped := node.(meta := node.meta.(grounded := true), timestamp := now + 1);
    ReplaceFrame(g, i, stamped);
    DiffersIs(g.nodes[i], node, stamped.meta, stamped.timestamp);
    g1 := ReplaceNode(g, i, stamped);
    g2 := Placed(g, stamped).0;
    if Differs(g.nodes[i], node) {
      InvalidateFrame(g1, i, false);
    }
    var n := g2.nodes[i];
    LinkDepsFrame(g2, i, n.deps, DependencyKind(n.kind), n.status != Superseded);
  }

  /** When a recorded node changes, whatever rests on it directly is noticed. */
  lemma {:induction false} UpsertReaches(g: Graph, node: Node, known: set<string>, now: nat, x: NodeIdx)
    requires Shape(g) && node.id in g.byId && Upsert(g, node, known, now).result.Ok?
    requires g.byId[node.id] < |g.nodes| && Differs(g.nodes[g.byId[node.id]], node)
    requires x < |g.nodes| && x != g.byId[node.id] && g.nodes[x].status != Superseded
    requires RestsOn(g, x, g.byId[node.id])
    ensures Noticed(Upsert(g, node, known, now).graph, g.version, x)
  {
    hide RestsOn, Invalidate, Upsert, InvalidatedSince, Differs, Unflags, Shape;
    var g1, g2, i := UpsertRecorded(g, node, known, now);
    SameEdgesRest(g, g1, x, i);
    InvalidateReaches(g1, i, g.version, x);
    SameLogSince(g2, Upsert(g, node, known, now).graph, g.version);
  }

  /**
   An upsert over a recorded id marks nothing unless the node changed, and then only what
   rests on it; the marked go stale unless they are evidence, and nobody else's status moves.
   */
  lemma {:induction false} UpsertMarks(g: Graph, node: Node, known: set<string>, now: nat, x: NodeIdx)
    requires Shape(g) && H.LogInv(g) && node.id in g.byId && Upsert(g, node, known, now).result.Ok?
    requires g.byId[node.id] < |g.nodes| && x < |g.nodes|
    ensures var h, i := Upsert(g, node, known, now).graph, g.byId[node.id];
      var marked := x in InvalidatedSince(h, g.version);
      && (!Differs(g.nodes[i], node) ==> h.log == g.log && h.pending == g.pending && !marked)
      && (marked ==> exists len: nat :: 0 < len <= g.maxDepth && RestsAt(g, x, i, len))
      && (marked && h.nodes[x].kind != Evidence ==> StaleNow(h.nodes[x]))
      && (x != i && (!marked || g.nodes[x].kind == Evidence) ==>
            h.nodes[x].status == g.nodes[x].status && h.nodes[x].cachedResult == g.nodes[x].cachedResult)
  {
    hide RestsOn, RestsAt, Invalidate, Upsert, InvalidatedSince, Differs, Shape;
    var g1, g2, i := UpsertRecorded(g, node, known, now);
    var h := Upsert(g, node, known, now).graph;
    QuietBefore(g, x);
    SameLogSince(g, g1, g.version);
    SameLogSince(g2, h, g.version);
    assert Unflags(g2.nodes[x], h.nodes[x]);
    InvalidateMarks(g1, i, false, g.version, x);
    if x in InvalidatedSince(h, g.version) {
      InvalidateOnly(g1, i, g.version, x);
      var len: nat :| 0 < len <= g1.maxDepth && RestsAt(g1, x, i, len);
      forall a: NodeIdx, b: NodeIdx ensures RestsOn(g1, a, b) <==> RestsOn(g, a, b) {
        SameEdgesRest(g, g1, a, b);
      }
      RestsAlike(g, g1, x, i, len);
    }
  }

  lemma {:induction false} LinkDepsClears(g: Graph, i: NodeIdx, deps: seq<NodeId>, kind: EdgeType, d: NodeId)
    requires Shape(g) && i < |g.nodes| && d in deps && d in g.byId && g.byId[d] < |g.nodes|
    ensures !LinkDeps(g, i, deps, kind, true).nodes[g.byId[d]].meta.supersededSource
    decreases |deps|
  {
    hide Shape, AddEdge, Unflags;
    if deps[0] !in g.byId {
      LinkDepsClears(g, i, deps[1..], kind, d);
    } else {
      GraphIndex.ByIdInRange(g, deps[0]);
      var c := g.byId[deps[0]];
      AddEdgeShape(g, i, c, kind);
      AddEdgeFrame(g, i, c, kind);
      var g1 := AddEdge(g, i, c, kind);
      var g2 := SetMeta(g1, c, g1.nodes[c].meta.(supersededSource := false));
      if d != deps[0] {
        assert deps == [deps[0]] + deps[1..];
        LinkDepsClears(g2, i, deps[1..], kind, d);
      } else {
        LinkDepsFrame(g2, i, deps[1..], kind, true);
        StaysUnflagged(g2.nodes[c], LinkDeps(g2, i, deps[1..], kind, true).nodes[c]);
      }
    }
  }

  lemma {:induction false} StaysUnflagged(a: Node, b: Node)
    requires Unflags(a, b) && !a.meta.supersededSource
    ensures !b.meta.supersededSource
  {
  }

  /** In its slot stands the node, or the node gone stale when it rests on itself. */
  ghost predicate StandsIn(g: Graph, h: Graph, i: NodeIdx, node: Node) {
    && i == (if node.id in g.byId then g.byId[node.id] else |g.nodes|)
    && h.byId == g.byId[node.id := i] && |h.nodes| == (if node.id in g.byId then |g.nodes| else |g.nodes| + 1)
    && i < |h.nodes|
    && (h.nodes[i] == node || (node.id in g.byId && h.nodes[i] == node.(status := Stale, cachedResult := None)))
    && (node.id !in g.byId ==> h.log == g.log && h.pending == g.pending && h.nodes == g.nodes + [node])
  }

  lemma {:induction false} PlacedStands(g: Graph, node: Node)
    requires Shape(g)
    ensures StandsIn(g, Placed(g, node).0, Placed(g, node).1, node)
  {
    hide Invalidate, ReplaceNode, Shape;
    if node.id in g.byId {
      GraphIndex.ByIdInRange(g, node.id);
      var i := g.byId[node.id];
      ReplaceFrame(g, i, node);
      InvalidateFrame(ReplaceNode(g, i, node), i, false);
    } else {
      H.AppendIsWell(g, node);
    }
  }

  /** The slot an accepted upsert fills, and what it holds: the node as offered, stamped and marked as grounded. */
  lemma {:induction false} UpsertStores(g: Graph, node: Node, known: set<string>, now: nat)
    requires Shape(g) && Upsert(g, node, known, now).result.Ok?
    ensures var (h, i) := (Upsert(g, node, known, now).graph, Upsert(g, node, known, now).result.value);
      && i == (if node.id in g.byId then g.byId[node.id] else |g.nodes|)
      && h.byId == g.byId[node.id := i] && |h.nodes| == (if node.id in g.byId then |g.nodes| else |g.nodes| + 1)
      && i < |h.nodes| && h.nodes[i].meta.grounded && h.nodes[i].timestamp == now + 1
      && h.nodes[i].id == node.id && h.nodes[i].kind == node.kind && h.nodes[i].value == node.value
      && h.nodes[i].spans == node.spans && h.nodes[i].deps == node.deps && h.nodes[i].key == node.key
      && (h.nodes[i].status == node.status || (node.id in g.byId && h.nodes[i].status == Stale))
  {
    hide Placed, LinkDeps, RequireGrounding, Shape;
    var stamped := node.(meta := node.meta.(grounded := true), timestamp := now + 1);
    var (g1, i) := Placed(g, stamped);
    PlacedStands(g, stamped);
    var n := g1.nodes[i];
    LinkDepsFrame(g1, i, n.deps, DependencyKind(n.kind), n.status != Superseded);
    assert Unflags(n, Upsert(g, node, known, now).graph.nodes[i]);
  }

  /** A node that is new changes no other but for the flags of its inputs, and marks nothing. */
  lemma {:induction false} UpsertAdds(g: Graph, node: Node, known: set<string>, now: nat, x: NodeIdx)
    requires Shape(g) && node.id !in g.byId && x < |g.nodes|
    ensures var h := Upsert(g, node, known, now).graph;
      && h.log == g.log && h.pending == g.pending
      && (h.nodes[x] == g.nodes[x] || h.nodes[x] == g.nodes[x].(meta := g.nodes[x].meta.(supersededSource := false)))
  {
    hide Placed, LinkDeps, RequireGrounding, Shape;
    if RequireGrounding(g, node, known).None? {
      var stamped := node.(meta := node.meta.(grounded := true), timestamp := now + 1);
      var (g1, i) := Placed(g, stamped);
      PlacedStands(g, stamped);
      var n := g1.nodes[i];
      LinkDepsFrame(g1, i, n.deps, DependencyKind(n.kind), n.status != Superseded);
      assert Unflags(g1.nodes[x], Upsert(g, node, known, now).graph.nodes[x]);
    }
  }

  /** Every input on record is linked, by the edge of the node's kind, and counts as supported again. */
  lemma {:induction false} UpsertLinks(g: Graph, node: Node, known: set<string>, now: nat, d: NodeId)
    requires Shape(g) && Upsert(g, node, known, now).result.Ok?
    requires d in node.deps && (d in g.byId || d == node.id)
    ensures var (h, i) := (Upsert(g, node, known, now).graph, Upsert(g, node, known, now).result.value);
      && d in h.byId && i < |h.outEdges| && h.byId[d] < |h.nodes|
      && Edge(i, h.byId[d], if node.kind == Claim then Supports else DerivedFrom) in h.outEdges[i]
      && (node.status != Superseded ==> !h.nodes[h.byId[d]].meta.supersededSource)
  {
    hide Placed, LinkDeps, RequireGrounding, H.PlacedWell, H.Evolves, Shape;
    UpsertStores(g, node, known, now);
    var stamped := node.(meta := node.meta.(grounded := true), timestamp := now + 1);
    var (g1, i) := Placed(g, stamped);
    var n := g1.nodes[i];
    H.PlacedIsWell(g, stamped);
    H.PlacedNode(g, g1, i, stamped);
    LinkDepsFrame(g1, i, n.deps, DependencyKind(n.kind), n.status != Superseded);
    H.LinkDepsEvolves(g1, i, n.deps, DependencyKind(n.kind), n.status != Superseded);
    var h := Upsert(g, node, known, now).graph;
    H.ShapeSizes(h);
    GraphIndex.ByIdInRange(g1, d);
    if node.status != Superseded {
      assert Unflags(n, h.nodes[i]);
      LinkDepsClears(g1, i, n.deps, DependencyKind(n.kind), d);
    }
  }

  /**
   What `upsert` accepts: a skill that names its artifact, or a node whose spans are all on
   record and that has one, or that is no evidence and has an input already taken as grounded.
   */
  lemma {:induction false} UpsertAcceptsIff(g: Graph, node: Node, known: set<string>, now: nat)
    requires Shape(g)
    ensures Upsert(g, node, known, now).result.Ok? <==>
            if node.kind == Skill then
              node.meta.source.Some? && exists c :: c in node.meta.source.value && !Chars.IsWhitespace(c)
            else
              && (forall x :: x in node.spans ==> x in known)
              && (node.spans != [] || (node.kind != Evidence && exists d :: d in node.deps && TakenAsGrounded(g, d)))
    ensures Upsert(g, node, known, now).result.Err? ==> Upsert(g, node, known, now).graph == g
  {
    hide Placed, LinkDeps, Shape;
    IdsInRange(g);
    forall d | d in g.byId ensures TakenAsGrounded(g, d) <==> ReachesEvidence(g, d) {
    }
    if node.meta.source.Some? {
      BlankIff(node.meta.source.value);
    }
  }

  /** On record, and evidence, or with a span, or accepted before. */
  ghost predicate TakenAsGrounded(g: Graph, d: NodeId) {
    && d in g.byId && g.byId[d] < |g.nodes|
    && var n := g.nodes[g.byId[d]];
    (n.kind == Evidence || n.spans != [] || n.meta.grounded)
  }

  lemma {:induction false} BlankIff(s: string)
    ensures Chars.IsBlank(s) <==> !exists c :: c in s && !Chars.IsWhitespace(c)
  {
    forall i | Chars.IsBlank(s) && 0 <= i < |s| ensures Chars.IsWhitespace(s[i]) {
    }
    forall i | 0 <= i < |s| && !Chars.IsWhitespace(s[i]) ensures s[i] in s {
    }
  }

  // ---- disputes -----------------------------------------------------------

  /** Both sides of a contradiction carry the edge and the warning, and neither reads as fresh; no other node changes. */
  lemma {:induction false} ContradictMarks(g: Graph, a: NodeIdx, b: NodeIdx, x: NodeIdx)
    requires Shape(g) && a < |g.nodes| && b < |g.nodes| && x < |g.nodes|
    ensures var h := Contradict(g, a, b);
      && Edge(a, b, Contradicts) in h.outEdges[a] && Edge(b, a, Contradicts) in h.outEdges[b]
      && g.nodes[b].id in h.nodes[a].meta.contradicts && g.nodes[a].id in h.nodes[b].meta.contradicts
      && h.nodes[x].status == (if (x == a || x == b) && g.nodes[x].status == Fresh then Contradicted else g.nodes[x].status)
      && (x != a && x != b ==> h.nodes[x] == g.nodes[x])
      && h.log == g.log && h.pending == g.pending
  {
    hide Shape, Contest, AddEdge;
    H.ShapeSizes(g);
    var g1 := AddEdge(g, a, b, Contradicts);
    AddEdgeShape(g, a, b, Contradicts);
    AddEdgeFrame(g, a, b, Contradicts);
    H.AddEdgeEvolves(g, a, b, Contradicts);
    var g2 := AddEdge(g1, b, a, Contradicts);
    AddEdgeShape(g1, b, a, Contradicts);
    AddEdgeFrame(g1, b, a, Contradicts);
    H.AddEdgeEvolves(g1, b, a, Contradicts);
    var g3 := Contest(g2, a, g.nodes[b].id);
    ContestIs(g2, a, g.nodes[b].id);
    ContestIs(g3, b, g.nodes[a].id);
  }

  lemma {:induction false} ContestIs(g: Graph, i: NodeIdx, other: NodeId)
    requires i < |g.nodes|
    ensures var h := Contest(g, i, other);
      && h == g.(nodes := h.nodes, liveByKey := h.liveByKey) && |h.nodes| == |g.nodes|
      && (forall x: NodeIdx :: x < |g.nodes| && x != i ==> h.nodes[x] == g.nodes[x])
      && other in h.nodes[i].meta.contradicts
      && (forall id :: id in g.nodes[i].meta.contradicts ==> id in h.nodes[i].meta.contradicts)
      && h.nodes[i].status == (if g.nodes[i].status == Fresh then Contradicted else g.nodes[i].status)
  {
  }

  /** A dispute is over, and the node fresh, exactly when it was contested and nothing live it names is left. */
  lemma {:induction false} SettlesIff(g: Graph, i: NodeIdx)
    requires Shape(g) && i < |g.nodes|
    ensures Settle(g, i).nodes[i].status ==
      if g.nodes[i].status == Contradicted
        && forall id :: id in g.nodes[i].meta.contradicts && id in g.byId ==>
             g.nodes[g.byId[id]].status == Stale || g.nodes[g.byId[id]].status == Superseded
      then Fresh else g.nodes[i].status
  {
    hide Shape, SetStatus;
    IdsInRange(g);
    if forall id :: id in g.nodes[i].meta.contradicts && id in g.byId ==>
         g.nodes[g.byId[id]].status == Stale || g.nodes[g.byId[id]].status == Superseded {
      forall id | id in g.nodes[i].meta.contradicts && id in g.byId ensures !g.nodes[g.byId[id]].status.IsLive() {
      }
    }
  }

  lemma {:induction false} WithoutIdAre(s: seq<NodeId>, id: NodeId, x: NodeId)
    ensures x in WithoutId(s, id) <==> x in s && x != id
  {
    if s != [] {
      WithoutIdAre(s[1..], id, x);
      assert s == [s[0]] + s[1..];
    }
  }

  /** Nothing the node names as its contradiction, but for the loser, is live. */
  ghost predicate Undisputed(g: Graph, loser: NodeIdx, winner: NodeIdx)
    requires Shape(g) && loser < |g.nodes| && winner < |g.nodes|
  {
    forall id :: id in g.nodes[winner].meta.contradicts && id != g.nodes[loser].id && id in g.byId && g.byId[id] != loser ==>
      g.nodes[g.byId[id]].status == Stale || g.nodes[g.byId[id]].status == Superseded
  }

  /** The pointers a supersession leaves, and the winner's status before the cascade. */
  lemma {:induction false} WinnerRetires(g: Graph, loser: NodeIdx, winner: NodeIdx)
    requires Shape(g) && loser < |g.nodes| && winner < |g.nodes| && winner != loser
    ensures var h, id := Retire(g, loser, winner), g.nodes[loser].id;
      && id in h.nodes[winner].meta.supersedes && id !in h.nodes[winner].meta.contradicts
      && g.nodes[winner].id !in h.nodes[loser].meta.contradicts
      && h.nodes[winner].status ==
         if g.nodes[winner].status == Contradicted && Undisputed(g, loser, winner) then Fresh else g.nodes[winner].status
  {
    hide Shape, WithoutId, Settle, AddEdge;
    H.ShapeSizes(g);
    IdsInRange(g);
    var loserId, winnerId := g.nodes[loser].id, g.nodes[winner].id;
    var g1 := AddEdge(g, winner, loser, Supersedes);
    AddEdgeShape(g, winner, loser, Supersedes);
    AddEdgeFrame(g, winner, loser, Supersedes);
    var g3 := Resolve(SetStatus(g1, loser, Superseded), loser, winner);
    forall x: NodeId ensures x in g3.nodes[winner].meta.contradicts <==> x in g.nodes[winner].meta.contradicts && x != loserId {
      WithoutIdAre(g.nodes[winner].meta.contradicts, loserId, x);
    }
    WithoutIdAre(g.nodes[loser].meta.contradicts, winnerId, winnerId);
    SettleFrame(g3, winner);
    SettlesIff(g3, winner);
  }

  /** The winner stops naming the loser, and is fresh again once nothing live contests it. */
  lemma {:induction false} SupersedeSettles(g: Graph, loser: NodeIdx, winner: NodeIdx)
    requires Shape(g) && H.LogInv(g) && loser < |g.nodes| && winner < |g.nodes| && winner != loser
    ensures var h, id := Supersede(g, loser, winner), g.nodes[loser].id;
      && id in h.nodes[winner].meta.supersedes && id !in h.nodes[winner].meta.contradicts
      && (winner !in InvalidatedSince(h, g.version) && g.nodes[winner].kind != Evidence ==>
            h.nodes[winner].status ==
            if g.nodes[winner].status == Contradicted && Undisputed(g, loser, winner) then Fresh else g.nodes[winner].status)
  {
    hide RestsOn, Invalidate, Retire, InvalidatedSince, MarkOrphaned, Shape, Undisputed;
    RetireIs(g, loser, winner);
    WinnerRetires(g, loser, winner);
    QuietBefore(g, winner);
    var g1 := Retire(g, loser, winner);
    SameLogSince(g, g1, g.version);
    InvalidateMarks(g1, loser, false, g.version, winner);
    InvalidateFrame(g1, loser, false);
    var g2 := Invalidate(g1, loser, false);
    var h := Supersede(g, loser, winner);
    MarkOrphanedFrame(g2, g2.nodes[loser].deps, g2.nodes[loser].meta.supersededBy);
    assert Flags(g2.nodes[winner], h.nodes[winner]);
    SameLogSince(g2, h, g.version);
  }

  /** A revalidated node is fresh and newest, whatever it was; nothing else moves. */
  lemma {:induction false} RevalidateFreshens(g: Graph, i: NodeIdx, now: nat, x: NodeIdx)
    requires GraphIndex.Indexed(g, now) && i < |g.nodes| && x < |g.nodes|
    ensures var h := Revalidate(g, i, now);
      && GraphIndex.Indexed(h, now + 1) && h.log == g.log && h.pending == g.pending && h.version > g.version
      && h.nodes[x] == if x == i then g.nodes[i].(status := Fresh, timestamp := now + 1) else g.nodes[x]
  {
    hide GraphIndex.Indexed;
    GraphIndex.RevalidateKeeps(g, i, now);
  }
}
