/**
 The bounded invalidation cascade (src/graph.rs `invalidate`, `drain_pending`)
 refines the unbounded one.

 `InClosure` is the unbounded cascade: everything reachable against dependency edges
 through nodes that are not superseded.  One `invalidate` covers a bounded part of it
 and defers the rest; draining until the queue is empty covers exactly all of it.
 */
module CascadeTheory {
  import opened Wrappers
  import opened Nodes
  import opened GraphSpec

  // ---- the unbounded cascade ----------------------------------------------

  /** `x` is one of the starts, or depends on a node reached in `len - 1` steps. */
  ghost predicate Arrives(g: Graph, starts: seq<NodeIdx>, x: NodeIdx, len: nat)
    requires Shape(g)
    decreases len, 0
  {
    if len == 0 then x in starts
    else exists y: nat :: y < |g.nodes| && ReachIn(g, starts, y, len - 1) && x in Dependents(g, y)
  }

  /** Reached in `len` steps, through live nodes only. */
  ghost predicate ReachIn(g: Graph, starts: seq<NodeIdx>, x: NodeIdx, len: nat)
    requires Shape(g)
    decreases len, 1
  {
    x < |g.nodes| && !IsSuperseded(g, x) && Arrives(g, starts, x, len)
  }

  ghost predicate InClosure(g: Graph, starts: seq<NodeIdx>, x: NodeIdx)
    requires Shape(g)
  {
    exists len: nat :: ReachIn(g, starts, x, len)
  }

  /** The graphs a cascade cannot tell apart: same edges, same superseded nodes, same bounds. */
  ghost predicate SameWalk(g: Graph, h: Graph)
    requires Shape(g) && Shape(h)
  {
    && g.inEdges == h.inEdges && |g.nodes| == |h.nodes|
    && g.maxCascade == h.maxCascade && g.maxDepth == h.maxDepth
    && forall i :: 0 <= i < |g.nodes| ==> (IsSuperseded(g, i) <==> IsSuperseded(h, i))
  }

  lemma {:induction false} WalkFrame(g: Graph, h: Graph, s: WalkState)
    requires Shape(g) && Shape(h) && SameWalk(g, h) && QueueOk(g, s.queue)
    ensures Walk(g, s) == Walk(h, s)
    decreases Indices(|g.nodes|) - s.seen, |s.queue|
  {
    if s.queue != [] {
      assert Id(s.queue[0].0) == s.queue[0].0;
      assert Advance(g, s) == Advance(h, s);
      WalkFrame(g, h, Advance(g, s));
    }
  }

  lemma {:induction false} ReachFrame(g: Graph, h: Graph, starts: seq<NodeIdx>, x: NodeIdx, len: nat)
    requires Shape(g) && Shape(h) && SameWalk(g, h) && ReachIn(g, starts, x, len)
    ensures ReachIn(h, starts, x, len)
    decreases len
  {
    if len > 0 {
      var y: nat :| y < |g.nodes| && ReachIn(g, starts, y, len - 1) && x in Dependents(g, y);
      ReachFrame(g, h, starts, y, len - 1);
      assert x in Dependents(h, y);
    }
  }

  lemma {:induction false} ClosureFrame(g: Graph, h: Graph, starts: seq<NodeIdx>)
    requires Shape(g) && Shape(h) && SameWalk(g, h)
    ensures forall x :: InClosure(g, starts, x) <==> InClosure(h, starts, x)
  {
    forall x
      ensures InClosure(g, starts, x) <==> InClosure(h, starts, x)
    {
      if InClosure(g, starts, x) {
        var len: nat :| ReachIn(g, starts, x, len);
        ReachFrame(g, h, starts, x, len);
      }
      if InClosure(h, starts, x) {
        var len: nat :| ReachIn(h, starts, x, len);
        ReachFrame(h, g, starts, x, len);
      }
    }
  }

  // ---- one cascade --------------------------------------------------------

  ghost predicate MarkedSoundly(g: Graph, starts: seq<NodeIdx>, x: NodeIdx, d0: nat)
    requires Shape(g)
  {
    exists len: nat :: len + d0 <= g.maxDepth && ReachIn(g, starts, x, len)
  }

  ghost predicate ArrivesSomehow(g: Graph, starts: seq<NodeIdx>, x: NodeIdx)
    requires Shape(g)
  {
    exists len: nat :: Arrives(g, starts, x, len)
  }

  ghost predicate QueueSound(g: Graph, starts: seq<NodeIdx>, queue: seq<(NodeIdx, nat)>, d0: nat)
    requires Shape(g)
  {
    forall k :: 0 <= k < |queue| ==> queue[k].1 >= d0 && Arrives(g, starts, queue[k].0, queue[k].1 - d0)
  }

  ghost predicate AllMarkedSoundly(g: Graph, starts: seq<NodeIdx>, marked: seq<NodeIdx>, d0: nat)
    requires Shape(g)
  {
    forall k :: 0 <= k < |marked| ==> MarkedSoundly(g, starts, marked[k], d0)
  }

  ghost predicate AllArrive(g: Graph, starts: seq<NodeIdx>, deferred: seq<NodeIdx>)
    requires Shape(g)
  {
    forall k :: 0 <= k < |deferred| ==> ArrivesSomehow(g, starts, deferred[k])
  }

  ghost predicate StateSound(g: Graph, starts: seq<NodeIdx>, d0: nat, s: WalkState)
    requires Shape(g)
  {
    && QueueSound(g, starts, s.queue, d0)
    && AllMarkedSoundly(g, starts, s.marked, d0) && AllArrive(g, starts, s.deferred)
  }

  lemma {:induction false} DependentsArrive(
    g: Graph, starts: seq<NodeIdx>, d0: nat, rest: seq<(NodeIdx, nat)>, x: NodeIdx, depth: nat)
    requires Shape(g) && QueueSound(g, starts, rest, d0)
    requires d0 <= depth && ReachIn(g, starts, x, depth - d0)
    ensures QueueSound(g, starts, rest + At(Dependents(g, x), depth + 1), d0)
  {
    var added := At(Dependents(g, x), depth + 1);
    forall k | 0 <= k < |added|
      ensures added[k].1 >= d0 && Arrives(g, starts, added[k].0, added[k].1 - d0)
    {
      assert added[k].0 in Dependents(g, x);
    }
  }

  lemma {:induction false} AdvanceSound(g: Graph, starts: seq<NodeIdx>, d0: nat, s: WalkState)
    requires Shape(g) && QueueOk(g, s.queue) && s.queue != [] && StateSound(g, starts, d0, s)
    ensures StateSound(g, starts, d0, Advance(g, s))
  {
    hide DependencySources;
    var (current, depth) := s.queue[0];
    assert Arrives(g, starts, current, depth - d0);
    assert ArrivesSomehow(g, starts, current);
    if current !in s.seen && |s.marked| < g.maxCascade && depth <= g.maxDepth && !IsSuperseded(g, current) {
      assert ReachIn(g, starts, current, depth - d0);
      assert MarkedSoundly(g, starts, current, d0);
      DependentsArrive(g, starts, d0, s.queue[1..], current, depth);
    }
  }

  /** Everything a cascade touches is in the unbounded cascade, and what it marks lies within the depth bound. */
  lemma {:induction false} WalkSound(g: Graph, starts: seq<NodeIdx>, d0: nat, s: WalkState)
    requires Shape(g) && QueueOk(g, s.queue) && StateSound(g, starts, d0, s)
    ensures var c := Walk(g, s); AllMarkedSoundly(g, starts, c.marked, d0) && AllArrive(g, starts, c.deferred)
    decreases Indices(|g.nodes|) - s.seen, |s.queue|
  {
    if s.queue != [] {
      assert Id(s.queue[0].0) == s.queue[0].0;
      AdvanceSound(g, starts, d0, s);
      WalkSound(g, starts, d0, Advance(g, s));
    }
  }

  /** Dealt with: marked, or superseded, or deferred. */
  ghost predicate Handled(g: Graph, marked: seq<NodeIdx>, deferred: seq<NodeIdx>, x: NodeIdx) {
    x in marked || x in deferred || (x < |g.nodes| && IsSuperseded(g, x))
  }

  ghost predicate Queued(queue: seq<(NodeIdx, nat)>, x: NodeIdx) {
    exists k :: 0 <= k < |queue| && queue[k].0 == x
  }

  /** What was seen is dealt with, and the dependents of what was marked are seen or still queued. */
  ghost predicate StateCovers(g: Graph, s: WalkState)
    requires Shape(g)
  {
    && (forall x :: x in s.seen ==> Handled(g, s.marked, s.deferred, x))
    && (forall m, y :: m in s.marked && m < |g.nodes| && y in Dependents(g, m) ==> y in s.seen || Queued(s.queue, y))
  }

  lemma {:induction false} QueuedAfterPop(queue: seq<(NodeIdx, nat)>, added: seq<(NodeIdx, nat)>, y: NodeIdx)
    requires queue != [] && Queued(queue, y)
    ensures y == queue[0].0 || Queued(queue[1..] + added, y)
  {
    var k :| 0 <= k < |queue| && queue[k].0 == y;
    if k > 0 {
      assert (queue[1..] + added)[k - 1].0 == y;
    }
  }

  lemma {:induction false} QueuedDependents(g: Graph, rest: seq<(NodeIdx, nat)>, x: NodeIdx, depth: nat, y: NodeIdx)
    requires x < |g.inEdges| && y in Dependents(g, x)
    ensures Queued(rest + At(Dependents(g, x), depth), y)
  {
    var deps := Dependents(g, x);
    var k :| 0 <= k < |deps| && deps[k] == y;
    assert (rest + At(deps, depth))[|rest| + k].0 == y;
  }

  lemma {:induction false} AdvanceCovers(g: Graph, s: WalkState)
    requires Shape(g) && QueueOk(g, s.queue) && s.queue != [] && StateCovers(g, s)
    ensures StateCovers(g, Advance(g, s))
    ensures forall x :: x in s.seen || Queued(s.queue, x) ==> x in Advance(g, s).seen || Queued(Advance(g, s).queue, x)
    ensures forall x :: x in s.marked ==> x in Advance(g, s).marked
  {
    hide DependencySources, Queued;
    var (current, depth) := s.queue[0];
    var r := Advance(g, s);
    var marks := current !in s.seen && |s.marked| < g.maxCascade && depth <= g.maxDepth && !IsSuperseded(g, current);
    var added := if marks then At(Dependents(g, current), depth + 1) else [];
    assert r.queue == s.queue[1..] + added;
    forall y | Queued(s.queue, y)
      ensures y in r.seen || Queued(r.queue, y)
    {
      QueuedAfterPop(s.queue, added, y);
    }
    forall m, y | m in r.marked && m < |g.nodes| && y in Dependents(g, m)
      ensures y in r.seen || Queued(r.queue, y)
    {
      if m !in s.marked {
        QueuedDependents(g, s.queue[1..], current, depth + 1, y);
      }
    }
  }

  /** No dependent is lost: those of every marked node, and every start, end up marked, superseded or deferred. */
  lemma {:induction false} WalkComplete(g: Graph, s: WalkState)
    requires Shape(g) && QueueOk(g, s.queue) && StateCovers(g, s)
    ensures var c := Walk(g, s);
      && (forall x :: x in s.seen || Queued(s.queue, x) ==> Handled(g, c.marked, c.deferred, x))
      && (forall m, y :: m in c.marked && m < |g.nodes| && y in Dependents(g, m) ==>
            Handled(g, c.marked, c.deferred, y))
    decreases Indices(|g.nodes|) - s.seen, |s.queue|
  {
    hide Dependents;
    if s.queue != [] {
      assert Id(s.queue[0].0) == s.queue[0].0;
      AdvanceCovers(g, s);
      WalkComplete(g, Advance(g, s));
    }
  }

  ghost predicate StateBounded(g: Graph, s: WalkState) {
    && |s.marked| <= g.maxCascade
    && (forall x :: x in s.marked || x in s.deferred ==> x in s.seen)
    && (forall i, j :: 0 <= i < j < |s.marked| ==> s.marked[i] != s.marked[j])
    && (forall i, j :: 0 <= i < j < |s.deferred| ==> s.deferred[i] != s.deferred[j])
  }

  /** The eager part is bounded, and nothing is marked or deferred twice in one cascade. */
  lemma {:induction false} WalkBounded(g: Graph, s: WalkState)
    requires Shape(g) && QueueOk(g, s.queue) && StateBounded(g, s)
    ensures var c := Walk(g, s);
      && |c.marked| <= g.maxCascade
      && (forall i, j :: 0 <= i < j < |c.marked| ==> c.marked[i] != c.marked[j])
      && (forall i, j :: 0 <= i < j < |c.deferred| ==> c.deferred[i] != c.deferred[j])
    decreases Indices(|g.nodes|) - s.seen, |s.queue|
  {
    if s.queue != [] {
      assert Id(s.queue[0].0) == s.queue[0].0;
      WalkBounded(g, Advance(g, s));
    }
  }

  ghost function Starts(g: Graph, node: NodeIdx, includeSelf: bool): seq<NodeIdx>
    requires Shape(g) && node < |g.nodes|
  {
    if includeSelf then [node] else Dependents(g, node)
  }

  lemma {:induction false} StartSound(g: Graph, node: NodeIdx, includeSelf: bool)
    requires Shape(g) && node < |g.nodes|
    ensures StateSound(
      g, Starts(g, node, includeSelf), if includeSelf then 0 else 1, StartState(g, node, includeSelf))
  {
    hide DependencySources;
    var s := StartState(g, node, includeSelf);
    var starts := Starts(g, node, includeSelf);
    forall k | 0 <= k < |s.queue|
      ensures Arrives(g, starts, s.queue[k].0, 0)
    {
      assert s.queue[k].0 == starts[k];
    }
  }

  /**
   One `invalidate`: at most `max_cascade` nodes are marked, each once, each within
   `max_depth` dependency steps of the change; and every dependent of a marked node is
   marked, superseded or waiting in the deferred tail.
   */
  lemma {:induction false} InvalidateBounded(g: Graph, node: NodeIdx, includeSelf: bool)
    requires Shape(g) && node < |g.nodes|
    ensures var c, starts := CascadeFrom(g, node, includeSelf), Starts(g, node, includeSelf);
      && |c.marked| <= g.maxCascade
      && (forall i, j :: 0 <= i < j < |c.marked| ==> c.marked[i] != c.marked[j])
      && (forall k :: 0 <= k < |c.marked| ==>
            MarkedSoundly(g, starts, c.marked[k], if includeSelf then 0 else 1))
      && (forall k :: 0 <= k < |c.deferred| ==> ArrivesSomehow(g, starts, c.deferred[k]))
      && (forall x :: x in starts ==> Handled(g, c.marked, c.deferred, x))
      && (forall m, y :: m in c.marked && m < |g.nodes| && y in Dependents(g, m) ==>
            Handled(g, c.marked, c.deferred, y))
      && Within(c.marked, |g.nodes|) && Within(c.deferred, |g.nodes|)
  {
    hide Walk, Arrives, DependencySources, ReachIn;
    StartSound(g, node, includeSelf);
    var s := StartState(g, node, includeSelf);
    var queue := s.queue;
    var starts := Starts(g, node, includeSelf);
    WalkInRange(g, s);
    WalkBounded(g, s);
    WalkSound(g, starts, if includeSelf then 0 else 1, s);
    WalkComplete(g, s);
    forall x | x in starts
      ensures Queued(queue, x)
    {
      var k :| 0 <= k < |starts| && starts[k] == x;
      assert queue[k].0 == x;
    }
  }

  // ---- cascades and drains together ---------------------------------------

  lemma {:induction false} InvalidateSameWalk(g: Graph, node: NodeIdx, includeSelf: bool)
    requires Shape(g) && node < |g.nodes|
    ensures Shape(Invalidate(g, node, includeSelf)) && SameWalk(g, Invalidate(g, node, includeSelf))
  {
    InvalidateFrame(g, node, includeSelf);
    var h := Invalidate(g, node, includeSelf);
    forall i | 0 <= i < |g.nodes|
      ensures IsSuperseded(g, i) <==> IsSuperseded(h, i)
    {
      assert h.nodes[i] == g.nodes[i]
        || (!IsSuperseded(g, i) && h.nodes[i] == g.nodes[i].(status := Stale, cachedResult := None));
    }
  }

  /** `marked` so far and the pending queue, taken together, account for the unbounded cascade. */
  ghost predicate Accounts(g: Graph, starts: seq<NodeIdx>, marked: seq<NodeIdx>)
    requires Shape(g)
  {
    && (forall x :: x in marked ==> InClosure(g, starts, x))
    && (forall x :: x in g.pending && !IsSupersededAt(g, x) ==> InClosure(g, starts, x))
    && (forall x :: x in starts ==> Handled(g, marked, g.pending, x))
    && (forall m, y :: m in marked && m < |g.nodes| && y in Dependents(g, m) ==> Handled(g, marked, g.pending, y))
  }

  ghost predicate IsSupersededAt(g: Graph, x: NodeIdx) {
    x < |g.nodes| && IsSuperseded(g, x)
  }

  /** With an empty queue, what was marked is the whole unbounded cascade. */
  lemma {:induction false} AccountsEmpty(g: Graph, starts: seq<NodeIdx>, marked: seq<NodeIdx>, x: NodeIdx)
    requires Shape(g) && Accounts(g, starts, marked) && g.pending == []
    ensures x in marked <==> InClosure(g, starts, x)
  {
    if InClosure(g, starts, x) {
      var len: nat :| ReachIn(g, starts, x, len);
      ReachedIsMarked(g, starts, marked, x, len);
    }
  }

  lemma {:induction false} ReachedIsMarked(g: Graph, starts: seq<NodeIdx>, marked: seq<NodeIdx>, x: NodeIdx, len: nat)
    requires Shape(g) && Accounts(g, starts, marked) && g.pending == [] && ReachIn(g, starts, x, len)
    ensures x in marked
    decreases len
  {
    if len > 0 {
      var y: nat :| y < |g.nodes| && ReachIn(g, starts, y, len - 1) && x in Dependents(g, y);
      ReachedIsMarked(g, starts, marked, y, len - 1);
      assert Handled(g, marked, g.pending, x);
    } else {
      assert Handled(g, marked, g.pending, x);
    }
  }

  /** Reaching on from a node of the closure stays in the closure. */
  lemma {:induction false} ClosureExtends(g: Graph, starts: seq<NodeIdx>, from: seq<NodeIdx>, x: NodeIdx, len: nat)
    requires Shape(g) && ReachIn(g, from, x, len)
    requires forall s :: s in from && !IsSupersededAt(g, s) ==> InClosure(g, starts, s)
    ensures InClosure(g, starts, x)
    decreases len
  {
    if len > 0 {
      var y: nat :| y < |g.nodes| && ReachIn(g, from, y, len - 1) && x in Dependents(g, y);
      ClosureExtends(g, starts, from, y, len - 1);
      var more: nat :| ReachIn(g, starts, y, more);
      assert Arrives(g, starts, x, more + 1);
      assert ReachIn(g, starts, x, more + 1);
    }
  }

  /** Deferred nodes that are still live lie in the closure of the cascade that deferred them. */
  lemma {:induction false} DeferredInClosure(g: Graph, starts: seq<NodeIdx>, x: NodeIdx)
    requires Shape(g) && x < |g.nodes| && ArrivesSomehow(g, starts, x) && !IsSuperseded(g, x)
    ensures InClosure(g, starts, x)
  {
    var len: nat :| Arrives(g, starts, x, len);
    assert ReachIn(g, starts, x, len);
  }

  /** What one cascade adds is in the closure of anything its starts are in the closure of. */
  lemma {:induction false} CascadeInClosure(
    g: Graph, starts: seq<NodeIdx>, node: NodeIdx, includeSelf: bool)
    requires Shape(g) && node < |g.nodes|
    requires forall s :: s in Starts(g, node, includeSelf) && !IsSupersededAt(g, s) ==> InClosure(g, starts, s)
    ensures var c := CascadeFrom(g, node, includeSelf);
      && (forall x :: x in c.marked ==> InClosure(g, starts, x))
      && (forall x :: x in c.deferred && !IsSupersededAt(g, x) ==> InClosure(g, starts, x))
  {
    InvalidateBounded(g, node, includeSelf);
    var c := CascadeFrom(g, node, includeSelf);
    var from := Starts(g, node, includeSelf);
    forall x | x in c.marked
      ensures InClosure(g, starts, x)
    {
      var k :| 0 <= k < |c.marked| && c.marked[k] == x;
      assert MarkedSoundly(g, from, c.marked[k], if includeSelf then 0 else 1);
      var len: nat :| ReachIn(g, from, x, len);
      ClosureExtends(g, starts, from, x, len);
    }
    forall x | x in c.deferred && !IsSupersededAt(g, x)
      ensures InClosure(g, starts, x)
    {
      var k :| 0 <= k < |c.deferred| && c.deferred[k] == x;
      assert ArrivesSomehow(g, from, c.deferred[k]);
      DeferredInClosure(g, from, x);
      var len: nat :| ReachIn(g, from, x, len);
      ClosureExtends(g, starts, from, x, len);
    }
  }

  /** An invalidation joins whatever was already waiting. */
  lemma {:induction false} AccountsAfterInvalidate(g: Graph, node: NodeIdx, includeSelf: bool)
    requires Shape(g) && node < |g.nodes|
    ensures var h := Invalidate(g, node, includeSelf);
      Shape(h) && Accounts(h, Starts(g, node, includeSelf) + g.pending, CascadeFrom(g, node, includeSelf).marked)
  {
    hide Walk, InClosure, DependencySources, MarkedSoundly, ArrivesSomehow;
    var h := Invalidate(g, node, includeSelf);
    var starts := Starts(g, node, includeSelf) + g.pending;
    var c := CascadeFrom(g, node, includeSelf);
    InvalidateBounded(g, node, includeSelf);
    InvalidateSameWalk(g, node, includeSelf);
    ClosureFrame(g, h, starts);
    StartsInClosure(g, starts);
    CascadeInClosure(g, starts, node, includeSelf);
    assert h.pending == g.pending + c.deferred;
    assert forall x :: Handled(g, c.marked, c.deferred, x) ==> Handled(h, c.marked, h.pending, x);
    assert forall m: nat :: m < |g.nodes| ==> Dependents(h, m) == Dependents(g, m);
  }

  lemma {:induction false} StartsInClosure(g: Graph, starts: seq<NodeIdx>)
    requires Shape(g)
    ensures forall s :: s in starts && s < |g.nodes| && !IsSupersededAt(g, s) ==> InClosure(g, starts, s)
  {
    forall s | s in starts && s < |g.nodes| && !IsSupersededAt(g, s)
      ensures InClosure(g, starts, s)
    {
      assert ReachIn(g, starts, s, 0);
    }
  }

  /** Resuming one deferred node keeps the account. */
  lemma {:induction false} AccountsAfterDrain(g: Graph, starts: seq<NodeIdx>, marked: seq<NodeIdx>)
    requires Shape(g) && Accounts(g, starts, marked) && g.pending != []
    ensures Shape(DrainOne(g)) && SameWalk(g, DrainOne(g))
    ensures Accounts(DrainOne(g), starts, marked + DrainedMarks(g))
  {
    hide Walk, InClosure, DependencySources;
    var p := g.pending[0];
    var g1 := g.(pending := g.pending[1..]);
    assert Shape(g1);
    var h := DrainOne(g);
    var c := CascadeFrom(g1, p, true);
    InvalidateBounded(g1, p, true);
    InvalidateSameWalk(g1, p, true);
    ClosureFrame(g, g1, starts);
    ClosureFrame(g, h, starts);
    assert p in g.pending;
    CascadeInClosure(g1, starts, p, true);
    assert h.pending == g.pending[1..] + c.deferred;
    assert p in Starts(g1, p, true);
    assert g.pending == [p] + g.pending[1..];
    var all := marked + c.marked;
    forall x | Handled(g, marked, g.pending, x)
      ensures Handled(h, all, h.pending, x)
    {
      if x == p {
        assert Handled(g1, c.marked, c.deferred, x);
      }
    }
    forall m, y | m in all && m < |h.nodes| && y in Dependents(h, m)
      ensures Handled(h, all, h.pending, y)
    {
      assert Dependents(h, m) == Dependents(g, m) == Dependents(g1, m);
      if m in marked {
        assert Handled(g, marked, g.pending, y);
      } else {
        assert Handled(g1, c.marked, c.deferred, y);
      }
    }
  }

  ghost function DrainedMarks(g: Graph): seq<NodeIdx>
    requires Shape(g) && g.pending != []
  {
    var g1 := g.(pending := g.pending[1..]);
    assert Shape(g1);
    CascadeFrom(g1, g.pending[0], true).marked
  }

  ghost function PopMarks(g: Graph, n: nat): seq<NodeIdx>
    requires Shape(g)
    decreases n
  {
    if n == 0 || g.pending == [] then []
    else
      DrainOneShape(g);
      DrainedMarks(g) + PopMarks(DrainOne(g), n - 1)
  }

  lemma {:induction false} DrainOneShape(g: Graph)
    requires Shape(g) && g.pending != []
    ensures Shape(DrainOne(g)) && SameWalk(g, DrainOne(g))
  {
    var g1 := g.(pending := g.pending[1..]);
    assert Shape(g1);
    InvalidateSameWalk(g1, g.pending[0], true);
  }

  ghost function DrainCount(g: Graph, limit: nat): nat {
    if limit < |g.pending| then limit else |g.pending|
  }

  /** What `drain_pending(limit)` returns. */
  ghost function DrainMarks(g: Graph, limit: nat): seq<NodeIdx>
    requires Shape(g)
  {
    PopMarks(g, DrainCount(g, limit))
  }

  ghost function DrainAll(g: Graph, limits: seq<nat>): (r: (Graph, seq<NodeIdx>))
    requires Shape(g)
    decreases |limits|
  {
    if limits == [] then (g, [])
    else
      PopsSameWalk(g, DrainCount(g, limits[0]));
      var rest := DrainAll(DrainPending(g, limits[0]), limits[1..]);
      (rest.0, DrainMarks(g, limits[0]) + rest.1)
  }

  lemma {:induction false} PopsSameWalk(g: Graph, n: nat)
    requires Shape(g)
    ensures Shape(Pops(g, n)) && SameWalk(g, Pops(g, n))
    decreases n
  {
    if n > 0 && g.pending != [] {
      DrainOneShape(g);
      PopsSameWalk(DrainOne(g), n - 1);
    }
  }

  lemma {:induction false} PopsStep(g: Graph, n: nat)
    requires Shape(g) && n > 0 && g.pending != []
    ensures Shape(DrainOne(g)) && SameWalk(g, DrainOne(g))
    ensures Pops(g, n) == Pops(DrainOne(g), n - 1)
    ensures PopMarks(g, n) == DrainedMarks(g) + PopMarks(DrainOne(g), n - 1)
  {
    DrainOneShape(g);
  }

  lemma {:induction false} AccountsAfterPops(g: Graph, starts: seq<NodeIdx>, marked: seq<NodeIdx>, n: nat)
    returns (h: Graph, all: seq<NodeIdx>)
    requires Shape(g) && Accounts(g, starts, marked)
    ensures h == Pops(g, n) && all == marked + PopMarks(g, n)
    ensures Shape(h) && SameWalk(g, h) && Accounts(h, starts, all)
    decreases n
  {
    hide DrainOne, DrainedMarks, Accounts;
    h, all := g, marked;
    if n > 0 && g.pending != [] {
      AccountsAfterDrain(g, starts, marked);
      PopsStep(g, n);
      h, all := AccountsAfterPops(DrainOne(g), starts, marked + DrainedMarks(g), n - 1);
    }
  }

  lemma {:induction false} AccountsAfterDrains(g: Graph, starts: seq<NodeIdx>, marked: seq<NodeIdx>, limits: seq<nat>)
    returns (h: Graph, all: seq<NodeIdx>)
    requires Shape(g) && Accounts(g, starts, marked)
    ensures h == DrainAll(g, limits).0 && all == marked + DrainAll(g, limits).1
    ensures Shape(h) && SameWalk(g, h) && Accounts(h, starts, all)
    decreases |limits|
  {
    hide Pops, PopMarks, Accounts;
    h, all := g, marked;
    if limits != [] {
      var h1, all1 := AccountsAfterPops(g, starts, marked, DrainCount(g, limits[0]));
      assert h1 == DrainPending(g, limits[0]) && all1 == marked + DrainMarks(g, limits[0]);
      h, all := AccountsAfterDrains(h1, starts, all1, limits[1..]);
    }
  }

  /**
   The bounded cascade refines the unbounded one: after an `invalidate` and any sequence
   of `drain_pending` calls that empties the queue, the nodes marked along the way are
   exactly the closure of the change and of whatever was already waiting.
   */
  lemma {:induction false} DrainedCascadeIsClosure(g: Graph, node: NodeIdx, includeSelf: bool, limits: seq<nat>, x: NodeIdx)
    requires Shape(g) && node < |g.nodes|
    ensures var h := Invalidate(g, node, includeSelf);
      Shape(h) &&
      var (after, drained) := DrainAll(h, limits);
      after.pending == [] ==>
        (x in CascadeFrom(g, node, includeSelf).marked + drained <==>
         InClosure(g, Starts(g, node, includeSelf) + g.pending, x))
  {
    var h := Invalidate(g, node, includeSelf);
    var starts := Starts(g, node, includeSelf) + g.pending;
    var marked := CascadeFrom(g, node, includeSelf).marked;
    AccountsAfterInvalidate(g, node, includeSelf);
    InvalidateSameWalk(g, node, includeSelf);
    var after, all := AccountsAfterDrains(h, starts, marked, limits);
    ClosureFrame(g, h, starts);
    ClosureFrame(h, after, starts);
    if after.pending == [] {
      AccountsEmpty(after, starts, all, x);
    }
  }

  // ---- what the marks do to the nodes -------------------------------------

  lemma {:induction false} MarkedTwice(nodes: seq<Node>, a: seq<NodeIdx>, b: seq<NodeIdx>)
    ensures Marked(Marked(nodes, a), b) == Marked(nodes, a + b)
  {
  }

  lemma {:induction false} PopsNodes(g: Graph, n: nat) returns (h: Graph)
    requires Shape(g)
    ensures h == Pops(g, n) && h.nodes == Marked(g.nodes, PopMarks(g, n))
    decreases n
  {
    hide DrainOne, DrainedMarks;
    h := g;
    if n > 0 && g.pending != [] {
      PopsStep(g, n);
      h := PopsNodes(DrainOne(g), n - 1);
      DrainOneNodes(g);
      MarkedTwice(g.nodes, DrainedMarks(g), PopMarks(DrainOne(g), n - 1));
    }
  }

  lemma {:induction false} DrainOneNodes(g: Graph)
    requires Shape(g) && g.pending != []
    ensures DrainOne(g).nodes == Marked(g.nodes, DrainedMarks(g))
  {
    assert Shape(g.(pending := g.pending[1..]));
  }

  lemma {:induction false} DrainAllNodes(g: Graph, limits: seq<nat>)
    requires Shape(g)
    ensures DrainAll(g, limits).0.nodes == Marked(g.nodes, DrainAll(g, limits).1)
    decreases |limits|
  {
    if limits != [] {
      PopsSameWalk(g, DrainCount(g, limits[0]));
      var h := PopsNodes(g, DrainCount(g, limits[0]));
      DrainAllNodes(DrainPending(g, limits[0]), limits[1..]);
      MarkedTwice(g.nodes, DrainMarks(g, limits[0]), DrainAll(DrainPending(g, limits[0]), limits[1..]).1);
    }
  }

  /** Once drained, a node is stale (evidence: untouched) if it is in the closure and unchanged if it is not. */
  lemma {:induction false} DrainedStatuses(g: Graph, node: NodeIdx, includeSelf: bool, limits: seq<nat>, i: NodeIdx)
    requires Shape(g) && node < |g.nodes| && i < |g.nodes|
    ensures var h := Invalidate(g, node, includeSelf);
      Shape(h) &&
      var after := DrainAll(h, limits).0;
      |after.nodes| == |g.nodes| &&
      (after.pending == [] ==>
        after.nodes[i] ==
          if InClosure(g, Starts(g, node, includeSelf) + g.pending, i) && g.nodes[i].kind != Evidence
          then g.nodes[i].(status := Stale, cachedResult := None) else g.nodes[i])
  {
    var h := Invalidate(g, node, includeSelf);
    DrainedCascadeIsClosure(g, node, includeSelf, limits, i);
    DrainAllNodes(h, limits);
    MarkedTwice(g.nodes, CascadeFrom(g, node, includeSelf).marked, DrainAll(h, limits).1);
  }
}
