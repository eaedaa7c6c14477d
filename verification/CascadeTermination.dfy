/**
 Draining the deferred tail of a cascade (src/graph.rs `drain_pending`): it finishes
 under every bound exactly when no dependency cycle runs through live nodes.

 The measure gives a deferred node of rank `r` the weight `(n + 1)^r`.  Resuming it
 defers at most `n` nodes of smaller rank, so the total weight drops.
 */
module CascadeTermination {
  import A = Arithmetic
  import opened Nodes
  import opened GraphSpec
  import opened CascadeTheory

  /** Acyclic: whatever depends on a live node ranks below it.  A superseded node passes nothing on, a node on itself neither. */
  ghost predicate Ranked(g: Graph, rank: seq<nat>)
    requires Shape(g)
  {
    && |rank| == |g.nodes|
    && forall x: NodeIdx :: x < |g.nodes| && !IsSuperseded(g, x) ==> RanksBelow(g, rank, x)
  }

  ghost predicate RanksBelow(g: Graph, rank: seq<nat>, x: NodeIdx)
    requires Shape(g) && |rank| == |g.nodes| && x < |g.nodes|
  {
    forall k: nat :: k < |Dependents(g, x)| ==>
      Dependents(g, x)[k] < |g.nodes| && (Dependents(g, x)[k] != x ==> rank[Dependents(g, x)[k]] < rank[x])
  }

  ghost function Pow(b: nat, e: nat): nat {
    if e == 0 then 1 else b * Pow(b, e - 1)
  }

  ghost function Weight(rank: seq<nat>, pending: seq<NodeIdx>): nat
    requires Within(pending, |rank|)
  {
    if pending == [] then 0
    else Pow(|rank| + 1, rank[pending[0]]) + Weight(rank, pending[1..])
  }

  lemma {:induction false} PowMonotone(b: nat, d: nat, e: nat)
    requires b >= 1 && d <= e
    ensures 1 <= Pow(b, d) <= Pow(b, e)
  {
    if d < e {
      PowMonotone(b, d, e - 1);
      MulGrows(b, Pow(b, e - 1));
    } else if d > 0 {
      PowMonotone(b, d - 1, e - 1);
      MulGrows(b, Pow(b, e - 1));
    }
  }

  lemma {:induction false} OneMore(n: nat, unit: nat)
    ensures (n + 1) * unit == n * unit + unit
  {
  }

  lemma {:induction false} MulGrows(b: nat, x: nat)
    requires b >= 1
    ensures b * x >= x
  {
    assert b * x == x + (b - 1) * x;
  }

  lemma {:induction false} WeightConcat(rank: seq<nat>, a: seq<NodeIdx>, b: seq<NodeIdx>)
    requires Within(a, |rank|) && Within(b, |rank|)
    ensures Within(a + b, |rank|) && Weight(rank, a + b) == Weight(rank, a) + Weight(rank, b)
  {
    if a == [] {
      assert a + b == b;
    } else {
      assert (a + b)[1..] == a[1..] + b;
      WeightConcat(rank, a[1..], b);
    }
  }

  lemma {:induction false} WeightBound(rank: seq<nat>, s: seq<NodeIdx>, r: nat)
    requires Within(s, |rank|)
    requires forall k :: 0 <= k < |s| ==> rank[s[k]] <= r
    ensures Weight(rank, s) <= |s| * Pow(|rank| + 1, r)
  {
    if s != [] {
      WeightBound(rank, s[1..], r);
      PowMonotone(|rank| + 1, rank[s[0]], r);
      OneMore(|s[1..]|, Pow(|rank| + 1, r));
    }
  }

  // ---- what one resumed node defers ---------------------------------------

  ghost predicate StateBelow(rank: seq<nat>, bound: nat, s: WalkState) {
    && (forall k :: 0 <= k < |s.queue| ==>
          s.queue[k].0 < |rank| && (s.queue[k].0 in s.seen || rank[s.queue[k].0] < bound))
    && (forall k :: 0 <= k < |s.deferred| ==> s.deferred[k] < |rank| && rank[s.deferred[k]] < bound)
  }

  lemma {:induction false} AdvanceBelow(g: Graph, rank: seq<nat>, bound: nat, s: WalkState)
    requires Shape(g) && Ranked(g, rank) && QueueOk(g, s.queue) && s.queue != [] && StateBelow(rank, bound, s)
    ensures StateBelow(rank, bound, Advance(g, s))
  {
    hide Ranked, DependencySources;
    if !IsSuperseded(g, s.queue[0].0) {
      DependentsBelow(g, rank, s.queue[0].0, s.queue[0].1 + 1);
    }
  }

  lemma {:induction false} DependentsBelow(g: Graph, rank: seq<nat>, x: NodeIdx, depth: nat)
    requires Shape(g) && Ranked(g, rank) && x < |g.nodes| && !IsSuperseded(g, x)
    ensures var added := At(Dependents(g, x), depth);
      forall k :: 0 <= k < |added| ==> added[k].0 < |rank| && (added[k].0 == x || rank[added[k].0] < rank[x])
  {
    hide DependencySources;
    assert RanksBelow(g, rank, x);
  }

  lemma {:induction false} WalkBelow(g: Graph, rank: seq<nat>, bound: nat, s: WalkState)
    requires Shape(g) && Ranked(g, rank) && QueueOk(g, s.queue) && StateBelow(rank, bound, s)
    ensures forall k :: 0 <= k < |Walk(g, s).deferred| ==>
      Walk(g, s).deferred[k] < |rank| && rank[Walk(g, s).deferred[k]] < bound
    decreases Indices(|g.nodes|) - s.seen, |s.queue|
  {
    hide Ranked;
    if s.queue != [] {
      assert Id(s.queue[0].0) == s.queue[0].0;
      AdvanceBelow(g, rank, bound, s);
      WalkBelow(g, rank, bound, Advance(g, s));
    }
  }

  /** The resumed node itself is marked or superseded, so only nodes strictly below it are deferred. */
  lemma {:induction false} DeferredBelow(g: Graph, rank: seq<nat>, p: NodeIdx)
    requires Shape(g) && Ranked(g, rank) && p < |g.nodes| && g.maxCascade >= 1
    ensures var c := CascadeFrom(g, p, true);
      forall k :: 0 <= k < |c.deferred| ==> c.deferred[k] < |rank| && rank[c.deferred[k]] < rank[p]
  {
    var s := StartState(g, p, true);
    var r := Advance(g, s);
    assert Id(p) == p;
    assert s.queue == [(p, 0)];
    assert Walk(g, s) == Walk(g, r);
    if !IsSuperseded(g, p) {
      DependentsBelow(g, rank, p, 1);
    }
    assert StateBelow(rank, rank[p], r);
    WalkBelow(g, rank, rank[p], r);
  }

  ghost function Elements(s: seq<nat>): set<nat> {
    set k | 0 <= k < |s| :: s[k]
  }

  lemma {:induction false} DistinctCount(s: seq<nat>)
    requires forall i, j :: 0 <= i < j < |s| ==> s[i] != s[j]
    ensures |Elements(s)| == |s|
  {
    if s != [] {
      var front := s[..|s| - 1];
      DistinctCount(front);
      assert Elements(s) == Elements(front) + {s[|s| - 1]};
      assert s[|s| - 1] !in Elements(front);
    }
  }

  lemma {:induction false} IndicesCount(n: nat)
    ensures |Indices(n)| == n
  {
    if n > 0 {
      IndicesCount(n - 1);
      assert Id(n - 1) == n - 1;
      assert Indices(n) == Indices(n - 1) + {n - 1};
    }
  }

  /** At most as many nodes are deferred as there are nodes. */
  lemma {:induction false} DeferredCount(g: Graph, s: seq<NodeIdx>)
    requires Within(s, |g.nodes|) && forall i, j :: 0 <= i < j < |s| ==> s[i] != s[j]
    ensures |s| <= |g.nodes|
  {
    DistinctCount(s);
    IndicesCount(|g.nodes|);
    assert forall x :: x in Elements(s) ==> Id(x) == x;
    A.SubsetSize(Elements(s), Indices(|g.nodes|));
  }

  // ---- the measure --------------------------------------------------------

  /** Nodes of smaller rank, no more than there are nodes, weigh less than one of rank `r`. */
  lemma {:induction false} SmallerWeighLess(rank: seq<nat>, s: seq<NodeIdx>, r: nat)
    requires Within(s, |rank|) && |s| <= |rank| && forall k :: 0 <= k < |s| ==> rank[s[k]] < r
    ensures Weight(rank, s) < Pow(|rank| + 1, r)
  {
    if s == [] {
      PowMonotone(|rank| + 1, 0, r);
    } else {
      assert rank[s[0]] < r;
      WeightBound(rank, s, r - 1);
      PowMonotone(|rank| + 1, 0, r - 1);
      var unit := Pow(|rank| + 1, r - 1);
      A.MulMonotone(|s|, |rank|, unit);
      OneMore(|rank|, unit);
    }
  }

  lemma {:induction false} DeferredWeight(g: Graph, rank: seq<nat>, p: NodeIdx)
    requires Shape(g) && Ranked(g, rank) && p < |g.nodes| && g.maxCascade >= 1
    ensures var c := CascadeFrom(g, p, true);
      Within(c.deferred, |rank|) && Weight(rank, c.deferred) < Pow(|rank| + 1, rank[p])
  {
    hide Walk, DependencySources;
    var c := CascadeFrom(g, p, true);
    DeferredBelow(g, rank, p);
    WalkBounded(g, StartState(g, p, true));
    DeferredCount(g, c.deferred);
    SmallerWeighLess(rank, c.deferred, rank[p]);
  }

  /** Resuming one deferred node makes the total weight drop. */
  lemma {:induction false} DrainDecreases(g: Graph, rank: seq<nat>)
    requires Shape(g) && Ranked(g, rank) && g.maxCascade >= 1 && g.pending != []
    ensures Shape(DrainOne(g)) && Ranked(DrainOne(g), rank) && DrainOne(g).maxCascade == g.maxCascade
    ensures Weight(rank, DrainOne(g).pending) < Weight(rank, g.pending)
  {
    hide Walk, DependencySources;
    DrainOneShape(g);
    var p := g.pending[0];
    var g1 := g.(pending := g.pending[1..]);
    assert Shape(g1);
    RankFrame(g, g1, rank);
    RankFrame(g, DrainOne(g), rank);
    DeferredWeight(g1, rank, p);
    var c := CascadeFrom(g1, p, true);
    assert DrainOne(g).pending == g.pending[1..] + c.deferred;
    WeightConcat(rank, g.pending[1..], c.deferred);
  }

  /** On an acyclic graph the queue is empty after boundedly many resumptions. */
  lemma {:induction false} DrainTerminates(g: Graph, rank: seq<nat>, n: nat) returns (h: Graph)
    requires Shape(g) && Ranked(g, rank) && g.maxCascade >= 1 && n >= Weight(rank, g.pending)
    ensures h == Pops(g, n) && h.pending == []
    decreases n
  {
    hide DrainOne, Ranked;
    h := g;
    if g.pending != [] {
      DrainDecreases(g, rank);
      PopsStep(g, n);
      h := DrainTerminates(DrainOne(g), rank, n - 1);
    }
  }

  lemma {:induction false} PopsDecrease(g: Graph, rank: seq<nat>, n: nat) returns (h: Graph)
    requires Shape(g) && Ranked(g, rank) && g.maxCascade >= 1
    ensures h == Pops(g, n) && Shape(h) && Ranked(h, rank) && h.maxCascade == g.maxCascade
    ensures Weight(rank, h.pending) <= Weight(rank, g.pending)
    ensures n > 0 && g.pending != [] ==> Weight(rank, h.pending) < Weight(rank, g.pending)
    decreases n
  {
    hide DrainOne, Ranked;
    h := g;
    if n > 0 && g.pending != [] {
      DrainDecreases(g, rank);
      PopsStep(g, n);
      h := PopsDecrease(DrainOne(g), rank, n - 1);
    }
  }

  lemma {:induction false} PendingWeighs(g: Graph, rank: seq<nat>)
    requires Shape(g) && Ranked(g, rank) && g.pending != []
    ensures Weight(rank, g.pending) >= 1
  {
    PowMonotone(|rank| + 1, 0, rank[g.pending[0]]);
  }

  /** So enough `drain_pending` calls, each allowed at least one node, empty the queue. */
  lemma {:induction false} DrainCallsTerminate(g: Graph, rank: seq<nat>, limits: seq<nat>) returns (h: Graph)
    requires Shape(g) && Ranked(g, rank) && g.maxCascade >= 1
    requires |limits| >= Weight(rank, g.pending) && forall k :: 0 <= k < |limits| ==> limits[k] >= 1
    ensures h == DrainAll(g, limits).0 && h.pending == []
    decreases |limits|
  {
    hide Pops, PopMarks, Ranked;
    h := g;
    if limits != [] {
      var n := DrainCount(g, limits[0]);
      var h1 := PopsDecrease(g, rank, n);
      assert h1 == DrainPending(g, limits[0]);
      h := DrainCallsTerminate(h1, rank, limits[1..]);
    } else if g.pending != [] {
      PendingWeighs(g, rank);
      assert false;
    }
  }

  /**
   Acyclic graphs: after `invalidate` and enough drains the marked nodes are exactly the
   unbounded cascade, however small the eager bounds are.
   */
  lemma {:induction false} AcyclicCascadeCompletes(
    g: Graph, rank: seq<nat>, node: NodeIdx, includeSelf: bool, limits: seq<nat>, x: NodeIdx)
    requires Shape(g) && Ranked(g, rank) && g.maxCascade >= 1 && node < |g.nodes|
    requires var h := Invalidate(g, node, includeSelf);
      Within(h.pending, |rank|) && |limits| >= Weight(rank, h.pending)
    requires forall k :: 0 <= k < |limits| ==> limits[k] >= 1
    ensures Shape(Invalidate(g, node, includeSelf)) &&
      var (after, drained) := DrainAll(Invalidate(g, node, includeSelf), limits);
      && after.pending == []
      && (x in CascadeFrom(g, node, includeSelf).marked + drained <==>
          InClosure(g, Starts(g, node, includeSelf) + g.pending, x))
  {
    hide Walk, Pops, PopMarks, DependencySources, InClosure, DrainAll;
    var h := Invalidate(g, node, includeSelf);
    InvalidateSameWalk(g, node, includeSelf);
    RankFrame(g, h, rank);
    var after := DrainCallsTerminate(h, rank, limits);
    DrainedCascadeIsClosure(g, node, includeSelf, limits, x);
  }

  lemma {:induction false} RankFrame(g: Graph, h: Graph, rank: seq<nat>)
    requires Shape(g) && Shape(h) && SameWalk(g, h) && Ranked(g, rank)
    ensures Ranked(h, rank)
  {
    forall x: NodeIdx | x < |h.nodes| && !IsSuperseded(h, x)
      ensures RanksBelow(h, rank, x)
    {
      assert RanksBelow(g, rank, x) && Dependents(h, x) == Dependents(g, x);
    }
  }

  // ---- cycles -------------------------------------------------------------

  /** Some other node of `s` depends on `x`. */
  ghost predicate Feeds(g: Graph, s: set<NodeIdx>, x: NodeIdx)
    requires x < |g.inEdges|
  {
    exists y: NodeIdx :: y in s && y != x && y in Dependents(g, x)
  }

  /** Live nodes that all feed one another: what a dependency cycle leaves behind. */
  ghost predicate Trap(g: Graph, s: set<NodeIdx>)
    requires Shape(g)
  {
    s != {} && forall x: NodeIdx :: x in s ==> x < |g.nodes| && !IsSuperseded(g, x) && Feeds(g, s, x)
  }

  ghost predicate Waits(pending: seq<NodeIdx>, s: set<NodeIdx>) {
    exists x: NodeIdx :: x in pending && x in s
  }

  lemma {:induction false} TrapMember(g: Graph, s: set<NodeIdx>, x: NodeIdx) returns (y: NodeIdx)
    requires Shape(g) && Trap(g, s) && x in s
    ensures |g.inEdges| == |g.nodes| && x < |g.nodes| && !IsSuperseded(g, x)
    ensures y in s && y != x && y in Dependents(g, x)
  {
    hide Dependents, IsSuperseded;
    assert Feeds(g, s, x);
    y :| y in s && y != x && y in Dependents(g, x);
  }

  /** What a cascade leaves unmarked it defers or skips as superseded. */
  lemma {:induction false} CascadeHandles(g: Graph, x: NodeIdx, y: NodeIdx)
    requires Shape(g) && x < |g.nodes| && y in Dependents(g, x)
    ensures var c := CascadeFrom(g, x, true);
            && |c.marked| <= g.maxCascade && Handled(g, c.marked, c.deferred, x)
            && (x in c.marked ==> Handled(g, c.marked, c.deferred, y))
  {
    hide Walk, CascadeFrom, Dependents, Shape, Handled, MarkedSoundly, ArrivesSomehow;
    InvalidateBounded(g, x, true);
    assert x in Starts(g, x, true);
  }

  /** With a cascade of one node, resuming a node of a trap defers it or another node of the trap. */
  lemma {:induction false} TrapDefers(g: Graph, s: set<NodeIdx>, x: NodeIdx)
    requires Shape(g) && Trap(g, s) && g.maxCascade == 1 && x in s
    ensures Waits(CascadeFrom(g, x, true).deferred, s)
  {
    hide CascadeFrom, Dependents, Shape;
    var y := TrapMember(g, s, x);
    var c := CascadeFrom(g, x, true);
    var _ := TrapMember(g, s, y);
    CascadeHandles(g, x, y);
    if x in c.marked && y in c.marked {
      TwoMarked(c.marked, x, y);
    }
  }

  lemma {:induction false} TwoMarked(s: seq<NodeIdx>, x: NodeIdx, y: NodeIdx)
    requires x in s && y in s && x != y
    ensures |s| >= 2
  {
  }

  lemma {:induction false} SameDependents(g: Graph, h: Graph, x: NodeIdx)
    requires g.inEdges == h.inEdges && x < |g.inEdges|
    ensures Dependents(g, x) == Dependents(h, x)
  {
  }

  lemma {:induction false} FeedsBy(g: Graph, s: set<NodeIdx>, x: NodeIdx, y: NodeIdx)
    requires x < |g.inEdges| && y in s && y != x && y in Dependents(g, x)
    ensures Feeds(g, s, x)
  {
  }

  lemma {:induction false} TrapOf(g: Graph, h: Graph, s: set<NodeIdx>)
    requires Shape(g) && Shape(h) && Trap(g, s)
    requires forall x: NodeIdx :: x in s ==> x < |h.nodes| && !IsSuperseded(h, x) && Feeds(h, s, x)
    ensures Trap(h, s)
  {
    hide Feeds, IsSuperseded, Shape;
  }

  /** A trap is a matter of edges and superseded nodes alone. */
  lemma {:induction false} TrapFrame(g: Graph, h: Graph, s: set<NodeIdx>)
    requires Shape(g) && Shape(h) && Trap(g, s)
    requires g.inEdges == h.inEdges && |g.nodes| == |h.nodes|
    requires forall i :: 0 <= i < |g.nodes| ==> (IsSuperseded(g, i) <==> IsSuperseded(h, i))
    ensures Trap(h, s)
  {
    hide Shape, Trap, IsSuperseded, Feeds, Dependents;
    forall x: NodeIdx | x in s ensures x < |h.nodes| && x < |h.inEdges| && !IsSuperseded(h, x) && Feeds(h, s, x) {
      var y := TrapMember(g, s, x);
      SameDependents(g, h, x);
      FeedsBy(h, s, x, y);
    }
    TrapOf(g, h, s);
  }

  lemma {:induction false} TrapHolds(g: Graph, s: set<NodeIdx>)
    requires Shape(g) && Trap(g, s) && g.maxCascade == 1 && Waits(g.pending, s)
    ensures g.pending != []
    ensures var h := DrainOne(g); Shape(h) && Trap(h, s) && h.maxCascade == 1 && Waits(h.pending, s)
  {
    hide Trap, Feeds, Invalidate, DrainOne, CascadeFrom, IsSuperseded;
    assert g.pending != [];
    DrainOneShape(g);
    TrapFrame(g, DrainOne(g), s);
    var g1, p := g.(pending := g.pending[1..]), g.pending[0];
    PendingAfter(g);
    assert g.pending == [p] + g.pending[1..];
    if p in s {
      TrapFrame(g, g1, s);
      TrapDefers(g1, s, p);
    }
  }

  lemma {:induction false} PendingAfter(g: Graph)
    requires Shape(g) && g.pending != []
    ensures var g1 := g.(pending := g.pending[1..]);
            && Shape(g1) && (forall i :: 0 <= i < |g.nodes| ==> (IsSuperseded(g, i) <==> IsSuperseded(g1, i)))
            && DrainOne(g).pending == g1.pending + CascadeFrom(g1, g.pending[0], true).deferred
  {
    hide CascadeFrom;
  }

  /** While a node of a trap waits, the queue never empties, however often it is drained. */
  lemma {:induction false} CycleNeverDrains(g: Graph, s: set<NodeIdx>, n: nat)
    requires Shape(g) && Trap(g, s) && g.maxCascade == 1 && Waits(g.pending, s)
    ensures Pops(g, n).pending != []
    decreases n
  {
    hide DrainOne, Trap, Waits;
    TrapHolds(g, s);
    if n > 0 {
      PopsStep(g, n);
      CycleNeverDrains(DrainOne(g), s, n - 1);
    }
  }

  // ---- acyclic, or trapped ------------------------------------------------

  lemma {:induction false} RankStep(g: Graph, rank: seq<nat>, x: NodeIdx, y: NodeIdx)
    requires Shape(g) && Ranked(g, rank) && x < |g.nodes| && !IsSuperseded(g, x) && y in Dependents(g, x) && y != x
    ensures y < |rank| && rank[y] < rank[x]
  {
    hide Dependents, IsSuperseded;
    assert RanksBelow(g, rank, x);
  }

  /** In a trap the rank would fall forever. */
  lemma {:induction false} RankedHasNoTrap(g: Graph, rank: seq<nat>, s: set<NodeIdx>, x: NodeIdx)
    requires Shape(g) && Ranked(g, rank) && Trap(g, s) && x in s && x < |rank|
    ensures false
    decreases rank[x]
  {
    hide Dependents, IsSuperseded, Trap, Shape;
    var y := TrapMember(g, s, x);
    RankStep(g, rank, x, y);
    RankedHasNoTrap(g, rank, s, y);
  }

  /** Ranked so far: every live node outside `left`, below `top`, over dependents that are outside too. */
  ghost predicate RankedBut(g: Graph, rank: seq<nat>, left: set<NodeIdx>, top: nat)
    requires Shape(g)
  {
    && |rank| == |g.nodes| && (forall i: nat :: i < |rank| ==> rank[i] < top)
    && (forall x: NodeIdx :: x in left ==> x < |g.nodes| && !IsSuperseded(g, x))
    && forall x: NodeIdx :: x < |g.nodes| && !IsSuperseded(g, x) && x !in left ==>
         RanksBelow(g, rank, x) && !Feeds(g, left, x)
  }

  /** Where there is no trap, some node can always be ranked next. */
  lemma {:induction false} RankRest(g: Graph, rank: seq<nat>, left: set<NodeIdx>, top: nat) returns (full: seq<nat>)
    requires Shape(g) && RankedBut(g, rank, left, top) && forall s :: s <= left ==> !Trap(g, s)
    ensures Ranked(g, full)
    decreases |left|
  {
    hide Dependents;
    full := rank;
    if left != {} {
      assert !Trap(g, left);
      var x: NodeIdx :| x in left && !Feeds(g, left, x);
      RankNext(g, rank, left, top, x);
      full := RankRest(g, rank[x := top], left - {x}, top + 1);
    }
  }

  lemma {:induction false} RankNext(g: Graph, rank: seq<nat>, left: set<NodeIdx>, top: nat, x: NodeIdx)
    requires Shape(g) && RankedBut(g, rank, left, top) && x in left && !Feeds(g, left, x)
    ensures RankedBut(g, rank[x := top], left - {x}, top + 1)
  {
    hide DependencySources;
    var next := rank[x := top];
    forall z: NodeIdx | z < |g.nodes| && !IsSuperseded(g, z) && z !in left - {x}
      ensures RanksBelow(g, next, z) && !Feeds(g, left - {x}, z)
    {
      DependentsInRange(g, z);
      var deps := Dependents(g, z);
      assert !Feeds(g, left, z);
      forall k: nat | k < |deps| && deps[k] != z ensures next[deps[k]] < next[z] {
        assert deps[k] in deps && deps[k] !in left;
        assert z != x ==> RanksBelow(g, rank, z);
      }
    }
  }

  /** The nodes still to rank at the start. */
  ghost function LiveNodes(g: Graph): set<NodeIdx> {
    set x: NodeIdx | 0 <= x < |g.nodes| && !IsSuperseded(g, x)
  }

  lemma {:induction false} RankAll(g: Graph) returns (rank: seq<nat>)
    requires Shape(g) && forall s :: !Trap(g, s)
    ensures Ranked(g, rank)
  {
    hide Trap, RanksBelow, Ranked;
    rank := RankRest(g, seq(|g.nodes|, _ => 0), LiveNodes(g), 1);
  }

  /** Draining empties the queue in the end. */
  ghost predicate Drains(g: Graph)
    requires Shape(g)
  {
    exists n: nat :: Pops(g, n).pending == []
  }

  /** The same dependencies, with another queue and another bound on the eager part. */
  ghost predicate Reset(g: Graph, h: Graph) {
    h == g.(pending := h.pending, maxCascade := h.maxCascade) && Shape(h) && h.maxCascade >= 1
  }

  /**
   Draining empties every queue under every bound exactly when no dependency cycle runs
   through live nodes.
   */
  lemma {:induction false} DrainsIffAcyclic(g: Graph)
    requires Shape(g)
    ensures (forall h :: Reset(g, h) ==> Drains(h)) <==> exists rank :: Ranked(g, rank)
  {
    hide Pops, Ranked, Trap;
    if s :| Trap(g, s) {
      var h := TrappedQueue(g, s);
      assert Reset(g, h) && !Drains(h);
      TrapHasNoRank(g, s);
    } else {
      var rank := RankAll(g);
      forall h | Reset(g, h) ensures Drains(h) {
        RankReset(g, h, rank);
        var n := Weight(rank, h.pending);
        var end := DrainTerminates(h, rank, n);
        assert Pops(h, n).pending == [];
      }
    }
  }

  lemma {:induction false} TrapHasNoRank(g: Graph, s: set<NodeIdx>)
    requires Shape(g) && Trap(g, s)
    ensures forall rank :: !Ranked(g, rank)
  {
    hide Dependents, IsSuperseded, Feeds, RanksBelow;
    forall rank ensures !Ranked(g, rank) {
      if Ranked(g, rank) {
        var x: NodeIdx :| x in s;
        RankedHasNoTrap(g, rank, s, x);
      }
    }
  }

  lemma {:induction false} RankReset(g: Graph, h: Graph, rank: seq<nat>)
    requires Shape(g) && Reset(g, h) && Ranked(g, rank)
    ensures Ranked(h, rank) && Within(h.pending, |rank|)
  {
    hide DependencySources;
    forall x: NodeIdx | x < |h.nodes| && !IsSuperseded(h, x) ensures RanksBelow(h, rank, x) {
      assert RanksBelow(g, rank, x) && Dependents(h, x) == Dependents(g, x);
    }
  }

  lemma {:induction false} TrappedQueue(g: Graph, s: set<NodeIdx>) returns (h: Graph)
    requires Shape(g) && Trap(g, s)
    ensures Reset(g, h) && !Drains(h)
  {
    hide Pops, Feeds;
    var x: NodeIdx :| x in s;
    h := g.(pending := [x], maxCascade := 1);
    TrapFrame(g, h, s);
    assert x in h.pending;
    forall n: nat ensures Pops(h, n).pending != [] {
      CycleNeverDrains(h, s, n);
    }
  }
}
