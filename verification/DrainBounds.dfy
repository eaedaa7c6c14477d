/**
 When draining ends under the very bounds a graph has (src/graph.rs `drain_pending`).

 What resuming a node defers depends on the edges, the superseded nodes and the bounds
 alone, so it never changes while the queue is drained.  Draining goes on forever exactly
 when a waiting node belongs to a set whose members each defer a member of it.
 */
module DrainBounds {
  import opened CascadeTermination
  import opened CascadeTheory
  import opened GraphSpec
  import I = GraphIndex
  import opened Nodes

  /** What resuming `x` defers. */
  ghost function Defers(g: Graph, x: NodeIdx): seq<NodeIdx>
    requires Shape(g) && x < |g.nodes|
  {
    CascadeFrom(g, x, true).deferred
  }

  lemma {:induction false} DefersSame(g: Graph, h: Graph, x: NodeIdx)
    requires Shape(g) && Shape(h) && SameWalk(g, h) && x < |g.nodes|
    ensures Defers(g, x) == Defers(h, x)
  {
    hide Walk, Shape, SameWalk;
    assert StartState(g, x, true) == StartState(h, x, true) by {
      StartsAlike(g, h, x);
    }
    WalkFrame(g, h, StartState(g, x, true));
  }

  lemma {:induction false} StartsAlike(g: Graph, h: Graph, x: NodeIdx)
    requires Shape(g) && Shape(h) && SameWalk(g, h) && x < |g.nodes|
    ensures |g.nodes| == |h.nodes| && StartState(g, x, true) == StartState(h, x, true)
  {
  }

  lemma {:induction false} DefersFew(g: Graph, x: NodeIdx)
    requires Shape(g) && x < |g.nodes|
    ensures Within(Defers(g, x), |g.nodes|) && |Defers(g, x)| <= |g.nodes|
  {
    hide Walk, DependencySources;
    WalkInRange(g, StartState(g, x, true));
    WalkBounded(g, StartState(g, x, true));
    DeferredCount(g, Defers(g, x));
  }

  /** Resuming `x` defers a node of `s`. */
  ghost predicate Again(g: Graph, s: set<NodeIdx>, x: NodeIdx)
    requires Shape(g)
  {
    x < |g.nodes| && exists y: NodeIdx :: y in s && y in Defers(g, x)
  }

  /** Nodes that keep each other deferred. */
  ghost predicate Loop(g: Graph, s: set<NodeIdx>)
    requires Shape(g)
  {
    s != {} && forall x: NodeIdx :: x in s ==> Again(g, s, x)
  }

  lemma {:induction false} LoopSame(g: Graph, h: Graph, s: set<NodeIdx>)
    requires Shape(g) && Shape(h) && SameWalk(g, h) && Loop(g, s)
    ensures Loop(h, s)
  {
    hide Shape, Defers;
    forall x: NodeIdx | x in s ensures Again(h, s, x) {
      assert Again(g, s, x);
      DefersSame(g, h, x);
    }
  }

  lemma {:induction false} DrainOnePending(g: Graph)
    requires Shape(g) && g.pending != []
    ensures g.pending[0] < |g.nodes| && Shape(DrainOne(g)) && SameWalk(g, DrainOne(g))
    ensures DrainOne(g).pending == g.pending[1..] + Defers(g, g.pending[0])
  {
    hide CascadeFrom, Invalidate;
    DrainOneShape(g);
    PendingAfter(g);
    DefersSame(g, g.(pending := g.pending[1..]), g.pending[0]);
  }

  /** While a node of a loop waits, draining goes on. */
  lemma {:induction false} LoopHolds(g: Graph, s: set<NodeIdx>)
    requires Shape(g) && Loop(g, s) && Waits(g.pending, s)
    ensures g.pending != [] && Shape(DrainOne(g)) && Loop(DrainOne(g), s) && Waits(DrainOne(g).pending, s)
  {
    hide Shape, Defers, Loop, DrainOne, SameWalk;
    var x: NodeIdx :| x in g.pending && x in s;
    DrainOnePending(g);
    LoopSame(g, DrainOne(g), s);
    if x == g.pending[0] {
      LoopMember(g, s, x);
    } else {
      assert g.pending == [g.pending[0]] + g.pending[1..];
    }
  }

  lemma {:induction false} LoopMember(g: Graph, s: set<NodeIdx>, x: NodeIdx)
    requires Shape(g) && Loop(g, s) && x in s
    ensures x < |g.nodes| && exists y: NodeIdx :: y in s && y in Defers(g, x)
  {
    hide Shape, Defers;
    assert Again(g, s, x);
  }

  lemma {:induction false} LoopNeverDrains(g: Graph, s: set<NodeIdx>, n: nat)
    requires Shape(g) && Loop(g, s) && Waits(g.pending, s)
    ensures Pops(g, n).pending != []
    decreases n
  {
    hide DrainOne, Loop, Waits, Shape;
    LoopHolds(g, s);
    if n > 0 {
      PopsStep(g, n);
      LoopNeverDrains(DrainOne(g), s, n - 1);
    } else {
      PopsNone(g);
    }
  }

  lemma {:induction false} PopsNone(g: Graph)
    requires Shape(g)
    ensures Pops(g, 0) == g
  {
  }

  // ---- outside every loop -------------------------------------------------

  /** Outside `left` everything a node defers is outside too, and ranks below it. */
  ghost predicate Descends(g: Graph, rank: seq<nat>, left: set<NodeIdx>)
    requires Shape(g)
  {
    |rank| == |g.nodes| && forall x: NodeIdx :: x < |g.nodes| && x !in left ==> DescendsAt(g, rank, left, x)
  }

  ghost predicate DescendsAt(g: Graph, rank: seq<nat>, left: set<NodeIdx>, x: NodeIdx)
    requires Shape(g) && |rank| == |g.nodes| && x < |g.nodes|
  {
    forall y: NodeIdx :: y in Defers(g, x) ==> y < |rank| && y !in left && rank[y] < rank[x]
  }

  /** Nodes are ranked one by one, until what is left is a loop or nothing. */
  lemma {:induction false} RankOutside(g: Graph, rank: seq<nat>, left: set<NodeIdx>, top: nat)
    returns (full: seq<nat>, loop: set<NodeIdx>)
    requires Shape(g) && Descends(g, rank, left) && forall i: nat :: i < |rank| ==> rank[i] < top
    requires forall x: NodeIdx :: x in left ==> x < |g.nodes|
    ensures Descends(g, full, loop) && (loop == {} || Loop(g, loop))
    decreases |left|
  {
    hide Shape, Descends, Again;
    full, loop := rank, left;
    if x: NodeIdx :| x in left && !Again(g, left, x) {
      RankOneMore(g, rank, left, top, x);
      full, loop := RankOutside(g, rank[x := top], left - {x}, top + 1);
    }
  }

  lemma {:induction false} RankOneMore(g: Graph, rank: seq<nat>, left: set<NodeIdx>, top: nat, x: NodeIdx)
    requires Shape(g) && Descends(g, rank, left) && (forall i: nat :: i < |rank| ==> rank[i] < top)
    requires x in left && x < |g.nodes| && !Again(g, left, x)
    ensures |rank| == |g.nodes| && Descends(g, rank[x := top], left - {x})
  {
    hide Shape, Defers;
    var next := rank[x := top];
    DefersFew(g, x);
    forall z: NodeIdx | z < |g.nodes| && z !in left - {x} ensures DescendsAt(g, next, left - {x}, z) {
      if z != x {
        assert DescendsAt(g, rank, left, z);
      } else {
        forall y: NodeIdx | y in Defers(g, x) ensures y < |next| && y !in left - {x} && next[y] < next[x] {
          assert y !in left;
        }
      }
    }
  }

  /** The queue of nodes that descend empties. */
  lemma {:induction false} DescentEnds(g: Graph, rank: seq<nat>, left: set<NodeIdx>, n: nat)
    requires Shape(g) && Descends(g, rank, left) && Within(g.pending, |rank|)
    requires (forall k: nat :: k < |g.pending| ==> g.pending[k] !in left) && n >= Weight(rank, g.pending)
    ensures Pops(g, n).pending == []
    decreases n
  {
    hide DrainOne, Shape, Descends, Defers, SameWalk, Weight;
    if g.pending == [] {
      PopsIdle(g, n);
    } else {
      var p, rest := g.pending[0], g.pending[1..];
      DrainOnePending(g);
      DefersLess(g, rank, left, p);
      FirstWeighs(rank, g.pending);
      WeightConcat(rank, rest, Defers(g, p));
      DescendsSame(g, DrainOne(g), rank, left);
      PopsStep(g, n);
      DescentEnds(DrainOne(g), rank, left, n - 1);
    }
  }

  lemma {:induction false} PopsIdle(g: Graph, n: nat)
    requires Shape(g) && g.pending == []
    ensures Pops(g, n).pending == []
  {
  }

  lemma {:induction false} FirstWeighs(rank: seq<nat>, s: seq<NodeIdx>)
    requires s != [] && Within(s, |rank|)
    ensures Within(s[1..], |rank|) && Weight(rank, s) == Pow(|rank| + 1, rank[s[0]]) + Weight(rank, s[1..])
  {
  }

  lemma {:induction false} DefersLess(g: Graph, rank: seq<nat>, left: set<NodeIdx>, p: NodeIdx)
    requires Shape(g) && Descends(g, rank, left) && p < |g.nodes| && p !in left
    ensures |rank| == |g.nodes| && Within(Defers(g, p), |rank|)
    ensures forall k: nat :: k < |Defers(g, p)| ==> Defers(g, p)[k] !in left
    ensures Weight(rank, Defers(g, p)) < Pow(|rank| + 1, rank[p])
  {
    hide Shape, Defers;
    DefersFew(g, p);
    var c := Defers(g, p);
    assert DescendsAt(g, rank, left, p);
    forall k: nat | k < |c| ensures c[k] !in left && rank[c[k]] < rank[p] {
      assert c[k] in c;
    }
    SmallerWeighLess(rank, c, rank[p]);
  }

  lemma {:induction false} DescendsSame(g: Graph, h: Graph, rank: seq<nat>, left: set<NodeIdx>)
    requires Shape(g) && Shape(h) && SameWalk(g, h) && Descends(g, rank, left)
    ensures Descends(h, rank, left)
  {
    hide Shape, Defers;
    forall x: NodeIdx | x < |h.nodes| && x !in left ensures DescendsAt(h, rank, left, x) {
      assert DescendsAt(g, rank, left, x);
      DefersSame(g, h, x);
    }
  }

  /**
   Under the bounds the graph has, draining its queue ends exactly when no waiting node
   belongs to a loop of deferrals.
   */
  lemma {:induction false} DrainsIffNoLoop(g: Graph)
    requires Shape(g)
    ensures Drains(g) <==> forall s :: Loop(g, s) ==> !Waits(g.pending, s)
  {
    hide Pops, Loop, Shape, Weight;
    if s :| Loop(g, s) && Waits(g.pending, s) {
      forall n: nat ensures Pops(g, n).pending != [] {
        LoopNeverDrains(g, s, n);
      }
    } else {
      var rank, left := RankedOutside(g);
      PendingInRange(g);
      forall k: nat | k < |g.pending| ensures g.pending[k] !in left {
        assert g.pending[k] in g.pending;
      }
      var n := Weight(rank, g.pending);
      DescentEnds(g, rank, left, n);
    }
  }

  lemma {:induction false} PendingInRange(g: Graph)
    requires Shape(g)
    ensures Within(g.pending, |g.nodes|)
  {
  }

  lemma {:induction false} RankedOutside(g: Graph) returns (rank: seq<nat>, left: set<NodeIdx>)
    requires Shape(g)
    ensures |rank| == |g.nodes| && Descends(g, rank, left) && (left == {} || Loop(g, left))
  {
    hide Shape, Loop, DescendsAt;
    assert forall x: NodeIdx :: x < |g.nodes| ==> Id(x) in Indices(|g.nodes|);
    rank, left := RankOutside(g, seq(|g.nodes|, _ => 0), Indices(|g.nodes|), 1);
  }

  // ---- how a cycle comes about --------------------------------------------

  /** Two edges, one in each direction, between live nodes make a cycle that some queue never survives. */
  lemma {:induction false} BothWaysNeverDrains(g: Graph, a: NodeIdx, b: NodeIdx, kind: EdgeType)
    requires Shape(g) && I.Mirror(g) && a < |g.nodes| && b < |g.nodes| && a != b && kind.IsDependency()
    requires !IsSuperseded(g, a) && !IsSuperseded(g, b)
    ensures var h := AddEdge(AddEdge(g, a, b, kind), b, a, kind);
            Shape(h) && Trap(h, {a, b}) && !(forall k :: Reset(h, k) ==> Drains(k))
  {
    hide Feeds, Trap, I.Mirror, Shape, Reset, Drains, Ranked, AddEdge;
    Added(g, a, b, kind);
    var h1 := AddEdge(g, a, b, kind);
    Added(h1, b, a, kind);
    var h := AddEdge(h1, b, a, kind);
    Feeding(h, a, b, Edge(b, a, kind));
    Feeding(h, b, a, Edge(a, b, kind));
    PairTraps(h, a, b);
    TrapHasNoRank(h, {a, b});
    DrainsIffAcyclic(h);
  }

  lemma {:induction false} Added(g: Graph, src: NodeIdx, dst: NodeIdx, kind: EdgeType)
    requires Shape(g) && I.Mirror(g) && src < |g.nodes| && dst < |g.nodes|
    ensures var h := AddEdge(g, src, dst, kind);
            && Shape(h) && I.Mirror(h) && h.nodes == g.nodes
            && |h.inEdges| == |h.outEdges| == |g.inEdges| == |g.outEdges| == |g.nodes|
            && Edge(src, dst, kind) in h.inEdges[dst]
            && forall i: nat, e :: i < |g.inEdges| && e in g.inEdges[i] ==> e in h.inEdges[i]
  {
    AddEdgeShape(g, src, dst, kind);
    I.AddEdgeMirror(g, src, dst, kind);
  }

  lemma {:induction false} Feeding(h: Graph, x: NodeIdx, y: NodeIdx, e: Edge)
    requires Shape(h) && x < |h.inEdges| && e in h.inEdges[x] && e.src == y && e.kind.IsDependency() && x != y
    ensures Feeds(h, {x, y}, x)
  {
    hide Shape;
    DependencySourcesAre(h.inEdges[x], y);
  }

  lemma {:induction false} PairTraps(h: Graph, a: NodeIdx, b: NodeIdx)
    requires Shape(h) && a < |h.nodes| && b < |h.nodes| && !IsSuperseded(h, a) && !IsSuperseded(h, b)
    requires |h.inEdges| == |h.nodes| && Feeds(h, {a, b}, a) && Feeds(h, {b, a}, b)
    ensures Trap(h, {a, b})
  {
    hide Shape, Feeds, IsSuperseded;
    assert {a, b} == {b, a};
  }
}
