/**
 The audit path (src/graph.rs `explain`): the walk from a node down its dependency
 edges, capped in depth.

 `InSupport` is the reference definition: everything reachable along dependency edges.
 With a cap of at least the node count the walk returns exactly that, and reports
 itself complete exactly when it met evidence.
 */
module Explain {
  import A = Arithmetic
  import opened Nodes
  import opened GraphSpec
  import opened GraphIndex
  import opened GraphHistory
  import L = GraphLives

  function DependencyEdges(edges: seq<Edge>): seq<Edge> {
    if edges == [] then []
    else if edges[0].kind.IsDependency() then [edges[0]] + DependencyEdges(edges[1..])
    else DependencyEdges(edges[1..])
  }

  function Targets(edges: seq<Edge>, depth: nat): (r: seq<(NodeIdx, nat)>)
    ensures |r| == |edges| && forall k :: 0 <= k < |r| ==> r[k] == (edges[k].dst, depth)
  {
    seq(|edges|, k requires 0 <= k < |edges| => (edges[k].dst, depth))
  }

  function PushSpans(spans: seq<string>, more: seq<string>): (r: seq<string>)
    ensures forall s :: s in r <==> s in spans || s in more
    decreases |more|
  {
    if more == [] then spans else PushSpans(PushNew(spans, more[0]), more[1..])
  }

  /** The working variables of the walk; all but the queue are what it returns. */
  datatype Trail = Trail(
    queue: seq<(NodeIdx, nat)>, seen: set<NodeIdx>, nodes: seq<NodeIdx>, edges: seq<Edge>, spans: seq<string>,
    truncated: seq<NodeIdx>, depths: map<NodeIdx, nat>, reachedEvidence: bool)

  datatype ExplainPath = ExplainPath(
    root: NodeIdx, nodes: seq<NodeIdx>, edges: seq<Edge>, spans: seq<string>, complete: bool,
    truncatedAt: seq<NodeIdx>, depths: map<NodeIdx, nat>)

  ghost predicate IsEvidence(n: Node) {
    n.kind == Evidence || n.spans != []
  }

  lemma {:induction false} DependencyEdgesAre(edges: seq<Edge>, e: Edge)
    ensures e in DependencyEdges(edges) <==> e in edges && e.kind.IsDependency()
  {
    if edges != [] {
      DependencyEdgesAre(edges[1..], e);
      assert edges == [edges[0]] + edges[1..];
    }
  }

  lemma {:induction false} TargetsInRange(g: Graph, i: NodeIdx, depth: nat)
    requires Shape(g) && i < |g.nodes|
    ensures QueueOk(g, Targets(DependencyEdges(g.outEdges[i]), depth))
  {
    var edges := DependencyEdges(g.outEdges[i]);
    forall k | 0 <= k < |edges|
      ensures edges[k].dst < |g.nodes|
    {
      assert edges[k] in edges;
      DependencyEdgesAre(g.outEdges[i], edges[k]);
    }
  }

  /** One turn of the loop. */
  ghost function Visit(g: Graph, maxDepth: nat, t: Trail): (r: Trail)
    requires Shape(g) && QueueOk(g, t.queue) && t.queue != []
    ensures QueueOk(g, r.queue)
    ensures r.seen == t.seen + {t.queue[0].0}
    ensures t.queue[0].0 in t.seen ==> r.seen == t.seen && |r.queue| < |t.queue|
  {
    var (current, depth) := t.queue[0];
    var rest := t.queue[1..];
    var seen := t.seen + {current};
    if current in t.seen then t.(queue := rest, seen := seen)
    else
      var node := g.nodes[current];
      var t1 := t.(seen := seen, nodes := t.nodes + [current], spans := PushSpans(t.spans, node.spans),
                   depths := t.depths[current := depth],
                   reachedEvidence := t.reachedEvidence || IsEvidence(node));
      if depth >= maxDepth then
        t1.(queue := rest, truncated := if node.deps != [] then t.truncated + [current] else t.truncated)
      else
        TargetsInRange(g, current, depth + 1);
        var out := DependencyEdges(g.outEdges[current]);
        t1.(queue := rest + Targets(out, depth + 1), edges := t.edges + out)
  }

  ghost function Follow(g: Graph, maxDepth: nat, t: Trail): Trail
    requires Shape(g) && QueueOk(g, t.queue)
    decreases Indices(|g.nodes|) - t.seen, |t.queue|
  {
    if t.queue == [] then t
    else
      assert Id(t.queue[0].0) == t.queue[0].0;
      Follow(g, maxDepth, Visit(g, maxDepth, t))
  }

  function StartTrail(root: NodeIdx): Trail {
    Trail([(root, 0)], {}, [], [], [], [], map[], false)
  }

  /** `explain(root, max_depth)`. */
  ghost function ExplainOf(g: Graph, root: NodeIdx, maxDepth: nat): ExplainPath
    requires Shape(g) && root < |g.nodes|
  {
    var t := Follow(g, maxDepth, StartTrail(root));
    ExplainPath(root, t.nodes, t.edges, t.spans, t.truncated == [] && t.reachedEvidence, t.truncated, t.depths)
  }

  // ---- the reference definition -------------------------------------------

  ghost predicate SupportsIn(g: Graph, root: NodeIdx, x: NodeIdx, len: nat)
    requires Shape(g)
    decreases len
  {
    x < |g.nodes| &&
    if len == 0 then x == root
    else exists y: NodeIdx :: y < |g.nodes| && SupportsIn(g, root, y, len - 1) && DependsOn(g, y, x)
  }

  /** `x` is `root` or something it depends on, directly or not. */
  ghost predicate InSupport(g: Graph, root: NodeIdx, x: NodeIdx)
    requires Shape(g)
  {
    exists len: nat :: SupportsIn(g, root, x, len)
  }

  // ---- soundness ----------------------------------------------------------

  ghost predicate TrailSound(g: Graph, root: NodeIdx, t: Trail)
    requires Shape(g)
  {
    && (forall k :: 0 <= k < |t.queue| ==> SupportsIn(g, root, t.queue[k].0, t.queue[k].1))
    && (forall k :: 0 <= k < |t.nodes| ==> InSupport(g, root, t.nodes[k]))
    && NoDups(t.nodes) && (forall x :: x in t.nodes <==> x in t.seen)
    && (t.reachedEvidence <==> exists x: NodeIdx :: x in t.nodes && x < |g.nodes| && IsEvidence(g.nodes[x]))
    && (forall s: string :: s in t.spans <==> exists x: NodeIdx :: x in t.nodes && x < |g.nodes| && s in g.nodes[x].spans)
    && (forall e :: e in t.edges ==> e.src in t.seen && e.src < |g.nodes| && e in g.outEdges[e.src] && e.kind.IsDependency())
  }

  lemma {:induction false} TargetsSupport(
    g: Graph, root: NodeIdx, rest: seq<(NodeIdx, nat)>, x: NodeIdx, depth: nat)
    requires Shape(g) && SupportsIn(g, root, x, depth)
    requires forall k :: 0 <= k < |rest| ==> SupportsIn(g, root, rest[k].0, rest[k].1)
    ensures var q := rest + Targets(DependencyEdges(g.outEdges[x]), depth + 1);
      forall k :: 0 <= k < |q| ==> SupportsIn(g, root, q[k].0, q[k].1)
  {
    TargetsInRange(g, x, depth + 1);
    var edges := DependencyEdges(g.outEdges[x]);
    forall k | 0 <= k < |edges|
      ensures SupportsIn(g, root, edges[k].dst, depth + 1)
    {
      DependencyEdgesAre(g.outEdges[x], edges[k]);
      assert edges[k] in edges;
      assert DependsOn(g, x, edges[k].dst);
      assert Targets(edges, depth + 1)[k].0 < |g.nodes|;
    }
  }

  lemma {:induction false} VisitSound(g: Graph, root: NodeIdx, maxDepth: nat, t: Trail)
    requires Shape(g) && QueueOk(g, t.queue) && t.queue != [] && TrailSound(g, root, t)
    ensures TrailSound(g, root, Visit(g, maxDepth, t))
  {
    hide SupportsIn, PushSpans, DependsOn, Shape;
    var (current, depth) := t.queue[0];
    var r := Visit(g, maxDepth, t);
    assert SupportsIn(g, root, current, depth);
    if current !in t.seen {
      assert InSupport(g, root, current);
      assert r.nodes == t.nodes + [current];
      assert |g.outEdges| == |g.nodes| by { ShapeSizes(g); }
      if depth < maxDepth {
        TargetsSupport(g, root, t.queue[1..], current, depth);
        forall e | e in r.edges
          ensures e.src in r.seen && e.src < |g.nodes| && e in g.outEdges[e.src] && e.kind.IsDependency()
        {
          if e !in t.edges {
            DependencyEdgesAre(g.outEdges[current], e);
            OutEdgeSource(g, current, e);
          }
        }
      }
    }
  }

  lemma {:induction false} OutEdgeSource(g: Graph, i: NodeIdx, e: Edge)
    requires Shape(g) && i < |g.nodes| && e in g.outEdges[i]
    ensures e.src == i
  {
  }

  lemma {:induction false} FollowSound(g: Graph, root: NodeIdx, maxDepth: nat, t: Trail)
    requires Shape(g) && QueueOk(g, t.queue) && TrailSound(g, root, t)
    ensures TrailSound(g, root, Follow(g, maxDepth, t)) && Follow(g, maxDepth, t).queue == []
    decreases Indices(|g.nodes|) - t.seen, |t.queue|
  {
    hide TrailSound, Visit;
    if t.queue != [] {
      assert Id(t.queue[0].0) == t.queue[0].0;
      VisitSound(g, root, maxDepth, t);
      FollowSound(g, root, maxDepth, Visit(g, maxDepth, t));
    }
  }

  // ---- completeness under a generous cap ----------------------------------

  /** No entry is deeper than the number of nodes seen, so a generous cap never bites. */
  ghost predicate TrailComplete(g: Graph, t: Trail)
    requires Shape(g)
  {
    && t.seen <= Indices(|g.nodes|)
    && (forall k :: 0 <= k < |t.queue| ==> t.queue[k].1 <= |t.seen|)
    && t.truncated == []
    && (forall x: NodeIdx, e :: x in t.seen && x < |g.nodes| && e in g.outEdges[x] && e.kind.IsDependency() ==>
          e in t.edges && (e.dst in t.seen || Waiting(t.queue, e.dst)))
  }

  ghost predicate Waiting(queue: seq<(NodeIdx, nat)>, x: NodeIdx) {
    exists k :: 0 <= k < |queue| && queue[k].0 == x
  }

  lemma {:induction false} WaitingAfterPop(queue: seq<(NodeIdx, nat)>, added: seq<(NodeIdx, nat)>, x: NodeIdx)
    requires queue != [] && Waiting(queue, x)
    ensures x == queue[0].0 || Waiting(queue[1..] + added, x)
  {
    var k :| 0 <= k < |queue| && queue[k].0 == x;
    if k > 0 {
      assert (queue[1..] + added)[k - 1].0 == x;
    }
  }

  lemma {:induction false} TargetsWait(edges: seq<Edge>, rest: seq<(NodeIdx, nat)>, depth: nat, e: Edge)
    requires e in edges
    ensures Waiting(rest + Targets(edges, depth), e.dst)
  {
    var k :| 0 <= k < |edges| && edges[k] == e;
    assert (rest + Targets(edges, depth))[|rest| + k].0 == e.dst;
  }

  lemma {:induction false} SeenBelow(g: Graph, seen: set<NodeIdx>, x: NodeIdx)
    requires seen <= Indices(|g.nodes|) && x < |g.nodes| && x !in seen
    ensures |seen| < |g.nodes| && seen + {x} <= Indices(|g.nodes|) && |seen + {x}| == |seen| + 1
  {
    assert Id(x) == x;
    A.SubsetSize(seen + {x}, Indices(|g.nodes|));
    IndicesSize(|g.nodes|);
  }

  lemma {:induction false} IndicesSize(n: nat)
    ensures |Indices(n)| == n
  {
    if n > 0 {
      IndicesSize(n - 1);
      assert Id(n - 1) == n - 1;
      assert Indices(n) == Indices(n - 1) + {n - 1};
    }
  }

  lemma {:induction false} VisitComplete(g: Graph, maxDepth: nat, t: Trail)
    requires Shape(g) && QueueOk(g, t.queue) && t.queue != [] && maxDepth >= |g.nodes| && TrailComplete(g, t)
    ensures TrailComplete(g, Visit(g, maxDepth, t))
  {
    hide PushSpans, Waiting, Shape;
    ShapeSizes(g);
    var (current, depth) := t.queue[0];
    var r := Visit(g, maxDepth, t);
    assert depth <= |t.seen|;
    if current in t.seen {
      assert r.seen == t.seen;
      assert r.queue == t.queue[1..] + [];
      forall x: NodeIdx, e | x in r.seen && x < |g.nodes| && e in g.outEdges[x] && e.kind.IsDependency()
        ensures e in r.edges && (e.dst in r.seen || Waiting(r.queue, e.dst))
      {
        if e.dst !in t.seen {
          WaitingAfterPop(t.queue, [], e.dst);
        }
      }
    } else {
      SeenBelow(g, t.seen, current);
      var out := DependencyEdges(g.outEdges[current]);
      var added := Targets(out, depth + 1);
      forall x: NodeIdx, e | x in r.seen && x < |g.nodes| && e in g.outEdges[x] && e.kind.IsDependency()
        ensures e in r.edges && (e.dst in r.seen || Waiting(r.queue, e.dst))
      {
        if x in t.seen {
          if e.dst !in r.seen {
            WaitingAfterPop(t.queue, added, e.dst);
          }
        } else {
          DependencyEdgesAre(g.outEdges[current], e);
          TargetsWait(out, t.queue[1..], depth + 1, e);
        }
      }
    }
  }

  lemma {:induction false} FollowComplete(g: Graph, maxDepth: nat, t: Trail)
    requires Shape(g) && QueueOk(g, t.queue) && maxDepth >= |g.nodes| && TrailComplete(g, t)
    ensures TrailComplete(g, Follow(g, maxDepth, t))
    ensures forall x :: x in t.seen || Waiting(t.queue, x) ==> x in Follow(g, maxDepth, t).seen
    decreases Indices(|g.nodes|) - t.seen, |t.queue|
  {
    hide TrailComplete, PushSpans;
    if t.queue != [] {
      assert Id(t.queue[0].0) == t.queue[0].0;
      VisitComplete(g, maxDepth, t);
      var r := Visit(g, maxDepth, t);
      FollowComplete(g, maxDepth, r);
      VisitKeepsWaiting(g, maxDepth, t);
    }
  }

  lemma {:induction false} VisitKeepsWaiting(g: Graph, maxDepth: nat, t: Trail)
    requires Shape(g) && QueueOk(g, t.queue) && t.queue != []
    ensures var r := Visit(g, maxDepth, t);
      forall x :: x in t.seen || Waiting(t.queue, x) ==> x in r.seen || Waiting(r.queue, x)
  {
    hide PushSpans, DependencyEdges, Waiting;
    var r := Visit(g, maxDepth, t);
    assert r.queue == t.queue[1..] + r.queue[|t.queue| - 1..];
    forall x | Waiting(t.queue, x)
      ensures x in r.seen || Waiting(r.queue, x)
    {
      WaitingAfterPop(t.queue, r.queue[|t.queue| - 1..], x);
    }
  }

  lemma {:induction false} SupportIsSeen(g: Graph, root: NodeIdx, t: Trail, x: NodeIdx, len: nat)
    requires Shape(g) && TrailComplete(g, t) && t.queue == [] && root in t.seen && SupportsIn(g, root, x, len)
    ensures x in t.seen
    decreases len
  {
    if len > 0 {
      var y: NodeIdx :| y < |g.nodes| && SupportsIn(g, root, y, len - 1) && DependsOn(g, y, x);
      SupportIsSeen(g, root, t, y, len - 1);
      var e :| e in g.outEdges[y] && e.kind.IsDependency() && e.dst == x;
      assert !Waiting(t.queue, x);
    }
  }

  /**
   At any cap, `explain` reports only genuine support, each node once, and calls itself
   complete exactly when nothing was cut off and some node it lists is evidence or carries
   a span.
   */
  lemma {:induction false} ExplainSound(g: Graph, root: NodeIdx, maxDepth: nat)
    requires Shape(g) && root < |g.nodes|
    ensures var path := ExplainOf(g, root, maxDepth);
      && (forall s: string :: s in path.spans <==>
            exists x: NodeIdx :: x in path.nodes && x < |g.nodes| && s in g.nodes[x].spans)
      && NoDups(path.nodes) && (forall k :: 0 <= k < |path.nodes| ==> InSupport(g, root, path.nodes[k]))
      && (path.complete <==>
            path.truncatedAt == [] && exists x: NodeIdx :: x in path.nodes && x < |g.nodes| && IsEvidence(g.nodes[x]))
  {
    assert SupportsIn(g, root, root, 0);
    FollowSound(g, root, maxDepth, StartTrail(root));
    hide Follow, SupportsIn;
  }

  /**
   With a cap of at least the node count, `explain` returns exactly the support of the
   root with exactly its dependency edges, cuts nothing off, and is complete exactly when
   the support holds evidence or a span.
   */
  lemma {:induction false} ExplainExact(g: Graph, root: NodeIdx, maxDepth: nat)
    requires Shape(g) && root < |g.nodes| && maxDepth >= |g.nodes|
    ensures var path := ExplainOf(g, root, maxDepth);
      && (forall x: NodeIdx :: x in path.nodes <==> InSupport(g, root, x))
      && path.truncatedAt == []
      && (path.complete <==> exists x: NodeIdx :: x < |g.nodes| && InSupport(g, root, x) && IsEvidence(g.nodes[x]))
      && (forall s: string :: s in path.spans <==>
            exists x: NodeIdx :: x < |g.nodes| && InSupport(g, root, x) && s in g.nodes[x].spans)
      && (forall e: Edge :: e in path.edges <==>
            e.src < |g.nodes| && InSupport(g, root, e.src) && e in g.outEdges[e.src] && e.kind.IsDependency())
  {
    hide Follow, DependsOn, Indices;
    var start := StartTrail(root);
    var t := Follow(g, maxDepth, start);
    assert SupportsIn(g, root, root, 0);
    FollowSound(g, root, maxDepth, start);
    assert TrailComplete(g, start) by { assert Waiting(start.queue, start.queue[0].0); }
    FollowComplete(g, maxDepth, start);
    assert Waiting(start.queue, start.queue[0].0);
    forall x: NodeIdx
      ensures x in t.nodes <==> InSupport(g, root, x)
    {
      if x in t.nodes {
        var k :| 0 <= k < |t.nodes| && t.nodes[k] == x;
      }
      if InSupport(g, root, x) {
        var len: nat :| SupportsIn(g, root, x, len);
        SupportIsSeen(g, root, t, x, len);
      }
    }
    forall e: Edge | e.src < |g.nodes| && InSupport(g, root, e.src) && e in g.outEdges[e.src] && e.kind.IsDependency()
      ensures e in t.edges
    {
      assert e.src in t.nodes;
    }
  }

  // ---- grounding and the audit path ---------------------------------------

  lemma {:induction false} SupportStep(g: Graph, root: NodeIdx, y: NodeIdx, x: NodeIdx)
    requires Shape(g) && InSupport(g, root, y) && y < |g.nodes| && x < |g.nodes| && DependsOn(g, y, x)
    ensures InSupport(g, root, x)
  {
    var len: nat :| SupportsIn(g, root, y, len);
    assert SupportsIn(g, root, x, len + 1);
  }

  lemma {:induction false} GroundIsInSupport(g: Graph, root: NodeIdx, i: NodeIdx, len: nat) returns (w: NodeIdx)
    requires Shape(g) && InSupport(g, root, i) && GroundedIn(g, i, len)
    ensures w < |g.nodes| && InSupport(g, root, w) && Witness(g.nodes[w])
    decreases len
  {
    if Witness(g.nodes[i]) {
      w := i;
    } else {
      var j: NodeIdx :| j < |g.nodes| && DependsOn(g, i, j) && GroundedIn(g, j, len - 1);
      SupportStep(g, root, i, j);
      w := GroundIsInSupport(g, root, j, len - 1);
    }
  }

  ghost predicate RestsOnNoSkill(g: Graph, root: NodeIdx)
    requires Shape(g)
  {
    forall x: NodeIdx :: x < |g.nodes| && InSupport(g, root, x) && g.nodes[x].kind == Skill ==> g.nodes[x].spans != []
  }

  /**
   A grounded node has a complete audit path unless the only thing grounding it is a
   skill: no skill in its support means `explain` ends in evidence.
   */
  lemma {:induction false} GroundedExplainsCompletely(g: Graph, root: NodeIdx, maxDepth: nat)
    requires Shape(g) && root < |g.nodes| && maxDepth >= |g.nodes| && Grounded(g, root)
    requires RestsOnNoSkill(g, root)
    ensures ExplainOf(g, root, maxDepth).complete
  {
    hide ExplainOf, SupportsIn, Shape;
    ExplainExact(g, root, maxDepth);
    RootSupportsItself(g, root);
    var len: nat :| GroundedIn(g, root, len);
    var w := GroundIsInSupport(g, root, root, len);
    assert IsEvidence(g.nodes[w]);
  }

  lemma {:induction false} RootSupportsItself(g: Graph, root: NodeIdx)
    requires Shape(g) && root < |g.nodes|
    ensures InSupport(g, root, root)
  {
    assert SupportsIn(g, root, root, 0);
  }

  /** So for life, across saves and loads, an accepted node that rests on no skill has a complete audit path. */
  lemma {:induction false} AcceptedExplainsCompletely(
    built: Built, moves: seq<L.Move>, run: seq<World>, j: nat, k: nat, node: Node, known: set<string>, maxDepth: nat)
    requires L.HonestLife(built, moves, run) && j < k < |run| && moves[j] == L.Does(UpsertOp(node, known))
    requires Shape(run[j].graph) && Upsert(run[j].graph, node, known, run[j].now).result.Ok?
    requires Shape(run[k].graph) && maxDepth >= |run[k].graph.nodes|
    requires var g := run[k].graph; node.id in g.byId && RestsOnNoSkill(g, g.byId[node.id])
    ensures ExplainOf(run[k].graph, run[k].graph.byId[node.id], maxDepth).complete
  {
    hide L.HonestLife, Upsert, RestsOnNoSkill, ExplainOf;
    L.AcceptedStaysGrounded(built, moves, run, j, k, node, known);
    GroundedExplainsCompletely(run[k].graph, run[k].graph.byId[node.id], maxDepth);
  }

  /** Skills count as grounding: a claim resting on a skill alone is grounded yet explains to no evidence. */
  lemma {:induction false} SkillAloneIsNotEvidence(g: Graph, claim: NodeIdx, skill: NodeIdx, maxDepth: nat)
    requires Shape(g) && claim < |g.nodes| && skill < |g.nodes| && claim != skill && maxDepth >= |g.nodes|
    requires g.nodes[skill].kind == Skill && g.nodes[skill].spans == [] && g.outEdges[skill] == []
    requires g.nodes[claim].kind == Claim && g.nodes[claim].spans == []
    requires g.outEdges[claim] == [Edge(claim, skill, Supports)]
    ensures Grounded(g, claim) && !ExplainOf(g, claim, maxDepth).complete
  {
    var e := Edge(claim, skill, Supports);
    assert e in g.outEdges[claim];
    assert DependsOn(g, claim, skill);
    assert GroundedIn(g, skill, 0);
    assert GroundedIn(g, claim, 1);
    forall x: NodeIdx | InSupport(g, claim, x)
      ensures x == claim || x == skill
    {
      var len: nat :| SupportsIn(g, claim, x, len);
      SkillSupport(g, claim, skill, x, len);
    }
    ExplainExact(g, claim, maxDepth);
  }

  lemma {:induction false} SkillSupport(g: Graph, claim: NodeIdx, skill: NodeIdx, x: NodeIdx, len: nat)
    requires Shape(g) && claim < |g.nodes| && skill < |g.nodes| && claim != skill
    requires g.outEdges[skill] == [] && g.outEdges[claim] == [Edge(claim, skill, Supports)]
    requires SupportsIn(g, claim, x, len)
    ensures x == claim || x == skill
    decreases len
  {
    if len > 0 {
      var y: NodeIdx :| y < |g.nodes| && SupportsIn(g, claim, y, len - 1) && DependsOn(g, y, x);
      SkillSupport(g, claim, skill, y, len - 1);
    }
  }
}
