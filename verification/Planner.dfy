/**
 Which nodes may reach the window (src/planner.rs).

 Seeding, expansion over the graph, pinning, filtering and the knapsack, over a graph
 that is only read.  Index hits, the recency prefilter and the priced levels of a node
 come in as parameters.
 */
module Planner {
  import opened Wrappers
  import opened Nodes
  import G = GraphSpec
  import H = GraphHistory
  import E = Explain
  import B = Budget
  import Sorting
  import opened MemoryGraphClass

  type Distance = (NodeIdx, nat)

  datatype Settings = Settings(
    seedMinRatio: real, maxDepth: nat, maxFanout: nat, maxCandidates: nat, admitStale: bool)

  datatype QueryType = Justify | Recompute | Open | Other

  /** `pinned_kinds`: goals and constraints always, and what the kind of question calls for. */
  function PinnedKinds(q: QueryType): seq<Kind> {
    [Goal, Constraint]
    + match q
    case Justify => [Decision]
    case Recompute => [Calculation]
    case Open => [OpenQuestion]
    case Other => []
  }

  // ---- the rules ----------------------------------------------------------

  /** Evidence that supports nothing live any more. */
  predicate Flagged(g: G.Graph, i: NodeIdx) {
    i < |g.nodes| && g.nodes[i].meta.supersededSource
  }

  predicate Excluded(g: G.Graph, o: Settings, i: NodeIdx) {
    !o.admitStale && Flagged(g, i)
  }

  /** What node search may seed. */
  predicate MaySeed(g: G.Graph, o: Settings, i: NodeIdx) {
    && i < |g.nodes| && !Excluded(g, o, i)
    && g.nodes[i].status != Superseded && (g.nodes[i].status == Stale ==> o.admitStale)
  }

  /** What the scoring loop lets through. */
  predicate MayScore(g: G.Graph, o: Settings, pinned: set<NodeIdx>, i: NodeIdx) {
    && i < |g.nodes| && g.nodes[i].status != Superseded
    && (g.nodes[i].status == Stale ==> i in pinned || o.admitStale)
  }

  /** What may be admitted: nothing superseded, no dead evidence, nothing stale but what the caller pinned. */
  ghost predicate MayAdmit(g: G.Graph, o: Settings, pin: seq<NodeIdx>, i: NodeIdx) {
    && i < |g.nodes| && g.nodes[i].status != Superseded
    && (!o.admitStale ==> !Flagged(g, i) && (g.nodes[i].status == Stale ==> i in pin))
  }

  // ---- seeding ------------------------------------------------------------

  /** Hits below the top hit's share are noise. */
  function AboveFloor(hits: seq<(NodeIdx, real)>, ratio: real): (r: seq<(NodeIdx, real)>)
    ensures forall h :: h in r ==> h in hits
  {
    if hits == [] then [] else Keep(hits, hits[0].1 * ratio)
  }

  function Keep(hits: seq<(NodeIdx, real)>, floor: real): (r: seq<(NodeIdx, real)>)
    ensures forall h :: h in r <==> h in hits && h.1 >= floor
  {
    if hits == [] then []
    else (if hits[0].1 >= floor then [hits[0]] else []) + Keep(hits[1..], floor)
  }

  /** The evidence node of a span, when it is on record. */
  function EvidenceFor(g: G.Graph, evidenceBySpan: map<string, NodeId>, span: string): Option<NodeIdx> {
    if span in evidenceBySpan && evidenceBySpan[span] in g.byId then Some(g.byId[evidenceBySpan[span]]) else None
  }

  /** The hits that may seed, in order. */
  function Vetted(g: G.Graph, o: Settings, recent: NodeIdx -> bool, hits: seq<(NodeIdx, real)>): (r: seq<NodeIdx>)
    ensures forall i :: i in r <==> MaySeed(g, o, i) && recent(i) && exists h :: h in hits && h.0 == i
  {
    hide MaySeed;
    if hits == [] then []
    else
      var n := |hits| - 1;
      assert hits == hits[..n] + [hits[n]];
      Vetted(g, o, recent, hits[..n])
      + if recent(hits[n].0) && MaySeed(g, o, hits[n].0) then [hits[n].0] else []
  }

  /** The vetted hits, and the evidence behind span hits too when there are fewer than two. */
  ghost predicate SeedsAre(
    g: G.Graph, o: Settings, hits: seq<(NodeIdx, real)>, recent: NodeIdx -> bool, spanHits: seq<(string, real)>,
    evidenceBySpan: map<string, NodeId>, seeds: seq<NodeIdx>)
  {
    var vetted := Vetted(g, o, recent, AboveFloor(hits, o.seedMinRatio));
    if |vetted| >= 2 then seeds == vetted
    else
      && vetted <= seeds
      && forall i :: i in seeds <==>
           (i in vetted || exists s :: s in spanHits && EvidenceFor(g, evidenceBySpan, s.0) == Some(i))
  }

  /** `seed`. */
  method Seed(
    graph: MemoryGraph, o: Settings, hits: seq<(NodeIdx, real)>, recent: NodeIdx -> bool,
    spanHits: seq<(string, real)>, evidenceBySpan: map<string, NodeId>)
    returns (seeds: seq<NodeIdx>)
    requires G.Shape(graph.Value()) && forall h :: h in hits ==> h.0 < |graph.nodes|
    ensures forall i :: i in seeds ==> i < |graph.nodes|
    ensures SeedsAre(graph.Value(), o, hits, recent, spanHits, evidenceBySpan, seeds)
  {
    hide AboveFloor, Vetted;
    ghost var g := graph.Value();
    var kept := AboveFloor(hits, o.seedMinRatio);
    seeds := [];
    VettedNone(g, o, recent);
    for k := 0 to |kept|
      invariant seeds == Vetted(g, o, recent, kept[..k]) && forall i :: i in seeds ==> i < |graph.nodes|
    {
      var i := kept[k].0;
      assert kept[k] in kept;
      VettedNext(g, o, recent, kept, k);
      if recent(i) {
        var node := graph.nodes[i];
        if node.meta.supersededSource && !o.admitStale {
        } else if node.status == Superseded {
        } else if node.status == Stale && !o.admitStale {
        } else {
          seeds := seeds + [i];
        }
      }
    }
    assert kept[..|kept|] == kept;
    if |seeds| < 2 {
      ghost var vetted := seeds;
      for k := 0 to |spanHits|
        invariant vetted <= seeds && forall i :: i in seeds ==> i < |graph.nodes|
        invariant forall i :: i in seeds <==>
                    (i in vetted
                     || exists m: nat :: m < k && EvidenceFor(g, evidenceBySpan, spanHits[m].0) == Some(i))
      {
        var span := spanHits[k].0;
        if span in evidenceBySpan && evidenceBySpan[span] in graph.byId {
          var evidence := graph.byId[evidenceBySpan[span]];
          if evidence !in seeds {
            seeds := seeds + [evidence];
          }
        }
      }
      EvidenceByHit(g, evidenceBySpan, spanHits);
    }
  }

  lemma {:induction false} VettedNone(g: G.Graph, o: Settings, recent: NodeIdx -> bool)
    ensures Vetted(g, o, recent, []) == []
  {
  }

  lemma {:induction false} VettedNext(
    g: G.Graph, o: Settings, recent: NodeIdx -> bool, hits: seq<(NodeIdx, real)>, k: nat)
    requires k < |hits|
    ensures Vetted(g, o, recent, hits[..k + 1]) ==
            Vetted(g, o, recent, hits[..k])
            + if recent(hits[k].0) && MaySeed(g, o, hits[k].0) then [hits[k].0] else []
  {
    hide MaySeed;
    assert hits[..k + 1][..k] == hits[..k];
  }

  lemma {:induction false} EvidenceByHit(
    g: G.Graph, evidenceBySpan: map<string, NodeId>, spanHits: seq<(string, real)>)
    ensures forall i: NodeIdx ::
              (exists m: nat :: m < |spanHits| && EvidenceFor(g, evidenceBySpan, spanHits[m].0) == Some(i)) <==>
              (exists s :: s in spanHits && EvidenceFor(g, evidenceBySpan, s.0) == Some(i))
  {
    hide EvidenceFor;
    forall i: NodeIdx, s | s in spanHits && EvidenceFor(g, evidenceBySpan, s.0) == Some(i)
      ensures exists m: nat :: m < |spanHits| && EvidenceFor(g, evidenceBySpan, spanHits[m].0) == Some(i)
    {
      var m: nat :| m < |spanHits| && spanHits[m] == s;
    }
  }

  // ---- expansion ----------------------------------------------------------

  ghost predicate Listed(d: seq<Distance>, i: NodeIdx) {
    exists k: nat :: k < |d| && d[k].0 == i
  }

  /** No node twice, none out of range, none excluded, none farther than the cap. */
  ghost predicate Sane(g: G.Graph, o: Settings, d: seq<Distance>) {
    && (forall k: nat :: k < |d| ==> d[k].0 < |g.nodes| && !Excluded(g, o, d[k].0) && d[k].1 <= o.maxDepth)
    && (forall j: nat, k: nat :: j < k < |d| ==> d[j].0 != d[k].0)
  }

  /** One step of the graph walk: to an input, to anything that points here, across a contradiction. */
  ghost predicate Linked(g: G.Graph, i: NodeIdx, j: NodeIdx) {
    && i < |g.nodes| && |g.outEdges| == |g.inEdges| == |g.nodes|
    && (|| (exists id :: id in g.nodes[i].deps && id in g.byId && g.byId[id] == j)
        || (exists e: Edge :: e in g.inEdges[i] && e.src == j)
        || (exists e: Edge :: e in g.outEdges[i] && e.kind == Contradicts && e.dst == j))
  }

  /** One step, and one farther, from one of the first `n` nodes of the list. */
  ghost predicate Stems(g: G.Graph, d: seq<Distance>, n: nat, e: Distance) {
    exists m: nat :: m < n && m < |d| && Linked(g, d[m].0, e.0) && e.1 == d[m].1 + 1
  }

  /** Everything past the roots was reached from something before it, or lies on an audit path. */
  ghost predicate Traced(g: G.Graph, d: seq<Distance>, roots: nat, paths: set<NodeIdx>) {
    forall k: nat :: roots <= k < |d| ==> d[k].0 in paths || Stems(g, d, k, d[k])
  }

  /** Where the walk stands: what it has listed and what it has still to visit. */
  datatype Frontier = Frontier(distances: seq<Distance>, queue: seq<Distance>)

  ghost predicate Walking(g: G.Graph, o: Settings, f: Frontier, roots: nat, paths: set<NodeIdx>) {
    && G.Shape(g) && Sane(g, o, f.distances) && roots <= |f.distances| && Traced(g, f.distances, roots, paths)
    && (forall k: nat :: k < |f.queue| ==> f.queue[k].0 < |g.nodes| && Listed(f.distances, f.queue[k].0))
  }

  /** The list holds the node, or the rules keep it out. */
  ghost predicate Met(g: G.Graph, o: Settings, d: seq<Distance>, i: NodeIdx) {
    Listed(d, i) || Excluded(g, o, i)
  }

  /** The first `n` inputs that are on record. */
  ghost predicate InputsMet(g: G.Graph, o: Settings, d: seq<Distance>, i: NodeIdx, n: nat) {
    && i < |g.nodes|
    && forall k: nat :: k < n && k < |g.nodes[i].deps| && g.nodes[i].deps[k] in g.byId ==>
         Met(g, o, d, g.byId[g.nodes[i].deps[k]])
  }

  /** The first `n` nodes that point at the node. */
  ghost predicate DependentsMet(g: G.Graph, o: Settings, d: seq<Distance>, i: NodeIdx, n: nat) {
    i < |g.inEdges| && forall k: nat :: k < n && k < |g.inEdges[i]| ==> Met(g, o, d, g.inEdges[i][k].src)
  }

  /** The other sides of the node's contradictions, among its first `n` edges. */
  ghost predicate OthersMet(g: G.Graph, o: Settings, d: seq<Distance>, i: NodeIdx, n: nat) {
    && i < |g.outEdges|
    && forall k: nat :: k < n && k < |g.outEdges[i]| && LiveAcross(g, g.outEdges[i][k]) ==>
         Met(g, o, d, g.outEdges[i][k].dst)
  }

  predicate LiveAcross(g: G.Graph, e: Edge) {
    e.kind == Contradicts && e.dst < |g.nodes| && g.nodes[e.dst].status != Superseded
  }

  /** The walk went on from the node: its inputs and dependents up to the fan-out, and all it contradicts. */
  ghost predicate Opened(g: G.Graph, o: Settings, d: seq<Distance>, i: NodeIdx, depth: nat) {
    && InputsMet(g, o, d, i, o.maxFanout) && (depth == 0 ==> DependentsMet(g, o, d, i, o.maxFanout))
    && i < |g.outEdges| && OthersMet(g, o, d, i, |g.outEdges[i]|)
  }

  /** `b` joined as a dependent of the root `a`. */
  ghost predicate FromDependent(g: G.Graph, a: Distance, b: Distance) {
    a.1 == 0 && b.1 == 1 && a.0 < |g.inEdges| && exists e: Edge :: e in g.inEdges[a.0] && e.src == b.0
  }

  /** `b` joined across a contradiction from `a`. */
  ghost predicate FromAcross(g: G.Graph, a: Distance, b: Distance) {
    && b.1 == a.1 + 1 && a.0 < |g.outEdges|
    && exists e: Edge :: e in g.outEdges[a.0] && e.kind == Contradicts && e.dst == b.0
  }

  ghost predicate Sideways(g: G.Graph, d: seq<Distance>, k: nat) {
    k < |d| && exists m: nat :: m < |d| && (FromDependent(g, d[m], d[k]) || FromAcross(g, d[m], d[k]))
  }

  /** Nothing more is due from the `k`-th node: it is at the depth limit, was opened, or joined sideways. */
  ghost predicate Done(g: G.Graph, o: Settings, d: seq<Distance>, k: nat) {
    k < |d| && (d[k].1 >= o.maxDepth || Opened(g, o, d, d[k].0, d[k].1) || Sideways(g, d, k))
  }

  /** Until the cap is reached every listed node is done or still waits. */
  ghost predicate Progress(g: G.Graph, o: Settings, f: Frontier) {
    && (forall x :: x in f.queue ==> x in f.distances || x.1 == o.maxDepth)
    && (|f.distances| >= o.maxCandidates ||
        forall k: nat :: k < |f.distances| ==> Done(g, o, f.distances, k) || f.distances[k] in f.queue)
  }

  /** The walk went as far as it may. */
  ghost predicate Exhausted(g: G.Graph, o: Settings, d: seq<Distance>) {
    |d| >= o.maxCandidates || forall k: nat :: k < |d| ==> Done(g, o, d, k)
  }

  lemma {:induction false} MetKept(g: G.Graph, o: Settings, a: seq<Distance>, b: seq<Distance>, i: NodeIdx)
    requires a <= b
    ensures Met(g, o, a, i) ==> Met(g, o, b, i)
  {
    hide Excluded;
    PrefixListed(a, b, i);
  }

  lemma {:induction false} InputsKept(g: G.Graph, o: Settings, a: seq<Distance>, b: seq<Distance>, i: NodeIdx, n: nat)
    requires a <= b
    ensures InputsMet(g, o, a, i, n) ==> InputsMet(g, o, b, i, n)
  {
    hide Met;
    forall j: NodeIdx ensures Met(g, o, a, j) ==> Met(g, o, b, j) {
      MetKept(g, o, a, b, j);
    }
  }

  lemma {:induction false} DependentsKept(
    g: G.Graph, o: Settings, a: seq<Distance>, b: seq<Distance>, i: NodeIdx, n: nat)
    requires a <= b
    ensures DependentsMet(g, o, a, i, n) ==> DependentsMet(g, o, b, i, n)
  {
    hide Met;
    forall j: NodeIdx ensures Met(g, o, a, j) ==> Met(g, o, b, j) {
      MetKept(g, o, a, b, j);
    }
  }

  lemma {:induction false} OthersKept(g: G.Graph, o: Settings, a: seq<Distance>, b: seq<Distance>, i: NodeIdx, n: nat)
    requires a <= b
    ensures OthersMet(g, o, a, i, n) ==> OthersMet(g, o, b, i, n)
  {
    hide Met, LiveAcross;
    forall j: NodeIdx ensures Met(g, o, a, j) ==> Met(g, o, b, j) {
      MetKept(g, o, a, b, j);
    }
  }

  lemma {:induction false} DoneKept(g: G.Graph, o: Settings, a: seq<Distance>, b: seq<Distance>, k: nat)
    requires a <= b && Done(g, o, a, k)
    ensures Done(g, o, b, k)
  {
    hide InputsMet, DependentsMet, OthersMet, FromDependent, FromAcross;
    var i := a[k].0;
    assert b[k] == a[k];
    if Sideways(g, a, k) {
      var m: nat :| m < |a| && (FromDependent(g, a[m], a[k]) || FromAcross(g, a[m], a[k]));
      assert b[m] == a[m];
    } else if a[k].1 < o.maxDepth {
      InputsKept(g, o, a, b, i, o.maxFanout);
      DependentsKept(g, o, a, b, i, o.maxFanout);
      OthersKept(g, o, a, b, i, |g.outEdges[i]|);
    }
  }

  /** A node taken from the queue that is at the depth limit is done. */
  lemma {:induction false} ProgressSkips(g: G.Graph, o: Settings, f: Frontier)
    requires Progress(g, o, f) && f.queue != []
    requires f.queue[0].1 >= o.maxDepth || |f.distances| >= o.maxCandidates
    ensures Progress(g, o, f.(queue := f.queue[1..]))
  {
    hide Opened, Sideways;
    forall x | x in f.queue ensures x == f.queue[0] || x in f.queue[1..] {
      var m: nat :| m < |f.queue| && f.queue[m] == x;
      assert m > 0 ==> f.queue[1..][m - 1] == x;
    }
  }

  /** One that was opened is done, and what joined on the way waits or joined sideways. */
  lemma {:induction false} ProgressOpens(g: G.Graph, o: Settings, before: Frontier, f: Frontier)
    requires Progress(g, o, before) && before.queue != [] && |before.distances| < o.maxCandidates
    requires before.distances <= f.distances && before.queue[1..] <= f.queue
    requires Opened(g, o, f.distances, before.queue[0].0, before.queue[0].1)
    requires forall k: nat :: |before.distances| <= k < |f.distances| ==>
               f.distances[k] in f.queue || Sideways(g, f.distances, k)
    requires forall x :: x in f.queue ==> x in before.queue || x in f.distances || x.1 == o.maxDepth
    ensures Progress(g, o, f)
  {
    hide Opened, Sideways, Done;
    forall x | x in before.queue ensures x == before.queue[0] || x in f.queue {
      var m: nat :| m < |before.queue| && before.queue[m] == x;
      assert m > 0 ==> before.queue[1..][m - 1] == x && f.queue[m - 1] == x;
    }
    forall k: nat | k < |f.distances| ensures Done(g, o, f.distances, k) || f.distances[k] in f.queue {
      if k < |before.distances| {
        assert f.distances[k] == before.distances[k];
        if Done(g, o, before.distances, k) {
          DoneKept(g, o, before.distances, f.distances, k);
        } else if f.distances[k] == before.queue[0] {
          NowDone(g, o, f.distances, k);
        }
      } else if f.distances[k] !in f.queue {
        NowDone(g, o, f.distances, k);
      }
    }
    forall x | x in f.queue ensures x in f.distances || x.1 == o.maxDepth {
      if x in before.distances {
        var m: nat :| m < |before.distances| && before.distances[m] == x;
        assert f.distances[m] == x;
      }
    }
  }

  lemma {:induction false} NowDone(g: G.Graph, o: Settings, d: seq<Distance>, k: nat)
    requires k < |d| && (Opened(g, o, d, d[k].0, d[k].1) || Sideways(g, d, k))
    ensures Done(g, o, d, k)
  {
    hide Opened, Sideways;
  }

  /** `push`: a node that is neither excluded nor listed joins the list. */
  predicate Joins(g: G.Graph, o: Settings, seen: set<NodeIdx>, i: NodeIdx) {
    !Excluded(g, o, i) && i !in seen
  }

  ghost function IdsOf(d: seq<Distance>): set<NodeIdx> {
    set k: nat | k < |d| :: d[k].0
  }

  lemma {:induction false} IdsListed(d: seq<Distance>, i: NodeIdx)
    ensures i in IdsOf(d) <==> Listed(d, i)
  {
  }

  lemma {:induction false} IdsAppend(d: seq<Distance>, e: Distance)
    ensures IdsOf(d + [e]) == IdsOf(d) + {e.0}
  {
    var s := d + [e];
    forall i: NodeIdx ensures i in IdsOf(s) <==> i in IdsOf(d) + {e.0} {
      if i in IdsOf(s) {
        var k: nat :| k < |s| && s[k].0 == i;
        assert k < |d| ==> d[k].0 == i;
      }
      if i in IdsOf(d) {
        var k: nat :| k < |d| && d[k].0 == i;
        assert s[k].0 == i;
      }
      if i == e.0 {
        assert s[|d|].0 == i;
      }
    }
  }

  /** Distinct nodes cannot outnumber the graph. */
  lemma {:induction false} NoMoreThanNodes(g: G.Graph, o: Settings, d: seq<Distance>)
    requires Sane(g, o, d)
    ensures |d| <= |g.nodes|
  {
    var s := seq(|d|, k requires 0 <= k < |d| => d[k].0);
    Pigeons(s, |g.nodes|);
  }

  lemma {:induction false} Pigeons(s: seq<nat>, n: nat)
    requires forall k: nat :: k < |s| ==> s[k] < n
    requires forall j: nat, k: nat :: j < k < |s| ==> s[j] != s[k]
    ensures |s| <= n
  {
    if s != [] {
      if exists k: nat :: k < |s| && s[k] == n - 1 {
        var k: nat :| k < |s| && s[k] == n - 1;
        var t := s[..k] + s[k + 1..];
        forall i: nat | i < |t| ensures t[i] < n - 1 {
          assert t[i] == if i < k then s[i] else s[i + 1];
        }
        forall i: nat, j: nat | i < j < |t| ensures t[i] != t[j] {
          assert t[i] == (if i < k then s[i] else s[i + 1]) && t[j] == if j < k then s[j] else s[j + 1];
        }
        Pigeons(t, n - 1);
      } else {
        forall k: nat | k < |s| ensures s[k] < n - 1 {
          assert s[k] != n - 1;
        }
        Pigeons(s[..|s| - 1], n - 1);
      }
    }
  }

  /** A joining node extends the walk. */
  lemma {:induction false} WalkJoins(
    g: G.Graph, o: Settings, f: Frontier, roots: nat, paths: set<NodeIdx>, i: NodeIdx, depth: nat)
    requires Walking(g, o, f, roots, paths) && Joins(g, o, IdsOf(f.distances), i) && i < |g.nodes| && depth <= o.maxDepth
    requires i in paths || Stems(g, f.distances, |f.distances|, (i, depth))
    ensures Walking(g, o, f.(distances := f.distances + [(i, depth)]), roots, paths)
    ensures forall q: nat :: Walking(
      g, o, Frontier(f.distances + [(i, depth)], f.queue + [(i, q)]), roots, paths)
  {
    hide Stems, G.Shape, Excluded;
    var d := f.distances + [(i, depth)];
    IdsListed(f.distances, i);
    forall k: nat | roots <= k < |d| ensures d[k].0 in paths || Stems(g, d, k, d[k]) {
      assert k < |f.distances| ==> d[k] == f.distances[k];
      StillStems(g, f.distances, d, k, d[k]);
    }
    ListedMore(f.distances, (i, depth));
  }

  lemma {:induction false} ListedMore(d: seq<Distance>, e: Distance)
    ensures Listed(d + [e], e.0)
    ensures forall i: NodeIdx :: Listed(d, i) ==> Listed(d + [e], i)
  {
    var s := d + [e];
    assert s[|d|].0 == e.0;
    forall i: NodeIdx | Listed(d, i) ensures Listed(s, i) {
      var k: nat :| k < |d| && d[k].0 == i;
      assert s[k].0 == i;
    }
  }

  /** How much walking is left: nodes to list, and nodes to visit. */
  ghost function Left(g: G.Graph, f: Frontier): int {
    |g.nodes| - |f.distances| + |f.queue|
  }

  /** Listed in the order of first mention: what stands before a node was mentioned before it. */
  ghost predicate InTurn(all: seq<NodeIdx>, d: seq<Distance>) {
    forall j: nat, k: nat, n: nat :: j < k < |d| && n < |all| && all[n] == d[k].0 ==> d[j].0 in all[..n]
  }

  lemma {:induction false} NoneInTurn(all: seq<NodeIdx>)
    ensures InTurn(all, [])
  {
  }

  lemma {:induction false} InTurnNext(all: seq<NodeIdx>, d: seq<Distance>, n: nat, e: Distance)
    requires InTurn(all, d) && n < |all| && all[n] == e.0
    requires forall k: nat :: k < |d| ==> d[k].0 in all[..n]
    requires forall m: nat :: m < n ==> all[m] != e.0
    ensures InTurn(all, d + [e]) && forall k: nat :: k < |d| + 1 ==> (d + [e])[k].0 in all[..n + 1]
  {
    var more := d + [e];
    forall k: nat | k < |d| ensures d[k].0 in all[..n + 1] {
      var q: nat :| q < n && all[..n][q] == d[k].0;
      assert all[..n + 1][q] == d[k].0;
    }
    assert all[..n + 1][n] == e.0;
    forall j: nat, k: nat, q: nat | j < k < |more| && q < |all| && all[q] == more[k].0 ensures more[j].0 in all[..q] {
      if k == |d| {
        var r: nat :| r < n && all[..n][r] == d[j].0;
        assert all[..q][r] == d[j].0;
      }
    }
  }

  lemma {:induction false} StillMentioned(all: seq<NodeIdx>, d: seq<Distance>, n: nat)
    requires n < |all| && forall k: nat :: k < |d| ==> d[k].0 in all[..n]
    ensures forall k: nat :: k < |d| ==> d[k].0 in all[..n + 1]
  {
    forall k: nat | k < |d| ensures d[k].0 in all[..n + 1] {
      var q: nat :| q < n && all[..n][q] == d[k].0;
      assert all[..n + 1][q] == d[k].0;
    }
  }

  /** The roots: seeds first, then what the caller pinned. */
  method Root(graph: MemoryGraph, o: Settings, seeds: seq<NodeIdx>, pin: seq<NodeIdx>)
    returns (f: Frontier, seen: set<NodeIdx>)
    requires G.Shape(graph.Value()) && forall i :: i in seeds ==> i < |graph.nodes|
    ensures Walking(graph.Value(), o, f, |f.distances|, {}) && seen == IdsOf(f.distances)
    ensures f.queue == f.distances && forall k: nat :: k < |f.distances| ==> f.distances[k].1 == 0
    ensures forall i :: i in seeds || (i in pin && i < |graph.nodes|) ==>
              Listed(f.distances, i) || Excluded(graph.Value(), o, i)
    ensures forall k: nat :: k < |f.distances| ==> f.distances[k].0 in seeds || f.distances[k].0 in pin
    ensures InTurn(seeds + pin, f.distances)
  {
    hide Linked, G.Shape, Excluded, Walking, Listed, IdsOf, InTurn;
    ghost var g := graph.Value();
    f, seen := Frontier([], []), {};
    NoRoots(g, o);
    var all := seeds + pin;
    NoneInTurn(all);
    for n := 0 to |all|
      invariant Walking(g, o, f, |f.distances|, {}) && seen == IdsOf(f.distances)
      invariant f.queue == f.distances && forall k: nat :: k < |f.distances| ==> f.distances[k].1 == 0
      invariant forall m: nat :: m < n && all[m] < |graph.nodes| ==> Listed(f.distances, all[m]) || Excluded(g, o, all[m])
      invariant forall k: nat :: k < |f.distances| ==> f.distances[k].0 in all[..n]
      invariant InTurn(all, f.distances)
    {
      var i := all[n];
      IdsListed(f.distances, i);
      StillMentioned(all, f.distances, n);
      if i < |graph.nodes| && (o.admitStale || !graph.nodes[i].meta.supersededSource) && i !in seen {
        RootJoins(g, o, f, i);
        NotBefore(g, o, all, f.distances, n);
        InTurnNext(all, f.distances, n, (i, 0));
        IdsAppend(f.distances, (i, 0));
        ListedMore(f.distances, (i, 0));
        f := Frontier(f.distances + [(i, 0)], f.queue + [(i, 0)]);
        seen := seen + {i};
      } else {
        ExcludedIs(g, o, i);
      }
    }
    forall k: nat | k < |f.distances| ensures f.distances[k].0 in seeds || f.distances[k].0 in pin {
      assert f.distances[k].0 in all;
    }
    forall i | i in seeds || (i in pin && i < |graph.nodes|)
      ensures Listed(f.distances, i) || Excluded(g, o, i)
    {
      assert i in all;
      var m: nat :| m < |all| && all[m] == i;
    }
  }

  lemma {:induction false} NotBefore(g: G.Graph, o: Settings, all: seq<NodeIdx>, d: seq<Distance>, n: nat)
    requires n < |all| && all[n] !in IdsOf(d) && all[n] < |g.nodes|
    requires o.admitStale || !g.nodes[all[n]].meta.supersededSource
    requires forall m: nat :: m < n && all[m] < |g.nodes| ==> Listed(d, all[m]) || Excluded(g, o, all[m])
    ensures forall m: nat :: m < n ==> all[m] != all[n]
  {
    IdsListed(d, all[n]);
    ExcludedIs(g, o, all[n]);
  }

  lemma {:induction false} ExcludedIs(g: G.Graph, o: Settings, i: NodeIdx)
    ensures i < |g.nodes| ==> (Excluded(g, o, i) <==> !(o.admitStale || !g.nodes[i].meta.supersededSource))
  {
  }

  lemma {:induction false} NoRoots(g: G.Graph, o: Settings)
    requires G.Shape(g)
    ensures Walking(g, o, Frontier([], []), 0, {}) && IdsOf([]) == {}
  {
    hide G.Shape;
  }

  lemma {:induction false} RootJoins(g: G.Graph, o: Settings, f: Frontier, i: NodeIdx)
    requires Walking(g, o, f, |f.distances|, {}) && i < |g.nodes| && i !in IdsOf(f.distances)
    requires o.admitStale || !g.nodes[i].meta.supersededSource
    ensures Walking(g, o, Frontier(f.distances + [(i, 0)], f.queue + [(i, 0)]), |f.distances| + 1, {})
  {
    hide Linked, G.Shape;
    IdsListed(f.distances, i);
    ListedMore(f.distances, (i, 0));
  }

  /** Removing the visited node, or the whole queue, keeps the walk. */
  lemma {:induction false} WalkPops(g: G.Graph, o: Settings, f: Frontier, roots: nat, paths: set<NodeIdx>)
    requires Walking(g, o, f, roots, paths) && f.queue != []
    ensures f.queue[0].0 < |g.nodes| && Listed(f.distances, f.queue[0].0)
    ensures Walking(g, o, f.(queue := f.queue[1..]), roots, paths)
  {
    hide Linked, G.Shape, Sane, Traced, Listed;
  }

  lemma {:induction false} StillStems(g: G.Graph, a: seq<Distance>, b: seq<Distance>, n: nat, e: Distance)
    requires a <= b
    ensures Stems(g, a, n, e) ==> Stems(g, b, n, e)
  {
    hide Linked;
    if Stems(g, a, n, e) {
      var m: nat :| m < n && m < |a| && Linked(g, a[m].0, e.0) && e.1 == a[m].1 + 1;
      assert b[m] == a[m];
    }
  }

  lemma {:induction false} StemsFrom(g: G.Graph, d: seq<Distance>, i: NodeIdx, depth: nat, j: NodeIdx)
    requires (i, depth) in d && Linked(g, i, j)
    ensures Stems(g, d, |d|, (j, depth + 1))
  {
    hide Linked;
    var m: nat :| m < |d| && d[m] == (i, depth);
    assert Linked(g, d[m].0, j);
  }

  lemma {:induction false} DepLink(g: G.Graph, i: NodeIdx, id: NodeId)
    requires G.Shape(g) && i < |g.nodes| && id in g.nodes[i].deps && id in g.byId
    ensures g.byId[id] < |g.nodes| && Linked(g, i, g.byId[id])
  {
  }

  lemma {:induction false} InLink(g: G.Graph, i: NodeIdx, e: Edge)
    requires G.Shape(g) && i < |g.nodes| && e in g.inEdges[i]
    ensures e.src < |g.nodes| && Linked(g, i, e.src)
  {
  }

  lemma {:induction false} AcrossLink(g: G.Graph, i: NodeIdx, e: Edge)
    requires G.Shape(g) && i < |g.nodes| && e in g.outEdges[i] && e.kind == Contradicts
    ensures e.dst < |g.nodes| && Linked(g, i, e.dst)
  {
  }

  /** The node's inputs, up to the fan-out. */
  method VisitInputs(
    graph: MemoryGraph, o: Settings, from: Frontier, seenAt: set<NodeIdx>, i: NodeIdx, depth: nat, ghost roots: nat)
    returns (f: Frontier, seen: set<NodeIdx>)
    requires Walking(graph.Value(), o, from, roots, {}) && seenAt == IdsOf(from.distances)
    requires i < |graph.nodes| && (i, depth) in from.distances && depth < o.maxDepth
    ensures Walking(graph.Value(), o, f, roots, {}) && seen == IdsOf(f.distances)
    ensures (i, depth) in f.distances && from.distances <= f.distances && Left(graph.Value(), f) == Left(graph.Value(), from)
    ensures InputsMet(graph.Value(), o, f.distances, i, o.maxFanout) && Queued(from, f)
  {
    hide Linked, Stems, G.Shape, Excluded, Listed, Sane, Traced, Walking, InputsMet, Queued, Met;
    ghost var g := graph.Value();
    f, seen := from, seenAt;
    WalkShape(g, o, f, roots, {});
    var deps := graph.nodes[i].deps;
    var n := if |deps| < o.maxFanout then |deps| else o.maxFanout;
    NoneMet(g, o, f, i);
    for k := 0 to n
      invariant Walking(g, o, f, roots, {}) && seen == IdsOf(f.distances)
      invariant (i, depth) in f.distances && from.distances <= f.distances && Left(g, f) == Left(g, from)
      invariant InputsMet(g, o, f.distances, i, k) && Queued(from, f)
    {
      ghost var was := f.distances;
      if deps[k] in graph.byId {
        DepLink(g, i, deps[k]);
        var j := graph.byId[deps[k]];
        ExcludedIs(g, o, j);
        if (o.admitStale || !graph.nodes[j].meta.supersededSource) && j !in seen {
          StemsFrom(g, f.distances, i, depth, j);
          WalkJoins(g, o, f, roots, {}, j, depth + 1);
          IdsAppend(f.distances, (j, depth + 1));
          QueuedMore(from, f, (j, depth + 1));
          f := Frontier(f.distances + [(j, depth + 1)], f.queue + [(j, depth + 1)]);
          seen := seen + {j};
        }
        NowMet(g, o, f.distances, j);
      }
      InputsKept(g, o, was, f.distances, i, k);
      InputsNext(g, o, f.distances, i, k);
    }
    InputsAll(g, o, f.distances, i, n);
  }

  /** `f` lists and queues what `from` does, and everything listed since is queued and all that is queued since is listed. */
  ghost predicate Queued(from: Frontier, f: Frontier) {
    && from.distances <= f.distances && from.queue <= f.queue
    && (forall k: nat :: |from.distances| <= k < |f.distances| ==> f.distances[k] in f.queue)
    && (forall x :: x in f.queue ==> x in from.queue || x in f.distances)
  }

  lemma {:induction false} QueuedMore(from: Frontier, f: Frontier, e: Distance)
    requires Queued(from, f)
    ensures Queued(from, Frontier(f.distances + [e], f.queue + [e]))
  {
  }

  lemma {:induction false} NoneMet(g: G.Graph, o: Settings, f: Frontier, i: NodeIdx)
    requires i < |g.nodes| && |g.inEdges| == |g.outEdges| == |g.nodes|
    ensures InputsMet(g, o, f.distances, i, 0) && DependentsMet(g, o, f.distances, i, 0)
    ensures OthersMet(g, o, f.distances, i, 0) && Queued(f, f)
  {
  }

  lemma {:induction false} NowMet(g: G.Graph, o: Settings, d: seq<Distance>, j: NodeIdx)
    requires j < |g.nodes| && (j in IdsOf(d) || !(o.admitStale || !g.nodes[j].meta.supersededSource))
    ensures Met(g, o, d, j)
  {
    hide Listed;
    IdsListed(d, j);
  }

  lemma {:induction false} InputsNext(g: G.Graph, o: Settings, d: seq<Distance>, i: NodeIdx, k: nat)
    requires InputsMet(g, o, d, i, k) && i < |g.nodes| && k < |g.nodes[i].deps|
    requires g.nodes[i].deps[k] in g.byId ==> Met(g, o, d, g.byId[g.nodes[i].deps[k]])
    ensures InputsMet(g, o, d, i, k + 1)
  {
    hide Met;
  }

  lemma {:induction false} InputsAll(g: G.Graph, o: Settings, d: seq<Distance>, i: NodeIdx, n: nat)
    requires InputsMet(g, o, d, i, n) && i < |g.nodes|
    requires n == if |g.nodes[i].deps| < o.maxFanout then |g.nodes[i].deps| else o.maxFanout
    ensures InputsMet(g, o, d, i, o.maxFanout)
  {
    hide Met;
  }

  lemma {:induction false} WalkShape(g: G.Graph, o: Settings, f: Frontier, roots: nat, paths: set<NodeIdx>)
    requires Walking(g, o, f, roots, paths)
    ensures G.Shape(g) && |g.outEdges| == |g.inEdges| == |g.nodes|
  {
    hide Sane, Traced;
  }

  /** One hop up from a root, to whatever points at it. */
  method VisitDependents(
    graph: MemoryGraph, o: Settings, from: Frontier, seenAt: set<NodeIdx>, i: NodeIdx, ghost roots: nat)
    returns (f: Frontier, seen: set<NodeIdx>)
    requires Walking(graph.Value(), o, from, roots, {}) && seenAt == IdsOf(from.distances)
    requires i < |graph.nodes| && (i, 0) in from.distances && o.maxDepth >= 1
    ensures Walking(graph.Value(), o, f, roots, {}) && seen == IdsOf(f.distances)
    ensures (i, 0) in f.distances && from.distances <= f.distances && Left(graph.Value(), f) == Left(graph.Value(), from)
    ensures DependentsMet(graph.Value(), o, f.distances, i, o.maxFanout) && Attached(graph.Value(), o, from, f, i)
  {
    hide Linked, Stems, G.Shape, Excluded, Listed, Sane, Traced, Walking, DependentsMet, Attached, Met;
    ghost var g := graph.Value();
    f, seen := from, seenAt;
    WalkShape(g, o, f, roots, {});
    var edges := graph.inEdges[i];
    var n := if |edges| < o.maxFanout then |edges| else o.maxFanout;
    NoneMet(g, o, f, i);
    NoneAttached(g, o, f, i);
    for k := 0 to n
      invariant Walking(g, o, f, roots, {}) && seen == IdsOf(f.distances)
      invariant (i, 0) in f.distances && from.distances <= f.distances && Left(g, f) == Left(g, from)
      invariant DependentsMet(g, o, f.distances, i, k) && Attached(g, o, from, f, i)
    {
      ghost var was := f.distances;
      InLink(g, i, edges[k]);
      var j := edges[k].src;
      ExcludedIs(g, o, j);
      if (o.admitStale || !graph.nodes[j].meta.supersededSource) && j !in seen {
        StemsFrom(g, f.distances, i, 0, j);
        WalkJoins(g, o, f, roots, {}, j, 1);
        IdsAppend(f.distances, (j, 1));
        AttachedMore(g, o, from, f, i, edges[k]);
        f := Frontier(f.distances + [(j, 1)], f.queue + [(j, o.maxDepth)]);
        seen := seen + {j};
      }
      NowMet(g, o, f.distances, j);
      DependentsKept(g, o, was, f.distances, i, k);
      DependentsNext(g, o, f.distances, i, k);
    }
    DependentsAll(g, o, f.distances, i, n);
  }

  /** Everything listed since points at the root `i`, and is queued at the depth limit, where the walk stops. */
  ghost predicate Attached(g: G.Graph, o: Settings, from: Frontier, f: Frontier, i: NodeIdx) {
    && from.distances <= f.distances && from.queue <= f.queue
    && (forall k: nat :: |from.distances| <= k < |f.distances| ==> FromDependent(g, (i, 0), f.distances[k]))
    && (forall x :: x in f.queue ==> x in from.queue || x.1 == o.maxDepth)
  }

  lemma {:induction false} NoneAttached(g: G.Graph, o: Settings, f: Frontier, i: NodeIdx)
    ensures Attached(g, o, f, f, i)
  {
  }

  lemma {:induction false} AttachedMore(g: G.Graph, o: Settings, from: Frontier, f: Frontier, i: NodeIdx, e: Edge)
    requires Attached(g, o, from, f, i) && i < |g.inEdges| && e in g.inEdges[i]
    ensures Attached(g, o, from, Frontier(f.distances + [(e.src, 1)], f.queue + [(e.src, o.maxDepth)]), i)
  {
    assert FromDependent(g, (i, 0), (e.src, 1));
    hide FromDependent;
  }

  lemma {:induction false} DependentsNext(g: G.Graph, o: Settings, d: seq<Distance>, i: NodeIdx, k: nat)
    requires DependentsMet(g, o, d, i, k) && i < |g.inEdges| && k < |g.inEdges[i]|
    requires Met(g, o, d, g.inEdges[i][k].src)
    ensures DependentsMet(g, o, d, i, k + 1)
  {
    hide Met;
  }

  lemma {:induction false} DependentsAll(g: G.Graph, o: Settings, d: seq<Distance>, i: NodeIdx, n: nat)
    requires DependentsMet(g, o, d, i, n) && i < |g.inEdges|
    requires n == if |g.inEdges[i]| < o.maxFanout then |g.inEdges[i]| else o.maxFanout
    ensures DependentsMet(g, o, d, i, o.maxFanout)
  {
    hide Met;
  }

  /** Across contradictions, to the other side if it is not superseded; the walk does not go on from there. */
  method VisitContradictions(
    graph: MemoryGraph, o: Settings, from: Frontier, seenAt: set<NodeIdx>, i: NodeIdx, depth: nat, ghost roots: nat)
    returns (f: Frontier, seen: set<NodeIdx>)
    requires Walking(graph.Value(), o, from, roots, {}) && seenAt == IdsOf(from.distances)
    requires i < |graph.nodes| && (i, depth) in from.distances && depth < o.maxDepth
    ensures Walking(graph.Value(), o, f, roots, {}) && seen == IdsOf(f.distances)
    ensures from.distances <= f.distances && Left(graph.Value(), f) <= Left(graph.Value(), from)
    ensures OthersMet(graph.Value(), o, f.distances, i, |graph.outEdges[i]|) && Crossed(graph.Value(), from, f, i, depth)
  {
    hide Linked, Stems, G.Shape, Excluded, Listed, Sane, Traced, Walking, OthersMet, Crossed, Met;
    ghost var g := graph.Value();
    f, seen := from, seenAt;
    WalkShape(g, o, f, roots, {});
    var edges := graph.outEdges[i];
    NoneMet(g, o, f, i);
    NoneCrossed(g, f, i, depth);
    for k := 0 to |edges|
      invariant Walking(g, o, f, roots, {}) && seen == IdsOf(f.distances)
      invariant (i, depth) in f.distances && from.distances <= f.distances && Left(g, f) <= Left(g, from)
      invariant OthersMet(g, o, f.distances, i, k) && Crossed(g, from, f, i, depth)
    {
      ghost var was := f.distances;
      if edges[k].kind == Contradicts {
        AcrossLink(g, i, edges[k]);
        var j := edges[k].dst;
        ExcludedIs(g, o, j);
        if graph.nodes[j].status != Superseded
           && (o.admitStale || !graph.nodes[j].meta.supersededSource) && j !in seen {
          StemsFrom(g, f.distances, i, depth, j);
          WalkJoins(g, o, f, roots, {}, j, depth + 1);
          IdsAppend(f.distances, (j, depth + 1));
          CrossedMore(g, from, f, i, depth, edges[k]);
          f := f.(distances := f.distances + [(j, depth + 1)]);
          seen := seen + {j};
        }
        if graph.nodes[j].status != Superseded {
          NowMet(g, o, f.distances, j);
        }
      }
      OthersKept(g, o, was, f.distances, i, k);
      OthersNext(g, o, f.distances, i, k);
    }
  }

  /** Everything listed since is the other side of one of the node's contradictions; nothing is queued. */
  ghost predicate Crossed(g: G.Graph, from: Frontier, f: Frontier, i: NodeIdx, depth: nat) {
    && from.distances <= f.distances && f.queue == from.queue
    && forall k: nat :: |from.distances| <= k < |f.distances| ==> FromAcross(g, (i, depth), f.distances[k])
  }

  lemma {:induction false} NoneCrossed(g: G.Graph, f: Frontier, i: NodeIdx, depth: nat)
    ensures Crossed(g, f, f, i, depth)
  {
  }

  lemma {:induction false} CrossedMore(g: G.Graph, from: Frontier, f: Frontier, i: NodeIdx, depth: nat, e: Edge)
    requires Crossed(g, from, f, i, depth) && i < |g.outEdges| && e in g.outEdges[i] && e.kind == Contradicts
    ensures Crossed(g, from, f.(distances := f.distances + [(e.dst, depth + 1)]), i, depth)
  {
    assert FromAcross(g, (i, depth), (e.dst, depth + 1));
    hide FromAcross;
  }

  lemma {:induction false} OthersNext(g: G.Graph, o: Settings, d: seq<Distance>, i: NodeIdx, k: nat)
    requires OthersMet(g, o, d, i, k) && i < |g.outEdges| && k < |g.outEdges[i]|
    requires LiveAcross(g, g.outEdges[i][k]) ==> Met(g, o, d, g.outEdges[i][k].dst)
    ensures OthersMet(g, o, d, i, k + 1)
  {
    hide Met, LiveAcross;
  }

  /** The breadth-first walk, until the queue or the candidate cap is exhausted. */
  method Walk(graph: MemoryGraph, o: Settings, from: Frontier, seenAt: set<NodeIdx>, ghost roots: nat)
    returns (distances: seq<Distance>, seen: set<NodeIdx>)
    requires Walking(graph.Value(), o, from, roots, {}) && seenAt == IdsOf(from.distances)
    requires Progress(graph.Value(), o, from)
    ensures Walking(graph.Value(), o, Frontier(distances, []), roots, {}) && seen == IdsOf(distances)
    ensures from.distances <= distances && Exhausted(graph.Value(), o, distances)
  {
    hide Linked, G.Shape, Excluded, Listed, Walking, Sane, Traced, Progress, Done, Opened;
    ghost var g := graph.Value();
    var f := from;
    seen := seenAt;
    while f.queue != []
      invariant Walking(g, o, f, roots, {}) && seen == IdsOf(f.distances) && from.distances <= f.distances
      invariant Progress(g, o, f)
      decreases Left(g, f)
    {
      LeftBounded(g, o, f, roots);
      WalkPops(g, o, f, roots, {});
      var (i, depth) := f.queue[0];
      if |f.distances| < o.maxCandidates && depth < o.maxDepth {
        f, seen := Open(graph, o, f, seen, roots);
      } else {
        ProgressSkips(g, o, f);
        f := f.(queue := f.queue[1..]);
      }
      LeftBounded(g, o, f, roots);
    }
    distances := f.distances;
    NothingWaits(g, o, distances);
  }

  /** One step of the walk, at a node to go on from. */
  method Open(graph: MemoryGraph, o: Settings, from: Frontier, seenAt: set<NodeIdx>, ghost roots: nat)
    returns (f: Frontier, seen: set<NodeIdx>)
    requires Walking(graph.Value(), o, from, roots, {}) && seenAt == IdsOf(from.distances)
    requires Progress(graph.Value(), o, from) && from.queue != []
    requires |from.distances| < o.maxCandidates && from.queue[0].1 < o.maxDepth
    ensures Walking(graph.Value(), o, f, roots, {}) && seen == IdsOf(f.distances)
    ensures Progress(graph.Value(), o, f) && from.distances <= f.distances
    ensures Left(graph.Value(), f) < Left(graph.Value(), from)
  {
    hide Linked, G.Shape, Excluded, Listed, Walking, Sane, Traced, Progress, Queued, Attached, Crossed,
      InputsMet, DependentsMet, OthersMet;
    ghost var g := graph.Value();
    WalkPops(g, o, from, roots, {});
    var (i, depth) := from.queue[0];
    WaitsListed(g, o, from);
    f, seen := VisitInputs(graph, o, from.(queue := from.queue[1..]), seenAt, i, depth, roots);
    ghost var inputs := f;
    NoneAttached(g, o, f, i);
    if depth == 0 {
      f, seen := VisitDependents(graph, o, f, seen, i, roots);
    }
    ghost var dependents := f;
    WalkShape(g, o, f, roots, {});
    f, seen := VisitContradictions(graph, o, f, seen, i, depth, roots);
    InputsKept(g, o, inputs.distances, f.distances, i, o.maxFanout);
    DependentsKept(g, o, dependents.distances, f.distances, i, o.maxFanout);
    OpenKeepsProgress(g, o, from, inputs, dependents, f);
  }

  lemma {:induction false} WaitsListed(g: G.Graph, o: Settings, f: Frontier)
    requires Progress(g, o, f) && f.queue != [] && f.queue[0].1 < o.maxDepth
    ensures f.queue[0] in f.distances
  {
    hide Done;
    assert f.queue[0] in f.queue;
  }

  lemma {:induction false} OpenKeepsProgress(
    g: G.Graph, o: Settings, from: Frontier, inputs: Frontier, dependents: Frontier, f: Frontier)
    requires Progress(g, o, from) && from.queue != []
    requires |from.distances| < o.maxCandidates && from.queue[0].1 < o.maxDepth
    requires Queued(from.(queue := from.queue[1..]), inputs)
    requires if from.queue[0].1 == 0 then Attached(g, o, inputs, dependents, from.queue[0].0) else dependents == inputs
    requires Crossed(g, dependents, f, from.queue[0].0, from.queue[0].1)
    requires Opened(g, o, f.distances, from.queue[0].0, from.queue[0].1)
    ensures Progress(g, o, f)
  {
    hide Opened, FromDependent, FromAcross, Done, Sideways;
    assert from.queue[0] in from.queue;
    assert from.queue[0] in from.distances;
    forall k: nat | |from.distances| <= k < |f.distances| ensures f.distances[k] in f.queue || Sideways(g, f.distances, k) {
      if k < |inputs.distances| {
        assert f.distances[k] == inputs.distances[k];
        InPrefix(inputs.queue, f.queue, f.distances[k]);
      } else {
        assert k < |dependents.distances| ==> f.distances[k] == dependents.distances[k];
        IsSideways(g, from, f.distances, k);
      }
    }
    forall x | x in f.queue ensures x in from.queue || x in f.distances || x.1 == o.maxDepth {
      if x in inputs.distances {
        InPrefix(inputs.distances, f.distances, x);
      }
    }
    ProgressOpens(g, o, from, f);
  }

  lemma {:induction false} IsSideways(g: G.Graph, from: Frontier, d: seq<Distance>, k: nat)
    requires from.queue != [] && from.queue[0] in from.distances && from.distances <= d && k < |d|
    requires FromDependent(g, from.queue[0], d[k]) || FromAcross(g, from.queue[0], d[k])
    ensures Sideways(g, d, k)
  {
    hide FromDependent, FromAcross;
    var m: nat :| m < |from.distances| && from.distances[m] == from.queue[0];
    assert d[m] == from.queue[0];
  }

  lemma {:induction false} InPrefix(a: seq<Distance>, b: seq<Distance>, x: Distance)
    requires a <= b && x in a
    ensures x in b
  {
    var m: nat :| m < |a| && a[m] == x;
    assert b[m] == x;
  }

  lemma {:induction false} NothingWaits(g: G.Graph, o: Settings, d: seq<Distance>)
    requires Progress(g, o, Frontier(d, []))
    ensures Exhausted(g, o, d)
  {
    hide Done;
  }

  lemma {:induction false} RootsWait(g: G.Graph, o: Settings, d: seq<Distance>)
    ensures Progress(g, o, Frontier(d, d))
  {
    hide Done;
  }

  lemma {:induction false} LeftBounded(g: G.Graph, o: Settings, f: Frontier, roots: nat)
    requires Walking(g, o, f, roots, {})
    ensures Left(g, f) >= 0
  {
    hide Linked, G.Shape, Excluded, Listed, Traced;
    NoMoreThanNodes(g, o, f.distances);
  }

  // ---- the audit paths of a justification ---------------------------------

  /** Everything on the audit paths of the first two seeds. */
  ghost function AuditNodes(g: G.Graph, seeds: seq<NodeIdx>, cap: nat, n: nat): set<NodeIdx>
    requires G.Shape(g) && n <= |seeds| && forall i :: i in seeds ==> i < |g.nodes|
  {
    if n == 0 then {}
    else
      assert seeds[n - 1] in seeds;
      var path := E.ExplainOf(g, seeds[n - 1], cap).nodes;
      AuditNodes(g, seeds, cap, n - 1) + (set k: nat | k < |path| :: path[k])
  }

  lemma {:induction false} MorePaths(g: G.Graph, o: Settings, f: Frontier, roots: nat, paths: set<NodeIdx>, more: set<NodeIdx>)
    requires Walking(g, o, f, roots, paths) && paths <= more
    ensures Walking(g, o, f, roots, more)
  {
    hide Linked, G.Shape, Sane, Listed;
  }

  /** One audit path: every node of it joins the list unless it is excluded. */
  method AddPath(
    graph: MemoryGraph, o: Settings, from: seq<Distance>, seenAt: set<NodeIdx>, path: seq<NodeIdx>, ghost roots: nat,
    ghost paths: set<NodeIdx>)
    returns (d: seq<Distance>, seen: set<NodeIdx>)
    requires Walking(graph.Value(), o, Frontier(from, []), roots, paths) && seenAt == IdsOf(from)
    requires forall k: nat :: k < |path| ==> path[k] < |graph.nodes| && path[k] in paths
    ensures Walking(graph.Value(), o, Frontier(d, []), roots, paths) && seen == IdsOf(d) && from <= d
    ensures forall k: nat :: k < |path| ==> Listed(d, path[k]) || Excluded(graph.Value(), o, path[k])
  {
    hide Linked, G.Shape, Excluded, Listed, Sane, Traced;
    ghost var g := graph.Value();
    d, seen := from, seenAt;
    for k := 0 to |path|
      invariant Walking(g, o, Frontier(d, []), roots, paths) && seen == IdsOf(d) && from <= d
      invariant forall m: nat :: m < k ==> Listed(d, path[m]) || Excluded(g, o, path[m])
    {
      var j := path[k];
      var depth := if k < o.maxDepth then k else o.maxDepth;
      ExcludedIs(g, o, j);
      IdsListed(d, j);
      if (o.admitStale || !graph.nodes[j].meta.supersededSource) && j !in seen {
        WalkJoins(g, o, Frontier(d, []), roots, paths, j, depth);
        IdsAppend(d, (j, depth));
        ListedMore(d, (j, depth));
        d := d + [(j, depth)];
        seen := seen + {j};
      }
    }
  }

  method AddAudits(
    graph: MemoryGraph, o: Settings, from: seq<Distance>, seenAt: set<NodeIdx>, seeds: seq<NodeIdx>, ghost roots: nat)
    returns (d: seq<Distance>)
    requires Walking(graph.Value(), o, Frontier(from, []), roots, {}) && seenAt == IdsOf(from)
    requires G.Shape(graph.Value()) && forall i :: i in seeds ==> i < |graph.nodes|
    ensures var n := if |seeds| < 2 then |seeds| else 2;
            var paths := AuditNodes(graph.Value(), seeds, graph.maxDepth, n);
            && Walking(graph.Value(), o, Frontier(d, []), roots, paths) && from <= d
            && forall x :: x in paths ==> Listed(d, x) || Excluded(graph.Value(), o, x)
  {
    hide Linked, Excluded, Listed, Sane, Traced, E.Follow;
    ghost var g := graph.Value();
    var n := if |seeds| < 2 then |seeds| else 2;
    var seen := seenAt;
    d := from;
    for k := 0 to n
      invariant Walking(g, o, Frontier(d, []), roots, AuditNodes(g, seeds, g.maxDepth, k)) && seen == IdsOf(d)
      invariant from <= d
      invariant forall x :: x in AuditNodes(g, seeds, g.maxDepth, k) ==> Listed(d, x) || Excluded(g, o, x)
    {
      ghost var before, paths := AuditNodes(g, seeds, g.maxDepth, k), AuditNodes(g, seeds, g.maxDepth, k + 1);
      assert seeds[k] in seeds;
      var path := graph.ExplainNode(seeds[k], None);
      PathInRange(g, seeds[k], g.maxDepth);
      MorePaths(g, o, Frontier(d, []), roots, before, paths);
      ghost var listed := d;
      d, seen := AddPath(graph, o, d, seen, path.nodes, roots, paths);
      forall x | x in paths ensures Listed(d, x) || Excluded(g, o, x) {
        if x in before {
          PrefixListed(listed, d, x);
        }
      }
    }
  }

  lemma {:induction false} PrefixListed(a: seq<Distance>, b: seq<Distance>, x: NodeIdx)
    requires a <= b
    ensures Listed(a, x) ==> Listed(b, x)
  {
    if Listed(a, x) {
      var k: nat :| k < |a| && a[k].0 == x;
      assert b[k].0 == x;
    }
  }

  lemma {:induction false} PathInRange(g: G.Graph, root: NodeIdx, cap: nat)
    requires G.Shape(g) && root < |g.nodes|
    ensures forall k: nat :: k < |E.ExplainOf(g, root, cap).nodes| ==> E.ExplainOf(g, root, cap).nodes[k] < |g.nodes|
  {
    hide E.Follow;
    E.ExplainSound(g, root, cap);
    var path := E.ExplainOf(g, root, cap).nodes;
    forall k: nat | k < |path| ensures path[k] < |g.nodes| {
      assert E.InSupport(g, root, path[k]);
    }
  }

  /** What the expansion promises of its list. */
  ghost predicate Expanded(
    g: G.Graph, o: Settings, seeds: seq<NodeIdx>, pin: seq<NodeIdx>, paths: set<NodeIdx>, d: seq<Distance>)
  {
    && Sane(g, o, d)
    && (forall i :: i in seeds || (i in pin && i < |g.nodes|) || i in paths ==> Listed(d, i) || Excluded(g, o, i))
    && exists roots: nat, walked: nat :: RootsAndWalk(g, o, seeds, pin, paths, d, roots, walked)
  }

  /** The roots come first, in order of mention and at distance 0, then what the walk reached as far as it may go, then the audit paths. */
  ghost predicate RootsAndWalk(
    g: G.Graph, o: Settings, seeds: seq<NodeIdx>, pin: seq<NodeIdx>, paths: set<NodeIdx>, d: seq<Distance>, roots: nat,
    walked: nat)
  {
    && roots <= walked <= |d| && InTurn(seeds + pin, d[..roots]) && Traced(g, d, roots, paths) && Exhausted(g, o, d[..walked])
    && (forall k: nat :: k < roots ==> (d[k].0 in seeds || d[k].0 in pin) && d[k].1 == 0)
    && (forall i :: i in seeds || (i in pin && i < |g.nodes|) ==> Listed(d[..roots], i) || Excluded(g, o, i))
  }

  /** `expand`. */
  method Expand(graph: MemoryGraph, o: Settings, seeds: seq<NodeIdx>, q: QueryType, pin: seq<NodeIdx>)
    returns (distances: seq<Distance>, ghost paths: set<NodeIdx>)
    requires G.Shape(graph.Value()) && forall i :: i in seeds ==> i < |graph.nodes|
    ensures paths == if q == Justify
                     then AuditNodes(graph.Value(), seeds, graph.maxDepth, if |seeds| < 2 then |seeds| else 2) else {}
    ensures Sane(graph.Value(), o, distances)
    ensures Expanded(graph.Value(), o, seeds, pin, paths, distances)
  {
    hide Linked, G.Shape, Excluded, Listed, Sane, Traced, Exhausted, Progress, InTurn;
    ghost var g := graph.Value();
    var f, seen := Root(graph, o, seeds, pin);
    ghost var rooted := f.distances;
    RootsWait(g, o, rooted);
    distances, seen := Walk(graph, o, f, seen, |rooted|);
    ghost var walked := distances;
    paths := {};
    if q == Justify {
      distances := AddAudits(graph, o, distances, seen, seeds, |rooted|);
      paths := AuditNodes(g, seeds, g.maxDepth, if |seeds| < 2 then |seeds| else 2);
    }
    forall i | i in seeds || (i in pin && i < |g.nodes|) || i in paths
      ensures Listed(distances, i) || Excluded(g, o, i)
    {
      PrefixListed(rooted, distances, i);
    }
    assert distances[..|rooted|] == rooted && distances[..|walked|] == walked;
    assert RootsAndWalk(g, o, seeds, pin, paths, distances, |rooted|, |walked|);
  }

  /**
   Unless the walk filled the list, what a question finds brings its neighbourhood: the
   inputs of every seed and of every node the caller pinned, what was derived from it, both
   up to the fan-out, and what contradicts it.
   */
  lemma {:induction false} RootsOpened(
    g: G.Graph, o: Settings, seeds: seq<NodeIdx>, pin: seq<NodeIdx>, paths: set<NodeIdx>, d: seq<Distance>, i: NodeIdx)
    requires Expanded(g, o, seeds, pin, paths, d) && |d| < o.maxCandidates && o.maxDepth > 0
    requires (i in seeds || i in pin) && i < |g.nodes| && !Excluded(g, o, i)
    ensures Opened(g, o, d, i, 0)
  {
    hide Traced, Opened, Sane, Excluded, InTurn;
    var roots: nat, walked: nat :| RootsAndWalk(g, o, seeds, pin, paths, d, roots, walked);
    var k: nat :| k < roots && d[..roots][k].0 == i;
    assert d[..walked][k] == d[k];
    RootIsNotSideways(g, d[..walked], k);
    DoneKept(g, o, d[..walked], d, k);
    RootIsNotSideways(g, d, k);
  }

  lemma {:induction false} RootIsNotSideways(g: G.Graph, d: seq<Distance>, k: nat)
    requires k < |d| && d[k].1 == 0
    ensures !Sideways(g, d, k)
  {
  }

  // ---- pinning ------------------------------------------------------------

  /** Fresh nodes of a kind that is admitted every turn. */
  predicate PinnedByKind(g: G.Graph, q: QueryType, i: NodeIdx) {
    i < |g.nodes| && g.nodes[i].kind in PinnedKinds(q) && g.nodes[i].status == Fresh
  }

  /** The pinned set, and the list with the pinned nodes nothing had reached at its end. */
  ghost predicate Pinned(
    g: G.Graph, q: QueryType, pin: seq<NodeIdx>, before: seq<Distance>, pinned: set<NodeIdx>, d: seq<Distance>)
  {
    && (forall i :: i in pinned <==> i in pin || PinnedByKind(g, q, i))
    && before <= d && (forall k: nat :: |before| <= k < |d| ==> PinnedByKind(g, q, d[k].0) && d[k].1 == 1)
    && (forall i :: PinnedByKind(g, q, i) ==> Listed(d, i))
    && (forall j: nat, k: nat :: |before| <= k < |d| && j < k ==> d[j].0 != d[k].0)
  }

  /** `pinned`: every fresh node of the pinned kinds joins, at the end of the list. */
  method Pin(graph: MemoryGraph, q: QueryType, before: seq<Distance>, pin: seq<NodeIdx>)
    returns (pinned: set<NodeIdx>, distances: seq<Distance>)
    ensures Pinned(graph.Value(), q, pin, before, pinned, distances)
  {
    hide Listed;
    ghost var g := graph.Value();
    pinned := set i | i in pin;
    var known := set k: nat | k < |before| :: before[k].0;
    distances := before;
    var kinds := PinnedKinds(q);
    for n := 0 to |kinds|
      invariant PinnedSoFar(g, kinds[..n], pin, before, pinned, known, distances)
    {
      pinned, known, distances := PinKind(graph, kinds[n], kinds[..n], pin, before, pinned, known, distances);
      assert kinds[..n + 1] == kinds[..n] + [kinds[n]];
    }
    assert kinds[..|kinds|] == kinds;
  }

  predicate FreshOf(g: G.Graph, kinds: seq<Kind>, i: NodeIdx) {
    i < |g.nodes| && g.nodes[i].kind in kinds && g.nodes[i].status == Fresh
  }

  ghost predicate PinnedSoFar(
    g: G.Graph, kinds: seq<Kind>, pin: seq<NodeIdx>, before: seq<Distance>, pinned: set<NodeIdx>, known: set<NodeIdx>,
    d: seq<Distance>)
  {
    && (forall i :: i in pinned <==> i in pin || FreshOf(g, kinds, i))
    && before <= d && known == IdsOf(d)
    && (forall k: nat :: |before| <= k < |d| ==> FreshOf(g, kinds, d[k].0) && d[k].1 == 1)
    && (forall i :: FreshOf(g, kinds, i) ==> Listed(d, i))
    && (forall j: nat, k: nat :: |before| <= k < |d| && j < k ==> d[j].0 != d[k].0)
  }

  method PinKind(
    graph: MemoryGraph, kind: Kind, ghost kinds: seq<Kind>, ghost pin: seq<NodeIdx>, ghost before: seq<Distance>,
    pinnedAt: set<NodeIdx>, knownAt: set<NodeIdx>, from: seq<Distance>)
    returns (pinned: set<NodeIdx>, known: set<NodeIdx>, d: seq<Distance>)
    requires PinnedSoFar(graph.Value(), kinds, pin, before, pinnedAt, knownAt, from)
    ensures PinnedSoFar(graph.Value(), kinds + [kind], pin, before, pinned, known, d)
  {
    hide Listed;
    ghost var g := graph.Value();
    pinned, known, d := pinnedAt, knownAt, from;
    for i: nat := 0 to |graph.nodes|
      invariant forall x: NodeIdx :: x in pinned <==> x in pin || FreshOf(g, kinds, x) || (x < i && FreshOf(g, [kind], x))
      invariant before <= d && known == IdsOf(d)
      invariant forall k: nat :: |before| <= k < |d| ==> FreshOf(g, kinds + [kind], d[k].0) && d[k].1 == 1
      invariant forall x: NodeIdx :: FreshOf(g, kinds, x) || (x < i && FreshOf(g, [kind], x)) ==> Listed(d, x)
      invariant forall j: nat, k: nat :: |before| <= k < |d| && j < k ==> d[j].0 != d[k].0
    {
      if graph.nodes[i].kind == kind && graph.nodes[i].status == Fresh {
        pinned := pinned + {i};
        IdsListed(d, i);
        if i !in known {
          forall j: nat | j < |d| ensures d[j].0 != i {
            NotListedAt(d, i, j);
          }
          IdsAppend(d, (i, 1));
          ListedMore(d, (i, 1));
          known := known + {i};
          d := d + [(i, 1)];
        }
      }
    }
  }

  lemma {:induction false} NotListedAt(d: seq<Distance>, i: NodeIdx, j: nat)
    requires !Listed(d, i) && j < |d|
    ensures d[j].0 != i
  {
  }

  // ---- scoring and admission ----------------------------------------------

  /** The priced levels of the nodes, as far as the query forces or the policy prefers one. */
  datatype Pricing = Pricing(options: NodeIdx -> seq<B.Choice>, preferred: map<NodeIdx, B.Level>)

  /** A candidate of the knapsack stands for a listed node that passed the filter, with its own options. */
  ghost predicate StandsFor(
    g: G.Graph, o: Settings, p: Pricing, pinned: set<NodeIdx>, d: seq<Distance>, c: B.Candidate)
  {
    && MayScore(g, o, pinned, c.node) && c.options == p.options(c.node) && c.options != []
    && (c.pinned <==> c.node in pinned)
    && exists k: nat :: k < |d| && k < o.maxCandidates && d[k].0 == c.node
  }

  predicate Scored(g: G.Graph, o: Settings, p: Pricing, pinned: set<NodeIdx>, i: NodeIdx) {
    MayScore(g, o, pinned, i) && p.options(i) != []
  }

  function CandidateFor(p: Pricing, pinned: set<NodeIdx>, i: NodeIdx): B.Candidate {
    B.Candidate(i, p.options(i), i in pinned)
  }

  /** Candidates stand in the order of the list. */
  ghost predicate InListOrder(d: seq<Distance>, cs: seq<B.Candidate>) {
    forall a: nat, b: nat, j: nat, k: nat ::
      a < b < |cs| && j < |d| && k < |d| && d[j].0 == cs[a].node && d[k].0 == cs[b].node ==> j < k
  }

  lemma {:induction false} InListOrderNext(d: seq<Distance>, cs: seq<B.Candidate>, k: nat, c: B.Candidate)
    requires InListOrder(d, cs) && k < |d| && c.node == d[k].0
    requires forall j: nat, m: nat :: j < m < |d| ==> d[j].0 != d[m].0
    requires forall x :: x in cs ==> exists m: nat :: m < k && d[m].0 == x.node
    ensures InListOrder(d, cs + [c])
  {
    var more := cs + [c];
    forall a: nat, b: nat, i: nat, j: nat
      | a < b < |more| && i < |d| && j < |d| && d[i].0 == more[a].node && d[j].0 == more[b].node
      ensures i < j
    {
      if b == |cs| {
        assert more[a] == cs[a] && cs[a] in cs;
        var m: nat :| m < k && d[m].0 == cs[a].node;
        assert i == m && j == k;
      } else {
        assert more[a] == cs[a] && more[b] == cs[b];
      }
    }
  }

  lemma {:induction false} NoneInListOrder(d: seq<Distance>)
    ensures InListOrder(d, [])
  {
  }

  /** The scoring loop: the first `maxCandidates` listed nodes, filtered. */
  method Candidates(graph: MemoryGraph, o: Settings, p: Pricing, pinned: set<NodeIdx>, d: seq<Distance>)
    returns (cs: seq<B.Candidate>)
    requires forall k: nat :: k < |d| ==> d[k].0 < |graph.nodes|
    requires forall j: nat, k: nat :: j < k < |d| ==> d[j].0 != d[k].0
    ensures B.DistinctNodes(cs) && InListOrder(d, cs)
    ensures forall c :: c in cs ==> StandsFor(graph.Value(), o, p, pinned, d, c)
    ensures forall k: nat :: k < |d| && k < o.maxCandidates && Scored(graph.Value(), o, p, pinned, d[k].0) ==>
              CandidateFor(p, pinned, d[k].0) in cs
  {
    hide InListOrder;
    ghost var g := graph.Value();
    cs := [];
    NoneInListOrder(d);
    var n := if |d| < o.maxCandidates then |d| else o.maxCandidates;
    for k := 0 to n
      invariant B.DistinctNodes(cs) && InListOrder(d, cs)
      invariant forall c :: c in cs ==> StandsFor(g, o, p, pinned, d, c) && exists m: nat :: m < k && d[m].0 == c.node
      invariant forall m: nat :: m < k && Scored(g, o, p, pinned, d[m].0) ==> CandidateFor(p, pinned, d[m].0) in cs
    {
      var i := d[k].0;
      var node := graph.nodes[i];
      if node.status == Superseded {
      } else if node.status == Stale && i !in pinned && !o.admitStale {
      } else {
        var options := p.options(i);
        if options != [] {
          forall j | 0 <= j < |cs| ensures cs[j].node != i {
            assert cs[j] in cs;
          }
          InListOrderNext(d, cs, k, B.Candidate(i, options, i in pinned));
          cs := cs + [B.Candidate(i, options, i in pinned)];
        }
      }
    }
  }

  ghost predicate Held(cs: seq<B.Candidate>, alloc: B.Allocation) {
    forall n :: n in alloc.chosen ==> exists c :: c in cs && c.node == n
  }

  lemma {:induction false} ForcedFrom(cs: seq<B.Candidate>, n: nat, x: NodeIdx)
    requires n <= |cs| && x in B.ForcedMap(cs, n)
    ensures exists c :: c in cs && c.node == x
  {
    hide B.Cheapest;
    if n > 0 {
      if cs[n - 1].node == x {
        assert cs[n - 1] in cs;
      } else {
        ForcedFrom(cs, n - 1, x);
      }
    }
  }

  lemma {:induction false} GreedyFrom(order: seq<(NodeIdx, B.Choice)>, n: nat, budget: nat, x: NodeIdx)
    requires n <= |order| && x in B.Greedy(order, n, budget).0
    ensures exists i: nat :: i < n && order[i].0 == x
  {
    if n > 0 && order[n - 1].0 != x {
      GreedyFrom(order, n - 1, budget, x);
    }
  }

  lemma {:induction false} OverflowHeld(cs: seq<B.Candidate>, budget: nat, alloc: B.Allocation)
    requires B.SolvedOverflow(cs, budget, alloc)
    ensures Held(cs, alloc)
  {
    hide B.Greedy, B.ForcedMap, B.DroppedIn;
    var order: seq<(NodeIdx, B.Choice)> :| B.Lists(order, B.ForcedMap(cs, |cs|)) && Sorting.Sorted(B.UtilityFirst, order)
      && var g := B.Greedy(order, |order|, budget);
      alloc == B.Allocation(g.0, g.1, g.2, budget, B.DroppedIn(cs, g.0, |cs|), [], true);
    forall n | n in alloc.chosen ensures exists c :: c in cs && c.node == n {
      GreedyFrom(order, |order|, budget, n);
      var i: nat :| i < |order| && order[i].0 == n;
      assert (order[i].0, order[i].1) in order;
      ForcedFrom(cs, |cs|, n);
    }
  }

  lemma {:induction false} SolvedHeld(
    cs: seq<B.Candidate>, budget: nat, quantum: nat, preferred: map<NodeIdx, B.Level>, plan: B.Plan, alloc: B.Allocation)
    requires quantum > 0 && B.ReservedTo(cs, |cs|) <= budget && B.Solved(cs, budget, quantum, preferred, plan, alloc)
    ensures Held(cs, alloc)
  {
    hide B.BestPlan, B.TokensTo, B.UtilityTo, B.ReservedTo;
    forall n | n in alloc.chosen ensures exists c :: c in cs && c.node == n {
      var i: nat :| i < |cs| && cs[i].node == n;
      assert cs[i] in cs;
    }
  }

  /** What the plan holds. */
  datatype Planned = Planned(entries: seq<(NodeIdx, B.Choice)>, allocation: B.Allocation)

  predicate ByNode(a: (NodeIdx, B.Choice), b: (NodeIdx, B.Choice)) { a.0 <= b.0 }

  ghost predicate EntriesOf(entries: seq<(NodeIdx, B.Choice)>, chosen: map<NodeIdx, B.Choice>) {
    && (forall i, c :: (i, c) in entries <==> i in chosen && chosen[i] == c)
    && Sorting.Sorted((a: (NodeIdx, B.Choice), b: (NodeIdx, B.Choice)) => ByNode(a, b), entries)
  }

  /** What went into the plan: the list, the pinned set, the candidates and the levels chosen for them. */
  datatype Workings = Workings(
    paths: set<NodeIdx>, reached: seq<Distance>, pinned: set<NodeIdx>, listed: seq<Distance>, cs: seq<B.Candidate>,
    plan: B.Plan)

  /** The candidates are, in order, exactly the listed nodes under the cap that pass the filter and have a priced level. */
  ghost predicate CandidatesAre(g: G.Graph, o: Settings, p: Pricing, w: Workings) {
    && B.DistinctNodes(w.cs) && InListOrder(w.listed, w.cs) && (forall c :: c in w.cs ==> StandsFor(g, o, p, w.pinned, w.listed, c))
    && forall k: nat :: k < |w.listed| && k < o.maxCandidates && Scored(g, o, p, w.pinned, w.listed[k].0) ==>
         CandidateFor(p, w.pinned, w.listed[k].0) in w.cs
  }

  /** The whole of `plan`, from the seeds to the allocation. */
  ghost predicate IsPlan(
    g: G.Graph, o: Settings, p: Pricing, q: QueryType, seeds: seq<NodeIdx>, pin: seq<NodeIdx>, budget: nat,
    planned: Planned, w: Workings)
  {
    && Expanded(g, o, seeds, pin, w.paths, w.reached) && Pinned(g, q, pin, w.reached, w.pinned, w.listed)
    && CandidatesAre(g, o, p, w) && B.Answers(w.cs, budget, None, p.preferred, w.plan, planned.allocation)
    && EntriesOf(planned.entries, planned.allocation.chosen)
  }

  /** `plan`, from the seeds on. */
  method Plan(
    graph: MemoryGraph, o: Settings, p: Pricing, q: QueryType, seeds: seq<NodeIdx>, pin: seq<NodeIdx>, budget: nat)
    returns (planned: Planned, ghost w: Workings)
    requires G.Shape(graph.Value()) && H.FlagInv(graph.Value())
    requires forall i :: i in seeds ==> i < |graph.nodes|
    ensures IsPlan(graph.Value(), o, p, q, seeds, pin, budget, planned, w)
    ensures forall e :: e in planned.entries ==> MayAdmit(graph.Value(), o, pin, e.0)
  {
    hide Linked, G.Shape, H.FlagInv, B.Answers, Expanded, Pinned, StandsFor, MayAdmit, Scored, CandidateFor;
    ghost var g := graph.Value();
    var reached, paths := Expand(graph, o, seeds, q, pin);
    var pinned, distances := Pin(graph, q, reached, pin);
    ListIsSane(g, o, q, seeds, pin, paths, reached, pinned, distances);
    var candidates := Candidates(graph, o, p, pinned, distances);
    var allocation;
    ghost var plan;
    allocation, plan := B.Solve(candidates, budget, None, p.preferred);
    var entries := Entries(allocation.chosen);
    planned := Planned(entries, allocation);
    w := Workings(paths, reached, pinned, distances, candidates, plan);
    PlanAdmits(g, o, p, q, seeds, pin, budget, planned, w);
  }

  /** The whole of `plan`: the index hits become seeds, and the seeds a plan. */
  method PlanQuestion(
    graph: MemoryGraph, o: Settings, hits: seq<(NodeIdx, real)>, recent: NodeIdx -> bool,
    spanHits: seq<(string, real)>, evidenceBySpan: map<string, NodeId>, p: Pricing, q: QueryType, pin: seq<NodeIdx>,
    budget: nat)
    returns (planned: Planned, seeds: seq<NodeIdx>, ghost w: Workings)
    requires G.Shape(graph.Value()) && H.FlagInv(graph.Value()) && forall h :: h in hits ==> h.0 < |graph.nodes|
    ensures SeedsAre(graph.Value(), o, hits, recent, spanHits, evidenceBySpan, seeds)
    ensures IsPlan(graph.Value(), o, p, q, seeds, pin, budget, planned, w)
    ensures forall e :: e in planned.entries ==> MayAdmit(graph.Value(), o, pin, e.0)
  {
    hide SeedsAre, IsPlan, MayAdmit, G.Shape, H.FlagInv;
    seeds := Seed(graph, o, hits, recent, spanHits, evidenceBySpan);
    planned, w := Plan(graph, o, p, q, seeds, pin, budget);
  }

  /** Nothing that may not be admitted reaches the window. */
  lemma {:induction false} PlanAdmits(
    g: G.Graph, o: Settings, p: Pricing, q: QueryType, seeds: seq<NodeIdx>, pin: seq<NodeIdx>, budget: nat,
    planned: Planned, w: Workings)
    requires H.FlagInv(g) && IsPlan(g, o, p, q, seeds, pin, budget, planned, w)
    ensures forall e :: e in planned.entries ==> MayAdmit(g, o, pin, e.0)
  {
    hide H.FlagInv, B.Answers, Expanded, Pinned, StandsFor, MayAdmit, Scored, CandidateFor, Held;
    forall c | c in w.cs ensures MayAdmit(g, o, pin, c.node) {
      CandidateMayAdmit(g, o, p, q, seeds, pin, w.paths, w.reached, w.pinned, w.listed, c);
    }
    AllocationHeld(w.cs, budget, p.preferred, w.plan, planned.allocation);
    forall e | e in planned.entries ensures MayAdmit(g, o, pin, e.0) {
      assert (e.0, e.1) in planned.entries;
      HeldBy(w.cs, planned.allocation, e.0);
    }
  }

  lemma {:induction false} HeldBy(cs: seq<B.Candidate>, alloc: B.Allocation, n: NodeIdx)
    requires Held(cs, alloc) && n in alloc.chosen
    ensures exists c :: c in cs && c.node == n
  {
  }

  /**
   A node of a pinned kind, or one the caller pinned that the expansion listed, is in the
   window exactly when the list holds it under the cap, it passes the filter and has a
   priced level, provided the pinned minimum fits a budget that is not zero.
   */
  lemma {:induction false} PinnedInWindowIff(
    g: G.Graph, o: Settings, p: Pricing, q: QueryType, seeds: seq<NodeIdx>, pin: seq<NodeIdx>, budget: nat,
    planned: Planned, w: Workings, i: NodeIdx)
    requires H.FlagInv(g) && IsPlan(g, o, p, q, seeds, pin, budget, planned, w)
    requires budget > 0 && B.ReservedTo(w.cs, |w.cs|) <= budget
    requires i in pin || PinnedByKind(g, q, i)
    ensures i in planned.allocation.chosen <==>
            Listed(Cap(w.listed, o.maxCandidates), i) && Scored(g, o, p, w.pinned, i)
  {
    hide H.FlagInv, B.Answers, B.ReservedTo, Expanded, Scored, CandidateFor, CandidatesAre, Listed, Cap, EntriesOf;
    CandidatesDistinct(g, o, p, w);
    if i in planned.allocation.chosen {
      AllocationHeld(w.cs, budget, p.preferred, w.plan, planned.allocation);
      HeldBy(w.cs, planned.allocation, i);
      CandidateListed(g, o, p, w, i);
    }
    if Listed(Cap(w.listed, o.maxCandidates), i) && Scored(g, o, p, w.pinned, i) {
      var m := CandidateThere(g, o, p, w, i);
      B.PinnedAdmitted(w.cs, budget, None, p.preferred, w.plan, planned.allocation, m);
    }
  }

  lemma {:induction false} CandidatesDistinct(g: G.Graph, o: Settings, p: Pricing, w: Workings)
    requires CandidatesAre(g, o, p, w)
    ensures B.DistinctNodes(w.cs)
  {
    hide StandsFor, Scored;
  }

  lemma {:induction false} CandidateListed(g: G.Graph, o: Settings, p: Pricing, w: Workings, i: NodeIdx)
    requires CandidatesAre(g, o, p, w) && exists c :: c in w.cs && c.node == i
    ensures Listed(Cap(w.listed, o.maxCandidates), i) && Scored(g, o, p, w.pinned, i)
  {
    hide MayScore, CandidateFor;
    var c :| c in w.cs && c.node == i;
    assert StandsFor(g, o, p, w.pinned, w.listed, c);
    var k: nat :| k < |w.listed| && k < o.maxCandidates && w.listed[k].0 == c.node;
    assert Cap(w.listed, o.maxCandidates)[k].0 == i;
  }

  lemma {:induction false} CandidateThere(g: G.Graph, o: Settings, p: Pricing, w: Workings, i: NodeIdx) returns (m: nat)
    requires CandidatesAre(g, o, p, w) && Listed(Cap(w.listed, o.maxCandidates), i) && Scored(g, o, p, w.pinned, i)
    ensures m < |w.cs| && w.cs[m].node == i && w.cs[m].options != [] && (w.cs[m].pinned <==> i in w.pinned)
  {
    hide MayScore, StandsFor;
    var k: nat :| k < |Cap(w.listed, o.maxCandidates)| && Cap(w.listed, o.maxCandidates)[k].0 == i;
    assert w.listed[k].0 == i;
    var c := CandidateFor(p, w.pinned, i);
    assert c in w.cs;
    m :| m < |w.cs| && w.cs[m] == c;
  }

  lemma {:induction false} AllocationHeld(
    cs: seq<B.Candidate>, budget: nat, preferred: map<NodeIdx, B.Level>, plan: B.Plan, alloc: B.Allocation)
    requires B.DistinctNodes(cs) && B.Answers(cs, budget, None, preferred, plan, alloc)
    ensures Held(cs, alloc)
  {
    hide B.Solved, B.SolvedOverflow, B.ReservedTo, Held;
    if budget == 0 || cs == [] {
      NothingHeld(cs, alloc);
    } else if B.ReservedTo(cs, |cs|) > budget {
      OverflowHeld(cs, budget, alloc);
    } else {
      SolvedHeld(cs, budget, B.QuantumIn(None, B.FreeBudget(cs, budget)), preferred, plan, alloc);
    }
  }

  lemma {:induction false} NothingHeld(cs: seq<B.Candidate>, alloc: B.Allocation)
    requires alloc.chosen == map[]
    ensures Held(cs, alloc)
  {
  }

  /** The chosen options in order of node. */
  method Entries(chosen: map<NodeIdx, B.Choice>) returns (entries: seq<(NodeIdx, B.Choice)>)
    ensures EntriesOf(entries, chosen)
  {
    var order := B.Enumerate(chosen);
    var le := (a: (NodeIdx, B.Choice), b: (NodeIdx, B.Choice)) => ByNode(a, b);
    assert Sorting.TotalPreorder(le);
    entries := Sorting.Sort(le, order);
    Sorting.SortSorted(le, order);
    Sorting.SortMembers(le, order);
  }

  /** After pinning the list is still without repeats, in range and free of dead evidence. */
  lemma {:induction false} ListIsSane(
    g: G.Graph, o: Settings, q: QueryType, seeds: seq<NodeIdx>, pin: seq<NodeIdx>, paths: set<NodeIdx>,
    reached: seq<Distance>, pinned: set<NodeIdx>, d: seq<Distance>)
    requires H.FlagInv(g) && Expanded(g, o, seeds, pin, paths, reached) && Pinned(g, q, pin, reached, pinned, d)
    ensures forall k: nat :: k < |d| ==> d[k].0 < |g.nodes| && !Excluded(g, o, d[k].0)
    ensures forall j: nat, k: nat :: j < k < |d| ==> d[j].0 != d[k].0
  {
    hide Linked, Traced, Listed;
    forall k: nat | k < |d| ensures d[k].0 < |g.nodes| && !Excluded(g, o, d[k].0) {
      if k < |reached| {
        assert d[k] == reached[k];
      } else {
        PinnedIsNoEvidence(g, q, d[k].0);
      }
    }
    forall j: nat, k: nat | j < k < |d| ensures d[j].0 != d[k].0 {
      if k < |reached| {
        assert d[k] == reached[k] && d[j] == reached[j];
      }
    }
  }

  /** Only evidence is ever flagged, and evidence is never a pinned kind. */
  lemma {:induction false} PinnedIsNoEvidence(g: G.Graph, q: QueryType, i: NodeIdx)
    requires H.FlagInv(g) && PinnedByKind(g, q, i)
    ensures i < |g.nodes| && !Flagged(g, i) && g.nodes[i].status == Fresh
  {
  }

  lemma {:induction false} CandidateMayAdmit(
    g: G.Graph, o: Settings, p: Pricing, q: QueryType, seeds: seq<NodeIdx>, pin: seq<NodeIdx>, paths: set<NodeIdx>,
    reached: seq<Distance>, pinned: set<NodeIdx>, d: seq<Distance>, c: B.Candidate)
    requires H.FlagInv(g) && Expanded(g, o, seeds, pin, paths, reached) && Pinned(g, q, pin, reached, pinned, d)
    requires StandsFor(g, o, p, pinned, d, c)
    ensures MayAdmit(g, o, pin, c.node)
  {
    hide Expanded, H.FlagInv;
    ListIsSane(g, o, q, seeds, pin, paths, reached, pinned, d);
    var k: nat :| k < |d| && k < o.maxCandidates && d[k].0 == c.node;
    if PinnedByKind(g, q, c.node) {
      PinnedIsNoEvidence(g, q, c.node);
    }
  }

  /**
   Pinned nodes that nothing reached sit at the end of the list, where the candidate cap
   cuts: when there is one, all pinned nodes are considered exactly if the whole list
   fits under the cap.
   */
  lemma {:induction false} PinnedConsideredIff(
    g: G.Graph, o: Settings, q: QueryType, pin: seq<NodeIdx>, before: seq<Distance>, pinned: set<NodeIdx>,
    d: seq<Distance>)
    requires Pinned(g, q, pin, before, pinned, d) && |before| < |d|
    requires forall j: nat, k: nat :: j < k < |d| ==> d[j].0 != d[k].0
    ensures (forall i :: PinnedByKind(g, q, i) ==> Listed(Cap(d, o.maxCandidates), i)) <==> |d| <= o.maxCandidates
  {
    hide PinnedByKind;
    var cut := Cap(d, o.maxCandidates);
    if |d| > o.maxCandidates {
      var last := d[|d| - 1].0;
      assert PinnedByKind(g, q, last);
      forall k: nat | k < |cut| ensures cut[k].0 != last {
        assert d[k].0 != d[|d| - 1].0;
      }
      assert !Listed(cut, last);
    } else {
      assert cut == d;
    }
  }

  /** With room for one candidate a question that finds a node gets no goal or constraint but that node. */
  lemma {:induction false} PinnedCut(
    g: G.Graph, o: Settings, p: Pricing, q: QueryType, found: NodeIdx, budget: nat, planned: Planned, w: Workings,
    i: NodeIdx)
    requires IsPlan(g, o, p, q, [found], [], budget, planned, w) && o.maxCandidates == 1
    requires found < |g.nodes| && !Excluded(g, o, found) && PinnedByKind(g, q, i) && i != found
    ensures i !in planned.allocation.chosen
  {
    hide B.Answers, Traced, Exhausted, Sane, Excluded, PinnedByKind, EntriesOf, Held, Scored, CandidateFor, MayScore;
    FoundFirst(g, o, found, w.paths, w.reached);
    assert w.listed[0] == w.reached[0];
    AllocationHeld(w.cs, budget, p.preferred, w.plan, planned.allocation);
    forall c | c in w.cs ensures c.node == found {
      assert StandsFor(g, o, p, w.pinned, w.listed, c);
    }
    OnlyHeld(w.cs, planned.allocation, found);
  }

  lemma {:induction false} OnlyHeld(cs: seq<B.Candidate>, alloc: B.Allocation, found: NodeIdx)
    requires Held(cs, alloc) && forall c :: c in cs ==> c.node == found
    ensures forall n :: n in alloc.chosen ==> n == found
  {
    forall n | n in alloc.chosen ensures n == found {
      HeldBy(cs, alloc, n);
    }
  }

  /** The only root comes first. */
  lemma {:induction false} FoundFirst(
    g: G.Graph, o: Settings, found: NodeIdx, paths: set<NodeIdx>, d: seq<Distance>)
    requires Expanded(g, o, [found], [], paths, d) && found < |g.nodes| && !Excluded(g, o, found)
    ensures d != [] && d[0].0 == found
  {
    hide Traced, Exhausted, Sane, Excluded, InTurn;
    var roots: nat, walked: nat :| RootsAndWalk(g, o, [found], [], paths, d, roots, walked);
    assert found in [found];
    assert Listed(d[..roots], found);
  }

  /** `distances.iter().take(max_candidates)`. */
  function Cap(d: seq<Distance>, n: nat): seq<Distance> {
    if |d| <= n then d else d[..n]
  }
}
