/**
 The memory graph over its whole life (src/graph.rs, src/runtime.rs): mutations, and
 saving and loading in between.

 A load restores the saved nodes first and the edges after them, into an empty graph;
 until the edges are back, the persisted grounding flags are promises.  Nodes may come
 back in another order, so a node is followed by its id.
 */
module GraphLives {
  import opened Nodes
  import opened GraphSpec
  import opened GraphIndex
  import opened GraphHistory
  import C = ClaimSpec

  /** A persisted edge names its ends by id. */
  type Link = (NodeId, NodeId, EdgeType)

  function RestoreNodes(g: Graph, nodes: seq<Node>): Graph {
    if nodes == [] then g else InsertNode(RestoreNodes(g, nodes[..|nodes| - 1]), nodes[|nodes| - 1])
  }

  function RestoreLinks(g: Graph, links: seq<Link>): (h: Graph)
    requires Shape(g)
    ensures Shape(h)
  {
    if links == [] then g
    else
      var l := links[|links| - 1];
      var h := RestoreLinks(g, links[..|links| - 1]);
      RestoreEdgeShape(h, l);
      RestoreEdge(h, l.0, l.1, l.2)
  }

  lemma {:induction false} RestoreEdgeShape(g: Graph, l: Link)
    requires Shape(g)
    ensures Shape(RestoreEdge(g, l.0, l.1, l.2))
  {
    if l.0 in g.byId && l.1 in g.byId {
      AddEdgeShape(g, g.byId[l.0], g.byId[l.1], l.2);
    }
  }

  lemma {:induction false} RestoreShape(nodes: seq<Node>)
    ensures Shape(RestoreNodes(EmptyGraph, nodes))
  {
    hide InsertNode;
    if nodes != [] {
      RestoreShape(nodes[..|nodes| - 1]);
      InsertShape(RestoreNodes(EmptyGraph, nodes[..|nodes| - 1]), nodes[|nodes| - 1]);
    }
  }

  /** `load`: the nodes, then the edges. */
  ghost function Loaded(nodes: seq<Node>, links: seq<Link>): Graph {
    RestoreShape(nodes);
    RestoreLinks(RestoreNodes(EmptyGraph, nodes), links)
  }

  // ---- what a save holds --------------------------------------------------

  ghost predicate IsOrder(order: seq<NodeIdx>, n: nat) {
    |order| == n && Within(order, n) && NoDups(order) && forall i: NodeIdx :: i < n ==> i in order
  }

  /** Everything about a node is saved but, in one of the two formats, its cached result. */
  predicate SavedAs(a: Node, b: Node) {
    b == a.(cachedResult := b.cachedResult)
  }

  ghost predicate IsEdge(g: Graph, e: Edge) {
    e.src < |g.outEdges| && e in g.outEdges[e.src]
  }

  function LinkOf(g: Graph, e: Edge): Link
    requires e.src < |g.nodes| && e.dst < |g.nodes|
  {
    (g.nodes[e.src].id, g.nodes[e.dst].id, e.kind)
  }

  /** The nodes in some order, and every edge. */
  ghost predicate Saves(g: Graph, order: seq<NodeIdx>, nodes: seq<Node>, links: seq<Link>)
    requires Shape(g)
  {
    && IsOrder(order, |g.nodes|) && |nodes| == |order|
    && (forall p: nat :: p < |nodes| ==> SavedAs(g.nodes[order[p]], nodes[p]))
    && forall e: Edge :: IsEdge(g, e) ==> LinkOf(g, e) in links
  }

  // ---- the nodes come back ------------------------------------------------

  /** A graph of restored nodes without edges. */
  ghost predicate Bare(h: Graph, nodes: seq<Node>) {
    && h.nodes == nodes && h.log == [] && h.pending == [] && |h.outEdges| == |nodes|
    && forall i: NodeIdx :: i < |nodes| ==> h.outEdges[i] == []
  }

  lemma {:induction false} EmptyBare()
    ensures Bare(EmptyGraph, [])
  {
  }

  lemma {:induction false} BareNext(h: Graph, nodes: seq<Node>, node: Node)
    requires Bare(h, nodes)
    ensures Bare(InsertNode(h, node), nodes + [node])
  {
    InsertFrame(h, node);
  }

  /** What makes a list of nodes restorable: own ids, own stamps, none from the future. */
  ghost predicate Distinct(nodes: seq<Node>, now: nat) {
    && (forall p: nat, q: nat :: p < q < |nodes| ==>
          nodes[p].id != nodes[q].id && nodes[p].timestamp != nodes[q].timestamp)
    && (forall p: nat :: p < |nodes| ==> nodes[p].timestamp <= now)
  }

  lemma {:induction false} SavedDistinct(
    g: Graph, before: nat, order: seq<NodeIdx>, nodes: seq<Node>, links: seq<Link>, now: nat)
    requires Indexed(g, before) && Saves(g, order, nodes, links)
    requires forall p: nat :: p < |nodes| ==> nodes[p].timestamp <= now
    ensures Distinct(nodes, now)
  {
    hide KeyIndex, LiveIndex, Mirror;
    forall p: nat, q: nat | p < q < |nodes|
      ensures nodes[p].id != nodes[q].id && nodes[p].timestamp != nodes[q].timestamp
    {
      assert SavedAs(g.nodes[order[p]], nodes[p]) && SavedAs(g.nodes[order[q]], nodes[q]);
      assert order[p] != order[q];
    }
  }

  lemma {:induction false} NotThere(h: Graph, front: seq<Node>, last: Node, now: nat)
    requires Indexed(h, now) && Bare(h, front) && Distinct(front + [last], now)
    ensures last.id !in h.byId && last.timestamp <= now
    ensures forall i: NodeIdx :: i < |h.nodes| ==> h.nodes[i].timestamp != last.timestamp
  {
    hide KeyIndex, LiveIndex, Mirror, Shape, Stamps;
    var all := front + [last];
    assert all[|front|] == last;
    forall i: NodeIdx | i < |front| ensures front[i].id != last.id && front[i].timestamp != last.timestamp {
      assert all[i] == front[i];
    }
  }

  lemma {:induction false} NodesRestored(nodes: seq<Node>, now: nat)
    requires Distinct(nodes, now)
    ensures var h := RestoreNodes(EmptyGraph, nodes); Indexed(h, now) && Bare(h, nodes)
  {
    hide InsertNode, Indexed, Bare;
    if nodes == [] {
      EmptyIndexed(now);
      EmptyBare();
    } else {
      var front, last := nodes[..|nodes| - 1], nodes[|nodes| - 1];
      var h := RestoreNodes(EmptyGraph, front);
      assert nodes == front + [last];
      NodesRestored(front, now);
      NotThere(h, front, last, now);
      InsertKeeps(h, last, now);
      BareNext(h, front, last);
    }
  }

  // ---- the edges come back ------------------------------------------------

  lemma {:induction false} LinksRestored(h: Graph, links: seq<Link>, now: nat)
    requires Indexed(h, now) && Shape(h)
    ensures var k := RestoreLinks(h, links);
            && Indexed(k, now) && k.nodes == h.nodes && k.byId == h.byId && k.log == h.log
            && forall l: Link :: l in links && l.0 in h.byId && l.1 in h.byId ==>
                 IsEdge(k, Edge(h.byId[l.0], h.byId[l.1], l.2))
  {
    hide Indexed, AddEdge, IsEdge, Shape;
    if links != [] {
      var front, l := links[..|links| - 1], links[|links| - 1];
      var k := RestoreLinks(h, front);
      LinksRestored(h, front, now);
      LinkRestored(k, l, now);
      var next := RestoreEdge(k, l.0, l.1, l.2);
      assert links == front + [l];
      forall x: Link | x in links && x.0 in h.byId && x.1 in h.byId
        ensures IsEdge(next, Edge(h.byId[x.0], h.byId[x.1], x.2))
      {
        if x in front {
          EdgeKept(k, next, Edge(h.byId[x.0], h.byId[x.1], x.2));
        }
      }
    }
  }

  lemma {:induction false} LinkRestored(k: Graph, l: Link, now: nat)
    requires Indexed(k, now) && Shape(k)
    ensures var next := RestoreEdge(k, l.0, l.1, l.2);
            && Indexed(next, now) && next.nodes == k.nodes && next.byId == k.byId && next.log == k.log
            && EdgesGrow(k, next)
            && (l.0 in k.byId && l.1 in k.byId ==> IsEdge(next, Edge(k.byId[l.0], k.byId[l.1], l.2)))
  {
    hide Indexed;
    if l.0 in k.byId && l.1 in k.byId {
      AddEdgeKeeps(k, k.byId[l.0], k.byId[l.1], l.2, now);
      AddEdgeEvolves(k, k.byId[l.0], k.byId[l.1], l.2);
    }
  }

  lemma {:induction false} EdgeKept(k: Graph, next: Graph, e: Edge)
    requires EdgesGrow(k, next) && IsEdge(k, e)
    ensures IsEdge(next, e)
  {
  }

  // ---- so does the grounding ----------------------------------------------

  /** The edge is there between the same ids. */
  ghost predicate EdgeCarried(g: Graph, h: Graph, e: Edge) {
    && e.src < |g.nodes| && e.dst < |g.nodes| && g.nodes[e.src].id in h.byId && g.nodes[e.dst].id in h.byId
    && IsEdge(h, Edge(h.byId[g.nodes[e.src].id], h.byId[g.nodes[e.dst].id], e.kind))
  }

  /** `h` holds every node of `g` under its id, and every edge between the same ids. */
  ghost predicate Carries(g: Graph, h: Graph)
    requires Shape(g) && Shape(h)
  {
    && (forall i: NodeIdx :: i < |g.nodes| ==>
          g.nodes[i].id in h.byId && SavedAs(g.nodes[i], h.nodes[h.byId[g.nodes[i].id]]))
    && (forall e: Edge :: IsEdge(g, e) ==> EdgeCarried(g, h, e))
  }

  lemma {:induction false} RootedCarries(built: Built, g: Graph, h: Graph, i: NodeIdx, len: nat)
    requires Shape(g) && Shape(h) && Carries(g, h) && RootedIn(built, g, i, len)
    ensures RootedIn(built, h, h.byId[g.nodes[i].id], len)
    decreases len
  {
    hide Shape, IsEdge, Anchored, DependsOn;
    ShapeSizes(g);
    ShapeSizes(h);
    var p := h.byId[g.nodes[i].id];
    CarriesIndex(built, g, h, i);
    if !Anchored(built, g.nodes[i]) {
      var j: NodeIdx :| j < |g.nodes| && DependsOn(g, i, j) && RootedIn(built, g, j, len - 1);
      CarriesIndex(built, g, h, j);
      RootedCarries(built, g, h, j, len - 1);
      DependsCarries(g, h, i, j);
    }
  }

  lemma {:induction false} CarriesIndex(built: Built, g: Graph, h: Graph, i: NodeIdx)
    requires Shape(g) && Shape(h) && Carries(g, h) && i < |g.nodes|
    ensures g.nodes[i].id in h.byId && h.byId[g.nodes[i].id] < |h.nodes|
    ensures Anchored(built, g.nodes[i]) ==> Anchored(built, h.nodes[h.byId[g.nodes[i].id]])
  {
  }

  lemma {:induction false} DependsCarries(g: Graph, h: Graph, i: NodeIdx, j: NodeIdx)
    requires Shape(g) && Shape(h) && Carries(g, h) && i < |g.nodes| && j < |g.nodes| && DependsOn(g, i, j)
    ensures DependsOn(h, h.byId[g.nodes[i].id], h.byId[g.nodes[j].id])
  {
    var e :| e in g.outEdges[i] && e.kind.IsDependency() && e.dst == j;
    assert IsEdge(g, e) && e.src == i;
    assert EdgeCarried(g, h, e);
  }

  /** Where a saved node is found. */
  lemma {:induction false} SavedAt(
    g: Graph, order: seq<NodeIdx>, nodes: seq<Node>, links: seq<Link>, i: NodeIdx) returns (p: nat)
    requires Shape(g) && Saves(g, order, nodes, links) && i < |g.nodes|
    ensures p < |nodes| && order[p] == i && SavedAs(g.nodes[i], nodes[p])
  {
    hide Shape, IsEdge;
    assert i in order;
    p :| p < |order| && order[p] == i;
    assert SavedAs(g.nodes[order[p]], nodes[p]);
  }

  lemma {:induction false} BackAt(h: Graph, now: nat, p: NodeIdx)
    requires Indexed(h, now) && p < |h.nodes|
    ensures h.nodes[p].id in h.byId && h.byId[h.nodes[p].id] == p
  {
    hide KeyIndex, LiveIndex, Stamps, Mirror, Shape;
  }

  lemma {:induction false} LoadedCarries(
    g: Graph, before: nat, order: seq<NodeIdx>, nodes: seq<Node>, links: seq<Link>, now: nat)
    requires Indexed(g, before) && Saves(g, order, nodes, links)
    requires forall p: nat :: p < |nodes| ==> nodes[p].timestamp <= now
    ensures var h := Loaded(nodes, links);
            Indexed(h, now) && Shape(h) && h.log == [] && h.nodes == nodes && Carries(g, h)
  {
    hide Indexed, Shape, IsEdge, RestoreLinks, RestoreNodes, Saves;
    IndexedShape(g, before);
    SavedDistinct(g, before, order, nodes, links, now);
    NodesRestored(nodes, now);
    RestoreShape(nodes);
    var h0, h := RestoreNodes(EmptyGraph, nodes), Loaded(nodes, links);
    LinksRestored(h0, links, now);
    forall i: NodeIdx | i < |g.nodes|
      ensures g.nodes[i].id in h.byId && h.byId[g.nodes[i].id] < |h.nodes|
              && SavedAs(g.nodes[i], h.nodes[h.byId[g.nodes[i].id]])
    {
      var p := SavedAt(g, order, nodes, links, i);
      BackAt(h, now, p);
    }
    forall e: Edge | IsEdge(g, e) ensures EdgeCarried(g, h, e) {
      EdgeEnds(g, e);
      LinkSaved(g, order, nodes, links, e);
    }
  }

  lemma {:induction false} LinkSaved(g: Graph, order: seq<NodeIdx>, nodes: seq<Node>, links: seq<Link>, e: Edge)
    requires Shape(g) && Saves(g, order, nodes, links) && IsEdge(g, e)
    ensures e.src < |g.nodes| && e.dst < |g.nodes| && LinkOf(g, e) in links
  {
    EdgeEnds(g, e);
  }

  lemma {:induction false} EdgeEnds(g: Graph, e: Edge)
    requires Shape(g) && IsEdge(g, e)
    ensures e.src < |g.nodes| && e.dst < |g.nodes|
  {
  }

  /** Saving a graph and loading it gives back an indexed one, with its nodes, edges and flags, and all that was grounded. */
  lemma {:induction false} ReloadKeeps(
    built: Built, g: Graph, before: nat, order: seq<NodeIdx>, nodes: seq<Node>, links: seq<Link>, now: nat)
    requires Indexed(g, before) && Saves(g, order, nodes, links)
    requires forall p: nat :: p < |nodes| ==> nodes[p].timestamp <= now
    ensures var h := Loaded(nodes, links);
            && Indexed(h, now) && Shape(h) && Carries(g, h) && LogInv(h) && (FlagInv(g) ==> FlagInv(h))
            && (RootInv(built, g) ==> RootInv(built, h))
  {
    hide Indexed, Shape, IsEdge, Loaded, Carries, RootedIn;
    LoadedCarries(g, before, order, nodes, links, now);
    var h := Loaded(nodes, links);
    forall p: NodeIdx | p < |h.nodes|
      ensures RootInv(built, g) && Claimed(h.nodes[p]) ==> Rooted(built, h, p)
      ensures FlagInv(g) && h.nodes[p].meta.supersededSource ==> h.nodes[p].kind == Evidence
    {
      assert SavedAs(g.nodes[order[p]], nodes[p]);
      if RootInv(built, g) && Claimed(h.nodes[p]) {
        assert Claimed(g.nodes[order[p]]);
        var len: nat :| RootedIn(built, g, order[p], len);
        RootedCarries(built, g, h, order[p], len);
        BackAt(h, now, p);
      }
    }
  }

  // ---- lives --------------------------------------------------------------

  /**
   A mutation, or a save followed by a load.  Going back to an older save is the shorter
   life that ends with that save.
   */
  datatype Move = Does(op: Op) | Reloads(order: seq<NodeIdx>, nodes: seq<Node>, links: seq<Link>, now: nat)

  ghost predicate Possible(w: World, m: Move)
    requires Shape(w.graph)
  {
    match m
    case Does(op) => Admissible(w, op)
    case Reloads(order, nodes, links, now) =>
      Saves(w.graph, order, nodes, links) && forall p: nat :: p < |nodes| ==> nodes[p].timestamp <= now
  }

  ghost function After(w: World, m: Move): World
    requires Shape(w.graph) && Possible(w, m)
  {
    match m
    case Does(op) => Apply(w, op)
    case Reloads(_, nodes, links, now) => World(Loaded(nodes, links), now)
  }

  ghost predicate IsLife(moves: seq<Move>, run: seq<World>) {
    && |run| == |moves| + 1 && run[0].graph == EmptyGraph
    && forall k: nat :: k < |moves| ==>
         Shape(run[k].graph) && Possible(run[k], moves[k]) && run[k + 1] == After(run[k], moves[k])
  }

  lemma {:induction false} AfterKeeps(w: World, m: Move)
    requires Indexed(w.graph, w.now) && Shape(w.graph) && Possible(w, m)
    ensures Indexed(After(w, m).graph, After(w, m).now) && Shape(After(w, m).graph)
    ensures LogInv(w.graph) ==> LogInv(After(w, m).graph)
    ensures m.Does? ==> LogGrows(w.graph, After(w, m).graph)
  {
    hide Indexed, Apply, Admissible, Loaded, LogGrows, LogInv, Shape, Saves, Carries, FlagInv, RootInv;
    match m
    case Does(op) =>
      ApplyKeeps(w, op);
      IndexedShape(Apply(w, op).graph, Apply(w, op).now);
      ApplyKeepsLog(w, op);
      if LogInv(w.graph) {
        LogGrowsKeepsLog(w.graph, Apply(w, op).graph);
      }
    case Reloads(order, nodes, links, now) =>
      ReloadKeeps(_ => true, w.graph, w.now, order, nodes, links, now);
  }

  /** At every point of a life the graph is indexed, and its log is older than its version. */
  lemma {:induction false} LifeIsIndexed(moves: seq<Move>, run: seq<World>, k: nat)
    requires IsLife(moves, run) && k < |run|
    ensures Indexed(run[k].graph, run[k].now) && Shape(run[k].graph) && LogInv(run[k].graph)
  {
    hide Indexed, Shape, LogInv, Possible, After;
    if k == 0 {
      EmptyIndexed(run[0].now);
      EmptyKeeps(_ => true);
      IndexedShape(run[0].graph, run[0].now);
    } else {
      LifeIsIndexed(moves, run, k - 1);
      AfterKeeps(run[k - 1], moves[k - 1]);
      assert run[k - 1 + 1] == After(run[k - 1], moves[k - 1]);
    }
  }

  // ---- snapshots ----------------------------------------------------------

  /** No load between the two points. */
  ghost predicate OneSession(moves: seq<Move>, j: nat, k: nat) {
    forall m: nat :: j <= m < k && m < |moves| ==> moves[m].Does?
  }

  lemma {:induction false} SessionGrows(moves: seq<Move>, run: seq<World>, j: nat, k: nat)
    requires IsLife(moves, run) && j <= k < |run| && OneSession(moves, j, k)
    ensures LogGrows(run[j].graph, run[k].graph)
    decreases k - j
  {
    hide Indexed, LogInv, Possible, After, Shape, LogGrows;
    if j == k {
      LogGrowsSame(run[j].graph);
    } else {
      LifeIsIndexed(moves, run, k - 1);
      SessionGrows(moves, run, j, k - 1);
      AfterKeeps(run[k - 1], moves[k - 1]);
      assert run[k - 1 + 1] == After(run[k - 1], moves[k - 1]);
      LogGrowsTransitive(run[j].graph, run[k - 1].graph, run[k].graph);
    }
  }

  /** Within one session, a check against a snapshot sees exactly the marks logged since. */
  lemma {:induction false} SnapshotsInEverySession(moves: seq<Move>, run: seq<World>, j: nat, k: nat)
    requires IsLife(moves, run) && j <= k < |run| && OneSession(moves, j, k)
    ensures InvalidatedSince(run[k].graph, run[j].graph.version) == MarksFrom(run[k].graph, |run[j].graph.log|)
  {
    hide Indexed, LogGrows, Possible, After, Shape, LogInv;
    LifeIsIndexed(moves, run, j);
    SessionGrows(moves, run, j, k);
    SnapshotSeesLaterMarks(run[j].graph, run[k].graph);
  }

  // ---- flags --------------------------------------------------------------

  /** Only evidence is ever flagged, if nothing else comes in flagged. */
  lemma {:induction false} FlagsInEveryLife(moves: seq<Move>, run: seq<World>, k: nat)
    requires IsLife(moves, run) && k < |run|
    requires forall m: nat :: m < |moves| && moves[m].Does? ==> FlagsHonestly(run[m], moves[m].op)
    ensures FlagInv(run[k].graph)
  {
    hide FlagInv, Possible, FlagsHonestly, Indexed, LogInv, Shape, After;
    if k == 0 {
      EmptyKeeps(_ => true);
    } else {
      FlagsInEveryLife(moves, run, k - 1);
      LifeIsIndexed(moves, run, k - 1);
      FlagsAfter(run[k - 1], moves[k - 1]);
      assert run[k - 1 + 1] == After(run[k - 1], moves[k - 1]);
    }
  }

  lemma {:induction false} FlagsAfter(w: World, m: Move)
    requires Indexed(w.graph, w.now) && Shape(w.graph) && Possible(w, m) && FlagInv(w.graph)
    requires m.Does? ==> FlagsHonestly(w, m.op)
    ensures FlagInv(After(w, m).graph)
  {
    hide Indexed, FlagInv, Apply, Admissible, Loaded, LogInv, Shape, Saves, Carries, RootInv, FlagsHonestly;
    match m
    case Does(op) => ApplyKeepsFlags(w, op);
    case Reloads(order, nodes, links, now) => ReloadKeeps(_ => true, w.graph, w.now, order, nodes, links, now);
  }

  // ---- accepted once, grounded for life -----------------------------------

  /** Throughout the life ids tell how nodes were built. */
  ghost predicate HonestLife(built: Built, moves: seq<Move>, run: seq<World>) {
    && IsLife(moves, run)
    && forall m: nat :: m < |moves| && moves[m].Does? ==> Honest(built, run[m], moves[m].op)
  }

  lemma {:induction false} RootsAfter(built: Built, w: World, m: Move)
    requires Indexed(w.graph, w.now) && Shape(w.graph) && Possible(w, m) && RootInv(built, w.graph)
    requires m.Does? ==> Honest(built, w, m.op)
    ensures RootInv(built, After(w, m).graph)
  {
    hide Indexed, FlagInv, Apply, Admissible, Loaded, LogInv, LogGrows, Shape, Saves, Carries, RootInv, Honest, Rooted;
    AfterKeeps(w, m);
    match m
    case Does(op) =>
      IndexedIds(w.graph, w.now);
      ApplyKeepsRoots(built, w, op);
    case Reloads(order, nodes, links, now) =>
      ReloadKeeps(built, w.graph, w.now, order, nodes, links, now);
  }

  lemma {:induction false} IndexedIds(g: Graph, now: nat)
    requires Indexed(g, now)
    ensures IdIndex(g)
  {
    hide KeyIndex, LiveIndex, Stamps, Mirror, Shape, IdIndex;
  }

  /** At every point of such a life whatever the program believes grounded is. */
  lemma {:induction false} LifeIsRooted(built: Built, moves: seq<Move>, run: seq<World>, k: nat)
    requires HonestLife(built, moves, run) && k < |run|
    ensures RootInv(built, run[k].graph)
  {
    hide RootInv, Possible, Indexed, LogInv, Shape, Honest, After;
    if k == 0 {
      EmptyKeeps(built);
    } else {
      LifeIsRooted(built, moves, run, k - 1);
      LifeIsIndexed(moves, run, k - 1);
      RootsAfter(built, run[k - 1], moves[k - 1]);
      assert run[k - 1 + 1] == After(run[k - 1], moves[k - 1]);
    }
  }

  /** The id is there, and its node is grounded. */
  ghost predicate Holds(built: Built, g: Graph, id: NodeId)
    requires Shape(g)
  {
    id in g.byId && g.byId[id] < |g.nodes| && Rooted(built, g, g.byId[id])
  }

  lemma {:induction false} UpsertIds(g: Graph, node: Node, known: set<string>, now: nat)
    requires Shape(g)
    ensures var u := Upsert(g, node, known, now);
            && Shape(u.graph) && (forall id :: id in g.byId ==> id in u.graph.byId && u.graph.byId[id] == g.byId[id])
            && (u.result.Ok? ==> node.id in u.graph.byId && u.graph.byId[node.id] == u.result.value)
  {
    hide RequireGrounding, LogGrows, EdgesGrow, Evolves, Shape, NodeKept;
    if RequireGrounding(g, node, known).None? {
      var g1, g2, i, stamped := UpsertSteps(g, node, known, now);
    }
  }

  /** Mutations other than insertions leave the id index alone. */
  lemma {:induction false} SameIds(w: World, op: Op)
    requires Indexed(w.graph, w.now) && Shape(w.graph) && Admissible(w, op) && !op.UpsertOp? && !op.RestoreOp?
    ensures Apply(w, op).graph.byId == w.graph.byId
  {
    hide Indexed, Shape, AddEdge, Invalidate, Pops, SetStatus, Settle, Retire, Disown, MarkOrphaned, Contest, SameFaces;
    var g := w.graph;
    ShapeSizes(g);
    match op
    case EdgeOp(src, dst, kind) => AddEdgeIds(g, src, dst, kind);
    case SupersedeOp(loser, winner) =>
      RetireIds(g, loser, winner);
      DisownIds(Retire(g, loser, winner), loser);
    case ContradictOp(a, b) =>
      ContradictIds(g, a, b);
    case InvalidateOp(i, includeSelf) =>
      InvalidateFaces(g, i, includeSelf);
      FacesIds(g, Invalidate(g, i, includeSelf));
    case DrainOp(limit) =>
      var n := if limit < |g.pending| then limit else |g.pending|;
      PopsFaces(g, n);
      FacesIds(g, Pops(g, n));
    case RevalidateOp(i) =>
    case AmendOp(i, node) =>
  }

  lemma {:induction false} FacesIds(g: Graph, h: Graph)
    requires SameFaces(g, h)
    ensures g.byId == h.byId
  {
  }

  lemma {:induction false} AddEdgeIds(g: Graph, src: NodeIdx, dst: NodeIdx, kind: EdgeType)
    requires src < |g.outEdges| && dst < |g.inEdges|
    ensures AddEdge(g, src, dst, kind).byId == g.byId
  {
  }

  lemma {:induction false} RetireIds(g: Graph, loser: NodeIdx, winner: NodeIdx)
    requires Shape(g) && loser < |g.nodes| && winner < |g.nodes|
    ensures var h := Retire(g, loser, winner); Shape(h) && |h.nodes| == |g.nodes| && h.byId == g.byId
  {
    hide AddEdge, SetStatus, Resolve;
    ShapeSizes(g);
    AddEdgeIds(g, winner, loser, Supersedes);
  }

  lemma {:induction false} DisownIds(g: Graph, loser: NodeIdx)
    requires Shape(g) && loser < |g.nodes|
    ensures Disown(g, loser).byId == g.byId
  {
    hide Invalidate, MarkOrphaned, SameFaces;
    InvalidateFaces(g, loser, false);
    var g1 := Invalidate(g, loser, false);
    FacesIds(g, g1);
    InvalidateFrame(g, loser, false);
    MarkOrphanedFaces(g1, g1.nodes[loser].deps, g1.nodes[loser].meta.supersededBy);
    FacesIds(g1, MarkOrphaned(g1, g1.nodes[loser].deps, g1.nodes[loser].meta.supersededBy));
  }

  lemma {:induction false} ContradictIds(g: Graph, a: NodeIdx, b: NodeIdx)
    requires Shape(g) && a < |g.nodes| && b < |g.nodes|
    ensures Contradict(g, a, b).byId == g.byId
  {
    hide AddEdge, Contest;
    ShapeSizes(g);
    AddEdgeIds(g, a, b, Contradicts);
    AddEdgeShape(g, a, b, Contradicts);
    AddEdgeNodes(g, a, b, Contradicts);
    var g1 := AddEdge(g, a, b, Contradicts);
    ShapeSizes(g1);
    AddEdgeIds(g1, b, a, Contradicts);
  }

  lemma {:induction false} ApplyIds(w: World, op: Op, id: NodeId)
    requires Indexed(w.graph, w.now) && Shape(w.graph) && Admissible(w, op) && id in w.graph.byId
    ensures id in Apply(w, op).graph.byId && Apply(w, op).graph.byId[id] == w.graph.byId[id]
  {
    hide Indexed, Shape, Upsert, InsertNode, AddEdge, Supersede, Contradict, Invalidate, Pops, Revalidate, SetNode,
      EdgesGrow, LogGrows;
    match op
    case UpsertOp(node, known) => UpsertIds(w.graph, node, known, w.now);
    case RestoreOp(node) => InsertFrame(w.graph, node);
    case _ => SameIds(w, op);
  }

  lemma {:induction false} ApplyHolds(built: Built, w: World, op: Op, id: NodeId)
    requires Indexed(w.graph, w.now) && Shape(w.graph) && RootInv(built, w.graph)
    requires Admissible(w, op) && Honest(built, w, op) && Holds(built, w.graph, id)
    requires Shape(Apply(w, op).graph)
    ensures Holds(built, Apply(w, op).graph, id)
  {
    hide Indexed, Shape, Apply, Admissible, Honest, Rooted, RootInv;
    IndexedIds(w.graph, w.now);
    ApplyIds(w, op, id);
    ApplyKeepsRoots(built, w, op);
    RootedGrounds(built, Apply(w, op).graph, w.graph.byId[id]);
  }

  lemma {:induction false} ReloadHolds(built: Built, g: Graph, h: Graph, before: nat, id: NodeId)
    requires Indexed(g, before) && Shape(g) && Shape(h) && Carries(g, h) && Holds(built, g, id)
    ensures Holds(built, h, id)
  {
    hide Shape, KeyIndex, LiveIndex, Stamps, Mirror, RootedIn, Carries;
    var i := g.byId[id];
    var len: nat :| RootedIn(built, g, i, len);
    CarriesIndex(built, g, h, i);
    RootedCarries(built, g, h, i, len);
  }

  lemma {:induction false} AfterHolds(built: Built, w: World, m: Move, id: NodeId)
    requires Indexed(w.graph, w.now) && Shape(w.graph) && RootInv(built, w.graph) && Possible(w, m)
    requires (m.Does? ==> Honest(built, w, m.op)) && Holds(built, w.graph, id)
    ensures Shape(After(w, m).graph) && Holds(built, After(w, m).graph, id)
  {
    hide Indexed, Apply, Admissible, Honest, Loaded, Shape, Saves, Carries, Holds, RootInv, FlagInv, LogInv, LogGrows;
    AfterKeeps(w, m);
    match m
    case Does(op) => ApplyHolds(built, w, op, id);
    case Reloads(order, nodes, links, now) =>
      ReloadKeeps(built, w.graph, w.now, order, nodes, links, now);
      ReloadHolds(built, w.graph, Loaded(nodes, links), w.now, id);
  }

  lemma {:induction false} HoldsForLife(built: Built, moves: seq<Move>, run: seq<World>, j: nat, k: nat, id: NodeId)
    requires HonestLife(built, moves, run) && j <= k < |run|
    requires Shape(run[j].graph) && Holds(built, run[j].graph, id)
    ensures Shape(run[k].graph) && Holds(built, run[k].graph, id)
    decreases k - j
  {
    hide Holds, Indexed, LogInv, RootInv, Possible, After, Shape, Honest;
    if j < k {
      LifeIsIndexed(moves, run, k - 1);
      LifeIsRooted(built, moves, run, k - 1);
      HoldsForLife(built, moves, run, j, k - 1, id);
      AfterHolds(built, run[k - 1], moves[k - 1], id);
      assert run[k - 1 + 1] == After(run[k - 1], moves[k - 1]);
    }
  }

  /**
   A node that `upsert` accepted at step `j` of a life is there at every later point,
   across re-upserts, restatements, cycles, saves and loads, and still reaches along
   dependency edges a node that carries a span or is a skill.
   */
  lemma {:induction false} AcceptedStaysGrounded(
    built: Built, moves: seq<Move>, run: seq<World>, j: nat, k: nat, node: Node, known: set<string>)
    requires HonestLife(built, moves, run) && j < k < |run| && moves[j] == Does(UpsertOp(node, known))
    requires Shape(run[j].graph) && Upsert(run[j].graph, node, known, run[j].now).result.Ok?
    ensures Shape(run[k].graph) && node.id in run[k].graph.byId
    ensures run[k].graph.byId[node.id] < |run[k].graph.nodes| && Grounded(run[k].graph, run[k].graph.byId[node.id])
  {
    hide RootInv, LogInv, Indexed, Upsert, Shape, Rooted, Grounded, IdIndex, IdTells;
    var w := run[j];
    LifeIsIndexed(moves, run, j);
    LifeIsRooted(built, moves, run, j);
    assert run[j + 1] == After(w, moves[j]);
    IndexedIds(w.graph, w.now);
    assert Honest(built, w, moves[j].op);
    UpsertGrounds(built, w.graph, node, known, w.now);
    UpsertIds(w.graph, node, known, w.now);
    HoldsForLife(built, moves, run, j + 1, k, node.id);
    RootedGrounds(built, run[k].graph, run[k].graph.byId[node.id]);
  }

  // ---- restatements -------------------------------------------------------

  /** The two mutations of a restatement: the twin amended in place, and its edge to the evidence. */
  function ReinforceOps(g: Graph, twin: NodeIdx, spanId: string, evidence: NodeIdx): seq<Op>
    requires twin < |g.nodes| && evidence < |g.nodes|
  {
    var e := g.nodes[evidence].id;
    [AmendOp(twin, C.Corroborated(g.nodes[twin], spanId, e))]
    + if e in g.nodes[twin].deps then [] else [EdgeOp(twin, evidence, Supports)]
  }

  /**
   A restatement of a node the program believes grounded is such a life's moves, however
   the twin was built, and so is inserting the twin again as it was built: with spans if its
   id says so, and without if it does not.
   */
  lemma {:induction false} RestatementIsHonest(
    built: Built, w: World, twin: NodeIdx, spanId: string, evidence: NodeIdx, node: Node, known: set<string>)
    requires Shape(w.graph) && twin < |w.graph.nodes| && evidence < |w.graph.nodes| && Claimed(w.graph.nodes[twin])
    requires built(node.id) <==> Witness(node)
    ensures var ops := ReinforceOps(w.graph, twin, spanId, evidence);
            && Admissible(w, ops[0]) && Honest(built, w, ops[0]) && Shape(Apply(w, ops[0]).graph)
            && (|ops| == 1 ==> Apply(w, ops[0]).graph == C.Reinforce(w.graph, twin, spanId, evidence))
            && (|ops| == 2 ==>
                  && Admissible(Apply(w, ops[0]), ops[1]) && Honest(built, Apply(w, ops[0]), ops[1])
                  && Apply(Apply(w, ops[0]), ops[1]).graph == C.Reinforce(w.graph, twin, spanId, evidence))
    ensures var h := C.Reinforce(w.graph, twin, spanId, evidence);
            Shape(h) && Honest(built, World(h, w.now), UpsertOp(node, known))
  {
    hide Shape, AddEdge;
    var g := w.graph;
    var g1 := SetNode(g, twin, C.Corroborated(g.nodes[twin], spanId, g.nodes[evidence].id));
    AmendShape(g, twin, C.Corroborated(g.nodes[twin], spanId, g.nodes[evidence].id));
    AddEdgeShape(g1, twin, evidence, Supports);
  }

  lemma {:induction false} AmendShape(g: Graph, i: NodeIdx, node: Node)
    requires Shape(g) && i < |g.nodes|
    ensures Shape(SetNode(g, i, node))
  {
  }
}
