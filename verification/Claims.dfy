/**
 Claim resolution at ingest (src/indexer.rs): what one admitted proposal does to the
 graph.  The text extractor, the links it finds and the normalisation of values come in
 as parameters.
 */
module ClaimSpec {
  import opened Wrappers
  import opened Nodes
  import opened GraphSpec
  import opened GraphIndex

  /**
   A proposal and where it came from.  `links` are the ids of facts its text mentions,
   `mentioners` the existing claims whose text mentions it.
   */
  datatype Offer = Offer(
    kind: Kind, value: string, key: Option<string>, corrective: bool, spanId: string, spanText: string,
    id: NodeId, evidenceId: NodeId, links: seq<NodeId>, mentioners: seq<NodeIdx>)

  /** `known`: the spans on record.  `norm`: letters and digits of a value, in lower case.  `revise`: `supersede_on_conflict`. */
  datatype Setting = Setting(known: set<string>, norm: string -> string, revise: bool)

  datatype Admitted = Admitted(world: World, result: Result<Option<NodeIdx>, ProvenanceError>)

  function EvidenceOf(o: Offer): Node {
    Node(o.evidenceId, Evidence, o.spanText, [o.spanId], [], 0, Fresh, None, None, PlainMeta)
  }

  function NodeOf(o: Offer, evidence: NodeId): Node {
    Node(o.id, o.kind, o.value, [o.spanId], [evidence] + o.links, 0,
         if o.kind == OpenQuestion then Unresolved else Fresh, o.key, None, PlainMeta.(corrective := o.corrective))
  }

  /** `evidence_node`: the span's own node, made on first reference. */
  ghost function WithEvidence(w: World, o: Offer, known: set<string>): (r: (World, Result<NodeIdx, ProvenanceError>))
    requires Shape(w.graph)
    ensures Shape(r.0.graph) && |r.0.graph.nodes| >= |w.graph.nodes|
    ensures r.1.Ok? ==> r.1.value < |r.0.graph.nodes|
  {
    if o.evidenceId in w.graph.byId then (w, Ok(w.graph.byId[o.evidenceId]))
    else
      var u := Upsert(w.graph, EvidenceOf(o), known, w.now);
      (World(u.graph, u.now), u.result)
  }

  // ---- twins --------------------------------------------------------------

  predicate IsTwin(g: Graph, i: NodeIdx, node: Node, norm: string -> string) {
    && i < |g.nodes| && g.nodes[i].id != node.id && g.nodes[i].status == Fresh && g.nodes[i].kind == node.kind
    && g.nodes[i].key == node.key && norm(g.nodes[i].value) == norm(node.value)
  }

  function FirstTwin(g: Graph, pool: seq<NodeIdx>, node: Node, norm: string -> string): (r: Option<NodeIdx>)
    ensures r.Some? ==> r.value in pool && IsTwin(g, r.value, node, norm)
    ensures r.None? ==> forall i :: i in pool ==> !IsTwin(g, i, node, norm)
  {
    if pool == [] then None
    else if IsTwin(g, pool[0], node, norm) then Some(pool[0])
    else FirstTwin(g, pool[1..], node, norm)
  }

  function OfKind(g: Graph, kind: Kind, n: nat): seq<NodeIdx>
    requires n <= |g.nodes|
  {
    if n == 0 then [] else OfKind(g, kind, n - 1) + if g.nodes[n - 1].kind == kind then [n - 1] else []
  }

  /** Where `duplicate` looks: the key's live nodes, or everything of the kind. */
  function Pool(g: Graph, node: Node): seq<NodeIdx> {
    match node.key
    case Some(key) => Bucket(g.liveByKey, key)
    case None => OfKind(g, node.kind, |g.nodes|)
  }

  function Twin(g: Graph, node: Node, norm: string -> string): Option<NodeIdx> {
    FirstTwin(g, Pool(g, node), node, norm)
  }

  /** The twin after a restatement: one more span, one more input, one more corroboration. */
  function Corroborated(n: Node, spanId: string, evidence: NodeId): Node {
    n.(spans := if spanId in n.spans then n.spans else n.spans + [spanId],
       deps := if evidence in n.deps then n.deps else n.deps + [evidence],
       meta := n.meta.(corroborations := n.meta.corroborations + 1))
  }

  function Reinforce(g: Graph, twin: NodeIdx, spanId: string, evidence: NodeIdx): Graph
    requires Shape(g) && twin < |g.nodes| && evidence < |g.nodes|
  {
    var e := g.nodes[evidence].id;
    var g1 := SetNode(g, twin, Corroborated(g.nodes[twin], spanId, e));
    if e in g.nodes[twin].deps then g1 else AddEdge(g1, twin, evidence, Supports)
  }

  // ---- conflicts ----------------------------------------------------------

  predicate IsConflict(g: Graph, i: NodeIdx, node: Node, norm: string -> string) {
    && i < |g.nodes| && g.nodes[i].id != node.id && g.nodes[i].status != Superseded && g.nodes[i].kind == Claim
    && norm(g.nodes[i].value) != norm(node.value)
  }

  function Disagreeing(g: Graph, pool: seq<NodeIdx>, node: Node, norm: string -> string): (r: seq<NodeIdx>)
    ensures forall i :: i in r <==> i in pool && IsConflict(g, i, node, norm)
  {
    if pool == [] then []
    else (if IsConflict(g, pool[0], node, norm) then [pool[0]] else []) + Disagreeing(g, pool[1..], node, norm)
  }

  /** `conflicts`: live claims on the same key that disagree, oldest first. */
  function Conflicts(g: Graph, node: Node, norm: string -> string): seq<NodeIdx> {
    if node.key.None? || node.kind != Claim then []
    else Disagreeing(g, LiveByKeySorted(g, node.key.value), node, norm)
  }

  /** `may_supersede`: a correction yields only to a correction. */
  predicate MaySupersede(existing: Node, incoming: Node) {
    !existing.meta.corrective || incoming.meta.corrective
  }

  /** Contradict every conflicting claim, and supersede the ones that yield. */
  ghost function Settlement(g: Graph, winner: NodeIdx, others: seq<NodeIdx>, revise: bool): (h: Graph)
    requires Shape(g) && winner < |g.nodes| && Within(others, |g.nodes|)
    ensures Shape(h) && |h.nodes| == |g.nodes|
    decreases |others|
  {
    if others == [] then g
    else
      var g1 := Contradict(g, winner, others[0]);
      var g2 := if revise && MaySupersede(g1.nodes[others[0]], g1.nodes[winner])
                then Supersede(g1, others[0], winner) else g1;
      Settlement(g2, winner, others[1..], revise)
  }

  /** `backfill_references`: earlier claims that mention the new one come to depend on it. */
  function Backfill(g: Graph, i: NodeIdx, mentioners: seq<NodeIdx>): (h: Graph)
    requires Shape(g) && i < |g.nodes| && Within(mentioners, |g.nodes|)
    ensures Shape(h) && |h.nodes| == |g.nodes|
    decreases |mentioners|
  {
    if mentioners == [] then g
    else
      var m := mentioners[0];
      var g1 := AddEdge(g, m, i, DerivedFrom);
      assert Shape(g1) by { AddEdgeShape(g, m, i, DerivedFrom); }
      Backfill(SetNode(g1, m, g1.nodes[m].(deps := g1.nodes[m].deps + [g.nodes[i].id])), i, mentioners[1..])
  }

  // ---- the whole admission ------------------------------------------------

  /** The new node, linked, and its disagreements settled. */
  ghost function Enter(w: World, o: Offer, node: Node, s: Setting): (r: Admitted)
    requires Indexed(w.graph, w.now) && Within(o.mentioners, |w.graph.nodes|)
  {
    hide KeyIndex, IdIndex, Stamps, Mirror, RequireGrounding, Placed, LinkDeps, Settlement, Backfill;
    var conflicts := Conflicts(w.graph, node, s.norm);
    var u := Upsert(w.graph, node, s.known, w.now);
    match u.result
    case Err(e) => Admitted(World(u.graph, u.now), Err(e))
    case Ok(i) =>
      ConflictsInRange(w.graph, node, s.norm);
      var linked := Backfill(u.graph, i, o.mentioners);
      Admitted(World(Settlement(linked, i, conflicts, s.revise), u.now), Ok(Some(i)))
  }

  lemma {:induction false} ConflictsInRange(g: Graph, node: Node, norm: string -> string)
    ensures Within(Conflicts(g, node, norm), |g.nodes|)
  {
    hide LiveByKeySorted;
    var c := Conflicts(g, node, norm);
    forall k | 0 <= k < |c| ensures c[k] < |g.nodes| {
      assert c[k] in c;
    }
  }

  ghost function AdmitOf(w: World, o: Offer, s: Setting): (r: Admitted)
    requires Indexed(w.graph, w.now) && Within(o.mentioners, |w.graph.nodes|)
  {
    hide KeyIndex, LiveIndex, IdIndex, Stamps, Mirror, Upsert, Enter, Twin;
    EvidenceKeeps(w, o, s.known);
    var (w1, found) := WithEvidence(w, o, s.known);
    match found
    case Err(e) => Admitted(w1, Err(e))
    case Ok(evidence) =>
      var node := NodeOf(o, w1.graph.nodes[evidence].id);
      if node.id in w1.graph.byId then Admitted(w1, Ok(None))
      else
        match Twin(w1.graph, node, s.norm)
        case Some(twin) =>
          TwinInRange(w1.graph, node, s.norm);
          Admitted(World(Reinforce(w1.graph, twin, o.spanId, evidence), w1.now), Ok(None))
        case None => Enter(w1, o, node, s)
  }

  lemma {:induction false} TwinInRange(g: Graph, node: Node, norm: string -> string)
    ensures Twin(g, node, norm).Some? ==> IsTwin(g, Twin(g, node, norm).value, node, norm)
  {
    hide Pool;
  }

  lemma {:induction false} EvidenceKeeps(w: World, o: Offer, known: set<string>)
    requires Indexed(w.graph, w.now)
    ensures Shape(w.graph)
    ensures Indexed(WithEvidence(w, o, known).0.graph, WithEvidence(w, o, known).0.now)
    ensures w.now <= WithEvidence(w, o, known).0.now
  {
    hide Indexed, Placed, LinkDeps, RequireGrounding;
    IndexedShape(w.graph, w.now);
    UpsertKeeps(w.graph, EvidenceOf(o), known, w.now);
  }
}
