/** `StateIndexer::admit` and its helpers (src/indexer.rs), on the graph as the program keeps it. */
module Indexer {
  import opened Wrappers
  import opened Nodes
  import G = GraphSpec
  import I = GraphIndex
  import opened ClaimSpec
  import Theory = ClaimTheory
  import opened MemoryGraphClass

  ghost function WorldOf(graph: MemoryGraph, clock: Clock): I.World
    reads graph, clock
  {
    I.World(graph.Value(), clock.now)
  }

  method EvidenceNode(graph: MemoryGraph, clock: Clock, o: Offer, known: set<string>)
    returns (r: Result<NodeIdx, G.ProvenanceError>)
    requires G.Shape(graph.Value())
    modifies graph, clock
    ensures (WorldOf(graph, clock), r) == WithEvidence(old(WorldOf(graph, clock)), o, known)
  {
    hide G.Upsert;
    if o.evidenceId in graph.byId {
      return Ok(graph.byId[o.evidenceId]);
    }
    r := graph.Upsert(EvidenceOf(o), known, clock);
  }

  /** `duplicate`: the key's live list, or every node of the kind, up to the first twin. */
  method FindDuplicate(graph: MemoryGraph, node: Node, norm: string -> string) returns (found: Option<NodeIdx>)
    ensures found == Twin(graph.Value(), node, norm)
  {
    hide IsTwin;
    var pool := if node.key.Some? then G.Bucket(graph.liveIndex, node.key.value) else [];
    if node.key.None? {
      pool := NodesOfKind(graph, node.kind);
    }
    for k := 0 to |pool|
      invariant FirstTwin(graph.Value(), pool[k..], node, norm) == FirstTwin(graph.Value(), pool, node, norm)
    {
      assert pool[k..][1..] == pool[k + 1..];
      var twin := TwinTest(graph, pool[k], node, norm);
      if twin {
        return Some(pool[k]);
      }
    }
    found := None;
  }

  method TwinTest(graph: MemoryGraph, i: NodeIdx, node: Node, norm: string -> string) returns (twin: bool)
    ensures twin == IsTwin(graph.Value(), i, node, norm)
  {
    if i >= |graph.nodes| {
      return false;
    }
    var other := graph.nodes[i];
    twin := other.id != node.id && other.status == Fresh && other.kind == node.kind && other.key == node.key
    && norm(other.value) == norm(node.value);
  }

  method NodesOfKind(graph: MemoryGraph, kind: Kind) returns (found: seq<NodeIdx>)
    ensures found == OfKind(graph.Value(), kind, |graph.nodes|)
  {
    found := [];
    for n := 0 to |graph.nodes|
      invariant found == OfKind(graph.Value(), kind, n)
    {
      if graph.nodes[n].kind == kind {
        found := found + [n];
      } else {
        assert found + [] == found;
      }
    }
  }

  /** `conflicts`, read off the live list in time order. */
  method FindConflicts(graph: MemoryGraph, node: Node, norm: string -> string, ghost now: nat)
    returns (found: seq<NodeIdx>)
    requires I.Indexed(graph.Value(), now)
    ensures found == Conflicts(graph.Value(), node, norm)
  {
    hide I.Indexed, G.LiveByKeySorted, Disagreeing, G.ByKey;
    if node.key.None? || node.kind != Claim {
      return [];
    }
    I.LiveEqualsByKey(graph.Value(), now, node.key.value);
    var pool := graph.LiveByKeySorted(node.key.value, now);
    found := KeepConflicts(graph, pool, node, norm);
  }

  method KeepConflicts(graph: MemoryGraph, pool: seq<NodeIdx>, node: Node, norm: string -> string)
    returns (found: seq<NodeIdx>)
    ensures found == Disagreeing(graph.Value(), pool, node, norm)
  {
    hide IsConflict;
    found := [];
    ghost var g := graph.Value();
    assert pool[0..] == pool;
    for k := 0 to |pool|
      invariant found + Disagreeing(g, pool[k..], node, norm) == Disagreeing(g, pool, node, norm)
    {
      assert pool[k..][1..] == pool[k + 1..];
      var conflict := ConflictTest(graph, pool[k], node, norm);
      if conflict {
        found := found + [pool[k]];
      }
    }
    assert pool[|pool|..] == [];
    assert found + [] == found;
  }

  method ConflictTest(graph: MemoryGraph, i: NodeIdx, node: Node, norm: string -> string) returns (conflict: bool)
    ensures conflict == IsConflict(graph.Value(), i, node, norm)
  {
    if i >= |graph.nodes| {
      return false;
    }
    var other := graph.nodes[i];
    conflict := other.id != node.id && other.status != Superseded && other.kind == Claim
    && norm(other.value) != norm(node.value);
  }

  /** `reinforce`: the twin gains the span, the input and a corroboration; the value did not change, so nothing goes stale. */
  method Reinforce(graph: MemoryGraph, twin: NodeIdx, spanId: string, evidence: NodeIdx)
    requires G.Shape(graph.Value()) && twin < |graph.nodes| && evidence < |graph.nodes|
    modifies graph
    ensures graph.Value() == ClaimSpec.Reinforce(old(graph.Value()), twin, spanId, evidence)
  {
    hide G.AddEdge;
    var e := graph.nodes[evidence].id;
    var n := graph.nodes[twin];
    var link := e !in n.deps;
    if spanId !in n.spans {
      n := n.(spans := n.spans + [spanId]);
    }
    if link {
      n := n.(deps := n.deps + [e]);
    }
    n := n.(meta := n.meta.(corroborations := n.meta.corroborations + 1));
    graph.nodes := graph.nodes[twin := n];
    if link {
      var edge := graph.AddEdge(twin, evidence, Supports);
    }
  }

  method BackfillReferences(graph: MemoryGraph, i: NodeIdx, mentioners: seq<NodeIdx>)
    requires G.Shape(graph.Value()) && i < |graph.nodes| && G.Within(mentioners, |graph.nodes|)
    modifies graph
    ensures graph.Value() == Backfill(old(graph.Value()), i, mentioners)
  {
    hide G.AddEdge;
    for k := 0 to |mentioners|
      invariant G.Shape(graph.Value()) && |graph.nodes| == |old(graph.nodes)| && G.Within(mentioners[k..], |graph.nodes|)
      invariant Backfill(graph.Value(), i, mentioners[k..]) == Backfill(old(graph.Value()), i, mentioners)
    {
      assert mentioners[k..][0] == mentioners[k] && mentioners[k..][1..] == mentioners[k + 1..];
      var m := mentioners[k];
      var id := graph.nodes[i].id;
      ghost var before := graph.Value();
      G.AddEdgeShape(before, m, i, DerivedFrom);
      I.AddEdgeNodes(before, m, i, DerivedFrom);
      var edge := graph.AddEdge(m, i, DerivedFrom);
      graph.nodes := graph.nodes[m := graph.nodes[m].(deps := graph.nodes[m].deps + [id])];
    }
  }

  /** The loop over conflicts: both sides are linked, and the one that yields is superseded. */
  method SettleConflicts(graph: MemoryGraph, winner: NodeIdx, others: seq<NodeIdx>, revise: bool)
    requires G.Shape(graph.Value()) && winner < |graph.nodes| && G.Within(others, |graph.nodes|)
    modifies graph
    ensures graph.Value() == Settlement(old(graph.Value()), winner, others, revise)
  {
    hide G.Contradict, G.Supersede;
    for k := 0 to |others|
      invariant G.Shape(graph.Value()) && |graph.nodes| == |old(graph.nodes)| && G.Within(others[k..], |graph.nodes|)
      invariant Settlement(graph.Value(), winner, others[k..], revise)
             == Settlement(old(graph.Value()), winner, others, revise)
    {
      assert others[k..][0] == others[k] && others[k..][1..] == others[k + 1..];
      var other := others[k];
      graph.Contradict(winner, other);
      if revise && MaySupersede(graph.nodes[other], graph.nodes[winner]) {
        graph.Supersede(other, winner);
      }
    }
  }

  /** The new node, linked, and its disagreements settled. */
  method EnterNode(graph: MemoryGraph, clock: Clock, o: Offer, node: Node, s: Setting)
    returns (r: Result<Option<NodeIdx>, G.ProvenanceError>)
    requires I.Indexed(graph.Value(), clock.now) && G.Within(o.mentioners, |graph.nodes|)
    modifies graph, clock
    ensures Admitted(WorldOf(graph, clock), r) == Enter(old(WorldOf(graph, clock)), o, node, s)
  {
    hide I.Indexed, G.Upsert, Backfill, Settlement, Conflicts;
    I.IndexedShape(graph.Value(), clock.now);
    ConflictsInRange(graph.Value(), node, s.norm);
    var conflicts := FindConflicts(graph, node, s.norm, clock.now);
    var entered := graph.Upsert(node, s.known, clock);
    match entered {
      case Err(e) => r := Err(e);
      case Ok(i) =>
        BackfillReferences(graph, i, o.mentioners);
        SettleConflicts(graph, i, conflicts, s.revise);
        r := Ok(Some(i));
    }
  }

  /** `admit`. */
  method Admit(graph: MemoryGraph, clock: Clock, o: Offer, s: Setting)
    returns (r: Result<Option<NodeIdx>, G.ProvenanceError>)
    requires I.Indexed(graph.Value(), clock.now) && G.Within(o.mentioners, |graph.nodes|)
    modifies graph, clock
    ensures Admitted(WorldOf(graph, clock), r) == AdmitOf(old(WorldOf(graph, clock)), o, s)
    ensures I.Indexed(graph.Value(), clock.now)
  {
    hide I.Indexed, WithEvidence, Twin, Enter, ClaimSpec.Reinforce;
    ghost var w := WorldOf(graph, clock);
    EvidenceKeeps(w, o, s.known);
    Theory.AdmitIndexed(w, o, s);
    var found := EvidenceNode(graph, clock, o, s.known);
    if found.Err? {
      return Err(found.error);
    }
    var node := NodeOf(o, graph.nodes[found.value].id);
    if node.id in graph.byId {
      return Ok(None);
    }
    TwinInRange(graph.Value(), node, s.norm);
    var twin := FindDuplicate(graph, node, s.norm);
    if twin.Some? {
      Reinforce(graph, twin.value, o.spanId, found.value);
      return Ok(None);
    }
    r := EnterNode(graph, clock, o, node, s);
  }
}
