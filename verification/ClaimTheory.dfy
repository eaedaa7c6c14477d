/**
 What claim resolution promises over any sequence of admissions (src/indexer.rs).

 `Facts` is what the promises are about: kind, value, key, corrective mark, superseded or
 not, and successor.  Everything `admit` does leaves facts alone but two steps: a new
 node brings one, and a supersession retires one in favour of the newest.
 */
module ClaimTheory {
  import opened Wrappers
  import opened Nodes
  import opened GraphSpec
  import opened GraphIndex
  import opened ClaimSpec
  import Sorting

  datatype Fact = Fact(
    id: NodeId, kind: Kind, value: string, key: Option<string>, corrective: bool, superseded: bool,
    successor: Option<NodeId>)

  function FactOf(n: Node): Fact {
    Fact(n.id, n.kind, n.value, n.key, n.meta.corrective, n.status == Superseded, n.meta.supersededBy)
  }

  function Facts(g: Graph): (r: seq<Fact>)
    ensures |r| == |g.nodes| && forall i: NodeIdx :: i < |r| ==> r[i] == FactOf(g.nodes[i])
  {
    seq(|g.nodes|, i requires 0 <= i < |g.nodes| => FactOf(g.nodes[i]))
  }

  ghost predicate SameFacts(g: Graph, h: Graph) {
    Facts(g) == Facts(h) && g.byId == h.byId
  }

  lemma {:induction false} SameFactsByNode(g: Graph, h: Graph)
    requires |g.nodes| == |h.nodes| && g.byId == h.byId
    requires forall i: NodeIdx :: i < |g.nodes| ==> FactOf(g.nodes[i]) == FactOf(h.nodes[i])
    ensures SameFacts(g, h)
  {
    hide FactOf;
  }

  // ---- steps that leave the facts alone -----------------------------------

  lemma {:induction false} AddEdgeFacts(g: Graph, src: NodeIdx, dst: NodeIdx, kind: EdgeType)
    requires src < |g.outEdges| && dst < |g.inEdges|
    ensures SameFacts(g, AddEdge(g, src, dst, kind))
  {
    SameFactsByNode(g, AddEdge(g, src, dst, kind));
  }

  lemma {:induction false} SetNodeFacts(g: Graph, i: NodeIdx, n: Node)
    requires i < |g.nodes| && FactOf(n) == FactOf(g.nodes[i])
    ensures SameFacts(g, SetNode(g, i, n))
  {
    hide FactOf;
    SameFactsByNode(g, SetNode(g, i, n));
  }

  lemma {:induction false} SetMetaFacts(g: Graph, i: NodeIdx, m: Meta)
    requires i < |g.nodes| && m.corrective == g.nodes[i].meta.corrective
    requires m.supersededBy == g.nodes[i].meta.supersededBy
    ensures SameFacts(g, SetMeta(g, i, m))
  {
    SetNodeFacts(g, i, g.nodes[i].(meta := m));
  }

  lemma {:induction false} SetStatusFacts(g: Graph, i: NodeIdx, status: Status)
    requires i < |g.nodes| && (g.nodes[i].status == Superseded) == (status == Superseded)
    ensures SameFacts(g, SetStatus(g, i, status))
  {
    SameFactsByNode(g, SetStatus(g, i, status));
  }

  lemma {:induction false} InvalidateFacts(g: Graph, node: NodeIdx, includeSelf: bool)
    requires Shape(g) && node < |g.nodes|
    ensures SameFacts(g, Invalidate(g, node, includeSelf))
  {
    hide Invalidate;
    InvalidateFrame(g, node, includeSelf);
    SameFactsByNode(g, Invalidate(g, node, includeSelf));
  }

  lemma {:induction false} LinkDepsFacts(g: Graph, i: NodeIdx, deps: seq<NodeId>, kind: EdgeType, live: bool)
    requires Shape(g) && i < |g.nodes|
    ensures SameFacts(g, LinkDeps(g, i, deps, kind, live))
    decreases |deps|
  {
    hide AddEdge, SetMeta, Facts;
    if deps != [] {
      if deps[0] in g.byId {
        var d := g.byId[deps[0]];
        AddEdgeShape(g, i, d, kind);
        AddEdgeFacts(g, i, d, kind);
        var g1 := AddEdge(g, i, d, kind);
        AddEdgeNodes(g, i, d, kind);
        var m := g1.nodes[d].meta.(supersededSource := false);
        SetMetaFacts(g1, d, m);
        SetMetaNodes(g1, d, m);
        LinkDepsFacts(if live then SetMeta(g1, d, m) else g1, i, deps[1..], kind, live);
      } else {
        LinkDepsFacts(g, i, deps[1..], kind, live);
      }
    }
  }

  lemma {:induction false} MarkOrphanedFacts(g: Graph, deps: seq<NodeId>, corrected: Option<NodeId>)
    requires Shape(g)
    ensures SameFacts(g, MarkOrphaned(g, deps, corrected))
    decreases |deps|
  {
    hide SetMeta, HasLiveDependent, Facts;
    if deps != [] {
      if deps[0] in g.byId && g.nodes[g.byId[deps[0]]].kind == Evidence {
        var d := g.byId[deps[0]];
        var m := g.nodes[d].meta.(supersededSource := !HasLiveDependent(g, d));
        var m1 := if corrected.Some? then m.(correctedBy := PushNew(m.correctedBy, corrected.value)) else m;
        SetMetaFacts(g, d, m1);
        MarkOrphanedFacts(SetMeta(g, d, m1), deps[1..], corrected);
      } else {
        MarkOrphanedFacts(g, deps[1..], corrected);
      }
    }
  }

  lemma {:induction false} ContestFacts(g: Graph, i: NodeIdx, other: NodeId)
    requires i < |g.nodes|
    ensures SameFacts(g, Contest(g, i, other))
  {
    hide SetStatus, Facts;
    var m := g.nodes[i].meta.(contradicts := PushNew(g.nodes[i].meta.contradicts, other));
    SetMetaFacts(g, i, m);
    if g.nodes[i].status == Fresh {
      SetStatusFacts(SetMeta(g, i, m), i, Contradicted);
    }
  }

  lemma {:induction false} ContradictFacts(g: Graph, a: NodeIdx, b: NodeIdx)
    requires Shape(g) && a < |g.nodes| && b < |g.nodes|
    ensures SameFacts(g, Contradict(g, a, b))
  {
    hide AddEdge, Contest, Facts;
    var g1 := AddEdge(g, a, b, Contradicts);
    AddEdgeShape(g, a, b, Contradicts);
    AddEdgeFacts(g, a, b, Contradicts);
    AddEdgeNodes(g, a, b, Contradicts);
    var g2 := AddEdge(g1, b, a, Contradicts);
    AddEdgeShape(g1, b, a, Contradicts);
    AddEdgeFacts(g1, b, a, Contradicts);
    AddEdgeNodes(g1, b, a, Contradicts);
    ContestFacts(g2, a, g.nodes[b].id);
    ContestFacts(Contest(g2, a, g.nodes[b].id), b, g.nodes[a].id);
  }

  lemma {:induction false} SettleFacts(g: Graph, i: NodeIdx)
    requires Shape(g) && i < |g.nodes|
    ensures SameFacts(g, Settle(g, i))
  {
    hide SetStatus, Facts;
    SetStatusFacts(g, i, if g.nodes[i].status == Contradicted then Fresh else g.nodes[i].status);
  }

  lemma {:induction false} ReinforceFacts(g: Graph, twin: NodeIdx, spanId: string, evidence: NodeIdx)
    requires Shape(g) && twin < |g.nodes| && evidence < |g.nodes|
    ensures SameFacts(g, Reinforce(g, twin, spanId, evidence))
  {
    hide AddEdge, Facts;
    var e := g.nodes[evidence].id;
    var n := Corroborated(g.nodes[twin], spanId, e);
    SetNodeFacts(g, twin, n);
    AddEdgeFacts(SetNode(g, twin, n), twin, evidence, Supports);
  }

  lemma {:induction false} BackfillFacts(g: Graph, i: NodeIdx, mentioners: seq<NodeIdx>)
    requires Shape(g) && i < |g.nodes| && Within(mentioners, |g.nodes|)
    ensures SameFacts(g, Backfill(g, i, mentioners))
    decreases |mentioners|
  {
    hide AddEdge, Facts, FactOf;
    if mentioners != [] {
      var m := mentioners[0];
      var g1 := AddEdge(g, m, i, DerivedFrom);
      AddEdgeShape(g, m, i, DerivedFrom);
      AddEdgeFacts(g, m, i, DerivedFrom);
      AddEdgeNodes(g, m, i, DerivedFrom);
      var n := g1.nodes[m].(deps := g1.nodes[m].deps + [g.nodes[i].id]);
      DepsFact(g1.nodes[m], g1.nodes[m].deps + [g.nodes[i].id]);
      SetNodeFacts(g1, m, n);
      BackfillFacts(SetNode(g1, m, n), i, mentioners[1..]);
    }
  }

  lemma {:induction false} DepsFact(n: Node, deps: seq<NodeId>)
    ensures FactOf(n.(deps := deps)) == FactOf(n)
  {
  }

  // ---- supersession -------------------------------------------------------

  /** A retired fact: superseded, and naming its successor. */
  function Retired(f: Fact, winner: NodeId): Fact {
    f.(superseded := true, successor := Some(winner))
  }

  lemma {:induction false} RetireFacts(g: Graph, loser: NodeIdx, winner: NodeIdx)
    requires Shape(g) && loser < |g.nodes| && winner < |g.nodes|
    ensures Facts(Retire(g, loser, winner)) == Facts(g)[loser := Retired(FactOf(g.nodes[loser]), g.nodes[winner].id)]
    ensures Retire(g, loser, winner).byId == g.byId
  {
    hide AddEdge, SetStatus, Settle, Resolve;
    var g1 := AddEdge(g, winner, loser, Supersedes);
    AddEdgeShape(g, winner, loser, Supersedes);
    AddEdgeNodes(g, winner, loser, Supersedes);
    var g2 := SetStatus(g1, loser, Superseded);
    var g3 := Resolve(g2, loser, winner);
    ResolveFacts(g2, loser, winner);
    SettleFacts(g3, winner);
    assert Facts(g3) == Facts(g)[loser := Retired(FactOf(g.nodes[loser]), g.nodes[winner].id)];
  }

  lemma {:induction false} ResolveFacts(g: Graph, loser: NodeIdx, winner: NodeIdx)
    requires loser < |g.nodes| && winner < |g.nodes|
    ensures Facts(Resolve(g, loser, winner))
            == Facts(g)[loser := FactOf(g.nodes[loser]).(successor := Some(g.nodes[winner].id))]
  {
  }

  lemma {:induction false} SupersedeFacts(g: Graph, loser: NodeIdx, winner: NodeIdx)
    requires Shape(g) && loser < |g.nodes| && winner < |g.nodes|
    ensures Facts(Supersede(g, loser, winner))
            == Facts(g)[loser := Retired(FactOf(g.nodes[loser]), g.nodes[winner].id)]
    ensures Supersede(g, loser, winner).byId == g.byId
  {
    hide Retire, Invalidate, MarkOrphaned, Facts;
    RetireFacts(g, loser, winner);
    var g4 := Retire(g, loser, winner);
    InvalidateFrame(g4, loser, false);
    InvalidateFacts(g4, loser, false);
    var g5 := Invalidate(g4, loser, false);
    MarkOrphanedFacts(g5, g5.nodes[loser].deps, g5.nodes[loser].meta.supersededBy);
    BumpFacts(MarkOrphaned(g5, g5.nodes[loser].deps, g5.nodes[loser].meta.supersededBy));
  }

  lemma {:induction false} BumpFacts(g: Graph)
    ensures SameFacts(g, Bump(g))
  {
    SameFactsByNode(g, Bump(g));
  }

  // ---- the settlement -----------------------------------------------------

  predicate Yields(existing: Fact, incoming: Fact) {
    !existing.corrective || incoming.corrective
  }

  lemma {:induction false} YieldsIs(g: Graph, i: NodeIdx, j: NodeIdx)
    requires i < |g.nodes| && j < |g.nodes|
    ensures MaySupersede(g.nodes[i], g.nodes[j]) <==> Yields(Facts(g)[i], Facts(g)[j])
  {
  }

  /** What the settlement leaves of a fact. */
  function Settled(f: Fact, winner: Fact, listed: bool, revise: bool): Fact {
    if listed && revise && Yields(f, winner) then Retired(f, winner.id) else f
  }

  /** One conflict of the loop. */
  lemma {:induction false} SettlementStep(g: Graph, winner: NodeIdx, other: NodeIdx, revise: bool) returns (h: Graph)
    requires Shape(g) && winner < |g.nodes| && other < |g.nodes| && other != winner
    ensures var g1 := Contradict(g, winner, other);
            h == if revise && MaySupersede(g1.nodes[other], g1.nodes[winner]) then Supersede(g1, other, winner) else g1
    ensures Shape(h) && |h.nodes| == |g.nodes| && h.byId == g.byId
    ensures Facts(h) == Facts(g)[other := Settled(Facts(g)[other], Facts(g)[winner], true, revise)]
  {
    hide Contradict, Supersede, MaySupersede, Yields;
    var g1 := Contradict(g, winner, other);
    ContradictFacts(g, winner, other);
    YieldsIs(g1, other, winner);
    SupersedeFacts(g1, other, winner);
    assert Facts(g1)[other] == FactOf(g1.nodes[other]) && Facts(g1)[winner] == FactOf(g1.nodes[winner]);
    h := if revise && MaySupersede(g1.nodes[other], g1.nodes[winner]) then Supersede(g1, other, winner) else g1;
  }

  /** The settlement retires exactly the listed facts that yield. */
  lemma {:induction false} SettlementFacts(g: Graph, winner: NodeIdx, others: seq<NodeIdx>, revise: bool, i: NodeIdx)
    requires Shape(g) && winner < |g.nodes| && Within(others, |g.nodes|) && winner !in others && i < |g.nodes|
    ensures Facts(Settlement(g, winner, others, revise))[i]
            == Settled(Facts(g)[i], Facts(g)[winner], i in others, revise)
    ensures Settlement(g, winner, others, revise).byId == g.byId
    decreases |others|
  {
    hide Contradict, Supersede, MaySupersede, FactOf;
    if others != [] {
      var h := SettlementStep(g, winner, others[0], revise);
      SettlementFacts(h, winner, others[1..], revise, i);
      assert others == [others[0]] + others[1..];
    }
  }

  // ---- a new node ---------------------------------------------------------

  /** An accepted new node appends its fact; a refused one changes nothing. */
  lemma {:induction false} UpsertFacts(g: Graph, node: Node, known: set<string>, now: nat)
    requires Shape(g) && node.id !in g.byId
    ensures var u := Upsert(g, node, known, now);
            && (u.result.Err? ==> u.graph == g)
            && (u.result.Ok? ==>
                  && u.result.value == |g.nodes| && |u.graph.nodes| == |g.nodes| + 1
                  && Facts(u.graph) == Facts(g) + [FactOf(node)]
                  && u.graph.byId == g.byId[node.id := |g.nodes|])
  {
    hide LinkDeps, RequireGrounding, Facts;
    if RequireGrounding(g, node, known).None? {
      var stamped := node.(meta := node.meta.(grounded := true), timestamp := now + 1);
      var (g1, i) := Placed(g, stamped);
      AppendFacts(g, stamped);
      var n := g1.nodes[i];
      LinkDepsFacts(g1, i, n.deps, DependencyKind(n.kind), n.status != Superseded);
      BumpFacts(LinkDeps(g1, i, n.deps, DependencyKind(n.kind), n.status != Superseded));
      assert FactOf(stamped) == FactOf(node);
    }
  }

  lemma {:induction false} AppendFacts(g: Graph, node: Node)
    ensures Facts(InsertFresh(g, node)) == Facts(g) + [FactOf(node)]
    ensures InsertFresh(g, node).byId == g.byId[node.id := |g.nodes|]
  {
    hide FactOf;
  }

  // ---- the promises -------------------------------------------------------

  predicate LiveClaim(f: Fact, key: string) {
    f.kind == Claim && f.key == Some(key) && !f.superseded
  }

  /** Live claims of one key and one standing say one thing. */
  ghost predicate OneVoice(fs: seq<Fact>, norm: string -> string) {
    forall i: nat, j: nat, key: string ::
      i < |fs| && j < |fs| && LiveClaim(fs[i], key) && LiveClaim(fs[j], key) && fs[i].corrective == fs[j].corrective ==>
        norm(fs[i].value) == norm(fs[j].value)
  }

  ghost predicate Voiced(fs: seq<Fact>, key: string) {
    exists j: nat :: j < |fs| && LiveClaim(fs[j], key)
  }

  /** A key once claimed keeps a live claim. */
  ghost predicate KeysVoiced(fs: seq<Fact>) {
    forall i: nat :: i < |fs| && fs[i].kind == Claim && fs[i].key.Some? ==> Voiced(fs, fs[i].key.value)
  }

  /** A superseded node is a claim, and its successor a later claim on the same key. */
  ghost predicate Climbs(fs: seq<Fact>, byId: map<NodeId, NodeIdx>, i: nat)
    requires i < |fs|
  {
    && fs[i].kind == Claim && fs[i].key.Some? && fs[i].successor.Some? && fs[i].successor.value in byId
    && var j := byId[fs[i].successor.value];
       i < j < |fs| && fs[j].kind == Claim && fs[j].key == fs[i].key
  }

  ghost predicate Succession(fs: seq<Fact>, byId: map<NodeId, NodeIdx>) {
    forall i: nat :: i < |fs| && fs[i].superseded ==> Climbs(fs, byId, i)
  }

  /** The promises that hold whatever the setting... */
  ghost predicate Lasting(fs: seq<Fact>, byId: map<NodeId, NodeIdx>) {
    KeysVoiced(fs) && Succession(fs, byId)
  }

  /** ...and the one that needs conflicts to be settled by superseding. */
  ghost predicate Kept(fs: seq<Fact>, gs: seq<Fact>, s: Setting) {
    s.revise && OneVoice(fs, s.norm) ==> OneVoice(gs, s.norm)
  }

  /** A node that is not a claim changes no promise. */
  lemma {:induction false} OtherKindKeeps(
    fs: seq<Fact>, byId: map<NodeId, NodeIdx>, f: Fact, byId': map<NodeId, NodeIdx>, norm: string -> string)
    requires Lasting(fs, byId) && (f.kind != Claim || f.key.None?) && !f.superseded
    requires f.id !in byId && byId' == byId[f.id := |fs|]
    ensures Lasting(fs + [f], byId') && (OneVoice(fs, norm) ==> OneVoice(fs + [f], norm))
  {
    hide LiveClaim;
    var gs := fs + [f];
    NotLive(f);
    forall i: nat | i < |gs| && gs[i].kind == Claim && gs[i].key.Some? ensures Voiced(gs, gs[i].key.value) {
      assert Voiced(fs, fs[i].key.value);
      var j: nat :| j < |fs| && LiveClaim(fs[j], fs[i].key.value);
      assert LiveClaim(gs[j], gs[i].key.value);
    }
    forall i: nat | i < |gs| && gs[i].superseded ensures Climbs(gs, byId', i) {
      assert Climbs(fs, byId, i);
    }
  }

  lemma {:induction false} NotLive(f: Fact)
    requires f.kind != Claim || f.key.None?
    ensures forall key: string :: !LiveClaim(f, key)
  {
  }

  /** A live claim on the same key that says something else. */
  predicate Opposes(existing: Fact, incoming: Fact, norm: string -> string) {
    LiveClaim(existing, incoming.key.GetOr("")) && norm(existing.value) != norm(incoming.value)
  }

  /** The facts after a claim is entered and its conflicts settled. */
  ghost predicate Entered(
    fs: seq<Fact>, f: Fact, gs: seq<Fact>, s: Setting)
  {
    && |gs| == |fs| + 1 && gs[|fs|] == f
    && forall i: nat :: i < |fs| ==> gs[i] == Settled(fs[i], f, Opposes(fs[i], f, s.norm), s.revise)
  }

  lemma {:induction false} EnteredLive(fs: seq<Fact>, f: Fact, gs: seq<Fact>, s: Setting, i: nat, key: string)
    requires Entered(fs, f, gs, s) && i < |fs| && LiveClaim(gs[i], key)
    ensures gs[i] == fs[i] && LiveClaim(fs[i], key)
    ensures s.revise && f.key == Some(key) ==>
              s.norm(fs[i].value) == s.norm(f.value) || (fs[i].corrective && !f.corrective)
  {
  }

  lemma {:induction false} EnteredVoices(fs: seq<Fact>, f: Fact, gs: seq<Fact>, s: Setting)
    requires s.revise && OneVoice(fs, s.norm) && Entered(fs, f, gs, s)
    ensures OneVoice(gs, s.norm)
  {
    hide Entered, LiveClaim, Settled;
    forall i: nat, j: nat, key: string | i < |gs| && j < |gs| && LiveClaim(gs[i], key) && LiveClaim(gs[j], key)
      && gs[i].corrective == gs[j].corrective
      ensures s.norm(gs[i].value) == s.norm(gs[j].value)
    {
      EnteredSize(fs, f, gs, s);
      LiveKey(gs[i], key);
      LiveKey(gs[j], key);
      if i < |fs| {
        EnteredLive(fs, f, gs, s, i, key);
      }
      if j < |fs| {
        EnteredLive(fs, f, gs, s, j, key);
      }
    }
  }

  /** The claim already on the key that the new one would stand beside and contradict. */
  ghost predicate Clashes(fs: seq<Fact>, f: Fact, norm: string -> string) {
    exists i: nat :: i < |fs| && Opposes(fs[i], f, norm) && fs[i].corrective == f.corrective
  }

  /** Without superseding, one voice survives exactly when there is no such claim. */
  lemma {:induction false} EnteredBeside(fs: seq<Fact>, f: Fact, gs: seq<Fact>, s: Setting)
    requires !s.revise && OneVoice(fs, s.norm) && Entered(fs, f, gs, s)
    requires f.kind == Claim && f.key.Some? && !f.superseded
    ensures OneVoice(gs, s.norm) <==> !Clashes(fs, f, s.norm)
  {
    assert gs == fs + [f];
    var key := f.key.value;
    assert LiveClaim(gs[|fs|], key);
    if !Clashes(fs, f, s.norm) {
      forall i: nat, j: nat, k: string | i < |gs| && j < |gs| && LiveClaim(gs[i], k) && LiveClaim(gs[j], k)
        && gs[i].corrective == gs[j].corrective
        ensures s.norm(gs[i].value) == s.norm(gs[j].value)
      {
        assert i < |fs| ==> gs[i] == fs[i] && !(Opposes(fs[i], f, s.norm) && fs[i].corrective == f.corrective);
        assert j < |fs| ==> gs[j] == fs[j] && !(Opposes(fs[j], f, s.norm) && fs[j].corrective == f.corrective);
      }
    } else {
      var i: nat :| i < |fs| && Opposes(fs[i], f, s.norm) && fs[i].corrective == f.corrective;
      assert LiveClaim(gs[i], key);
    }
  }

  lemma {:induction false} LiveKey(f: Fact, key: string)
    requires LiveClaim(f, key)
    ensures f.key == Some(key)
  {
  }

  lemma {:induction false} EnteredSize(fs: seq<Fact>, f: Fact, gs: seq<Fact>, s: Setting)
    requires Entered(fs, f, gs, s)
    ensures |gs| == |fs| + 1 && gs[|fs|] == f
  {
  }

  lemma {:induction false} EnteredKeys(fs: seq<Fact>, f: Fact, gs: seq<Fact>, s: Setting)
    requires KeysVoiced(fs) && Entered(fs, f, gs, s) && f.kind == Claim && f.key.Some? && !f.superseded
    ensures KeysVoiced(gs)
  {
    forall i: nat | i < |gs| && gs[i].kind == Claim && gs[i].key.Some? ensures Voiced(gs, gs[i].key.value) {
      if gs[i].key == f.key {
        assert LiveClaim(gs[|fs|], gs[i].key.value);
      } else {
        assert Voiced(fs, fs[i].key.value);
        var j: nat :| j < |fs| && LiveClaim(fs[j], fs[i].key.value);
        assert LiveClaim(gs[j], gs[i].key.value);
      }
    }
  }

  lemma {:induction false} EnteredSuccession(
    fs: seq<Fact>, byId: map<NodeId, NodeIdx>, f: Fact, gs: seq<Fact>, byId': map<NodeId, NodeIdx>, s: Setting)
    requires Succession(fs, byId) && Entered(fs, f, gs, s) && f.kind == Claim && f.key.Some? && !f.superseded
    requires f.id !in byId && byId' == byId[f.id := |fs|]
    ensures Succession(gs, byId')
  {
    forall i: nat | i < |gs| && gs[i].superseded ensures Climbs(gs, byId', i) {
      if gs[i] == fs[i] {
        assert Climbs(fs, byId, i);
      }
    }
  }

  // ---- one admission ------------------------------------------------------

  /** The conflicts of a claim are the live claims on its key that say something else. */
  lemma {:induction false} ConflictsAre(g: Graph, now: nat, node: Node, norm: string -> string, i: NodeIdx)
    requires Indexed(g, now) && node.id !in g.byId && i < |g.nodes| && node.kind == Claim && node.key.Some?
    ensures i in Conflicts(g, node, norm) <==>
            LiveClaim(Facts(g)[i], node.key.value) && norm(g.nodes[i].value) != norm(node.value)
  {
    hide KeyIndex, Stamps, Mirror, Shape;
    var key := node.key.value;
    var bucket := Bucket(g.liveByKey, key);
    Sorting.SortMembers(ByStamp(g.nodes), bucket);
    assert i in bucket <==> g.nodes[i].key == Some(key) && g.nodes[i].status != Superseded;
    assert g.nodes[i].id in g.byId;
  }

  /** Entering a node keeps the promises. */
  lemma {:induction false} EnterKeeps(w: World, o: Offer, node: Node, s: Setting)
    requires Indexed(w.graph, w.now) && Within(o.mentioners, |w.graph.nodes|)
    requires node.id !in w.graph.byId && node.status != Superseded
    requires Lasting(Facts(w.graph), w.graph.byId)
    ensures var h := Enter(w, o, node, s).world.graph;
            Lasting(Facts(h), h.byId) && Kept(Facts(w.graph), Facts(h), s)
    ensures node.kind == Claim && node.key.Some? && Enter(w, o, node, s).result.Ok? ==>
              Entered(Facts(w.graph), FactOf(node), Facts(Enter(w, o, node, s).world.graph), s)
  {
    hide Indexed, Upsert, Backfill, Settlement, Conflicts, Lasting, OneVoice, Facts, FactOf, Entered;
    var g := w.graph;
    IndexedShape(g, w.now);
    UpsertFacts(g, node, s.known, w.now);
    var u := Upsert(g, node, s.known, w.now);
    if u.result.Ok? {
      var i := u.result.value;
      var others := Conflicts(g, node, s.norm);
      ConflictsInRange(g, node, s.norm);
      BackfillFacts(u.graph, i, o.mentioners);
      var linked := Backfill(u.graph, i, o.mentioners);
      SettledKeeps(g, w.now, node, linked, others, s);
    }
  }

  /**
   With superseding on, entering a claim keeps one voice per key and standing; with it off,
   exactly when no live claim of that standing says something else.
   */
  lemma {:induction false} OneVoiceIff(w: World, o: Offer, node: Node, s: Setting)
    requires Indexed(w.graph, w.now) && Within(o.mentioners, |w.graph.nodes|)
    requires node.id !in w.graph.byId && node.status != Superseded && node.kind == Claim && node.key.Some?
    requires Lasting(Facts(w.graph), w.graph.byId) && OneVoice(Facts(w.graph), s.norm)
    requires Enter(w, o, node, s).result.Ok?
    ensures OneVoice(Facts(Enter(w, o, node, s).world.graph), s.norm)
            <==> s.revise || !Clashes(Facts(w.graph), FactOf(node), s.norm)
  {
    hide Indexed, Enter, Lasting, OneVoice, Facts, FactOf, Entered, Clashes;
    EnterKeeps(w, o, node, s);
    FactIs(node);
    if !s.revise {
      EnteredBeside(Facts(w.graph), FactOf(node), Facts(Enter(w, o, node, s).world.graph), s);
    }
  }

  lemma {:induction false} FactIs(node: Node)
    ensures FactOf(node).kind == node.kind && FactOf(node).key == node.key && FactOf(node).id == node.id
    ensures FactOf(node).superseded == (node.status == Superseded) && FactOf(node).value == node.value
  {
  }

  lemma {:induction false} SettledKeeps(
    g: Graph, now: nat, node: Node, linked: Graph, others: seq<NodeIdx>, s: Setting)
    requires Indexed(g, now) && Shape(linked) && node.id !in g.byId && node.status != Superseded
    requires Facts(linked) == Facts(g) + [FactOf(node)] && linked.byId == g.byId[node.id := |g.nodes|]
    requires |linked.nodes| == |g.nodes| + 1
    requires others == Conflicts(g, node, s.norm) && Within(others, |g.nodes|)
    requires Lasting(Facts(g), g.byId)
    ensures Within(others, |linked.nodes|)
    ensures var h := Settlement(linked, |g.nodes|, others, s.revise);
            && Lasting(Facts(h), h.byId) && Kept(Facts(g), Facts(h), s)
            && (node.kind == Claim && node.key.Some? ==> Entered(Facts(g), FactOf(node), Facts(h), s))
  {
    hide Indexed, Settlement, Conflicts, FactOf, OneVoice, KeysVoiced, Succession, Settled;
    var f, fs := FactOf(node), Facts(g);
    var h := Settlement(linked, |g.nodes|, others, s.revise);
    FactIs(node);
    NotListed(others, |g.nodes|);
    forall i: NodeIdx | i < |linked.nodes|
      ensures Facts(h)[i] == Settled(Facts(linked)[i], f, i in others, s.revise)
      ensures h.byId == linked.byId
    {
      SettlementFacts(linked, |g.nodes|, others, s.revise, i);
      assert Facts(linked)[|g.nodes|] == f;
    }
    if node.kind == Claim && node.key.Some? {
      forall i: NodeIdx | i < |fs|
        ensures i in others <==> Opposes(fs[i], f, s.norm)
      {
        ConflictsAre(g, now, node, s.norm, i);
        FactIs(g.nodes[i]);
      }
      UnlistedSettles(f, s.revise);
      assert Facts(h)[|fs|] == Settled(Facts(linked)[|fs|], f, |fs| in others, s.revise);
      assert Entered(fs, f, Facts(h), s);
      if s.revise && OneVoice(fs, s.norm) {
        EnteredVoices(fs, f, Facts(h), s);
      }
      EnteredKeys(fs, f, Facts(h), s);
      EnteredSuccession(fs, g.byId, f, Facts(h), h.byId, s);
    } else {
      NoConflicts(g, node, s.norm);
      forall i: NodeIdx | i < |linked.nodes| ensures Facts(h)[i] == Facts(linked)[i] {
        assert Facts(h)[i] == Settled(Facts(linked)[i], f, i in others, s.revise);
        UnlistedStays(Facts(linked)[i], f, s.revise);
      }
      assert Facts(h) == fs + [f];
      OtherKindKeeps(fs, g.byId, f, h.byId, s.norm);
    }
  }

  lemma {:induction false} NoConflicts(g: Graph, node: Node, norm: string -> string)
    requires node.kind != Claim || node.key.None?
    ensures Conflicts(g, node, norm) == []
  {
  }

  lemma {:induction false} NotListed(s: seq<NodeIdx>, n: nat)
    requires Within(s, n)
    ensures n !in s
  {
  }

  lemma {:induction false} UnlistedSettles(f: Fact, revise: bool)
    ensures Settled(f, f, false, revise) == f
  {
  }

  lemma {:induction false} UnlistedStays(f: Fact, winner: Fact, revise: bool)
    ensures Settled(f, winner, false, revise) == f
  {
  }

  /** `admit` keeps the promises, whatever it is offered. */
  lemma {:induction false} AdmitKeeps(w: World, o: Offer, s: Setting)
    requires Indexed(w.graph, w.now) && Within(o.mentioners, |w.graph.nodes|)
    requires Lasting(Facts(w.graph), w.graph.byId)
    ensures var h := AdmitOf(w, o, s).world.graph;
            Lasting(Facts(h), h.byId) && Kept(Facts(w.graph), Facts(h), s)
  {
    hide Indexed, Upsert, Enter, Twin, Reinforce, Lasting, OneVoice, Entered, Facts, FactOf;
    EvidencePromises(w, o, s);
    EvidenceKeeps(w, o, s.known);
    var (w1, found) := WithEvidence(w, o, s.known);
    if found.Ok? {
      var node := NodeOf(o, w1.graph.nodes[found.value].id);
      if node.id !in w1.graph.byId {
        var twin := Twin(w1.graph, node, s.norm);
        TwinInRange(w1.graph, node, s.norm);
        if twin.Some? {
          ReinforceFacts(w1.graph, twin.value, o.spanId, found.value);
        } else {
          EnterKeeps(w1, o, node, s);
        }
      }
    }
  }

  lemma {:induction false} EvidencePromises(w: World, o: Offer, s: Setting)
    requires Indexed(w.graph, w.now) && Lasting(Facts(w.graph), w.graph.byId)
    ensures Shape(w.graph)
    ensures var h := WithEvidence(w, o, s.known).0.graph;
            Lasting(Facts(h), h.byId) && Kept(Facts(w.graph), Facts(h), s)
  {
    hide Indexed, Upsert, Lasting, OneVoice, Facts, FactOf;
    IndexedShape(w.graph, w.now);
    if o.evidenceId !in w.graph.byId {
      UpsertFacts(w.graph, EvidenceOf(o), s.known, w.now);
      FactIs(EvidenceOf(o));
      OtherKindKeeps(
        Facts(w.graph), w.graph.byId, FactOf(EvidenceOf(o)), w.graph.byId[o.evidenceId := |Facts(w.graph)|], s.norm);
      FactsSize(w.graph);
    }
  }

  lemma {:induction false} FactsSize(g: Graph)
    ensures |Facts(g)| == |g.nodes|
  {
  }

  // ---- the indices, too ---------------------------------------------------

  lemma {:induction false} SettlementIndexed(g: Graph, winner: NodeIdx, others: seq<NodeIdx>, revise: bool, now: nat)
    requires Indexed(g, now) && Shape(g) && winner < |g.nodes| && Within(others, |g.nodes|)
    ensures Indexed(Settlement(g, winner, others, revise), now)
    decreases |others|
  {
    hide Indexed, Contradict, Supersede, MaySupersede;
    if others != [] {
      var g1 := Contradict(g, winner, others[0]);
      ContradictKeeps(g, winner, others[0], now);
      IndexedShape(g1, now);
      SupersedeKeeps(g1, others[0], winner, now);
      var g2 := if revise && MaySupersede(g1.nodes[others[0]], g1.nodes[winner])
                then Supersede(g1, others[0], winner) else g1;
      IndexedShape(g2, now);
      SettlementIndexed(g2, winner, others[1..], revise, now);
    }
  }

  lemma {:induction false} AmendIndexed(g: Graph, i: NodeIdx, n: Node, now: nat)
    requires Indexed(g, now) && i < |g.nodes|
    requires n.id == g.nodes[i].id && n.key == g.nodes[i].key && n.timestamp == g.nodes[i].timestamp
    requires n.status == g.nodes[i].status
    ensures Indexed(SetNode(g, i, n), now)
  {
    hide Indexed, SameFaces;
    IndexedShape(g, now);
    AmendFaces(g, i, n);
    SameFacesKeeps(g, SetNode(g, i, n), now);
  }

  lemma {:induction false} BackfillIndexed(g: Graph, i: NodeIdx, mentioners: seq<NodeIdx>, now: nat)
    requires Indexed(g, now) && Shape(g) && i < |g.nodes| && Within(mentioners, |g.nodes|)
    ensures Indexed(Backfill(g, i, mentioners), now)
    decreases |mentioners|
  {
    hide Indexed, AddEdge;
    if mentioners != [] {
      var m := mentioners[0];
      var g1 := AddEdge(g, m, i, DerivedFrom);
      AddEdgeShape(g, m, i, DerivedFrom);
      AddEdgeNodes(g, m, i, DerivedFrom);
      AddEdgeKeeps(g, m, i, DerivedFrom, now);
      AmendIndexed(g1, m, g1.nodes[m].(deps := g1.nodes[m].deps + [g.nodes[i].id]), now);
      BackfillIndexed(SetNode(g1, m, g1.nodes[m].(deps := g1.nodes[m].deps + [g.nodes[i].id])), i, mentioners[1..], now);
    }
  }

  lemma {:induction false} EnterIndexed(w: World, o: Offer, node: Node, s: Setting)
    requires Indexed(w.graph, w.now) && Within(o.mentioners, |w.graph.nodes|) && node.status != Superseded
    ensures Indexed(Enter(w, o, node, s).world.graph, Enter(w, o, node, s).world.now)
  {
    hide Indexed, Upsert, Backfill, Settlement, Conflicts;
    IndexedShape(w.graph, w.now);
    UpsertKeeps(w.graph, node, s.known, w.now);
    var u := Upsert(w.graph, node, s.known, w.now);
    if u.result.Ok? {
      ConflictsInRange(w.graph, node, s.norm);
      BackfillIndexed(u.graph, u.result.value, o.mentioners, u.now);
      var linked := Backfill(u.graph, u.result.value, o.mentioners);
      SettlementIndexed(linked, u.result.value, Conflicts(w.graph, node, s.norm), s.revise, u.now);
    }
  }

  lemma {:induction false} ReinforceIndexed(g: Graph, twin: NodeIdx, spanId: string, evidence: NodeIdx, now: nat)
    requires Indexed(g, now) && Shape(g) && twin < |g.nodes| && evidence < |g.nodes|
    ensures Indexed(Reinforce(g, twin, spanId, evidence), now)
  {
    hide Indexed, AddEdge;
    var n := Corroborated(g.nodes[twin], spanId, g.nodes[evidence].id);
    AmendIndexed(g, twin, n, now);
    IndexedShape(SetNode(g, twin, n), now);
    AddEdgeKeeps(SetNode(g, twin, n), twin, evidence, Supports, now);
  }

  lemma {:induction false} AdmitIndexed(w: World, o: Offer, s: Setting)
    requires Indexed(w.graph, w.now) && Within(o.mentioners, |w.graph.nodes|)
    ensures Indexed(AdmitOf(w, o, s).world.graph, AdmitOf(w, o, s).world.now)
  {
    hide Indexed, Upsert, Enter, Twin, Reinforce;
    EvidenceKeeps(w, o, s.known);
    var (w1, found) := WithEvidence(w, o, s.known);
    if found.Ok? {
      var node := NodeOf(o, w1.graph.nodes[found.value].id);
      if node.id !in w1.graph.byId {
        var twin := Twin(w1.graph, node, s.norm);
        TwinInRange(w1.graph, node, s.norm);
        if twin.Some? {
          ReinforceIndexed(w1.graph, twin.value, o.spanId, found.value, w1.now);
        } else {
          EnterIndexed(w1, o, node, s);
        }
      }
    }
  }

  // ---- runs ---------------------------------------------------------------

  /** `run` holds the worlds of a sequence of admissions into an empty graph. */
  ghost predicate IsIngest(run: seq<World>, offers: seq<Offer>, s: Setting) {
    && |run| == |offers| + 1 && run[0] == World(EmptyGraph, 0)
    && forall k: nat :: k < |offers| ==>
         Indexed(run[k].graph, run[k].now) && Within(offers[k].mentioners, |run[k].graph.nodes|)
         && run[k + 1] == AdmitOf(run[k], offers[k], s).world
  }

  /**
   Over any sequence of admissions: every key ever claimed keeps a live claim and every
   superseded node names a later claim on its key; where conflicts are settled by
   superseding, the live corrective claims of a key share one normalised value, and so do
   the plain ones.
   */
  lemma {:induction false} IngestKeepsPromises(run: seq<World>, offers: seq<Offer>, s: Setting, k: nat)
    requires IsIngest(run, offers, s) && k < |run|
    ensures Indexed(run[k].graph, run[k].now)
    ensures Lasting(Facts(run[k].graph), run[k].graph.byId)
    ensures s.revise ==> OneVoice(Facts(run[k].graph), s.norm)
  {
    hide Indexed, Lasting, OneVoice, Facts, AdmitOf;
    if k == 0 {
      EmptyIndexed(0);
      EmptyPromises(s.norm);
    } else {
      IngestKeepsPromises(run, offers, s, k - 1);
      assert run[k - 1 + 1] == AdmitOf(run[k - 1], offers[k - 1], s).world;
      AdmitIndexed(run[k - 1], offers[k - 1], s);
      AdmitKeeps(run[k - 1], offers[k - 1], s);
    }
  }

  lemma {:induction false} EmptyPromises(norm: string -> string)
    ensures Lasting(Facts(EmptyGraph), EmptyGraph.byId) && OneVoice(Facts(EmptyGraph), norm)
  {
  }

  /** Following successors from a superseded claim climbs in insertion order to a live claim on the same key. */
  lemma {:induction false} SuccessorsReachLive(fs: seq<Fact>, byId: map<NodeId, NodeIdx>, i: nat)
    returns (path: seq<nat>)
    requires Succession(fs, byId) && i < |fs| && fs[i].superseded
    ensures |path| >= 2 && path[0] == i
    ensures forall k: nat :: k < |path| ==> path[k] < |fs|
    ensures forall k: nat :: k + 1 < |path| ==>
              && path[k] < path[k + 1] && fs[path[k]].successor.Some? && fs[path[k]].successor.value in byId
              && byId[fs[path[k]].successor.value] == path[k + 1]
    ensures fs[i].key.Some? && LiveClaim(fs[path[|path| - 1]], fs[i].key.value)
    decreases |fs| - i
  {
    assert Climbs(fs, byId, i);
    var j: nat := byId[fs[i].successor.value];
    if fs[j].superseded {
      var rest := SuccessorsReachLive(fs, byId, j);
      path := [i] + rest;
      forall k: nat | k + 1 < |path|
        ensures path[k] < path[k + 1] && fs[path[k]].successor.Some? && fs[path[k]].successor.value in byId
        ensures byId[fs[path[k]].successor.value] == path[k + 1]
      {
        if k > 0 {
          assert path[k] == rest[k - 1] && path[k + 1] == rest[k - 1 + 1];
        }
      }
    } else {
      path := [i, j];
    }
  }
}
