/**
 What becomes of one offer (src/indexer.rs `admit`), in terms of keys, values and
 statuses alone, and of all of them over any sequence of admissions.
 */
module AdmitTheory {
  import opened Wrappers
  import opened Nodes
  import opened GraphSpec
  import opened GraphIndex
  import opened ClaimSpec
  import opened ClaimTheory
  import H = GraphHistory
  import R = RevisionTheory

  /** A node of the kind that, under the key, says the value up to normalisation. */
  ghost predicate Says(n: Node, kind: Kind, key: Option<string>, value: string, norm: string -> string) {
    n.kind == kind && n.key == key && norm(n.value) == norm(value)
  }

  ghost predicate SaidLive(g: Graph, kind: Kind, key: Option<string>, value: string, norm: string -> string) {
    exists i: NodeIdx :: i < |g.nodes| && g.nodes[i].status != Superseded && Says(g.nodes[i], kind, key, value, norm)
  }

  ghost predicate SaidFresh(g: Graph, kind: Kind, key: Option<string>, value: string, norm: string -> string) {
    exists i: NodeIdx :: i < |g.nodes| && g.nodes[i].status == Fresh && Says(g.nodes[i], kind, key, value, norm)
  }

  // ---- the evidence -------------------------------------------------------

  /** Looking up or making the evidence leaves every node there is as it was, but for flags. */
  lemma {:induction false} EvidenceStep(w: World, o: Offer, known: set<string>)
    requires Indexed(w.graph, w.now)
    ensures Shape(w.graph)
    ensures var (v, found) := WithEvidence(w, o, known);
      && (found.Err? <==> o.evidenceId !in w.graph.byId && o.spanId !in known) && (found.Err? ==> v == w)
      && |w.graph.nodes| <= |v.graph.nodes|
      && (forall x: NodeIdx :: x < |w.graph.nodes| ==> R.Unflags(w.graph.nodes[x], v.graph.nodes[x]))
      && (forall x: NodeIdx :: |w.graph.nodes| <= x < |v.graph.nodes| ==> v.graph.nodes[x].kind == Evidence)
      && (forall id :: id in v.graph.byId ==> id in w.graph.byId || id == o.evidenceId)
  {
    hide Indexed, Upsert, R.Unflags;
    IndexedShape(w.graph, w.now);
    R.UnflagsSame(w.graph.nodes);
    if o.evidenceId !in w.graph.byId {
      EvidenceRefusedIff(w.graph, o, known, w.now);
      UpsertFacts(w.graph, EvidenceOf(o), known, w.now);
      var u := Upsert(w.graph, EvidenceOf(o), known, w.now);
      if u.result.Ok? {
        R.UpsertStores(w.graph, EvidenceOf(o), known, w.now);
        forall x: NodeIdx | x < |w.graph.nodes| ensures R.Unflags(w.graph.nodes[x], u.graph.nodes[x]) {
          R.UpsertAdds(w.graph, EvidenceOf(o), known, w.now, x);
          R.UnflagsEither(w.graph.nodes[x], u.graph.nodes[x]);
        }
      }
    }
  }

  lemma {:induction false} EvidenceRefusedIff(g: Graph, o: Offer, known: set<string>, now: nat)
    requires Shape(g)
    ensures var u := Upsert(g, EvidenceOf(o), known, now);
      && (u.result.Err? <==> o.spanId !in known) && (u.result.Err? ==> u.now == now)
  {
    hide Placed, LinkDeps, Shape;
    assert EvidenceOf(o).spans == [o.spanId];
    assert o.spanId in EvidenceOf(o).spans;
  }

  lemma {:induction false} SaidAlike(
    g: Graph, h: Graph, kind: Kind, key: Option<string>, value: string, norm: string -> string)
    requires |g.nodes| <= |h.nodes| && kind != Evidence
    requires forall x: NodeIdx :: x < |g.nodes| ==> R.Unflags(g.nodes[x], h.nodes[x])
    requires forall x: NodeIdx :: |g.nodes| <= x < |h.nodes| ==> h.nodes[x].kind == Evidence
    ensures SaidFresh(g, kind, key, value, norm) <==> SaidFresh(h, kind, key, value, norm)
  {
    if SaidFresh(g, kind, key, value, norm) {
      var i: NodeIdx :| i < |g.nodes| && g.nodes[i].status == Fresh && Says(g.nodes[i], kind, key, value, norm);
      assert R.Unflags(g.nodes[i], h.nodes[i]);
    }
    if SaidFresh(h, kind, key, value, norm) {
      var i: NodeIdx :| i < |h.nodes| && h.nodes[i].status == Fresh && Says(h.nodes[i], kind, key, value, norm);
      assert i < |g.nodes|;
      assert R.Unflags(g.nodes[i], h.nodes[i]);
    }
  }

  // ---- restatements -------------------------------------------------------

  lemma {:induction false} OfKindAre(g: Graph, kind: Kind, n: nat, i: NodeIdx)
    requires n <= |g.nodes|
    ensures i in OfKind(g, kind, n) <==> i < n && g.nodes[i].kind == kind
  {
    if n > 0 {
      OfKindAre(g, kind, n - 1, i);
    }
  }

  /** There is a twin exactly when a fresh node of the kind says the same under the same key. */
  lemma {:induction false} TwinIff(g: Graph, now: nat, node: Node, norm: string -> string)
    requires Indexed(g, now) && node.id !in g.byId
    ensures Twin(g, node, norm).Some? <==> SaidFresh(g, node.kind, node.key, node.value, norm)
  {
    hide KeyIndex, Stamps, Mirror, Shape, OfKind;
    var pool := Pool(g, node);
    if SaidFresh(g, node.kind, node.key, node.value, norm) {
      var i: NodeIdx :|
        i < |g.nodes| && g.nodes[i].status == Fresh && Says(g.nodes[i], node.kind, node.key, node.value, norm);
      if node.key.Some? {
        assert i in Bucket(g.liveByKey, node.key.value);
      } else {
        OfKindAre(g, node.kind, |g.nodes|, i);
      }
      assert g.nodes[i].id in g.byId;
      assert IsTwin(g, i, node, norm);
    }
    var twin := Twin(g, node, norm);
    if twin.Some? {
      assert IsTwin(g, twin.value, node, norm);
      assert Says(g.nodes[twin.value], node.kind, node.key, node.value, norm);
    }
  }

  /** The restated node gains the span, the evidence and a corroboration, and says what it said. */
  lemma {:induction false} ReinforceIs(g: Graph, twin: NodeIdx, spanId: string, evidence: NodeIdx)
    requires Shape(g) && twin < |g.nodes| && evidence < |g.nodes|
    ensures var h := Reinforce(g, twin, spanId, evidence);
      && |h.nodes| == |g.nodes| && (forall x: NodeIdx :: x < |g.nodes| && x != twin ==> h.nodes[x] == g.nodes[x])
      && h.nodes[twin].status == g.nodes[twin].status && h.nodes[twin].value == g.nodes[twin].value
      && h.nodes[twin].kind == g.nodes[twin].kind && h.nodes[twin].key == g.nodes[twin].key
      && spanId in h.nodes[twin].spans && g.nodes[evidence].id in h.nodes[twin].deps
      && h.nodes[twin].meta.corroborations == g.nodes[twin].meta.corroborations + 1
      && h.log == g.log && h.pending == g.pending
  {
    hide AddEdge;
    var e := g.nodes[evidence].id;
    var g1 := SetNode(g, twin, Corroborated(g.nodes[twin], spanId, e));
    R.AddEdgeFrame(g1, twin, evidence, Supports);
  }

  // ---- the entry ----------------------------------------------------------

  /** What enters is refused exactly for its span or its kind, and otherwise stands live in a slot of its own. */
  lemma {:induction false} EnterVoices(w: World, o: Offer, node: Node, s: Setting)
    requires Indexed(w.graph, w.now) && Within(o.mentioners, |w.graph.nodes|)
    requires node.id !in w.graph.byId && node.spans != [] && node.meta.source.None? && node.status != Superseded
    ensures var a := Enter(w, o, node, s);
      && (a.result.Err? <==> node.kind == Skill || exists x :: x in node.spans && x !in s.known)
      && (a.result.Ok? ==>
            && a.result == Ok(Some(|w.graph.nodes|)) && |Facts(a.world.graph)| == |w.graph.nodes| + 1
            && Facts(a.world.graph)[|w.graph.nodes|] == FactOf(node))
  {
    hide Indexed, Upsert, Backfill, Settlement, Conflicts, Facts, FactOf;
    var g := w.graph;
    IndexedShape(g, w.now);
    OfferRefusedIff(g, node, s.known, w.now);
    UpsertFacts(g, node, s.known, w.now);
    var u := Upsert(g, node, s.known, w.now);
    if u.result.Ok? {
      var i := u.result.value;
      var others := Conflicts(g, node, s.norm);
      ConflictsInRange(g, node, s.norm);
      BackfillFacts(u.graph, i, o.mentioners);
      FactsSize(u.graph);
      var linked := Backfill(u.graph, i, o.mentioners);
      NotListed(others, |g.nodes|);
      SettlementFacts(linked, i, others, s.revise, i);
      FactsSize(Settlement(linked, i, others, s.revise));
      FactsSize(linked);
      FactsSize(g);
      UnlistedStays(Facts(linked)[i], Facts(linked)[i], s.revise);
    }
  }

  lemma {:induction false} OfferRefusedIff(g: Graph, node: Node, known: set<string>, now: nat)
    requires Shape(g) && node.spans != [] && node.meta.source.None?
    ensures Upsert(g, node, known, now).result.Err? <==> node.kind == Skill || exists x :: x in node.spans && x !in known
  {
    hide Placed, LinkDeps, Shape;
  }

  // ---- the outcome --------------------------------------------------------

  /**
   The offer is not on record.  An id is hashed from the kind, the value and the inputs, so
   a node does not share one with its own evidence.
   */
  ghost predicate NewOffer(w: World, o: Offer) {
    o.kind != Evidence && o.id !in w.graph.byId && o.id != o.evidenceId
  }

  /**
   The offer is merged exactly when a fresh node of its kind said the same under the same
   key before.  It is refused exactly when its span is unknown and its evidence is not
   there to be found, or when nobody said it yet and its span is unknown or it is a skill.
   */
  lemma {:induction false} AdmitMergesIff(w: World, o: Offer, s: Setting)
    requires Indexed(w.graph, w.now) && Within(o.mentioners, |w.graph.nodes|) && NewOffer(w, o)
    ensures var result := AdmitOf(w, o, s).result;
      var said := SaidFresh(w.graph, o.kind, o.key, o.value, s.norm);
      && (result.Ok? ==> (result == Ok(None) <==> said))
      && (result.Err? <==> || (o.spanId !in s.known && (o.evidenceId !in w.graph.byId || !said))
                           || (o.kind == Skill && !said))
  {
    hide Indexed, WithEvidence, Enter, Twin, Reinforce, SaidFresh, R.Unflags;
    EvidenceKeeps(w, o, s.known);
    EvidenceStep(w, o, s.known);
    var (v, found) := WithEvidence(w, o, s.known);
    if found.Ok? {
      var node := NodeOf(o, v.graph.nodes[found.value].id);
      SaidAlike(w.graph, v.graph, o.kind, o.key, o.value, s.norm);
      TwinIff(v.graph, v.now, node, s.norm);
      if Twin(v.graph, node, s.norm).None? {
        EnterVoices(v, o, node, s);
        assert node.spans == [o.spanId];
        assert o.spanId in node.spans;
      }
    }
  }

  /** Whatever is not refused is heard: a live node of the kind says it under the key, and a new one says it in its own words. */
  lemma {:induction false} AdmitIsHeard(w: World, o: Offer, s: Setting)
    requires Indexed(w.graph, w.now) && Within(o.mentioners, |w.graph.nodes|) && NewOffer(w, o)
    ensures var a := AdmitOf(w, o, s);
      && (a.result.Ok? ==> SaidLive(a.world.graph, o.kind, o.key, o.value, s.norm))
      && (a.result.Ok? && a.result.value.Some? ==>
            var i := a.result.value.value;
            && |w.graph.nodes| <= i < |a.world.graph.nodes|
            && FactOf(a.world.graph.nodes[i]) == Fact(o.id, o.kind, o.value, o.key, o.corrective, false, None))
  {
    hide Indexed, WithEvidence, Enter, Twin, Reinforce, R.Unflags;
    EvidenceKeeps(w, o, s.known);
    EvidenceStep(w, o, s.known);
    var (v, found) := WithEvidence(w, o, s.known);
    if found.Ok? {
      var node := NodeOf(o, v.graph.nodes[found.value].id);
      TwinIff(v.graph, v.now, node, s.norm);
      TwinInRange(v.graph, node, s.norm);
      var h := AdmitOf(w, o, s).world.graph;
      if Twin(v.graph, node, s.norm).Some? {
        var twin := Twin(v.graph, node, s.norm).value;
        ReinforceIs(v.graph, twin, o.spanId, found.value);
        assert h.nodes[twin].status != Superseded && Says(h.nodes[twin], o.kind, o.key, o.value, s.norm);
      } else {
        EnterVoices(v, o, node, s);
        if AdmitOf(w, o, s).result.Ok? {
          var i := |v.graph.nodes|;
          assert FactOf(h.nodes[i]) == FactOf(node);
          assert h.nodes[i].status != Superseded && Says(h.nodes[i], o.kind, o.key, o.value, s.norm);
        }
      }
    }
  }

  /** A merged offer leaves its span and its evidence with the node that said it first, and one corroboration more. */
  lemma {:induction false} AdmitCorroborates(w: World, o: Offer, s: Setting) returns (i: NodeIdx)
    requires Indexed(w.graph, w.now) && Within(o.mentioners, |w.graph.nodes|) && NewOffer(w, o)
    requires AdmitOf(w, o, s).result == Ok(None)
    ensures var g, h := w.graph, AdmitOf(w, o, s).world.graph;
      && i < |g.nodes| <= |h.nodes|
      && g.nodes[i].status == Fresh && Says(g.nodes[i], o.kind, o.key, o.value, s.norm)
      && h.nodes[i].status == Fresh && h.nodes[i].value == g.nodes[i].value
      && o.spanId in h.nodes[i].spans && h.nodes[i].meta.corroborations == g.nodes[i].meta.corroborations + 1
      && (forall x: NodeIdx :: x < |g.nodes| && x != i ==> R.Unflags(g.nodes[x], h.nodes[x]))
  {
    hide Indexed, WithEvidence, Enter, Twin, Reinforce;
    EvidenceKeeps(w, o, s.known);
    EvidenceStep(w, o, s.known);
    var (v, found) := WithEvidence(w, o, s.known);
    var node := NodeOf(o, v.graph.nodes[found.value].id);
    TwinInRange(v.graph, node, s.norm);
    EntersSome(v, o, node, s);
    i := Twin(v.graph, node, s.norm).value;
    ReinforceIs(v.graph, i, o.spanId, found.value);
    assert R.Unflags(w.graph.nodes[i], v.graph.nodes[i]);
  }

  lemma {:induction false} EntersSome(w: World, o: Offer, node: Node, s: Setting)
    requires Indexed(w.graph, w.now) && Within(o.mentioners, |w.graph.nodes|)
    ensures Enter(w, o, node, s).result != Ok(None)
  {
    hide Upsert, Backfill, Settlement, Conflicts, Indexed;
  }

  // ---- what it is linked to -----------------------------------------------

  /** An edge leads from `a` to `b`. */
  ghost predicate Points(g: Graph, a: NodeIdx, b: NodeIdx, kind: EdgeType) {
    a < |g.outEdges| && Edge(a, b, kind) in g.outEdges[a]
  }

  lemma {:induction false} BackfillEdges(g: Graph, i: NodeIdx, mentioners: seq<NodeIdx>)
    requires Shape(g) && i < |g.nodes| && Within(mentioners, |g.nodes|)
    ensures H.EdgesGrow(g, Backfill(g, i, mentioners))
    ensures forall m :: m in mentioners ==> Points(Backfill(g, i, mentioners), m, i, DerivedFrom)
    decreases |mentioners|
  {
    hide AddEdge, Shape, H.EdgesGrow, H.Evolves;
    H.NodeStepSame(g);
    EvolvesEdges(g, g);
    if mentioners != [] {
      var m := mentioners[0];
      H.ShapeSizes(g);
      var g1 := AddEdge(g, m, i, DerivedFrom);
      AddEdgeShape(g, m, i, DerivedFrom);
      AddEdgeNodes(g, m, i, DerivedFrom);
      R.AddEdgeFrame(g, m, i, DerivedFrom);
      H.AddEdgeEvolves(g, m, i, DerivedFrom);
      EvolvesEdges(g, g1);
      var g2 := SetNode(g1, m, g1.nodes[m].(deps := g1.nodes[m].deps + [g.nodes[i].id]));
      var h := Backfill(g2, i, mentioners[1..]);
      BackfillEdges(g2, i, mentioners[1..]);
      EdgesBeside(g, g1, g2);
      EdgesOnward(g, g2, h);
      PointsOn(g2, h, m, i, DerivedFrom);
      forall x | x in mentioners ensures Points(h, x, i, DerivedFrom) {
        assert mentioners == [m] + mentioners[1..];
      }
    }
  }

  lemma {:induction false} PointsOn(g: Graph, h: Graph, a: NodeIdx, b: NodeIdx, kind: EdgeType)
    requires H.EdgesGrow(g, h) && Points(g, a, b, kind)
    ensures Points(h, a, b, kind)
  {
  }

  lemma {:induction false} EvolvesEdges(g: Graph, h: Graph)
    requires H.Evolves(g, h)
    ensures H.EdgesGrow(g, h)
  {
    hide H.EdgesGrow;
  }

  /** Changes to nodes do not matter to the edges. */
  lemma {:induction false} EdgesBeside(g: Graph, h: Graph, k: Graph)
    requires H.EdgesGrow(g, h) && k.outEdges == h.outEdges
    ensures H.EdgesGrow(g, k)
  {
  }

  lemma {:induction false} EdgesOnward(g: Graph, h: Graph, k: Graph)
    requires H.EdgesGrow(g, h) && H.EdgesGrow(h, k)
    ensures H.EdgesGrow(g, k)
  {
    forall i: NodeIdx, e | i < |g.outEdges| && e in g.outEdges[i] ensures e in k.outEdges[i] {
      assert e in h.outEdges[i];
    }
  }

  lemma {:induction false} SettlementEdges(g: Graph, winner: NodeIdx, others: seq<NodeIdx>, revise: bool)
    requires Shape(g) && winner < |g.nodes| && Within(others, |g.nodes|)
    ensures H.EdgesGrow(g, Settlement(g, winner, others, revise))
    ensures forall x :: x in others ==>
              && Points(Settlement(g, winner, others, revise), winner, x, Contradicts)
              && Points(Settlement(g, winner, others, revise), x, winner, Contradicts)
    decreases |others|
  {
    hide Contradict, Supersede, MaySupersede, Shape, H.EdgesGrow, H.Evolves;
    H.NodeStepSame(g);
    EvolvesEdges(g, g);
    if others != [] {
      var x := others[0];
      var g1 := Contradict(g, winner, x);
      H.ContradictEvolves(g, winner, x);
      R.ContradictMarks(g, winner, x, winner);
      EvolvesEdges(g, g1);
      H.SupersedeEvolves(g1, x, winner);
      H.NodeStepSame(g1);
      var g2 := if revise && MaySupersede(g1.nodes[x], g1.nodes[winner]) then Supersede(g1, x, winner) else g1;
      EvolvesEdges(g1, g2);
      SettlementEdges(g2, winner, others[1..], revise);
      var h := Settlement(g2, winner, others[1..], revise);
      EdgesOnward(g1, g2, h);
      EdgesOnward(g, g1, h);
      H.ShapeSizes(g1);
      PointsOn(g1, h, winner, x, Contradicts);
      PointsOn(g1, h, x, winner, Contradicts);
      forall y | y in others ensures Points(h, winner, y, Contradicts) && Points(h, y, winner, Contradicts) {
        assert others == [x] + others[1..];
      }
    }
  }

  /** A live claim on the offer's key that says something else. */
  ghost predicate Contests(n: Node, o: Offer, norm: string -> string) {
    && o.kind == Claim && o.key.Some? && n.kind == Claim && n.key == o.key && n.status != Superseded
    && norm(n.value) != norm(o.value)
  }

  /**
   What enters is linked to everything it has to do with: it rests on its recorded inputs,
   what mentions it rests on it, and it and every live claim that disagrees contradict
   each other.
   */
  lemma {:induction false} EnterLinks(w: World, o: Offer, node: Node, s: Setting)
    requires Indexed(w.graph, w.now) && Within(o.mentioners, |w.graph.nodes|) && node.id !in w.graph.byId
    requires node.kind == o.kind && node.key == o.key && node.value == o.value && Enter(w, o, node, s).result.Ok?
    ensures Enter(w, o, node, s).result == Ok(Some(|w.graph.nodes|))
    ensures var h, i := Enter(w, o, node, s).world.graph, |w.graph.nodes|;
      && (forall d :: d in node.deps && d in w.graph.byId ==> Points(h, i, w.graph.byId[d], DependencyKind(node.kind)))
      && (forall m :: m in o.mentioners ==> Points(h, m, i, DerivedFrom))
      && (forall x: NodeIdx :: x < i && Contests(w.graph.nodes[x], o, s.norm) ==>
            Points(h, i, x, Contradicts) && Points(h, x, i, Contradicts))
  {
    hide Indexed, Upsert, Backfill, Settlement, Conflicts, H.EdgesGrow, Points;
    var g, i := w.graph, |w.graph.nodes|;
    IndexedShape(g, w.now);
    UpsertFacts(g, node, s.known, w.now);
    var u := Upsert(g, node, s.known, w.now);
    var others := Conflicts(g, node, s.norm);
    ConflictsInRange(g, node, s.norm);
    var linked := Backfill(u.graph, i, o.mentioners);
    var h := Settlement(linked, i, others, s.revise);
    BackfillEdges(u.graph, i, o.mentioners);
    SettlementEdges(linked, i, others, s.revise);
    EdgesOnward(u.graph, linked, h);
    forall d | d in node.deps && d in g.byId ensures Points(h, i, g.byId[d], DependencyKind(node.kind)) {
      InputPoints(g, node, s.known, w.now, d);
      PointsOn(u.graph, h, i, g.byId[d], DependencyKind(node.kind));
    }
    forall m | m in o.mentioners ensures Points(h, m, i, DerivedFrom) {
      PointsOn(linked, h, m, i, DerivedFrom);
    }
    forall x: NodeIdx | x < i && Contests(g.nodes[x], o, s.norm)
      ensures Points(h, i, x, Contradicts) && Points(h, x, i, Contradicts)
    {
      ConflictsAre(g, w.now, node, s.norm, x);
    }
  }

  lemma {:induction false} InputPoints(g: Graph, node: Node, known: set<string>, now: nat, d: NodeId)
    requires Shape(g) && node.id !in g.byId && d in node.deps && d in g.byId && Upsert(g, node, known, now).result.Ok?
    ensures Points(Upsert(g, node, known, now).graph, |g.nodes|, g.byId[d], DependencyKind(node.kind))
  {
    hide Upsert, Shape;
    R.UpsertLinks(g, node, known, now, d);
    R.UpsertStores(g, node, known, now);
  }

  /** So for the whole admission, with the evidence first among the inputs. */
  lemma {:induction false} AdmitLinks(w: World, o: Offer, s: Setting, i: NodeIdx)
    requires Indexed(w.graph, w.now) && Within(o.mentioners, |w.graph.nodes|) && NewOffer(w, o)
    requires AdmitOf(w, o, s).result == Ok(Some(i))
    ensures var h := AdmitOf(w, o, s).world.graph;
      && (forall m :: m in o.mentioners ==> Points(h, m, i, DerivedFrom))
      && (forall d :: d in o.links && d in w.graph.byId ==> Points(h, i, w.graph.byId[d], DependencyKind(o.kind)))
      && (exists e: NodeIdx :: Points(h, i, e, DependencyKind(o.kind)) && IsEvidenceOf(w, o, e))
      && (forall x: NodeIdx :: x < |w.graph.nodes| && Contests(w.graph.nodes[x], o, s.norm) ==>
            Points(h, i, x, Contradicts) && Points(h, x, i, Contradicts))
  {
    hide Indexed, WithEvidence, Enter, Twin, Reinforce, R.Unflags, Points, Contests, DependencyKind;
    EvidenceKeeps(w, o, s.known);
    EvidenceStep(w, o, s.known);
    EvidenceIds(w, o, s.known);
    var (v, found) := WithEvidence(w, o, s.known);
    var node := NodeOf(o, v.graph.nodes[found.value].id);
    TwinInRange(v.graph, node, s.norm);
    EnterLinks(v, o, node, s);
    var h := AdmitOf(w, o, s).world.graph;
    assert i == |v.graph.nodes|;
    forall x: NodeIdx | x < |w.graph.nodes| && Contests(w.graph.nodes[x], o, s.norm)
      ensures Points(h, i, x, Contradicts) && Points(h, x, i, Contradicts)
    {
      ContestsAlike(w.graph.nodes[x], v.graph.nodes[x], o, s.norm);
    }
    assert node.deps == [v.graph.nodes[found.value].id] + o.links;
    assert Points(h, i, found.value, DependencyKind(o.kind));
  }

  /** The evidence of the offer: the recorded node of its id, or the node that was made for it. */
  ghost predicate IsEvidenceOf(w: World, o: Offer, e: NodeIdx) {
    e == if o.evidenceId in w.graph.byId then w.graph.byId[o.evidenceId] else |w.graph.nodes|
  }

  lemma {:induction false} EvidenceIds(w: World, o: Offer, known: set<string>)
    requires Indexed(w.graph, w.now) && Shape(w.graph) && WithEvidence(w, o, known).1.Ok?
    ensures var (v, found) := WithEvidence(w, o, known);
      && IsEvidenceOf(w, o, found.value) && found.value < |v.graph.nodes|
      && v.graph.nodes[found.value].id == o.evidenceId && o.evidenceId in v.graph.byId
      && v.graph.byId[o.evidenceId] == found.value
      && forall id :: id in w.graph.byId ==> id in v.graph.byId && v.graph.byId[id] == w.graph.byId[id]
  {
    hide Upsert, Shape, KeyIndex, LiveIndex, Stamps, Mirror;
    if o.evidenceId !in w.graph.byId {
      R.UpsertStores(w.graph, EvidenceOf(o), known, w.now);
    }
  }

  lemma {:induction false} ContestsAlike(a: Node, b: Node, o: Offer, norm: string -> string)
    requires R.Unflags(a, b)
    ensures Contests(a, o, norm) <==> Contests(b, o, norm)
  {
  }

  // ---- who yields ---------------------------------------------------------

  /** A claim on the offer's key that says something else, and is no correction that a plain offer contests. */
  ghost predicate GivesWay(n: Node, o: Offer, norm: string -> string) {
    && o.kind == Claim && o.key.Some? && n.kind == Claim && n.key == o.key && norm(n.value) != norm(o.value)
    && (n.meta.corrective ==> o.corrective)
  }

  lemma {:induction false} EnterRetires(w: World, o: Offer, node: Node, s: Setting, x: NodeIdx)
    requires Indexed(w.graph, w.now) && Within(o.mentioners, |w.graph.nodes|) && node.id !in w.graph.byId
    requires node.kind == o.kind && node.key == o.key && node.value == o.value && node.meta.corrective == o.corrective
    requires x < |w.graph.nodes| && Enter(w, o, node, s).result.Ok?
    ensures |Facts(Enter(w, o, node, s).world.graph)| > x
    ensures var n, f := w.graph.nodes[x], Facts(Enter(w, o, node, s).world.graph)[x];
      && (f.superseded <==>
          n.status == Superseded || (s.revise && n.status != Superseded && GivesWay(n, o, s.norm)))
      && (f.superseded && n.status != Superseded ==> f.successor == Some(node.id))
  {
    hide Indexed, Upsert, Backfill, Settlement, Conflicts, FactOf;
    var g := w.graph;
    IndexedShape(g, w.now);
    UpsertFacts(g, node, s.known, w.now);
    var u := Upsert(g, node, s.known, w.now);
    var i := u.result.value;
    var others := Conflicts(g, node, s.norm);
    ConflictsInRange(g, node, s.norm);
    BackfillFacts(u.graph, i, o.mentioners);
    var linked := Backfill(u.graph, i, o.mentioners);
    NotListed(others, |g.nodes|);
    SettlementFacts(linked, i, others, s.revise, x);
    assert Facts(linked)[x] == FactOf(g.nodes[x]) && Facts(linked)[i] == FactOf(node);
    FactIs(g.nodes[x]);
    FactIs(node);
    CorrectiveIs(g.nodes[x]);
    CorrectiveIs(node);
    if node.kind == Claim && node.key.Some? {
      ConflictsAre(g, w.now, node, s.norm, x);
    } else {
      NoConflicts(g, node, s.norm);
    }
  }

  lemma {:induction false} CorrectiveIs(n: Node)
    ensures FactOf(n).corrective == n.meta.corrective
  {
  }

  /**
   An admission retires exactly what gives way to it, in favour of the new node, and only
   when the offer enters and superseding is on: never a correction for a plain claim.
   */
  lemma {:induction false} AdmitRetiresIff(w: World, o: Offer, s: Setting, x: NodeIdx)
    requires Indexed(w.graph, w.now) && Within(o.mentioners, |w.graph.nodes|)
    requires o.kind != Evidence && x < |w.graph.nodes|
    ensures x < |AdmitOf(w, o, s).world.graph.nodes|
    ensures var a, n := AdmitOf(w, o, s), w.graph.nodes[x];
      var after := a.world.graph.nodes[x];
      var enters := a.result.Ok? && a.result.value.Some?;
      && (after.status == Superseded <==> n.status == Superseded || (enters && s.revise && GivesWay(n, o, s.norm)))
      && (after.status == Superseded && n.status != Superseded ==> after.meta.supersededBy == Some(o.id))
  {
    hide Indexed, WithEvidence, Enter, Twin, Reinforce, R.Unflags, Facts, GivesWay;
    EvidenceKeeps(w, o, s.known);
    EvidenceStep(w, o, s.known);
    var (v, found) := WithEvidence(w, o, s.known);
    GivesWayAlike(w.graph.nodes[x], v.graph.nodes[x], o, s.norm);
    if found.Ok? {
      var node := NodeOf(o, v.graph.nodes[found.value].id);
      if node.id !in v.graph.byId {
        var a := AdmitOf(w, o, s);
        TwinInRange(v.graph, node, s.norm);
        if Twin(v.graph, node, s.norm).Some? {
          ReinforceIs(v.graph, Twin(v.graph, node, s.norm).value, o.spanId, found.value);
        } else {
          EnterGrows(v, o, node, s);
          EnterSizes(v, o, node, s);
          FactsSize(v.graph);
          EntersSome(v, o, node, s);
          if a.result.Ok? {
            EnterRetires(v, o, node, s, x);
            assert Facts(a.world.graph)[x] == FactOf(a.world.graph.nodes[x]);
          } else {
            EnterRefused(v, o, node, s);
          }
        }
      }
    }
  }

  lemma {:induction false} EnterRefused(w: World, o: Offer, node: Node, s: Setting)
    requires Indexed(w.graph, w.now) && Within(o.mentioners, |w.graph.nodes|) && node.id !in w.graph.byId
    requires Enter(w, o, node, s).result.Err?
    ensures Enter(w, o, node, s).world.graph == w.graph
  {
    hide Upsert, Backfill, Settlement, Conflicts, Indexed;
    IndexedShape(w.graph, w.now);
    UpsertFacts(w.graph, node, s.known, w.now);
  }

  lemma {:induction false} EnterSizes(w: World, o: Offer, node: Node, s: Setting)
    requires Indexed(w.graph, w.now) && Within(o.mentioners, |w.graph.nodes|)
    ensures |Facts(Enter(w, o, node, s).world.graph)| == |Enter(w, o, node, s).world.graph.nodes|
  {
    hide Enter, Indexed;
  }

  lemma {:induction false} GivesWayAlike(a: Node, b: Node, o: Offer, norm: string -> string)
    requires R.Unflags(a, b)
    ensures GivesWay(a, o, norm) <==> GivesWay(b, o, norm)
    ensures a.status == b.status && a.meta.supersededBy == b.meta.supersededBy
  {
  }

  // ---- runs ---------------------------------------------------------------

  /** The same fact, retired or not. */
  ghost predicate Same(a: Fact, b: Fact) {
    b == a.(superseded := b.superseded, successor := b.successor) && (a.superseded ==> b.superseded)
  }

  /** Facts are added and retired, never taken back or reworded. */
  ghost predicate FactsGrow(fs: seq<Fact>, gs: seq<Fact>) {
    && |fs| <= |gs|
    && forall i: nat :: i < |fs| ==> Same(fs[i], gs[i])
  }

  lemma {:induction false} GrowsItself(fs: seq<Fact>)
    ensures FactsGrow(fs, fs)
  {
  }

  lemma {:induction false} SettledGrows(f: Fact, winner: Fact, listed: bool, revise: bool)
    ensures Same(f, Settled(f, winner, listed, revise))
  {
  }

  lemma {:induction false} EnterGrows(w: World, o: Offer, node: Node, s: Setting)
    requires Indexed(w.graph, w.now) && Within(o.mentioners, |w.graph.nodes|) && node.id !in w.graph.byId
    ensures FactsGrow(Facts(w.graph), Facts(Enter(w, o, node, s).world.graph))
  {
    hide Indexed, Upsert, Backfill, Settlement, Conflicts, Facts, FactOf, Settled, Same;
    var g := w.graph;
    IndexedShape(g, w.now);
    UpsertFacts(g, node, s.known, w.now);
    GrowsItself(Facts(g));
    var u := Upsert(g, node, s.known, w.now);
    if u.result.Ok? {
      var i := u.result.value;
      var others := Conflicts(g, node, s.norm);
      ConflictsInRange(g, node, s.norm);
      BackfillFacts(u.graph, i, o.mentioners);
      var linked := Backfill(u.graph, i, o.mentioners);
      var h := Settlement(linked, i, others, s.revise);
      NotListed(others, |g.nodes|);
      FactsSize(u.graph);
      FactsSize(linked);
      FactsSize(g);
      FactsSize(h);
      forall k: nat | k < |Facts(g)|
        ensures Same(Facts(g)[k], Facts(h)[k])
      {
        SettlementFacts(linked, i, others, s.revise, k);
        assert Facts(linked)[k] == Facts(g)[k];
        SettledGrows(Facts(linked)[k], Facts(linked)[i], k in others, s.revise);
      }
    }
  }

  lemma {:induction false} AdmitGrows(w: World, o: Offer, s: Setting)
    requires Indexed(w.graph, w.now) && Within(o.mentioners, |w.graph.nodes|)
    ensures FactsGrow(Facts(w.graph), Facts(AdmitOf(w, o, s).world.graph))
  {
    hide Indexed, Upsert, Enter, Twin, Reinforce, Facts, FactOf;
    EvidenceKeeps(w, o, s.known);
    IndexedShape(w.graph, w.now);
    if o.evidenceId !in w.graph.byId {
      UpsertFacts(w.graph, EvidenceOf(o), s.known, w.now);
    }
    var (v, found) := WithEvidence(w, o, s.known);
    GrowsItself(Facts(w.graph));
    if found.Ok? {
      var node := NodeOf(o, v.graph.nodes[found.value].id);
      if node.id !in v.graph.byId {
        var twin := Twin(v.graph, node, s.norm);
        TwinInRange(v.graph, node, s.norm);
        if twin.Some? {
          ReinforceFacts(v.graph, twin.value, o.spanId, found.value);
        } else {
          EnterGrows(v, o, node, s);
          GrowTogether(Facts(w.graph), Facts(v.graph), Facts(AdmitOf(w, o, s).world.graph));
        }
      }
    }
  }

  lemma {:induction false} GrowTogether(fs: seq<Fact>, gs: seq<Fact>, hs: seq<Fact>)
    requires FactsGrow(fs, gs) && FactsGrow(gs, hs)
    ensures FactsGrow(fs, hs)
  {
  }

  lemma {:induction false} IngestGrows(run: seq<World>, offers: seq<Offer>, s: Setting, k: nat, j: nat)
    requires IsIngest(run, offers, s) && k <= j < |run|
    ensures FactsGrow(Facts(run[k].graph), Facts(run[j].graph))
    decreases j
  {
    hide FactsGrow, Facts, Indexed, AdmitOf;
    if k == j {
      GrowsItself(Facts(run[k].graph));
    } else {
      IngestGrows(run, offers, s, k, j - 1);
      assert run[j - 1 + 1] == AdmitOf(run[j - 1], offers[j - 1], s).world;
      AdmitGrows(run[j - 1], offers[j - 1], s);
      GrowTogether(Facts(run[k].graph), Facts(run[j - 1].graph), Facts(run[j].graph));
    }
  }

  /** The value is on record under its key; if its claim is retired, a later claim on the key took over. */
  ghost predicate OnRecord(fs: seq<Fact>, byId: map<NodeId, NodeIdx>, o: Offer, norm: string -> string) {
    exists i: nat :: i < |fs| && Tells(fs[i], o, norm) && (fs[i].superseded ==> Climbs(fs, byId, i))
  }

  ghost predicate Tells(f: Fact, o: Offer, norm: string -> string) {
    f.kind == o.kind && f.key == o.key && norm(f.value) == norm(o.value)
  }

  /**
   Over any sequence of admissions, an offer that is not refused is heard when it comes,
   and what it says stays on record at every later point, where its key still has a live
   claim if it had one.
   */
  lemma {:induction false} IngestHears(run: seq<World>, offers: seq<Offer>, s: Setting, k: nat, j: nat)
    requires IsIngest(run, offers, s) && k < j < |run| && NewOffer(run[k], offers[k])
    requires Indexed(run[k].graph, run[k].now) && Within(offers[k].mentioners, |run[k].graph.nodes|)
    requires AdmitOf(run[k], offers[k], s).result.Ok?
    ensures SaidLive(run[k + 1].graph, offers[k].kind, offers[k].key, offers[k].value, s.norm)
    ensures OnRecord(Facts(run[j].graph), run[j].graph.byId, offers[k], s.norm)
    ensures offers[k].kind == Claim && offers[k].key.Some? ==> Voiced(Facts(run[j].graph), offers[k].key.value)
  {
    hide FactsGrow, Facts, Indexed, AdmitOf, Climbs, LiveClaim;
    AdmitIsHeard(run[k], offers[k], s);
    assert run[k + 1] == AdmitOf(run[k], offers[k], s).world;
    IngestGrows(run, offers, s, k + 1, j);
    IngestKeepsPromises(run, offers, s, j);
    var fs, gs := Facts(run[k + 1].graph), Facts(run[j].graph);
    var i := TellsAt(run[k + 1].graph, offers[k], s.norm);
    TellsOn(fs, gs, i, offers[k], s.norm);
    assert Tells(gs[i], offers[k], s.norm);
  }

  lemma {:induction false} TellsAt(g: Graph, o: Offer, norm: string -> string) returns (i: NodeIdx)
    requires SaidLive(g, o.kind, o.key, o.value, norm)
    ensures i < |Facts(g)| && Tells(Facts(g)[i], o, norm)
  {
    i :| i < |g.nodes| && g.nodes[i].status != Superseded && Says(g.nodes[i], o.kind, o.key, o.value, norm);
  }

  lemma {:induction false} TellsOn(fs: seq<Fact>, gs: seq<Fact>, i: nat, o: Offer, norm: string -> string)
    requires FactsGrow(fs, gs) && i < |fs| && Tells(fs[i], o, norm)
    ensures i < |gs| && Tells(gs[i], o, norm)
  {
  }
}
