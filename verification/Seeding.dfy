/**
 What a question puts before the model (src/planner.rs), in terms of the scores of its
 hits and the fields of its nodes.
 */
module Seeding {
  import opened Nodes
  import G = GraphSpec
  import H = GraphHistory
  import B = Budget
  import opened Planner

  // ---- hits ---------------------------------------------------------------

  /** The hit scores at least the top hit's share, and its node is one that node search may seed. */
  ghost predicate GoodHit(
    g: G.Graph, o: Settings, hits: seq<(NodeIdx, real)>, recent: NodeIdx -> bool, h: (NodeIdx, real))
  {
    && hits != [] && h.1 >= hits[0].1 * o.seedMinRatio
    && h.0 < |g.nodes| && recent(h.0) && g.nodes[h.0].status != Superseded
    && (!o.admitStale ==> !g.nodes[h.0].meta.supersededSource && g.nodes[h.0].status != Stale)
  }

  /** The positions of the good ones among the first `n` hits, in order. */
  ghost predicate GoodPositions(
    g: G.Graph, o: Settings, hits: seq<(NodeIdx, real)>, recent: NodeIdx -> bool, n: nat, ps: seq<nat>)
    requires n <= |hits|
  {
    && (forall j: nat, k: nat :: j < k < |ps| ==> ps[j] < ps[k])
    && (forall p: nat :: p in ps <==> p < n && GoodHit(g, o, hits, recent, hits[p]))
  }

  /** What passes the floor and the vetting is what stands at those positions. */
  lemma {:induction false} VettedAt(
    g: G.Graph, o: Settings, hits: seq<(NodeIdx, real)>, recent: NodeIdx -> bool, n: nat) returns (ps: seq<nat>)
    requires hits != [] && n <= |hits|
    ensures GoodPositions(g, o, hits, recent, n, ps)
    ensures var vetted := Vetted(g, o, recent, Keep(hits[..n], hits[0].1 * o.seedMinRatio));
      |vetted| == |ps| && forall j: nat :: j < |ps| ==> ps[j] < n && vetted[j] == hits[ps[j]].0
  {
    hide Keep, Vetted, GoodHit;
    var floor := hits[0].1 * o.seedMinRatio;
    if n == 0 {
      ps := [];
      KeepNone(floor);
      VettedNone(g, o, recent);
    } else {
      var h := hits[n - 1];
      var before := VettedAt(g, o, hits, recent, n - 1);
      assert hits[..n] == hits[..n - 1] + [h];
      KeepNext(hits[..n - 1], h, floor);
      VettedMore(g, o, recent, Keep(hits[..n - 1], floor), h);
      GoodIs(g, o, hits, recent, h);
      if GoodHit(g, o, hits, recent, h) {
        ps := before + [n - 1];
        forall k: nat | k < |before| ensures before[k] < n - 1 {
          assert before[k] in before;
        }
      } else {
        ps := before;
      }
    }
  }

  lemma {:induction false} GoodIs(
    g: G.Graph, o: Settings, hits: seq<(NodeIdx, real)>, recent: NodeIdx -> bool, h: (NodeIdx, real))
    requires hits != []
    ensures GoodHit(g, o, hits, recent, h) <==>
            h.1 >= hits[0].1 * o.seedMinRatio && recent(h.0) && MaySeed(g, o, h.0)
  {
  }

  lemma {:induction false} KeepNone(floor: real)
    ensures Keep([], floor) == []
  {
  }

  lemma {:induction false} KeepNext(hits: seq<(NodeIdx, real)>, h: (NodeIdx, real), floor: real)
    ensures Keep(hits + [h], floor) == Keep(hits, floor) + if h.1 >= floor then [h] else []
  {
    if hits != [] {
      KeepNext(hits[1..], h, floor);
      assert (hits + [h])[1..] == hits[1..] + [h];
    }
  }

  lemma {:induction false} VettedMore(
    g: G.Graph, o: Settings, recent: NodeIdx -> bool, kept: seq<(NodeIdx, real)>, h: (NodeIdx, real))
    ensures Vetted(g, o, recent, kept + [h]) ==
            Vetted(g, o, recent, kept) + if recent(h.0) && MaySeed(g, o, h.0) then [h.0] else []
    ensures Vetted(g, o, recent, kept + []) == Vetted(g, o, recent, kept)
  {
    hide Vetted, MaySeed;
    var more := kept + [h];
    VettedNext(g, o, recent, more, |kept|);
    assert more[..|kept| + 1] == more && more[..|kept|] == kept && kept + [] == kept;
  }

  /** A span hit's evidence node is on record, and is this one. */
  ghost predicate BehindSpan(
    g: G.Graph, spanHits: seq<(string, real)>, evidenceBySpan: map<string, NodeId>, i: NodeIdx)
  {
    exists s :: s in spanHits && s.0 in evidenceBySpan && evidenceBySpan[s.0] in g.byId
                && g.byId[evidenceBySpan[s.0]] == i
  }

  /**
   Every good hit is a seed, in the order of the hits and before anything else.  With two
   or more of them there are no other seeds; with fewer, exactly the evidence behind the
   span hits joins them.
   */
  lemma {:induction false} SeedsByScore(
    g: G.Graph, o: Settings, hits: seq<(NodeIdx, real)>, recent: NodeIdx -> bool, spanHits: seq<(string, real)>,
    evidenceBySpan: map<string, NodeId>, seeds: seq<NodeIdx>) returns (ps: seq<nat>)
    requires SeedsAre(g, o, hits, recent, spanHits, evidenceBySpan, seeds)
    ensures GoodPositions(g, o, hits, recent, |hits|, ps) && |ps| <= |seeds|
    ensures forall j: nat :: j < |ps| ==> ps[j] < |hits| && seeds[j] == hits[ps[j]].0
    ensures |ps| >= 2 ==> |seeds| == |ps|
    ensures |ps| < 2 ==> forall i: NodeIdx :: i in seeds <==> i in seeds[..|ps|] || BehindSpan(g, spanHits, evidenceBySpan, i)
  {
    hide Keep, Vetted, GoodHit;
    if hits == [] {
      ps := [];
      NoHits(g, o, recent);
      NoGoodHits(g, o, recent);
    } else {
      ps := VettedAt(g, o, hits, recent, |hits|);
      assert hits[..|hits|] == hits;
    }
    var vetted := Vetted(g, o, recent, AboveFloor(hits, o.seedMinRatio));
    assert vetted == seeds[..|ps|];
  }

  lemma {:induction false} NoHits(g: G.Graph, o: Settings, recent: NodeIdx -> bool)
    ensures Vetted(g, o, recent, AboveFloor([], o.seedMinRatio)) == []
  {
  }

  lemma {:induction false} NoGoodHits(g: G.Graph, o: Settings, recent: NodeIdx -> bool)
    ensures GoodPositions(g, o, [], recent, 0, [])
  {
  }

  /** So whatever scores well enough and may be shown is a seed. */
  lemma {:induction false} GoodHitsSeed(
    g: G.Graph, o: Settings, hits: seq<(NodeIdx, real)>, recent: NodeIdx -> bool, spanHits: seq<(string, real)>,
    evidenceBySpan: map<string, NodeId>, seeds: seq<NodeIdx>, h: (NodeIdx, real))
    requires SeedsAre(g, o, hits, recent, spanHits, evidenceBySpan, seeds)
    requires h in hits && GoodHit(g, o, hits, recent, h)
    ensures h.0 in seeds
    ensures h == hits[0] ==> seeds[0] == h.0
  {
    hide SeedsAre, GoodHit;
    var ps := SeedsByScore(g, o, hits, recent, spanHits, evidenceBySpan, seeds);
    var p: nat :| p < |hits| && hits[p] == h;
    assert p in ps;
    var j: nat :| j < |ps| && ps[j] == p;
    assert seeds[j] == h.0;
    if h == hits[0] {
      assert 0 in ps;
      assert ps[0] == 0;
    }
  }

  /** The best hit of a question is its first seed, when its node may be shown and the share asked for is one. */
  lemma {:induction false} BestHitSeeds(
    g: G.Graph, o: Settings, hits: seq<(NodeIdx, real)>, recent: NodeIdx -> bool, spanHits: seq<(string, real)>,
    evidenceBySpan: map<string, NodeId>, seeds: seq<NodeIdx>)
    requires SeedsAre(g, o, hits, recent, spanHits, evidenceBySpan, seeds)
    requires hits != [] && 0.0 <= o.seedMinRatio <= 1.0 && hits[0].1 >= 0.0
    requires hits[0].0 < |g.nodes| && recent(hits[0].0) && g.nodes[hits[0].0].status != Superseded
    requires o.admitStale || (!g.nodes[hits[0].0].meta.supersededSource && g.nodes[hits[0].0].status != Stale)
    ensures seeds != [] && seeds[0] == hits[0].0
  {
    hide SeedsAre;
    assert hits[0].1 >= hits[0].1 * o.seedMinRatio by {
      assert hits[0].1 * (1.0 - o.seedMinRatio) >= 0.0;
    }
    GoodHitsSeed(g, o, hits, recent, spanHits, evidenceBySpan, seeds, hits[0]);
  }

  // ---- what reaches the window --------------------------------------------

  /** A good hit is on the list of every plan made from the seeds, and the best one heads it. */
  lemma {:induction false} GoodHitsListed(
    g: G.Graph, o: Settings, hits: seq<(NodeIdx, real)>, recent: NodeIdx -> bool, spanHits: seq<(string, real)>,
    evidenceBySpan: map<string, NodeId>, seeds: seq<NodeIdx>, p: Pricing, q: QueryType, pin: seq<NodeIdx>, budget: nat,
    planned: Planned, w: Workings, h: (NodeIdx, real))
    requires SeedsAre(g, o, hits, recent, spanHits, evidenceBySpan, seeds)
    requires IsPlan(g, o, p, q, seeds, pin, budget, planned, w)
    requires h in hits && GoodHit(g, o, hits, recent, h)
    ensures exists k: nat :: k < |w.listed| && w.listed[k] == (h.0, 0)
    ensures h == hits[0] ==> w.listed[0] == (h.0, 0)
  {
    hide SeedsAre, CandidatesAre, B.Answers, EntriesOf, PinnedByKind, Sane, Traced, Exhausted, Listed, InTurn;
    GoodHitsSeed(g, o, hits, recent, spanHits, evidenceBySpan, seeds, h);
    var roots: nat, walked: nat :| RootsAndWalk(g, o, seeds, pin, w.paths, w.reached, roots, walked);
    RootedAt(seeds + pin, w.reached[..roots], h.0);
    forall k: nat | k < roots ensures w.listed[k] == w.reached[k] && w.reached[k].1 == 0 && w.reached[..roots][k] == w.reached[k] {
    }
  }

  lemma {:induction false} RootedAt(all: seq<NodeIdx>, d: seq<Distance>, i: NodeIdx)
    requires Listed(d, i) && InTurn(all, d)
    ensures exists k: nat :: k < |d| && d[k].0 == i
    ensures all != [] && all[0] == i ==> d[0].0 == i
  {
    var k: nat :| k < |d| && d[k].0 == i;
    var first := d[0].0;
    assert all != [] ==> first !in all[..0];
  }

  /** Under the cap, and with a priced level, it is weighed against the others. */
  lemma {:induction false} ListedIsWeighed(
    g: G.Graph, o: Settings, p: Pricing, q: QueryType, seeds: seq<NodeIdx>, pin: seq<NodeIdx>, budget: nat,
    planned: Planned, w: Workings, k: nat)
    requires IsPlan(g, o, p, q, seeds, pin, budget, planned, w)
    requires k < |w.listed| && k < o.maxCandidates && p.options(w.listed[k].0) != []
    requires w.listed[k].0 < |g.nodes| && g.nodes[w.listed[k].0].status != Superseded
    requires g.nodes[w.listed[k].0].status == Stale ==> o.admitStale || w.listed[k].0 in pin
    ensures exists c: nat :: c < |w.cs| && w.cs[c].node == w.listed[k].0 && w.cs[c].options == p.options(w.listed[k].0)
  {
    hide Expanded, B.Answers, EntriesOf, PinnedByKind, StandsFor, Listed;
    var c := CandidateFor(p, w.pinned, w.listed[k].0);
    assert c in w.cs;
    var n: nat :| n < |w.cs| && w.cs[n] == c;
  }

  /** What is held by a plan: nothing superseded, and unless the guard is off nothing flagged and nothing stale unpinned. */
  lemma {:induction false} HeldInFields(
    g: G.Graph, o: Settings, p: Pricing, q: QueryType, seeds: seq<NodeIdx>, pin: seq<NodeIdx>, budget: nat,
    planned: Planned, w: Workings, i: NodeIdx)
    requires H.FlagInv(g) && IsPlan(g, o, p, q, seeds, pin, budget, planned, w) && i in planned.allocation.chosen
    ensures i < |g.nodes| && g.nodes[i].status != Superseded
    ensures o.admitStale || (!g.nodes[i].meta.supersededSource && (g.nodes[i].status == Stale ==> i in pin))
  {
    hide H.FlagInv, Expanded, B.Answers, Pinned, CandidatesAre;
    PlanAdmits(g, o, p, q, seeds, pin, budget, planned, w);
    assert (i, planned.allocation.chosen[i]) in planned.entries;
  }

  /** The entries of a plan are its choices, node by node in ascending order. */
  lemma {:induction false} EntriesAscend(
    g: G.Graph, o: Settings, p: Pricing, q: QueryType, seeds: seq<NodeIdx>, pin: seq<NodeIdx>, budget: nat,
    planned: Planned, w: Workings, i: nat, j: nat)
    requires IsPlan(g, o, p, q, seeds, pin, budget, planned, w) && i < j < |planned.entries|
    ensures planned.entries[i].0 <= planned.entries[j].0
    ensures planned.entries[i].0 in planned.allocation.chosen
    ensures planned.allocation.chosen[planned.entries[i].0] == planned.entries[i].1
  {
    hide Expanded, B.Answers, Pinned, CandidatesAre;
    var a, b := planned.entries[i], planned.entries[j];
    assert ByNode(a, b);
    assert (a.0, a.1) in planned.entries;
  }

  // ---- kinds pinned every turn --------------------------------------------

  /** Goals and constraints are pinned whatever is asked; decisions, calculations and open questions by the question. */
  lemma {:induction false} PinnedEveryTurn(g: G.Graph, q: QueryType, i: NodeIdx)
    requires i < |g.nodes| && g.nodes[i].status == Fresh
    ensures PinnedByKind(g, q, i) <==>
            || g.nodes[i].kind == Goal || g.nodes[i].kind == Constraint
            || (q == Justify && g.nodes[i].kind == Decision)
            || (q == Recompute && g.nodes[i].kind == Calculation)
            || (q == Open && g.nodes[i].kind == OpenQuestion)
  {
    match q
    case Justify => assert PinnedKinds(q) == [Goal, Constraint, Decision];
    case Recompute => assert PinnedKinds(q) == [Goal, Constraint, Calculation];
    case Open => assert PinnedKinds(q) == [Goal, Constraint, OpenQuestion];
    case Other => assert PinnedKinds(q) == [Goal, Constraint];
  }
}
