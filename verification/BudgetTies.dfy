/**
 Options of a pinned candidate that tie with its cheapest (src/budget.rs): they never
 enter the table, so the answer is the best over all levels exactly when there are none.
 */
module BudgetTies {
  import opened Budget
  import opened Wrappers
  import Sorting

  /** A free choice of level: any option for the pinned, any or none for the rest. */
  ghost predicate AnyLevel(cs: seq<Candidate>, q: Plan) {
    && |q| == |cs|
    && forall i :: 0 <= i < |cs| ==>
         match q[i]
         case None => !cs[i].pinned || cs[i].options == []
         case Some(x) => x in cs[i].options
  }

  /** No pinned candidate has an option as cheap as its cheapest but more useful. */
  ghost predicate NoUsefulTie(cs: seq<Candidate>) {
    forall i, x :: 0 <= i < |cs| && cs[i].pinned && x in cs[i].options ==>
      var base := Cheapest(cs[i].options).value;
      x.cost == base.cost ==> x.utility <= base.utility
  }

  /** Replaces tied options of pinned candidates by the reserved one. */
  ghost function Canonical(cs: seq<Candidate>, q: Plan): Plan
    requires AnyLevel(cs, q)
  {
    seq(|cs|, i requires 0 <= i < |cs| =>
      if q[i].Some? && cs[i].pinned && q[i].value.cost == Cheapest(cs[i].options).value.cost
      then Cheapest(cs[i].options) else q[i])
  }

  lemma {:induction false} CanonicalIsAsGood(cs: seq<Candidate>, q: Plan, n: nat)
    requires AnyLevel(cs, q) && NoUsefulTie(cs) && n <= |cs|
    ensures Allowed(cs, Canonical(cs, q))
    ensures TokensTo(Canonical(cs, q), n) == TokensTo(q, n)
    ensures UtilityTo(q, n) <= UtilityTo(Canonical(cs, q), n)
  {
    var c := Canonical(cs, q);
    forall i | 0 <= i < |cs|
      ensures AllowedFor(cs[i], c[i])
    {
      if q[i].Some? && cs[i].pinned {
        assert CheaperOrEqual(Cheapest(cs[i].options).value, q[i].value);
      }
    }
    if n > 0 {
      CanonicalIsAsGood(cs, q, n - 1);
    }
  }

  /** Without such ties the answer also beats every plan with a free choice of levels. */
  lemma {:induction false} ExactOverAllLevels(
    cs: seq<Candidate>, budget: nat, preferred: map<NodeIdx, Level>, p: Plan, alloc: Allocation, q: Plan)
    requires ReservedTo(cs, |cs|) <= budget && Solved(cs, budget, 1, preferred, p, alloc)
    requires NoUsefulTie(cs) && AnyLevel(cs, q) && TokensTo(q, |q|) <= budget
    ensures UtilityTo(q, |q|) <= alloc.utility
  {
    CanonicalIsAsGood(cs, q, |cs|);
    BestAtTokenResolution(cs, budget, preferred, p, alloc, Canonical(cs, q));
  }

  /** With a tie the more useful option of a pinned candidate is never considered. */
  lemma {:induction false} TieIsLost(
    cs: seq<Candidate>, budget: nat, quantum: nat, preferred: map<NodeIdx, Level>, p: Plan, alloc: Allocation, i: nat,
    x: Choice)
    requires quantum > 0 && ReservedTo(cs, |cs|) <= budget && Solved(cs, budget, quantum, preferred, p, alloc)
    requires i < |cs| && cs[i].pinned && x in cs[i].options
    requires x.cost == Cheapest(cs[i].options).value.cost && x != Cheapest(cs[i].options).value
    ensures cs[i].node in alloc.chosen && alloc.chosen[cs[i].node] != x
  {
    assert AllowedFor(cs[i], p[i]);
  }

  // ---- candidates up to utilities -----------------------------------------

  ghost predicate SameChoices(a: seq<Choice>, b: seq<Choice>) {
    |a| == |b| && forall j: nat :: j < |a| ==> a[j].level == b[j].level && a[j].cost == b[j].cost
  }

  ghost predicate SameButUtility(a: Candidate, b: Candidate) {
    a.node == b.node && a.pinned == b.pinned && SameChoices(a.options, b.options)
  }

  /** The same candidates at the same costs, whatever they are worth. */
  ghost predicate SameCosts(cs: seq<Candidate>, ds: seq<Candidate>) {
    |cs| == |ds| && forall i: nat :: i < |cs| ==> SameButUtility(cs[i], ds[i])
  }

  /** A second option of a pinned candidate at its cheapest's cost. */
  ghost predicate Tied(c: Candidate) {
    c.pinned && exists j: nat, k: nat :: j < k < |c.options| && TieAt(c.options, j) && TieAt(c.options, k)
  }

  ghost predicate TieAt(options: seq<Choice>, j: nat) {
    j < |options| && options[j].cost == Cheapest(options).value.cost
  }

  /** Which option is the cheapest. */
  ghost function CheapestAt(options: seq<Choice>): (r: nat)
    requires options != []
    ensures r < |options| && Cheapest(options) == Some(options[r])
  {
    var n := |options| - 1;
    if n == 0 then
      assert Cheapest(options[..0]).None?;
      0
    else
      var b := CheapestAt(options[..n]);
      if CheaperOrEqual(options[b], options[n]) then b else n
  }

  /** It is a matter of levels and costs. */
  lemma {:induction false} CheapestAtSame(a: seq<Choice>, b: seq<Choice>)
    requires SameChoices(a, b) && a != []
    ensures b != [] && CheapestAt(a) == CheapestAt(b)
  {
    hide Cheapest;
    var n := |a| - 1;
    if n > 0 {
      CheapestAtSame(a[..n], b[..n]);
    }
  }

  lemma {:induction false} ReservedSame(cs: seq<Candidate>, ds: seq<Candidate>, n: nat)
    requires SameCosts(cs, ds) && n <= |cs|
    ensures ReservedTo(cs, n) == ReservedTo(ds, n)
  {
    hide Cheapest;
    if n > 0 {
      ReservedSame(cs, ds, n - 1);
      assert SameButUtility(cs[n - 1], ds[n - 1]);
      if cs[n - 1].options != [] {
        CheapestAtSame(cs[n - 1].options, ds[n - 1].options);
      }
    }
  }

  lemma {:induction false} UntiedOnce(c: Candidate, j: nat, k: nat)
    requires c.pinned && !Tied(c) && TieAt(c.options, j) && TieAt(c.options, k)
    ensures j == k
  {
    hide Cheapest;
    var a, b := if j < k then j else k, if j < k then k else j;
    assert TieAt(c.options, a) && TieAt(c.options, b);
  }

  /** Without a tie there is none that matters, whatever the utilities. */
  lemma {:induction false} UntiedIsUseless(cs: seq<Candidate>, ds: seq<Candidate>)
    requires SameCosts(cs, ds) && forall c :: c in cs ==> !Tied(c)
    ensures NoUsefulTie(ds)
  {
    hide Cheapest;
    forall i, x | 0 <= i < |ds| && ds[i].pinned && x in ds[i].options
      ensures x.cost == Cheapest(ds[i].options).value.cost ==> x.utility <= Cheapest(ds[i].options).value.utility
    {
      assert SameButUtility(cs[i], ds[i]);
      assert cs[i] in cs && !Tied(cs[i]);
      CheapestAtSame(cs[i].options, ds[i].options);
      var j: nat :| j < |ds[i].options| && ds[i].options[j] == x;
      var b := CheapestAt(ds[i].options);
      if x.cost == Cheapest(ds[i].options).value.cost {
        UntiedOnce(cs[i], j, b);
      }
    }
  }

  // ---- what a tie loses ---------------------------------------------------

  /** The candidates with all utility in one option. */
  function Prized(cs: seq<Candidate>, i: nat, m: nat): (ds: seq<Candidate>)
    ensures |ds| == |cs|
  {
    seq(|cs|, c requires 0 <= c < |cs| => cs[c].(options := PrizedChoices(cs[c].options, if c == i then m else |cs[c].options|)))
  }

  function PrizedChoices(options: seq<Choice>, m: nat): (r: seq<Choice>)
    ensures |r| == |options|
    ensures forall j: nat :: j < |r| ==> r[j] == options[j].(utility := if j == m then 1.0 else 0.0)
  {
    seq(|options|, j requires 0 <= j < |options| => options[j].(utility := if j == m then 1.0 else 0.0))
  }

  /** The plan of the pinned minimum, but for one candidate. */
  ghost function MinimumBut(cs: seq<Candidate>, i: nat, x: Option<Choice>): (p: Plan)
    ensures |p| == |cs|
  {
    seq(|cs|, c requires 0 <= c < |cs| =>
      if c == i && x.Some? then x else if cs[c].pinned then Cheapest(cs[c].options) else None)
  }

  /** A tied option other than the cheapest. */
  lemma {:induction false} OtherTie(c: Candidate) returns (m: nat)
    requires Tied(c)
    ensures c.pinned && m < |c.options| && c.options != [] && m != CheapestAt(c.options)
    ensures c.options[m].cost == Cheapest(c.options).value.cost
  {
    hide Cheapest, CheapestAt;
    var j: nat, k: nat :| j < k < |c.options| && TieAt(c.options, j) && TieAt(c.options, k);
    m := if j == CheapestAt(c.options) then k else j;
  }

  lemma {:induction false} PrizedSame(cs: seq<Candidate>, i: nat, m: nat)
    ensures SameCosts(cs, Prized(cs, i, m))
  {
    var ds := Prized(cs, i, m);
    forall c: nat | c < |cs| ensures SameButUtility(cs[c], ds[c]) {
    }
  }

  /** Nothing the solver may choose is worth anything. */
  lemma {:induction false} PrizeOutOfReach(cs: seq<Candidate>, i: nat, m: nat, q: Plan, n: nat)
    requires i < |cs| && cs[i].pinned && m < |cs[i].options| && m != CheapestAt(cs[i].options)
    requires cs[i].options[m].cost == Cheapest(cs[i].options).value.cost
    requires Allowed(Prized(cs, i, m), q) && n <= |q|
    ensures UtilityTo(q, n) == 0.0
  {
    hide Cheapest, CheapestAt;
    if n > 0 {
      var c := n - 1;
      PrizeOutOfReach(cs, i, m, q, c);
      var ds := Prized(cs, i, m);
      assert AllowedFor(ds[c], q[c]);
      if q[c].Some? {
        var j: nat :| j < |ds[c].options| && ds[c].options[j] == q[c].value;
        if c == i {
          PrizedSame(cs, i, m);
          assert SameButUtility(cs[i], ds[i]);
          CheapestAtSame(cs[i].options, ds[i].options);
        }
      }
    }
  }

  /** The pinned minimum is a best plan then. */
  lemma {:induction false} MinimumIsBest(cs: seq<Candidate>, quantum: nat, buckets: nat)
    requires quantum > 0 && forall q, n: nat :: Allowed(cs, q) && n <= |q| ==> UtilityTo(q, n) == 0.0
    ensures BestPlan(cs, MinimumBut(cs, |cs|, None), quantum, buckets)
  {
    hide Cheapest, UtilityTo, QuantaTo;
    var p := MinimumBut(cs, |cs|, None);
    MinimumAllowed(cs);
    NoExtra(cs, quantum, |cs|);
  }

  lemma {:induction false} MinimumAllowed(cs: seq<Candidate>)
    ensures Allowed(cs, MinimumBut(cs, |cs|, None))
  {
    var p := MinimumBut(cs, |cs|, None);
    forall c | 0 <= c < |cs| ensures AllowedFor(cs[c], p[c]) {
    }
  }

  lemma {:induction false} NoExtra(cs: seq<Candidate>, quantum: nat, n: nat)
    requires quantum > 0 && Allowed(cs, MinimumBut(cs, |cs|, None)) && n <= |cs|
    ensures QuantaTo(cs, MinimumBut(cs, |cs|, None), quantum, n) == 0
  {
    hide Cheapest;
    if n > 0 {
      NoExtra(cs, quantum, n - 1);
      assert CeilDiv(0, quantum) == 0;
    }
  }

  /** A report of any plan. */
  ghost function ReportOf(cs: seq<Candidate>, p: Plan, budget: nat): Allocation
    requires |p| == |cs|
  {
    Allocation(ChosenIn(cs, p, |cs|), TokensTo(p, |p|), UtilityTo(p, |p|), budget,
               Sorting.Sort(NodeLe, DroppedBy(cs, p, |cs|)), Sorting.Sort(DemotionLe, DemotedBy(cs, map[], p, |cs|)), false)
  }

  lemma {:induction false} ReportReflects(cs: seq<Candidate>, p: Plan, budget: nat)
    requires DistinctNodes(cs) && |p| == |cs|
    ensures Reflects(cs, map[], p, ReportOf(cs, p, budget))
  {
    hide Reflects;
    AssembledReflects(cs, map[], p, ReportOf(cs, p, budget), DroppedBy(cs, p, |cs|), DemotedBy(cs, map[], p, |cs|));
  }

  /** Taking the tied option costs no more than the pinned minimum, and brings what it is worth. */
  lemma {:induction false} PrizePlan(cs: seq<Candidate>, i: nat, m: nat, n: nat)
    requires i < |cs| && cs[i].pinned && m < |cs[i].options| && m != CheapestAt(cs[i].options)
    requires cs[i].options[m].cost == Cheapest(cs[i].options).value.cost && n <= |cs|
    ensures var ds := Prized(cs, i, m);
            var q := MinimumBut(ds, i, Some(ds[i].options[m]));
            AnyLevel(ds, q) && TokensTo(q, n) == ReservedTo(ds, n) && UtilityTo(q, n) == if i < n then 1.0 else 0.0
  {
    hide Cheapest, CheapestAt;
    var ds := Prized(cs, i, m);
    var q := MinimumBut(ds, i, Some(ds[i].options[m]));
    PrizedSame(cs, i, m);
    if n > 0 {
      var c := n - 1;
      PrizePlan(cs, i, m, c);
      assert SameButUtility(cs[c], ds[c]);
      if cs[c].options != [] {
        CheapestAtSame(cs[c].options, ds[c].options);
      }
    }
    forall c | 0 <= c < |ds| ensures match q[c] case None => !ds[c].pinned || ds[c].options == [] case Some(x) => x in ds[c].options {
    }
  }

  /** Where a pinned candidate has a tie, some utilities make every free choice of levels beat the answer. */
  lemma {:induction false} TieLoses(cs: seq<Candidate>, budget: nat, i: nat)
    returns (ds: seq<Candidate>, p: Plan, alloc: Allocation, q: Plan)
    requires DistinctNodes(cs) && budget > 0 && ReservedTo(cs, |cs|) <= budget && i < |cs| && Tied(cs[i])
    ensures SameCosts(cs, ds) && ReservedTo(ds, |ds|) <= budget && Solved(ds, budget, 1, map[], p, alloc)
    ensures AnyLevel(ds, q) && TokensTo(q, |q|) <= budget && alloc.utility == 0.0 && UtilityTo(q, |q|) == 1.0
  {
    hide Tied, Cheapest, CheapestAt, Reflects, BestPlan, ReservedTo, TokensTo, UtilityTo, AnyLevel, Allowed, QuantaTo;
    var m := OtherTie(cs[i]);
    ds := Prized(cs, i, m);
    PrizedSame(cs, i, m);
    ReservedSame(cs, ds, |cs|);
    PrizePlan(cs, i, m, |cs|);
    q := MinimumBut(ds, i, Some(ds[i].options[m]));
    forall r: Plan, n: nat | Allowed(ds, r) && n <= |r| ensures UtilityTo(r, n) == 0.0 {
      PrizeOutOfReach(cs, i, m, r, n);
    }
    p := MinimumBut(ds, |ds|, None);
    MinimumAllowed(ds);
    MinimumIsBest(ds, 1, Buckets(FreeBudget(ds, budget), 1));
    alloc := ReportOf(ds, p, budget);
    assert DistinctNodes(ds) by {
      forall a, b | 0 <= a < b < |ds| ensures ds[a].node != ds[b].node {
        assert SameButUtility(cs[a], ds[a]) && SameButUtility(cs[b], ds[b]);
      }
    }
    ReportReflects(ds, p, budget);
  }

  /** No answer to candidates of these costs is beaten by a free choice of levels, whatever the utilities. */
  ghost predicate BestOverAllLevels(cs: seq<Candidate>, budget: nat) {
    forall ds, preferred, p, alloc, q ::
      (SameCosts(cs, ds) && ReservedTo(ds, |ds|) <= budget && Solved(ds, budget, 1, preferred, p, alloc)
       && AnyLevel(ds, q) && TokensTo(q, |q|) <= budget) ==> UtilityTo(q, |q|) <= alloc.utility
  }

  /**
   At token resolution the answer is the best over every choice of levels, for all
   utilities, exactly when no pinned candidate has a second option at its cheapest's cost.
   */
  lemma {:induction false} ExactOverAllLevelsIff(cs: seq<Candidate>, budget: nat)
    requires DistinctNodes(cs) && budget > 0 && ReservedTo(cs, |cs|) <= budget
    ensures BestOverAllLevels(cs, budget) <==> forall c :: c in cs ==> !Tied(c)
  {
    hide Tied, Solved, AnyLevel, TokensTo, UtilityTo, ReservedTo, SameCosts, NoUsefulTie, DistinctNodes;
    if c :| c in cs && Tied(c) {
      var i: nat :| i < |cs| && cs[i] == c;
      var ds, p, alloc, q := TieLoses(cs, budget, i);
      assert !(UtilityTo(q, |q|) <= alloc.utility);
    } else {
      forall ds, preferred, p, alloc, q |
        SameCosts(cs, ds) && ReservedTo(ds, |ds|) <= budget && Solved(ds, budget, 1, preferred, p, alloc)
        && AnyLevel(ds, q) && TokensTo(q, |q|) <= budget
        ensures UtilityTo(q, |q|) <= alloc.utility
      {
        UntiedIsUseless(cs, ds);
        ExactOverAllLevels(ds, budget, preferred, p, alloc, q);
      }
    }
  }

  // ---- an input -----------------------------------------------------------

  /** One pinned candidate, two levels of one cost, the less useful of them first on the ladder. */
  function TiedPair(cost: nat): seq<Candidate> {
    [Candidate(0, [Choice(L2, cost, 0.0), Choice(L1, cost, 1.0)], true)]
  }

  /** Every answer to it is worth nothing, at every quantum, although the other level fits and is worth one. */
  lemma {:induction false} TiedPairLoses(
    cost: nat, budget: nat, quantum: Option<nat>, preferred: map<NodeIdx, Level>, p: Plan, alloc: Allocation)
    requires 0 < budget && cost <= budget && (quantum.Some? ==> quantum.value > 0)
    requires Answers(TiedPair(cost), budget, quantum, preferred, p, alloc)
    ensures alloc.utility == 0.0
    ensures var q := [Some(Choice(L1, cost, 1.0))];
            AnyLevel(TiedPair(cost), q) && TokensTo(q, 1) <= budget && UtilityTo(q, 1) == 1.0
  {
    hide Reflects;
    var cs := TiedPair(cost);
    var options := cs[0].options;
    assert options[..1] == [options[0]];
    assert Cheapest([options[0]]) == Some(options[0]) by {
      assert [options[0]][..0] == [];
    }
    assert Cheapest(options) == Some(options[0]);
    assert ReservedTo(cs, 1) == ReservedTo(cs, 0) + ReservedFor(cs[0]);
    TiedPairReport(cs, budget, QuantumIn(quantum, FreeBudget(cs, budget)), preferred, p, alloc);
    var q: Plan := [Some(Choice(L1, cost, 1.0))];
    assert q[0].value == options[1];
    assert TokensTo(q, 0) == 0 && UtilityTo(q, 0) == 0.0;
  }

  lemma {:induction false} TiedPairReport(
    cs: seq<Candidate>, budget: nat, quantum: nat, preferred: map<NodeIdx, Level>, p: Plan, alloc: Allocation)
    requires |cs| == 1 && quantum > 0 && ReservedTo(cs, 1) <= budget && Solved(cs, budget, quantum, preferred, p, alloc)
    requires cs[0].pinned && |cs[0].options| == 2 && Cheapest(cs[0].options) == Some(cs[0].options[0])
    requires cs[0].options[0].utility == 0.0 && cs[0].options[0].cost == cs[0].options[1].cost
    ensures alloc.utility == 0.0
  {
    hide Cheapest;
    assert AllowedFor(cs[0], p[0]);
    assert UtilityTo(p, 0) == 0.0;
    assert UtilityTo(p, 1) == UtilityTo(p, 0) + p[0].value.utility;
  }
}
