/**
 What is admitted when not even the pinned minimum fits (src/budget.rs): node by node,
 and without the order the program goes through them in.
 */
module BudgetOverflow {
  import opened Budget
  import Sorting

  /** What some of the chosen nodes cost, and are worth, together. */
  ghost function Totals(chosen: map<NodeIdx, Choice>, s: set<NodeIdx>): (nat, real)
    requires s <= chosen.Keys
    decreases |s|
  {
    if s == {} then (0, 0.0)
    else
      var n :| n in s;
      var rest := Totals(chosen, s - {n});
      (chosen[n].cost + rest.0, chosen[n].utility + rest.1)
  }

  ghost function CostOf(chosen: map<NodeIdx, Choice>, s: set<NodeIdx>): nat
    requires s <= chosen.Keys
  {
    Totals(chosen, s).0
  }

  lemma {:induction false} TotalsOne(chosen: map<NodeIdx, Choice>, s: set<NodeIdx>, x: NodeIdx)
    requires s <= chosen.Keys && x in s
    ensures Totals(chosen, s).0 == chosen[x].cost + Totals(chosen, s - {x}).0
    ensures Totals(chosen, s).1 == chosen[x].utility + Totals(chosen, s - {x}).1
    decreases |s|
  {
    var n :| n in s && Totals(chosen, s).0 == chosen[n].cost + Totals(chosen, s - {n}).0
      && Totals(chosen, s).1 == chosen[n].utility + Totals(chosen, s - {n}).1;
    if n != x {
      TotalsOne(chosen, s - {n}, x);
      TotalsOne(chosen, s - {x}, n);
      assert s - {n} - {x} == s - {x} - {n};
    }
  }

  lemma {:induction false} TotalsSame(a: map<NodeIdx, Choice>, b: map<NodeIdx, Choice>, s: set<NodeIdx>)
    requires s <= a.Keys && s <= b.Keys && forall n :: n in s ==> a[n] == b[n]
    ensures Totals(a, s) == Totals(b, s)
    decreases |s|
  {
    if s != {} {
      var n :| n in s;
      TotalsOne(a, s, n);
      TotalsOne(b, s, n);
      TotalsSame(a, b, s - {n});
    }
  }

  lemma {:induction false} TotalsAdd(chosen: map<NodeIdx, Choice>, node: NodeIdx, x: Choice)
    requires node !in chosen
    ensures var more := chosen[node := x];
      && Totals(more, more.Keys).0 == Totals(chosen, chosen.Keys).0 + x.cost
      && Totals(more, more.Keys).1 == Totals(chosen, chosen.Keys).1 + x.utility
  {
    hide Totals;
    var more := chosen[node := x];
    TotalsOne(more, more.Keys, node);
    assert more.Keys - {node} == chosen.Keys;
    TotalsSame(more, chosen, chosen.Keys);
  }

  /** The chosen nodes that are worth more than `x`, or as much and have a lower index than `n`. */
  ghost function Ahead(chosen: map<NodeIdx, Choice>, n: NodeIdx, x: Choice): (r: set<NodeIdx>)
    ensures r <= chosen.Keys
  {
    set m | m in chosen && (chosen[m].utility > x.utility || (chosen[m].utility == x.utility && m < n))
  }

  // ---- the greedy fill ----------------------------------------------------

  ghost predicate OneEach(order: seq<(NodeIdx, Choice)>) {
    forall i, j :: 0 <= i < j < |order| ==> order[i].0 != order[j].0
  }

  lemma {:induction false} TotalsNone()
    ensures var none: map<NodeIdx, Choice> := map[]; Totals(none, none.Keys) == (0, 0.0)
  {
  }

  /** What the first `n` entries leave: some of them, at their cost. */
  lemma {:induction false} GreedyHolds(order: seq<(NodeIdx, Choice)>, n: nat, budget: nat)
    requires OneEach(order) && n <= |order|
    ensures var g := Greedy(order, n, budget);
            && (g.1, g.2) == Totals(g.0, g.0.Keys)
            && (forall m :: m in g.0 ==> exists j: nat :: j < n && order[j] == (m, g.0[m]))
  {
    hide Totals;
    if n == 0 {
      TotalsNone();
    } else {
      GreedyHolds(order, n - 1, budget);
      var before, g := Greedy(order, n - 1, budget), Greedy(order, n, budget);
      var (node, option) := order[n - 1];
      assert node !in before.0;
      if before.1 + option.cost <= budget {
        TotalsAdd(before.0, node, option);
        forall m | m in g.0 ensures exists j: nat :: j < n && order[j] == (m, g.0[m]) {
          if m == node {
            assert order[n - 1] == (m, g.0[m]);
          } else {
            var j: nat :| j < n - 1 && order[j] == (m, before.0[m]);
          }
        }
      }
    }
  }

  /** An entry is taken when its turn comes or not at all, and later ones change nothing before them. */
  lemma {:induction false} GreedyTurn(order: seq<(NodeIdx, Choice)>, k: nat, n: nat, budget: nat)
    requires OneEach(order) && k < n <= |order|
    ensures var g, before := Greedy(order, n, budget), Greedy(order, k, budget);
            && (order[k].0 in g.0 <==> before.1 + order[k].1.cost <= budget)
            && (order[k].0 in g.0 ==> g.0[order[k].0] == order[k].1)
            && (forall j: nat :: j < k ==> (order[j].0 in before.0 <==> order[j].0 in g.0))
            && (forall m :: m in before.0 ==> m in g.0 && g.0[m] == before.0[m])
  {
    GreedyHolds(order, k, budget);
    if k + 1 < n {
      GreedyTurn(order, k, n - 1, budget);
    }
  }

  /** An entry that comes before another is worth more, ties going to the lower index. */
  ghost predicate Better(a: (NodeIdx, Choice), b: (NodeIdx, Choice)) {
    a.1.utility > b.1.utility || (a.1.utility == b.1.utility && a.0 < b.0)
  }

  lemma {:induction false} EarlierIsBetter(order: seq<(NodeIdx, Choice)>, j: nat, k: nat)
    requires OneEach(order) && Sorting.Sorted(UtilityFirst, order) && j < |order| && k < |order| && j != k
    ensures j < k <==> Better(order[j], order[k])
  {
    assert j < k ==> UtilityFirst(order[j], order[k]);
    assert k < j ==> UtilityFirst(order[k], order[j]);
  }

  lemma {:induction false} BeforeIsAhead(order: seq<(NodeIdx, Choice)>, k: nat, budget: nat)
    requires OneEach(order) && Sorting.Sorted(UtilityFirst, order) && k < |order|
    ensures Ahead(Greedy(order, |order|, budget).0, order[k].0, order[k].1) == Greedy(order, k, budget).0.Keys
  {
    hide Greedy, OneEach, Sorting.Sorted, Better, Totals, Ahead;
    var g, before := Greedy(order, |order|, budget).0, Greedy(order, k, budget).0;
    GreedyHolds(order, |order|, budget);
    GreedyHolds(order, k, budget);
    forall m: NodeIdx ensures m in Ahead(g, order[k].0, order[k].1) <==> m in before {
      if m in g {
        var j: nat :| j < |order| && order[j] == (m, g[m]);
        TakenBefore(order, j, k, budget);
        IsAhead(g, m, order[k].0, order[k].1);
      } else {
        GreedyTurn(order, k, |order|, budget);
      }
    }
  }

  /** Of what is taken, what was taken before the `k`-th entry's turn is what is better than it. */
  lemma {:induction false} TakenBefore(order: seq<(NodeIdx, Choice)>, j: nat, k: nat, budget: nat)
    requires OneEach(order) && Sorting.Sorted(UtilityFirst, order) && j < |order| && k < |order|
    requires order[j].0 in Greedy(order, |order|, budget).0
    ensures order[j].0 in Greedy(order, k, budget).0 <==> Better(order[j], order[k])
  {
    hide Greedy, Sorting.Sorted, Totals;
    GreedyTurn(order, k, |order|, budget);
    GreedyHolds(order, k, budget);
    if j != k {
      EarlierIsBetter(order, j, k);
    }
  }

  lemma {:induction false} IsAhead(chosen: map<NodeIdx, Choice>, m: NodeIdx, n: NodeIdx, x: Choice)
    requires m in chosen
    ensures m in Ahead(chosen, n, x) <==> Better((m, chosen[m]), (n, x))
  {
  }

  // ---- the answer ---------------------------------------------------------

  /**
   On overflow a candidate is admitted exactly when it is pinned, has an option, and its
   cheapest one fits beside the admitted nodes that are worth more, ties going to the
   lower index; and it is admitted at that option.
   */
  lemma {:induction false} OverflowAdmitsIff(cs: seq<Candidate>, budget: nat, alloc: Allocation, i: nat)
    requires DistinctNodes(cs) && SolvedOverflow(cs, budget, alloc) && i < |cs|
    ensures cs[i].node in alloc.chosen <==>
            && cs[i].pinned && cs[i].options != []
            && var x := Cheapest(cs[i].options).value;
               x.cost + CostOf(alloc.chosen, Ahead(alloc.chosen, cs[i].node, x)) <= budget
    ensures cs[i].node in alloc.chosen ==> alloc.chosen[cs[i].node] == Cheapest(cs[i].options).value
  {
    hide Greedy, ForcedMap, Cheapest, Totals, DroppedIn;
    var order :| Lists(order, ForcedMap(cs, |cs|)) && Sorting.Sorted(UtilityFirst, order)
      && var g := Greedy(order, |order|, budget);
      alloc == Allocation(g.0, g.1, g.2, budget, DroppedIn(cs, g.0, |cs|), [], true);
    var node := cs[i].node;
    ForcedLookup(cs, |cs|, i);
    GreedyHolds(order, |order|, budget);
    if cs[i].pinned && cs[i].options != [] {
      var x := Cheapest(cs[i].options).value;
      assert (node, x) in order;
      var k: nat :| k < |order| && order[k] == (node, x);
      GreedyTurn(order, k, |order|, budget);
      GreedyHolds(order, k, budget);
      BeforeIsAhead(order, k, budget);
      TotalsSame(alloc.chosen, Greedy(order, k, budget).0, Greedy(order, k, budget).0.Keys);
    } else {
      OnlyForced(order, ForcedMap(cs, |cs|), budget, node);
    }
  }

  lemma {:induction false} OnlyForced(
    order: seq<(NodeIdx, Choice)>, forced: map<NodeIdx, Choice>, budget: nat, node: NodeIdx)
    requires Lists(order, forced) && node !in forced
    ensures node !in Greedy(order, |order|, budget).0
  {
    hide Greedy;
    GreedyHolds(order, |order|, budget);
    var g := Greedy(order, |order|, budget).0;
    forall m: NodeIdx | m in g ensures m in forced {
      var j: nat :| j < |order| && order[j] == (m, g[m]);
      assert (m, g[m]) in order;
    }
  }

  /** What is left out is what is reported as dropped, and nothing is reported as demoted. */
  lemma {:induction false} OverflowDrops(cs: seq<Candidate>, budget: nat, alloc: Allocation, x: NodeIdx)
    requires SolvedOverflow(cs, budget, alloc)
    ensures x in alloc.dropped <==> x !in alloc.chosen && exists i: nat :: i < |cs| && cs[i].node == x
    ensures alloc.demoted == []
  {
    hide Greedy, ForcedMap, DroppedIn;
    DroppedAre(cs, alloc.chosen, |cs|, x);
  }

  lemma {:induction false} DroppedAre(cs: seq<Candidate>, chosen: map<NodeIdx, Choice>, n: nat, x: NodeIdx)
    requires n <= |cs|
    ensures x in DroppedIn(cs, chosen, n) <==> x !in chosen && exists i: nat :: i < n && cs[i].node == x
  {
    if n > 0 {
      DroppedAre(cs, chosen, n - 1, x);
      if x !in chosen && cs[n - 1].node != x && x in DroppedIn(cs, chosen, n - 1) {
        var i: nat :| i < n - 1 && cs[i].node == x;
      }
    }
  }

  /** So the answer is one, and reports what it holds. */
  lemma {:induction false} OverflowIsOne(cs: seq<Candidate>, budget: nat, a: Allocation, b: Allocation)
    requires SolvedOverflow(cs, budget, a) && SolvedOverflow(cs, budget, b)
    ensures a == b && (a.tokens, a.utility) == Totals(a.chosen, a.chosen.Keys) && a.tokens <= budget && a.overflow
  {
    hide Greedy, ForcedMap, Totals, DroppedIn;
    var o :| Lists(o, ForcedMap(cs, |cs|)) && Sorting.Sorted(UtilityFirst, o)
      && var g := Greedy(o, |o|, budget);
      a == Allocation(g.0, g.1, g.2, budget, DroppedIn(cs, g.0, |cs|), [], true);
    var p :| Lists(p, ForcedMap(cs, |cs|)) && Sorting.Sorted(UtilityFirst, p)
      && var g := Greedy(p, |p|, budget);
      b == Allocation(g.0, g.1, g.2, budget, DroppedIn(cs, g.0, |cs|), [], true);
    SameListing(o, p, ForcedMap(cs, |cs|));
    GreedyHolds(o, |o|, budget);
  }

  lemma {:induction false} SameListing(
    o: seq<(NodeIdx, Choice)>, p: seq<(NodeIdx, Choice)>, forced: map<NodeIdx, Choice>)
    requires Lists(o, forced) && Lists(p, forced) && Sorting.Sorted(UtilityFirst, o) && Sorting.Sorted(UtilityFirst, p)
    ensures o == p
  {
    forall e ensures multiset(o)[e] == multiset(p)[e] {
      ListedOnce(o, forced, e);
      ListedOnce(p, forced, e);
    }
    UtilityFirstIsPreorder();
    Sorting.SortedUnique(UtilityFirst, o, p);
  }

  lemma {:induction false} ListedOnce(o: seq<(NodeIdx, Choice)>, forced: map<NodeIdx, Choice>, e: (NodeIdx, Choice))
    requires Lists(o, forced)
    ensures multiset(o)[e] == if e.0 in forced && forced[e.0] == e.1 then 1 else 0
  {
    assert (e.0, e.1) in o <==> e.0 in forced && forced[e.0] == e.1;
    if e in o {
      var j: nat :| j < |o| && o[j] == e;
      CountOne(o, j);
    }
  }
}
