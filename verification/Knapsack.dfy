/**
 The multiple-choice knapsack at the heart of `solve` (src/budget.rs): the table,
 the backtracking pass and what they compute.

 An item is a non-empty list of priced choices whose first choice is free ("skip"
 or "keep the reserved option").  A selection picks one choice per item.  The
 reference definition is `Feasible` and `Value` over whole selections; `Opt` is the
 recurrence the table follows, and the lemmas connect the two.
 */
module Knapsack {

  datatype ItemChoice<T> = ItemChoice(cost: nat, value: real, option: T)

  type Item<T> = seq<ItemChoice<T>>

  ghost predicate WellFormed<T>(items: seq<Item<T>>) {
    forall i :: 0 <= i < |items| ==> |items[i]| > 0 && items[i][0].cost == 0
  }

  // ---- selections: the reference definition ------------------------------

  ghost predicate IsSelection<T>(items: seq<Item<T>>, n: nat, picks: seq<nat>)
    requires n <= |items|
  {
    |picks| == n && forall i :: 0 <= i < n ==> picks[i] < |items[i]|
  }

  ghost function Cost<T>(items: seq<Item<T>>, n: nat, picks: seq<nat>): nat
    requires n <= |items| && n <= |picks|
    requires forall i :: 0 <= i < n ==> picks[i] < |items[i]|
  {
    if n == 0 then 0 else Cost(items, n - 1, picks) + items[n - 1][picks[n - 1]].cost
  }

  ghost function Value<T>(items: seq<Item<T>>, n: nat, picks: seq<nat>): real
    requires n <= |items| && n <= |picks|
    requires forall i :: 0 <= i < n ==> picks[i] < |items[i]|
  {
    if n == 0 then 0.0 else Value(items, n - 1, picks) + items[n - 1][picks[n - 1]].value
  }

  ghost predicate Feasible<T>(items: seq<Item<T>>, n: nat, picks: seq<nat>, cap: nat)
    requires n <= |items|
  {
    IsSelection(items, n, picks) && Cost(items, n, picks) <= cap
  }

  /** Best value among all selections that fit, and cheapest among those that reach it. */
  ghost predicate Optimal<T>(items: seq<Item<T>>, picks: seq<nat>, cap: nat) {
    && Feasible(items, |items|, picks, cap)
    && forall other :: Feasible(items, |items|, other, cap) ==>
         && Value(items, |items|, other) <= Value(items, |items|, picks)
         && (Value(items, |items|, other) == Value(items, |items|, picks) ==>
               Cost(items, |items|, picks) <= Cost(items, |items|, other))
  }

  lemma {:induction false} PrefixSums<T>(items: seq<Item<T>>, n: nat, a: seq<nat>, b: seq<nat>)
    requires n <= |items| && n <= |a| && n <= |b|
    requires forall i :: 0 <= i < n ==> a[i] < |items[i]| && a[i] == b[i]
    ensures Cost(items, n, a) == Cost(items, n, b) && Value(items, n, a) == Value(items, n, b)
  {
    if n > 0 {
      PrefixSums(items, n - 1, a, b);
    }
  }

  // ---- the recurrence ----------------------------------------------------

  ghost function Opt<T>(items: seq<Item<T>>, n: nat, cap: nat): real
    requires WellFormed(items) && n <= |items|
    decreases n, 1, 0
  {
    if n == 0 then 0.0 else Best(items, n, cap, |items[n - 1]|).0
  }

  /** The best of the first `k` choices of item `n - 1`, the earliest one on ties. */
  ghost function Best<T>(items: seq<Item<T>>, n: nat, cap: nat, k: nat): (r: (real, nat))
    requires WellFormed(items) && 0 < n <= |items| && 0 < k <= |items[n - 1]|
    ensures r.1 < k && items[n - 1][r.1].cost <= cap
    decreases n, 0, k
  {
    if k == 1 then (Opt(items, n - 1, cap) + items[n - 1][0].value, 0)
    else
      var b := Best(items, n, cap, k - 1);
      var c := items[n - 1][k - 1];
      if c.cost <= cap && Opt(items, n - 1, cap - c.cost) + c.value > b.0
      then (Opt(items, n - 1, cap - c.cost) + c.value, k - 1)
      else b
  }

  lemma {:induction false} BestIsAttained<T>(items: seq<Item<T>>, n: nat, cap: nat, k: nat)
    requires WellFormed(items) && 0 < n <= |items| && 0 < k <= |items[n - 1]|
    ensures var b := Best(items, n, cap, k);
      b.0 == Opt(items, n - 1, cap - items[n - 1][b.1].cost) + items[n - 1][b.1].value
  {
    if k > 1 {
      BestIsAttained(items, n, cap, k - 1);
    }
  }

  lemma {:induction false} BestIsUpperBound<T>(items: seq<Item<T>>, n: nat, cap: nat, k: nat, j: nat)
    requires WellFormed(items) && 0 < n <= |items| && j < k <= |items[n - 1]|
    requires items[n - 1][j].cost <= cap
    ensures Opt(items, n - 1, cap - items[n - 1][j].cost) + items[n - 1][j].value <= Best(items, n, cap, k).0
  {
    if j < k - 1 {
      BestIsUpperBound(items, n, cap, k - 1, j);
    }
  }

  /** No selection that fits beats the recurrence. */
  lemma {:induction false} OptIsUpperBound<T>(items: seq<Item<T>>, n: nat, cap: nat, picks: seq<nat>)
    requires WellFormed(items) && n <= |items| && Feasible(items, n, picks, cap)
    ensures Value(items, n, picks) <= Opt(items, n, cap)
  {
    if n > 0 {
      var j := picks[n - 1];
      var front := picks[..n - 1];
      PrefixSums(items, n - 1, front, picks);
      OptIsUpperBound(items, n - 1, cap - items[n - 1][j].cost, front);
      BestIsUpperBound(items, n, cap, |items[n - 1]|, j);
    }
  }

  /** The selection the backtracking pass reads off the table. */
  ghost function Trace<T>(items: seq<Item<T>>, n: nat, cap: nat): (picks: seq<nat>)
    requires WellFormed(items) && n <= |items|
    ensures IsSelection(items, n, picks)
  {
    if n == 0 then [] else
      var k := Best(items, n, cap, |items[n - 1]|).1;
      Trace(items, n - 1, cap - items[n - 1][k].cost) + [k]
  }

  /** The traced selection fits and reaches the recurrence, so the recurrence is a maximum. */
  lemma {:induction false} TraceAttainsOpt<T>(items: seq<Item<T>>, n: nat, cap: nat)
    requires WellFormed(items) && n <= |items|
    ensures Feasible(items, n, Trace(items, n, cap), cap)
    ensures Value(items, n, Trace(items, n, cap)) == Opt(items, n, cap)
  {
    if n > 0 {
      var k := Best(items, n, cap, |items[n - 1]|).1;
      var front := Trace(items, n - 1, cap - items[n - 1][k].cost);
      var picks := Trace(items, n, cap);
      assert picks == front + [k];
      BestIsAttained(items, n, cap, |items[n - 1]|);
      TraceAttainsOpt(items, n - 1, cap - items[n - 1][k].cost);
      PrefixSums(items, n - 1, front, picks);
      assert picks[n - 1] == k;
    }
  }

  /** Tracing from the smallest capacity that reaches the maximum gives the cheapest optimum. */
  lemma {:induction false} SmallestCapacityIsOptimal<T>(items: seq<Item<T>>, cap: nat, best: nat)
    requires WellFormed(items) && best <= cap
    requires forall c :: 0 <= c <= cap ==> Opt(items, |items|, c) <= Opt(items, |items|, best)
    requires forall c :: 0 <= c < best ==> Opt(items, |items|, c) < Opt(items, |items|, best)
    ensures Optimal(items, Trace(items, |items|, best), cap)
  {
    var picks := Trace(items, |items|, best);
    TraceAttainsOpt(items, |items|, best);
    forall other | Feasible(items, |items|, other, cap)
      ensures Value(items, |items|, other) <= Value(items, |items|, picks)
      ensures Value(items, |items|, other) == Value(items, |items|, picks) ==>
                Cost(items, |items|, picks) <= Cost(items, |items|, other)
    {
      OptIsUpperBound(items, |items|, Cost(items, |items|, other), other);
    }
  }

  // ---- the table ---------------------------------------------------------

  datatype Score = NegInf | Finite(v: real)

  ghost predicate RowIs<T>(items: seq<Item<T>>, n: nat, buckets: nat, row: seq<Score>)
    requires WellFormed(items) && n <= |items|
  {
    |row| == buckets + 1 && forall c :: 0 <= c <= buckets ==> row[c] == Finite(Opt(items, n, c))
  }

  ghost predicate PicksAre<T>(items: seq<Item<T>>, n: nat, buckets: nat, picks: seq<int>)
    requires WellFormed(items) && 0 < n <= |items|
  {
    |picks| == buckets + 1 && forall c :: 0 <= c <= buckets ==> picks[c] == Best(items, n, c, |items[n - 1]|).1
  }

  /** One cell: the innermost loop, over the choices of one item. */
  method FillCell<T>(ghost items: seq<Item<T>>, ghost n: nat, item: Item<T>, capacity: nat, dp: array<Score>)
    returns (bestValue: Score, bestChoice: int)
    requires WellFormed(items) && 0 < n <= |items| && item == items[n - 1]
    requires capacity < dp.Length
    requires forall c :: 0 <= c <= capacity ==> dp[c] == Finite(Opt(items, n - 1, c))
    ensures bestValue == Finite(Opt(items, n, capacity))
    ensures bestChoice == Best(items, n, capacity, |item|).1
  {
    bestValue, bestChoice := NegInf, -1;
    for ci := 0 to |item|
      invariant ci == 0 ==> bestValue == NegInf && bestChoice == -1
      invariant ci > 0 ==> bestValue == Finite(Best(items, n, capacity, ci).0)
      invariant ci > 0 ==> bestChoice == Best(items, n, capacity, ci).1
    {
      if item[ci].cost <= capacity {
        var prev := dp[capacity - item[ci].cost];
        if prev != NegInf {
          var total := prev.v + item[ci].value;
          if bestValue == NegInf || total > bestValue.v {
            bestValue, bestChoice := Finite(total), ci;
          }
        }
      }
    }
  }

  /** One row of the table. */
  method FillRow<T>(ghost items: seq<Item<T>>, ghost n: nat, item: Item<T>, buckets: nat, dp: array<Score>)
    returns (next: array<Score>, picks: array<int>)
    requires WellFormed(items) && 0 < n <= |items| && item == items[n - 1]
    requires RowIs(items, n - 1, buckets, dp[..])
    ensures fresh(next) && fresh(picks)
    ensures RowIs(items, n, buckets, next[..]) && PicksAre(items, n, buckets, picks[..])
  {
    next := new Score[buckets + 1](_ => NegInf);
    picks := new int[buckets + 1](_ => -1);
    ghost var row := dp[..];
    for capacity := 0 to buckets + 1
      invariant dp[..] == row
      invariant forall c :: 0 <= c < capacity ==> next[c] == Finite(Opt(items, n, c))
      invariant forall c :: 0 <= c < capacity ==> picks[c] == Best(items, n, c, |item|).1
    {
      assert forall c :: 0 <= c <= capacity ==> dp[c] == row[c];
      var value, choice := FillCell(items, n, item, capacity, dp);
      next[capacity] := value;
      picks[capacity] := choice;
    }
  }

  /**
   The table, one row per item.  Every row is the prefix optimum at every capacity,
   and every recorded pick is a real choice: "no pick" is never recorded.
   */
  method FillTable<T>(items: seq<Item<T>>, buckets: nat) returns (dp: array<Score>, back: seq<seq<int>>)
    requires WellFormed(items)
    ensures fresh(dp) && RowIs(items, |items|, buckets, dp[..])
    ensures |back| == |items| && forall i :: 0 <= i < |items| ==> PicksAre(items, i + 1, buckets, back[i])
  {
    dp := new Score[buckets + 1](_ => Finite(0.0));
    back := [];
    for i := 0 to |items|
      invariant fresh(dp) && RowIs(items, i, buckets, dp[..])
      invariant |back| == i && forall j :: 0 <= j < i ==> PicksAre(items, j + 1, buckets, back[j])
    {
      var next, picks := FillRow(items, i + 1, items[i], buckets, dp);
      dp := next;
      var recorded := picks[..];
      back := back + [recorded];
    }
  }

  /** `max_by(value, then smaller index)` over the last row. */
  method BestCapacity<T>(ghost items: seq<Item<T>>, buckets: nat, dp: array<Score>) returns (best: nat)
    requires WellFormed(items) && RowIs(items, |items|, buckets, dp[..])
    ensures best <= buckets
    ensures forall c :: 0 <= c <= buckets ==> Opt(items, |items|, c) <= Opt(items, |items|, best)
    ensures forall c :: 0 <= c < best ==> Opt(items, |items|, c) < Opt(items, |items|, best)
  {
    best := 0;
    for c := 1 to buckets + 1
      invariant best < c
      invariant forall d :: 0 <= d < c ==> Opt(items, |items|, d) <= Opt(items, |items|, best)
      invariant forall d :: 0 <= d < best ==> Opt(items, |items|, d) < Opt(items, |items|, best)
    {
      assert dp[..][c] == Finite(Opt(items, |items|, c)) && dp[..][best] == Finite(Opt(items, |items|, best));
      if dp[c].v > dp[best].v {
        best := c;
      }
    }
  }
}
