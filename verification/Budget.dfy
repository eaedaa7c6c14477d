/**
 The attention budget (src/budget.rs): which memory objects enter the window, and at
 which ladder level.

 A `plan` gives each candidate one of its options or nothing.  `Allowed` says which
 plans the solver chooses between; `Solved` is the reference definition of a best
 one; `Solve` is the program, and the lemmas below say what a best plan guarantees
 in real tokens.
 */
module Budget {
  import A = Arithmetic
  import opened Wrappers
  import opened Knapsack
  import Sorting

  type NodeIdx = nat

  const MAX_DP_BUCKETS: nat := 400

  datatype Level = L0 | L1 | L2 | L3 {
    function Order(): nat {
      match this
      case L2 => 0
      case L1 => 1
      case L3 => 2
      case L0 => 3
    }
  }

  datatype Choice = Choice(level: Level, cost: nat, utility: real)

  datatype Candidate = Candidate(node: NodeIdx, options: seq<Choice>, pinned: bool)

  datatype Allocation = Allocation(
    chosen: map<NodeIdx, Choice>, tokens: nat, utility: real, budget: nat,
    dropped: seq<NodeIdx>, demoted: seq<(NodeIdx, Level, Level)>, overflow: bool)

  // ---- small helpers -----------------------------------------------------

  function CeilDiv(a: nat, b: nat): (r: nat)
    requires b > 0
    ensures a <= r * b
    ensures r * b < a + b
  {
    if a % b > 0 then a / b + 1 else a / b
  }

  lemma {:induction false} Distribute(x: nat, y: nat, b: nat)
    ensures (x + y) * b == x * b + y * b
  {
  }

  lemma {:induction false} CeilDivIsLeast(a: nat, b: nat, r: nat)
    requires b > 0 && a <= r * b
    ensures CeilDiv(a, b) <= r
  {
    var c := CeilDiv(a, b);
    A.MulMonotone(r + 1, c, b);
  }

  predicate CheaperOrEqual(a: Choice, b: Choice) {
    a.cost < b.cost || (a.cost == b.cost && a.level.Order() <= b.level.Order())
  }

  /** The lowest-cost option, by ladder order on ties and the earliest of equals. */
  function Cheapest(options: seq<Choice>): (r: Option<Choice>)
    ensures r.None? <==> options == []
    ensures r.Some? ==> r.value in options && forall o :: o in options ==> CheaperOrEqual(r.value, o)
  {
    if options == [] then None
    else
      var last := options[|options| - 1];
      assert options == options[..|options| - 1] + [last];
      match Cheapest(options[..|options| - 1])
      case None => Some(last)
      case Some(best) => if CheaperOrEqual(best, last) then Some(best) else Some(last)
  }

  /** The program's tie-break spelt out: of the options that cost least the first of lowest rank, L2 before L1, L3 and L0. */
  lemma {:induction false} CheapestIsFirst(options: seq<Choice>) returns (k: nat)
    requires options != []
    ensures k < |options| && Cheapest(options) == Some(options[k])
    ensures forall j: nat :: j < |options| ==> options[k].cost <= options[j].cost
    ensures forall j: nat :: j < |options| && options[j].cost == options[k].cost ==>
              Rank(options[k].level) < Rank(options[j].level) || (options[k].level == options[j].level && k <= j)
  {
    var n := |options| - 1;
    assert options == options[..n] + [options[n]];
    if n == 0 {
      k := 0;
    } else {
      k := CheapestIsFirst(options[..n]);
      if !CheaperOrEqual(options[k], options[n]) {
        k := n;
      }
    }
  }

  ghost function Rank(l: Level): nat {
    if l == L2 then 0 else if l == L1 then 1 else if l == L3 then 2 else 3
  }

  // ---- plans: the reference definition -----------------------------------

  type Plan = seq<Option<Choice>>

  ghost predicate DistinctNodes(cs: seq<Candidate>) {
    forall i, j :: 0 <= i < j < |cs| ==> cs[i].node != cs[j].node
  }

  /** A pinned candidate keeps its cheapest option or takes a strictly costlier one. */
  ghost predicate AllowedFor(c: Candidate, o: Option<Choice>) {
    match o
    case None => !c.pinned || c.options == []
    case Some(x) =>
      && x in c.options
      && (c.pinned ==> var base := Cheapest(c.options).value; x == base || x.cost > base.cost)
  }

  ghost predicate Allowed(cs: seq<Candidate>, p: Plan) {
    |p| == |cs| && forall i :: 0 <= i < |cs| ==> AllowedFor(cs[i], p[i])
  }

  /** What an option costs beyond what is already reserved for its candidate. */
  ghost function Extra(c: Candidate, o: Option<Choice>): nat
    requires AllowedFor(c, o)
  {
    match o
    case None => 0
    case Some(x) => if c.pinned then x.cost - Cheapest(c.options).value.cost else x.cost
  }

  ghost function ReservedFor(c: Candidate): nat {
    if c.pinned && c.options != [] then Cheapest(c.options).value.cost else 0
  }

  ghost function ReservedTo(cs: seq<Candidate>, n: nat): nat
    requires n <= |cs|
  {
    if n == 0 then 0 else ReservedTo(cs, n - 1) + ReservedFor(cs[n - 1])
  }

  ghost function TokensTo(p: Plan, n: nat): nat
    requires n <= |p|
  {
    if n == 0 then 0 else TokensTo(p, n - 1) + if p[n - 1].Some? then p[n - 1].value.cost else 0
  }

  ghost function UtilityTo(p: Plan, n: nat): real
    requires n <= |p|
  {
    if n == 0 then 0.0 else UtilityTo(p, n - 1) + if p[n - 1].Some? then p[n - 1].value.utility else 0.0
  }

  /** Extra cost in whole quanta, every option rounded up on its own. */
  ghost function QuantaTo(cs: seq<Candidate>, p: Plan, quantum: nat, n: nat): nat
    requires Allowed(cs, p) && quantum > 0 && n <= |cs|
  {
    if n == 0 then 0 else QuantaTo(cs, p, quantum, n - 1) + CeilDiv(Extra(cs[n - 1], p[n - 1]), quantum)
  }

  ghost function ExtraTo(cs: seq<Candidate>, p: Plan, n: nat): nat
    requires Allowed(cs, p) && n <= |cs|
  {
    if n == 0 then 0 else ExtraTo(cs, p, n - 1) + Extra(cs[n - 1], p[n - 1])
  }

  /** How many candidates cost something beyond their reservation. */
  ghost function PaidTo(cs: seq<Candidate>, p: Plan, n: nat): nat
    requires Allowed(cs, p) && n <= |cs|
  {
    if n == 0 then 0 else PaidTo(cs, p, n - 1) + if Extra(cs[n - 1], p[n - 1]) > 0 then 1 else 0
  }

  ghost predicate Fits(cs: seq<Candidate>, p: Plan, quantum: nat, buckets: nat)
    requires quantum > 0
  {
    Allowed(cs, p) && QuantaTo(cs, p, quantum, |cs|) <= buckets
  }

  /** No plan that fits is better, and none that is as good is cheaper. */
  ghost predicate BestPlan(cs: seq<Candidate>, p: Plan, quantum: nat, buckets: nat)
    requires quantum > 0
  {
    && Fits(cs, p, quantum, buckets)
    && forall q :: Fits(cs, q, quantum, buckets) ==>
         && UtilityTo(q, |q|) <= UtilityTo(p, |p|)
         && (UtilityTo(q, |q|) == UtilityTo(p, |p|) ==>
               QuantaTo(cs, p, quantum, |cs|) <= QuantaTo(cs, q, quantum, |cs|))
  }

  /** `alloc` reports plan `p`: totals, choices, sorted drops and the demotions it forced. */
  ghost predicate Reflects(cs: seq<Candidate>, preferred: map<NodeIdx, Level>, p: Plan, alloc: Allocation) {
    && |p| == |cs|
    && alloc.tokens == TokensTo(p, |p|)
    && alloc.utility == UtilityTo(p, |p|)
    && !alloc.overflow
    && (forall i :: 0 <= i < |cs| && p[i].Some? ==> cs[i].node in alloc.chosen && alloc.chosen[cs[i].node] == p[i].value)
    && (forall i :: 0 <= i < |cs| && p[i].None? ==> cs[i].node !in alloc.chosen)
    && (forall n :: n in alloc.chosen ==> exists i :: 0 <= i < |cs| && cs[i].node == n)
    && (forall n :: n in alloc.dropped <==> exists i :: 0 <= i < |cs| && cs[i].node == n && p[i].None?)
    && Sorting.Sorted(NodeLe, alloc.dropped)
    && (forall d: (NodeIdx, Level, Level) :: d in alloc.demoted <==> exists i :: 0 <= i < |cs| && Demotes(cs[i].node, preferred, p[i], d))
    && Sorting.Sorted(DemotionLe, alloc.demoted)
  }

  predicate Demotes(node: NodeIdx, preferred: map<NodeIdx, Level>, o: Option<Choice>, d: (NodeIdx, Level, Level)) {
    o.Some? && node in preferred && preferred[node] != o.value.level && d == (node, preferred[node], o.value.level)
  }

  predicate NodeLe(a: NodeIdx, b: NodeIdx) { a <= b }

  predicate DemotionLe(a: (NodeIdx, Level, Level), b: (NodeIdx, Level, Level)) { a.0 <= b.0 }

  /** The two lists of the report ascend by node. */
  lemma {:induction false} ReportAscends(cs: seq<Candidate>, preferred: map<NodeIdx, Level>, p: Plan, alloc: Allocation)
    requires Reflects(cs, preferred, p, alloc)
    ensures forall i: nat, j: nat :: i < j < |alloc.dropped| ==> alloc.dropped[i] <= alloc.dropped[j]
    ensures forall i: nat, j: nat :: i < j < |alloc.demoted| ==> alloc.demoted[i].0 <= alloc.demoted[j].0
  {
    forall i: nat, j: nat | i < j < |alloc.dropped| ensures alloc.dropped[i] <= alloc.dropped[j] {
      assert NodeLe(alloc.dropped[i], alloc.dropped[j]);
    }
    forall i: nat, j: nat | i < j < |alloc.demoted| ensures alloc.demoted[i].0 <= alloc.demoted[j].0 {
      assert DemotionLe(alloc.demoted[i], alloc.demoted[j]);
    }
  }

  /** What remains for the table once the pinned minimum is set aside. */
  ghost function FreeBudget(cs: seq<Candidate>, budget: nat): nat
    requires ReservedTo(cs, |cs|) <= budget
  {
    budget - ReservedTo(cs, |cs|)
  }

  function DefaultQuantum(free: nat): (r: nat)
    ensures r > 0
    ensures free > 0 ==> r <= free
  {
    var q := CeilDiv(free, MAX_DP_BUCKETS);
    if q > 1 then q else 1
  }

  /** At least one bucket, even when the free budget is below the quantum. */
  function Buckets(free: nat, quantum: nat): (r: nat)
    requires quantum > 0
    ensures r >= 1
    ensures quantum <= free ==> r * quantum <= free
    ensures free < quantum ==> r == 1
    ensures free < (r + 1) * quantum
  {
    var b := free / quantum;
    if b > 1 then b else 1
  }

  /** `alloc` is what the solver may answer when there is something to spend and the pinned minimum fits. */
  ghost predicate Solved(
    cs: seq<Candidate>, budget: nat, quantum: nat, preferred: map<NodeIdx, Level>, p: Plan, alloc: Allocation)
    requires quantum > 0 && ReservedTo(cs, |cs|) <= budget
  {
    && budget > 0
    && BestPlan(cs, p, quantum, Buckets(FreeBudget(cs, budget), quantum))
    && Reflects(cs, preferred, p, alloc)
    && alloc.budget == budget
  }

  // ---- from candidates to knapsack items ---------------------------------

  /** The costlier options of a pinned candidate, priced as upgrades over `base`. */
  function Upgrades(options: seq<Choice>, base: Choice, quantum: nat): Item<Option<Choice>>
    requires quantum > 0
  {
    if options == [] then []
    else
      var front := Upgrades(options[..|options| - 1], base, quantum);
      var o := options[|options| - 1];
      if o.cost <= base.cost then front
      else front + [ItemChoice(CeilDiv(o.cost - base.cost, quantum), o.utility - base.utility, Some(o))]
  }

  function Admissions(options: seq<Choice>, quantum: nat): Item<Option<Choice>>
    requires quantum > 0
  {
    seq(|options|, i requires 0 <= i < |options| =>
      ItemChoice(CeilDiv(options[i].cost, quantum), options[i].utility, Some(options[i])))
  }

  function ItemFor(options: seq<Choice>, base: Option<Choice>, quantum: nat): Item<Option<Choice>>
    requires quantum > 0
  {
    match base
    case None => [ItemChoice(0, 0.0, None)] + Admissions(options, quantum)
    case Some(b) => [ItemChoice(0, 0.0, Some(b))] + Upgrades(options, b, quantum)
  }

  /** The base the solver should find for a candidate in its reservation map. */
  function BaseOf(c: Candidate): Option<Choice> {
    if c.pinned then Cheapest(c.options) else None
  }

  function BaseUtility(c: Candidate): real {
    if BaseOf(c).Some? then BaseOf(c).value.utility else 0.0
  }

  lemma {:induction false} UpgradeSound(options: seq<Choice>, base: Choice, quantum: nat, k: nat)
    requires quantum > 0 && k < |Upgrades(options, base, quantum)|
    ensures var c := Upgrades(options, base, quantum)[k];
      c.option.Some? && c.option.value in options && c.option.value.cost > base.cost
      && c.cost == CeilDiv(c.option.value.cost - base.cost, quantum)
      && c.value == c.option.value.utility - base.utility
  {
    var front := Upgrades(options[..|options| - 1], base, quantum);
    if k < |front| {
      UpgradeSound(options[..|options| - 1], base, quantum, k);
    }
  }

  lemma {:induction false} UpgradeComplete(options: seq<Choice>, base: Choice, quantum: nat, o: Choice)
    returns (k: nat)
    requires quantum > 0 && o in options && o.cost > base.cost
    ensures k < |Upgrades(options, base, quantum)| && Upgrades(options, base, quantum)[k].option == Some(o)
  {
    var front := Upgrades(options[..|options| - 1], base, quantum);
    if o == options[|options| - 1] {
      k := |front|;
    } else {
      k := UpgradeComplete(options[..|options| - 1], base, quantum, o);
    }
  }

  /** Every knapsack choice is an allowed option at its quantised extra cost and gain... */
  lemma {:induction false} ItemSound(c: Candidate, quantum: nat, k: nat)
    requires quantum > 0 && c.options != [] && k < |ItemFor(c.options, BaseOf(c), quantum)|
    ensures var ch := ItemFor(c.options, BaseOf(c), quantum)[k];
      && AllowedFor(c, ch.option)
      && ch.cost == CeilDiv(Extra(c, ch.option), quantum)
      && ch.value == (if ch.option.Some? then ch.option.value.utility else 0.0) - BaseUtility(c)
  {
    if c.pinned && k > 0 {
      UpgradeSound(c.options, Cheapest(c.options).value, quantum, k - 1);
    }
  }

  /** ...and every allowed option is one of them. */
  lemma {:induction false} ItemComplete(c: Candidate, quantum: nat, o: Option<Choice>) returns (k: nat)
    requires quantum > 0 && c.options != [] && AllowedFor(c, o)
    ensures k < |ItemFor(c.options, BaseOf(c), quantum)| && ItemFor(c.options, BaseOf(c), quantum)[k].option == o
  {
    if o == BaseOf(c) {
      k := 0;
    } else if c.pinned {
      var j := UpgradeComplete(c.options, Cheapest(c.options).value, quantum, o.value);
      k := j + 1;
    } else {
      var j :| 0 <= j < |c.options| && c.options[j] == o.value;
      k := j + 1;
    }
  }

  /** `slots[i]` counts the candidates before `i` that have options, hence become items. */
  ghost predicate SlotsFor(cs: seq<Candidate>, n: nat, slots: seq<nat>)
    requires n <= |cs|
  {
    && |slots| == n + 1 && slots[0] == 0
    && forall i {:trigger cs[i]} :: 0 <= i < n ==> slots[i + 1] == slots[i] + if cs[i].options == [] then 0 else 1
  }

  /** `items` are the first `n` candidates with options, each with the base it deserves. */
  ghost predicate ItemsFor(
    cs: seq<Candidate>, n: nat, quantum: nat, items: seq<Item<Option<Choice>>>, slots: seq<nat>)
    requires quantum > 0 && n <= |cs|
  {
    && WellFormed(items) && SlotsFor(cs, n, slots) && |items| == slots[n]
    && (forall i :: 0 <= i <= n ==> slots[i] <= |items|)
    && forall i {:trigger cs[i]} :: 0 <= i < n && cs[i].options != [] ==>
         slots[i] < |items| && items[slots[i]] == ItemFor(cs[i].options, BaseOf(cs[i]), quantum)
  }

  /** The plan a selection stands for. */
  ghost predicate Stands(cs: seq<Candidate>, items: seq<Item<Option<Choice>>>, slots: seq<nat>, picks: seq<nat>, p: Plan)
  {
    && |p| == |cs| && |slots| == |cs| + 1 && IsSelection(items, |items|, picks)
    && forall i {:trigger p[i]} :: 0 <= i < |cs| ==>
         if cs[i].options == [] then p[i] == None
         else slots[i] < |items| && p[i] == items[slots[i]][picks[slots[i]]].option
  }

  ghost function BaseUtilityTo(cs: seq<Candidate>, n: nat): real
    requires n <= |cs|
  {
    if n == 0 then 0.0 else BaseUtilityTo(cs, n - 1) + BaseUtility(cs[n - 1])
  }

  lemma {:induction false} StandsAllowed(
    cs: seq<Candidate>, quantum: nat, items: seq<Item<Option<Choice>>>, slots: seq<nat>, picks: seq<nat>, p: Plan)
    requires quantum > 0 && ItemsFor(cs, |cs|, quantum, items, slots) && Stands(cs, items, slots, picks, p)
    ensures Allowed(cs, p)
  {
    forall i | 0 <= i < |cs|
      ensures AllowedFor(cs[i], p[i])
    {
      if cs[i].options != [] {
        ItemSound(cs[i], quantum, picks[slots[i]]);
      }
    }
  }

  /** A selection and the plan it stands for cost and gain the same. */
  lemma {:induction false} StandsSums(
    cs: seq<Candidate>, quantum: nat, items: seq<Item<Option<Choice>>>, slots: seq<nat>, picks: seq<nat>, p: Plan, n: nat)
    requires quantum > 0 && ItemsFor(cs, |cs|, quantum, items, slots) && Stands(cs, items, slots, picks, p)
    requires Allowed(cs, p) && n <= |cs|
    ensures QuantaTo(cs, p, quantum, n) == Cost(items, slots[n], picks)
    ensures UtilityTo(p, n) == BaseUtilityTo(cs, n) + Value(items, slots[n], picks)
  {
    hide ItemFor, WellFormed;
    if n > 0 {
      StandsSums(cs, quantum, items, slots, picks, p, n - 1);
      var c := cs[n - 1];
      if c.options != [] {
        ItemSound(c, quantum, picks[slots[n - 1]]);
      }
    }
  }

  ghost predicate PicksMatch(
    cs: seq<Candidate>, items: seq<Item<Option<Choice>>>, slots: seq<nat>, p: Plan, n: nat, picks: seq<nat>)
  {
    && n <= |cs| == |p| && n < |slots| && slots[n] <= |items| && IsSelection(items, slots[n], picks)
    && forall i {:trigger p[i]} :: 0 <= i < n && cs[i].options != [] ==>
         slots[i] < |picks| && p[i] == items[slots[i]][picks[slots[i]]].option
  }

  lemma {:induction false} PicksMatchNext(
    cs: seq<Candidate>, quantum: nat, items: seq<Item<Option<Choice>>>, slots: seq<nat>, p: Plan, n: nat,
    picks: seq<nat>, k: nat)
    requires quantum > 0 && ItemsFor(cs, |cs|, quantum, items, slots)
    requires PicksMatch(cs, items, slots, p, n, picks) && n < |cs|
    ensures cs[n].options == [] ==> PicksMatch(cs, items, slots, p, n + 1, picks)
    ensures cs[n].options != [] && k < |items[slots[n]]| && p[n] == items[slots[n]][k].option ==>
      PicksMatch(cs, items, slots, p, n + 1, picks + [k])
  {
    hide ItemFor, WellFormed, BaseOf;
    var more := if cs[n].options == [] then picks else picks + [k];
    if cs[n].options == [] || (k < |items[slots[n]]| && p[n] == items[slots[n]][k].option) {
      assert slots[n + 1] == slots[n] + if cs[n].options == [] then 0 else 1;
      assert IsSelection(items, slots[n + 1], more);
      forall i | 0 <= i < n + 1 && cs[i].options != []
        ensures slots[i] < |more| && p[i] == items[slots[i]][more[slots[i]]].option
      {
        if i < n {
          var o := p[i];
          assert slots[i] < |picks| && o == items[slots[i]][picks[slots[i]]].option;
        }
      }
    }
  }

  /** Every allowed plan is stood for by some selection. */
  lemma {:induction false} PicksFor(
    cs: seq<Candidate>, quantum: nat, items: seq<Item<Option<Choice>>>, slots: seq<nat>, p: Plan, n: nat)
    returns (picks: seq<nat>)
    requires quantum > 0 && ItemsFor(cs, |cs|, quantum, items, slots) && Allowed(cs, p) && n <= |cs|
    ensures PicksMatch(cs, items, slots, p, n, picks)
  {
    picks := [];
    if n > 0 {
      picks := PicksFor(cs, quantum, items, slots, p, n - 1);
      if cs[n - 1].options == [] {
        PicksMatchNext(cs, quantum, items, slots, p, n - 1, picks, 0);
      } else {
        var k := ItemComplete(cs[n - 1], quantum, p[n - 1]);
        PicksMatchNext(cs, quantum, items, slots, p, n - 1, picks, k);
        picks := picks + [k];
      }
    }
  }

  /** An optimal selection stands for a best plan. */
  lemma {:induction false} OptimalStandsForBest(
    cs: seq<Candidate>, quantum: nat, buckets: nat, items: seq<Item<Option<Choice>>>, slots: seq<nat>,
    picks: seq<nat>, p: Plan)
    requires quantum > 0 && ItemsFor(cs, |cs|, quantum, items, slots)
    requires Optimal(items, picks, buckets) && Stands(cs, items, slots, picks, p)
    ensures BestPlan(cs, p, quantum, buckets)
  {
    StandsAllowed(cs, quantum, items, slots, picks, p);
    StandsSums(cs, quantum, items, slots, picks, p, |cs|);
    forall q | Fits(cs, q, quantum, buckets)
      ensures UtilityTo(q, |q|) <= UtilityTo(p, |p|)
      ensures UtilityTo(q, |q|) == UtilityTo(p, |p|) ==>
        QuantaTo(cs, p, quantum, |cs|) <= QuantaTo(cs, q, quantum, |cs|)
    {
      var other := PicksFor(cs, quantum, items, slots, q, |cs|);
      assert Stands(cs, items, slots, other, q) by {
        forall i {:trigger q[i]} | 0 <= i < |cs|
          ensures if cs[i].options == [] then q[i] == None
            else slots[i] < |items| && q[i] == items[slots[i]][other[slots[i]]].option
        {
          assert AllowedFor(cs[i], q[i]);
        }
      }
      StandsSums(cs, quantum, items, slots, other, q, |cs|);
      assert Feasible(items, |items|, other, buckets);
    }
  }

  // ---- the program -------------------------------------------------------

  ghost function ForcedMap(cs: seq<Candidate>, n: nat): map<NodeIdx, Choice>
    requires n <= |cs|
  {
    if n == 0 then map[]
    else if BaseOf(cs[n - 1]).Some? then ForcedMap(cs, n - 1)[cs[n - 1].node := BaseOf(cs[n - 1]).value]
    else ForcedMap(cs, n - 1)
  }

  function Lookup<K, V>(m: map<K, V>, k: K): Option<V> {
    if k in m then Some(m[k]) else None
  }

  lemma {:induction false} ForcedLookup(cs: seq<Candidate>, n: nat, i: nat)
    requires DistinctNodes(cs) && n <= |cs| && i < |cs|
    ensures Lookup(ForcedMap(cs, n), cs[i].node) == if i < n then BaseOf(cs[i]) else None
  {
    if n > 0 {
      ForcedLookup(cs, n - 1, i);
      assert i != n - 1 ==> cs[i].node != cs[n - 1].node;
    }
  }

  method Reserve(cs: seq<Candidate>) returns (forced: map<NodeIdx, Choice>, reserved: nat)
    ensures forced == ForcedMap(cs, |cs|) && reserved == ReservedTo(cs, |cs|)
  {
    forced, reserved := map[], 0;
    for k := 0 to |cs|
      invariant forced == ForcedMap(cs, k) && reserved == ReservedTo(cs, k)
    {
      if cs[k].pinned {
        match Cheapest(cs[k].options)
        case None =>
        case Some(option) =>
          reserved := reserved + option.cost;
          forced := forced[cs[k].node := option];
      }
    }
  }

  /** Highest utility first, then lowest node. */
  predicate UtilityFirst(a: (NodeIdx, Choice), b: (NodeIdx, Choice)) {
    a.1.utility > b.1.utility || (a.1.utility == b.1.utility && a.0 <= b.0)
  }

  ghost predicate Lists(order: seq<(NodeIdx, Choice)>, forced: map<NodeIdx, Choice>) {
    && (forall n, c :: (n, c) in order <==> n in forced && forced[n] == c)
    && (forall i, j :: 0 <= i < j < |order| ==> order[i].0 != order[j].0)
  }

  method Enumerate(forced: map<NodeIdx, Choice>) returns (order: seq<(NodeIdx, Choice)>)
    ensures Lists(order, forced)
  {
    order := [];
    var rest := forced.Keys;
    while rest != {}
      invariant rest <= forced.Keys
      invariant forall n, c :: (n, c) in order <==> n in forced && n !in rest && forced[n] == c
      invariant forall i :: 0 <= i < |order| ==> order[i] in order
      invariant forall i, j :: 0 <= i < j < |order| ==> order[i].0 != order[j].0
      decreases rest
    {
      var n :| n in rest;
      assert forall i :: 0 <= i < |order| ==> (order[i].0, order[i].1) in order;
      order := order + [(n, forced[n])];
      rest := rest - {n};
    }
  }

  /** Taking entries in order while they fit. */
  function Greedy(order: seq<(NodeIdx, Choice)>, n: nat, budget: nat): (r: (map<NodeIdx, Choice>, nat, real))
    requires n <= |order|
    ensures r.1 <= budget
  {
    if n == 0 then (map[], 0, 0.0) else
      var before := Greedy(order, n - 1, budget);
      var (node, option) := order[n - 1];
      if before.1 + option.cost <= budget
      then (before.0[node := option], before.1 + option.cost, before.2 + option.utility)
      else before
  }

  lemma {:induction false} GreedyTokensGrow(order: seq<(NodeIdx, Choice)>, m: nat, n: nat, budget: nat)
    requires m <= n <= |order|
    ensures Greedy(order, m, budget).1 <= Greedy(order, n, budget).1
    ensures forall x :: x in Greedy(order, m, budget).0 ==> x in Greedy(order, n, budget).0
  {
    if m < n {
      assert order[n - 1].1.cost >= 0;
      GreedyTokensGrow(order, m, n - 1, budget);
    }
  }

  /** When not even the pinned minimum fits, nothing left out could still be added. */
  lemma {:induction false} OverflowIsMaximal(order: seq<(NodeIdx, Choice)>, budget: nat, i: nat)
    requires i < |order| && order[i].0 !in Greedy(order, |order|, budget).0
    ensures Greedy(order, |order|, budget).1 + order[i].1.cost > budget
  {
    GreedyTokensGrow(order, i + 1, |order|, budget);
    assert order[i].0 !in Greedy(order, i + 1, budget).0;
    GreedyTokensGrow(order, i, |order|, budget);
  }

  ghost predicate SolvedOverflow(cs: seq<Candidate>, budget: nat, alloc: Allocation) {
    exists order ::
      && Lists(order, ForcedMap(cs, |cs|)) && Sorting.Sorted(UtilityFirst, order)
      && var g := Greedy(order, |order|, budget);
      alloc == Allocation(g.0, g.1, g.2, budget, DroppedIn(cs, g.0, |cs|), [], true)
  }

  /** The nodes not chosen, in candidate order. */
  function DroppedIn(cs: seq<Candidate>, chosen: map<NodeIdx, Choice>, n: nat): seq<NodeIdx>
    requires n <= |cs|
  {
    if n == 0 then []
    else DroppedIn(cs, chosen, n - 1) + if cs[n - 1].node in chosen then [] else [cs[n - 1].node]
  }

  lemma {:induction false} UtilityFirstIsPreorder()
    ensures Sorting.TotalPreorder(UtilityFirst)
  {
  }

  lemma {:induction false} CountOne(order: seq<(NodeIdx, Choice)>, j: nat)
    requires j < |order|
    requires forall i, k :: 0 <= i < k < |order| ==> order[i].0 != order[k].0
    ensures multiset(order)[order[j]] == 1
  {
    assert order == order[..j] + [order[j]] + order[j + 1..];
    assert order[j] !in order[..j] && order[j] !in order[j + 1..];
  }

  lemma {:induction false} SortKeepsListing(order: seq<(NodeIdx, Choice)>, forced: map<NodeIdx, Choice>)
    requires Lists(order, forced)
    ensures Lists(Sorting.Sort(UtilityFirst, order), forced)
  {
    var sorted := Sorting.Sort(UtilityFirst, order);
    Sorting.SortMembers(UtilityFirst, order);
    Sorting.SortPermutes(UtilityFirst, order);
    forall i, j | 0 <= i < j < |sorted|
      ensures sorted[i].0 != sorted[j].0
    {
      if sorted[i].0 == sorted[j].0 {
        var a, b := sorted[i], sorted[j];
        assert (a.0, a.1) in order && (b.0, b.1) in order;
        Sorting.CountedTwice(sorted, i, j);
        var k :| 0 <= k < |order| && order[k] == sorted[i];
        CountOne(order, k);
        assert false;
      }
    }
  }

  method AdmitWhatFits(cs: seq<Candidate>, forced: map<NodeIdx, Choice>, budget: nat) returns (alloc: Allocation)
    requires forced == ForcedMap(cs, |cs|)
    ensures SolvedOverflow(cs, budget, alloc)
  {
    hide Sorting.Sort, Sorting.Sorted, Sorting.TotalPreorder, ForcedMap, Lists;
    var listed := Enumerate(forced);
    var ordered := Sorting.Sort(UtilityFirst, listed);
    SortKeepsListing(listed, forced);
    UtilityFirstIsPreorder();
    Sorting.SortSorted(UtilityFirst, listed);
    var chosen: map<NodeIdx, Choice>, tokens, utility := map[], 0, 0.0;
    for k := 0 to |ordered|
      invariant (chosen, tokens, utility) == Greedy(ordered, k, budget)
    {
      var (node, option) := ordered[k];
      if tokens + option.cost <= budget {
        tokens := tokens + option.cost;
        utility := utility + option.utility;
        chosen := chosen[node := option];
      }
    }
    alloc := Allocation(chosen, tokens, utility, budget, DroppedIn(cs, chosen, |cs|), [], true);
  }

  /** `nodes` names the items: the candidates with options, in order. */
  ghost predicate NodesFor(cs: seq<Candidate>, n: nat, slots: seq<nat>, nodes: seq<NodeIdx>)
    requires n <= |cs|
  {
    && SlotsFor(cs, n, slots) && |nodes| == slots[n]
    && (forall i {:trigger cs[i]} :: 0 <= i < n && cs[i].options != [] ==>
          slots[i] < |nodes| && nodes[slots[i]] == cs[i].node)
    && (forall x :: x in nodes ==> exists i :: 0 <= i < n && cs[i].node == x && cs[i].options != [])
  }

  ghost predicate Distinct(nodes: seq<NodeIdx>) {
    forall i, j :: 0 <= i < j < |nodes| ==> nodes[i] != nodes[j]
  }

  lemma {:induction false} NodesForNext(cs: seq<Candidate>, k: nat, slots: seq<nat>, nodes: seq<NodeIdx>)
    requires k < |cs| && NodesFor(cs, k, slots, nodes)
    ensures cs[k].options == [] ==> NodesFor(cs, k + 1, slots + [|nodes|], nodes)
    ensures cs[k].options != [] ==> NodesFor(cs, k + 1, slots + [|nodes| + 1], nodes + [cs[k].node])
    ensures DistinctNodes(cs) && Distinct(nodes) ==> Distinct(nodes + [cs[k].node])
  {
    assert DistinctNodes(cs) ==> cs[k].node !in nodes;
    if cs[k].options != [] {
      var more := nodes + [cs[k].node];
      forall x | x in more
        ensures exists i :: 0 <= i < k + 1 && cs[i].node == x && cs[i].options != []
      {
        if x in nodes {
          var i :| 0 <= i < k && cs[i].node == x && cs[i].options != [];
        } else {
          assert cs[k].node == x;
        }
      }
    }
  }

  lemma {:induction false} ItemsForNext(
    cs: seq<Candidate>, k: nat, quantum: nat, items: seq<Item<Option<Choice>>>, slots: seq<nat>, base: Option<Choice>)
    requires quantum > 0 && k < |cs| && ItemsFor(cs, k, quantum, items, slots)
    ensures cs[k].options == [] ==> ItemsFor(cs, k + 1, quantum, items, slots + [|items|])
    ensures cs[k].options != [] && base == BaseOf(cs[k]) ==>
      ItemsFor(cs, k + 1, quantum, items + [ItemFor(cs[k].options, base, quantum)], slots + [|items| + 1])
  {
  }

  method BuildItems(cs: seq<Candidate>, forced: map<NodeIdx, Choice>, quantum: nat)
    returns (nodes: seq<NodeIdx>, items: seq<Item<Option<Choice>>>, ghost slots: seq<nat>)
    requires quantum > 0 && forced == ForcedMap(cs, |cs|)
    ensures WellFormed(items) && |nodes| == |items| && NodesFor(cs, |cs|, slots, nodes)
    ensures DistinctNodes(cs) ==> ItemsFor(cs, |cs|, quantum, items, slots) && Distinct(nodes)
  {
    nodes, items, slots := [], [], [0];
    for k := 0 to |cs|
      invariant WellFormed(items) && |nodes| == |items| && NodesFor(cs, k, slots, nodes)
      invariant DistinctNodes(cs) ==> ItemsFor(cs, k, quantum, items, slots) && Distinct(nodes)
    {
      NodesForNext(cs, k, slots, nodes);
      var base := Lookup(forced, cs[k].node);
      if DistinctNodes(cs) {
        ForcedLookup(cs, |cs|, k);
        ItemsForNext(cs, k, quantum, items, slots, base);
      }
      if cs[k].options == [] {
        slots := slots + [|nodes|];
      } else {
        slots := slots + [|nodes| + 1];
        nodes := nodes + [cs[k].node];
        items := items + [ItemFor(cs[k].options, base, quantum)];
      }
    }
  }

  lemma {:induction false} TraceStep(items: seq<Item<Option<Choice>>>, i: nat, cap: nat)
    requires WellFormed(items) && i < |items|
    ensures var k := Best(items, i + 1, cap, |items[i]|).1;
      Trace(items, i + 1, cap) == Trace(items, i, cap - items[i][k].cost) + [k]
  {
  }

  /** Walks the recorded picks from the last item down. */
  method Backtrack(
    nodes: seq<NodeIdx>, items: seq<Item<Option<Choice>>>, buckets: nat, back: seq<seq<int>>, best: nat)
    returns (selections: map<NodeIdx, Option<Choice>>, ghost picks: seq<nat>)
    requires WellFormed(items) && |nodes| == |items| == |back| && best <= buckets
    requires forall i :: 0 <= i < |items| ==> PicksAre(items, i + 1, buckets, back[i])
    ensures picks == Trace(items, |items|, best)
    ensures forall n :: n in selections ==> n in nodes
    ensures Distinct(nodes) ==> forall i :: 0 <= i < |items| ==>
      nodes[i] in selections && selections[nodes[i]] == items[i][picks[i]].option
  {
    hide Trace, Best, Opt;
    selections := map[];
    picks := Trace(items, |items|, best);
    var capacity: nat := best;
    var i := |items|;
    while i > 0
      invariant 0 <= i <= |items| && capacity <= buckets
      invariant picks[..i] == Trace(items, i, capacity)
      invariant forall n :: n in selections ==> n in nodes
      invariant Distinct(nodes) ==> forall j :: i <= j < |items| ==>
        nodes[j] in selections && selections[nodes[j]] == items[j][picks[j]].option
    {
      i := i - 1;
      assert PicksAre(items, i + 1, buckets, back[i]);
      TraceStep(items, i, capacity);
      var pick := back[i][capacity];
      if pick < 0 {
        assert false;
      } else {
        var choice := items[i][pick];
        assert picks[i] == picks[..i + 1][i] == pick;
        assert picks[..i] == picks[..i + 1][..i];
        selections := selections[nodes[i] := choice.option];
        capacity := capacity - choice.cost;
      }
    }
  }

  ghost function ChosenIn(cs: seq<Candidate>, p: Plan, n: nat): map<NodeIdx, Choice>
    requires n <= |cs| == |p|
  {
    if n == 0 then map[]
    else if p[n - 1].Some? then ChosenIn(cs, p, n - 1)[cs[n - 1].node := p[n - 1].value]
    else ChosenIn(cs, p, n - 1)
  }

  lemma {:induction false} ChosenInAt(cs: seq<Candidate>, p: Plan, n: nat)
    requires DistinctNodes(cs) && n <= |cs| == |p|
    ensures forall i :: 0 <= i < n && p[i].Some? ==>
      cs[i].node in ChosenIn(cs, p, n) && ChosenIn(cs, p, n)[cs[i].node] == p[i].value
    ensures forall i :: 0 <= i < |cs| && (i >= n || p[i].None?) ==> cs[i].node !in ChosenIn(cs, p, n)
    ensures forall x :: x in ChosenIn(cs, p, n) ==> exists i :: 0 <= i < |cs| && cs[i].node == x
  {
    if n > 0 {
      ChosenInAt(cs, p, n - 1);
    }
  }

  ghost function DroppedBy(cs: seq<Candidate>, p: Plan, n: nat): seq<NodeIdx>
    requires n <= |cs| == |p|
  {
    if n == 0 then [] else DroppedBy(cs, p, n - 1) + if p[n - 1].None? then [cs[n - 1].node] else []
  }

  ghost function DemotedBy(cs: seq<Candidate>, preferred: map<NodeIdx, Level>, p: Plan, n: nat)
    : seq<(NodeIdx, Level, Level)>
    requires n <= |cs| == |p|
  {
    if n == 0 then []
    else DemotedBy(cs, preferred, p, n - 1) + DemotionOf(cs[n - 1].node, preferred, p[n - 1])
  }

  function DemotionOf(node: NodeIdx, preferred: map<NodeIdx, Level>, o: Option<Choice>): seq<(NodeIdx, Level, Level)> {
    if o.Some? && node in preferred && preferred[node] != o.value.level
    then [(node, preferred[node], o.value.level)] else []
  }

  lemma {:induction false} DroppedByAre(cs: seq<Candidate>, p: Plan, n: nat, x: NodeIdx)
    requires n <= |cs| == |p|
    ensures x in DroppedBy(cs, p, n) <==> exists i :: 0 <= i < n && cs[i].node == x && p[i].None?
  {
    if n > 0 {
      DroppedByAre(cs, p, n - 1, x);
      if exists i :: 0 <= i < n && cs[i].node == x && p[i].None? {
        var i :| 0 <= i < n && cs[i].node == x && p[i].None?;
        assert i == n - 1 || x in DroppedBy(cs, p, n - 1);
      }
    }
  }

  lemma {:induction false} DemotedByAre(
    cs: seq<Candidate>, preferred: map<NodeIdx, Level>, p: Plan, n: nat, d: (NodeIdx, Level, Level))
    requires n <= |cs| == |p|
    ensures d in DemotedBy(cs, preferred, p, n) <==>
      exists i :: 0 <= i < n && Demotes(cs[i].node, preferred, p[i], d)
  {
    if n > 0 {
      DemotedByAre(cs, preferred, p, n - 1, d);
      assert Demotes(cs[n - 1].node, preferred, p[n - 1], d) <==> d in DemotionOf(cs[n - 1].node, preferred, p[n - 1]);
      if exists i :: 0 <= i < n && Demotes(cs[i].node, preferred, p[i], d) {
        var i :| 0 <= i < n && Demotes(cs[i].node, preferred, p[i], d);
        assert i == n - 1 || d in DemotedBy(cs, preferred, p, n - 1);
      }
    }
  }

  /** Turns the selections into the report, candidate by candidate. */
  method Assemble(
    cs: seq<Candidate>, forced: map<NodeIdx, Choice>, selections: map<NodeIdx, Option<Choice>>,
    preferred: map<NodeIdx, Level>, budget: nat)
    returns (alloc: Allocation, ghost plan: Plan)
    ensures |plan| == |cs| && alloc.budget == budget
    ensures forall i :: 0 <= i < |cs| ==> plan[i] == OptionFor(cs[i].node, forced, selections)
    ensures DistinctNodes(cs) ==> Reflects(cs, preferred, plan, alloc)
  {
    var chosen: map<NodeIdx, Choice>, tokens: nat, utility := map[], 0, 0.0;
    var dropped: seq<NodeIdx>, demoted: seq<(NodeIdx, Level, Level)> := [], [];
    plan := seq(|cs|, i requires 0 <= i < |cs| => OptionFor(cs[i].node, forced, selections));
    for k := 0 to |cs|
      invariant tokens == TokensTo(plan, k) && utility == UtilityTo(plan, k)
      invariant chosen == ChosenIn(cs, plan, k)
      invariant dropped == DroppedBy(cs, plan, k)
      invariant demoted == DemotedBy(cs, preferred, plan, k)
    {
      var node := cs[k].node;
      match OptionFor(node, forced, selections) {
        case None =>
          dropped := dropped + [node];
        case Some(o) =>
          tokens := tokens + o.cost;
          utility := utility + o.utility;
          chosen := chosen[node := o];
          if node in preferred && preferred[node] != o.level {
            demoted := demoted + [(node, preferred[node], o.level)];
          }
      }
    }
    alloc := Allocation(chosen, tokens, utility, budget,
                        Sorting.Sort(NodeLe, dropped), Sorting.Sort(DemotionLe, demoted), false);
    if DistinctNodes(cs) {
      AssembledReflects(cs, preferred, plan, alloc, dropped, demoted);
    }
  }

  lemma {:induction false} AssembledReflects(
    cs: seq<Candidate>, preferred: map<NodeIdx, Level>, p: Plan, alloc: Allocation,
    dropped: seq<NodeIdx>, demoted: seq<(NodeIdx, Level, Level)>)
    requires DistinctNodes(cs) && |p| == |cs| && !alloc.overflow
    requires alloc.chosen == ChosenIn(cs, p, |cs|)
    requires alloc.tokens == TokensTo(p, |p|) && alloc.utility == UtilityTo(p, |p|)
    requires dropped == DroppedBy(cs, p, |cs|) && demoted == DemotedBy(cs, preferred, p, |cs|)
    requires alloc.dropped == Sorting.Sort(NodeLe, dropped) && alloc.demoted == Sorting.Sort(DemotionLe, demoted)
    ensures Reflects(cs, preferred, p, alloc)
  {
    Sorting.SortMembers(NodeLe, dropped);
    Sorting.SortSorted(NodeLe, dropped);
    Sorting.SortPermutes(DemotionLe, demoted);
    Sorting.SortSorted(DemotionLe, demoted);
    ChosenInAt(cs, p, |cs|);
    forall x
      ensures x in alloc.dropped <==> exists i :: 0 <= i < |cs| && cs[i].node == x && p[i].None?
    {
      DroppedByAre(cs, p, |cs|, x);
    }
    forall d: (NodeIdx, Level, Level)
      ensures d in alloc.demoted <==> exists i :: 0 <= i < |cs| && Demotes(cs[i].node, preferred, p[i], d)
    {
      DemotedByAre(cs, preferred, p, |cs|, d);
      assert d in multiset(alloc.demoted) <==> d in multiset(demoted);
    }
  }

  function OptionFor(
    node: NodeIdx, forced: map<NodeIdx, Choice>, selections: map<NodeIdx, Option<Choice>>): Option<Choice>
  {
    if node in selections && selections[node].Some? then selections[node] else Lookup(forced, node)
  }

  /** The quantum in force: the caller's, or the narrowest that keeps the table small. */
  function QuantumIn(quantum: Option<nat>, free: nat): (q: nat)
    requires quantum.Some? ==> quantum.value > 0
    ensures q > 0
  {
    match quantum
    case Some(q) => q
    case None => DefaultQuantum(free)
  }

  /** What `solve` returns: nothing when there is nothing to spend, a greedy fill on overflow, else a best plan. */
  ghost predicate Answers(
    cs: seq<Candidate>, budget: nat, quantum: Option<nat>, preferred: map<NodeIdx, Level>, p: Plan, alloc: Allocation)
    requires quantum.Some? ==> quantum.value > 0
  {
    if budget == 0 || cs == [] then
      alloc == Allocation(map[], 0, 0.0, budget, seq(|cs|, i requires 0 <= i < |cs| => cs[i].node), [],
                          exists c :: c in cs && c.pinned)
    else if ReservedTo(cs, |cs|) > budget then SolvedOverflow(cs, budget, alloc)
    else DistinctNodes(cs) ==> Solved(cs, budget, QuantumIn(quantum, FreeBudget(cs, budget)), preferred, p, alloc)
  }

  method Solve(cs: seq<Candidate>, budget: nat, quantum: Option<nat>, preferred: map<NodeIdx, Level>)
    returns (alloc: Allocation, ghost plan: Plan)
    requires quantum.Some? ==> quantum.value > 0
    ensures budget == 0 ==> alloc.chosen == map[] && alloc.tokens == 0
    ensures Answers(cs, budget, quantum, preferred, plan, alloc)
  {
    hide Optimal, ItemsFor, Stands, NodesFor, RowIs, PicksAre, Trace, SolvedOverflow, BestPlan, Reflects, ForcedMap;
    plan := [];
    if budget == 0 || |cs| == 0 {
      alloc := Allocation(map[], 0, 0.0, budget, seq(|cs|, i requires 0 <= i < |cs| => cs[i].node), [],
                          exists c :: c in cs && c.pinned);
      return;
    }
    var forced, reserved := Reserve(cs);
    if reserved > budget {
      alloc := AdmitWhatFits(cs, forced, budget);
      return;
    }
    var free := budget - reserved;
    var q := QuantumIn(quantum, free);
    var buckets := Buckets(free, q);
    var nodes, items, slots := BuildItems(cs, forced, q);
    var dp, back := FillTable(items, buckets);
    var best := BestCapacity(items, buckets, dp);
    SmallestCapacityIsOptimal(items, buckets, best);
    var selections, picks := Backtrack(nodes, items, buckets, back, best);
    alloc, plan := Assemble(cs, forced, selections, preferred, budget);
    if DistinctNodes(cs) {
      PlanStands(cs, q, forced, nodes, items, slots, selections, picks, plan);
      OptimalStandsForBest(cs, q, buckets, items, slots, picks, plan);
    }
  }

  lemma {:induction false} PlanStandsAt(
    cs: seq<Candidate>, quantum: nat, forced: map<NodeIdx, Choice>, nodes: seq<NodeIdx>,
    items: seq<Item<Option<Choice>>>, slots: seq<nat>, selections: map<NodeIdx, Option<Choice>>,
    picks: seq<nat>, i: nat)
    requires quantum > 0 && DistinctNodes(cs) && forced == ForcedMap(cs, |cs|) && i < |cs|
    requires ItemsFor(cs, |cs|, quantum, items, slots) && IsSelection(items, |items|, picks)
    requires NodesFor(cs, |cs|, slots, nodes) && forall n :: n in selections ==> n in nodes
    requires cs[i].options != [] ==>
      cs[i].node in selections && selections[cs[i].node] == items[slots[i]][picks[slots[i]]].option
    ensures OptionFor(cs[i].node, forced, selections) ==
      if cs[i].options == [] then None else items[slots[i]][picks[slots[i]]].option
  {
    ForcedLookup(cs, |cs|, i);
    if cs[i].options == [] {
      assert cs[i].node !in nodes;
    } else {
      ItemSound(cs[i], quantum, picks[slots[i]]);
    }
  }

  lemma {:induction false} PlanStands(
    cs: seq<Candidate>, quantum: nat, forced: map<NodeIdx, Choice>, nodes: seq<NodeIdx>,
    items: seq<Item<Option<Choice>>>, slots: seq<nat>, selections: map<NodeIdx, Option<Choice>>,
    picks: seq<nat>, plan: Plan)
    requires quantum > 0 && DistinctNodes(cs) && forced == ForcedMap(cs, |cs|)
    requires ItemsFor(cs, |cs|, quantum, items, slots) && IsSelection(items, |items|, picks)
    requires NodesFor(cs, |cs|, slots, nodes) && forall n :: n in selections ==> n in nodes
    requires forall i :: 0 <= i < |items| ==>
      nodes[i] in selections && selections[nodes[i]] == items[i][picks[i]].option
    requires |plan| == |cs| && forall i :: 0 <= i < |cs| ==> plan[i] == OptionFor(cs[i].node, forced, selections)
    ensures Stands(cs, items, slots, picks, plan)
  {
    forall i {:trigger plan[i]} | 0 <= i < |cs|
      ensures if cs[i].options == [] then plan[i] == None
        else slots[i] < |items| && plan[i] == items[slots[i]][picks[slots[i]]].option
    {
      PlanStandsAt(cs, quantum, forced, nodes, items, slots, selections, picks, i);
    }
  }

  // ---- what a best plan guarantees ----------------------------------------

  /** Real tokens are the reservation plus the extra cost, which the quanta bound from above. */
  lemma {:induction false} TokensBound(cs: seq<Candidate>, p: Plan, quantum: nat, n: nat)
    requires Allowed(cs, p) && quantum > 0 && n <= |cs|
    ensures TokensTo(p, n) == ReservedTo(cs, n) + ExtraTo(cs, p, n)
    ensures ExtraTo(cs, p, n) <= QuantaTo(cs, p, quantum, n) * quantum
    ensures QuantaTo(cs, p, quantum, n) * quantum <= ExtraTo(cs, p, n) + PaidTo(cs, p, n) * (quantum - 1)
  {
    if n > 0 {
      TokensBound(cs, p, quantum, n - 1);
      assert AllowedFor(cs[n - 1], p[n - 1]);
      TokensBoundStep(cs[n - 1], p[n - 1]);
      RoundingStep(
        ExtraTo(cs, p, n - 1), QuantaTo(cs, p, quantum, n - 1), PaidTo(cs, p, n - 1),
        Extra(cs[n - 1], p[n - 1]), quantum);
    }
  }

  /** Rounding one more cost up to whole quanta adds less than one quantum, and nothing to a free one. */
  lemma {:induction false} RoundingStep(extra: nat, quanta: nat, paid: nat, e: nat, quantum: nat)
    requires quantum > 0
    requires extra <= quanta * quantum <= extra + paid * (quantum - 1)
    ensures var more, paying := quanta + CeilDiv(e, quantum), paid + if e > 0 then 1 else 0;
      extra + e <= more * quantum <= extra + e + paying * (quantum - 1)
  {
    Distribute(quanta, CeilDiv(e, quantum), quantum);
    Distribute(paid, if e > 0 then 1 else 0, quantum - 1);
  }

  lemma {:induction false} TokensBoundStep(c: Candidate, o: Option<Choice>)
    requires AllowedFor(c, o)
    ensures (if o.Some? then o.value.cost else 0) == ReservedFor(c) + Extra(c, o)
  {
  }

  /**
   When the pinned minimum fits, a pinned candidate is admitted at some level exactly when
   it has one and there is a budget at all; without options it is dropped.
   */
  lemma {:induction false} PinnedAdmitted(
    cs: seq<Candidate>, budget: nat, quantum: Option<nat>, preferred: map<NodeIdx, Level>, p: Plan, alloc: Allocation,
    i: nat)
    requires (quantum.Some? ==> quantum.value > 0) && Answers(cs, budget, quantum, preferred, p, alloc)
    requires DistinctNodes(cs) && ReservedTo(cs, |cs|) <= budget && i < |cs| && cs[i].pinned
    ensures cs[i].node in alloc.chosen <==> budget > 0 && cs[i].options != []
    ensures cs[i].node in alloc.chosen ==>
      alloc.chosen[cs[i].node] in cs[i].options && Cheapest(cs[i].options).value.cost <= alloc.chosen[cs[i].node].cost
  {
    if budget > 0 {
      assert AllowedFor(cs[i], p[i]);
    }
  }

  /** The budget holds when a whole quantum is free, and is otherwise missed by less than one quantum. */
  lemma {:induction false} TokensWithin(
    cs: seq<Candidate>, budget: nat, quantum: nat, preferred: map<NodeIdx, Level>, p: Plan, alloc: Allocation)
    requires quantum > 0 && ReservedTo(cs, |cs|) <= budget && Solved(cs, budget, quantum, preferred, p, alloc)
    ensures quantum <= FreeBudget(cs, budget) ==> alloc.tokens <= budget
    ensures alloc.tokens <= ReservedTo(cs, |cs|) + quantum || alloc.tokens <= budget
  {
    var buckets := Buckets(FreeBudget(cs, budget), quantum);
    TokensBound(cs, p, quantum, |cs|);
    A.MulMonotone(QuantaTo(cs, p, quantum, |cs|), buckets, quantum);
  }

  /** An adversarial pair: a pinned node that reserves `reserved`, and one good option of one quantum. */
  function TightPair(reserved: nat, quantum: nat): seq<Candidate> {
    [Candidate(0, [Choice(L2, reserved, 0.0)], true), Candidate(1, [Choice(L2, quantum, 1.0)], false)]
  }

  lemma {:induction false} PairSums(cs: seq<Candidate>, p: Plan, quantum: nat)
    requires |cs| == 2 && Allowed(cs, p) && quantum > 0
    ensures QuantaTo(cs, p, quantum, 2) == CeilDiv(Extra(cs[0], p[0]), quantum) + CeilDiv(Extra(cs[1], p[1]), quantum)
    ensures UtilityTo(p, 2) == (if p[0].Some? then p[0].value.utility else 0.0)
                             + (if p[1].Some? then p[1].value.utility else 0.0)
    ensures TokensTo(p, 2) == (if p[0].Some? then p[0].value.cost else 0) + (if p[1].Some? then p[1].value.cost else 0)
  {
    assert QuantaTo(cs, p, quantum, 1) == CeilDiv(Extra(cs[0], p[0]), quantum);
    assert UtilityTo(p, 1) == if p[0].Some? then p[0].value.utility else 0.0;
    assert TokensTo(p, 1) == if p[0].Some? then p[0].value.cost else 0;
  }

  /** The only plan that fits a single bucket and reaches utility one takes both options. */
  lemma {:induction false} TightPairPlan(reserved: nat, quantum: nat, q: Plan)
    requires 0 < quantum && Fits(TightPair(reserved, quantum), q, quantum, 1)
    ensures |q| == 2 && q[0] == Some(Choice(L2, reserved, 0.0)) && q[1] in {None, Some(Choice(L2, quantum, 1.0))}
    ensures UtilityTo(q, 2) == (if q[1].Some? then 1.0 else 0.0)
    ensures TokensTo(q, 2) == reserved + if q[1].Some? then quantum else 0
  {
    hide Fits, QuantaTo, UtilityTo, TokensTo;
    var cs := TightPair(reserved, quantum);
    FitsAllowed(cs, q, quantum, 1);
    assert AllowedFor(cs[0], q[0]) && AllowedFor(cs[1], q[1]);
    assert Cheapest(cs[0].options) == Some(cs[0].options[0]);
    PairSums(cs, q, quantum);
  }

  lemma {:induction false} FitsAllowed(cs: seq<Candidate>, q: Plan, quantum: nat, buckets: nat)
    requires quantum > 0 && Fits(cs, q, quantum, buckets)
    ensures Allowed(cs, q)
  {
  }

  lemma {:induction false} TightPairFits(reserved: nat, quantum: nat) returns (p: Plan)
    requires 0 < quantum
    ensures Fits(TightPair(reserved, quantum), p, quantum, 1) && |p| == 2 && p[1].Some?
    ensures QuantaTo(TightPair(reserved, quantum), p, quantum, 2) == 1
  {
    var cs := TightPair(reserved, quantum);
    p := [Some(cs[0].options[0]), Some(cs[1].options[0])];
    assert Cheapest(cs[0].options) == Some(cs[0].options[0]);
    assert AllowedFor(cs[0], p[0]) && AllowedFor(cs[1], p[1]);
    PairSums(cs, p, quantum);
    CeilDivIsLeast(quantum, quantum, 1);
  }

  lemma {:induction false} TightPairReserves(reserved: nat, quantum: nat)
    ensures var cs := TightPair(reserved, quantum); DistinctNodes(cs) && ReservedTo(cs, |cs|) == reserved
  {
    var cs := TightPair(reserved, quantum);
    assert Cheapest(cs[0].options) == Some(cs[0].options[0]);
    assert ReservedTo(cs, 2) == ReservedTo(cs, 1) + ReservedFor(cs[1]);
    assert ReservedTo(cs, 1) == ReservedTo(cs, 0) + ReservedFor(cs[0]);
  }

  /** On that pair every answer costs the reserve and a whole quantum. */
  lemma {:induction false} TightPairOverruns(reserved: nat, budget: nat, quantum: nat)
    returns (p: Plan, alloc: Allocation)
    requires 0 < quantum && 0 < budget && reserved <= budget < reserved + quantum
    ensures Answers(TightPair(reserved, quantum), budget, Some(quantum), map[], p, alloc)
    ensures forall q, other :: Answers(TightPair(reserved, quantum), budget, Some(quantum), map[], q, other) ==>
              other.tokens == reserved + quantum
  {
    hide Fits, QuantaTo, UtilityTo, TokensTo, ReservedTo, DistinctNodes;
    var cs := TightPair(reserved, quantum);
    TightPairReserves(reserved, quantum);
    p := TightPairFits(reserved, quantum);
    TightPairPlan(reserved, quantum, p);
    forall q | Fits(cs, q, quantum, 1)
      ensures UtilityTo(q, |q|) <= 1.0
      ensures UtilityTo(q, |q|) == 1.0 ==> |q| == 2 && q == p
    {
      TightPairPlan(reserved, quantum, q);
    }
    alloc := Allocation(map[0 := p[0].value, 1 := p[1].value], reserved + quantum, 1.0, budget, [], [], false);
    assert Reflects(cs, map[], p, alloc) by {
      assert cs[0].node == 0 && cs[1].node == 1;
    }
    assert Buckets(FreeBudget(cs, budget), quantum) == 1;
    forall q, other | Answers(cs, budget, Some(quantum), map[], q, other)
      ensures other.tokens == reserved + quantum
    {
      assert Fits(cs, q, quantum, 1) && UtilityTo(p, |p|) <= UtilityTo(q, |q|);
      TightPairPlan(reserved, quantum, q);
    }
  }

  /** The overflow path stays within the budget. */
  lemma {:induction false} GreedyWithin(order: seq<(NodeIdx, Choice)>, n: nat, budget: nat)
    requires n <= |order|
    ensures Greedy(order, n, budget).1 <= budget
  {
    if n > 0 {
      GreedyWithin(order, n - 1, budget);
    }
  }

  lemma {:induction false} AnswersWithin(
    cs: seq<Candidate>, budget: nat, quantum: nat, preferred: map<NodeIdx, Level>, p: Plan, alloc: Allocation)
    requires quantum > 0 && DistinctNodes(cs) && Answers(cs, budget, Some(quantum), preferred, p, alloc)
    requires budget == 0 || budget < ReservedTo(cs, |cs|) || ReservedTo(cs, |cs|) + quantum <= budget
    ensures alloc.tokens <= budget
  {
    hide ReservedTo, BestPlan, Reflects, Greedy, Lists;
    if budget > 0 && cs != [] {
      if ReservedTo(cs, |cs|) > budget {
        var order :| Lists(order, ForcedMap(cs, |cs|)) && Sorting.Sorted(UtilityFirst, order)
          && alloc.tokens == Greedy(order, |order|, budget).1;
        GreedyWithin(order, |order|, budget);
      } else {
        TokensWithin(cs, budget, quantum, preferred, p, alloc);
      }
    }
  }

  /**
   `B_attention` is a hard limit except when there is something to spend, the pinned
   minimum fits and less than one quantum is free beyond it: there the table still gets
   one bucket, and some candidate list overruns the budget.
   */
  lemma {:induction false} BudgetIsHardIff(budget: nat, reserved: nat, quantum: nat)
    requires quantum > 0
    ensures (forall cs, preferred, p, alloc ::
               (DistinctNodes(cs) && ReservedTo(cs, |cs|) == reserved
                && Answers(cs, budget, Some(quantum), preferred, p, alloc)) ==> alloc.tokens <= budget)
            <==> budget == 0 || budget < reserved || reserved + quantum <= budget
  {
    hide ReservedTo, Answers, DistinctNodes;
    if budget == 0 || budget < reserved || reserved + quantum <= budget {
      forall cs, preferred, p, alloc |
        DistinctNodes(cs) && ReservedTo(cs, |cs|) == reserved
        && Answers(cs, budget, Some(quantum), preferred, p, alloc)
        ensures alloc.tokens <= budget
      {
        AnswersWithin(cs, budget, quantum, preferred, p, alloc);
      }
    } else {
      var p, alloc := TightPairOverruns(reserved, budget, quantum);
      TightPairReserves(reserved, quantum);
      assert alloc.tokens > budget;
    }
  }

  /** With the quantum the planner uses, the limit is hard unless the pinned minimum takes the whole budget. */
  lemma {:induction false} DefaultBudgetIsHard(
    cs: seq<Candidate>, budget: nat, preferred: map<NodeIdx, Level>, p: Plan, alloc: Allocation)
    requires ReservedTo(cs, |cs|) <= budget
    requires Solved(cs, budget, DefaultQuantum(FreeBudget(cs, budget)), preferred, p, alloc)
    ensures ReservedTo(cs, |cs|) < budget ==> alloc.tokens <= budget
    ensures alloc.tokens <= budget + 1
  {
    TokensWithin(cs, budget, DefaultQuantum(FreeBudget(cs, budget)), preferred, p, alloc);
  }

  /**
   What rounding costs: the answer is at least as good as every allowed plan whose real
   extra cost leaves `quantum - 1` tokens of slack for each candidate it pays for.
   */
  lemma {:induction false} NearOptimal(
    cs: seq<Candidate>, budget: nat, quantum: nat, preferred: map<NodeIdx, Level>, p: Plan, alloc: Allocation, q: Plan)
    requires quantum > 0 && ReservedTo(cs, |cs|) <= budget && Solved(cs, budget, quantum, preferred, p, alloc)
    requires Allowed(cs, q)
    requires ExtraTo(cs, q, |cs|) + PaidTo(cs, q, |cs|) * (quantum - 1)
          <= Buckets(FreeBudget(cs, budget), quantum) * quantum
    ensures UtilityTo(q, |q|) <= alloc.utility
  {
    TokensBound(cs, q, quantum, |cs|);
    var used, buckets := QuantaTo(cs, q, quantum, |cs|), Buckets(FreeBudget(cs, budget), quantum);
    A.MulMonotone(buckets + 1, used, quantum);
    Distribute(buckets, 1, quantum);
  }

  /** With token resolution no plan that fits the budget is worth more... */
  lemma {:induction false} BestAtTokenResolution(
    cs: seq<Candidate>, budget: nat, preferred: map<NodeIdx, Level>, p: Plan, alloc: Allocation, q: Plan)
    requires ReservedTo(cs, |cs|) <= budget && Solved(cs, budget, 1, preferred, p, alloc)
    requires Allowed(cs, q) && TokensTo(q, |q|) <= budget
    ensures UtilityTo(q, |q|) <= alloc.utility
  {
    TokensBound(cs, q, 1, |cs|);
  }

  /** ...and beyond the pinned minimum the answer is the true optimum at real costs. */
  lemma {:induction false} ExactAtTokenResolution(
    cs: seq<Candidate>, budget: nat, preferred: map<NodeIdx, Level>, p: Plan, alloc: Allocation, q: Plan)
    requires ReservedTo(cs, |cs|) < budget && Solved(cs, budget, 1, preferred, p, alloc)
    requires Allowed(cs, q) && TokensTo(q, |q|) <= budget
    ensures alloc.tokens <= budget && UtilityTo(q, |q|) <= alloc.utility
    ensures UtilityTo(q, |q|) == alloc.utility ==> alloc.tokens <= TokensTo(q, |q|)
  {
    TokensWithin(cs, budget, 1, preferred, p, alloc);
    TokensBound(cs, q, 1, |cs|);
    TokensBound(cs, p, 1, |cs|);
  }
}
