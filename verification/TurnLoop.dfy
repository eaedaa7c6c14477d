/**
 One turn (`ask_with_consolidation`, src/runtime.rs): plan, ask, consolidate, check.

 The planner, the prompt, the reasoner and the consolidation hook are parameters; the
 reasoner and the hook may answer differently at every call.  `calls` is the record of
 what happened, and the theorems about a turn are statements about that record.
 */
module TurnLoop {
  import opened Wrappers
  import opened Nodes
  import opened Escalation
  import G = GraphSpec
  import H = GraphHistory
  import I = GraphIndex
  import opened MemoryGraphClass

  // ---- a turn -------------------------------------------------------------

  const UNSERVED_ESCALATION := "I don't have that in the active context."

  datatype Entry = Entry(node: NodeIdx, id: NodeId, rendered: string)

  /** A plan, and the version of the graph it was made from. */
  datatype Context = Context(entries: seq<Entry>, version: nat)

  datatype Env = Env(
    plan: (G.Graph, seq<NodeIdx>, set<NodeIdx>) -> seq<Entry>, promptFor: seq<Entry> -> string,
    extend: (string, seq<Entry>) -> string, complete: (nat, string) -> string, hook: (nat, G.Graph) -> G.Graph,
    infer: (seq<Entry>, set<NodeIdx>) -> Option<NodeIdx>, autoEscalate: bool, maxEscalations: nat)

  /** One call to the model, and the graph before and after it. */
  datatype Call = Call(
    snapshot: G.Graph, pin: seq<NodeIdx>, forced: set<NodeIdx>, context: Context, prompt: string, text: string,
    after: G.Graph, discarded: bool)

  datatype Answer = Answer(text: string, context: Context, escalations: nat, replanned: bool, refused: bool)

  const DRAIN_LIMIT := 32

  /** A hook works through the graph's own operations. */
  ghost predicate KeepsShape(hook: (nat, G.Graph) -> G.Graph) {
    forall n: nat, g: G.Graph :: G.Shape(g) ==> G.Shape(hook(n, g))
  }

  /** `consistency_violation`: something in the plan was invalidated since its snapshot. */
  predicate Violates(after: G.Graph, context: Context) {
    exists e :: e in context.entries && exists k: nat ::
      k < |after.log| && after.log[k].0 >= context.version && e.node in after.log[k].1
  }

  /** A call whose plan was falsified while the model was thinking. */
  predicate Falsified(c: Call) {
    Violates(c.after, c.context)
  }

  /** The one violation of a turn that its single retry is spent on. */
  predicate FirstFalsified(calls: seq<Call>, k: nat)
    requires k < |calls|
  {
    Falsified(calls[k]) && forall j: nat :: j < k ==> !Falsified(calls[j])
  }

  /** The node an answer asks for, by name or by inference. */
  function Requested(env: Env, c: Call): Option<NodeIdx> {
    match ParseEscalation(c.text)
    case Some(id) => if id in c.after.byId then Some(c.after.byId[id]) else None
    case None => if env.autoEscalate then env.infer(c.context.entries, c.forced) else None
  }

  /** What one call does, given its number. */
  ghost predicate IsCall(env: Env, n: nat, c: Call) {
    && c.context == Context(env.plan(c.snapshot, c.pin, c.forced), c.snapshot.version)
    && c.text == env.complete(n, c.prompt) && c.after == env.hook(n, c.snapshot)
  }

  /** The prompt: afresh at the start and after a discarded answer, an extension of the last one otherwise. */
  ghost predicate PromptFollows(env: Env, before: seq<Call>, c: Call) {
    c.prompt ==
    if before == [] || before[|before| - 1].discarded then env.promptFor(c.context.entries)
    else env.extend(before[|before| - 1].prompt, c.context.entries)
  }

  function Discards(calls: seq<Call>): nat {
    if calls == [] then 0 else Discards(calls[..|calls| - 1]) + if calls[|calls| - 1].discarded then 1 else 0
  }

  /** An answer that is kept asks for a node, and an escalation is left to serve it. */
  ghost predicate Escalates(env: Env, calls: seq<Call>)
    requires calls != []
  {
    Requested(env, calls[|calls| - 1]).Some? && |calls| - 1 - Discards(calls) < env.maxEscalations
  }

  /** Why a turn goes on: a discarded answer, or a node to escalate, which is then pinned and forced. */
  ghost predicate GoesOn(env: Env, before: seq<Call>, next: Call)
    requires before != []
  {
    var c := before[|before| - 1];
    && G.Shape(c.after) && next.snapshot == G.DrainPending(c.after, DRAIN_LIMIT)
    && if c.discarded then next.pin == c.pin && next.forced == c.forced
       else
         && Escalates(env, before) && var i := Requested(env, c).value;
         next.pin == (if i in c.pin then c.pin else c.pin + [i]) && next.forced == c.forced + {i}
  }

  ghost predicate Chained(env: Env, calls: seq<Call>, k: nat)
    requires k < |calls|
  {
    && IsCall(env, k, calls[k]) && PromptFollows(env, calls[..k], calls[k])
    && (calls[k].discarded <==> FirstFalsified(calls, k))
    && if k == 0 then calls[0].pin == [] && calls[0].forced == {} else GoesOn(env, calls[..k], calls[k])
  }

  /** A record of calls in which every step follows from the last. */
  ghost predicate IsTurn(env: Env, calls: seq<Call>) {
    forall k: nat :: k < |calls| ==> Chained(env, calls, k)
  }

  /** The last answer is kept, and asks for nothing that can still be served. */
  ghost predicate Finished(env: Env, calls: seq<Call>) {
    calls != [] && !calls[|calls| - 1].discarded && !Escalates(env, calls)
  }

  lemma {:induction false} TurnGrows(env: Env, calls: seq<Call>, c: Call)
    requires IsTurn(env, calls) && IsCall(env, |calls|, c) && PromptFollows(env, calls, c)
    requires if calls == [] then c.pin == [] && c.forced == {} else GoesOn(env, calls, c)
    requires c.discarded <==> Falsified(c) && forall j: nat :: j < |calls| ==> !Falsified(calls[j])
    ensures IsTurn(env, calls + [c])
  {
    hide IsCall, PromptFollows, GoesOn, Falsified;
    var all := calls + [c];
    forall k: nat | k < |all| ensures Chained(env, all, k) {
      if k < |calls| {
        assert Chained(env, calls, k);
        assert all[..k] == calls[..k];
        assert FirstFalsified(all, k) <==> FirstFalsified(calls, k);
      } else {
        assert all[..k] == calls;
      }
    }
  }

  lemma {:induction false} DiscardsNext(calls: seq<Call>, c: Call)
    ensures Discards(calls + [c]) == Discards(calls) + if c.discarded then 1 else 0
  {
    assert (calls + [c])[..|calls|] == calls;
  }

  // ---- the program --------------------------------------------------------

  method ReadGraph(graph: MemoryGraph) returns (g: G.Graph)
    ensures g == graph.Value()
  {
    g := G.Graph(
      graph.nodes, graph.byId, graph.outEdges, graph.inEdges, graph.keyIndex, graph.liveIndex, graph.maxCascade,
      graph.maxDepth, graph.version, graph.log, graph.pending);
  }

  /** The hook runs while the model thinks. */
  method Consolidate(graph: MemoryGraph, env: Env, n: nat)
    modifies graph
    ensures graph.Value() == env.hook(n, old(graph.Value()))
  {
    var before := ReadGraph(graph);
    var g := env.hook(n, before);
    graph.nodes, graph.byId, graph.outEdges, graph.inEdges := g.nodes, g.byId, g.outEdges, g.inEdges;
    graph.keyIndex, graph.liveIndex := g.byKey, g.liveByKey;
    graph.maxCascade, graph.maxDepth, graph.version := g.maxCascade, g.maxDepth, g.version;
    graph.log, graph.pending := g.log, g.pending;
  }

  /** `consistency_violation`, over the set of touched nodes. */
  method Check(graph: MemoryGraph, context: Context) returns (violated: bool)
    ensures violated == Violates(graph.Value(), context)
  {
    var touched := graph.InvalidatedSince(context.version);
    violated := exists e :: e in context.entries && e.node in touched;
  }

  /** One round: plan on the drained graph, ask, consolidate. */
  method Round(graph: MemoryGraph, env: Env, n: nat, pin: seq<NodeIdx>, forced: set<NodeIdx>, previous: Option<string>)
    returns (c: Call)
    requires G.Shape(graph.Value()) && KeepsShape(env.hook)
    modifies graph
    ensures IsRound(env, n, old(graph.Value()), pin, forced, previous, c) && c.after == graph.Value()
  {
    hide G.Shape, G.DrainPending;
    DrainedShape(graph.Value());
    var marked := graph.DrainPending(DRAIN_LIMIT);
    var snapshot := ReadGraph(graph);
    var context := Context(env.plan(snapshot, pin, forced), snapshot.version);
    var prompt := match previous
      case Some(prev) => env.extend(prev, context.entries)
      case None => env.promptFor(context.entries);
    var text := env.complete(n, prompt);
    Consolidate(graph, env, n);
    var after := ReadGraph(graph);
    c := Call(snapshot, pin, forced, context, prompt, text, after, false);
  }

  lemma {:induction false} DrainedShape(g: G.Graph)
    requires G.Shape(g)
    ensures G.Shape(G.DrainPending(g, DRAIN_LIMIT))
  {
    hide G.Pops, I.SameFaces;
    I.PopsFaces(g, if DRAIN_LIMIT < |g.pending| then DRAIN_LIMIT else |g.pending|);
  }

  /** What the loop knows before a round. */
  ghost predicate Turning(
    env: Env, calls: seq<Call>, g: G.Graph, pin: seq<NodeIdx>, forced: set<NodeIdx>, previous: Option<string>,
    escalations: nat, retries: nat)
  {
    && IsTurn(env, calls) && G.Shape(g)
    && escalations <= env.maxEscalations && retries <= 1 && retries == Discards(calls)
    && |calls| == escalations + retries
    && (retries == 0 <==> forall j: nat :: j < |calls| ==> !Falsified(calls[j]))
    && (calls == [] ==> pin == [] && forced == {} && previous == None)
    && (calls != [] ==>
          && var c := calls[|calls| - 1];
          && c.after == g && previous == (if c.discarded then None else Some(c.prompt))
          && if c.discarded then pin == c.pin && forced == c.forced
             else
               && Escalates(env, calls) && var i := Requested(env, c).value;
               pin == (if i in c.pin then c.pin else c.pin + [i]) && forced == c.forced + {i})
  }

  /** A round made from where the loop stands. */
  ghost predicate IsRound(
    env: Env, n: nat, g: G.Graph, pin: seq<NodeIdx>, forced: set<NodeIdx>, previous: Option<string>, c: Call)
  {
    && IsCall(env, n, c) && !c.discarded && c.pin == pin && c.forced == forced
    && G.Shape(g) && c.snapshot == G.DrainPending(g, DRAIN_LIMIT) && G.Shape(c.after)
    && c.prompt == if previous.Some? then env.extend(previous.value, c.context.entries)
                   else env.promptFor(c.context.entries)
  }

  lemma {:induction false} RoundFollows(
    env: Env, calls: seq<Call>, g: G.Graph, pin: seq<NodeIdx>, forced: set<NodeIdx>, previous: Option<string>,
    escalations: nat, retries: nat, c: Call, discarded: bool)
    requires Turning(env, calls, g, pin, forced, previous, escalations, retries)
    requires IsRound(env, |calls|, g, pin, forced, previous, c) && (discarded <==> Falsified(c) && retries == 0)
    ensures IsTurn(env, calls + [c.(discarded := discarded)])
    ensures Discards(calls + [c.(discarded := discarded)]) == retries + if discarded then 1 else 0
    ensures |calls| == escalations + retries && escalations <= env.maxEscalations
  {
    hide IsTurn, G.Shape, G.DrainPending, Violates, Requested;
    TurnGrows(env, calls, c.(discarded := discarded));
    DiscardsNext(calls, c.(discarded := discarded));
  }

  /** The answer is discarded and the turn starts over. */
  lemma {:induction false} TurnDiscards(
    env: Env, calls: seq<Call>, g: G.Graph, pin: seq<NodeIdx>, forced: set<NodeIdx>, previous: Option<string>,
    escalations: nat, retries: nat, c: Call)
    requires Turning(env, calls, g, pin, forced, previous, escalations, retries)
    requires IsRound(env, |calls|, g, pin, forced, previous, c) && Falsified(c) && retries < 1
    ensures Turning(env, calls + [c.(discarded := true)], c.after, pin, forced, None, escalations, retries + 1)
  {
    hide IsTurn, G.Shape, G.DrainPending, Violates, Requested, Discards, IsCall;
    RoundFollows(env, calls, g, pin, forced, previous, escalations, retries, c, true);
    assert (calls + [c.(discarded := true)])[|calls|].discarded;
  }

  /** The answer asked for more, and gets it. */
  lemma {:induction false} TurnEscalates(
    env: Env, calls: seq<Call>, g: G.Graph, pin: seq<NodeIdx>, forced: set<NodeIdx>, previous: Option<string>,
    escalations: nat, retries: nat, c: Call, i: NodeIdx)
    requires Turning(env, calls, g, pin, forced, previous, escalations, retries)
    requires IsRound(env, |calls|, g, pin, forced, previous, c) && (Falsified(c) ==> retries == 1)
    requires Requested(env, c) == Some(i) && escalations < env.maxEscalations
    ensures Turning(env, calls + [c], c.after, if i in pin then pin else pin + [i], forced + {i}, Some(c.prompt),
                    escalations + 1, retries)
  {
    hide IsTurn, G.Shape, G.DrainPending, Falsified, Requested, Discards, IsCall;
    RoundFollows(env, calls, g, pin, forced, previous, escalations, retries, c, false);
    assert c.(discarded := false) == c;
    TurnRetries(env, calls, g, pin, forced, previous, escalations, retries);
    assert forall j: nat :: j < |calls| ==> (calls + [c])[j] == calls[j];
  }

  lemma {:induction false} TurnRetries(
    env: Env, calls: seq<Call>, g: G.Graph, pin: seq<NodeIdx>, forced: set<NodeIdx>, previous: Option<string>,
    escalations: nat, retries: nat)
    requires Turning(env, calls, g, pin, forced, previous, escalations, retries)
    ensures retries <= 1 && retries == Discards(calls) && |calls| == escalations + retries
    ensures escalations <= env.maxEscalations && G.Shape(g)
  {
    hide IsTurn, G.Shape, G.DrainPending, Violates, Requested, Discards;
  }

  /** The turn itself. */
  method Ask(graph: MemoryGraph, env: Env) returns (a: Answer, ghost calls: seq<Call>)
    requires G.Shape(graph.Value()) && KeepsShape(env.hook)
    modifies graph
    ensures IsTurn(env, calls) && Finished(env, calls) && |calls| <= env.maxEscalations + 2
    ensures calls[0].snapshot == G.DrainPending(old(graph.Value()), DRAIN_LIMIT)
    ensures |calls| == 1 + a.escalations + Discards(calls) && a.escalations <= env.maxEscalations
    ensures Discards(calls) <= 1 && a.replanned == (Discards(calls) == 1)
    ensures ParseEscalation(a.text).None?
    ensures var last := calls[|calls| - 1];
            && !last.discarded && a.context == last.context && graph.Value() == last.after
            && a.refused == ParseEscalation(last.text).Some?
            && a.text == (if a.refused then UNSERVED_ESCALATION else last.text)
  {
    hide G.Shape, G.DrainPending, IsTurn, IsCall, Violates, Requested, ParseEscalation, KeepsShape, Turning, Discards;
    var pin: seq<NodeIdx>, forced: set<NodeIdx> := [], {};
    var previous: Option<string> := None;
    var escalations, retries, n := 0, 0, 0;
    calls := [];
    NothingYet(env, graph.Value());
    while true
      invariant Turning(env, calls, graph.Value(), pin, forced, previous, escalations, retries) && n == |calls|
      invariant calls == [] ==> graph.Value() == old(graph.Value())
      invariant calls != [] ==> calls[0].snapshot == G.DrainPending(old(graph.Value()), DRAIN_LIMIT)
      decreases env.maxEscalations - escalations + 1 - retries
    {
      ghost var g := graph.Value();
      TurnRetries(env, calls, g, pin, forced, previous, escalations, retries);
      var c := Round(graph, env, n, pin, forced, previous);
      n := n + 1;
      var violated := Check(graph, c.context);
      if violated && retries < 1 {
        TurnDiscards(env, calls, g, pin, forced, previous, escalations, retries, c);
        calls := calls + [c.(discarded := true)];
        previous := None;
        retries := retries + 1;
        continue;
      }
      var requested := Request(env, c);
      if requested.Some? && escalations < env.maxEscalations {
        TurnEscalates(env, calls, g, pin, forced, previous, escalations, retries, c, requested.value);
        calls := calls + [c];
        escalations := escalations + 1;
        forced := forced + {requested.value};
        if requested.value !in pin {
          pin := pin + [requested.value];
        }
        previous := Some(c.prompt);
        continue;
      }
      RoundFollows(env, calls, g, pin, forced, previous, escalations, retries, c, false);
      assert c.(discarded := false) == c;
      calls := calls + [c];
      if ParseEscalation(c.text).Some? {
        UnservedIsNoToken();
        a := Answer(UNSERVED_ESCALATION, c.context, escalations, retries == 1, true);
        return;
      }
      a := Answer(c.text, c.context, escalations, retries == 1, false);
      return;
    }
  }

  lemma {:induction false} UnservedIsNoToken()
    ensures ParseEscalation(UNSERVED_ESCALATION).None?
  {
    NoHashNoToken(UNSERVED_ESCALATION);
  }

  lemma {:induction false} NothingYet(env: Env, g: G.Graph)
    requires G.Shape(g)
    ensures Turning(env, [], g, [], {}, None, 0, 0)
  {
  }

  method Request(env: Env, c: Call) returns (requested: Option<NodeIdx>)
    ensures requested == Requested(env, c)
  {
    requested := match ParseEscalation(c.text)
      case Some(id) => if id in c.after.byId then Some(c.after.byId[id]) else None
      case None => if env.autoEscalate then env.infer(c.context.entries, c.forced) else None;
  }

  // ---- what a turn promises -----------------------------------------------

  /** A hook that only adds to the log, each entry under the version it was made at. */
  ghost predicate Orderly(hook: (nat, G.Graph) -> G.Graph) {
    forall n: nat, g: G.Graph :: G.Shape(g) && H.LogInv(g) ==> H.LogGrows(g, hook(n, g))
  }

  /** The check sees exactly what was marked while the model was thinking. */
  lemma {:induction false} CheckIsExact(env: Env, n: nat, c: Call)
    requires IsCall(env, n, c) && G.Shape(c.snapshot) && H.LogInv(c.snapshot) && Orderly(env.hook)
    ensures Violates(c.after, c.context) <==>
            exists e :: e in c.context.entries && e.node in H.MarksFrom(c.after, |c.snapshot.log|)
  {
    hide G.Shape;
    H.SnapshotSeesLaterMarks(c.snapshot, c.after);
    assert G.InvalidatedSince(c.after, c.context.version) == H.MarksFrom(c.after, |c.snapshot.log|);
    if Violates(c.after, c.context) {
      var e :| e in c.context.entries && exists k: nat ::
        k < |c.after.log| && c.after.log[k].0 >= c.context.version && e.node in c.after.log[k].1;
      assert e.node in G.InvalidatedSince(c.after, c.context.version);
    }
    if exists e :: e in c.context.entries && e.node in H.MarksFrom(c.after, |c.snapshot.log|) {
      var e :| e in c.context.entries && e.node in H.MarksFrom(c.after, |c.snapshot.log|);
      var k: nat :| |c.snapshot.log| <= k < |c.after.log| && e.node in c.after.log[k].1;
      assert c.after.log[k].0 >= c.context.version;
    }
  }

  /** An answer is discarded in a turn exactly when some plan was falsified, and then only once. */
  lemma {:induction false} DiscardsIff(env: Env, calls: seq<Call>)
    requires IsTurn(env, calls)
    ensures Discards(calls) == if exists k: nat :: k < |calls| && Falsified(calls[k]) then 1 else 0
    decreases |calls|
  {
    hide Falsified, IsCall, PromptFollows, GoesOn;
    if calls != [] {
      var n := |calls| - 1;
      var front := calls[..n];
      TurnPrefix(env, calls, n);
      DiscardsIff(env, front);
      assert Chained(env, calls, n);
      if k: nat :| k < n && Falsified(calls[k]) {
        assert Falsified(front[k]);
      } else {
        assert forall k: nat :: k < |front| ==> front[k] == calls[k];
      }
    }
  }

  lemma {:induction false} TurnPrefix(env: Env, calls: seq<Call>, n: nat)
    requires IsTurn(env, calls) && n <= |calls|
    ensures IsTurn(env, calls[..n])
  {
    hide Falsified, IsCall, PromptFollows, GoesOn;
    forall k: nat | k < n ensures Chained(env, calls[..n], k) {
      assert Chained(env, calls, k);
      assert calls[..n][..k] == calls[..k];
      assert FirstFalsified(calls[..n], k) <==> FirstFalsified(calls, k);
    }
  }

  /**
   The returned plan is falsified exactly when the last of two or more falsified plans of
   the turn is the last plan: the first one spends the retry.
   */
  lemma {:induction false} StaleReturnIff(env: Env, calls: seq<Call>)
    requires IsTurn(env, calls) && Finished(env, calls)
    ensures Falsified(calls[|calls| - 1]) <==>
            exists j: nat, k: nat :: j < k && k + 1 == |calls| && Falsified(calls[j]) && Falsified(calls[k])
  {
    hide Falsified, IsCall, PromptFollows, GoesOn, Escalates;
    var n := |calls| - 1;
    assert Chained(env, calls, n);
  }

  /**
   So a returned plan that holds a node marked while the model was thinking comes from a
   turn that had already discarded an answer for the same reason.
   */
  lemma {:induction false} StaleReturnMeansRetried(env: Env, calls: seq<Call>, e: Entry) returns (k: nat)
    requires IsTurn(env, calls) && Finished(env, calls) && Orderly(env.hook)
    requires var last := calls[|calls| - 1];
             && G.Shape(last.snapshot) && H.LogInv(last.snapshot)
             && e in last.context.entries && e.node in H.MarksFrom(last.after, |last.snapshot.log|)
    ensures k + 1 < |calls| && calls[k].discarded && Falsified(calls[k])
  {
    hide G.Shape, H.MarksFrom, Orderly, G.DrainPending, IsCall, PromptFollows, H.LogInv, GoesOn, Escalates, FirstFalsified;
    var n := |calls| - 1;
    assert Chained(env, calls, n);
    CheckIsExact(env, n, calls[n]);
    StaleReturnIff(env, calls);
    k := FirstOf(calls, n);
    assert Chained(env, calls, k);
  }

  lemma {:induction false} FirstOf(calls: seq<Call>, n: nat) returns (k: nat)
    requires n < |calls| && Falsified(calls[n])
    ensures k <= n && FirstFalsified(calls, k) && Falsified(calls[k])
  {
    hide Falsified;
    k := n;
    if j: nat :| j < n && Falsified(calls[j]) {
      k := FirstOf(calls, j);
    }
  }

  /** Escalated nodes stay pinned and forced for the rest of the turn. */
  lemma {:induction false} EscalationsStay(env: Env, calls: seq<Call>, j: nat, k: nat, i: NodeIdx)
    requires IsTurn(env, calls) && j < k < |calls| && !calls[j].discarded && Requested(env, calls[j]) == Some(i)
    ensures i in calls[k].pin && i in calls[k].forced
    decreases k - j
  {
    hide Falsified, Requested, G.Shape, G.DrainPending, IsCall, PromptFollows, Discards;
    assert Chained(env, calls, k);
    assert calls[..k][k - 1] == calls[k - 1];
    if j + 1 < k {
      EscalationsStay(env, calls, j, k - 1, i);
    }
  }

  /**
   The next prompt is made afresh exactly after the first falsified plan.  After a later
   one, once the retry is spent, an escalation extends a prompt that no longer holds.
   */
  lemma {:induction false} FalsifiedPromptExtended(env: Env, calls: seq<Call>, k: nat)
    requires IsTurn(env, calls) && k + 1 < |calls|
    ensures calls[k + 1].prompt ==
            if FirstFalsified(calls, k) then env.promptFor(calls[k + 1].context.entries)
            else env.extend(calls[k].prompt, calls[k + 1].context.entries)
  {
    hide IsCall, GoesOn, Falsified;
    assert Chained(env, calls, k) && Chained(env, calls, k + 1);
    assert calls[..k + 1][k] == calls[k];
  }

  // ---- a turn is determined -----------------------------------------------

  /** Two records from one graph agree call by call. */
  lemma {:induction false} SameCalls(env: Env, a: seq<Call>, b: seq<Call>, n: nat)
    requires IsTurn(env, a) && IsTurn(env, b) && n <= |a| && n <= |b|
    requires n > 0 ==> a[0].snapshot == b[0].snapshot
    ensures a[..n] == b[..n]
  {
    hide Chained;
    if n > 0 {
      SameCalls(env, a, b, n - 1);
      var k := n - 1;
      assert Chained(env, a, k) && Chained(env, b, k);
      SameNext(env, a, b, k);
      assert a[..n] == a[..k] + [a[k]] && b[..n] == b[..k] + [b[k]];
    }
  }

  lemma {:induction false} SameNext(env: Env, a: seq<Call>, b: seq<Call>, k: nat)
    requires k < |a| && k < |b| && a[..k] == b[..k] && (k == 0 ==> a[0].snapshot == b[0].snapshot)
    requires Chained(env, a, k) && Chained(env, b, k)
    ensures a[k] == b[k]
  {
    hide Falsified, Requested, G.Shape, G.DrainPending, Discards, Escalates;
    forall j: nat | j < k ensures a[j] == b[j] {
      assert a[..k][j] == b[..k][j];
    }
    assert a[k].snapshot == b[k].snapshot && a[k].pin == b[k].pin && a[k].forced == b[k].forced;
    assert a[k].(discarded := true) == b[k].(discarded := true);
    FalsifiedSame(a[k], b[k]);
  }

  lemma {:induction false} FalsifiedSame(a: Call, b: Call)
    requires a.after == b.after && a.context == b.context
    ensures Falsified(a) == Falsified(b)
  {
  }

  /** What happens in a turn is a function of the graph it starts from: there is one finished record. */
  lemma {:induction false} TurnIsOne(env: Env, a: seq<Call>, b: seq<Call>)
    requires IsTurn(env, a) && IsTurn(env, b) && Finished(env, a) && Finished(env, b)
    requires a[0].snapshot == b[0].snapshot
    ensures a == b
  {
    hide Chained, Escalates;
    if |a| <= |b| {
      SameCalls(env, a, b, |a|);
      FinishedEnds(env, a, b);
    } else {
      SameCalls(env, b, a, |b|);
      FinishedEnds(env, b, a);
    }
  }

  lemma {:induction false} FinishedEnds(env: Env, a: seq<Call>, b: seq<Call>)
    requires IsTurn(env, b) && Finished(env, a) && |a| <= |b| && a == b[..|a|]
    ensures |a| == |b|
  {
    hide Escalates, IsCall, PromptFollows, FirstFalsified, G.Shape, G.DrainPending;
    var k := if |a| < |b| then |a| else 0;
    assert Chained(env, b, k);
  }

  // ---- a falsified plan, returned -----------------------------------------

  function Shown(g: G.Graph, pin: seq<NodeIdx>, i: NodeIdx): seq<Entry> {
    if i < |g.nodes| && (g.nodes[i].status == Fresh || i in pin) then [Entry(i, g.nodes[i].id, g.nodes[i].value)] else []
  }

  /** A planner that shows the first two nodes, as long as they are fresh or pinned. */
  function PlanTwo(g: G.Graph, pin: seq<NodeIdx>, forced: set<NodeIdx>): seq<Entry> {
    Shown(g, pin, 0) + Shown(g, pin, 1)
  }

  function PlainPrompt(entries: seq<Entry>): string { "facts" }

  function LongerPrompt(prompt: string, entries: seq<Entry>): string { prompt + " and more" }

  function NoAnswer(n: nat, prompt: string): string { "" }

  /** An inference that asks for the first node shown, once. */
  function FirstShown(entries: seq<Entry>, forced: set<NodeIdx>): Option<NodeIdx> {
    if entries != [] && entries[0].node !in forced then Some(entries[0].node) else None
  }

  /** A hook that invalidates node 0 during the first call and node 1 during the second. */
  ghost function TouchInTurn(n: nat, g: G.Graph): G.Graph {
    if n < 2 && G.Shape(g) && n < |g.nodes| then G.Invalidate(g, n, true) else g
  }

  ghost function RestlessEnv(maxEscalations: nat): Env {
    Env(PlanTwo, PlainPrompt, LongerPrompt, NoAnswer, TouchInTurn, FirstShown, true, maxEscalations)
  }

  /** Two fresh nodes that nothing depends on, and nothing deferred. */
  ghost predicate Restful(g: G.Graph) {
    && G.Shape(g) && g.pending == [] && g.maxCascade >= 1 && 2 <= |g.nodes| == |g.inEdges|
    && forall i: nat :: i < 2 ==> g.nodes[i].status == Fresh && G.Dependents(g, i) == []
  }

  lemma {:induction false} TouchKeepsOrder()
    ensures KeepsShape(TouchInTurn) && Orderly(TouchInTurn)
  {
    hide G.Shape, G.Invalidate, H.LogGrows, H.LogInv;
    forall n: nat, g: G.Graph | G.Shape(g)
      ensures G.Shape(TouchInTurn(n, g)) && H.LogGrows(g, TouchInTurn(n, g))
    {
      H.LogGrowsSame(g);
      if n < 2 && n < |g.nodes| {
        G.InvalidateFrame(g, n, true);
        H.InvalidateLog(g, n, true);
      }
    }
  }

  /** Invalidating a live node that nothing depends on marks it, and logs that. */
  lemma {:induction false} TouchOne(g: G.Graph, n: NodeIdx)
    requires G.Shape(g) && g.maxCascade >= 1 && n < |g.nodes| == |g.inEdges|
    requires g.nodes[n].status == Fresh && G.Dependents(g, n) == []
    ensures var h := G.Invalidate(g, n, true);
            && G.Shape(h) && h.log == g.log + [(g.version, [n])] && h.pending == g.pending
            && h.nodes == G.Marked(g.nodes, [n])
  {
    G.InvalidateFrame(g, n, true);
    var s := G.StartState(g, n, true);
    assert G.Id(n) == n;
    assert s.queue == [(n, 0)] && s.queue[1..] == [];
    assert G.At([], 1) == [];
    var r := G.Advance(g, s);
    assert r.queue == [] && r.marked == [n] && r.deferred == [];
    assert G.Walk(g, s) == G.Walk(g, r);
    assert G.CascadeFrom(g, n, true) == G.Cascade([n], []);
    assert g.pending + [] == g.pending;
  }

  lemma {:induction false} Logged(c: Call, g: G.Graph, e: Entry)
    requires c.after.log == g.log + [(g.version, [e.node])] && c.context.version == g.version && e in c.context.entries
    ensures Falsified(c)
  {
    var k := |g.log|;
    assert c.after.log[k] == (g.version, [e.node]);
    assert e.node in c.after.log[k].1;
  }

  function RestlessContext(g: G.Graph, pin: seq<NodeIdx>): Context {
    Context(PlanTwo(g, pin, {}), g.version)
  }

  ghost function FirstCall(g: G.Graph): Call {
    Call(g, [], {}, RestlessContext(g, []), "facts", "", TouchInTurn(0, g), true)
  }

  ghost function SecondCall(g: G.Graph): Call {
    var g1 := TouchInTurn(0, g);
    Call(g1, [], {}, RestlessContext(g1, []), "facts", "", TouchInTurn(1, g1), false)
  }

  ghost function ThirdCall(g: G.Graph): Call {
    var g2 := TouchInTurn(1, TouchInTurn(0, g));
    Call(g2, [1], {1}, RestlessContext(g2, [1]), "facts and more", "", g2, false)
  }

  /** The graph through the three calls: one node falls after the other. */
  lemma {:induction false} RestlessGraphs(g: G.Graph)
    requires Restful(g)
    ensures var g1 := TouchInTurn(0, g);
            var g2 := TouchInTurn(1, g1);
            && G.Shape(g1) && g1.pending == [] && g1.log == g.log + [(g.version, [0])]
            && |g1.nodes| == |g.nodes| && g1.nodes[1] == g.nodes[1] && g1.nodes[0].status != Superseded
            && G.Shape(g2) && g2.pending == [] && g2.log == g1.log + [(g1.version, [1])] && |g2.nodes| == |g.nodes|
            && (g.nodes[0].kind != Evidence ==> g1.nodes[0].status == Stale && g2.nodes[0].status == Stale)
  {
    hide G.Invalidate, G.Dependents, G.Shape;
    TouchOne(g, 0);
    var g1 := TouchInTurn(0, g);
    G.InvalidateFrame(g, 0, true);
    SameInputs(g, g1);
    TouchOne(g1, 1);
  }

  lemma {:induction false} SameInputs(g: G.Graph, h: G.Graph)
    requires g.inEdges == h.inEdges
    ensures forall i: nat :: i < |g.inEdges| ==> G.Dependents(g, i) == G.Dependents(h, i)
  {
  }

  lemma {:induction false} RestlessFalsified(g: G.Graph)
    requires Restful(g)
    ensures Falsified(FirstCall(g)) && Falsified(SecondCall(g))
  {
    hide Falsified, TouchInTurn, G.Dependents, G.Shape;
    RestlessGraphs(g);
    var a, b := FirstCall(g), SecondCall(g);
    Logged(a, g, a.context.entries[0]);
    var e := Entry(1, b.snapshot.nodes[1].id, b.snapshot.nodes[1].value);
    assert Shown(b.snapshot, [], 1) == [e];
    assert e in b.context.entries;
    Logged(b, b.snapshot, e);
  }

  lemma {:induction false} DrainedAlready(g: G.Graph)
    requires G.Shape(g) && g.pending == []
    ensures G.DrainPending(g, DRAIN_LIMIT) == g
  {
  }

  lemma {:induction false} RestlessTurns(g: G.Graph, maxEscalations: nat)
    requires Restful(g)
    ensures IsTurn(RestlessEnv(maxEscalations), [FirstCall(g), SecondCall(g)])
    ensures Discards([FirstCall(g), SecondCall(g)]) == 1
  {
    hide Falsified, TouchInTurn, G.Dependents, G.DrainPending, G.Shape, Requested;
    var a, b := FirstCall(g), SecondCall(g);
    var calls := [a, b];
    RestlessGraphs(g);
    RestlessFalsified(g);
    DrainedAlready(a.after);
    DiscardsNext([], a);
    DiscardsNext([a], b);
    assert [] + [a] == [a] && [a] + [b] == calls;
    assert calls[..1] == [a] && calls[..0] == [];
    assert FirstFalsified(calls, 0) && !FirstFalsified(calls, 1);
    assert Chained(RestlessEnv(maxEscalations), calls, 0) && Chained(RestlessEnv(maxEscalations), calls, 1);
  }

  /**
   Without escalations such a turn asks twice and returns a plan that no longer holds: its
   hook works through `invalidate`, and its planner shows only nodes that are there and fresh.
   */
  lemma {:induction false} FalsifiedReturned(g: G.Graph) returns (calls: seq<Call>)
    requires Restful(g)
    ensures KeepsShape(RestlessEnv(0).hook) && Orderly(RestlessEnv(0).hook)
    ensures IsTurn(RestlessEnv(0), calls) && Finished(RestlessEnv(0), calls) && calls[0].snapshot == g
    ensures Falsified(calls[|calls| - 1])
  {
    hide Falsified, TouchInTurn, KeepsShape, Orderly, IsTurn, Requested;
    TouchKeepsOrder();
    RestlessTurns(g, 0);
    RestlessFalsified(g);
    calls := [FirstCall(g), SecondCall(g)];
  }

  lemma {:induction false} NoToken()
    ensures ParseEscalation("").None?
  {
    NoHashNoToken("");
  }

  /** What the second and the third call ask for: node 1, and nothing. */
  lemma {:induction false} RestlessRequests(g: G.Graph)
    requires Restful(g) && g.nodes[0].kind != Evidence
    ensures Requested(RestlessEnv(1), SecondCall(g)) == Some(1) && Requested(RestlessEnv(1), ThirdCall(g)).None?
  {
    hide TouchInTurn, G.Dependents, G.Shape, ParseEscalation;
    RestlessGraphs(g);
    NoToken();
    var g1 := TouchInTurn(0, g);
    var g2 := TouchInTurn(1, g1);
    assert Shown(g1, [], 0) == [] && Shown(g2, [1], 0) == [];
    assert PlanTwo(g1, [], {}) == [Entry(1, g1.nodes[1].id, g1.nodes[1].value)];
    assert PlanTwo(g2, [1], {}) == [Entry(1, g2.nodes[1].id, g2.nodes[1].value)];
  }

  lemma {:induction false} ThirdFollows(g: G.Graph)
    requires Restful(g) && g.nodes[0].kind != Evidence
    ensures var front := [FirstCall(g), SecondCall(g)];
            && IsCall(RestlessEnv(1), 2, ThirdCall(g)) && PromptFollows(RestlessEnv(1), front, ThirdCall(g))
            && GoesOn(RestlessEnv(1), front, ThirdCall(g))
  {
    hide TouchInTurn, G.Dependents, G.DrainPending, G.Shape, Requested, Discards, Falsified;
    RestlessGraphs(g);
    RestlessRequests(g);
    RestlessTurns(g, 1);
    DrainedAlready(SecondCall(g).after);
    HookRests(ThirdCall(g).snapshot);
  }

  lemma {:induction false} HookRests(g: G.Graph)
    ensures TouchInTurn(2, g) == g
  {
  }

  /** With an escalation left, the third prompt extends the second, whose plan was falsified. */
  lemma {:induction false} FalsifiedExtended(g: G.Graph) returns (calls: seq<Call>)
    requires Restful(g) && g.nodes[0].kind != Evidence
    ensures KeepsShape(RestlessEnv(1).hook) && Orderly(RestlessEnv(1).hook)
    ensures IsTurn(RestlessEnv(1), calls) && Finished(RestlessEnv(1), calls) && |calls| == 3 && calls[0].snapshot == g
    ensures Falsified(calls[1]) && !calls[1].discarded
    ensures calls[2].prompt == RestlessEnv(1).extend(calls[1].prompt, calls[2].context.entries)
  {
    hide Falsified, TouchInTurn, KeepsShape, Orderly, IsTurn, Finished, Restful, FirstCall, SecondCall, ThirdCall,
      PromptFollows;
    TouchKeepsOrder();
    calls := [FirstCall(g), SecondCall(g), ThirdCall(g)];
    ThirdTurns(g);
    ThirdFinishes(g);
    SecondExtended(g);
  }

  lemma {:induction false} SecondExtended(g: G.Graph)
    requires Restful(g)
    ensures Falsified(SecondCall(g)) && !SecondCall(g).discarded && FirstCall(g).snapshot == g
    ensures ThirdCall(g).prompt == RestlessEnv(1).extend(SecondCall(g).prompt, ThirdCall(g).context.entries)
  {
    hide Falsified, TouchInTurn, Restful;
    RestlessFalsified(g);
  }

  lemma {:induction false} ThirdTurns(g: G.Graph)
    requires Restful(g) && g.nodes[0].kind != Evidence
    ensures IsTurn(RestlessEnv(1), [FirstCall(g), SecondCall(g), ThirdCall(g)])
  {
    hide Falsified, TouchInTurn, IsTurn, Restful, IsCall, PromptFollows, GoesOn, RestlessEnv;
    RestlessTurns(g, 1);
    RestlessFalsified(g);
    var front, c := [FirstCall(g), SecondCall(g)], ThirdCall(g);
    ThirdFollows(g);
    assert Falsified(front[0]);
    TurnGrows(RestlessEnv(1), front, c);
    assert front + [c] == [FirstCall(g), SecondCall(g), ThirdCall(g)];
  }

  lemma {:induction false} ThirdFinishes(g: G.Graph)
    requires Restful(g) && g.nodes[0].kind != Evidence
    ensures Finished(RestlessEnv(1), [FirstCall(g), SecondCall(g), ThirdCall(g)])
  {
    hide TouchInTurn, Restful, Requested, RestlessEnv;
    RestlessRequests(g);
  }
}
