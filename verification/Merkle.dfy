/**
 The Merkle tree over a container's objects (src/merkle.rs).

 `BuildOf` is the tree of an entry list, `Build` the program's level-by-level loop.
 Interior structure is studied on terms: `Top` pairs terms exactly as the levels pair
 digests, promoting an odd last node, so a root digest stands for one term.
 */
module Merkle {
  import opened Bytes
  import opened Wrappers
  import K = Keyed
  import T = Tagged
  import Utf8

  const LEAF_TAG := "dcr:merkle:leaf"
  const NODE_TAG := "dcr:merkle:node"
  const EMPTY_TAG := "dcr:merkle:empty"

  /** An object id and the digest of its content. */
  type Leaf = (string, Digest)

  datatype Side = Left | Right

  datatype Step = Step(sibling: Digest, side: Side)

  function LeafParts(leaf: Leaf): seq<seq<u8>> { [Utf8.Encode(leaf.0), leaf.1] }

  function LeafDigest(leaf: Leaf): Digest { T.DigestOf(LEAF_TAG, LeafParts(leaf)) }

  function NodeDigest(left: Digest, right: Digest): Digest { T.DigestOf(NODE_TAG, [left, right]) }

  function EmptyRoot(): Digest { T.DigestOf(EMPTY_TAG, []) }

  datatype MerkleTree = MerkleTree(leaves: seq<Leaf>, levels: seq<seq<Digest>>)

  function Digests(leaves: seq<Leaf>): (r: seq<Digest>)
    ensures |r| == |leaves|
    ensures forall i :: 0 <= i < |r| ==> r[i] == LeafDigest(leaves[i])
  {
    seq(|leaves|, i requires 0 <= i < |leaves| => LeafDigest(leaves[i]))
  }

  /** Pairs of neighbours; an odd last node is promoted unchanged. */
  function NextLevel(level: seq<Digest>): (r: seq<Digest>)
    ensures |r| == (|level| + 1) / 2
  {
    if |level| < 2 then level else [NodeDigest(level[0], level[1])] + NextLevel(level[2..])
  }

  function Levels(level: seq<Digest>): (r: seq<seq<Digest>>)
    ensures r != [] && r[0] == level
    decreases |level|
  {
    if |level| <= 1 then [level] else [level] + Levels(NextLevel(level))
  }

  function LeavesOf(entries: seq<Leaf>): seq<Leaf> {
    K.Canonical(entries)
  }

  function BuildOf(entries: seq<Leaf>): MerkleTree {
    MerkleTree(LeavesOf(entries), Levels(Digests(LeavesOf(entries))))
  }

  function RootOfLevels(levels: seq<seq<Digest>>): Digest {
    if levels == [] || levels[|levels| - 1] == [] then EmptyRoot() else levels[|levels| - 1][0]
  }

  function Root(tree: MerkleTree): Digest {
    RootOfLevels(tree.levels)
  }

  /** The root an entry list commits to. */
  function RootOf(entries: seq<Leaf>): Digest {
    Root(BuildOf(entries))
  }

  /** `position`: the index of an id among the leaves. */
  function Position(leaves: seq<Leaf>, id: string): (r: Option<nat>)
    ensures r.Some? ==> r.value < |leaves| && leaves[r.value].0 == id
    ensures r.None? ==> forall i :: 0 <= i < |leaves| ==> leaves[i].0 != id
  {
    if leaves == [] then None
    else if leaves[|leaves| - 1].0 == id then Some(|leaves| - 1)
    else Position(leaves[..|leaves| - 1], id)
  }

  // ---- the program --------------------------------------------------------

  /** One level up, two nodes at a time. */
  method PairUp(level: seq<Digest>) returns (next: seq<Digest>)
    ensures next == NextLevel(level)
  {
    hide NodeDigest;
    next := [];
    var i := 0;
    while i + 1 < |level|
      invariant i <= |level| && next + NextLevel(level[i..]) == NextLevel(level)
    {
      assert level[i..][2..] == level[i + 2..];
      next := next + [NodeDigest(level[i], level[i + 1])];
      i := i + 2;
    }
    if i < |level| {
      assert level[i..] == [level[i]];
      next := next + [level[i]];
    }
  }

  /** The first level. */
  method Base(leaves: seq<Leaf>) returns (base: seq<Digest>)
    ensures base == Digests(leaves)
  {
    hide LeafDigest;
    base := [];
    for i := 0 to |leaves|
      invariant |base| == i && forall j :: 0 <= j < i ==> base[j] == LeafDigest(leaves[j])
    {
      base := base + [LeafDigest(leaves[i])];
    }
  }

  method Build(entries: seq<Leaf>) returns (tree: MerkleTree)
    ensures tree == BuildOf(entries)
  {
    hide K.Canonical, Digests, NextLevel;
    var leaves := K.Canonical(entries);
    var base := Base(leaves);
    var done: seq<seq<Digest>> := [];
    var last := base;
    while |last| > 1
      invariant done + Levels(last) == Levels(base)
      decreases |last|
    {
      var next := PairUp(last);
      LevelsStep(done, last);
      done := done + [last];
      last := next;
    }
    tree := MerkleTree(leaves, done + [last]);
  }

  lemma {:induction false} LevelsUp(level: seq<Digest>)
    requires |level| > 1
    ensures Levels(level) == [level] + Levels(NextLevel(level))
  {
  }

  lemma {:induction false} LevelsStep(done: seq<seq<Digest>>, last: seq<Digest>)
    requires |last| > 1
    ensures |NextLevel(last)| < |last|
    ensures done + Levels(last) == (done + [last]) + Levels(NextLevel(last))
  {
    hide Levels, NextLevel;
    LevelsUp(last);
  }

  /** What a proof records at one level: nothing for a promoted node. */
  function StepAt(level: seq<Digest>, index: nat): seq<Step>
    requires index < |level|
  {
    if index == |level| - 1 && |level| % 2 == 1 then []
    else if index % 2 == 0 then [Step(level[index + 1], Right)]
    else [Step(level[index - 1], Left)]
  }

  /** The siblings met on the way from `index` to the root. */
  function Siblings(levels: seq<seq<Digest>>, index: nat): seq<Step> {
    if levels == [] || |levels[0]| <= 1 || index >= |levels[0]| then []
    else StepAt(levels[0], index) + Siblings(levels[1..], index / 2)
  }

  /** Every level is about half the one below it. */
  ghost predicate Tapered(levels: seq<seq<Digest>>) {
    forall k: nat :: k + 1 < |levels| ==> |levels[k + 1]| == (|levels[k]| + 1) / 2
  }

  method Proof(tree: MerkleTree, id: string) returns (steps: Option<seq<Step>>)
    requires Tapered(tree.levels) && (tree.levels != [] ==> |tree.levels[0]| == |tree.leaves|)
    ensures steps.Some? <==> Position(tree.leaves, id).Some?
    ensures steps.Some? ==> steps.value == Siblings(tree.levels, Position(tree.leaves, id).value)
  {
    hide Siblings;
    var at := Position(tree.leaves, id);
    if at.None? {
      return None;
    }
    var index: nat := at.value;
    var path: seq<Step> := [];
    var k := 0;
    while k < |tree.levels| && |tree.levels[k]| > 1
      invariant k <= |tree.levels| && (k < |tree.levels| ==> index < |tree.levels[k]|)
      invariant path + Siblings(tree.levels[k..], index) == Siblings(tree.levels, at.value)
    {
      var level := tree.levels[k];
      SiblingsNext(tree.levels, k, index, path);
      if index == |level| - 1 && |level| % 2 == 1 {
        assert path + [] == path;
      } else if index % 2 == 0 {
        path := path + [Step(level[index + 1], Right)];
      } else {
        path := path + [Step(level[index - 1], Left)];
      }
      index := index / 2;
      k := k + 1;
    }
    SiblingsEnd(tree.levels[k..], index);
    assert path + [] == path;
    steps := Some(path);
  }

  lemma {:induction false} SiblingsNext(levels: seq<seq<Digest>>, k: nat, index: nat, path: seq<Step>)
    requires k < |levels| && |levels[k]| > 1 && index < |levels[k]|
    ensures path + Siblings(levels[k..], index)
            == (path + StepAt(levels[k], index)) + Siblings(levels[k + 1..], index / 2)
  {
    hide StepAt;
    assert levels[k..][1..] == levels[k + 1..];
  }

  lemma {:induction false} SiblingsEnd(levels: seq<seq<Digest>>, index: nat)
    requires levels == [] || |levels[0]| <= 1
    ensures Siblings(levels, index) == []
  {
  }

  function Replay(current: Digest, steps: seq<Step>): Digest {
    if steps == [] then current
    else Climb(Replay(current, steps[..|steps| - 1]), steps[|steps| - 1])
  }

  function Climb(current: Digest, step: Step): Digest {
    match step.side
    case Right => NodeDigest(current, step.sibling)
    case Left => NodeDigest(step.sibling, current)
  }

  predicate Verifies(leaf: Leaf, steps: seq<Step>, root: Digest) {
    Replay(LeafDigest(leaf), steps) == root
  }

  method VerifyProof(leaf: Leaf, steps: seq<Step>, root: Digest) returns (ok: bool)
    ensures ok == Verifies(leaf, steps, root)
  {
    hide NodeDigest, LeafDigest;
    var current := LeafDigest(leaf);
    for k := 0 to |steps|
      invariant current == Replay(LeafDigest(leaf), steps[..k])
    {
      assert steps[..k + 1][..k] == steps[..k];
      current := match steps[k].side
        case Right => NodeDigest(current, steps[k].sibling)
        case Left => NodeDigest(steps[k].sibling, current);
    }
    assert steps[..|steps|] == steps;
    ok := current == root;
  }

  // ---- shape --------------------------------------------------------------

  lemma {:induction false} LevelsTapered(level: seq<Digest>)
    ensures Tapered(Levels(level))
    ensures |Levels(level)[|Levels(level)| - 1]| <= 1
    ensures level != [] ==> |Levels(level)[|Levels(level)| - 1]| == 1
    decreases |level|
  {
    hide NextLevel;
    if |level| > 1 {
      var next := NextLevel(level);
      LevelsTapered(next);
      var rest := Levels(next);
      assert Levels(level) == [level] + rest;
      forall k: nat | k + 1 < |Levels(level)|
        ensures |Levels(level)[k + 1]| == (|Levels(level)[k]| + 1) / 2
      {
        if k > 0 {
          assert Levels(level)[k] == rest[k - 1] && Levels(level)[k + 1] == rest[k];
          assert |rest[k - 1 + 1]| == (|rest[k - 1]| + 1) / 2;
        }
      }
    }
  }

  /** Built trees are ones `Proof` accepts. */
  lemma {:induction false} BuiltTapered(entries: seq<Leaf>)
    ensures Tapered(BuildOf(entries).levels)
    ensures |BuildOf(entries).levels[0]| == |BuildOf(entries).leaves|
  {
    hide K.Canonical;
    LevelsTapered(Digests(LeavesOf(entries)));
  }

  // ---- every leaf proves --------------------------------------------------

  lemma {:induction false} NextLevelAt(level: seq<Digest>, i: nat)
    requires i < |NextLevel(level)|
    ensures 2 * i < |level|
    ensures NextLevel(level)[i] ==
            if 2 * i + 1 < |level| then NodeDigest(level[2 * i], level[2 * i + 1]) else level[2 * i]
  {
    hide NodeDigest;
    if |level| >= 2 && i > 0 {
      NextLevelAt(level[2..], i - 1);
    }
  }

  lemma {:induction false} ReplaySplits(current: Digest, first: seq<Step>, rest: seq<Step>)
    ensures Replay(current, first + rest) == Replay(Replay(current, first), rest)
  {
    hide Climb;
    if rest == [] {
      assert first + rest == first;
    } else {
      assert (first + rest)[..|first + rest| - 1] == first + rest[..|rest| - 1];
      ReplaySplits(current, first, rest[..|rest| - 1]);
    }
  }

  lemma {:induction false} ReplayOne(current: Digest, step: Step)
    ensures Replay(current, [step]) == Climb(current, step)
  {
    assert [step][..0] == [];
  }

  /** The step recorded at one level, if any, leads to the parent. */
  lemma {:induction false} StepClimbs(level: seq<Digest>, index: nat)
    requires index < |level| && |level| > 1
    ensures index / 2 < |NextLevel(level)|
    ensures Replay(level[index], StepAt(level, index)) == NextLevel(level)[index / 2]
  {
    hide NextLevel, NodeDigest, Replay;
    NextLevelAt(level, index / 2);
    if index == |level| - 1 && |level| % 2 == 1 {
      ReplayNone(level[index]);
    } else {
      ReplayOne(level[index], StepAt(level, index)[0]);
    }
  }

  /** From any node, its siblings lead to the root. */
  lemma {:induction false} SiblingsReachRoot(level: seq<Digest>, index: nat)
    requires index < |level|
    ensures Replay(level[index], Siblings(Levels(level), index)) == RootOfLevels(Levels(level))
    decreases |level|
  {
    hide NodeDigest, Replay, Siblings, StepAt, NextLevel, RootOfLevels, Levels;
    if |level| > 1 {
      var next := NextLevel(level);
      var rest := Siblings(Levels(next), index / 2);
      StepClimbs(level, index);
      LevelsUp(level);
      SiblingsNext(Levels(level), 0, index, []);
      assert Levels(level)[0..] == Levels(level) && Levels(level)[0 + 1..] == Levels(next);
      assert [] + Siblings(Levels(level), index) == Siblings(Levels(level), index);
      assert [] + StepAt(level, index) == StepAt(level, index);
      ReplaySplits(level[index], StepAt(level, index), rest);
      SiblingsReachRoot(next, index / 2);
      RootOneUp(level);
    } else {
      AtRoot(level);
    }
  }

  lemma {:induction false} RootOneUp(level: seq<Digest>)
    requires |level| > 1
    ensures RootOfLevels(Levels(level)) == RootOfLevels(Levels(NextLevel(level)))
  {
    hide EmptyRoot;
  }

  lemma {:induction false} AtRoot(level: seq<Digest>)
    requires |level| == 1
    ensures Siblings(Levels(level), 0) == []
    ensures Replay(level[0], []) == level[0] == RootOfLevels(Levels(level))
  {
    hide EmptyRoot;
  }

  lemma {:induction false} ReplayNone(current: Digest)
    ensures Replay(current, []) == current
  {
  }

  /** Every leaf of a built tree has a proof, and it verifies. */
  lemma {:induction false} EveryLeafProves(entries: seq<Leaf>, leaf: Leaf)
    requires leaf in LeavesOf(entries)
    ensures Position(LeavesOf(entries), leaf.0).Some?
    ensures Verifies(leaf, Siblings(BuildOf(entries).levels, Position(LeavesOf(entries), leaf.0).value), RootOf(entries))
  {
    hide K.Canonical, LeafDigest, Levels, Replay, Siblings, RootOfLevels;
    var leaves := LeavesOf(entries);
    K.CanonicalIsStrict(entries);
    var i: nat :| i < |leaves| && leaves[i] == leaf;
    var at := Position(leaves, leaf.0).value;
    assert leaves[at].0 == leaves[i].0;
    assert at == i;
    SiblingsReachRoot(Digests(leaves), at);
  }

  // ---- terms --------------------------------------------------------------

  /** What a digest of the tree stands for. */
  datatype Term = Tip(leaf: Leaf) | Pair(left: Term, right: Term)

  ghost function TermDigest(t: Term): Digest {
    match t
    case Tip(leaf) => LeafDigest(leaf)
    case Pair(l, r) => NodeDigest(TermDigest(l), TermDigest(r))
  }

  /** Leaves from left to right. */
  ghost function Frontier(t: Term): seq<Leaf> {
    match t
    case Tip(leaf) => [leaf]
    case Pair(l, r) => Frontier(l) + Frontier(r)
  }

  ghost function Frontiers(ts: seq<Term>): seq<Leaf> {
    if ts == [] then [] else Frontier(ts[0]) + Frontiers(ts[1..])
  }

  ghost function Tips(leaves: seq<Leaf>): (r: seq<Term>)
    ensures |r| == |leaves| && forall i :: 0 <= i < |r| ==> r[i] == Tip(leaves[i])
  {
    seq(|leaves|, i requires 0 <= i < |leaves| => Tip(leaves[i]))
  }

  ghost function TermDigests(ts: seq<Term>): (r: seq<Digest>)
    ensures |r| == |ts| && forall i :: 0 <= i < |r| ==> r[i] == TermDigest(ts[i])
  {
    seq(|ts|, i requires 0 <= i < |ts| => TermDigest(ts[i]))
  }

  ghost function PairTerms(ts: seq<Term>): (r: seq<Term>)
    ensures |r| == (|ts| + 1) / 2
  {
    if |ts| < 2 then ts else [Pair(ts[0], ts[1])] + PairTerms(ts[2..])
  }

  ghost function Top(ts: seq<Term>): Term
    requires ts != []
    decreases |ts|
  {
    if |ts| == 1 then ts[0] else Top(PairTerms(ts))
  }

  lemma {:induction false} PairTermsDigests(ts: seq<Term>)
    ensures TermDigests(PairTerms(ts)) == NextLevel(TermDigests(ts))
  {
    hide NodeDigest, LeafDigest;
    if |ts| >= 2 {
      PairTermsDigests(ts[2..]);
      assert TermDigests(ts)[2..] == TermDigests(ts[2..]);
      var p := PairTerms(ts);
      assert TermDigests(p) == [TermDigest(p[0])] + TermDigests(PairTerms(ts[2..]));
    }
  }

  lemma {:induction false} PairTermsFrontiers(ts: seq<Term>)
    ensures Frontiers(PairTerms(ts)) == Frontiers(ts)
  {
    if |ts| >= 2 {
      PairTermsFrontiers(ts[2..]);
      var p := PairTerms(ts);
      assert p[1..] == PairTerms(ts[2..]);
      assert ts[1..][1..] == ts[2..];
      calc {
        Frontiers(ts);
        Frontier(ts[0]) + (Frontier(ts[1]) + Frontiers(ts[2..]));
        (Frontier(ts[0]) + Frontier(ts[1])) + Frontiers(ts[2..]);
        Frontier(p[0]) + Frontiers(p[1..]);
        Frontiers(p);
      }
    }
  }

  lemma {:induction false} FrontiersOfTips(leaves: seq<Leaf>)
    ensures Frontiers(Tips(leaves)) == leaves
  {
    if leaves != [] {
      assert Tips(leaves)[1..] == Tips(leaves[1..]);
      FrontiersOfTips(leaves[1..]);
    }
  }

  /** Promotion neither drops, repeats nor reorders a leaf. */
  lemma {:induction false} TopFrontier(ts: seq<Term>)
    requires ts != []
    ensures Frontier(Top(ts)) == Frontiers(ts)
    decreases |ts|
  {
    hide PairTerms;
    if |ts| == 1 {
      assert ts[1..] == [];
    } else {
      PairTermsFrontiers(ts);
      TopFrontier(PairTerms(ts));
    }
  }

  lemma {:induction false} TopDigest(ts: seq<Term>)
    requires ts != []
    ensures RootOfLevels(Levels(TermDigests(ts))) == TermDigest(Top(ts))
    decreases |ts|
  {
    hide PairTerms, NextLevel, TermDigest, RootOfLevels, Levels;
    if |ts| == 1 {
      AtRoot(TermDigests(ts));
    } else {
      RootOneUp(TermDigests(ts));
      PairTermsDigests(ts);
      TopDigest(PairTerms(ts));
    }
  }

  /** The root of a nonempty tree is the digest of one term, whose leaves are the tree's. */
  lemma {:induction false} RootTerm(entries: seq<Leaf>) returns (t: Term)
    requires LeavesOf(entries) != []
    ensures RootOf(entries) == TermDigest(t) && Frontier(t) == LeavesOf(entries)
    ensures t == Top(Tips(LeavesOf(entries)))
  {
    hide K.Canonical, LeafDigest, Levels, RootOfLevels, Frontier, Top;
    var leaves := LeavesOf(entries);
    t := Top(Tips(leaves));
    TopFrontier(Tips(leaves));
    TopDigest(Tips(leaves));
    FrontiersOfTips(leaves);
    assert TermDigests(Tips(leaves)) == Digests(leaves);
  }

  // ---- what was hashed ----------------------------------------------------

  /** The messages hashed while building a term. */
  ghost function Hashed(t: Term): set<seq<u8>> {
    match t
    case Tip(leaf) => {T.Encoding(LEAF_TAG, LeafParts(leaf))}
    case Pair(l, r) => {T.Encoding(NODE_TAG, [TermDigest(l), TermDigest(r)])} + Hashed(l) + Hashed(r)
  }

  /** The messages hashed while building a tree. */
  ghost function TreeHashed(entries: seq<Leaf>): set<seq<u8>> {
    if LeavesOf(entries) == [] then {T.Encoding(EMPTY_TAG, [])} else Hashed(Top(Tips(LeavesOf(entries))))
  }

  /** The messages hashed while replaying a proof. */
  ghost function ReplayHashed(leaf: Leaf, steps: seq<Step>): set<seq<u8>> {
    if steps == [] then {T.Encoding(LEAF_TAG, LeafParts(leaf))}
    else
      var front, last := steps[..|steps| - 1], steps[|steps| - 1];
      var below := Replay(LeafDigest(leaf), front);
      var pair := if last.side.Right? then [below, last.sibling] else [last.sibling, below];
      {T.Encoding(NODE_TAG, pair)} + ReplayHashed(leaf, front)
  }

  /** An id whose bytes a 64-bit machine can count. */
  ghost predicate Fits(id: string) {
    |Utf8.Encode(id)| < TWO_64
  }

  ghost predicate AllFit(leaves: seq<Leaf>) {
    forall leaf: Leaf :: leaf in leaves ==> Fits(leaf.0)
  }

  lemma {:induction false} TagsDiffer()
    ensures LEAF_TAG != NODE_TAG && LEAF_TAG != EMPTY_TAG && NODE_TAG != EMPTY_TAG
    ensures Fits(LEAF_TAG) && Fits(NODE_TAG) && Fits(EMPTY_TAG)
  {
    hide Utf8.Encode;
    assert LEAF_TAG[11] != NODE_TAG[11];
    assert |LEAF_TAG| != |EMPTY_TAG| && |NODE_TAG| != |EMPTY_TAG|;
    EncodedLength(LEAF_TAG);
    EncodedLength(NODE_TAG);
    EncodedLength(EMPTY_TAG);
  }

  lemma {:induction false} EncodedLength(s: string)
    ensures |Utf8.Encode(s)| <= 4 * |s|
  {
    hide Utf8.EncodeChar, Utf8.Encode;
    Utf8.EncodeEmpty(s);
    if s != "" {
      Utf8.EncodeFront(s);
      EncodedLength(s[1..]);
    }
  }

  lemma {:induction false} LeafSized(leaf: Leaf)
    requires Fits(leaf.0)
    ensures T.Sized([Utf8.Encode(LEAF_TAG)] + LeafParts(leaf))
  {
    hide Utf8.Encode;
    TagsDiffer();
  }

  lemma {:induction false} NodeSized(a: Digest, b: Digest)
    ensures T.Sized([Utf8.Encode(NODE_TAG)] + [a, b])
  {
    hide Utf8.Encode;
    TagsDiffer();
  }

  lemma {:induction false} EmptySized()
    ensures T.Sized([Utf8.Encode(EMPTY_TAG)] + [])
  {
    hide Utf8.Encode;
    TagsDiffer();
  }

  // Equal digests, equal inputs: the three kinds of message never meet.

  lemma {:induction false} LeafDigestInjective(all: set<seq<u8>>, a: Leaf, b: Leaf)
    requires T.NoCollision(all) && Fits(a.0) && Fits(b.0)
    requires T.Encoding(LEAF_TAG, LeafParts(a)) in all && T.Encoding(LEAF_TAG, LeafParts(b)) in all
    requires LeafDigest(a) == LeafDigest(b)
    ensures a == b
  {
    hide T.Encoding, T.DigestOf, T.NoCollision, Utf8.Encode;
    LeafSized(a);
    LeafSized(b);
    T.DigestDetermines(all, LEAF_TAG, LeafParts(a), LEAF_TAG, LeafParts(b));
    assert LeafParts(a)[0] == LeafParts(b)[0] && LeafParts(a)[1] == LeafParts(b)[1];
    Utf8.EncodeInjective(a.0, b.0);
  }

  lemma {:induction false} NodeDigestInjective(all: set<seq<u8>>, a: Digest, b: Digest, c: Digest, d: Digest)
    requires T.NoCollision(all)
    requires T.Encoding(NODE_TAG, [a, b]) in all && T.Encoding(NODE_TAG, [c, d]) in all
    requires NodeDigest(a, b) == NodeDigest(c, d)
    ensures a == c && b == d
  {
    hide T.Encoding, T.DigestOf, T.NoCollision;
    NodeSized(a, b);
    NodeSized(c, d);
    T.DigestDetermines(all, NODE_TAG, [a, b], NODE_TAG, [c, d]);
    assert [a, b][0] == [c, d][0] && [a, b][1] == [c, d][1];
  }

  lemma {:induction false} LeafIsNoNode(all: set<seq<u8>>, a: Leaf, c: Digest, d: Digest)
    requires T.NoCollision(all) && Fits(a.0)
    requires T.Encoding(LEAF_TAG, LeafParts(a)) in all && T.Encoding(NODE_TAG, [c, d]) in all
    ensures LeafDigest(a) != NodeDigest(c, d)
  {
    hide T.Encoding, T.DigestOf, T.NoCollision, LeafParts;
    LeafSized(a);
    NodeSized(c, d);
    TagsDiffer();
    if LeafDigest(a) == NodeDigest(c, d) {
      T.DigestDetermines(all, LEAF_TAG, LeafParts(a), NODE_TAG, [c, d]);
    }
  }

  lemma {:induction false} LeafIsNotEmpty(all: set<seq<u8>>, a: Leaf)
    requires T.NoCollision(all) && Fits(a.0)
    requires T.Encoding(LEAF_TAG, LeafParts(a)) in all && T.Encoding(EMPTY_TAG, []) in all
    ensures LeafDigest(a) != EmptyRoot()
  {
    hide T.Encoding, T.DigestOf, T.NoCollision, LeafParts;
    LeafSized(a);
    EmptySized();
    TagsDiffer();
    if LeafDigest(a) == EmptyRoot() {
      T.DigestDetermines(all, LEAF_TAG, LeafParts(a), EMPTY_TAG, []);
    }
  }

  lemma {:induction false} NodeIsNotEmpty(all: set<seq<u8>>, c: Digest, d: Digest)
    requires T.NoCollision(all)
    requires T.Encoding(NODE_TAG, [c, d]) in all && T.Encoding(EMPTY_TAG, []) in all
    ensures NodeDigest(c, d) != EmptyRoot()
  {
    hide T.Encoding, T.DigestOf, T.NoCollision;
    NodeSized(c, d);
    EmptySized();
    TagsDiffer();
    if NodeDigest(c, d) == EmptyRoot() {
      T.DigestDetermines(all, NODE_TAG, [c, d], EMPTY_TAG, []);
    }
  }

  lemma {:induction false} FrontierOfPair(l: Term, r: Term)
    ensures AllFit(Frontier(Pair(l, r))) ==> AllFit(Frontier(l)) && AllFit(Frontier(r))
    ensures forall leaf :: leaf in Frontier(l) || leaf in Frontier(r) ==> leaf in Frontier(Pair(l, r))
  {
    hide Fits;
  }

  /** Without collisions a digest stands for one term. */
  lemma {:induction false} TermDigestInjective(all: set<seq<u8>>, t: Term, u: Term)
    requires T.NoCollision(all) && Hashed(t) <= all && Hashed(u) <= all
    requires AllFit(Frontier(t)) && AllFit(Frontier(u))
    requires TermDigest(t) == TermDigest(u)
    ensures t == u
  {
    hide T.Encoding, T.NoCollision, LeafDigest, NodeDigest, LeafParts, Fits;
    if t.Tip? && u.Tip? {
      LeafDigestInjective(all, t.leaf, u.leaf);
    } else if t.Pair? && u.Pair? {
      NodeDigestInjective(all, TermDigest(t.left), TermDigest(t.right), TermDigest(u.left), TermDigest(u.right));
      FrontierOfPair(t.left, t.right);
      FrontierOfPair(u.left, u.right);
      TermDigestInjective(all, t.left, u.left);
      TermDigestInjective(all, t.right, u.right);
    } else if t.Tip? {
      LeafIsNoNode(all, t.leaf, TermDigest(u.left), TermDigest(u.right));
    } else {
      LeafIsNoNode(all, u.leaf, TermDigest(t.left), TermDigest(t.right));
    }
  }

  lemma {:induction false} RootIsNotEmpty(all: set<seq<u8>>, t: Term)
    requires T.NoCollision(all) && Hashed(t) <= all && T.Encoding(EMPTY_TAG, []) in all
    requires AllFit(Frontier(t))
    ensures TermDigest(t) != EmptyRoot()
  {
    hide T.Encoding, T.NoCollision, LeafDigest, NodeDigest, LeafParts, Fits, EmptyRoot;
    if t.Tip? {
      LeafIsNotEmpty(all, t.leaf);
    } else {
      NodeIsNotEmpty(all, TermDigest(t.left), TermDigest(t.right));
    }
  }

  lemma {:induction false} EmptyTreeRoot(entries: seq<Leaf>)
    requires LeavesOf(entries) == []
    ensures RootOf(entries) == EmptyRoot()
  {
    hide K.Canonical, EmptyRoot;
  }

  // ---- the theorems -------------------------------------------------------

  /** Equal roots, equal leaves: whatever the sizes, odd nodes included. */
  lemma {:induction false} RootDeterminesLeaves(a: seq<Leaf>, b: seq<Leaf>)
    requires T.NoCollision(TreeHashed(a) + TreeHashed(b))
    requires AllFit(LeavesOf(a)) && AllFit(LeavesOf(b))
    requires RootOf(a) == RootOf(b)
    ensures LeavesOf(a) == LeavesOf(b)
  {
    hide LeavesOf, RootOf, T.NoCollision, AllFit, Hashed, TermDigest, EmptyRoot, Frontier, T.Encoding, Top;
    var all := TreeHashed(a) + TreeHashed(b);
    if LeavesOf(a) == [] || LeavesOf(b) == [] {
      if LeavesOf(a) == [] {
        EmptyTreeRoot(a);
      } else {
        var t := RootTerm(a);
        RootIsNotEmpty(all, t);
      }
      if LeavesOf(b) == [] {
        EmptyTreeRoot(b);
      } else {
        var t := RootTerm(b);
        RootIsNotEmpty(all, t);
      }
    } else {
      var t := RootTerm(a);
      var u := RootTerm(b);
      TermDigestInjective(all, t, u);
    }
  }

  /** A replay that arrives at a term's digest passed through the term. */
  lemma {:induction false} ReplayNamesLeaf(all: set<seq<u8>>, t: Term, leaf: Leaf, steps: seq<Step>)
    requires T.NoCollision(all) && Hashed(t) <= all && ReplayHashed(leaf, steps) <= all
    requires AllFit(Frontier(t)) && Fits(leaf.0)
    requires Replay(LeafDigest(leaf), steps) == TermDigest(t)
    ensures leaf in Frontier(t)
    decreases |steps|
  {
    hide T.Encoding, T.NoCollision, LeafDigest, NodeDigest, LeafParts, Fits, Replay;
    if steps == [] {
      ReplayNone(LeafDigest(leaf));
      if t.Tip? {
        LeafDigestInjective(all, t.leaf, leaf);
      } else {
        LeafIsNoNode(all, leaf, TermDigest(t.left), TermDigest(t.right));
      }
    } else {
      var front, last := steps[..|steps| - 1], steps[|steps| - 1];
      var below := Replay(LeafDigest(leaf), front);
      ReplayLast(LeafDigest(leaf), steps);
      var left := if last.side.Right? then below else last.sibling;
      var right := if last.side.Right? then last.sibling else below;
      if t.Tip? {
        LeafIsNoNode(all, t.leaf, left, right);
      } else {
        NodeDigestInjective(all, left, right, TermDigest(t.left), TermDigest(t.right));
        FrontierOfPair(t.left, t.right);
        ReplayNamesLeaf(all, if last.side.Right? then t.left else t.right, leaf, front);
      }
    }
  }

  lemma {:induction false} ReplayLast(current: Digest, steps: seq<Step>)
    requires steps != []
    ensures Replay(current, steps) == Climb(Replay(current, steps[..|steps| - 1]), steps[|steps| - 1])
  {
  }

  /** The messages of a replay and of a tree, among which collisions are excluded. */
  ghost function ProofHashed(entries: seq<Leaf>, leaf: Leaf, steps: seq<Step>): set<seq<u8>> {
    TreeHashed(entries) + ReplayHashed(leaf, steps)
  }

  /** Nothing but a leaf of the tree verifies against its root, whatever steps are offered. */
  lemma {:induction false} VerifiedIsLeaf(entries: seq<Leaf>, leaf: Leaf, steps: seq<Step>)
    requires T.NoCollision(ProofHashed(entries, leaf, steps))
    requires AllFit(LeavesOf(entries)) && Fits(leaf.0)
    requires Verifies(leaf, steps, RootOf(entries))
    ensures leaf in LeavesOf(entries)
  {
    hide LeavesOf, RootOf, T.NoCollision, AllFit, Fits, Hashed, TermDigest, EmptyRoot, Frontier, T.Encoding, Top;
    hide ReplayHashed, Replay, LeafDigest;
    var all := ProofHashed(entries, leaf, steps);
    if LeavesOf(entries) == [] {
      EmptyTreeRoot(entries);
      ReplayIsNotEmpty(all, leaf, steps);
    } else {
      var t := RootTerm(entries);
      ReplayNamesLeaf(all, t, leaf, steps);
    }
  }

  lemma {:induction false} ReplayIsNotEmpty(all: set<seq<u8>>, leaf: Leaf, steps: seq<Step>)
    requires T.NoCollision(all) && ReplayHashed(leaf, steps) <= all && T.Encoding(EMPTY_TAG, []) in all
    requires Fits(leaf.0)
    ensures Replay(LeafDigest(leaf), steps) != EmptyRoot()
  {
    hide T.Encoding, T.NoCollision, LeafDigest, NodeDigest, LeafParts, Fits, Replay, EmptyRoot;
    if steps == [] {
      ReplayNone(LeafDigest(leaf));
      LeafIsNotEmpty(all, leaf);
    } else {
      var front, last := steps[..|steps| - 1], steps[|steps| - 1];
      var below := Replay(LeafDigest(leaf), front);
      ReplayLast(LeafDigest(leaf), steps);
      if last.side.Right? {
        NodeIsNotEmpty(all, below, last.sibling);
      } else {
        NodeIsNotEmpty(all, last.sibling, below);
      }
    }
  }

  /** An object is in the tree exactly when the proof the tree gives for its id verifies with its content. */
  lemma {:induction false} ProvenIffLeaf(entries: seq<Leaf>, leaf: Leaf, steps: seq<Step>)
    requires Position(LeavesOf(entries), leaf.0).Some?
    requires steps == Siblings(BuildOf(entries).levels, Position(LeavesOf(entries), leaf.0).value)
    requires T.NoCollision(ProofHashed(entries, leaf, steps))
    requires AllFit(LeavesOf(entries)) && Fits(leaf.0)
    ensures Verifies(leaf, steps, RootOf(entries)) <==> leaf in LeavesOf(entries)
  {
    hide *;
    if leaf in LeavesOf(entries) {
      EveryLeafProves(entries, leaf);
    }
    if Verifies(leaf, steps, RootOf(entries)) {
      VerifiedIsLeaf(entries, leaf, steps);
    }
  }

  /** The root is a function of the set of entries, not of the order they were written in. */
  lemma {:induction false} RootIgnoresOrder(a: seq<Leaf>, b: seq<Leaf>)
    requires multiset(a) == multiset(b) && K.DistinctKeys(a) && K.DistinctKeys(b)
    ensures RootOf(a) == RootOf(b)
  {
    hide K.Canonical, Levels, RootOfLevels, K.DistinctKeys;
    forall key ensures K.Find(a, key) == K.Find(b, key) {
      K.FindOfPermutation(a, b, key);
    }
    K.CanonicalOfLookups(a, b);
  }

  /** A repeated id keeps its first entry: what comes later under that id is not committed to. */
  lemma {:induction false} FirstEntryWins(entries: seq<Leaf>, leaf: Leaf)
    ensures leaf in LeavesOf(entries) <==> K.Find(entries, leaf.0) == Some(leaf.1)
  {
    hide K.Canonical;
    K.CanonicalIsStrict(entries);
    K.CanonicalKeepsFirst(entries, leaf.0);
    var leaves := LeavesOf(entries);
    if leaf in leaves {
      var i: nat :| i < |leaves| && leaves[i] == leaf;
      K.FindAt(leaves, i);
    }
    if K.Find(leaves, leaf.0) == Some(leaf.1) {
      var i := K.FindIndex(leaves, leaf.0);
    }
  }
}
