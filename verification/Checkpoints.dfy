/**
 The checkpoint chain (src/context_store.rs).

 Every checkpoint's chain digest covers its parent's digest and its own whole body, so
 a list that verifies is the only list with that last digest.  Counters are written as
 JSON numbers, that is as doubles: `AsDouble` models the conversion, and "only" means
 "up to that conversion".
 */
module Checkpoints {
  import A = Arithmetic
  import opened Bytes
  import opened Json
  import JsonParse
  import JsonRoundTrip
  import K = Keyed
  import M = Merkle
  import T = Tagged
  import Utf8
  import opened Wrappers

  const SCHEMA_VERSION := "dcr.context/1"
  const CHAIN_TAG := "dcr:chain"

  datatype Checkpoint = Checkpoint(
    schema: string, generation: nat, merkleRoot: Digest, parentRoot: Digest, chain: Digest, parentChain: Digest,
    timestamp: nat, policyHash: Digest, schemaHash: Digest, objectCount: nat, added: seq<string>)

  // ---- counters -----------------------------------------------------------

  /** The least power of two `u` with `n < 2^53 * u`. */
  function Unit(n: nat, u: nat): (r: nat)
    requires u > 0
    ensures r >= u
    decreases n / u
  {
    if n / u < LIMIT then u
    else
      Halves(n, u);
      Unit(n, 2 * u)
  }

  lemma {:induction false} Halves(n: nat, u: nat)
    requires u > 0 && n / u > 0
    ensures n / (2 * u) < n / u
  {
    var q := n / (2 * u);
    assert n == 2 * u * q + n % (2 * u);
    assert u * (2 * q) <= n by {
      assert u * (2 * q) == 2 * u * q;
    }
    QuotientAtLeast(n, u, 2 * q);
  }

  lemma {:induction false} QuotientAtLeast(n: nat, u: nat, k: nat)
    requires u > 0 && u * k <= n
    ensures k <= n / u
  {
    var q := n / u;
    assert n == u * q + n % u;
    assert u * (q + 1) == u * q + u;
    if k > q {
      A.MulMonotone(q + 1, k, u);
    }
  }

  /** `n as f64`: the nearest double, ties to the even one. */
  function AsDouble(n: nat): nat {
    if n < LIMIT then n
    else
      var u := Unit(n, 1);
      var q, r := n / u, n % u;
      if 2 * r < u || (2 * r == u && q % 2 == 0) then q * u else (q + 1) * u
  }

  /** Doubles of 2^53 and more keep out of the range of exact integers. */
  lemma {:induction false} AsDoubleLarge(n: nat)
    requires n >= LIMIT
    ensures AsDouble(n) >= LIMIT
  {
    var u := Unit(n, 1);
    UnitScale(n, 1);
    var q := n / u;
    assert q * u >= LIMIT by {
      A.MulMonotone(2, u, q);
    }
    assert (q + 1) * u == q * u + u;
  }

  /** A unit above the first was needed: half of it was too small. */
  lemma {:induction false} UnitScale(n: nat, u: nat)
    requires u > 0
    ensures n / u >= LIMIT ==> Unit(n, u) >= 2 * u && n / Unit(n, u) >= LIMIT / 2
    decreases n / u
  {
    if n / u >= LIMIT {
      Halves(n, u);
      UnitScale(n, 2 * u);
      if Unit(n, 2 * u) == 2 * u {
        HalfQuotient(n, u);
      }
    }
  }

  lemma {:induction false} HalfQuotient(n: nat, u: nat)
    requires u > 0 && n / u >= LIMIT
    ensures n / (2 * u) >= LIMIT / 2
  {
    var q := n / u;
    assert n == u * q + n % u;
    assert u * LIMIT <= u * q by {
      A.MulMonotone(LIMIT, q, u);
    }
    assert (2 * u) * (LIMIT / 2) == u * LIMIT;
    QuotientAtLeast(n, 2 * u, LIMIT / 2);
  }

  /** A counter as JSON; the digits stand for whatever text the formatter gives a large double. */
  function Counter(n: nat): Json {
    if AsDouble(n) < LIMIT then Num(AsDouble(n)) else Float(Decimal(AsDouble(n)), true)
  }

  lemma {:induction false} CounterIntegral(n: nat)
    ensures Integral(Counter(n)) && Normalized(Counter(n)) == Counter(n)
  {
    hide AsDouble;
    JsonRoundTrip.DecimalDigits(AsDouble(n));
  }

  /** A counter is known up to the double it is written as. */
  lemma {:induction false} CounterInjective(m: nat, n: nat)
    ensures Counter(m) == Counter(n) <==> AsDouble(m) == AsDouble(n)
  {
    hide AsDouble;
    JsonRoundTrip.DecimalDigits(AsDouble(m));
    JsonRoundTrip.DecimalDigits(AsDouble(n));
  }

  // ---- the body -----------------------------------------------------------

  function Strings(items: seq<string>): (r: seq<Json>)
    ensures |r| == |items| && forall i :: 0 <= i < |r| ==> r[i] == Str(items[i])
  {
    seq(|items|, i requires 0 <= i < |items| => Str(items[i]))
  }

  /** `body_json`: the whole checkpoint but for its own digest. */
  function BodyFields(c: Checkpoint): (r: seq<(string, Json)>)
    ensures |r| == 10
  {
    [("schema", Str(c.schema)),
     ("generation", Counter(c.generation)),
     ("merkle_root", Str(ToHex(c.merkleRoot))),
     ("parent_root", Str(ToHex(c.parentRoot))),
     ("parent_chain", Str(ToHex(c.parentChain))),
     ("timestamp", Counter(c.timestamp)),
     ("policy_hash", Str(ToHex(c.policyHash))),
     ("schema_hash", Str(ToHex(c.schemaHash))),
     ("object_count", Counter(c.objectCount)),
     ("added", Arr(Strings(c.added)))]
  }

  function BodyText(c: Checkpoint): string {
    Write(Normalized(Obj(BodyFields(c))))
  }

  function ChainParts(c: Checkpoint): seq<seq<u8>> {
    [c.parentChain, Utf8.Encode(BodyText(c))]
  }

  /** `compute_chain`. */
  function ComputeChain(c: Checkpoint): Digest {
    T.DigestOf(CHAIN_TAG, ChainParts(c))
  }

  /** Equal in every field, counters compared as the doubles they are written as. */
  ghost predicate SameRecord(a: Checkpoint, b: Checkpoint) {
    && a.schema == b.schema && a.merkleRoot == b.merkleRoot && a.parentRoot == b.parentRoot
    && a.parentChain == b.parentChain && a.policyHash == b.policyHash && a.schemaHash == b.schemaHash
    && a.added == b.added
    && AsDouble(a.generation) == AsDouble(b.generation)
    && AsDouble(a.timestamp) == AsDouble(b.timestamp)
    && AsDouble(a.objectCount) == AsDouble(b.objectCount)
  }

  lemma {:induction false} BodyKeys(c: Checkpoint)
    ensures K.DistinctKeys(BodyFields(c))
  {
    hide Counter, Strings, ToHex;
    var f := BodyFields(c);
    assert |f[0].0| == 6 && |f[1].0| == 10 && |f[5].0| == 9 && |f[9].0| == 5;
    assert |f[2].0| == 11 && |f[3].0| == 11 && |f[6].0| == 11 && |f[7].0| == 11;
    assert |f[4].0| == 12 && |f[8].0| == 12;
    assert f[2].0[0] == 'm' && f[3].0[0] == 'p' && f[6].0[0] == 'p' && f[7].0[0] == 's';
    assert f[3].0[1] == 'a' && f[6].0[1] == 'o';
    assert f[4].0[0] == 'p' && f[8].0[0] == 'o';
  }

  lemma {:induction false} StringsNormal(items: seq<string>)
    ensures NormalizedItems(Strings(items)) == Strings(items)
  {
    var s := Strings(items);
    forall i | 0 <= i < |s| ensures NormalizedItems(s)[i] == s[i] {
      ItemsAt(s, i);
    }
  }

  /** The body's values are scalars and a list of strings: normalising only moves them. */
  lemma {:induction false} BodyValues(c: Checkpoint, i: nat)
    requires i < 10
    ensures Integral(BodyFields(c)[i].1) && Normalized(BodyFields(c)[i].1) == BodyFields(c)[i].1
  {
    hide Counter, ToHex;
    CounterIntegral(c.generation);
    CounterIntegral(c.timestamp);
    CounterIntegral(c.objectCount);
    StringsNormal(c.added);
  }

  lemma {:induction false} BodyIntegral(c: Checkpoint)
    ensures Integral(Obj(BodyFields(c)))
  {
    hide BodyFields;
    forall i | 0 <= i < 10 ensures Integral(BodyFields(c)[i].1) {
      BodyValues(c, i);
    }
  }

  /** Any field can be looked up in the normal form. */
  lemma {:induction false} BodyLookup(c: Checkpoint, i: nat)
    requires i < 10
    ensures Get(Normalized(Obj(BodyFields(c))), BodyFields(c)[i].0) == Some(BodyFields(c)[i].1)
  {
    hide BodyFields, Normalized, K.Find, K.DistinctKeys;
    var f := BodyFields(c);
    FieldFound(c, i);
    NormalizedKeepsGet(Obj(f), f[i].0);
    BodyValues(c, i);
  }

  lemma {:induction false} FieldFound(c: Checkpoint, i: nat)
    requires i < 10
    ensures K.Find(BodyFields(c), BodyFields(c)[i].0) == Some(BodyFields(c)[i].1)
  {
    hide BodyFields, K.Find;
    BodyKeys(c);
    K.FindAt(BodyFields(c), i);
  }

  lemma {:induction false} SameKeys(a: Checkpoint, b: Checkpoint, i: nat)
    requires i < 10
    ensures BodyFields(a)[i].0 == BodyFields(b)[i].0
  {
    hide Counter, Strings, ToHex;
  }

  lemma {:induction false} FieldAgrees(a: Checkpoint, b: Checkpoint, i: nat)
    requires i < 10 && Normalized(Obj(BodyFields(a))) == Normalized(Obj(BodyFields(b)))
    ensures BodyFields(a)[i].1 == BodyFields(b)[i].1
  {
    hide BodyFields, Normalized, Get;
    BodyLookup(a, i);
    BodyLookup(b, i);
    SameKeys(a, b, i);
  }

  lemma {:induction false} StringsInjective(a: seq<string>, b: seq<string>)
    requires Strings(a) == Strings(b)
    ensures a == b
  {
    forall i | 0 <= i < |a| ensures a[i] == b[i] {
      assert Strings(a)[i] == Strings(b)[i];
    }
  }

  /** The hashed text determines the record, and nothing else goes into it. */
  lemma {:induction false} BodyTextDetermines(a: Checkpoint, b: Checkpoint)
    ensures BodyText(a) == BodyText(b) && a.parentChain == b.parentChain <==> SameRecord(a, b)
  {
    hide Normalized, Write, AsDouble, Counter, ToHex, Strings;
    if BodyText(a) == BodyText(b) {
      BodyIntegral(a);
      BodyIntegral(b);
      JsonRoundTrip.CanonicalInjective(Obj(BodyFields(a)), Obj(BodyFields(b)));
      forall i: nat | i < 10 ensures BodyFields(a)[i].1 == BodyFields(b)[i].1 {
        FieldAgrees(a, b, i);
      }
      FieldsDetermine(a, b);
    }
    if SameRecord(a, b) {
      SameFields(a, b);
    }
  }

  lemma {:induction false} FieldsDetermine(a: Checkpoint, b: Checkpoint)
    requires forall i: nat :: i < 10 ==> BodyFields(a)[i].1 == BodyFields(b)[i].1
    ensures SameRecord(a, b)
  {
    hide AsDouble, Counter, ToHex, Strings;
    var f, g := BodyFields(a), BodyFields(b);
    assert f[0].1 == g[0].1 && f[1].1 == g[1].1 && f[2].1 == g[2].1 && f[3].1 == g[3].1 && f[4].1 == g[4].1;
    assert f[5].1 == g[5].1 && f[6].1 == g[6].1 && f[7].1 == g[7].1 && f[8].1 == g[8].1 && f[9].1 == g[9].1;
    CounterInjective(a.generation, b.generation);
    CounterInjective(a.timestamp, b.timestamp);
    CounterInjective(a.objectCount, b.objectCount);
    ToHexInjective(a.merkleRoot, b.merkleRoot);
    ToHexInjective(a.parentRoot, b.parentRoot);
    ToHexInjective(a.parentChain, b.parentChain);
    ToHexInjective(a.policyHash, b.policyHash);
    ToHexInjective(a.schemaHash, b.schemaHash);
    StringsInjective(a.added, b.added);
  }

  lemma {:induction false} SameFields(a: Checkpoint, b: Checkpoint)
    requires SameRecord(a, b)
    ensures BodyFields(a) == BodyFields(b)
  {
    hide AsDouble, Counter, ToHex, Strings;
    CounterInjective(a.generation, b.generation);
    CounterInjective(a.timestamp, b.timestamp);
    CounterInjective(a.objectCount, b.objectCount);
  }

  // ---- the chain ----------------------------------------------------------

  function Head(cs: seq<Checkpoint>): Digest {
    if cs == [] then ZeroDigest() else cs[|cs| - 1].chain
  }

  function SealedRoot(cs: seq<Checkpoint>): Digest {
    if cs == [] then M.EmptyRoot() else cs[|cs| - 1].merkleRoot
  }

  function LastGeneration(cs: seq<Checkpoint>): nat {
    if cs == [] then 0 else cs[|cs| - 1].generation
  }

  datatype ChainError = WrongGeneration(generation: nat) | WrongParent(generation: nat) | WrongDigest(generation: nat)

  /** What is wrong with `c` as the successor of a list, checked in the program's order. */
  function Objection(before: seq<Checkpoint>, c: Checkpoint): Option<ChainError> {
    if c.generation != LastGeneration(before) + 1 then Some(WrongGeneration(c.generation))
    else if c.parentChain != Head(before) || c.parentRoot != SealedRoot(before) then Some(WrongParent(c.generation))
    else if c.chain != ComputeChain(c) then Some(WrongDigest(c.generation))
    else None
  }

  ghost predicate Chained(cs: seq<Checkpoint>, i: nat)
    requires i < |cs|
  {
    Objection(cs[..i], cs[i]) == None
  }

  /** Every checkpoint chains to the one before it. */
  ghost predicate ChainValid(cs: seq<Checkpoint>) {
    forall i: nat :: i < |cs| ==> Chained(cs, i)
  }

  ghost predicate FirstBroken(cs: seq<Checkpoint>, i: nat, e: ChainError)
    requires i < |cs|
  {
    ChainValid(cs[..i]) && Objection(cs[..i], cs[i]) == Some(e)
  }

  /** `verify_chain`: the first objection, if there is one. */
  method VerifyChain(cs: seq<Checkpoint>) returns (r: Result<(), ChainError>)
    ensures r.Ok? <==> ChainValid(cs)
    ensures r.Err? ==> exists i: nat :: i < |cs| && FirstBroken(cs, i, r.error)
  {
    hide ComputeChain, M.EmptyRoot;
    var previous: Option<Checkpoint> := None;
    for k := 0 to |cs|
      invariant forall i: nat :: i < k ==> Chained(cs, i)
      invariant previous == if k == 0 then None else Some(cs[k - 1])
    {
      var c := cs[k];
      var parentChain := if previous.Some? then previous.value.chain else ZeroDigest();
      var parentRoot := if previous.Some? then previous.value.merkleRoot else M.EmptyRoot();
      var expected := if previous.Some? then previous.value.generation + 1 else 1;
      LastOf(cs, k);
      PrefixValid(cs, k);
      ghost var objection := Objection(cs[..k], c);
      assert objection.Some? ==> !Chained(cs, k) && FirstBroken(cs, k, objection.value);
      if c.generation != expected {
        return Err(WrongGeneration(c.generation));
      }
      if c.parentChain != parentChain || c.parentRoot != parentRoot {
        return Err(WrongParent(c.generation));
      }
      if c.chain != ComputeChain(c) {
        return Err(WrongDigest(c.generation));
      }
      previous := Some(c);
    }
    r := Ok(());
  }

  lemma {:induction false} LastOf(cs: seq<Checkpoint>, k: nat)
    requires k <= |cs|
    ensures LastGeneration(cs[..k]) == if k == 0 then 0 else cs[k - 1].generation
    ensures Head(cs[..k]) == if k == 0 then ZeroDigest() else cs[k - 1].chain
    ensures SealedRoot(cs[..k]) == if k == 0 then M.EmptyRoot() else cs[k - 1].merkleRoot
  {
    hide M.EmptyRoot;
  }

  lemma {:induction false} PrefixValid(cs: seq<Checkpoint>, k: nat)
    requires k <= |cs| && forall i: nat :: i < k ==> Chained(cs, i)
    ensures ChainValid(cs[..k])
  {
    hide Objection;
    forall i: nat | i < k ensures Chained(cs[..k], i) {
      assert Chained(cs, i);
      assert cs[..k][..i] == cs[..i];
    }
  }

  /** Sealing one more checkpoint keeps the chain valid. */
  lemma {:induction false} ChainExtends(cs: seq<Checkpoint>, c: Checkpoint)
    requires ChainValid(cs) && Objection(cs, c).None?
    ensures ChainValid(cs + [c])
  {
    hide Objection;
    var all := cs + [c];
    forall i: nat | i < |all| ensures Chained(all, i) {
      assert i < |cs| ==> Chained(cs, i);
      assert i < |cs| ==> all[..i] == cs[..i] && all[i] == cs[i];
      assert i == |cs| ==> all[..i] == cs;
    }
  }

  /** Generations count up from one without gaps. */
  lemma {:induction false} Generations(cs: seq<Checkpoint>, i: nat)
    requires ChainValid(cs) && i < |cs|
    ensures cs[i].generation == i + 1
  {
    hide ComputeChain, M.EmptyRoot;
    assert Chained(cs, i);
    LastOf(cs, i);
    if i > 0 {
      Generations(cs, i - 1);
    }
  }

  // ---- history is unique --------------------------------------------------

  /** The messages hashed along a chain. */
  ghost function ChainHashed(cs: seq<Checkpoint>): set<seq<u8>> {
    set i: nat | i < |cs| :: T.Encoding(CHAIN_TAG, ChainParts(cs[i]))
  }

  /** Bodies a 64-bit machine can hold. */
  ghost predicate BodiesFit(cs: seq<Checkpoint>) {
    forall i: nat :: i < |cs| ==> |Utf8.Encode(BodyText(cs[i]))| < TWO_64
  }

  lemma {:induction false} ChainSized(c: Checkpoint)
    requires |Utf8.Encode(BodyText(c))| < TWO_64
    ensures T.Sized([Utf8.Encode(CHAIN_TAG)] + ChainParts(c))
  {
    hide Utf8.Encode, BodyText;
    M.EncodedLength(CHAIN_TAG);
  }

  /** Among messages without collisions, a chain digest names one record. */
  lemma {:induction false} ChainDigestDetermines(all: set<seq<u8>>, a: Checkpoint, b: Checkpoint)
    requires T.NoCollision(all)
    requires T.Encoding(CHAIN_TAG, ChainParts(a)) in all && T.Encoding(CHAIN_TAG, ChainParts(b)) in all
    requires |Utf8.Encode(BodyText(a))| < TWO_64 && |Utf8.Encode(BodyText(b))| < TWO_64
    requires ComputeChain(a) == ComputeChain(b)
    ensures SameRecord(a, b)
  {
    hide T.Encoding, T.DigestOf, T.NoCollision, Utf8.Encode, BodyText, SameRecord;
    ChainSized(a);
    ChainSized(b);
    T.DigestDetermines(all, CHAIN_TAG, ChainParts(a), CHAIN_TAG, ChainParts(b));
    assert ChainParts(a)[0] == ChainParts(b)[0] && ChainParts(a)[1] == ChainParts(b)[1];
    Utf8.EncodeInjective(BodyText(a), BodyText(b));
    BodyTextDetermines(a, b);
  }

  lemma {:induction false} OneIsExact(n: nat)
    requires AsDouble(n) == 1
    ensures n == 1
  {
    if n >= LIMIT {
      AsDoubleLarge(n);
    }
  }

  lemma {:induction false} DropLast(cs: seq<Checkpoint>)
    requires ChainValid(cs) && cs != []
    ensures ChainValid(cs[..|cs| - 1])
    ensures cs[|cs| - 1].parentChain == Head(cs[..|cs| - 1])
    ensures cs[|cs| - 1].chain == ComputeChain(cs[|cs| - 1])
    ensures ChainHashed(cs[..|cs| - 1]) <= ChainHashed(cs)
    ensures T.Encoding(CHAIN_TAG, ChainParts(cs[|cs| - 1])) in ChainHashed(cs)
  {
    hide ComputeChain, M.EmptyRoot, T.Encoding, ChainParts;
    var n := |cs| - 1;
    PrefixValid(cs, n);
    assert Chained(cs, n);
    forall m | m in ChainHashed(cs[..n]) ensures m in ChainHashed(cs) {
      var i: nat :| i < n && m == T.Encoding(CHAIN_TAG, ChainParts(cs[..n][i]));
      assert cs[..n][i] == cs[i];
    }
  }

  /**
   History is unique: two verified chains with the same last digest have the same
   length and the same records all the way back.
   */
  lemma {:induction false} SameHistory(all: set<seq<u8>>, a: seq<Checkpoint>, b: seq<Checkpoint>)
    requires T.NoCollision(all) && ChainHashed(a) <= all && ChainHashed(b) <= all
    requires BodiesFit(a) && BodiesFit(b)
    requires ChainValid(a) && ChainValid(b) && a != [] && b != []
    requires Head(a) == Head(b)
    ensures |a| == |b| && forall i: nat :: i < |a| ==> SameRecord(a[i], b[i]) && a[i].chain == b[i].chain
  {
    hide T.Encoding, T.NoCollision, ChainHashed, ChainValid, ComputeChain, Utf8.Encode, BodyText, AsDouble;
    var p, q := |a| - 1, |b| - 1;
    DropLast(a);
    DropLast(b);
    ChainDigestDetermines(all, a[p], b[q]);
    Generations(a, p);
    Generations(b, q);
    if p == 0 || q == 0 {
      OneGeneration();
      OneIsExact(a[p].generation);
      OneIsExact(b[q].generation);
    } else {
      SameHistory(all, a[..p], b[..q]);
      assert p == q;
      forall i: nat | i < |a| ensures SameRecord(a[i], b[i]) && a[i].chain == b[i].chain {
        if i < p {
          assert a[..p][i] == a[i] && b[..q][i] == b[i];
        }
      }
    }
  }

  lemma {:induction false} OneGeneration()
    ensures AsDouble(1) == 1
  {
  }

  /** Counters below 2^53. */
  ghost predicate CountersExact(cs: seq<Checkpoint>) {
    forall i: nat :: i < |cs| ==>
      cs[i].generation < LIMIT && cs[i].timestamp < LIMIT && cs[i].objectCount < LIMIT
  }

  /** With counters below 2^53 the two chains are one list. */
  lemma {:induction false} UniqueHistory(a: seq<Checkpoint>, b: seq<Checkpoint>)
    requires T.NoCollision(ChainHashed(a) + ChainHashed(b)) && BodiesFit(a) && BodiesFit(b)
    requires ChainValid(a) && ChainValid(b) && a != [] && b != []
    requires CountersExact(a) && CountersExact(b)
    ensures Head(a) == Head(b) <==> a == b
  {
    hide T.NoCollision, ChainHashed, ChainValid, BodiesFit, BodyText;
    if Head(a) == Head(b) {
      SameHistory(ChainHashed(a) + ChainHashed(b), a, b);
      forall i | 0 <= i < |a| ensures a[i] == b[i] {
        assert SameRecord(a[i], b[i]);
      }
    }
  }

  /** The digest cannot see past a double: two counters at 2^53 give one digest. */
  lemma {:induction false} LargeCountersMerge(c: Checkpoint)
    ensures c.(timestamp := LIMIT) != c.(timestamp := LIMIT + 1)
    ensures ComputeChain(c.(timestamp := LIMIT)) == ComputeChain(c.(timestamp := LIMIT + 1))
  {
    hide BodyText, T.DigestOf;
    var a, b := c.(timestamp := LIMIT), c.(timestamp := LIMIT + 1);
    assert Unit(LIMIT, 1) == Unit(LIMIT + 1, 1) == 2 by {
      assert Unit(LIMIT, 2) == 2 && Unit(LIMIT + 1, 2) == 2;
    }
    assert AsDouble(LIMIT) == AsDouble(LIMIT + 1);
    BodyTextDetermines(a, b);
  }

  // ---- stored form --------------------------------------------------------

  /** `to_json`: the body and the digest. */
  function ToJson(c: Checkpoint): Json {
    Obj(BodyFields(c) + [("chain", Str(ToHex(c.chain)))])
  }

  function AsStr(v: Option<Json>): Option<string> {
    if v.Some? && v.value.Str? then Some(v.value.s) else None
  }

  /** `as_u64`: a negative number saturates at zero; a large double is read back by its digits. */
  function AsCount(v: Option<Json>): Option<nat> {
    if v.None? then None
    else
      match v.value
      case Num(n) => Some(if n < 0 then 0 else n)
      case Float(text, _) => Some(if AllDigits(text) then DigitsValue(text) else 0)
      case _ => None
  }

  function AsDigest(v: Option<Json>): Option<Digest> {
    match AsStr(v)
    case Some(text) => ParseHex(text)
    case None => None
  }

  /** `string_list`: what is not a string is dropped. */
  function StringList(v: Option<Json>): seq<string> {
    if v.Some? && v.value.Arr? then OnlyStrings(v.value.items) else []
  }

  function OnlyStrings(items: seq<Json>): seq<string> {
    if items == [] then []
    else (if items[0].Str? then [items[0].s] else []) + OnlyStrings(items[1..])
  }

  function FromJson(v: Json): Option<Checkpoint> {
    var generation := AsCount(Get(v, "generation"));
    var merkleRoot, parentRoot := AsDigest(Get(v, "merkle_root")), AsDigest(Get(v, "parent_root"));
    var chain, parentChain := AsDigest(Get(v, "chain")), AsDigest(Get(v, "parent_chain"));
    var policyHash, schemaHash := AsDigest(Get(v, "policy_hash")), AsDigest(Get(v, "schema_hash"));
    if AsStr(Get(v, "schema")) != Some(SCHEMA_VERSION) || generation.None? || merkleRoot.None? || parentRoot.None?
       || chain.None? || parentChain.None? || policyHash.None? || schemaHash.None?
    then None
    else
      Some(Checkpoint(
             SCHEMA_VERSION, generation.value, merkleRoot.value, parentRoot.value, chain.value, parentChain.value,
             AsCount(Get(v, "timestamp")).GetOr(0), policyHash.value, schemaHash.value,
             AsCount(Get(v, "object_count")).GetOr(0), StringList(Get(v, "added"))))
  }

  lemma {:induction false} OnlyStringsOf(items: seq<string>)
    ensures OnlyStrings(Strings(items)) == items
  {
    if items != [] {
      assert Strings(items)[1..] == Strings(items[1..]);
      OnlyStringsOf(items[1..]);
    }
  }

  lemma {:induction false} AsCountOf(n: nat)
    requires n < LIMIT
    ensures AsCount(Some(Counter(n))) == Some(n)
  {
  }

  lemma {:induction false} FindMore(f: seq<(string, Json)>, e: (string, Json), key: string)
    ensures K.Find(f, key).Some? ==> K.Find(f + [e], key) == K.Find(f, key)
    ensures K.Find(f, key).None? && e.0 == key ==> K.Find(f + [e], key) == Some(e.1)
  {
    K.FindAppend(f, e, key);
  }

  lemma {:induction false} StoredField(c: Checkpoint, i: nat)
    requires i < 10
    ensures Get(ToJson(c), BodyFields(c)[i].0) == Some(BodyFields(c)[i].1)
  {
    hide BodyFields, K.Find;
    FieldFound(c, i);
    FindMore(BodyFields(c), ("chain", Str(ToHex(c.chain))), BodyFields(c)[i].0);
  }

  lemma {:induction false} StoredChain(c: Checkpoint)
    ensures Get(ToJson(c), "chain") == Some(Str(ToHex(c.chain)))
  {
    hide BodyFields, K.Find;
    NoChainKey(c);
    K.FindAbsent(BodyFields(c), "chain");
    FindMore(BodyFields(c), ("chain", Str(ToHex(c.chain))), "chain");
  }

  lemma {:induction false} NoChainKey(c: Checkpoint)
    ensures forall i :: 0 <= i < 10 ==> BodyFields(c)[i].0 != "chain"
  {
    hide Counter, Strings, ToHex;
    var f := BodyFields(c);
    assert |f[0].0| == 6 && |f[1].0| == 10 && |f[5].0| == 9 && f[9].0[0] == 'a';
    assert |f[2].0| == 11 && |f[3].0| == 11 && |f[6].0| == 11 && |f[7].0| == 11 && |f[4].0| == 12 && |f[8].0| == 12;
  }

  /** All the lookups `from_json` makes. */
  lemma {:induction false} StoredFields(c: Checkpoint)
    ensures var v := ToJson(c);
            && Get(v, "schema") == Some(Str(c.schema))
            && Get(v, "generation") == Some(Counter(c.generation))
            && Get(v, "merkle_root") == Some(Str(ToHex(c.merkleRoot)))
            && Get(v, "parent_root") == Some(Str(ToHex(c.parentRoot)))
            && Get(v, "parent_chain") == Some(Str(ToHex(c.parentChain)))
            && Get(v, "timestamp") == Some(Counter(c.timestamp))
            && Get(v, "policy_hash") == Some(Str(ToHex(c.policyHash)))
            && Get(v, "schema_hash") == Some(Str(ToHex(c.schemaHash)))
            && Get(v, "object_count") == Some(Counter(c.objectCount))
            && Get(v, "added") == Some(Arr(Strings(c.added)))
  {
    hide Counter, Strings, ToHex, Get, ToJson;
    StoredField(c, 0);
    StoredField(c, 1);
    StoredField(c, 2);
    StoredField(c, 3);
    StoredField(c, 4);
    StoredField(c, 5);
    StoredField(c, 6);
    StoredField(c, 7);
    StoredField(c, 8);
    StoredField(c, 9);
  }

  /** A checkpoint written to disk is read back as it was. */
  lemma {:induction false} CheckpointReloads(c: Checkpoint)
    requires c.schema == SCHEMA_VERSION
    requires c.generation < LIMIT && c.timestamp < LIMIT && c.objectCount < LIMIT
    ensures JsonParse.Parse(Write(ToJson(c))).Some?
    ensures FromJson(JsonParse.Parse(Write(ToJson(c))).value) == Some(c)
  {
    hide Counter, Strings, ToHex, ParseHex, Get, ToJson, JsonParse.Parse, Write, Integral, OnlyStrings;
    ToJsonIntegral(c);
    JsonRoundTrip.ParseWrite(ToJson(c));
    StoredFields(c);
    StoredChain(c);
    AsCountOf(c.generation);
    AsCountOf(c.timestamp);
    AsCountOf(c.objectCount);
    OnlyStringsOf(c.added);
    ParseHexToHex(c.merkleRoot);
    ParseHexToHex(c.parentRoot);
    ParseHexToHex(c.chain);
    ParseHexToHex(c.parentChain);
    ParseHexToHex(c.policyHash);
    ParseHexToHex(c.schemaHash);
  }

  lemma {:induction false} ToJsonIntegral(c: Checkpoint)
    ensures Integral(ToJson(c))
  {
    hide BodyFields;
    var f := BodyFields(c) + [("chain", Str(ToHex(c.chain)))];
    forall i | 0 <= i < |f| ensures Integral(f[i].1) {
      if i < 10 {
        BodyValues(c, i);
      }
    }
  }
}
