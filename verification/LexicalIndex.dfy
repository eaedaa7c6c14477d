/**
 The incremental inverted index (src/index.rs).

 `docs` is what the index has been told; the fields are what it keeps.  `Valid` says the
 fields are a function of `docs`, every method keeps it so, and `Search` is proved equal
 to a function of `docs` alone.  Texts come in as their content tokens; scores are exact
 reals, with the logarithm a parameter.
 */
module LexicalIndexing {
  import A = Arithmetic
  import K = Keyed
  import Sorting
  import T = Tables

  type DocId = nat

  type Tokens = seq<string>

  function Count(tokens: Tokens, t: string): nat {
    if tokens == [] then 0 else Count(tokens[..|tokens| - 1], t) + if tokens[|tokens| - 1] == t then 1 else 0
  }

  lemma {:induction false} CountPositive(tokens: Tokens, t: string)
    ensures Count(tokens, t) > 0 <==> t in tokens
  {
    if tokens != [] {
      CountPositive(tokens[..|tokens| - 1], t);
      assert tokens == tokens[..|tokens| - 1] + [tokens[|tokens| - 1]];
    }
  }

  // ---- sums over a map ----------------------------------------------------

  ghost function SumOver(m: map<DocId, nat>, keys: set<DocId>): nat
    requires keys <= m.Keys
  {
    if keys == {} then 0
    else
      var k: DocId :| k in keys;
      m[k] + SumOver(m, keys - {k})
  }

  lemma {:induction false} SumTakes(m: map<DocId, nat>, keys: set<DocId>, k: DocId)
    requires keys <= m.Keys && k in keys
    ensures SumOver(m, keys) == m[k] + SumOver(m, keys - {k})
    decreases |keys|
  {
    var j := FirstOf(m, keys);
    if j != k {
      SumTakes(m, keys - {j}, k);
      SumTakes(m, keys - {k}, j);
      assert keys - {j} - {k} == keys - {k} - {j};
    }
  }

  lemma {:induction false} FirstOf(m: map<DocId, nat>, keys: set<DocId>) returns (k: DocId)
    requires keys <= m.Keys && keys != {}
    ensures k in keys && SumOver(m, keys) == m[k] + SumOver(m, keys - {k})
  {
    k :| k in keys && SumOver(m, keys) == m[k] + SumOver(m, keys - {k});
  }

  lemma {:induction false} SumSame(m: map<DocId, nat>, m': map<DocId, nat>, keys: set<DocId>)
    requires keys <= m.Keys && keys <= m'.Keys && forall k :: k in keys ==> m[k] == m'[k]
    ensures SumOver(m, keys) == SumOver(m', keys)
    decreases |keys|
  {
    if keys != {} {
      var k := FirstOf(m, keys);
      SumTakes(m', keys, k);
      SumSame(m, m', keys - {k});
    }
  }

  ghost function Sum(m: map<DocId, nat>): nat {
    SumOver(m, m.Keys)
  }

  lemma {:induction false} SumWithout(m: map<DocId, nat>, k: DocId)
    requires k in m
    ensures Sum(m) == m[k] + Sum(m - {k})
  {
    SumTakes(m, m.Keys, k);
    assert (m - {k}).Keys == m.Keys - {k};
    SumSame(m, m - {k}, m.Keys - {k});
  }

  lemma {:induction false} SumWith(m: map<DocId, nat>, k: DocId, n: nat)
    requires k !in m
    ensures Sum(m[k := n]) == Sum(m) + n
  {
    SumWithout(m[k := n], k);
    assert m[k := n] - {k} == m;
  }

  // ---- what the fields say ------------------------------------------------

  /** Which documents hold a token, and how often. */
  ghost predicate PostingsExact(postings: map<string, map<DocId, nat>>, docs: map<DocId, Tokens>) {
    forall t: string, id: DocId ::
      (t in postings && id in postings[t] <==> id in docs && t in docs[id])
      && (t in postings && id in postings[t] ==> postings[t][id] == Count(docs[id], t))
  }

  ghost predicate NoneEmpty(postings: map<string, map<DocId, nat>>) {
    forall t: string :: t in postings ==> postings[t] != map[]
  }

  ghost predicate LengthsExact(lengths: map<DocId, nat>, docs: map<DocId, Tokens>) {
    lengths.Keys == docs.Keys && forall id: DocId :: id in docs ==> lengths[id] == |docs[id]|
  }

  // ---- scoring ------------------------------------------------------------

  const K1 := 1.4
  const B := 0.72

  function AtLeastOne(x: nat): real {
    if x == 0 then 1.0 else x as real
  }

  /** The mean length, at least one. */
  function Average(docCount: nat, total: nat): (avg: real)
    ensures avg >= 1.0
  {
    var mean := total as real / AtLeastOne(docCount);
    if total == 0 || mean < 1.0 then 1.0 else mean
  }

  /** The BM25 contribution of one token to one document. */
  function Weight(ln: real -> real, tf: nat, df: nat, length: nat, docCount: nat, total: nat): real
    requires tf > 0
  {
    var n, avg := AtLeastOne(docCount), Average(docCount, total);
    var idf := ln(1.0 + (n - df as real + 0.5) / (df as real + 0.5));
    DenominatorPositive(tf, AtLeastOne(length), avg);
    idf * (tf as real * (K1 + 1.0)) / (tf as real + K1 * (1.0 - B + B * AtLeastOne(length) / avg))
  }

  lemma {:induction false} DenominatorPositive(tf: nat, length: real, avg: real)
    requires tf > 0 && length >= 0.0 && avg >= 1.0
    ensures tf as real + K1 * (1.0 - B + B * length / avg) > 0.0
  {
    assert B * length / avg >= 0.0;
  }

  /** What a logarithm is relied on for. */
  ghost predicate LogLike(ln: real -> real) {
    && (forall x: real :: x >= 1.0 ==> ln(x) >= 0.0)
    && (forall x: real, y: real :: 1.0 <= x <= y ==> ln(x) <= ln(y))
  }

  lemma {:induction false} Cancel(d: real, z: real)
    requires z > 0.0 && d * z >= 0.0
    ensures d >= 0.0
  {
  }

  lemma {:induction false} Cross(a: real, x: real, b: real, y: real)
    requires x > 0.0 && y > 0.0 && a * y <= b * x
    ensures a / x <= b / y
  {
    var p, q := a / x, b / y;
    assert a == p * x && b == q * y;
    assert (q - p) * (x * y) == b * x - a * y;
    Cancel(q - p, x * y);
  }

  lemma {:induction false} Products(a: real, b: real, c: real, d: real)
    requires 0.0 <= a <= b && 0.0 <= d <= c
    ensures 0.0 <= a * d <= b * c
  {
    assert a * d <= b * d && b * d <= b * c;
  }

  lemma {:induction false} FractionGrows(a: real, b: real, c: real, d: real)
    requires 0.0 < a <= b && 0.0 <= d <= c
    ensures 0.0 <= a / (a + c) <= b / (b + d)
  {
    Products(a, b, c, d);
    assert a * (b + d) == a * b + a * d && b * (a + c) == a * b + b * c;
    Cross(a, a + c, b, b + d);
    Cross(0.0, a + c, a, a + c);
  }

  /** The inverse document frequency: never negative, and no higher for a token that more documents hold. */
  function Rarity(ln: real -> real, df: nat, docCount: nat): real {
    ln(1.0 + (AtLeastOne(docCount) - df as real + 0.5) / (df as real + 0.5))
  }

  lemma {:induction false} RarityFalls(ln: real -> real, df: nat, more: nat, docCount: nat)
    requires LogLike(ln) && df <= more <= docCount
    ensures 0.0 <= Rarity(ln, more, docCount) <= Rarity(ln, df, docCount)
  {
    var n := AtLeastOne(docCount);
    var x, y := n - more as real + 0.5, n - df as real + 0.5;
    var p, q := more as real + 0.5, df as real + 0.5;
    assert 0.0 <= x <= y && 0.0 < q <= p;
    Products(x, y, p, q);
    Cross(x, p, y, q);
    assert 0.0 / p <= x / p by { Cross(0.0, p, x, p); }
  }

  /**
   A token counts for no less in a document that holds it more often, in a shorter one, and
   when fewer documents hold it; and never against a document.
   */
  lemma {:induction false} WeightFavours(
    ln: real -> real, tf: nat, df: nat, length: nat, tf': nat, df': nat, length': nat, docCount: nat, total: nat)
    requires LogLike(ln) && 0 < tf <= tf' && df' <= df <= docCount && length' <= length
    ensures 0.0 <= Weight(ln, tf, df, length, docCount, total) <= Weight(ln, tf', df', length', docCount, total)
  {
    hide Rarity, LogLike, Average, Weight, Penalty;
    var avg := Average(docCount, total);
    var c, d := Penalty(length, avg), Penalty(length', avg);
    PenaltyGrows(length', length, avg);
    PenaltyGrows(length', length', avg);
    RarityFalls(ln, df', df, docCount);
    WeightIs(ln, tf, df, length, docCount, total);
    WeightIs(ln, tf', df', length', docCount, total);
    FractionGrows(tf as real, tf' as real, c, d);
    Product(Rarity(ln, df, docCount), Rarity(ln, df', docCount),
            tf as real / (tf as real + c), tf' as real / (tf' as real + d));
  }

  lemma {:induction false} Product(r: real, s: real, u: real, v: real)
    requires 0.0 <= r <= s && 0.0 <= u <= v
    ensures 0.0 <= r * u * (K1 + 1.0) <= s * v * (K1 + 1.0)
  {
    Products(r, s, v, u);
  }

  /** How far a document's length holds its tokens back. */
  function Penalty(length: nat, avg: real): real
    requires avg >= 1.0
  {
    K1 * (1.0 - B + B * AtLeastOne(length) / avg)
  }

  lemma {:induction false} PenaltyGrows(length: nat, longer: nat, avg: real)
    requires avg >= 1.0 && length <= longer
    ensures 0.0 <= Penalty(length, avg) <= Penalty(longer, avg)
  {
    var x, y := B * AtLeastOne(length), B * AtLeastOne(longer);
    assert x * avg <= y * avg;
    Cross(x, avg, y, avg);
    assert x / avg >= 0.0 by { Cross(0.0, avg, x, avg); }
  }

  lemma {:induction false} WeightIs(ln: real -> real, tf: nat, df: nat, length: nat, docCount: nat, total: nat)
    requires tf > 0
    ensures var p := Penalty(length, Average(docCount, total));
      && tf as real + p > 0.0
      && Weight(ln, tf, df, length, docCount, total)
         == Rarity(ln, df, docCount) * (tf as real / (tf as real + p)) * (K1 + 1.0)
  {
    var avg := Average(docCount, total);
    DenominatorPositive(tf, AtLeastOne(length), avg);
    var x, y := tf as real, tf as real + Penalty(length, avg);
    var r, k := Rarity(ln, df, docCount), K1 + 1.0;
    assert r * (x * k) / y == r * (x / y) * k;
  }

  /** The documents that hold a token. */
  ghost function Holders(docs: map<DocId, Tokens>, t: string): set<DocId> {
    set id | id in docs && t in docs[id]
  }

  ghost function TokenWeight(ln: real -> real, docs: map<DocId, Tokens>, id: DocId, t: string): real
    requires id in docs && t in docs[id]
  {
    CountPositive(docs[id], t);
    Weight(ln, Count(docs[id], t), |Holders(docs, t)|, |docs[id]|, |docs|, Sum(LengthsOf(docs)))
  }

  function LengthsOf(docs: map<DocId, Tokens>): map<DocId, nat> {
    map id | id in docs :: |docs[id]|
  }

  /** The score of one document: the query's tokens in order, those the document lacks passed over. */
  ghost function Score(ln: real -> real, docs: map<DocId, Tokens>, id: DocId, query: Tokens): real
    requires id in docs
  {
    if query == [] then 0.0
    else
      var last := query[|query| - 1];
      Score(ln, docs, id, query[..|query| - 1]) + if last in docs[id] then TokenWeight(ln, docs, id, last) else 0.0
  }

  /** The documents a query touches. */
  ghost function Matched(docs: map<DocId, Tokens>, query: Tokens): set<DocId> {
    set id | id in docs && exists t :: t in query && t in docs[id]
  }

  ghost function Scores(ln: real -> real, docs: map<DocId, Tokens>, query: Tokens): map<DocId, real> {
    map id | id in Matched(docs, query) :: Score(ln, docs, id, query)
  }

  // ---- ranking ------------------------------------------------------------

  /** Best first; ties in order of id. */
  predicate Before(a: (DocId, real), b: (DocId, real)) {
    a.1 > b.1 || (a.1 == b.1 && a.0 <= b.0)
  }

  function Take<T>(s: seq<T>, k: nat): seq<T> {
    if |s| <= k then s else s[..k]
  }

  function Ranked(scored: seq<(DocId, real)>, k: nat): seq<(DocId, real)> {
    Take(Sorting.Sort((a: (DocId, real), b: (DocId, real)) => Before(a, b), scored), k)
  }

  /** The entries of a score map, each once, in some order. */
  ghost predicate Lists(scored: seq<(DocId, real)>, m: map<DocId, real>) {
    && |scored| == |m|
    && (forall i, j :: 0 <= i < j < |scored| ==> scored[i].0 != scored[j].0)
    && (forall i :: 0 <= i < |scored| ==> scored[i].0 in m && m[scored[i].0] == scored[i].1)
  }

  lemma {:induction false} ListsAll(scored: seq<(DocId, real)>, m: map<DocId, real>, id: DocId)
    requires Lists(scored, m) && id in m
    ensures (id, m[id]) in scored
  {
    var found := set i | 0 <= i < |scored| :: scored[i].0;
    IdsCounted(scored);
    if id !in found {
      assert found <= m.Keys - {id};
      A.SubsetSize(found, m.Keys - {id});
    }
  }

  lemma {:induction false} IdsCounted(scored: seq<(DocId, real)>)
    requires forall i, j :: 0 <= i < j < |scored| ==> scored[i].0 != scored[j].0
    ensures |set i | 0 <= i < |scored| :: scored[i].0| == |scored|
  {
    if scored != [] {
      var front := scored[..|scored| - 1];
      IdsCounted(front);
      var before := set i | 0 <= i < |front| :: front[i].0;
      var all := set i | 0 <= i < |scored| :: scored[i].0;
      assert all == before + {scored[|scored| - 1].0};
    }
  }

  lemma {:induction false} ListsOnce(scored: seq<(DocId, real)>, m: map<DocId, real>, e: (DocId, real))
    requires Lists(scored, m)
    ensures multiset(scored)[e] == if e.0 in m && m[e.0] == e.1 then 1 else 0
  {
    if e in scored {
      var i: nat :| i < |scored| && scored[i] == e;
      var front, back := scored[..i], scored[i + 1..];
      assert scored == front + [e] + back;
      forall j | 0 <= j < |front| ensures front[j] != e { assert scored[j].0 != scored[i].0; }
      forall j | 0 <= j < |back| ensures back[j] != e { assert scored[i].0 != scored[i + 1 + j].0; }
      assert e !in front && e !in back;
      assert multiset(front)[e] == 0 && multiset(back)[e] == 0;
    } else {
      assert multiset(scored)[e] == 0;
      if e.0 in m && m[e.0] == e.1 {
        ListsAll(scored, m, e.0);
      }
    }
  }

  /** The ranking does not depend on the order a hash map hands its entries out in. */
  lemma {:induction false} RankingIsOne(a: seq<(DocId, real)>, b: seq<(DocId, real)>, m: map<DocId, real>, k: nat)
    requires Lists(a, m) && Lists(b, m)
    ensures Ranked(a, k) == Ranked(b, k)
  {
    hide Lists, Take;
    var le := (x: (DocId, real), y: (DocId, real)) => Before(x, y);
    forall e ensures multiset(a)[e] == multiset(b)[e] {
      ListsOnce(a, m, e);
      ListsOnce(b, m, e);
    }
    assert Sorting.TotalPreorder(le);
    NoTies(a);
    Sorting.SortInvariant(le, a, b);
  }

  lemma {:induction false} NoTies(a: seq<(DocId, real)>)
    ensures forall x: (DocId, real), y: (DocId, real) ::
              x in a && y in a && Before(x, y) && Before(y, x) ==> x == y
  {
  }

  ghost predicate IsSearch(
    ln: real -> real, docs: map<DocId, Tokens>, query: Tokens, k: nat, found: seq<(DocId, real)>)
  {
    exists scored :: Lists(scored, Scores(ln, docs, query)) && found == Ranked(scored, k)
  }

  /** What a search returns is a function of the documents alone. */
  lemma {:induction false} SearchIsFunction(
    ln: real -> real, docs: map<DocId, Tokens>, query: Tokens, k: nat,
    a: seq<(DocId, real)>, b: seq<(DocId, real)>)
    requires IsSearch(ln, docs, query, k, a) && IsSearch(ln, docs, query, k, b)
    ensures a == b
  {
    hide Scores, Lists, Ranked;
    var m := Scores(ln, docs, query);
    var x :| Lists(x, m) && a == Ranked(x, k);
    var y :| Lists(y, m) && b == Ranked(y, k);
    RankingIsOne(x, y, m, k);
  }

  lemma {:induction false} RankedProperties(scored: seq<(DocId, real)>, m: map<DocId, real>, k: nat)
    requires Lists(scored, m)
    ensures |Ranked(scored, k)| == if |m| <= k then |m| else k
    ensures forall i, j :: 0 <= i < j < |Ranked(scored, k)| ==> Before(Ranked(scored, k)[i], Ranked(scored, k)[j])
    ensures forall i :: 0 <= i < |Ranked(scored, k)| ==>
              Ranked(scored, k)[i].0 in m && m[Ranked(scored, k)[i].0] == Ranked(scored, k)[i].1
    ensures forall id: DocId, i :: id in m && 0 <= i < |Ranked(scored, k)| && (id, m[id]) !in Ranked(scored, k) ==>
              Before(Ranked(scored, k)[i], (id, m[id]))
  {
    var le := (x: (DocId, real), y: (DocId, real)) => Before(x, y);
    assert Sorting.TotalPreorder(le);
    var s := Sorting.Sort(le, scored);
    Sorting.SortSorted(le, scored);
    Sorting.SortMembers(le, scored);
    Sorting.SortPermutes(le, scored);
    var r := Ranked(scored, k);
    forall i, j | 0 <= i < j < |r| ensures Before(r[i], r[j]) {
      assert le(s[i], s[j]);
    }
    forall i | 0 <= i < |r| ensures r[i].0 in m && m[r[i].0] == r[i].1 {
      assert s[i] in scored;
    }
    forall id: DocId, i | id in m && 0 <= i < |r| && (id, m[id]) !in r ensures Before(r[i], (id, m[id])) {
      ListsAll(scored, m, id);
      var j: nat :| j < |s| && s[j] == (id, m[id]);
      assert forall q :: 0 <= q < |r| ==> r[q] == s[q];
      assert le(s[i], s[j]);
    }
  }

  /** The document holds a word of the query. */
  ghost predicate Touched(docs: map<DocId, Tokens>, query: Tokens, id: DocId) {
    id in docs && exists t :: t in query && t in docs[id]
  }

  /** Scores higher, or as high under a lower id. */
  ghost predicate Beats(a: (DocId, real), b: (DocId, real)) {
    a.1 > b.1 || (a.1 == b.1 && a.0 < b.0)
  }

  lemma {:induction false} BeforeBeats(a: (DocId, real), b: (DocId, real))
    requires Before(a, b) && a.0 != b.0
    ensures Beats(a, b)
  {
  }

  /** A search returns the best documents that hold a word of the query, each once, under its score. */
  lemma {:induction false} SearchIsBest(
    ln: real -> real, docs: map<DocId, Tokens>, query: Tokens, k: nat, found: seq<(DocId, real)>)
    requires IsSearch(ln, docs, query, k, found)
    ensures |found| == if |Matched(docs, query)| <= k then |Matched(docs, query)| else k
    ensures forall i: nat :: i < |found| ==>
              Touched(docs, query, found[i].0) && found[i].1 == Score(ln, docs, found[i].0, query)
    ensures forall i: nat, j: nat :: i < j < |found| ==> Beats(found[i], found[j])
    ensures forall id: DocId, i: nat ::
              Touched(docs, query, id) && i < |found| && (forall j: nat :: j < |found| ==> found[j].0 != id) ==>
                Beats(found[i], (id, Score(ln, docs, id, query)))
  {
    hide Score, Ranked, Before, Beats;
    var m := Scores(ln, docs, query);
    var scored :| Lists(scored, m) && found == Ranked(scored, k);
    assert m.Keys == Matched(docs, query);
    RankedProperties(scored, m, k);
    RankedOnce(scored, m, k);
    forall i: nat, j: nat | i < j < |found| ensures Beats(found[i], found[j]) {
      BeforeBeats(found[i], found[j]);
    }
    forall id: DocId, i: nat
      | Touched(docs, query, id) && i < |found| && (forall j: nat :: j < |found| ==> found[j].0 != id)
      ensures Beats(found[i], (id, Score(ln, docs, id, query)))
    {
      assert id in m && m[id] == Score(ln, docs, id, query);
      assert (id, m[id]) !in found;
      BeforeBeats(found[i], (id, m[id]));
    }
  }

  lemma {:induction false} RankedOnce(scored: seq<(DocId, real)>, m: map<DocId, real>, k: nat)
    requires Lists(scored, m)
    ensures var r := Ranked(scored, k); forall i: nat, j: nat :: i < j < |r| ==> r[i].0 != r[j].0
  {
    hide Before;
    var le := (x: (DocId, real), y: (DocId, real)) => Before(x, y);
    var s := Sorting.Sort(le, scored);
    Sorting.SortPermutes(le, scored);
    Sorting.SortMembers(le, scored);
    forall i: nat, j: nat | i < j < |s| ensures s[i].0 != s[j].0 {
      if s[i].0 == s[j].0 {
        assert s[i] in scored && s[j] in scored;
        assert s[i] == s[j];
        ListsOnce(scored, m, s[i]);
        Sorting.CountedTwice(s, i, j);
      }
    }
  }

  // ---- the program --------------------------------------------------------

  class LexicalIndex {
    var postings: map<string, map<DocId, nat>>
    var lengths: map<DocId, nat>
    var totalLen: nat
    /** What has been added and not removed. */
    ghost var docs: map<DocId, Tokens>

    ghost predicate Valid()
      reads this
    {
      && PostingsExact(postings, docs) && NoneEmpty(postings) && LengthsExact(lengths, docs)
      && totalLen == Sum(lengths)
    }

    constructor ()
      ensures Valid() && docs == map[]
    {
      postings, lengths, totalLen, docs := map[], map[], 0, map[];
    }

    /** How often each token occurs. */
    method CountTokens(tokens: Tokens) returns (counts: map<string, nat>)
      ensures forall t :: t in counts <==> t in tokens
      ensures forall t :: t in counts ==> counts[t] == Count(tokens, t)
    {
      counts := map[];
      for i := 0 to |tokens|
        invariant forall t :: t in counts <==> t in tokens[..i]
        invariant forall t :: t in counts ==> counts[t] == Count(tokens[..i], t)
      {
        var t := tokens[i];
        assert tokens[..i + 1] == tokens[..i] + [t];
        assert tokens[..i + 1][..i] == tokens[..i];
        CountPositive(tokens[..i], t);
        counts := counts[t := (if t in counts then counts[t] else 0) + 1];
      }
      assert tokens[..|tokens|] == tokens;
    }

    method Add(id: DocId, tokens: Tokens)
      requires Valid()
      modifies this
      ensures Valid() && docs == old(docs)[id := tokens]
    {
      hide PostingsExact, NoneEmpty, Count, Sum, Inserted;
      if id in lengths {
        Remove(id);
      }
      NotListed();
      assert docs == old(docs) - {id};
      ghost var without := docs;
      SumWith(lengths, id, |tokens|);
      docs := docs[id := tokens];
      assert docs == old(docs)[id := tokens];
      if tokens == [] {
        EmptyAdds(postings, without, id);
        lengths := lengths[id := 0];
        return;
      }
      var counts := CountTokens(tokens);
      AddedExact(postings, without, id, tokens, counts);
      InsertCounts(id, counts);
      lengths := lengths[id := |tokens|];
      totalLen := totalLen + |tokens|;
    }

    lemma {:induction false} NotListed()
      requires Valid()
      ensures lengths.Keys == docs.Keys
    {
      hide PostingsExact, NoneEmpty;
    }

    /** One posting per distinct token, in whatever order the map gives them. */
    method InsertCounts(id: DocId, counts: map<string, nat>)
      modifies this`postings
      ensures postings == Inserted(old(postings), id, counts)
    {
      var left := counts.Keys;
      ghost var done: map<string, nat> := map[];
      InsertedNone(postings, id);
      while left != {}
        invariant left <= counts.Keys && done.Keys == counts.Keys - left
        invariant forall t :: t in done ==> done[t] == counts[t]
        invariant postings == Inserted(old(postings), id, done)
        decreases |left|
      {
        var t :| t in left;
        InsertedNext(old(postings), id, done, t, counts[t]);
        postings := postings[t := Posting(postings, t)[id := counts[t]]];
        done := done[t := counts[t]];
        left := left - {t};
      }
      assert done == counts;
    }

    method Remove(id: DocId)
      requires Valid()
      modifies this
      ensures Valid() && docs == old(docs) - {id}
      ensures totalLen + (if id in old(lengths) then old(lengths)[id] else 0) == old(totalLen)
    {
      hide PostingsExact, NoneEmpty, Sum;
      NotListed();
      var length := if id in lengths then lengths[id] else 0;
      if id in lengths {
        SumWithout(lengths, id);
      } else {
        assert lengths - {id} == lengths;
      }
      lengths := lengths - {id};
      totalLen := SaturatingSub(totalLen, length);
      DropPostings(id);
      RemovedExact(old(postings), docs, id);
      docs := docs - {id};
    }

    /** `search`: score what the query touches, then rank it. */
    method Search(ln: real -> real, query: Tokens, k: nat) returns (found: seq<(DocId, real)>)
      requires Valid()
      ensures IsSearch(ln, docs, Distinct(query), k, found)
    {
      hide Valid, Scores, Lists, Ranked, Distinct;
      var seen := Distinct(query);
      var scores: map<DocId, real> := map[];
      NothingScored(ln, docs);
      assert seen[..0] == [];
      for q := 0 to |seen|
        invariant scores == Scores(ln, docs, seen[..q])
      {
        assert seen[..q + 1] == seen[..q] + [seen[q]];
        scores := ScoreToken(ln, seen[..q], seen[q], scores);
      }
      assert seen[..|seen|] == seen;
      var scored := ListScores(scores);
      found := Ranked(scored, k);
    }

    /** One token's posting, added to the scores. */
    method ScoreToken(ln: real -> real, ghost before: Tokens, t: string, scores: map<DocId, real>)
      returns (more: map<DocId, real>)
      requires Valid() && scores == Scores(ln, docs, before)
      ensures more == Scores(ln, docs, before + [t])
    {
      hide Weight, Sum, Count, Score, WithToken, Holders;
      HoldersAre(postings, docs, t);
      if t !in postings {
        PassedOver(ln, docs, before, t);
        return scores;
      }
      more := AddPosting(ln, t, scores);
      AddedUp(ln, docs, before, t, more);
    }

    /** Every entry of a posting, in whatever order the map gives them. */
    method AddPosting(ln: real -> real, t: string, scores: map<DocId, real>) returns (more: map<DocId, real>)
      requires Valid() && t in postings && scores.Keys <= docs.Keys
      ensures postings[t].Keys <= Holders(docs, t)
      ensures more == WithToken(ln, docs, scores, postings[t].Keys, t)
    {
      hide Weight, PostingsExact, Sum, TokenWeight, WithToken, Holders, NoneEmpty, LengthsExact;
      var posting := postings[t];
      HoldersAre(postings, docs, t);
      WithNone(ln, docs, scores, t);
      more := scores;
      var left := posting.Keys;
      ghost var done: set<DocId> := {};
      while left != {}
        invariant left <= posting.Keys && done == posting.Keys - left
        invariant more == WithToken(ln, docs, scores, done, t)
        decreases |left|
      {
        var id :| id in left;
        WeightIs(ln, id, t);
        WithNext(ln, docs, scores, done, t, id);
        var weight := Weight(ln, posting[id], |posting|, lengths[id], |lengths|, totalLen);
        more := more[id := (if id in more then more[id] else 0.0) + weight];
        left := left - {id};
        done := done + {id};
      }
      assert done == posting.Keys;
    }

    lemma {:induction false} WeightIs(ln: real -> real, id: DocId, t: string)
      requires Valid() && t in postings && id in postings[t]
      ensures id in lengths && id in docs && t in docs[id] && postings[t][id] > 0
      ensures Weight(ln, postings[t][id], |postings[t]|, lengths[id], |lengths|, totalLen)
              == TokenWeight(ln, docs, id, t)
    {
      hide Weight, Sum, Count, NoneEmpty;
      CountPositive(docs[id], t);
      HoldersAre(postings, docs, t);
      assert lengths == LengthsOf(docs);
      assert |docs| == |docs.Keys| == |lengths.Keys| == |lengths|;
      assert |Holders(docs, t)| == |postings[t].Keys| == |postings[t]|;
    }

    /** The entries of the score map, in whatever order it gives them. */
    method ListScores(scores: map<DocId, real>) returns (scored: seq<(DocId, real)>)
      ensures Lists(scored, scores)
    {
      scored := [];
      var left := scores.Keys;
      while left != {}
        invariant left <= scores.Keys && |scored| + |left| == |scores|
        invariant forall i, j :: 0 <= i < j < |scored| ==> scored[i].0 != scored[j].0
        invariant forall i :: 0 <= i < |scored| ==>
            scored[i].0 in scores && scored[i].0 !in left && scores[scored[i].0] == scored[i].1
        decreases |left|
      {
        var id :| id in left;
        scored := scored + [(id, scores[id])];
        left := left - {id};
      }
    }

    /** `retain`: the id leaves every posting, and postings left empty go. */
    method DropPostings(id: DocId)
      modifies this`postings
      ensures postings == Dropped(old(postings), id)
    {
      var left := postings.Keys;
      while left != {}
        invariant left <= postings.Keys <= old(postings).Keys
        invariant forall t :: t in left ==> postings[t] == old(postings)[t]
        invariant forall t :: t in old(postings) && t !in left ==>
            (t in postings <==> old(postings)[t] - {id} != map[])
        invariant forall t :: t in postings && t !in left ==> postings[t] == old(postings)[t] - {id}
        decreases |left|
      {
        var t :| t in left;
        var rest := postings[t] - {id};
        postings := if rest == map[] then postings - {t} else postings[t := rest];
        left := left - {t};
      }
    }
  }

  /** The query's tokens, each once, in order. */
  function Distinct(query: Tokens): Tokens {
    T.Keys(K.Canonical(seq(|query|, i requires 0 <= i < |query| => (query[i], ()))))
  }

  lemma {:induction false} DistinctTokens(query: Tokens)
    ensures forall t :: t in Distinct(query) <==> t in query
    ensures forall i, j :: 0 <= i < j < |Distinct(query)| ==> Distinct(query)[i] != Distinct(query)[j]
  {
    hide K.Canonical, K.Find;
    var pairs: seq<(string, ())> := seq(|query|, i requires 0 <= i < |query| => (query[i], ()));
    var c := K.Canonical(pairs);
    K.CanonicalIsStrict(pairs);
    forall t ensures t in Distinct(query) <==> t in query {
      T.HasKey(c, t);
      T.HasKey(pairs, t);
      K.CanonicalKeepsFirst(pairs, t);
      assert T.Keys(pairs) == query;
    }
  }

  lemma {:induction false} HoldersAre(
    postings: map<string, map<DocId, nat>>, docs: map<DocId, Tokens>, t: string)
    requires PostingsExact(postings, docs)
    ensures Holders(docs, t) == if t in postings then postings[t].Keys else {}
  {
    hide Count;
  }

  lemma {:induction false} NothingScored(ln: real -> real, docs: map<DocId, Tokens>)
    ensures Scores(ln, docs, []) == map[]
  {
  }

  lemma {:induction false} Unmatched(ln: real -> real, docs: map<DocId, Tokens>, query: Tokens, id: DocId)
    requires id in docs && id !in Matched(docs, query)
    ensures Score(ln, docs, id, query) == 0.0
  {
    hide TokenWeight;
    if query != [] {
      assert query[|query| - 1] in query;
      Unmatched(ln, docs, query[..|query| - 1], id);
    }
  }

  lemma {:induction false} ScoreNext(ln: real -> real, docs: map<DocId, Tokens>, id: DocId, before: Tokens, t: string)
    requires id in docs
    ensures Score(ln, docs, id, before + [t])
            == Score(ln, docs, id, before) + if t in docs[id] then TokenWeight(ln, docs, id, t) else 0.0
  {
    hide TokenWeight;
    assert (before + [t])[..|before|] == before;
  }

  lemma {:induction false} MatchedNext(docs: map<DocId, Tokens>, before: Tokens, t: string)
    ensures Matched(docs, before + [t]) == Matched(docs, before) + Holders(docs, t)
  {
  }

  /** A token no document holds scores nothing. */
  lemma {:induction false} PassedOver(ln: real -> real, docs: map<DocId, Tokens>, before: Tokens, t: string)
    requires Holders(docs, t) == {}
    ensures Scores(ln, docs, before + [t]) == Scores(ln, docs, before)
  {
    hide TokenWeight, Score;
    MatchedNext(docs, before, t);
    forall id | id in Matched(docs, before)
      ensures Score(ln, docs, id, before + [t]) == Score(ln, docs, id, before)
    {
      ScoreNext(ln, docs, id, before, t);
      assert id !in Holders(docs, t);
    }
  }

  /** The scores after some of a token's holders have been counted. */
  ghost function WithToken(
    ln: real -> real, docs: map<DocId, Tokens>, scores: map<DocId, real>, done: set<DocId>, t: string):
    map<DocId, real>
    requires done <= Holders(docs, t)
  {
    map id | id in scores.Keys + done ::
      (if id in scores then scores[id] else 0.0) + (if id in done then TokenWeight(ln, docs, id, t) else 0.0)
  }

  lemma {:induction false} WithNone(
    ln: real -> real, docs: map<DocId, Tokens>, scores: map<DocId, real>, t: string)
    ensures WithToken(ln, docs, scores, {}, t) == scores
  {
    hide TokenWeight;
  }

  lemma {:induction false} WithNext(
    ln: real -> real, docs: map<DocId, Tokens>, scores: map<DocId, real>, done: set<DocId>, t: string, id: DocId)
    requires done <= Holders(docs, t) && id in Holders(docs, t) - done
    ensures id in docs && t in docs[id]
    ensures var m := WithToken(ln, docs, scores, done, t);
            WithToken(ln, docs, scores, done + {id}, t)
            == m[id := (if id in m then m[id] else 0.0) + TokenWeight(ln, docs, id, t)]
  {
    hide TokenWeight;
  }

  lemma {:induction false} AddedUp(
    ln: real -> real, docs: map<DocId, Tokens>, before: Tokens, t: string, more: map<DocId, real>)
    requires more == WithToken(ln, docs, Scores(ln, docs, before), Holders(docs, t), t)
    ensures more == Scores(ln, docs, before + [t])
  {
    hide TokenWeight, Score;
    MatchedNext(docs, before, t);
    forall id | id in more ensures more[id] == Score(ln, docs, id, before + [t]) {
      ScoreNext(ln, docs, id, before, t);
      if id !in Matched(docs, before) {
        Unmatched(ln, docs, before, id);
      }
    }
  }

  /** A document without tokens appears in no posting. */
  lemma {:induction false} EmptyAdds(postings: map<string, map<DocId, nat>>, docs: map<DocId, Tokens>, id: DocId)
    requires PostingsExact(postings, docs) && id !in docs
    ensures PostingsExact(postings, docs[id := []])
  {
  }

  lemma {:induction false} AddedExact(
    postings: map<string, map<DocId, nat>>, docs: map<DocId, Tokens>, id: DocId, tokens: Tokens,
    counts: map<string, nat>)
    requires PostingsExact(postings, docs) && NoneEmpty(postings) && id !in docs
    requires forall t :: t in counts <==> t in tokens
    requires forall t :: t in counts ==> counts[t] == Count(tokens, t)
    ensures PostingsExact(Inserted(postings, id, counts), docs[id := tokens])
    ensures NoneEmpty(Inserted(postings, id, counts))
  {
    hide Count;
    var p := Inserted(postings, id, counts);
    forall t | t in p ensures p[t] != map[] {
      if t in counts {
        assert id in p[t];
      }
    }
  }

  lemma {:induction false} RemovedExact(postings: map<string, map<DocId, nat>>, docs: map<DocId, Tokens>, id: DocId)
    requires PostingsExact(postings, docs)
    ensures PostingsExact(Dropped(postings, id), docs - {id}) && NoneEmpty(Dropped(postings, id))
  {
    hide Count;
    var p := Dropped(postings, id);
    forall t: string, d: DocId
      ensures t in p && d in p[t] <==> d in docs - {id} && t in (docs - {id})[d]
      ensures t in p && d in p[t] ==> p[t][d] == Count((docs - {id})[d], t)
    {
      if t in postings && d in postings[t] && d != id {
        assert d in postings[t] - {id};
      }
    }
  }

  function Posting(postings: map<string, map<DocId, nat>>, t: string): map<DocId, nat> {
    if t in postings then postings[t] else map[]
  }

  function Inserted(postings: map<string, map<DocId, nat>>, id: DocId, counts: map<string, nat>):
    map<string, map<DocId, nat>>
  {
    map t | t in postings.Keys + counts.Keys ::
      if t in counts then Posting(postings, t)[id := counts[t]] else postings[t]
  }

  lemma {:induction false} InsertedNone(postings: map<string, map<DocId, nat>>, id: DocId)
    ensures Inserted(postings, id, map[]) == postings
  {
  }

  lemma {:induction false} InsertedNext(
    postings: map<string, map<DocId, nat>>, id: DocId, done: map<string, nat>, t: string, n: nat)
    requires t !in done
    ensures var p := Inserted(postings, id, done);
            Inserted(postings, id, done[t := n]) == p[t := Posting(p, t)[id := n]]
  {
  }

  function SaturatingSub(a: nat, b: nat): nat {
    if a >= b then a - b else 0
  }

  function Dropped(postings: map<string, map<DocId, nat>>, id: DocId): map<string, map<DocId, nat>> {
    map t | t in postings && postings[t] - {id} != map[] :: postings[t] - {id}
  }
}
