/**
 Lists of keyed entries in canonical order: `sort_by` on the key, then `dedup_by` on
 the key.  Both steps keep the first entry of every key, so the canonical list is a
 function of the lookup alone.

 Strings are ordered by Unicode scalar value, which is the order of their UTF-8 bytes.
 */
module Keyed {
  import opened Sorting
  import opened Wrappers

  predicate StringLe(a: string, b: string) {
    a == "" || (b != "" && (a[0] < b[0] || (a[0] == b[0] && StringLe(a[1..], b[1..]))))
  }

  lemma {:induction false} StringLeTotal(a: string, b: string)
    ensures StringLe(a, b) || StringLe(b, a)
  {
    if a != "" && b != "" {
      StringLeTotal(a[1..], b[1..]);
    }
  }

  lemma {:induction false} StringLeTransitive(a: string, b: string, c: string)
    requires StringLe(a, b) && StringLe(b, c)
    ensures StringLe(a, c)
  {
    if a != "" && b != "" && c != "" && a[0] == b[0] == c[0] {
      StringLeTransitive(a[1..], b[1..], c[1..]);
    }
  }

  lemma {:induction false} StringLeAntisymmetric(a: string, b: string)
    requires StringLe(a, b) && StringLe(b, a)
    ensures a == b
  {
    if a != "" && b != "" {
      StringLeAntisymmetric(a[1..], b[1..]);
      assert a == [a[0]] + a[1..] && b == [b[0]] + b[1..];
    }
  }

  /** At `k` the strings part, and the first is lower there. */
  ghost predicate LowerAt(a: string, b: string, k: nat) {
    k < |a| && k < |b| && a[..k] == b[..k] && a[k] < b[k]
  }

  lemma {:induction false} LowerInTail(a: string, b: string, k: nat)
    requires a != "" && b != "" && a[0] == b[0]
    ensures LowerAt(a, b, k + 1) <==> LowerAt(a[1..], b[1..], k)
  {
    if k + 1 < |a| && k + 1 < |b| {
      assert a[..k + 1] == [a[0]] + a[1..][..k] && b[..k + 1] == [b[0]] + b[1..][..k];
      assert a[1..][..k] == a[..k + 1][1..] && b[1..][..k] == b[..k + 1][1..];
    }
  }

  lemma {:induction false} LowerAtFront(a: string, b: string, k: nat)
    requires a != "" && b != ""
    ensures LowerAt(a, b, 0) <==> a[0] < b[0]
    ensures a[0] != b[0] && k > 0 ==> !LowerAt(a, b, k)
    ensures a[0] == b[0] ==> (a <= b <==> a[1..] <= b[1..])
  {
    if a[0] != b[0] && 0 < k < |a| && k < |b| {
      assert a[..k][0] != b[..k][0];
    }
    assert a == [a[0]] + a[1..] && b == [b[0]] + b[1..];
  }

  /** Order by the first character that differs, a prefix before what continues it. */
  lemma {:induction false} StringLeIff(a: string, b: string)
    ensures StringLe(a, b) <==> a <= b || exists k: nat :: LowerAt(a, b, k)
  {
    hide LowerAt;
    if a != "" && b != "" {
      forall k: nat
        ensures a[0] != b[0] && k > 0 ==> !LowerAt(a, b, k)
        ensures LowerAt(a, b, 0) <==> a[0] < b[0]
      {
        LowerAtFront(a, b, k);
      }
      LowerAtFront(a, b, 0);
      if a[0] == b[0] {
        StringLeIff(a[1..], b[1..]);
        forall k: nat ensures LowerAt(a, b, k + 1) <==> LowerAt(a[1..], b[1..], k) {
          LowerInTail(a, b, k);
        }
        if exists k: nat :: LowerAt(a, b, k) {
          var k: nat :| LowerAt(a, b, k);
          assert LowerAt(a[1..], b[1..], k - 1);
        }
      }
    } else {
      EmptyNeverLower(a, b);
    }
  }

  lemma {:induction false} EmptyNeverLower(a: string, b: string)
    requires a == "" || b == ""
    ensures forall k: nat :: !LowerAt(a, b, k)
  {
  }

  predicate KeyLe<V>(a: (string, V), b: (string, V)) {
    StringLe(a.0, b.0)
  }

  lemma {:induction false} KeyLeIsPreorder<V>()
    ensures forall x: (string, V), y: (string, V) :: KeyLe(x, y) || KeyLe(y, x)
    ensures forall x: (string, V), y: (string, V), z: (string, V) :: KeyLe(x, y) && KeyLe(y, z) ==> KeyLe(x, z)
  {
    forall x: (string, V), y: (string, V)
      ensures KeyLe(x, y) || KeyLe(y, x)
    {
      StringLeTotal(x.0, y.0);
    }
    forall x: (string, V), y: (string, V), z: (string, V) | KeyLe(x, y) && KeyLe(y, z)
      ensures KeyLe(x, z)
    {
      StringLeTransitive(x.0, y.0, z.0);
    }
  }

  function Sorted<V>(s: seq<(string, V)>): seq<(string, V)> {
    Sort((a: (string, V), b: (string, V)) => KeyLe(a, b), s)
  }

  /** `dedup_by` on the key: an entry is dropped when its key is that of the last entry kept. */
  function Deduped<V>(s: seq<(string, V)>): seq<(string, V)> {
    if s == [] then []
    else
      var kept := Deduped(s[..|s| - 1]);
      if kept != [] && kept[|kept| - 1].0 == s[|s| - 1].0 then kept else kept + [s[|s| - 1]]
  }

  function Canonical<V>(s: seq<(string, V)>): seq<(string, V)> {
    Deduped(Sorted(s))
  }

  /** The first entry of a key. */
  function Find<V>(s: seq<(string, V)>, key: string): Option<V> {
    if s == [] then None else if s[0].0 == key then Some(s[0].1) else Find(s[1..], key)
  }

  ghost predicate Ordered<V>(s: seq<(string, V)>) {
    forall i, j :: 0 <= i < j < |s| ==> StringLe(s[i].0, s[j].0)
  }

  ghost predicate DistinctKeys<V>(s: seq<(string, V)>) {
    forall i, j :: 0 <= i < j < |s| ==> s[i].0 != s[j].0
  }

  /** Keys strictly ascend. */
  ghost predicate StrictlyOrdered<V>(s: seq<(string, V)>) {
    Ordered(s) && DistinctKeys(s)
  }

  // ---- lookups ------------------------------------------------------------

  lemma {:induction false} FindAbsent<V>(s: seq<(string, V)>, key: string)
    ensures Find(s, key).None? <==> forall i :: 0 <= i < |s| ==> s[i].0 != key
  {
    if s != [] && s[0].0 != key {
      FindAbsent(s[1..], key);
      if Find(s, key).None? {
        forall i | 0 <= i < |s| ensures s[i].0 != key {
          if i > 0 {
            assert s[1..][i - 1] == s[i];
          }
        }
      } else {
        var i :| 0 <= i < |s[1..]| && s[1..][i].0 == key;
        assert s[i + 1].0 == key;
      }
    }
  }

  lemma {:induction false} FindAt<V>(s: seq<(string, V)>, i: nat)
    requires i < |s| && forall j :: 0 <= j < i ==> s[j].0 != s[i].0
    ensures Find(s, s[i].0) == Some(s[i].1)
  {
    if i > 0 {
      assert s[1..][i - 1] == s[i];
      FindAt(s[1..], i - 1);
    }
  }

  lemma {:induction false} FindIndex<V>(s: seq<(string, V)>, key: string) returns (i: nat)
    requires Find(s, key).Some?
    ensures i < |s| && s[i] == (key, Find(s, key).value)
    ensures forall j :: 0 <= j < i ==> s[j].0 != key
  {
    if s[0].0 == key {
      i := 0;
    } else {
      var k := FindIndex(s[1..], key);
      i := k + 1;
      forall j | 0 <= j < i ensures s[j].0 != key {
        if j > 0 {
          assert s[1..][j - 1] == s[j];
        }
      }
    }
  }

  lemma {:induction false} FindAppend<V>(s: seq<(string, V)>, e: (string, V), key: string)
    ensures Find(s + [e], key) ==
            if Find(s, key).Some? then Find(s, key) else if e.0 == key then Some(e.1) else None
  {
    if s == [] {
      assert [e][1..] == [];
    } else {
      assert (s + [e])[1..] == s[1..] + [e];
      FindAppend(s[1..], e, key);
    }
  }

  // ---- sorting keeps the first entry of a key -----------------------------

  lemma {:induction false} InsertKeepsFirst<V>(x: (string, V), s: seq<(string, V)>, key: string)
    requires Ordered(s)
    ensures Find(Insert((a: (string, V), b: (string, V)) => KeyLe(a, b), x, s), key)
            == if x.0 == key then Some(x.1) else Find(s, key)
  {
    var le := (a: (string, V), b: (string, V)) => KeyLe(a, b);
    if s != [] && !le(x, s[0]) {
      var tail := Insert(le, x, s[1..]);
      InsertKeepsFirst(x, s[1..], key);
      assert ([s[0]] + tail)[1..] == tail;
      StringLeTotal(x.0, s[0].0);
      assert x.0 != s[0].0;
    } else {
      assert ([x] + s)[1..] == s;
    }
  }

  lemma {:induction false} SortedOrdered<V(!new)>(s: seq<(string, V)>)
    ensures Ordered(Sorted(s))
  {
    var le := (a: (string, V), b: (string, V)) => KeyLe(a, b);
    KeyLeIsPreorder<V>();
    assert TotalPreorder(le);
    SortSorted(le, s);
    var t := Sort(le, s);
    forall i, j | 0 <= i < j < |t| ensures StringLe(t[i].0, t[j].0) {
      assert le(t[i], t[j]);
    }
  }

  /** A stable sort does not change what a lookup finds. */
  lemma {:induction false} SortedKeepsFirst<V(!new)>(s: seq<(string, V)>, key: string)
    ensures Find(Sorted(s), key) == Find(s, key)
  {
    if s != [] {
      SortedOrdered(s[1..]);
      SortedKeepsFirst(s[1..], key);
      InsertKeepsFirst(s[0], Sorted(s[1..]), key);
    }
  }

  // ---- so does dropping repeats -------------------------------------------

  lemma {:induction false} DedupedKeepsFirst<V>(s: seq<(string, V)>, key: string)
    ensures Find(Deduped(s), key) == Find(s, key)
  {
    if s != [] {
      var front, last := s[..|s| - 1], s[|s| - 1];
      DedupedKeepsFirst(front, key);
      FindAppend(front, last, key);
      assert s == front + [last];
      var kept := Deduped(front);
      FindAppend(kept, last, key);
      if kept != [] && kept[|kept| - 1].0 == last.0 {
        FindAbsent(kept, last.0);
      }
    }
  }

  lemma {:induction false} DedupedMembers<V>(s: seq<(string, V)>)
    ensures forall e :: e in Deduped(s) ==> e in s
  {
    if s != [] {
      DedupedMembers(s[..|s| - 1]);
    }
  }

  lemma {:induction false} DedupedStrict<V>(s: seq<(string, V)>)
    requires Ordered(s)
    ensures StrictlyOrdered(Deduped(s))
  {
    if s != [] {
      var front, last := s[..|s| - 1], s[|s| - 1];
      DedupedStrict(front);
      DedupedMembers(front);
      var kept := Deduped(front);
      if kept == [] || kept[|kept| - 1].0 != last.0 {
        forall i | 0 <= i < |kept|
          ensures StringLe(kept[i].0, last.0) && kept[i].0 != last.0
        {
          assert kept[i] in front;
          if kept[i].0 == last.0 {
            var top := kept[|kept| - 1];
            assert top in front;
            assert StringLe(kept[i].0, top.0) || i == |kept| - 1;
            StringLeAntisymmetric(top.0, last.0);
          }
        }
      }
    }
  }

  // ---- the canonical form -------------------------------------------------

  /** The canonical list has ascending keys, and every lookup finds what it found before. */
  lemma {:induction false} CanonicalIsStrict<V(!new)>(s: seq<(string, V)>)
    ensures StrictlyOrdered(Canonical(s))
  {
    SortedOrdered(s);
    DedupedStrict(Sorted(s));
  }

  lemma {:induction false} CanonicalKeepsFirst<V(!new)>(s: seq<(string, V)>, key: string)
    ensures Find(Canonical(s), key) == Find(s, key)
  {
    SortedKeepsFirst(s, key);
    DedupedKeepsFirst(Sorted(s), key);
  }

  lemma {:induction false} TailStrict<V>(s: seq<(string, V)>)
    requires StrictlyOrdered(s) && s != []
    ensures StrictlyOrdered(s[1..])
  {
  }

  lemma {:induction false} HeadKeys<V>(a: seq<(string, V)>, b: seq<(string, V)>)
    requires StrictlyOrdered(a) && StrictlyOrdered(b) && a != [] && b != []
    requires Find(b, a[0].0).Some? && Find(a, b[0].0).Some?
    ensures a[0].0 == b[0].0
  {
    var i := FindIndex(b, a[0].0);
    var j := FindIndex(a, b[0].0);
    if i != 0 && j != 0 {
      assert StringLe(b[0].0, b[i].0) && StringLe(a[0].0, a[j].0);
      StringLeAntisymmetric(a[0].0, b[0].0);
    }
  }

  /** A strictly ordered list is determined by its lookups. */
  lemma {:induction false} StrictlyOrderedUnique<V>(a: seq<(string, V)>, b: seq<(string, V)>)
    requires StrictlyOrdered(a) && StrictlyOrdered(b)
    requires forall key :: Find(a, key) == Find(b, key)
    ensures a == b
  {
    if a != [] {
      assert Find(a, a[0].0) == Find(b, a[0].0);
    }
    if b != [] {
      assert Find(a, b[0].0) == Find(b, b[0].0);
    }
    if a != [] {
      HeadKeys(a, b);
      TailStrict(a);
      TailStrict(b);
      forall key ensures Find(a[1..], key) == Find(b[1..], key) {
        assert Find(a, key) == Find(b, key);
        if key == a[0].0 {
          FindAbsent(a[1..], key);
          FindAbsent(b[1..], key);
        }
      }
      StrictlyOrderedUnique(a[1..], b[1..]);
      assert a == [a[0]] + a[1..] && b == [b[0]] + b[1..];
    }
  }

  /** The canonical list depends only on what lookups find: not on the order, not on shadowed repeats. */
  lemma {:induction false} CanonicalOfLookups<V(!new)>(a: seq<(string, V)>, b: seq<(string, V)>)
    requires forall key :: Find(a, key) == Find(b, key)
    ensures Canonical(a) == Canonical(b)
  {
    hide Canonical;
    CanonicalIsStrict(a);
    CanonicalIsStrict(b);
    forall key ensures Find(Canonical(a), key) == Find(Canonical(b), key) {
      CanonicalKeepsFirst(a, key);
      CanonicalKeepsFirst(b, key);
    }
    StrictlyOrderedUnique(Canonical(a), Canonical(b));
  }

  lemma {:induction false} CanonicalOfStrict<V(!new)>(s: seq<(string, V)>)
    requires StrictlyOrdered(s)
    ensures Canonical(s) == s
  {
    hide Canonical;
    CanonicalIsStrict(s);
    forall key ensures Find(Canonical(s), key) == Find(s, key) {
      CanonicalKeepsFirst(s, key);
    }
    StrictlyOrderedUnique(Canonical(s), s);
  }

  /** With distinct keys nothing is dropped: the entries are only rearranged. */
  lemma {:induction false} CanonicalMembers<V(!new)>(s: seq<(string, V)>)
    ensures forall e :: e in Canonical(s) ==> e in s
    ensures DistinctKeys(s) ==> forall e :: e in s ==> e in Canonical(s)
  {
    hide Canonical;
    forall e | e in Canonical(s) ensures e in s {
      CanonicalIsStrict(s);
      var i: nat :| i < |Canonical(s)| && Canonical(s)[i] == e;
      FindAt(Canonical(s), i);
      CanonicalKeepsFirst(s, e.0);
      var j := FindIndex(s, e.0);
    }
    if DistinctKeys(s) {
      forall e | e in s ensures e in Canonical(s) {
        var i: nat :| i < |s| && s[i] == e;
        FindAt(s, i);
        CanonicalKeepsFirst(s, e.0);
        var j := FindIndex(Canonical(s), e.0);
      }
    }
  }

  /** Rearranging distinct entries does not change what lookups find. */
  lemma {:induction false} FindOfPermutation<V>(a: seq<(string, V)>, b: seq<(string, V)>, key: string)
    requires multiset(a) == multiset(b) && DistinctKeys(a) && DistinctKeys(b)
    ensures Find(a, key) == Find(b, key)
  {
    FindAbsent(a, key);
    FindAbsent(b, key);
    if Find(a, key).Some? {
      var i := FindIndex(a, key);
      assert a[i] in multiset(a) && a[i] in multiset(b);
      var j: nat :| j < |b| && b[j] == a[i];
      FindAt(b, j);
    } else {
      forall j | 0 <= j < |b| ensures b[j].0 != key {
        assert b[j] in multiset(b) && b[j] in multiset(a);
      }
    }
  }
}
