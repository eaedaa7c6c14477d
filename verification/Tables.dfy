/**
 Ordered maps keyed by strings (`BTreeMap`, `BTreeSet`): lists with strictly ascending
 keys.  Iteration is the list itself.
 */
module Tables {
  import K = Keyed
  import opened Wrappers

  function Put<V>(t: seq<(string, V)>, key: string, value: V): seq<(string, V)> {
    K.Canonical([(key, value)] + t)
  }

  function Without<V>(t: seq<(string, V)>, key: string): seq<(string, V)> {
    if t == [] then [] else (if t[0].0 == key then [] else [t[0]]) + Without(t[1..], key)
  }

  predicate Has<V>(t: seq<(string, V)>, key: string) {
    K.Find(t, key).Some?
  }

  function Keys<V>(t: seq<(string, V)>): (r: seq<string>)
    ensures |r| == |t| && forall i :: 0 <= i < |r| ==> r[i] == t[i].0
  {
    seq(|t|, i requires 0 <= i < |t| => t[i].0)
  }

  lemma {:induction false} PutFind<V(!new)>(t: seq<(string, V)>, key: string, value: V, k: string)
    ensures K.Find(Put(t, key, value), k) == if k == key then Some(value) else K.Find(t, k)
  {
    hide K.Canonical;
    K.CanonicalKeepsFirst([(key, value)] + t, k);
    assert ([(key, value)] + t)[1..] == t;
  }

  lemma {:induction false} PutOrdered<V(!new)>(t: seq<(string, V)>, key: string, value: V)
    ensures K.StrictlyOrdered(Put(t, key, value))
  {
    K.CanonicalIsStrict([(key, value)] + t);
  }

  lemma {:induction false} WithoutFind<V>(t: seq<(string, V)>, key: string, k: string)
    ensures K.Find(Without(t, key), k) == if k == key then None else K.Find(t, k)
  {
    if t != [] {
      WithoutFind(t[1..], key, k);
      if t[0].0 != key {
        assert ([t[0]] + Without(t[1..], key))[1..] == Without(t[1..], key);
      } else {
        assert [] + Without(t[1..], key) == Without(t[1..], key);
      }
    }
  }

  lemma {:induction false} WithoutMembers<V>(t: seq<(string, V)>, key: string)
    ensures forall e :: e in Without(t, key) <==> e in t && e.0 != key
  {
    if t != [] {
      WithoutMembers(t[1..], key);
    }
  }

  lemma {:induction false} WithoutOrdered<V>(t: seq<(string, V)>, key: string)
    requires K.StrictlyOrdered(t)
    ensures K.StrictlyOrdered(Without(t, key))
  {
    if t != [] {
      K.TailStrict(t);
      WithoutOrdered(t[1..], key);
      if t[0].0 != key {
        HeadFirst(t, Without(t[1..], key), key);
      } else {
        assert [] + Without(t[1..], key) == Without(t[1..], key);
      }
    }
  }

  lemma {:induction false} HeadFirst<V>(t: seq<(string, V)>, rest: seq<(string, V)>, key: string)
    requires K.StrictlyOrdered(t) && t != [] && K.StrictlyOrdered(rest) && rest == Without(t[1..], key)
    ensures K.StrictlyOrdered([t[0]] + rest)
  {
    WithoutMembers(t[1..], key);
    var r := [t[0]] + rest;
    forall i, j | 0 <= i < j < |r|
      ensures K.StringLe(r[i].0, r[j].0) && r[i].0 != r[j].0
    {
      if i == 0 {
        assert r[j] == rest[j - 1] && rest[j - 1] in rest;
        var m: nat :| m < |t[1..]| && t[1..][m] == r[j];
        assert t[m + 1] == r[j];
      } else {
        assert r[i] == rest[i - 1] && r[j] == rest[j - 1];
      }
    }
  }

  /** A key is in the list of keys exactly when it can be found. */
  lemma {:induction false} HasKey<V>(t: seq<(string, V)>, key: string)
    ensures key in Keys(t) <==> Has(t, key)
  {
    K.FindAbsent(t, key);
    if key in Keys(t) {
      var i :| 0 <= i < |Keys(t)| && Keys(t)[i] == key;
      assert t[i].0 == key;
    }
    if Has(t, key) {
      var i := K.FindIndex(t, key);
      assert Keys(t)[i] == key;
    }
  }
}
