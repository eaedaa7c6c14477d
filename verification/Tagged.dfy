/** Domain-separated hashing (src/hash.rs): a tag and its parts, each length-prefixed. */
module Tagged {
  import opened Bytes
  import opened Sha256
  import Utf8

  /** Every part preceded by its length as eight big-endian bytes. */
  function Framed(parts: seq<seq<u8>>): seq<u8> {
    if parts == [] then [] else BigEndian(|parts[0]|, 8) + parts[0] + Framed(parts[1..])
  }

  /** What `tagged` hashes. */
  function Encoding(tag: string, parts: seq<seq<u8>>): seq<u8> {
    Framed([Utf8.Encode(tag)] + parts)
  }

  function DigestOf(tag: string, parts: seq<seq<u8>>): Digest {
    SHA256(Encoding(tag, parts))
  }

  /** Lengths a 64-bit machine can hold. */
  ghost predicate Sized(parts: seq<seq<u8>>) {
    forall i: nat :: i < |parts| ==> |parts[i]| < TWO_64
  }

  lemma {:induction false} FramedInjective(a: seq<seq<u8>>, b: seq<seq<u8>>)
    requires Sized(a) && Sized(b) && Framed(a) == Framed(b)
    ensures a == b
  {
    hide BigEndian;
    if a != [] && b != [] {
      var s := Framed(a);
      var n, m := BigEndian(|a[0]|, 8), BigEndian(|b[0]|, 8);
      assert s[..8] == n && s[..8] == m;
      Power256Of8();
      BigEndianInjective(|a[0]|, |b[0]|, 8);
      var end := 8 + |a[0]|;
      assert s[8..end] == a[0] && s[8..end] == b[0];
      assert s[end..] == Framed(a[1..]) && s[end..] == Framed(b[1..]);
      FramedInjective(a[1..], b[1..]);
      assert a == [a[0]] + a[1..] && b == [b[0]] + b[1..];
    }
  }

  /** The tag and the parts can be read back: no two different inputs hash the same bytes. */
  lemma {:induction false} EncodingInjective(tag: string, parts: seq<seq<u8>>, tag': string, parts': seq<seq<u8>>)
    requires Sized([Utf8.Encode(tag)] + parts) && Sized([Utf8.Encode(tag')] + parts')
    requires Encoding(tag, parts) == Encoding(tag', parts')
    ensures tag == tag' && parts == parts'
  {
    var a, b := [Utf8.Encode(tag)] + parts, [Utf8.Encode(tag')] + parts';
    FramedInjective(a, b);
    assert a[0] == b[0] && a[1..] == parts && b[1..] == parts';
    Utf8.EncodeInjective(tag, tag');
  }

  lemma {:induction false} FramedNext(front: seq<seq<u8>>, part: seq<u8>)
    ensures Framed(front + [part]) == Framed(front) + BigEndian(|part|, 8) + part
  {
    if front == [] {
      assert [part][1..] == [];
    } else {
      assert (front + [part])[1..] == front[1..] + [part];
      FramedNext(front[1..], part);
    }
  }

  /** One length-prefixed part. */
  method Frame(hasher: Hasher, part: seq<u8>)
    requires hasher.Valid()
    modifies hasher, hasher.state, hasher.block
    ensures hasher.Valid() && hasher.message == old(hasher.message) + BigEndian(|part|, 8) + part
  {
    hide Hasher.Valid, BigEndian;
    hasher.Update(BigEndian(|part|, 8));
    hasher.Update(part);
  }

  /** `tagged`: the pieces are fed to one hasher as they come. */
  method Hash(tag: string, parts: seq<seq<u8>>) returns (digest: Digest)
    ensures digest == DigestOf(tag, parts)
  {
    hide Sha256Of, Hasher.Valid, Framed, BigEndian, Utf8.Encode;
    var hasher := new Hasher();
    var name := Utf8.Encode(tag);
    ghost var all := [name] + parts;
    FramedOne(name);
    Frame(hasher, name);
    assert all[..1] == [name];
    for k := 0 to |parts|
      invariant hasher.Valid() && hasher.message == Framed(all[..k + 1])
      invariant fresh(hasher) && fresh(hasher.state) && fresh(hasher.block)
    {
      FramedNext(all[..k + 1], parts[k]);
      assert all[..k + 2] == all[..k + 1] + [parts[k]];
      Frame(hasher, parts[k]);
    }
    assert all[..|parts| + 1] == all;
    digest := hasher.Finalize();
    Sha256Is(Encoding(tag, parts));
  }

  lemma {:induction false} FramedOne(part: seq<u8>)
    ensures Framed([part]) == BigEndian(|part|, 8) + part
  {
    assert [part][1..] == [];
  }

  // ---- collision-freedom, as a hypothesis ---------------------------------

  /** No two of these messages collide under SHA-256. */
  ghost predicate NoCollision(messages: set<seq<u8>>) {
    forall x, y :: x in messages && y in messages && SHA256(x) == SHA256(y) ==> x == y
  }

  /** Among messages without collisions, a digest determines its tag and its parts. */
  lemma {:induction false} DigestDetermines(
    messages: set<seq<u8>>, tag: string, parts: seq<seq<u8>>, tag': string, parts': seq<seq<u8>>)
    requires NoCollision(messages)
    requires Encoding(tag, parts) in messages && Encoding(tag', parts') in messages
    requires Sized([Utf8.Encode(tag)] + parts) && Sized([Utf8.Encode(tag')] + parts')
    requires DigestOf(tag, parts) == DigestOf(tag', parts')
    ensures tag == tag' && parts == parts'
  {
    hide Encoding;
    EncodingInjective(tag, parts, tag', parts');
  }
}
