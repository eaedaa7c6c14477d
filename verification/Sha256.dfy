/**
 Streaming SHA-256 (src/hash.rs) against section 6.2 of FIPS 180-4.

 `Sha256Of` is the standard's function: pad per section 5.1.1, then fold the
 compression function over the blocks.  `Hasher` is the program: a 64-byte buffer fed
 in pieces of any size.  However a message is split, the two agree.
 */
module Sha256 {
  import opened Bytes

  // ---- the standard -------------------------------------------------------

  /** The first 32 bits of the fractional parts of the cube roots of the first 64 primes (section 4.2.2). */
  const K: seq<seq<bv32>> := [
    [0x428a2f98, 0x71374491, 0xb5c0fbcf, 0xe9b5dba5, 0x3956c25b, 0x59f111f1, 0x923f82a4, 0xab1c5ed5],
    [0xd807aa98, 0x12835b01, 0x243185be, 0x550c7dc3, 0x72be5d74, 0x80deb1fe, 0x9bdc06a7, 0xc19bf174],
    [0xe49b69c1, 0xefbe4786, 0x0fc19dc6, 0x240ca1cc, 0x2de92c6f, 0x4a7484aa, 0x5cb0a9dc, 0x76f988da],
    [0x983e5152, 0xa831c66d, 0xb00327c8, 0xbf597fc7, 0xc6e00bf3, 0xd5a79147, 0x06ca6351, 0x14292967],
    [0x27b70a85, 0x2e1b2138, 0x4d2c6dfc, 0x53380d13, 0x650a7354, 0x766a0abb, 0x81c2c92e, 0x92722c85],
    [0xa2bfe8a1, 0xa81a664b, 0xc24b8b70, 0xc76c51a3, 0xd192e819, 0xd6990624, 0xf40e3585, 0x106aa070],
    [0x19a4c116, 0x1e376c08, 0x2748774c, 0x34b0bcb5, 0x391c0cb3, 0x4ed8aa4a, 0x5b9cca4f, 0x682e6ff3],
    [0x748f82ee, 0x78a5636f, 0x84c87814, 0x8cc70208, 0x90befffa, 0xa4506ceb, 0xbef9a3f7, 0xc67178f2]
  ]

  /** The initial hash value (section 5.3.3). */
  const INIT: seq<bv32> := [
    0x6a09e667, 0xbb67ae85, 0x3c6ef372, 0xa54ff53a, 0x510e527f, 0x9b05688c, 0x1f83d9ab, 0x5be0cd19
  ]

  /** The constant of the `t`-th round. */
  function RoundConstant(t: nat): bv32
    requires t < 64
  {
    K[t / 8][t % 8]
  }

  /** Addition modulo 2^32. */
  function Add(x: bv32, y: bv32): bv32 { x + y }

  /** Four terms, added from the left. */
  function Sum(a: bv32, b: bv32, c: bv32, d: bv32): bv32 { ((a + b) + c) + d }

  // Section 4.1.2.
  function Ch(x: bv32, y: bv32, z: bv32): bv32 { (x & y) ^ (!x & z) }

  function Maj(x: bv32, y: bv32, z: bv32): bv32 { (x & y) ^ (x & z) ^ (y & z) }

  function BigSigma0(x: bv32): bv32 { x.RotateRight(2) ^ x.RotateRight(13) ^ x.RotateRight(22) }

  function BigSigma1(x: bv32): bv32 { x.RotateRight(6) ^ x.RotateRight(11) ^ x.RotateRight(25) }

  function SmallSigma0(x: bv32): bv32 { x.RotateRight(7) ^ x.RotateRight(18) ^ (x >> 3) }

  function SmallSigma1(x: bv32): bv32 { x.RotateRight(17) ^ x.RotateRight(19) ^ (x >> 10) }

  type Block = b: seq<u8> | |b| == 64 witness seq(64, _ => 0)

  type State = s: seq<bv32> | |s| == 8 witness seq(8, _ => 0)

  /** A big-endian word. */
  function FromBigEndian(a: u8, b: u8, c: u8, d: u8): bv32 {
    (a as int * 0x100_0000 + b as int * 0x1_0000 + c as int * 0x100 + d as int) as bv32
  }

  function WordAt(block: Block, t: nat): bv32
    requires t < 16
  {
    FromBigEndian(block[4 * t], block[4 * t + 1], block[4 * t + 2], block[4 * t + 3])
  }

  /** The message schedule (section 6.2.2, step 1). */
  function Schedule(block: Block, t: nat): bv32
    requires t < 64
  {
    if t < 16 then WordAt(block, t)
    else
      Sum(SmallSigma1(Schedule(block, t - 2)), Schedule(block, t - 7),
          SmallSigma0(Schedule(block, t - 15)), Schedule(block, t - 16))
  }

  datatype Vars = Vars(a: bv32, b: bv32, c: bv32, d: bv32, e: bv32, f: bv32, g: bv32, h: bv32)

  /** One round (section 6.2.2, step 3). */
  function Round(v: Vars, k: bv32, w: bv32): Vars {
    var t1 := Add(Add(Add(Add(v.h, BigSigma1(v.e)), Ch(v.e, v.f, v.g)), k), w);
    var t2 := Add(BigSigma0(v.a), Maj(v.a, v.b, v.c));
    Vars(Add(t1, t2), v.a, v.b, v.c, Add(v.d, t1), v.e, v.f, v.g)
  }

  function Rounds(start: Vars, block: Block, t: nat): Vars
    requires t <= 64
  {
    if t == 0 then start else Round(Rounds(start, block, t - 1), RoundConstant(t - 1), Schedule(block, t - 1))
  }

  function VarsOf(s: State): Vars {
    Vars(s[0], s[1], s[2], s[3], s[4], s[5], s[6], s[7])
  }

  /** The compression function (section 6.2.2). */
  function Compressed(s: State, block: Block): State {
    AddVars(s, Rounds(VarsOf(s), block, 64))
  }

  function AddVars(s: State, v: Vars): State {
    [Add(s[0], v.a), Add(s[1], v.b), Add(s[2], v.c), Add(s[3], v.d),
     Add(s[4], v.e), Add(s[5], v.f), Add(s[6], v.g), Add(s[7], v.h)]
  }

  /** The hash value after the first `n` blocks of `m`. */
  function Folded(m: seq<u8>, n: nat): State
    requires 64 * n <= |m|
  {
    if n == 0 then INIT else Compressed(Folded(m, n - 1), m[64 * (n - 1)..64 * n])
  }

  /** How many zero bytes follow the marker bit so that the length ends a block (section 5.1.1). */
  function ZeroPad(length: nat): (k: nat)
    ensures (length + 1 + k) % 64 == 56
    ensures k < 64
  {
    (119 - length % 64) % 64
  }

  lemma {:induction false} ZeroPadIsLeast(length: nat, j: nat)
    requires (length + 1 + j) % 64 == 56
    ensures ZeroPad(length) <= j
  {
  }

  function Zeros(k: nat): (r: seq<u8>)
    ensures |r| == k
  {
    seq(k, _ => 0)
  }

  lemma {:induction false} PaddedLength(length: nat)
    ensures (length + 1 + ZeroPad(length) + 8) % 64 == 0
  {
    hide ZeroPad;
  }

  function Padded(m: seq<u8>): (r: seq<u8>)
    ensures |r| % 64 == 0
  {
    PaddedLength(|m|);
    m + [0x80] + Zeros(ZeroPad(|m|)) + BigEndian(8 * |m| % TWO_64, 8)
  }

  function StateBytes(s: seq<bv32>): (r: seq<u8>)
    ensures |r| == 4 * |s|
  {
    if s == [] then [] else BigEndian(s[0] as nat, 4) + StateBytes(s[1..])
  }

  /** SHA-256 of a byte string (section 6.2). */
  function Sha256Of(m: seq<u8>): Digest {
    StateBytes(Folded(Padded(m), |Padded(m)| / 64))
  }

  /** A hash function whose every value is SHA-256. */
  type Sha256Function = h: seq<u8> -> Digest | forall m {:trigger Sha256Of(m)} :: h(m) == Sha256Of(m) witness Sha256Of

  /** The same function as a value: what is built on hashing uses it without looking inside. */
  const SHA256: Sha256Function

  lemma {:induction false} Sha256Is(m: seq<u8>)
    ensures SHA256(m) == Sha256Of(m)
  {
    hide Folded, Padded, StateBytes;
  }

  // ---- folding is local ---------------------------------------------------

  /** Only the blocks folded matter. */
  lemma {:induction false} FoldedPrefix(m: seq<u8>, more: seq<u8>, n: nat)
    requires 64 * n <= |m|
    ensures Folded(m + more, n) == Folded(m, n)
  {
    hide Compressed;
    if n > 0 {
      FoldedPrefix(m, more, n - 1);
      assert (m + more)[64 * (n - 1)..64 * n] == m[64 * (n - 1)..64 * n];
    }
  }

  function InitialWord(i: nat): bv32
    requires i < 8
  {
    INIT[i]
  }

  lemma {:induction false} InitialState(s: seq<bv32>)
    requires |s| == 8 && forall i :: 0 <= i < 8 ==> s[i] == InitialWord(i)
    ensures s == Folded([], 0)
  {
    assert s == INIT;
  }

  lemma {:induction false} FoldedNext(m: seq<u8>, block: Block)
    requires |m| % 64 == 0
    ensures Folded(m + block, |m| / 64 + 1) == Compressed(Folded(m, |m| / 64), block)
  {
    FoldedPrefix(m, block, |m| / 64);
    assert (m + block)[64 * (|m| / 64)..64 * (|m| / 64 + 1)] == block;
  }

  /** The program sums the schedule terms in the opposite order. */
  lemma {:induction false} SumReversed(a: bv32, b: bv32, c: bv32, d: bv32)
    ensures Sum(a, b, c, d) == Sum(d, c, b, a)
  {
  }

  // ---- the program --------------------------------------------------------

  /** Streaming SHA-256: `Update` any number of times, then `Finalize`. */
  class Hasher {
    const state: array<bv32>
    const block: array<u8>
    var filled: nat
    /** Message length in bits, modulo 2^64. */
    var bits: nat
    /** Everything absorbed so far. */
    ghost var message: seq<u8>

    /** The state covers the whole blocks of the message, the buffer holds the rest. */
    ghost predicate Absorbed()
      reads this, state, block
    {
      && state.Length == 8 && block.Length == 64
      && filled == |message| % 64
      && block[..filled] == message[|message| - filled..]
      && state[..] == Folded(message, |message| / 64)
    }

    ghost predicate Valid()
      reads this, state, block
    {
      Absorbed() && bits == 8 * |message| % TWO_64
    }

    constructor ()
      ensures Valid() && message == [] && fresh(state) && fresh(block)
    {
      hide Folded;
      state := new bv32[8](_ => 0);
      block := new u8[64](_ => 0);
      filled, bits, message := 0, 0, [];
      new;
      Reset();
      assert |message| / 64 == 0 && |message| % 64 == 0;
      assert block[..filled] == message[|message| - filled..];
      assert Absorbed();
    }

    method Reset()
      requires state.Length == 8
      modifies state
      ensures state[..] == Folded([], 0)
    {
      hide Folded, InitialWord;
      for i := 0 to 8
        invariant forall j: nat :: j < i ==> state[j] == InitialWord(j)
      {
        state[i] := InitialWord(i);
      }
      InitialState(state[..]);
    }

    /** One block through the compression function, in place. */
    method Compress(chunk: Block)
      requires state.Length == 8
      modifies state
      ensures state[..] == Compressed(old(state[..]), chunk)
    {
      hide Rounds, Add;
      var w := ExpandSchedule(chunk);
      var v := RunRounds(chunk, w, VarsOf(state[..]));
      AddInto(v);
    }

    /** Adds the working variables to the state. */
    method AddInto(v: Vars)
      requires state.Length == 8
      modifies state
      ensures state[..] == AddVars(old(state[..]), v)
    {
      hide Add;
      state[0], state[1], state[2], state[3] :=
        Add(state[0], v.a), Add(state[1], v.b), Add(state[2], v.c), Add(state[3], v.d);
      state[4], state[5], state[6], state[7] :=
        Add(state[4], v.e), Add(state[5], v.f), Add(state[6], v.g), Add(state[7], v.h);
    }

    /** Empties a full buffer into the state. */
    method Flush(ghost full: seq<u8>)
      requires state.Length == 8 && block.Length == 64 && filled == 64
      requires |full| % 64 == 0 && |full| >= 64 && block[..] == full[|full| - 64..]
      requires state[..] == Folded(full, |full| / 64 - 1)
      modifies this`filled, state
      ensures filled == 0 && state[..] == Folded(full, |full| / 64)
    {
      hide Compressed, Folded;
      LastBlock(full);
      Compress(block[..]);
      filled := 0;
    }

    /** Absorbs more of the message: top up the buffer, run whole blocks, keep the rest. */
    method Update(bytes: seq<u8>)
      requires Valid()
      modifies this, state, block
      ensures Valid() && message == old(message) + bytes
    {
      hide Folded, Compressed;
      LengthOf(|message|, |bytes|);
      bits := (bits + 8 * |bytes|) % TWO_64;
      var rest := bytes;
      if filled > 0 {
        var want := 64 - filled;
        var take := if want < |rest| then want else |rest|;
        assert bytes == bytes[..take] + bytes[take..];
        TopUp(rest[..take]);
        rest := rest[take..];
      }
      if filled == 0 {
        rest := RunBlocks(rest);
        Keep(rest);
      }
    }

    /** Whole blocks straight out of the input. */
    method RunBlocks(bytes: seq<u8>) returns (rest: seq<u8>)
      requires Absorbed() && filled == 0
      modifies this`message, state
      ensures Absorbed() && |rest| < 64 && message + rest == old(message) + bytes
    {
      hide Folded, Compressed;
      rest := bytes;
      while |rest| >= 64
        invariant Absorbed() && old(message) + bytes == message + rest
      {
        var chunk := rest[..64];
        FoldedNext(message, chunk);
        Compress(chunk);
        assert rest == chunk + rest[64..];
        assert message + rest == message + chunk + rest[64..];
        message := message + chunk;
        rest := rest[64..];
      }
    }

    /** The tail waits in the buffer. */
    method Keep(rest: seq<u8>)
      requires Absorbed() && filled == 0 && |rest| < 64
      modifies this`filled, this`message, block
      ensures Absorbed() && message == old(message) + rest
    {
      hide Folded, Compressed;
      forall i | 0 <= i < |rest| {
        block[i] := rest[i];
      }
      filled := |rest|;
      assert block[..filled] == rest;
      FoldedPrefix(message, rest, |message| / 64);
      message := message + rest;
      assert message[|message| - filled..] == rest;
    }

    /** Adds bytes to a partly filled buffer, emptying it if that fills it. */
    method TopUp(bytes: seq<u8>)
      requires Absorbed() && filled > 0 && filled + |bytes| <= 64
      modifies this`filled, this`message, state, block
      ensures Absorbed() && message == old(message) + bytes
      ensures old(filled) + |bytes| == 64 ==> filled == 0
    {
      hide Folded, Compressed;
      Append(bytes);
      FoldedPrefix(message, bytes, |message| / 64);
      message := message + bytes;
      assert block[..filled] == message[|message| - filled..];
      if filled == 64 {
        assert block[..] == block[..filled];
        Flush(message);
      }
    }

    method Append(bytes: seq<u8>)
      requires block.Length == 64 && filled + |bytes| <= 64
      modifies this`filled, block
      ensures filled == old(filled) + |bytes| && block[..filled] == old(block[..filled]) + bytes
    {
      forall i | 0 <= i < |bytes| {
        block[filled + i] := bytes[i];
      }
      filled := filled + |bytes|;
    }

    /** Padding goes through here: absorbed without extending the length it encodes. */
    method UpdateRaw(bytes: seq<u8>)
      requires Absorbed()
      modifies this`filled, this`message, state, block
      ensures Absorbed() && message == old(message) + bytes && bits == old(bits)
    {
      hide Folded, Compressed;
      for k := 0 to |bytes|
        invariant Absorbed() && message == old(message) + bytes[..k]
      {
        AbsorbByte(bytes[k]);
        assert bytes[..k + 1] == bytes[..k] + [bytes[k]];
      }
      assert bytes[..|bytes|] == bytes;
    }

    /** One byte into the buffer, emptying it when full. */
    method AbsorbByte(byte: u8)
      requires Absorbed()
      modifies this`filled, this`message, state, block
      ensures Absorbed() && message == old(message) + [byte]
    {
      hide Folded, Compressed;
      FoldedPrefix(message, [byte], |message| / 64);
      ghost var held := block[..filled];
      block[filled] := byte;
      filled := filled + 1;
      message := message + [byte];
      assert block[..filled] == held + [byte];
      assert block[..filled] == message[|message| - filled..];
      if filled == 64 {
        assert block[..] == block[..filled];
        Flush(message);
      }
    }

    /** Pads, and reads the digest off the state. */
    method Finalize() returns (digest: Digest)
      requires Valid()
      modifies this, state, block
      ensures digest == Sha256Of(old(message))
    {
      hide Folded, Compressed, StateBytes;
      ghost var m := message;
      var length := bits;
      UpdateRaw([0x80]);
      ghost var zeros := 0;
      while filled != 56
        invariant Absorbed() && bits == length && zeros <= ZeroPad(|m|)
        invariant message == m + [0x80] + Zeros(zeros)
        decreases ZeroPad(|m|) - zeros
      {
        PadNotDone(|m|, zeros);
        UpdateRaw([0]);
        zeros := zeros + 1;
        assert Zeros(zeros) == Zeros(zeros - 1) + [0];
        assert m + [0x80] + Zeros(zeros - 1) + [0] == m + [0x80] + Zeros(zeros);
      }
      ZeroPadIsLeast(|m|, zeros);
      UpdateRaw(BigEndian(length, 8));
      assert message == Padded(m);
      digest := StateOut();
    }

    method StateOut() returns (out: seq<u8>)
      requires state.Length == 8
      ensures out == StateBytes(state[..])
    {
      out := [];
      for i := 0 to 8
        invariant out == StateBytes(state[..i])
      {
        StateBytesNext(state[..i], state[i]);
        assert state[..i + 1] == state[..i] + [state[i]];
        out := out + BigEndian(state[i] as nat, 4);
      }
      assert state[..8] == state[..];
    }
  }

  method ExpandSchedule(chunk: Block) returns (w: seq<bv32>)
    ensures |w| == 64 && forall j :: 0 <= j < 64 ==> w[j] == Schedule(chunk, j)
  {
    hide SmallSigma0, SmallSigma1, FromBigEndian, Sum;
    w := [];
    for i := 0 to 16
      invariant |w| == i && forall j :: 0 <= j < i ==> w[j] == Schedule(chunk, j)
    {
      w := w + [FromBigEndian(chunk[4 * i], chunk[4 * i + 1], chunk[4 * i + 2], chunk[4 * i + 3])];
    }
    for i := 16 to 64
      invariant |w| == i && forall j :: 0 <= j < i ==> w[j] == Schedule(chunk, j)
    {
      var next := NextWord(chunk, w, i);
      w := w + [next];
    }
  }

  method NextWord(ghost chunk: Block, w: seq<bv32>, i: nat) returns (next: bv32)
    requires 16 <= i < 64 && |w| == i && forall j :: 0 <= j < i ==> w[j] == Schedule(chunk, j)
    ensures next == Schedule(chunk, i)
  {
    hide SmallSigma0, SmallSigma1, Sum;
    var s0 := SmallSigma0(w[i - 15]);
    var s1 := SmallSigma1(w[i - 2]);
    SumReversed(w[i - 16], s0, w[i - 7], s1);
    next := Sum(w[i - 16], s0, w[i - 7], s1);
  }

  method RunRounds(ghost chunk: Block, w: seq<bv32>, start: Vars) returns (v: Vars)
    requires |w| == 64 && forall j :: 0 <= j < 64 ==> w[j] == Schedule(chunk, j)
    ensures v == Rounds(start, chunk, 64)
  {
    hide Schedule, BigSigma0, BigSigma1, Ch, Maj, Add, RoundConstant;
    var a, b, c, d, e, f, g, h := start.a, start.b, start.c, start.d, start.e, start.f, start.g, start.h;
    for i := 0 to 64
      invariant Vars(a, b, c, d, e, f, g, h) == Rounds(start, chunk, i)
    {
      var t1 := Add(Add(Add(Add(h, BigSigma1(e)), Ch(e, f, g)), RoundConstant(i)), w[i]);
      var t2 := Add(BigSigma0(a), Maj(a, b, c));
      h := g;
      g := f;
      f := e;
      e := Add(d, t1);
      d := c;
      c := b;
      b := a;
      a := Add(t1, t2);
    }
    v := Vars(a, b, c, d, e, f, g, h);
  }

  lemma {:induction false} LastBlock(full: seq<u8>)
    requires |full| % 64 == 0 && |full| >= 64
    ensures Folded(full, |full| / 64) == Compressed(Folded(full, |full| / 64 - 1), full[|full| - 64..])
  {
    assert full[64 * (|full| / 64 - 1)..64 * (|full| / 64)] == full[|full| - 64..];
  }

  lemma {:induction false} LengthOf(a: nat, b: nat)
    ensures (8 * a % TWO_64 + 8 * b) % TWO_64 == 8 * (a + b) % TWO_64
  {
  }

  lemma {:induction false} PadNotDone(length: nat, zeros: nat)
    requires zeros <= ZeroPad(length) && (length + 1 + zeros) % 64 != 56
    ensures zeros < ZeroPad(length)
  {
  }

  lemma {:induction false} StateBytesNext(front: seq<bv32>, w: bv32)
    ensures StateBytes(front + [w]) == StateBytes(front) + BigEndian(w as nat, 4)
  {
    if front == [] {
      assert [w][1..] == [];
    } else {
      assert (front + [w])[1..] == front[1..] + [w];
      StateBytesNext(front[1..], w);
    }
  }

  // ---- splitting does not matter ------------------------------------------

  function Joined(parts: seq<seq<u8>>): seq<u8> {
    if parts == [] then [] else Joined(parts[..|parts| - 1]) + parts[|parts| - 1]
  }

  /** However a message is split into updates, the digest is SHA-256 of the whole. */
  method HashParts(parts: seq<seq<u8>>) returns (digest: Digest)
    ensures digest == Sha256Of(Joined(parts))
  {
    hide Sha256Of, Folded, Joined;
    var hasher := new Hasher();
    JoinedNone();
    for k := 0 to |parts|
      invariant hasher.Valid() && hasher.message == Joined(parts[..k])
      invariant fresh(hasher) && fresh(hasher.state) && fresh(hasher.block)
    {
      JoinedNext(parts[..k], parts[k]);
      assert parts[..k + 1] == parts[..k] + [parts[k]];
      hasher.Update(parts[k]);
    }
    assert parts[..|parts|] == parts;
    digest := hasher.Finalize();
  }

  lemma {:induction false} JoinedNone()
    ensures Joined([]) == []
  {
  }

  lemma {:induction false} JoinedNext(front: seq<seq<u8>>, part: seq<u8>)
    ensures Joined(front + [part]) == Joined(front) + part
  {
    assert (front + [part])[..|front|] == front;
  }
}
