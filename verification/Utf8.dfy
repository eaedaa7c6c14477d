/** UTF-8, the byte form of every string that is hashed (`str::as_bytes`). */
module Utf8 {
  import opened Bytes

  /** One scalar value (section 3 of RFC 3629). */
  function EncodeChar(c: char): (r: seq<u8>)
    ensures 1 <= |r| <= 4
  {
    var u := c as int;
    if u < 0x80 then [u as u8]
    else if u < 0x800 then [(0xC0 + u / 0x40) as u8, Tail(u)]
    else if u < 0x10000 then [(0xE0 + u / 0x1000) as u8, Tail(u / 0x40), Tail(u)]
    else [(0xF0 + u / 0x40000) as u8, Tail(u / 0x1000), Tail(u / 0x40), Tail(u)]
  }

  /** A continuation byte carrying the low six bits. */
  function Tail(u: nat): u8 {
    (0x80 + u % 0x40) as u8
  }

  /** The bytes of the last `n` characters. */
  function EncodeLast(s: string, n: nat): seq<u8>
    requires n <= |s|
  {
    if n == 0 then [] else EncodeChar(s[|s| - n]) + EncodeLast(s, n - 1)
  }

  function Encode(s: string): seq<u8> {
    EncodeLast(s, |s|)
  }

  /** Character by character. */
  lemma {:induction false} EncodeFront(s: string)
    requires s != ""
    ensures Encode(s) == EncodeChar(s[0]) + Encode(s[1..])
  {
    hide EncodeChar;
    EncodeLastOf(s, |s| - 1);
  }

  lemma {:induction false} EncodeEmpty(s: string)
    ensures Encode(s) == [] <==> s == ""
  {
    hide EncodeChar;
  }

  lemma {:induction false} EncodeLastOf(s: string, n: nat)
    requires n < |s|
    ensures EncodeLast(s, n) == EncodeLast(s[1..], n)
  {
    hide EncodeChar;
    if n > 0 {
      EncodeLastOf(s, n - 1);
    }
  }

  /** What the leading byte says about the length. */
  function Width(lead: u8): nat {
    if lead < 0x80 then 1 else if lead < 0xE0 then 2 else if lead < 0xF0 then 3 else 4
  }

  lemma {:induction false} WidthOf(c: char)
    ensures |EncodeChar(c)| == Width(EncodeChar(c)[0])
  {
  }

  /** The scalar value an encoding carries. */
  function Scalar(r: seq<u8>): int
    requires 1 <= |r| <= 4
  {
    if |r| == 1 then r[0] as int
    else if |r| == 2 then 0x40 * (r[0] as int - 0xC0) + Low(r[1])
    else if |r| == 3 then 0x1000 * (r[0] as int - 0xE0) + 0x40 * Low(r[1]) + Low(r[2])
    else 0x40000 * (r[0] as int - 0xF0) + 0x1000 * Low(r[1]) + 0x40 * Low(r[2]) + Low(r[3])
  }

  function Low(b: u8): int { b as int - 0x80 }

  lemma {:induction false} LowOfTail(u: nat)
    ensures Low(Tail(u)) == u % 0x40
  {
  }

  lemma {:induction false} Sextets(u: nat)
    ensures u == 0x40 * (u / 0x40) + u % 0x40
    ensures u / 0x40 == 0x40 * (u / 0x1000) + u / 0x40 % 0x40
    ensures u / 0x1000 == 0x40 * (u / 0x40000) + u / 0x1000 % 0x40
  {
  }

  lemma {:induction false} ScalarOfEncoding(c: char)
    ensures Scalar(EncodeChar(c)) == c as int
  {
    hide Tail, Low;
    var u := c as int;
    Sextets(u);
    LowOfTail(u);
    LowOfTail(u / 0x40);
    LowOfTail(u / 0x1000);
  }

  lemma {:induction false} EncodeCharInjective(c: char, d: char)
    requires EncodeChar(c) == EncodeChar(d)
    ensures c == d
  {
    hide EncodeChar, Scalar;
    ScalarOfEncoding(c);
    ScalarOfEncoding(d);
  }

  /** No string's bytes are another's: hashing bytes is hashing text. */
  lemma {:induction false} EncodeInjective(a: string, b: string)
    requires Encode(a) == Encode(b)
    ensures a == b
  {
    hide EncodeChar, Width, EncodeLast;
    EncodeEmpty(a);
    EncodeEmpty(b);
    if a != "" && b != "" {
      var x, y := EncodeChar(a[0]), EncodeChar(b[0]);
      var s := Encode(a);
      EncodeFront(a);
      EncodeFront(b);
      assert s[0] == x[0] && s[0] == y[0];
      WidthOf(a[0]);
      WidthOf(b[0]);
      assert s[..|x|] == x && s[..|y|] == y;
      EncodeCharInjective(a[0], b[0]);
      assert s[|x|..] == Encode(a[1..]) && s[|y|..] == Encode(b[1..]);
      EncodeInjective(a[1..], b[1..]);
      assert a == [a[0]] + a[1..] && b == [b[0]] + b[1..];
    }
  }
}
