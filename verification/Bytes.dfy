/** Bytes, big-endian integers and the hexadecimal form of a digest (src/hash.rs). */
module Bytes {
  import opened Wrappers

  newtype u8 = x: int | 0 <= x < 256

  /** A 32-byte digest. */
  type Digest = d: seq<u8> | |d| == 32 witness seq(32, _ => 0)

  /** `Digest::default()`. */
  function ZeroDigest(): Digest { seq(32, _ => 0) }

  const TWO_64: nat := 0x1_0000_0000_0000_0000

  /** The low `k` bytes of `n`, most significant first. */
  function BigEndian(n: nat, k: nat): (r: seq<u8>)
    ensures |r| == k
  {
    if k == 0 then [] else BigEndian(n / 256, k - 1) + [(n % 256) as u8]
  }

  function Power(b: nat, e: nat): nat {
    if e == 0 then 1 else b * Power(b, e - 1)
  }

  /** A number by its digits to the base 256, the first weighing most. */
  ghost function Weighed(s: seq<u8>): nat {
    if s == [] then 0 else s[0] as nat * Power(256, |s| - 1) + Weighed(s[1..])
  }

  lemma {:induction false} WeighedNext(s: seq<u8>, b: u8)
    ensures Weighed(s + [b]) == Weighed(s) * 256 + b as nat
  {
    if s == [] {
      assert (s + [b])[1..] == [];
      assert Weighed(s + [b]) == b as nat * Power(256, 0) + Weighed((s + [b])[1..]);
    } else {
      WeighedNext(s[1..], b);
      assert (s + [b])[1..] == s[1..] + [b];
      assert Power(256, |s|) == 256 * Power(256, |s| - 1);
      assert s[0] as nat * (256 * Power(256, |s| - 1)) == s[0] as nat * Power(256, |s| - 1) * 256;
    }
  }

  /** Most significant byte first: a number that fits is the weight of its bytes. */
  lemma {:induction false} BigEndianWeighs(n: nat, k: nat)
    requires n < Power(256, k)
    ensures Weighed(BigEndian(n, k)) == n
  {
    if k > 0 {
      assert n / 256 < Power(256, k - 1);
      BigEndianWeighs(n / 256, k - 1);
      WeighedNext(BigEndian(n / 256, k - 1), (n % 256) as u8);
    }
  }

  /** Numbers that fit are recovered from their bytes. */
  lemma {:induction false} BigEndianInjective(m: nat, n: nat, k: nat)
    requires BigEndian(m, k) == BigEndian(n, k) && m < Power(256, k) && n < Power(256, k)
    ensures m == n
  {
    if k > 0 {
      var a, b := BigEndian(m / 256, k - 1), BigEndian(n / 256, k - 1);
      var s := BigEndian(m, k);
      assert s[..k - 1] == a && s[..k - 1] == b;
      assert s[k - 1] == (m % 256) as u8 && s[k - 1] == (n % 256) as u8;
      BigEndianInjective(m / 256, n / 256, k - 1);
    }
  }

  lemma {:induction false} Power256Of8()
    ensures Power(256, 8) == TWO_64
  {
    assert Power(256, 4) == 0x1_0000_0000 by {
      assert Power(256, 2) == 0x1_0000;
    }
    assert Power(256, 6) == 0x1_0000_0000_0000;
  }

  // ---- hexadecimal --------------------------------------------------------

  const HEX := "0123456789abcdef"

  function ToHex(bytes: seq<u8>): (r: string)
    ensures |r| == 2 * |bytes|
  {
    if bytes == [] then "" else [HEX[bytes[0] as nat / 16], HEX[bytes[0] as nat % 16]] + ToHex(bytes[1..])
  }

  /** `char::to_digit(16)`. */
  function HexDigit(c: char): Option<nat> {
    if '0' <= c <= '9' then Some(c as nat - '0' as nat)
    else if 'a' <= c <= 'f' then Some(c as nat - 'a' as nat + 10)
    else if 'A' <= c <= 'F' then Some(c as nat - 'A' as nat + 10)
    else None
  }

  function UnHex(text: string): Option<seq<u8>> {
    if text == "" then Some([])
    else if |text| == 1 then None
    else
      var rest := UnHex(text[2..]);
      if HexDigit(text[0]).Some? && HexDigit(text[1]).Some? && rest.Some?
      then Some([Nibbles(HexDigit(text[0]).value, HexDigit(text[1]).value)] + rest.value)
      else None
  }

  function Nibbles(hi: nat, lo: nat): u8 {
    if hi < 16 && lo < 16 then (16 * hi + lo) as u8 else 0
  }

  /** `Digest::parse_hex`: exactly 64 hexadecimal characters of either case. */
  function ParseHex(text: string): Option<Digest> {
    if |text| != 64 then None
    else
      match UnHex(text)
      case Some(bytes) => if |bytes| == 32 then Some(bytes) else None
      case None => None
  }

  lemma {:induction false} UnHexToHex(bytes: seq<u8>)
    ensures UnHex(ToHex(bytes)) == Some(bytes)
  {
    hide HexDigit, Nibbles;
    if bytes != [] {
      var text, b := ToHex(bytes), bytes[0] as nat;
      assert text[2..] == ToHex(bytes[1..]);
      assert text[0] == HEX[b / 16] && text[1] == HEX[b % 16];
      UnHexToHex(bytes[1..]);
      HexDigitOf(b / 16);
      HexDigitOf(b % 16);
      NibblesOf(bytes[0]);
      assert bytes == [bytes[0]] + bytes[1..];
    }
  }

  /** Two digits a byte, the high half first, in lower case. */
  lemma {:induction false} ToHexAt(bytes: seq<u8>, i: nat)
    requires i < |bytes|
    ensures HexDigit(ToHex(bytes)[2 * i]) == Some(bytes[i] as nat / 16)
    ensures HexDigit(ToHex(bytes)[2 * i + 1]) == Some(bytes[i] as nat % 16)
    ensures !('A' <= ToHex(bytes)[2 * i] <= 'F') && !('A' <= ToHex(bytes)[2 * i + 1] <= 'F')
  {
    hide HexDigit;
    var b, text := bytes[0] as nat, ToHex(bytes);
    assert text[0] == HEX[b / 16] && text[1] == HEX[b % 16] && text[2..] == ToHex(bytes[1..]);
    if i == 0 {
      HexDigitOf(b / 16);
      HexDigitOf(b % 16);
    } else {
      ToHexAt(bytes[1..], i - 1);
      assert text[2 * i] == text[2..][2 * (i - 1)] && text[2 * i + 1] == text[2..][2 * (i - 1) + 1];
    }
  }

  lemma {:induction false} NibblesOf(b: u8)
    ensures Nibbles(b as nat / 16, b as nat % 16) == b
  {
  }

  lemma {:induction false} HexDigitOf(n: nat)
    requires n < 16
    ensures HexDigit(HEX[n]) == Some(n) && !('A' <= HEX[n] <= 'F')
  {
  }

  /** Printing a digest and parsing it back is the identity. */
  lemma {:induction false} ParseHexToHex(d: Digest)
    ensures ParseHex(ToHex(d)) == Some(d)
  {
    UnHexToHex(d);
  }

  /** So distinct digests print differently: an object id names one content hash. */
  lemma {:induction false} ToHexInjective(a: seq<u8>, b: seq<u8>)
    requires ToHex(a) == ToHex(b)
    ensures a == b
  {
    UnHexToHex(a);
    UnHexToHex(b);
  }

  function Lower(text: string): (r: string)
    ensures |r| == |text|
  {
    if text == "" then ""
    else [LowerChar(text[0])] + Lower(text[1..])
  }

  function LowerChar(c: char): char {
    if 'A' <= c <= 'F' then (c as int + 32) as char else c
  }

  /** Parsing accepts a text exactly when it is the hexadecimal form of the result, up to letter case. */
  lemma {:induction false} UnHexSound(text: string)
    requires UnHex(text).Some?
    ensures ToHex(UnHex(text).value) == Lower(text)
  {
    hide HexDigit, LowerChar;
    if text != "" {
      var rest := UnHex(text[2..]).value;
      UnHexSound(text[2..]);
      var hi, lo := HexDigit(text[0]).value, HexDigit(text[1]).value;
      HexLower(text[0]);
      HexLower(text[1]);
      var b := Nibbles(hi, lo);
      assert b as nat / 16 == hi && b as nat % 16 == lo;
      assert UnHex(text).value == [b] + rest;
      assert ([b] + rest)[1..] == rest;
      LowerTwice(text);
    }
  }

  lemma {:induction false} LowerTwice(text: string)
    requires |text| >= 2
    ensures Lower(text) == [LowerChar(text[0]), LowerChar(text[1])] + Lower(text[2..])
  {
    assert text[1..][1..] == text[2..];
    assert Lower(text[1..]) == [LowerChar(text[1])] + Lower(text[2..]);
  }

  lemma {:induction false} HexLower(c: char)
    requires HexDigit(c).Some?
    ensures HexDigit(c).value < 16
    ensures HEX[HexDigit(c).value] == LowerChar(c)
  {
  }
}
