/**
 What the JSON reader accepts (src/json.rs), against the grammar of RFC 8259.

 Numbers (section 6) and strings (section 7) are written out as parts and pieces.  The
 reader takes every text of the grammar, with the value it denotes; what else it takes
 is described exactly, and each way of straying has an input that shows it.
 */
module JsonGrammar {
  import opened Bytes
  import opened Chars
  import opened Json
  import opened JsonParse
  import A = Arithmetic
  import R = JsonRoundTrip
  import opened Wrappers

  // ---- numbers: the grammar -----------------------------------------------

  datatype Exp = Exp(mark: char, sign: string, digits: string)

  datatype Number = Number(sign: string, whole: string, fraction: Option<string>, exp: Option<Exp>)

  function FractionText(fraction: Option<string>): string {
    if fraction.Some? then ['.'] + fraction.value else ""
  }

  function ExpText(exp: Option<Exp>): string {
    if exp.Some? then [exp.value.mark] + exp.value.sign + exp.value.digits else ""
  }

  function NumberText(n: Number): string {
    n.sign + (n.whole + (FractionText(n.fraction) + ExpText(n.exp)))
  }

  predicate ExpOk(exp: Option<Exp>) {
    exp.Some? ==>
      && (exp.value.mark == 'e' || exp.value.mark == 'E')
      && (exp.value.sign == "" || exp.value.sign == "+" || exp.value.sign == "-")
      && exp.value.digits != "" && AllDigits(exp.value.digits)
  }

  /** `[ minus ] int [ frac ] [ exp ]`, where `int` has no leading zero. */
  predicate RfcNumber(n: Number) {
    && (n.sign == "" || n.sign == "-")
    && n.whole != "" && AllDigits(n.whole) && (n.whole[0] == '0' ==> |n.whole| == 1)
    && (n.fraction.Some? ==> n.fraction.value != "" && AllDigits(n.fraction.value))
    && ExpOk(n.exp)
  }

  /** What `f64::from_str` takes of such texts: any sign, and digits on one side of the point at least. */
  predicate RustNumber(n: Number) {
    && (n.sign == "" || n.sign == "-" || n.sign == "+")
    && AllDigits(n.whole) && AllDigits(n.fraction.GetOr("")) && n.whole + n.fraction.GetOr("") != ""
    && ExpOk(n.exp)
  }

  // ---- numbers: taking a text apart ---------------------------------------

  function SplitExp(s: string): Option<Option<Exp>> {
    if s == "" then Some(None)
    else if s[0] != 'e' && s[0] != 'E' then None
    else
      var sign := if StartsWith(s[1..], '-') then "-" else if StartsWith(s[1..], '+') then "+" else "";
      var digits := s[1 + |sign|..];
      if digits == "" || DigitSpan(digits) != |digits| then None else Some(Some(Exp(s[0], sign, digits)))
  }

  function SignOf(text: string): string {
    if StartsWith(text, '-') then "-" else if StartsWith(text, '+') then "+" else ""
  }

  /** Digits, perhaps a point and digits, and what is left. */
  datatype Cut = Cut(whole: string, fraction: Option<string>, tail: string)

  function CutOf(body: string): Cut {
    var w := DigitSpan(body);
    if StartsWith(body[w..], '.') then
      var f := DigitSpan(body[w + 1..]);
      Cut(body[..w], Some(body[w + 1..w + 1 + f]), body[w + 1 + f..])
    else Cut(body[..w], None, body[w..])
  }

  function Split(text: string): Option<Number> {
    var c := CutOf(text[|SignOf(text)|..]);
    if c.whole + c.fraction.GetOr("") == "" || SplitExp(c.tail).None? then None
    else Some(Number(SignOf(text), c.whole, c.fraction, SplitExp(c.tail).value))
  }

  lemma {:induction false} CutText(body: string)
    ensures var c := CutOf(body);
            && body == c.whole + (FractionText(c.fraction) + c.tail)
            && AllDigits(c.whole) && AllDigits(c.fraction.GetOr(""))
  {
    hide DigitSpan, AllDigits, FractionText;
    var w := DigitSpan(body);
    Digits(body, w);
    if StartsWith(body[w..], '.') {
      var f := DigitSpan(body[w + 1..]);
      Digits(body[w + 1..], f);
      Pointed(body, w, f);
    } else {
      Unpointed(body, w);
    }
  }

  lemma {:induction false} Digits(s: string, n: nat)
    requires n == DigitSpan(s)
    ensures AllDigits(s[..n]) && AllDigits("")
  {
  }

  lemma {:induction false} Pointed(body: string, w: nat, f: nat)
    requires w + 1 + f <= |body| && body[w] == '.'
    ensures body == body[..w] + (FractionText(Some(body[w + 1..w + 1 + f])) + body[w + 1 + f..])
    ensures body[w + 1..][..f] == body[w + 1..w + 1 + f]
  {
  }

  lemma {:induction false} Unpointed(body: string, w: nat)
    requires w <= |body|
    ensures body == body[..w] + (FractionText(None) + body[w..])
  {
  }

  lemma {:induction false} CutBack(c: Cut)
    requires AllDigits(c.whole) && AllDigits(c.fraction.GetOr(""))
    requires c.tail == "" || (!IsDigit(c.tail[0]) && c.tail[0] != '.')
    ensures CutOf(c.whole + (FractionText(c.fraction) + c.tail)) == c
  {
    var rest := FractionText(c.fraction) + c.tail;
    var body := c.whole + rest;
    DigitSpanUpTo(c.whole, rest);
    assert body[|c.whole|..] == rest && body[..|c.whole|] == c.whole;
    if c.fraction.Some? {
      PointAt(c.whole, c.fraction.value, c.tail);
      DigitSpanUpTo(c.fraction.value, c.tail);
    } else {
      assert rest == c.tail;
    }
  }

  lemma {:induction false} PointAt(whole: string, fraction: string, tail: string)
    ensures var body := whole + (['.'] + fraction + tail);
            && body[|whole| + 1..] == fraction + tail
            && body[|whole| + 1..|whole| + 1 + |fraction|] == fraction
            && body[|whole| + 1 + |fraction|..] == tail
  {
  }

  /** The reader, in terms of the cut. */
  lemma {:induction false} UnsignedCut(text: string, negative: bool, body: string)
    ensures var c := CutOf(body);
            && AllDigits(c.whole + c.fraction.GetOr(""))
            && Unsigned(text, negative, body) ==
                 if c.whole + c.fraction.GetOr("") == "" || Exponent(c.tail).None? then None
                 else Some(Read(text, negative, DigitsValue(c.whole + c.fraction.GetOr("")),
                                Exponent(c.tail).value - |c.fraction.GetOr("")|))
  {
    hide Exponent, Scaled, DigitsValue;
    var w := DigitSpan(body);
    assert |body[..w]| == w;
  }

  /** The value of digits and a power of ten. */
  function Read(text: string, negative: bool, m: nat, e: int): Json {
    match Scaled(m, e)
    case Some(k) => if k < LIMIT then Num(Signed(negative, k)) else Float(text, true)
    case None => Float(text, true)
  }

  lemma {:induction false} NumberCut(text: string)
    ensures var c := CutOf(text[|SignOf(text)|..]);
            && AllDigits(c.whole + c.fraction.GetOr(""))
            && NumberOf(text) ==
                 if c.whole + c.fraction.GetOr("") == "" || Exponent(c.tail).None? then None
                 else Some(Read(text, SignOf(text) == "-", DigitsValue(c.whole + c.fraction.GetOr("")),
                                Exponent(c.tail).value - |c.fraction.GetOr("")|))
  {
    hide Unsigned, CutOf, Exponent, Read, DigitsValue;
    UnsignedCut(text, SignOf(text) == "-", text[|SignOf(text)|..]);
    assert text[0..] == text;
  }

  lemma {:induction false} ExpSplits(s: string)
    ensures Exponent(s).Some? <==> SplitExp(s).Some?
    ensures SplitExp(s).Some? ==> ExpText(SplitExp(s).value) == s && ExpOk(SplitExp(s).value)
    ensures SplitExp(s).Some? ==> Exponent(s) == Some(ExpValue(SplitExp(s).value))
  {
    if s != "" && (s[0] == 'e' || s[0] == 'E') {
      var sign := if StartsWith(s[1..], '-') then "-" else if StartsWith(s[1..], '+') then "+" else "";
      var digits := s[1 + |sign|..];
      assert s == [s[0]] + sign + digits;
    }
  }

  function ExpValue(exp: Option<Exp>): int
    requires ExpOk(exp)
  {
    if exp.None? then 0 else Signed(exp.value.sign == "-", DigitsValue(exp.value.digits))
  }

  /** The reader takes a text as a number exactly when it splits, and a split text is a number's text. */
  lemma {:induction false} SplitIs(text: string)
    ensures NumberOf(text).Some? <==> Split(text).Some?
    ensures Split(text).Some? ==> NumberText(Split(text).value) == text && RustNumber(Split(text).value)
  {
    hide Exponent, SplitExp, ExpText, ExpOk, Read, DigitsValue, CutOf, NumberOf, FractionText;
    var body := text[|SignOf(text)|..];
    NumberCut(text);
    CutText(body);
    ExpSplits(CutOf(body).tail);
    assert text == SignOf(text) + body;
  }

  lemma {:induction false} DigitSpanUpTo(s: string, rest: string)
    requires AllDigits(s) && (rest == "" || !IsDigit(rest[0]))
    ensures DigitSpan(s + rest) == |s|
  {
    if s != "" {
      assert (s + rest)[1..] == s[1..] + rest;
      DigitSpanUpTo(s[1..], rest);
    } else {
      assert s + rest == rest;
    }
  }

  lemma {:induction false} ExpTextSplits(exp: Option<Exp>)
    requires ExpOk(exp)
    ensures SplitExp(ExpText(exp)) == Some(exp)
  {
    hide DigitSpan;
    if exp.Some? {
      var e := exp.value;
      var s := ExpText(exp);
      ExpCut(e.mark, e.sign, e.digits);
      DigitSpanUpTo(e.digits, "");
      assert e.digits + "" == e.digits;
    }
  }

  lemma {:induction false} ExpCut(mark: char, sign: string, digits: string)
    requires (sign == "" || sign == "+" || sign == "-") && digits != "" && IsDigit(digits[0])
    ensures var s := [mark] + sign + digits;
            && s[0] == mark && s[1 + |sign|..] == digits
            && (StartsWith(s[1..], '-') <==> sign == "-") && (StartsWith(s[1..], '+') <==> sign == "+")
  {
    var s := [mark] + sign + digits;
    assert s[1..] == sign + digits;
    assert sign == "" ==> s[1..] == digits;
  }

  /** Splitting is the inverse of writing: a text is that of one number at most. */
  lemma {:induction false} SplitBack(n: Number)
    requires RustNumber(n)
    ensures Split(NumberText(n)) == Some(n)
  {
    hide SplitExp, ExpOk, CutOf, FractionText, ExpText;
    var tail := ExpText(n.exp);
    var body := n.whole + (FractionText(n.fraction) + tail);
    ExpTextSplits(n.exp);
    TailStarts(n.exp);
    CutBack(Cut(n.whole, n.fraction, tail));
    SignBack(n, body);
    assert NumberText(n)[|n.sign|..] == body;
  }

  lemma {:induction false} TailStarts(exp: Option<Exp>)
    requires ExpOk(exp)
    ensures var t := ExpText(exp); t == "" || (!IsDigit(t[0]) && t[0] != '.' && t[0] != '-' && t[0] != '+')
  {
  }

  lemma {:induction false} SignBack(n: Number, body: string)
    requires RustNumber(n) && body == n.whole + (FractionText(n.fraction) + ExpText(n.exp))
    ensures SignOf(n.sign + body) == n.sign
  {
    assert body != "" && body[0] != '-' && body[0] != '+' by {
      if n.whole != "" {
        assert body[0] == n.whole[0];
      } else {
        assert body[0] == '.';
      }
    }
    assert n.sign == "" ==> n.sign + body == body;
  }

  /** Exactly the texts of the wider grammar are read as numbers. */
  lemma {:induction false} NumberAcceptedIff(text: string)
    ensures NumberOf(text).Some? <==> exists n :: RustNumber(n) && NumberText(n) == text
  {
    hide NumberOf, Split, RustNumber, NumberText;
    SplitIs(text);
    forall n | RustNumber(n) && NumberText(n) == text ensures Split(text) == Some(n) {
      SplitBack(n);
    }
  }

  /** How a text strays from section 6: a plus sign, no digit before the point, a leading zero, none after it. */
  predicate NumberDeviates(text: string) {
    var c := CutOf(text[|SignOf(text)|..]);
    SignOf(text) == "+" || c.whole == "" || (|c.whole| > 1 && c.whole[0] == '0') || c.fraction == Some("")
  }

  ghost predicate IsRfcNumber(text: string) {
    exists n :: RfcNumber(n) && NumberText(n) == text
  }

  /** A text is a number of RFC 8259 exactly when it is read as one and strays in none of these ways. */
  lemma {:induction false} RfcNumberIff(text: string)
    ensures IsRfcNumber(text) <==> NumberOf(text).Some? && !NumberDeviates(text)
  {
    hide NumberOf, RustNumber, NumberText, RfcNumber, SplitExp, NumberDeviates, Split;
    SplitIs(text);
    if Split(text).Some? {
      SplitRfc(text);
    }
    forall n | RfcNumber(n) && NumberText(n) == text ensures Split(text) == Some(n) {
      RfcIsRust(n);
      SplitBack(n);
    }
  }

  lemma {:induction false} RfcIsRust(n: Number)
    requires RfcNumber(n)
    ensures RustNumber(n)
  {
  }

  lemma {:induction false} SplitRfc(text: string)
    requires Split(text).Some? && RustNumber(Split(text).value)
    ensures RfcNumber(Split(text).value) <==> !NumberDeviates(text)
  {
    hide SplitExp, ExpOk, CutOf;
  }

  // ---- numbers: what they denote ------------------------------------------

  ghost function Ten(e: int): real
    decreases if e < 0 then -e else e
  {
    if e == 0 then 1.0 else if e > 0 then 10.0 * Ten(e - 1) else Ten(e + 1) / 10.0
  }

  /** The decimal value: the digits as an integer, the point moved, the exponent applied. */
  ghost function Denotes(n: Number): real
    requires RustNumber(n)
  {
    var fraction := n.fraction.GetOr("");
    AllDigitsJoin(n.whole, fraction);
    var magnitude := DigitsValue(n.whole + fraction) as real * Ten(ExpValue(n.exp) - |fraction|);
    if n.sign == "-" then -magnitude else magnitude
  }

  lemma {:induction false} AllDigitsJoin(a: string, b: string)
    requires AllDigits(a) && AllDigits(b)
    ensures AllDigits(a + b)
  {
  }

  lemma {:induction false} TenPower(e: nat)
    ensures Ten(e) == Power(10, e) as real && Power(10, e) > 0
    ensures Ten(-(e as int)) * Power(10, e) as real == 1.0
  {
    if e > 0 {
      TenPower(e - 1);
      var p := Power(10, e - 1);
      assert Power(10, e) == 10 * p;
      assert (10 * p) as real == 10.0 * p as real;
      assert -(e as int) + 1 == -((e - 1) as int);
      assert Ten(-(e as int)) == Ten(-((e - 1) as int)) / 10.0;
      TenDown(Ten(-((e - 1) as int)), p as real);
    }
  }

  lemma {:induction false} TenDown(x: real, p: real)
    requires x * p == 1.0
    ensures (x / 10.0) * (10.0 * p) == 1.0
  {
    assert (x / 10.0) * (10.0 * p) == (x / 10.0 * 10.0) * p;
  }

  /** `Scaled` finds the integer that `m * 10^e` is, if it is one. */
  lemma {:induction false} ScaledIs(m: nat, e: int, k: int)
    ensures k as real == m as real * Ten(e) <==> Scaled(m, e) == Some(k) && k >= 0
  {
    hide Ten, Power;
    if e >= 0 {
      TenPower(e);
      ProductAsReal(m, Power(10, e));
    } else {
      TenPower(-e);
      assert -((-e) as int) == e;
      ScaledDown(m, Power(10, -e), Ten(e), k);
    }
  }

  lemma {:induction false} ScaledDown(m: nat, p: nat, t: real, k: int)
    requires p > 0 && t * p as real == 1.0
    ensures k as real == m as real * t <==> m % p == 0 && k == m / p
  {
    Inverse(k as real, m as real, t, p as real);
    ProductAsReal(k, p);
    assert k as real == m as real * t <==> k * p == m;
    Quotient(m, p, k);
  }

  lemma {:induction false} ProductAsReal(a: int, b: int)
    ensures (a * b) as real == a as real * b as real
  {
  }

  lemma {:induction false} Inverse(k: real, m: real, t: real, p: real)
    requires t * p == 1.0 && p > 0.0
    ensures k == m * t <==> k * p == m
  {
    if k == m * t {
      assert k * p == m * (t * p);
    }
    if k * p == m {
      assert m * t == k * (p * t);
    }
  }

  lemma {:induction false} Quotient(m: nat, p: nat, k: int)
    requires p > 0
    ensures k * p == m <==> m % p == 0 && k == m / p
  {
    if k * p == m {
      A.DivideUnique(m, p, k, 0);
    }
  }

  ghost function Two(e: int): real
    decreases if e < 0 then -e else e
  {
    if e == 0 then 1.0 else if e > 0 then 2.0 * Two(e - 1) else Two(e + 1) / 2.0
  }

  ghost function Binary(m: int, e: int): real {
    m as real * Two(e)
  }

  /** What an `f64` holds: 53 bits times a power of two in range. */
  ghost predicate IsDouble(x: real) {
    exists m: int, e: int :: -LIMIT < m < LIMIT && -1074 <= e <= 971 && x == Binary(m, e)
  }

  lemma {:induction false} DoubleBy(x: real, m: int, e: int)
    requires -LIMIT < m < LIMIT && -1074 <= e <= 971 && x == Binary(m, e)
    ensures IsDouble(x)
  {
    hide Binary;
  }

  /**
   A number is read as the integer it denotes, if that is below 2^53 in magnitude.  If it
   denotes a double it is read as no other, and known by its text when it denotes none; what
   a text that denotes no double is rounded to is not modelled.
   */
  lemma {:induction false} NumberValue(n: Number, k: int)
    requires RustNumber(n)
    ensures NumberOf(NumberText(n)).Some?
    ensures -LIMIT < k < LIMIT && k as real == Denotes(n) ==> NumberOf(NumberText(n)) == Some(Num(k))
    ensures IsDouble(Denotes(n)) && NumberOf(NumberText(n)) == Some(Num(k)) ==>
              -LIMIT < k < LIMIT && k as real == Denotes(n)
    ensures NumberOf(NumberText(n)).value.Num? || NumberOf(NumberText(n)).value == Float(NumberText(n), true)
  {
    hide ExpOk, DigitsValue, Ten, NumberText, NumberOf, ExpValue, Read, Scaled, IsDouble;
    NumberReads(n);
    var fraction := n.fraction.GetOr("");
    var m, e := DigitsValue(n.whole + fraction), ExpValue(n.exp) - |fraction|;
    ReadIs(NumberText(n), n.sign == "-", m, e, k);
  }

  lemma {:induction false} ReadIs(text: string, negative: bool, m: nat, e: int, k: int)
    ensures var magnitude := m as real * Ten(e);
            Read(text, negative, m, e) == Num(k)
            <==> -LIMIT < k < LIMIT && k as real == if negative then -magnitude else magnitude
    ensures Read(text, negative, m, e).Num? || Read(text, negative, m, e) == Float(text, true)
  {
    hide Ten, Scaled;
    var j := if negative then -k else k;
    ScaledIs(m, e, j);
    assert (-k) as real == -(k as real);
  }

  /** What `NumberOf` computes from the parts. */
  lemma {:induction false} NumberReads(n: Number)
    requires RustNumber(n)
    ensures var fraction := n.fraction.GetOr("");
            && AllDigits(n.whole + fraction)
            && NumberOf(NumberText(n)) ==
                 Some(Read(NumberText(n), n.sign == "-", DigitsValue(n.whole + fraction), ExpValue(n.exp) - |fraction|))
  {
    hide Exponent, ExpText, Read, DigitsValue, ExpValue, CutOf, NumberOf, FractionText, SplitExp, ExpOk;
    var text, tail := NumberText(n), ExpText(n.exp);
    var body := n.whole + (FractionText(n.fraction) + tail);
    TailStarts(n.exp);
    CutBack(Cut(n.whole, n.fraction, tail));
    SignBack(n, body);
    assert text[|n.sign|..] == body;
    ExpTextSplits(n.exp);
    ExpSplits(tail);
    NumberCut(text);
  }

  /** In a text the number ends where the number characters do. */
  lemma {:induction false} NumberRead(n: Number, rest: string)
    requires RustNumber(n) && (rest == "" || !IsNumberChar(rest[0]))
    ensures NumberOf(NumberText(n)).Some?
    ensures ParseNumber(NumberText(n) + rest) == Got(NumberOf(NumberText(n)).value, rest)
  {
    hide NumberOf, ExpOk, NumberText, Split;
    SplitBack(n);
    SplitIs(NumberText(n));
    var text := NumberText(n);
    NumberChars(n);
    R.NumberSpanOf(text, rest);
    assert (text + rest)[..|text|] == text && (text + rest)[|text|..] == rest;
  }

  lemma {:induction false} NumberChars(n: Number)
    requires RustNumber(n)
    ensures NumberText(n) != "" && forall i :: 0 <= i < |NumberText(n)| ==> IsNumberChar(NumberText(n)[i])
  {
    CharsJoin(FractionText(n.fraction), ExpText(n.exp));
    CharsJoin(n.whole, FractionText(n.fraction) + ExpText(n.exp));
    CharsJoin(n.sign, n.whole + (FractionText(n.fraction) + ExpText(n.exp)));
  }

  ghost predicate NumberOnly(s: string) {
    forall i :: 0 <= i < |s| ==> IsNumberChar(s[i])
  }

  lemma {:induction false} CharsJoin(a: string, b: string)
    ensures NumberOnly(a) && NumberOnly(b) ==> NumberOnly(a + b)
  {
  }

  // ---- strings: the grammar -----------------------------------------------

  /** A character as itself, after a backslash, or as four hexadecimal digits after `\u`. */
  datatype Piece = Plain(c: char) | Short(escaped: char) | Hex(digits: string)

  function PieceText(p: Piece): string {
    match p
    case Plain(c) => [c]
    case Short(c) => ['\\', c]
    case Hex(digits) => ['\\', 'u'] + digits
  }

  function PiecesText(ps: seq<Piece>): string {
    if ps == [] then "" else PieceText(ps[0]) + PiecesText(ps[1..])
  }

  function StringText(ps: seq<Piece>): string {
    ['"'] + (PiecesText(ps) + ['"'])
  }

  predicate AllHex(digits: string) {
    forall i :: 0 <= i < |digits| ==> HexDigit(digits[i]).Some?
  }

  /** `unescaped`, or one of the escapes: section 7. */
  predicate RfcPiece(p: Piece) {
    match p
    case Plain(c) => c != '"' && c != '\\' && c as int >= 0x20
    case Short(c) => SimpleEscape(c).Some?
    case Hex(digits) => |digits| == 4 && AllHex(digits)
  }

  predicate Readable(p: Piece) {
    match p
    case Plain(c) => c != '"' && c != '\\'
    case Short(c) => SimpleEscape(c).Some?
    case Hex(digits) => |digits| == 4 && HexChar(digits).Some?
  }

  ghost predicate AllReadable(ps: seq<Piece>) {
    forall i :: 0 <= i < |ps| ==> Readable(ps[i])
  }

  function PieceChar(p: Piece): char
    requires Readable(p)
  {
    match p
    case Plain(c) => c
    case Short(c) => SimpleEscape(c).value
    case Hex(digits) => HexChar(digits).value
  }

  ghost function PiecesValue(ps: seq<Piece>): (v: string)
    requires AllReadable(ps)
    ensures |v| == |ps|
  {
    if ps == [] then "" else [PieceChar(ps[0])] + PiecesValue(ps[1..])
  }

  // ---- strings: what is read ----------------------------------------------

  lemma {:induction false} PieceRead(p: Piece, rest: string)
    requires Readable(p)
    ensures ParseChars(PieceText(p) + rest) == Prepend(PieceChar(p), ParseChars(rest))
  {
    hide HexChar, SimpleEscape;
    var s := PieceText(p) + rest;
    match p
    case Plain(c) => assert s[1..] == rest;
    case Short(c) =>
      NoShortU(c);
      assert s[1..] == [c] + rest;
      assert s[1..][1..] == rest;
    case Hex(digits) =>
      assert s[1..] == ['u'] + digits + rest;
      assert s[1..][1..5] == digits && s[1..][5..] == rest;
  }

  lemma {:induction false} NoShortU(c: char)
    requires SimpleEscape(c).Some?
    ensures c != 'u'
  {
  }

  lemma {:induction false} PiecesUnfold(ps: seq<Piece>)
    requires AllReadable(ps) && ps != []
    ensures Readable(ps[0]) && AllReadable(ps[1..])
    ensures PiecesText(ps) == PieceText(ps[0]) + PiecesText(ps[1..])
    ensures PiecesValue(ps) == [PieceChar(ps[0])] + PiecesValue(ps[1..])
  {
    hide Readable, PieceText, PieceChar;
  }

  /** Pieces up to the closing quote are read, and give their characters. */
  lemma {:induction false} PiecesRead(ps: seq<Piece>, rest: string)
    requires AllReadable(ps)
    ensures ParseChars(PiecesText(ps) + (['"'] + rest)) == Got(PiecesValue(ps), rest)
  {
    hide PieceText, PieceChar, Readable, AllReadable, ParseChars, PiecesText, PiecesValue;
    if ps == [] {
      NoPieces();
      assert PiecesText(ps) + (['"'] + rest) == ['"'] + rest;
      QuoteEnds(rest);
    } else {
      var more := PiecesText(ps[1..]) + (['"'] + rest);
      PiecesUnfold(ps);
      PiecesRead(ps[1..], rest);
      PieceRead(ps[0], more);
      assert PiecesText(ps) + (['"'] + rest) == PieceText(ps[0]) + more;
    }
  }

  lemma {:induction false} NoPieces()
    ensures AllReadable([]) && PiecesText([]) == "" && PiecesValue([]) == ""
  {
  }

  lemma {:induction false} QuoteEnds(rest: string)
    ensures ParseChars(['"'] + rest) == Got("", rest)
  {
    assert (['"'] + rest)[1..] == rest;
  }

  /** What is read up to the closing quote consists of pieces. */
  lemma {:induction false} PiecesOf(s: string) returns (ps: seq<Piece>)
    requires ParseChars(s).Got?
    ensures AllReadable(ps) && s == PiecesText(ps) + (['"'] + ParseChars(s).rest)
    ensures PiecesValue(ps) == ParseChars(s).value
    decreases |s|
  {
    hide Readable, PieceText, PieceChar, ParseChars, AllReadable, PiecesText, PiecesValue;
    NotEmpty(s);
    if s[0] == '"' {
      ps := [];
      NoPieces();
      QuoteEnds(s[1..]);
      assert s == ['"'] + s[1..];
    } else {
      var p, after := FirstPiece(s);
      PieceRead(p, after);
      var more := PiecesOf(after);
      ps := [p] + more;
      Joined(p, more);
      assert s == PieceText(p) + after;
    }
  }

  lemma {:induction false} NotEmpty(s: string)
    requires ParseChars(s).Got?
    ensures s != ""
  {
  }

  lemma {:induction false} Joined(p: Piece, more: seq<Piece>)
    requires Readable(p) && AllReadable(more)
    ensures var ps := [p] + more;
            && AllReadable(ps) && PiecesText(ps) == PieceText(p) + PiecesText(more)
            && PiecesValue(ps) == [PieceChar(p)] + PiecesValue(more)
  {
    hide Readable, PieceText, PieceChar;
    assert ([p] + more)[1..] == more;
  }

  lemma {:induction false} FirstPiece(s: string) returns (p: Piece, after: string)
    requires ParseChars(s).Got? && s[0] != '"'
    ensures Readable(p) && s == PieceText(p) + after && |after| < |s|
  {
    hide HexChar, SimpleEscape;
    if s[0] == '\\' {
      if s[1] == 'u' {
        p, after := Hex(s[2..6]), s[6..];
        assert s[1..][1..5] == s[2..6];
        assert s == ['\\', 'u'] + s[2..6] + s[6..];
      } else {
        p, after := Short(s[1]), s[2..];
        assert s == ['\\', s[1]] + s[2..];
      }
    } else {
      p, after := Plain(s[0]), s[1..];
    }
  }

  lemma {:induction false} StringMade(ps: seq<Piece>, rest: string)
    requires AllReadable(ps)
    ensures ParseString(StringText(ps) + rest) == Got(PiecesValue(ps), rest)
  {
    hide AllReadable, PiecesText, PiecesValue, ParseChars;
    PiecesRead(ps, rest);
    assert StringText(ps) + rest == ['"'] + (PiecesText(ps) + (['"'] + rest));
    assert (StringText(ps) + rest)[1..] == PiecesText(ps) + (['"'] + rest);
  }

  lemma {:induction false} StringTaken(s: string) returns (ps: seq<Piece>)
    requires ParseString(s).Got?
    ensures AllReadable(ps) && s == StringText(ps) + ParseString(s).rest && PiecesValue(ps) == ParseString(s).value
  {
    hide AllReadable, PiecesText, PiecesValue, ParseChars;
    ps := PiecesOf(s[1..]);
    assert s == ['"'] + s[1..];
    assert s == StringText(ps) + ParseString(s).rest;
  }

  /** Exactly the texts made of readable pieces between quotes are read as strings, with their characters. */
  lemma {:induction false} StringAcceptedIff(s: string, v: string, rest: string)
    ensures ParseString(s) == Got(v, rest) <==>
            exists ps :: AllReadable(ps) && s == StringText(ps) + rest && v == PiecesValue(ps)
  {
    hide ParseString, AllReadable, StringText, PiecesValue;
    if ParseString(s) == Got(v, rest) {
      var ps := StringTaken(s);
    }
    forall ps | AllReadable(ps) && s == StringText(ps) + rest ensures ParseString(s) == Got(PiecesValue(ps), rest) {
      StringMade(ps, rest);
    }
  }

  /** A text is made of pieces in one way at most. */
  lemma {:induction false} PiecesUnique(ps: seq<Piece>, qs: seq<Piece>, a: string, b: string)
    requires AllReadable(ps) && AllReadable(qs)
    requires PiecesText(ps) + (['"'] + a) == PiecesText(qs) + (['"'] + b)
    ensures ps == qs && a == b
    decreases |ps|
  {
    hide Readable, PieceText;
    if ps == [] || qs == [] {
      PiecesStart(ps, a);
      PiecesStart(qs, b);
      assert ps == [] && qs == [];
      assert ([] + (['"'] + a))[1..] == a && ([] + (['"'] + b))[1..] == b;
    } else {
      var x, y := PiecesText(ps[1..]) + (['"'] + a), PiecesText(qs[1..]) + (['"'] + b);
      assert PiecesText(ps) + (['"'] + a) == PieceText(ps[0]) + x;
      assert PiecesText(qs) + (['"'] + b) == PieceText(qs[0]) + y;
      PieceUnique(ps[0], qs[0], x, y);
      PiecesUnique(ps[1..], qs[1..], a, b);
      assert ps == [ps[0]] + ps[1..] && qs == [qs[0]] + qs[1..];
    }
  }

  lemma {:induction false} PiecesStart(ps: seq<Piece>, a: string)
    requires AllReadable(ps)
    ensures var s := PiecesText(ps) + (['"'] + a); s != "" && (s[0] == '"' <==> ps == [])
  {
    if ps != [] {
      assert Readable(ps[0]) && PieceText(ps[0]) != "" && PieceText(ps[0])[0] != '"';
    }
  }

  lemma {:induction false} PieceUnique(p: Piece, q: Piece, x: string, y: string)
    requires Readable(p) && Readable(q) && PieceText(p) + x == PieceText(q) + y
    ensures p == q && x == y
  {
    hide HexChar, SimpleEscape;
    var s := PieceText(p) + x;
    if p.Short? {
      NoShortU(p.escaped);
    }
    if q.Short? {
      NoShortU(q.escaped);
    }
    assert p.Plain? <==> s[0] != '\\';
    assert q.Plain? <==> s[0] != '\\';
    assert !p.Plain? ==> (p.Hex? <==> s[1] == 'u');
    assert !q.Plain? ==> (q.Hex? <==> s[1] == 'u');
    var n := |PieceText(p)|;
    assert n == |PieceText(q)|;
    assert s[..n] == PieceText(p) && s[..n] == PieceText(q);
    assert s[n..] == x && s[n..] == y;
    if p.Hex? {
      assert PieceText(p)[2..] == p.digits && PieceText(q)[2..] == q.digits;
    } else if p.Short? {
      assert PieceText(p)[1] == PieceText(q)[1];
    } else {
      assert PieceText(p)[0] == PieceText(q)[0];
    }
  }

  /** How a piece strays from section 7: a control character as itself, a plus sign for the first digit. */
  predicate PieceDeviates(p: Piece) {
    (p.Plain? && p.c as int < 0x20) || (p.Hex? && p.digits != "" && p.digits[0] == '+')
  }

  /** The pieces of the standard are the readable ones that do not. */
  lemma {:induction false} RfcPieceIff(p: Piece)
    ensures RfcPiece(p) <==> Readable(p) && !PieceDeviates(p)
  {
    if p.Hex? && |p.digits| == 4 {
      HexValueIff(p.digits);
      HexValueIff(p.digits[1..]);
    }
  }

  lemma {:induction false} HexValueIff(digits: string)
    ensures HexValue(digits).Some? <==> AllHex(digits)
  {
    if digits != "" {
      var n := |digits| - 1;
      HexValueIff(digits[..n]);
      assert digits == digits[..n] + [digits[n]];
    }
  }

  ghost predicate AllRfc(ps: seq<Piece>) {
    forall i :: 0 <= i < |ps| ==> RfcPiece(ps[i])
  }

  lemma {:induction false} AllRfcIff(ps: seq<Piece>)
    ensures AllRfc(ps) <==> AllReadable(ps) && forall i :: 0 <= i < |ps| ==> !PieceDeviates(ps[i])
  {
    hide RfcPiece, Readable, PieceDeviates;
    forall i | 0 <= i < |ps| ensures RfcPiece(ps[i]) <==> Readable(ps[i]) && !PieceDeviates(ps[i]) {
      RfcPieceIff(ps[i]);
    }
  }

  ghost predicate IsRfcString(text: string) {
    exists ps :: AllRfc(ps) && StringText(ps) == text
  }

  /** A text read as a string, from pieces that are its own, is one of RFC 8259 exactly when no piece strays. */
  lemma {:induction false} RfcStringIff(ps: seq<Piece>)
    requires AllReadable(ps)
    ensures IsRfcString(StringText(ps)) <==> forall i :: 0 <= i < |ps| ==> !PieceDeviates(ps[i])
  {
    hide Readable, PieceDeviates, RfcPiece, PiecesText, AllRfc, AllReadable;
    AllRfcIff(ps);
    forall qs | AllRfc(qs) && StringText(qs) == StringText(ps) ensures qs == ps {
      AllRfcIff(qs);
      SameText(ps, qs);
    }
  }

  lemma {:induction false} SameText(ps: seq<Piece>, qs: seq<Piece>)
    requires AllReadable(ps) && AllReadable(qs) && StringText(ps) == StringText(qs)
    ensures ps == qs
  {
    hide AllReadable, PiecesText;
    assert StringText(ps)[1..] == PiecesText(ps) + (['"'] + "");
    assert StringText(qs)[1..] == PiecesText(qs) + (['"'] + "");
    PiecesUnique(ps, qs, "", "");
  }

  // ---- strings: what they mean --------------------------------------------

  /** The UTF-16 code unit of an escape. */
  function Unit(p: Piece): nat
    requires RfcPiece(p) && p.Hex?
  {
    HexValueIff(p.digits);
    HexValue(p.digits).value
  }

  predicate Surrogate(p: Piece)
    requires RfcPiece(p)
  {
    p.Hex? && 0xD800 <= Unit(p) < 0xE000
  }

  lemma {:induction false} RfcIsReadable(ps: seq<Piece>)
    requires AllRfc(ps)
    ensures AllReadable(ps)
  {
    hide RfcPiece, Readable, PieceDeviates;
    AllRfcIff(ps);
  }

  /** A pair of surrogates stands for one character beyond the basic plane, one alone for none. */
  ghost function Meaning(ps: seq<Piece>): Option<string>
    requires AllRfc(ps)
  {
    RfcIsReadable(ps);
    if ps == [] then Some("")
    else if !Surrogate(ps[0]) then
      match Meaning(ps[1..]) case Some(v) => Some([PieceChar(ps[0])] + v) case None => None
    else if |ps| >= 2 && Surrogate(ps[1]) && Unit(ps[0]) < 0xDC00 <= Unit(ps[1]) then
      var u := 0x10000 + (Unit(ps[0]) - 0xD800) * 0x400 + (Unit(ps[1]) - 0xDC00);
      match Meaning(ps[2..]) case Some(v) => Some([u as char] + v) case None => None
    else None
  }

  lemma {:induction false} MeaningLength(ps: seq<Piece>)
    requires AllRfc(ps) && Meaning(ps).Some?
    ensures |Meaning(ps).value| <= |ps|
    ensures |Meaning(ps).value| == |ps| <==> forall i :: 0 <= i < |ps| ==> !Surrogate(ps[i])
    decreases |ps|
  {
    hide RfcPiece, Surrogate;
    if ps != [] {
      if !Surrogate(ps[0]) {
        MeaningLength(ps[1..]);
        assert forall i :: 1 <= i < |ps| ==> ps[i] == ps[1..][i - 1];
        assert forall i :: 0 <= i < |ps[1..]| ==> ps[1..][i] == ps[i + 1];
      } else {
        MeaningLength(ps[2..]);
      }
    }
  }

  /** A string of the standard is read, and with its meaning exactly when it escapes no surrogate. */
  lemma {:induction false} RfcStringRead(ps: seq<Piece>, rest: string)
    requires AllRfc(ps) && Meaning(ps).Some?
    ensures AllReadable(ps) && ParseString(StringText(ps) + rest) == Got(PiecesValue(ps), rest)
    ensures PiecesValue(ps) == Meaning(ps).value <==> forall i :: 0 <= i < |ps| ==> !Surrogate(ps[i])
  {
    hide RfcPiece, Readable, Surrogate, PiecesText, ParseString;
    RfcIsReadable(ps);
    StringMade(ps, rest);
    MeaningLength(ps);
    if forall i :: 0 <= i < |ps| ==> !Surrogate(ps[i]) {
      PlainMeaning(ps);
    }
  }

  lemma {:induction false} PlainMeaning(ps: seq<Piece>)
    requires AllRfc(ps) && AllReadable(ps) && forall i :: 0 <= i < |ps| ==> !Surrogate(ps[i])
    ensures Meaning(ps) == Some(PiecesValue(ps))
  {
    hide RfcPiece, Readable, Surrogate, PieceChar;
    if ps != [] {
      assert forall i :: 0 <= i < |ps[1..]| ==> ps[1..][i] == ps[i + 1];
      PlainMeaning(ps[1..]);
    }
  }

  /** Every surrogate escape is read as U+FFFD. */
  lemma {:induction false} SurrogateRead(p: Piece)
    requires RfcPiece(p) && Readable(p) && Surrogate(p)
    ensures PieceChar(p) == 0xFFFD as char
  {
    HexValueIff(p.digits);
    assert p.digits[0] != '+';
  }

  // ---- an input for each way of straying ----------------------------------

  /** A whole text that is one number. */
  lemma {:induction false} NumberParsed(n: Number)
    requires RustNumber(n)
    ensures NumberOf(NumberText(n)).Some? && Parse(NumberText(n)) == NumberOf(NumberText(n))
  {
    hide NumberOf, NumberText, RustNumber;
    var text := NumberText(n);
    NumberChars(n);
    R.TrimmedFront(text);
    NumberRead(n, "");
    assert text + "" == text;
  }

  /** A plus sign, a leading zero, no digit before the point, none after it. */
  lemma {:induction false} StrayNumbers()
    ensures Parse("+1") == Some(Num(1)) && !IsRfcNumber("+1")
    ensures Parse("01") == Some(Num(1)) && !IsRfcNumber("01")
    ensures Parse(".5") == Some(Float(".5", true)) && !IsRfcNumber(".5")
    ensures Parse("1.") == Some(Num(1)) && !IsRfcNumber("1.")
  {
    hide Parse, NumberOf, NumberText, RustNumber, IsRfcNumber, Denotes, NumberDeviates;
    StrayPlus();
    StrayZero();
    StrayPoint();
    StrayEnd();
  }

  /** A number that strays is read with its value. */
  lemma {:induction false} StrayNumber(n: Number, k: int)
    requires RustNumber(n) && NumberDeviates(NumberText(n))
    ensures !IsRfcNumber(NumberText(n))
    ensures -LIMIT < k < LIMIT && k as real == Denotes(n) ==> Parse(NumberText(n)) == Some(Num(k))
    ensures IsDouble(Denotes(n)) && Parse(NumberText(n)) == Some(Num(k)) ==>
              -LIMIT < k < LIMIT && k as real == Denotes(n)
    ensures Parse(NumberText(n)).Some?
    ensures Parse(NumberText(n)).value.Num? || Parse(NumberText(n)).value == Float(NumberText(n), true)
  {
    hide Parse, NumberOf, NumberText, RustNumber, IsRfcNumber, Denotes, NumberDeviates, IsDouble;
    NumberParsed(n);
    NumberValue(n, k);
    RfcNumberIff(NumberText(n));
  }

  lemma {:induction false} StrayPlus()
    ensures Parse("+1") == Some(Num(1)) && !IsRfcNumber("+1")
  {
    hide Parse, NumberOf, IsRfcNumber, CutOf;
    var n := Number("+", "1", None, None);
    assert NumberText(n) == "+1";
    StrayNumber(n, 1);
  }

  lemma {:induction false} StrayZero()
    ensures Parse("01") == Some(Num(1)) && !IsRfcNumber("01")
  {
    hide Parse, NumberOf, IsRfcNumber, CutOf;
    var n := Number("", "01", None, None);
    assert NumberText(n) == "01";
    CutBack(Cut("01", None, ""));
    assert "01"[0..] == "01" && "01" + "" == "01";
    assert DigitsValue("0") == 0 && "01"[..1] == "0";
    StrayNumber(n, 1);
  }

  lemma {:induction false} StrayPoint()
    ensures Parse(".5") == Some(Float(".5", true)) && !IsRfcNumber(".5")
  {
    hide Parse, NumberOf, IsRfcNumber, CutOf;
    var n := Number("", "", Some("5"), None);
    assert NumberText(n) == ".5";
    CutBack(Cut("", Some("5"), ""));
    assert ".5"[0..] == ".5";
    assert DigitsValue("5") == 5;
    assert "" + "5" == "5";
    assert n.fraction.GetOr("") == "5";
    assert Ten(0) == 1.0;
    assert Ten(-1) == 0.1;
    assert Denotes(n) == 0.5;
    assert Two(0) == 1.0;
    assert Two(-1) == 0.5;
    DoubleBy(0.5, 1, -1);
    var k := if Parse(".5").Some? && Parse(".5").value.Num? then Parse(".5").value.n else 0;
    StrayNumber(n, k);
  }

  lemma {:induction false} StrayEnd()
    ensures Parse("1.") == Some(Num(1)) && !IsRfcNumber("1.")
  {
    hide Parse, NumberOf, IsRfcNumber, CutOf;
    var n := Number("", "1", Some(""), None);
    assert NumberText(n) == "1.";
    CutBack(Cut("1", Some(""), ""));
    assert "1."[0..] == "1.";
    assert "1" + "" == "1";
    StrayNumber(n, 1);
  }

  lemma {:induction false} StringParsed(ps: seq<Piece>)
    requires AllReadable(ps)
    ensures Parse(StringText(ps)) == Some(Str(PiecesValue(ps)))
  {
    hide ParseString, Readable, PiecesText;
    var text := StringText(ps);
    R.TrimmedFront(text);
    StringMade(ps, "");
    assert text + "" == text;
  }

  lemma {:induction false} OnePiece(p: Piece)
    requires Readable(p)
    ensures AllReadable([p]) && StringText([p]) == ['"'] + PieceText(p) + ['"'] && PiecesValue([p]) == [PieceChar(p)]
    ensures Parse(['"'] + PieceText(p) + ['"']) == Some(Str([PieceChar(p)]))
    ensures IsRfcString(['"'] + PieceText(p) + ['"']) <==> !PieceDeviates(p)
  {
    hide Readable, Parse, PieceText, PieceChar, IsRfcString, PieceDeviates;
    StringParsed([p]);
    RfcStringIff([p]);
    assert PiecesText([p]) == PieceText(p);
  }

  /** A raw line feed in a string, and a `\u` escape whose first digit is a plus sign. */
  lemma {:induction false} StrayStrings()
    ensures Parse("\"\n\"") == Some(Str("\n")) && !IsRfcString("\"\n\"")
    ensures Parse("\"\\u+12F\"") == Some(Str([0x12F as char])) && !IsRfcString("\"\\u+12F\"")
  {
    hide Parse, IsRfcString;
    OnePiece(Plain('\n'));
    assert ['"'] + PieceText(Plain('\n')) + ['"'] == "\"\n\"";
    PlusTwelveF();
    OnePiece(Hex("+12F"));
    assert ['"'] + PieceText(Hex("+12F")) + ['"'] == "\"\\u+12F\"";
  }

  lemma {:induction false} PlusTwelveF()
    ensures HexChar("+12F") == Some(0x12F as char)
  {
    assert "+12F"[1..] == "12F" && "12F"[..2] == "12" && "12"[..1] == "1";
    assert HexValue("1") == Some(1);
    assert HexValue("12") == Some(18);
  }

  /** U+1F600 escaped as a pair of surrogates, section 7: two characters are read, and neither is the one meant. */
  lemma {:induction false} PairIsLost()
    ensures var pair := [Hex("d83d"), Hex("de00")];
            && AllRfc(pair) && Meaning(pair) == Some([0x1F600 as char])
            && Parse(StringText(pair)) == Some(Str([0xFFFD as char, 0xFFFD as char]))
  {
    hide Parse, StringText;
    var pair := [Hex("d83d"), Hex("de00")];
    HighHalf();
    LowHalf();
    RfcIsReadable(pair);
    SurrogateRead(pair[0]);
    SurrogateRead(pair[1]);
    StringParsed(pair);
    assert pair[2..] == [] && pair[1..] == [pair[1]] && pair[1..][1..] == [];
    PairMeans(pair);
    PairValue(pair);
  }

  lemma {:induction false} PairMeans(pair: seq<Piece>)
    requires |pair| == 2 && AllRfc(pair) && Surrogate(pair[0]) && Surrogate(pair[1])
    requires Unit(pair[0]) == 0xD83D && Unit(pair[1]) == 0xDE00
    ensures Meaning(pair) == Some([0x1F600 as char])
  {
    hide RfcPiece, Surrogate, Unit;
    assert pair[2..] == [];
    assert AllRfc(pair[2..]) && Meaning(pair[2..]) == Some("");
    assert [0x1F600 as char] + "" == [0x1F600 as char];
  }

  lemma {:induction false} PairValue(pair: seq<Piece>)
    requires |pair| == 2 && AllReadable(pair)
    ensures PiecesValue(pair) == [PieceChar(pair[0]), PieceChar(pair[1])]
  {
    hide Readable, PieceChar;
    assert pair[1..] == [pair[1]] && pair[1..][1..] == [];
  }

  lemma {:induction false} HighHalf()
    ensures RfcPiece(Hex("d83d")) && Unit(Hex("d83d")) == 0xD83D
  {
    assert "d83d"[..3] == "d83" && "d83"[..2] == "d8" && "d8"[..1] == "d" && "d"[..0] == "";
    assert HexValue("d") == Some(13);
    assert HexValue("d8") == Some(0xD8);
    assert HexValue("d83") == Some(0xD83);
  }

  lemma {:induction false} LowHalf()
    ensures RfcPiece(Hex("de00")) && Unit(Hex("de00")) == 0xDE00
  {
    assert "de00"[..3] == "de0" && "de0"[..2] == "de" && "de"[..1] == "d" && "d"[..0] == "";
    assert HexValue("d") == Some(13);
    assert HexValue("de") == Some(0xDE);
    assert HexValue("de0") == Some(0xDE0);
  }

  /** `ws`, section 2. */
  predicate RfcSpace(c: char) {
    c as int == 0x20 || c as int == 0x09 || c as int == 0x0A || c as int == 0x0D
  }

  /** White space before a value is skipped: that of the standard, and other kinds as well. */
  lemma {:induction false} SpaceSkipped(c: char, text: string)
    requires IsWhitespace(c)
    ensures Parse([c] + text) == Parse(text)
  {
    hide ParseObject, ParseArray, ParseString, ParseNumber, ParseWord, IsWhitespace;
    assert ([c] + text)[1..] == text;
  }

  /** A no-break space is skipped, and is no white space of the standard. */
  lemma {:induction false} StraySpace()
    ensures Parse([0xA0 as char, '1']) == Some(Num(1)) && !RfcSpace(0xA0 as char)
    ensures forall c :: RfcSpace(c) ==> IsWhitespace(c)
  {
    hide Parse, NumberOf, CutOf;
    var n := Number("", "1", None, None);
    assert NumberText(n) == "1";
    assert "" + "1" == "1" && "1" + "" == "1" && DigitsValue("1") == 1 && Denotes(n) == 1.0;
    SpaceSkipped(0xA0 as char, "1");
    assert [0xA0 as char] + "1" == [0xA0 as char, '1'];
    NumberParsed(n);
    NumberValue(n, 1);
  }
}
