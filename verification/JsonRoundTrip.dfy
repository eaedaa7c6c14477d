/** The reader and the printer undo each other, for every integral value. */
module JsonRoundTrip {
  import opened Bytes
  import opened Chars
  import opened Json
  import opened JsonParse
  import K = Keyed
  import opened Wrappers

  // ---- numbers ------------------------------------------------------------

  lemma {:induction false} DecimalDigits(n: nat)
    ensures AllDigits(Decimal(n))
    ensures DigitsValue(Decimal(n)) == n
  {
    if n < 10 {
      assert Decimal(n)[..0] == [];
      assert DigitsValue([]) == 0;
    } else {
      DecimalDigits(n / 10);
      var s := Decimal(n);
      assert s[..|s| - 1] == Decimal(n / 10);
    }
  }

  lemma {:induction false} DigitSpanOf(s: string)
    requires AllDigits(s)
    ensures DigitSpan(s) == |s|
  {
    if s != "" {
      DigitSpanOf(s[1..]);
    }
  }

  lemma {:induction false} UnsignedDigits(text: string, negative: bool, s: string)
    requires AllDigits(s) && s != ""
    ensures Unsigned(text, negative, s) ==
            Some(if DigitsValue(s) < LIMIT then Num(Signed(negative, DigitsValue(s))) else Float(text, true))
  {
    DigitSpanOf(s);
    assert s[|s|..] == "";
    assert s[..|s|] + "" == s;
    assert Power(10, 0) == 1;
  }

  lemma {:induction false} IntegerText(n: int)
    requires -LIMIT < n < LIMIT
    ensures NumberOf(Integer(n)) == Some(Num(n))
    ensures Integer(n) != "" && (IsDigit(Integer(n)[0]) || Integer(n)[0] == '-')
    ensures forall i :: 0 <= i < |Integer(n)| ==> IsNumberChar(Integer(n)[i])
  {
    hide Unsigned, Decimal;
    var s := Integer(n);
    if n < 0 {
      DecimalDigits(-n);
      UnsignedDigits(s, true, Decimal(-n));
      assert s[1..] == Decimal(-n);
    } else {
      DecimalDigits(n);
      UnsignedDigits(s, false, Decimal(n));
      assert IsDigit(s[0]);
    }
  }

  lemma {:induction false} NumberSpanOf(s: string, rest: string)
    requires forall i :: 0 <= i < |s| ==> IsNumberChar(s[i])
    requires rest == "" || !IsNumberChar(rest[0])
    ensures NumberSpan(s + rest) == |s|
  {
    if s == "" {
      assert s + rest == rest;
    } else {
      assert (s + rest)[1..] == s[1..] + rest;
      NumberSpanOf(s[1..], rest);
    }
  }

  lemma {:induction false} IntegerBack(n: int, rest: string)
    requires -LIMIT < n < LIMIT && Ends(rest)
    ensures ParseNumber(Integer(n) + rest) == Got(Num(n), rest)
  {
    hide Integer, NumberOf, NumberSpan;
    IntegerText(n);
    var s := Integer(n);
    NumberSpanOf(s, rest);
    assert (s + rest)[..|s|] == s && (s + rest)[|s|..] == rest;
  }

  lemma {:induction false} LargeBack(v: Json, rest: string)
    requires v.Float? && Integral(v) && Ends(rest)
    ensures ParseNumber(Write(v) + rest) == Got(v, rest)
    ensures Write(v) != "" && IsDigit(Write(v)[0])
  {
    hide Unsigned, NumberSpan, DigitsValue;
    var s := v.text;
    UnsignedDigits(s, false, s);
    assert IsDigit(s[0]);
    NumberSpanOf(s, rest);
    assert (s + rest)[..|s|] == s && (s + rest)[|s|..] == rest;
  }

  // ---- strings ------------------------------------------------------------

  lemma {:induction false} HexPair(c: char)
    requires c as int < 0x20
    ensures HexChar(['0', '0', HEX[c as int / 16], HEX[c as int % 16]]) == Some(c)
  {
    hide HexDigit;
    var u := c as int;
    var hi, lo := HEX[u / 16], HEX[u % 16];
    var hex := ['0', '0', hi, lo];
    HexDigitOf(u / 16);
    HexDigitOf(u % 16);
    HexDigitOf(0);
    assert HEX[0] == '0';
    assert HexValue([]) == Some(0);
    assert hex[..3][..2][..1][..0] == [];
    assert hex[..3][..2][..1] == ['0'] && hex[..3][..2] == ['0', '0'] && hex[..3] == ['0', '0', hi];
    assert ['0'][..0] == [] && ['0', '0'][..1] == ['0'] && ['0', '0', hi][..2] == ['0', '0'];
    assert HexValue(['0']) == Some(0);
    assert HexValue(['0', '0']) == Some(0);
    assert HexValue(['0', '0', hi]) == Some(u / 16);
    assert HexValue(hex) == Some(u);
  }

  lemma {:induction false} ControlBack(c: char, rest: string)
    requires c as int < 0x20
    ensures ParseChars(ControlEscape(c) + rest) == Prepend(c, ParseChars(rest))
  {
    hide HexChar;
    var hex := ['0', '0', HEX[c as int / 16], HEX[c as int % 16]];
    var s := ['\\', 'u'] + hex + rest;
    assert ControlEscape(c) == ['\\', 'u'] + hex;
    HexPair(c);
    assert s[1..] == ['u'] + hex + rest;
    assert s[1..][1..5] == hex && s[1..][5..] == rest;
  }

  lemma {:induction false} EscapeBack(c: char, rest: string)
    ensures ParseChars(EscapeChar(c) + rest) == Prepend(c, ParseChars(rest))
  {
    hide HexChar;
    var s := EscapeChar(c) + rest;
    if c as int < 0x20 && c != '\n' && c != '\r' && c != '\t' {
      ControlBack(c, rest);
    } else if c == '"' || c == '\\' || c == '\n' || c == '\r' || c == '\t' {
      assert s == [s[0], s[1]] + rest;
      assert s[1..][1..] == rest;
    } else {
      assert s == [c] + rest;
      assert s[1..] == rest;
    }
  }

  lemma {:induction false} CharsBack(s: string, rest: string)
    ensures ParseChars(Escaped(s) + ['"'] + rest) == Got(s, rest)
  {
    hide EscapeChar;
    if s == "" {
      assert Escaped(s) + ['"'] + rest == ['"'] + rest;
      assert (['"'] + rest)[1..] == rest;
    } else {
      var more := Escaped(s[1..]) + ['"'] + rest;
      assert Escaped(s) + ['"'] + rest == EscapeChar(s[0]) + more;
      EscapeBack(s[0], more);
      CharsBack(s[1..], rest);
      assert s == [s[0]] + s[1..];
    }
  }

  /** Every string comes back, whatever its characters. */
  lemma {:induction false} StringBack(s: string, rest: string)
    ensures ParseString(Quoted(s) + rest) == Got(s, rest)
  {
    hide ParseChars, Escaped;
    CharsBack(s, rest);
    assert (Quoted(s) + rest)[1..] == Escaped(s) + ['"'] + rest;
  }

  // ---- values -------------------------------------------------------------

  /** Nothing that would lengthen a number follows. */
  predicate Ends(rest: string) {
    rest == "" || !IsNumberChar(rest[0])
  }

  lemma {:induction false} TrimmedFront(s: string)
    requires s != "" && !IsWhitespace(s[0])
    ensures Trimmed(s) == s
  {
  }

  /** The first character printed says which kind of value follows. */
  lemma {:induction false} FirstChar(v: Json)
    requires Integral(v)
    ensures Write(v) != ""
    ensures !IsWhitespace(Write(v)[0]) && Write(v)[0] != ']' && Write(v)[0] != '}'
    ensures v.Num? || v.Float? ==> Write(v)[0] !in ['{', '[', '"', 't', 'f', 'n']
  {
    hide Quoted, Integer, WriteItems, WriteFields;
    match v
    case Num(n) => IntegerText(n);
    case Float(_, _) => LargeBack(v, "");
    case Str(s) => assert Quoted(s)[0] == '"' by { QuotedFirst(s); }
    case _ =>
  }

  lemma {:induction false} QuotedFirst(s: string)
    ensures Quoted(s) != "" && Quoted(s)[0] == '"'
  {
  }

  lemma {:induction false} WordBack(word: string, value: Json, rest: string)
    ensures ParseWord(word + rest, word, value) == Got(value, rest)
  {
    assert (word + rest)[..|word|] == word && (word + rest)[|word|..] == rest;
  }

  /** Reading what was printed gives the value back and leaves the rest. */
  lemma {:induction false} ValueBack(v: Json, rest: string)
    requires Integral(v) && Ends(rest)
    ensures ParseValue(Write(v) + rest) == Got(v, rest)
    decreases v, 1
  {
    hide Write, ParseNumber, ParseString, ParseArray, ParseObject, ParseWord, Trimmed, Integral;
    FirstChar(v);
    var s := Write(v) + rest;
    TrimmedFront(s);
    assert s[0] == Write(v)[0];
    match v
    case Null => WriteNull(); WordBack("null", v, rest);
    case Bool(b) =>
      WriteBool(b);
      if b {
        WordBack("true", v, rest);
      } else {
        WordBack("false", v, rest);
      }
    case Num(n) => NumBack(v, rest);
    case Str(text) =>
      WriteStr(text);
      QuotedFirst(text);
      StringBack(text, rest);
    case Arr(items) => ArrBack(v, rest);
    case Obj(fields) => ObjBack(v, rest);
    case Float(_, _) => LargeBack(v, rest);
  }

  lemma {:induction false} WriteNull()
    ensures Write(Null) == "null"
  {
  }

  lemma {:induction false} WriteBool(b: bool)
    ensures Write(Bool(b)) == if b then "true" else "false"
  {
  }

  lemma {:induction false} WriteStr(s: string)
    ensures Write(Str(s)) == Quoted(s)
  {
  }

  lemma {:induction false} NumBack(v: Json, rest: string)
    requires v.Num? && Integral(v) && Ends(rest)
    ensures ParseNumber(Write(v) + rest) == Got(v, rest)
  {
    hide ParseNumber, Integer, Ends;
    IntegerBack(v.n, rest);
  }

  lemma {:induction false} ArrBack(v: Json, rest: string)
    requires v.Arr? && Integral(v)
    ensures Write(v) != "" && Write(v)[0] == '['
    ensures ParseArray(Write(v) + rest) == Got(v, rest)
    decreases v, 0
  {
    hide ParseItems, WriteItems, Trimmed, Integral;
    var inner := WriteItems(v.items) + "]" + rest;
    assert (Write(v) + rest)[1..] == inner;
    IntegralItems(v);
    if v.items == [] {
      WriteNothing();
      assert inner == "]" + rest && inner[1..] == rest;
    } else {
      ItemsBack(v.items, rest);
      ItemsFirst(v.items);
      assert inner[0] == WriteItems(v.items)[0];
    }
    TrimmedFront(inner);
  }

  lemma {:induction false} IntegralItems(v: Json)
    requires v.Arr? && Integral(v)
    ensures forall i :: 0 <= i < |v.items| ==> Integral(v.items[i])
  {
  }

  lemma {:induction false} IntegralFields(v: Json)
    requires v.Obj? && Integral(v)
    ensures forall i :: 0 <= i < |v.fields| ==> Integral(v.fields[i].1)
  {
  }

  lemma {:induction false} ItemsFirst(items: seq<Json>)
    requires items != [] && Integral(items[0])
    ensures WriteItems(items) != "" && !IsWhitespace(WriteItems(items)[0]) && WriteItems(items)[0] != ']'
  {
    hide Write;
    FirstChar(items[0]);
  }

  lemma {:induction false} ItemsBack(items: seq<Json>, rest: string)
    requires items != [] && forall i :: 0 <= i < |items| ==> Integral(items[i])
    ensures ParseItems(WriteItems(items) + "]" + rest) == Got(items, rest)
    decreases items
  {
    hide Write, ParseItems, ParseValue, Trimmed, Integral, WriteItems;
    var s := WriteItems(items) + "]" + rest;
    ItemsUnfold(s);
    if |items| == 1 {
      WriteItemsOne(items[0]);
      assert items == [items[0]];
      assert s == Write(items[0]) + ("]" + rest);
      ValueBack(items[0], "]" + rest);
      TrimmedFront("]" + rest);
      assert ("]" + rest)[1..] == rest;
    } else {
      var more := WriteItems(items[1..]) + "]" + rest;
      WriteItemsMore(items);
      assert s == Write(items[0]) + ("," + more);
      ValueBack(items[0], "," + more);
      TrimmedFront("," + more);
      assert ("," + more)[1..] == more;
      ItemsBack(items[1..], rest);
      assert items == [items[0]] + items[1..];
    }
  }

  lemma {:induction false} WriteItemsOne(item: Json)
    ensures WriteItems([item]) == Write(item)
  {
  }

  lemma {:induction false} WriteItemsMore(items: seq<Json>)
    requires |items| > 1
    ensures WriteItems(items) == Write(items[0]) + "," + WriteItems(items[1..])
  {
  }

  lemma {:induction false} WriteFieldsOne(field: (string, Json))
    ensures WriteFields([field]) == WriteField(field)
  {
  }

  lemma {:induction false} WriteFieldsMore(fields: seq<(string, Json)>)
    requires |fields| > 1
    ensures WriteFields(fields) == WriteField(fields[0]) + "," + WriteFields(fields[1..])
  {
  }

  lemma {:induction false} ObjBack(v: Json, rest: string)
    requires v.Obj? && Integral(v)
    ensures Write(v) != "" && Write(v)[0] == '{'
    ensures ParseObject(Write(v) + rest) == Got(v, rest)
    decreases v, 0
  {
    hide ParseFields, WriteFields, Trimmed, Integral;
    var inner := WriteFields(v.fields) + "}" + rest;
    assert (Write(v) + rest)[1..] == inner;
    IntegralFields(v);
    if v.fields == [] {
      WriteNothing();
      assert inner == "}" + rest && inner[1..] == rest;
    } else {
      FieldsBack(v.fields, rest);
      FieldsFirst(v.fields);
      assert inner[0] == WriteFields(v.fields)[0];
    }
    TrimmedFront(inner);
  }

  lemma {:induction false} FieldsFirst(fields: seq<(string, Json)>)
    requires fields != []
    ensures WriteFields(fields) != "" && !IsWhitespace(WriteFields(fields)[0]) && WriteFields(fields)[0] != '}'
  {
    hide Write, Quoted;
    QuotedFirst(fields[0].0);
    var s := WriteField(fields[0]);
    assert s[0] == '"';
    assert |fields| > 1 ==> WriteFields(fields) == s + ("," + WriteFields(fields[1..]));
  }

  lemma {:induction false} FieldBack(field: (string, Json), rest: string)
    requires Integral(field.1) && Ends(rest)
    ensures ParseField(WriteField(field) + rest) == Got(field, rest)
    decreases field
  {
    hide Write, Quoted, ParseString, ParseValue, Trimmed, Integral;
    var after := ":" + (Write(field.1) + rest);
    QuotedFirst(field.0);
    assert WriteField(field) + rest == Quoted(field.0) + after;
    TrimmedFront(Quoted(field.0) + after);
    StringBack(field.0, after);
    TrimmedFront(after);
    assert after[1..] == Write(field.1) + rest;
    ValueBack(field.1, rest);
  }

  lemma {:induction false} FieldsBack(fields: seq<(string, Json)>, rest: string)
    requires fields != [] && forall i :: 0 <= i < |fields| ==> Integral(fields[i].1)
    ensures ParseFields(WriteFields(fields) + "}" + rest) == Got(fields, rest)
    decreases fields
  {
    hide WriteField, ParseFields, ParseField, Trimmed, Integral, WriteFields;
    var s := WriteFields(fields) + "}" + rest;
    FieldsUnfold(s);
    if |fields| == 1 {
      WriteFieldsOne(fields[0]);
      assert fields == [fields[0]];
      assert s == WriteField(fields[0]) + ("}" + rest);
      FieldBack(fields[0], "}" + rest);
      TrimmedFront("}" + rest);
      assert ("}" + rest)[1..] == rest;
    } else {
      var more := WriteFields(fields[1..]) + "}" + rest;
      WriteFieldsMore(fields);
      assert s == WriteField(fields[0]) + ("," + more);
      FieldBack(fields[0], "," + more);
      TrimmedFront("," + more);
      assert ("," + more)[1..] == more;
      FieldsBack(fields[1..], rest);
      assert fields == [fields[0]] + fields[1..];
    }
  }

  // ---- the theorems -------------------------------------------------------

  /** `parse(v.to_json_string())` is `v`. */
  lemma {:induction false} ParseWrite(v: Json)
    requires Integral(v)
    ensures Parse(Write(v)) == Some(v)
  {
    hide Write, ParseValue, Integral;
    ValueBack(v, "");
    assert Write(v) + "" == Write(v);
  }

  /** `parse(v.to_canonical_string())` is the normal form of `v`. */
  lemma {:induction false} ParseCanonical(v: Json)
    requires Integral(v)
    ensures Parse(Write(Normalized(v))) == Some(Normalized(v))
  {
    hide *;
    NormalizedIntegral(v);
    ParseWrite(Normalized(v));
  }

  /** Printing again what was read prints the same: a stored object keeps its digest. */
  lemma {:induction false} CanonicalStable(v: Json)
    requires Integral(v)
    ensures Parse(Write(Normalized(v))).Some?
    ensures Write(Normalized(Parse(Write(Normalized(v))).value)) == Write(Normalized(v))
  {
    hide *;
    ParseCanonical(v);
    NormalizedIdempotent(v);
  }

  /** The canonical text names the normal form. */
  lemma {:induction false} CanonicalInjective(a: Json, b: Json)
    requires Integral(a) && Integral(b)
    ensures Write(Normalized(a)) == Write(Normalized(b)) <==> Normalized(a) == Normalized(b)
  {
    hide *;
    ParseCanonical(a);
    ParseCanonical(b);
  }

  /** The order in which an object's keys were inserted, and entries `get` cannot see, leave no trace. */
  lemma {:induction false} CanonicalIgnoresOrder(a: seq<(string, Json)>, b: seq<(string, Json)>)
    requires forall key :: K.Find(a, key) == K.Find(b, key)
    ensures Write(Normalized(Obj(a))) == Write(Normalized(Obj(b)))
  {
    hide K.Canonical, NormalizedFields, Write;
    NormalizedCommutes(a);
    NormalizedCommutes(b);
    K.CanonicalOfLookups(a, b);
  }
}
