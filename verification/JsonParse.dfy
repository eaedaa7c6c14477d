/**
 The JSON reader (src/json.rs).

 The functions read from the front of a text and return what is left; the methods are
 the program's, advancing a position through one array of characters.  Deviations from
 RFC 8259 that the program has are kept: any Unicode white space separates tokens, a
 `\u` escape may start with `+`, a lone surrogate reads as U+FFFD, and a number may be
 anything `f64` parses.
 */
module JsonParse {
  import opened Bytes
  import opened Chars
  import opened Json
  import opened Wrappers

  datatype Parsed<T> = Got(value: T, rest: string) | Fail

  predicate StartsWith(s: string, c: char) {
    s != "" && s[0] == c
  }

  // ---- numbers ------------------------------------------------------------

  predicate IsNumberChar(c: char) {
    IsDigit(c) || c == '.' || c == 'e' || c == 'E' || c == '+' || c == '-'
  }

  /** How long the run of number characters is. */
  function NumberSpan(s: string): (n: nat)
    ensures n <= |s|
  {
    if s != "" && IsNumberChar(s[0]) then 1 + NumberSpan(s[1..]) else 0
  }

  function DigitSpan(s: string): (n: nat)
    ensures n <= |s|
    ensures forall i :: 0 <= i < n ==> IsDigit(s[i])
  {
    if s != "" && IsDigit(s[0]) then 1 + DigitSpan(s[1..]) else 0
  }

  function Signed(negative: bool, n: nat): int {
    if negative then -(n as int) else n
  }

  /** The exponent after the mantissa: none, or `e`, an optional sign and digits to the end. */
  function Exponent(s: string): Option<int> {
    if s == "" then Some(0)
    else if s[0] != 'e' && s[0] != 'E' then None
    else
      var negative := StartsWith(s[1..], '-');
      var digits := if negative || StartsWith(s[1..], '+') then s[2..] else s[1..];
      if digits == "" || DigitSpan(digits) != |digits| then None
      else
        Some(Signed(negative, DigitsValue(digits)))
  }

  /** `m * 10^e` when that is an integer. */
  function Scaled(m: nat, e: int): Option<nat> {
    if e >= 0 then Some(m * Power(10, e))
    else if Power(10, -e) != 0 && m % Power(10, -e) == 0 then Some(m / Power(10, -e)) else None
  }

  /** The decimal number after the sign, in the grammar of `f64::from_str`. */
  function Unsigned(text: string, negative: bool, body: string): Option<Json> {
    var whole := DigitSpan(body);
    var point := StartsWith(body[whole..], '.');
    var fraction := if point then DigitSpan(body[whole + 1..]) else 0;
    var tail := if point then body[whole + 1 + fraction..] else body[whole..];
    if whole + fraction == 0 || Exponent(tail).None? then None
    else
      var mantissa := DigitsValue(body[..whole] + if point then body[whole + 1..whole + 1 + fraction] else "");
      match Scaled(mantissa, Exponent(tail).value - fraction)
      case Some(n) =>
        Some(if n < LIMIT then Num(Signed(negative, n)) else Float(text, true))
      case None => Some(Float(text, true))
  }

  function NumberOf(text: string): Option<Json> {
    if StartsWith(text, '-') then Unsigned(text, true, text[1..])
    else if StartsWith(text, '+') then Unsigned(text, false, text[1..])
    else Unsigned(text, false, text)
  }

  function ParseNumber(s: string): (r: Parsed<Json>)
    ensures r.Got? ==> |r.rest| < |s|
  {
    var n := NumberSpan(s);
    if n == 0 then Fail
    else
      match NumberOf(s[..n])
      case Some(v) => Got(v, s[n..])
      case None => Fail
  }

  // ---- strings ------------------------------------------------------------

  /** `u32::from_str_radix(hex, 16)` then `char::from_u32`, a surrogate becoming U+FFFD. */
  function HexChar(hex: string): Option<char>
    requires |hex| == 4
  {
    var digits := if hex[0] == '+' then hex[1..] else hex;
    match HexValue(digits)
    case Some(n) => Some(if n < 0xD800 || 0xE000 <= n < 0x10000 then n as char else 0xFFFD as char)
    case None => None
  }

  function HexValue(digits: string): (r: Option<nat>)
  {
    if digits == "" then Some(0)
    else
      match (HexValue(digits[..|digits| - 1]), HexDigit(digits[|digits| - 1]))
      case (Some(n), Some(d)) => Some(16 * n + d)
      case _ => None
  }

  function SimpleEscape(c: char): Option<char> {
    if c == '"' || c == '\\' || c == '/' then Some(c)
    else if c == 'b' then Some(8 as char)
    else if c == 'f' then Some(12 as char)
    else if c == 'n' then Some('\n')
    else if c == 'r' then Some('\r')
    else if c == 't' then Some('\t')
    else None
  }

  /** What follows a backslash. */
  function ParseEscape(s: string): (r: Parsed<char>)
    ensures r.Got? ==> |r.rest| < |s|
  {
    if s == "" then Fail
    else if s[0] == 'u' then
      if |s| < 5 then Fail
      else
        match HexChar(s[1..5])
        case Some(c) => Got(c, s[5..])
        case None => Fail
    else
      match SimpleEscape(s[0])
      case Some(c) => Got(c, s[1..])
      case None => Fail
  }

  function Prepend(c: char, p: Parsed<string>): Parsed<string> {
    match p
    case Got(value, rest) => Got([c] + value, rest)
    case Fail => Fail
  }

  /** The characters up to the closing quote. */
  function ParseChars(s: string): (r: Parsed<string>)
    ensures r.Got? ==> |r.rest| < |s|
    decreases |s|
  {
    if s == "" then Fail
    else if s[0] == '"' then Got("", s[1..])
    else if s[0] == '\\' then
      match ParseEscape(s[1..])
      case Got(c, rest) => Prepend(c, ParseChars(rest))
      case Fail => Fail
    else Prepend(s[0], ParseChars(s[1..]))
  }

  function ParseString(s: string): (r: Parsed<string>)
    ensures r.Got? ==> |r.rest| < |s|
  {
    if StartsWith(s, '"') then ParseChars(s[1..]) else Fail
  }

  // ---- values -------------------------------------------------------------

  function ParseWord(s: string, word: string, value: Json): (r: Parsed<Json>)
    ensures r.Got? && word != "" ==> |r.rest| < |s|
  {
    if |word| <= |s| && s[..|word|] == word then Got(value, s[|word|..]) else Fail
  }

  function ParseValue(text: string): (r: Parsed<Json>)
    ensures r.Got? ==> |r.rest| < |text|
    decreases |text|, 2
  {
    var s := Trimmed(text);
    if s == "" then Fail
    else if s[0] == '{' then ParseObject(s)
    else if s[0] == '[' then ParseArray(s)
    else if s[0] == '"' then
      match ParseString(s)
      case Got(value, rest) => Got(Str(value), rest)
      case Fail => Fail
    else if s[0] == 't' then ParseWord(s, "true", Bool(true))
    else if s[0] == 'f' then ParseWord(s, "false", Bool(false))
    else if s[0] == 'n' then ParseWord(s, "null", Null)
    else ParseNumber(s)
  }

  function ParseArray(s: string): (r: Parsed<Json>)
    requires s != ""
    ensures r.Got? ==> |r.rest| < |s|
    decreases |s|, 1
  {
    if StartsWith(Trimmed(s[1..]), ']') then Got(Arr([]), Trimmed(s[1..])[1..])
    else
      match ParseItems(Trimmed(s[1..]))
      case Got(items, rest) => Got(Arr(items), rest)
      case Fail => Fail
  }

  /** Values separated by commas, up to the bracket. */
  function ParseItems(s: string): (r: Parsed<seq<Json>>)
    ensures r.Got? ==> |r.rest| < |s|
    decreases |s|, 3
  {
    match ParseValue(s)
    case Fail => Fail
    case Got(item, after) =>
      var t := Trimmed(after);
      if StartsWith(t, ']') then Got([item], t[1..])
      else if StartsWith(t, ',') then
        match ParseItems(t[1..])
        case Got(more, rest) => Got([item] + more, rest)
        case Fail => Fail
      else Fail
  }

  function ParseObject(s: string): (r: Parsed<Json>)
    requires s != ""
    ensures r.Got? ==> |r.rest| < |s|
    decreases |s|, 1
  {
    if StartsWith(Trimmed(s[1..]), '}') then Got(Obj([]), Trimmed(s[1..])[1..])
    else
      match ParseFields(Trimmed(s[1..]))
      case Got(fields, rest) => Got(Obj(fields), rest)
      case Fail => Fail
  }

  function ParseField(s: string): (r: Parsed<(string, Json)>)
    ensures r.Got? ==> |r.rest| < |s|
    decreases |s|, 3
  {
    match ParseString(Trimmed(s))
    case Fail => Fail
    case Got(key, after) =>
      var t := Trimmed(after);
      if !StartsWith(t, ':') then Fail
      else
        match ParseValue(t[1..])
        case Got(value, rest) => Got((key, value), rest)
        case Fail => Fail
  }

  /** Fields separated by commas, up to the brace. */
  function ParseFields(s: string): (r: Parsed<seq<(string, Json)>>)
    ensures r.Got? ==> |r.rest| < |s|
    decreases |s|, 4
  {
    match ParseField(s)
    case Fail => Fail
    case Got(field, after) =>
      var t := Trimmed(after);
      if StartsWith(t, '}') then Got([field], t[1..])
      else if StartsWith(t, ',') then
        match ParseFields(t[1..])
        case Got(more, rest) => Got([field] + more, rest)
        case Fail => Fail
      else Fail
  }

  /** `parse`: one value and nothing after it but white space. */
  function Parse(input: string): Option<Json> {
    match ParseValue(input)
    case Got(v, rest) => if Trimmed(rest) == "" then Some(v) else None
    case Fail => None
  }

  // ---- the program --------------------------------------------------------

  /** What a method at `pos` found, and where it stopped, against what the function left. */
  ghost predicate Reads<T>(chars: string, found: Option<T>, pos: nat, p: Parsed<T>) {
    match p
    case Got(value, rest) => found == Some(value) && pos <= |chars| && chars[pos..] == rest
    case Fail => found.None?
  }

  method SkipWs(chars: string, start: nat) returns (pos: nat)
    requires start <= |chars|
    ensures start <= pos <= |chars| && chars[pos..] == Trimmed(chars[start..])
  {
    pos := start;
    while pos < |chars| && IsWhitespace(chars[pos])
      invariant start <= pos <= |chars| && Trimmed(chars[pos..]) == Trimmed(chars[start..])
    {
      assert chars[pos..][1..] == chars[pos + 1..];
      pos := pos + 1;
    }
  }

  predicate At(chars: string, pos: nat, c: char) {
    pos < |chars| && chars[pos] == c
  }

  method Expect(chars: string, start: nat, word: string, value: Json) returns (found: Option<Json>, pos: nat)
    requires start <= |chars| && word != ""
    ensures Reads(chars, found, pos, ParseWord(chars[start..], word, value))
  {
    pos := start;
    for k := 0 to |word|
      invariant pos == start + k <= |chars| && chars[start..pos] == word[..k]
    {
      if !At(chars, pos, word[k]) {
        if start + |word| <= |chars| {
          assert chars[start..][..|word|][k] == chars[pos];
        }
        return None, pos;
      }
      pos := pos + 1;
    }
    assert chars[start..][..|word|] == chars[start..pos];
    found := Some(value);
  }

  method NumberAt(chars: string, start: nat) returns (found: Option<Json>, pos: nat)
    requires start <= |chars|
    ensures Reads(chars, found, pos, ParseNumber(chars[start..]))
  {
    hide NumberOf;
    pos := start;
    if At(chars, pos, '-') {
      assert chars[start..][1..] == chars[start + 1..];
      pos := pos + 1;
    }
    while pos < |chars| && IsNumberChar(chars[pos])
      invariant start <= pos <= |chars|
      invariant pos - start + NumberSpan(chars[pos..]) == NumberSpan(chars[start..])
    {
      assert chars[pos..][1..] == chars[pos + 1..];
      pos := pos + 1;
    }
    assert chars[start..][..pos - start] == chars[start..pos];
    found := if pos == start then None else NumberOf(chars[start..pos]);
  }

  method EscapeAt(chars: string, start: nat) returns (found: Option<char>, pos: nat)
    requires start <= |chars|
    ensures Reads(chars, found, pos, ParseEscape(chars[start..]))
    ensures found.Some? ==> start < pos
  {
    hide HexChar, SimpleEscape;
    pos := start;
    if pos == |chars| {
      return None, pos;
    }
    if chars[pos] == 'u' {
      if pos + 5 > |chars| {
        return None, pos;
      }
      assert chars[start..][1..5] == chars[pos + 1..pos + 5];
      found := HexChar(chars[pos + 1..pos + 5]);
      pos := pos + 5;
    } else {
      found := SimpleEscape(chars[pos]);
      pos := pos + 1;
    }
  }

  function PrependAll(out: string, p: Parsed<string>): Parsed<string> {
    match p
    case Got(value, rest) => Got(out + value, rest)
    case Fail => Fail
  }

  lemma {:induction false} PrependMore(out: string, c: char, p: Parsed<string>)
    ensures PrependAll(out, Prepend(c, p)) == PrependAll(out + [c], p)
  {
    if p.Got? {
      assert out + ([c] + p.value) == (out + [c]) + p.value;
    }
  }

  method StringAt(chars: string, start: nat) returns (found: Option<string>, pos: nat)
    requires start <= |chars|
    ensures Reads(chars, found, pos, ParseString(chars[start..]))
    ensures found.Some? ==> start < pos
  {
    hide ParseEscape, Prepend, ParseChars;
    pos := start;
    if !At(chars, pos, '"') {
      return None, pos;
    }
    pos := pos + 1;
    var out := "";
    ghost var all := ParseChars(chars[pos..]);
    assert chars[start..][1..] == chars[pos..];
    if all.Got? {
      assert "" + all.value == all.value;
    }
    while pos < |chars|
      invariant start < pos <= |chars| && PrependAll(out, ParseChars(chars[pos..])) == all
    {
      var c := chars[pos];
      assert chars[pos..][0] == c && chars[pos..][1..] == chars[pos + 1..];
      CharsUnfold(chars[pos..]);
      pos := pos + 1;
      if c == '"' {
        assert out + "" == out;
        return Some(out), pos;
      } else if c == '\\' {
        var escape, after := EscapeAt(chars, pos);
        if escape.None? {
          return None, pos;
        }
        PrependMore(out, escape.value, ParseChars(chars[after..]));
        pos := after;
        out := out + [escape.value];
      } else {
        PrependMore(out, c, ParseChars(chars[pos..]));
        out := out + [c];
      }
    }
    assert chars[pos..] == "";
    CharsUnfold("");
    found := None;
  }

  lemma {:induction false} CharsUnfold(s: string)
    ensures s == "" ==> ParseChars(s) == Fail
    ensures s != "" && s[0] == '"' ==> ParseChars(s) == Got("", s[1..])
    ensures s != "" && s[0] == '\\' && ParseEscape(s[1..]) == Fail ==> ParseChars(s) == Fail
    ensures s != "" && s[0] == '\\' && ParseEscape(s[1..]).Got? ==>
              ParseChars(s) == Prepend(ParseEscape(s[1..]).value, ParseChars(ParseEscape(s[1..]).rest))
    ensures s != "" && s[0] != '"' && s[0] != '\\' ==> ParseChars(s) == Prepend(s[0], ParseChars(s[1..]))
  {
    hide ParseEscape, Prepend;
  }

  /** `parse_value` and its helpers, moving one position through the text. */
  method ValueAt(chars: string, start: nat) returns (found: Option<Json>, pos: nat)
    requires start <= |chars|
    ensures Reads(chars, found, pos, ParseValue(chars[start..]))
    ensures found.Some? ==> start < pos
    decreases |chars| - start, 2
  {
    hide ParseObject, ParseArray, ParseString, ParseWord, ParseNumber;
    pos := SkipWs(chars, start);
    if pos == |chars| {
      return None, pos;
    }
    var c := chars[pos];
    if c == '{' {
      found, pos := ObjectAt(chars, pos);
    } else if c == '[' {
      found, pos := ArrayAt(chars, pos);
    } else if c == '"' {
      var s;
      s, pos := StringAt(chars, pos);
      found := if s.Some? then Some(Str(s.value)) else None;
    } else if c == 't' {
      found, pos := Expect(chars, pos, "true", Bool(true));
    } else if c == 'f' {
      found, pos := Expect(chars, pos, "false", Bool(false));
    } else if c == 'n' {
      found, pos := Expect(chars, pos, "null", Null);
    } else {
      found, pos := NumberAt(chars, pos);
    }
  }

  function PrependItems<T>(done: seq<T>, p: Parsed<seq<T>>): Parsed<seq<T>> {
    match p
    case Got(more, rest) => Got(done + more, rest)
    case Fail => Fail
  }

  method ArrayAt(chars: string, start: nat) returns (found: Option<Json>, pos: nat)
    requires start < |chars|
    ensures Reads(chars, found, pos, ParseArray(chars[start..]))
    ensures found.Some? ==> start < pos
    decreases |chars| - start, 1
  {
    hide ParseValue, Trimmed, ParseItems;
    assert chars[start..][1..] == chars[start + 1..];
    pos := SkipWs(chars, start + 1);
    if At(chars, pos, ']') {
      return Some(Arr([])), pos + 1;
    }
    var items: seq<Json> := [];
    ghost var all := ParseItems(chars[pos..]);
    ItemsFrom(all);
    while true
      invariant start < pos <= |chars| && PrependItems(items, ParseItems(chars[pos..])) == all
      decreases |chars| - pos
    {
      ghost var here := pos;
      var item, after := ValueAt(chars, pos);
      ItemsUnfold(chars[pos..]);
      if item.None? {
        return None, pos;
      }
      ghost var before := items;
      items := items + [item.value];
      pos := SkipWs(chars, after);
      if At(chars, pos, ',') {
        assert chars[pos..][1..] == chars[pos + 1..];
        ItemsMore(before, item.value, ParseItems(chars[pos + 1..]));
        pos := pos + 1;
      } else if At(chars, pos, ']') {
        return Some(Arr(items)), pos + 1;
      } else {
        return None, pos;
      }
    }
    found := None;
  }

  lemma {:induction false} ItemsFrom<T>(p: Parsed<seq<T>>)
    ensures PrependItems([], p) == p
  {
    if p.Got? {
      assert [] + p.value == p.value;
    }
  }

  lemma {:induction false} ItemsMore<T>(done: seq<T>, item: T, p: Parsed<seq<T>>)
    ensures PrependItems(done + [item], p) == PrependItems(done, PrependItems([item], p))
  {
    if p.Got? {
      assert (done + [item]) + p.value == done + ([item] + p.value);
    }
  }

  lemma {:induction false} ItemsUnfold(s: string)
    ensures ParseItems(s) == match ParseValue(s)
      case Fail => Fail
      case Got(item, after) =>
        if StartsWith(Trimmed(after), ']') then Got([item], Trimmed(after)[1..])
        else if StartsWith(Trimmed(after), ',') then PrependItems([item], ParseItems(Trimmed(after)[1..]))
        else Fail
  {
    hide ParseValue, Trimmed;
  }

  method FieldAt(chars: string, start: nat) returns (found: Option<(string, Json)>, pos: nat)
    requires start <= |chars|
    ensures Reads(chars, found, pos, ParseField(chars[start..]))
    ensures found.Some? ==> start < pos
    decreases |chars| - start, 3
  {
    hide ParseValue, Trimmed, ParseString;
    pos := SkipWs(chars, start);
    var key, next := StringAt(chars, pos);
    if key.None? {
      return None, pos;
    }
    pos := SkipWs(chars, next);
    if !At(chars, pos, ':') {
      return None, pos;
    }
    assert chars[pos..][1..] == chars[pos + 1..];
    var value, after := ValueAt(chars, pos + 1);
    if value.None? {
      return None, pos;
    }
    return Some((key.value, value.value)), after;
  }

  method ObjectAt(chars: string, start: nat) returns (found: Option<Json>, pos: nat)
    requires start < |chars|
    ensures Reads(chars, found, pos, ParseObject(chars[start..]))
    ensures found.Some? ==> start < pos
    decreases |chars| - start, 1
  {
    hide ParseField, Trimmed, ParseFields;
    assert chars[start..][1..] == chars[start + 1..];
    pos := SkipWs(chars, start + 1);
    if At(chars, pos, '}') {
      return Some(Obj([])), pos + 1;
    }
    var fields: seq<(string, Json)> := [];
    ghost var all := ParseFields(chars[pos..]);
    ItemsFrom(all);
    while true
      invariant start < pos <= |chars| && PrependItems(fields, ParseFields(chars[pos..])) == all
      decreases |chars| - pos
    {
      var field, after := FieldAt(chars, pos);
      FieldsUnfold(chars[pos..]);
      if field.None? {
        return None, pos;
      }
      ghost var before := fields;
      fields := fields + [field.value];
      pos := SkipWs(chars, after);
      if At(chars, pos, ',') {
        assert chars[pos..][1..] == chars[pos + 1..];
        ItemsMore(before, field.value, ParseFields(chars[pos + 1..]));
        pos := pos + 1;
      } else if At(chars, pos, '}') {
        return Some(Obj(fields)), pos + 1;
      } else {
        return None, pos;
      }
    }
    found := None;
  }

  lemma {:induction false} FieldsUnfold(s: string)
    ensures ParseFields(s) == match ParseField(s)
      case Fail => Fail
      case Got(field, after) =>
        if StartsWith(Trimmed(after), '}') then Got([field], Trimmed(after)[1..])
        else if StartsWith(Trimmed(after), ',') then PrependItems([field], ParseFields(Trimmed(after)[1..]))
        else Fail
  {
    hide ParseField, Trimmed;
  }

  /** `parse`. */
  method ParseText(input: string) returns (found: Option<Json>)
    ensures found == Parse(input)
  {
    hide ParseValue, Trimmed;
    var value, pos := ValueAt(input, 0);
    assert input[0..] == input;
    if value.None? {
      return None;
    }
    var end := SkipWs(input, pos);
    if end < |input| {
      return None;
    }
    return value;
  }
}
