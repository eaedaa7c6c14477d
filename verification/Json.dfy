/**
 JSON values and their two printed forms (src/json.rs).

 `Write` keeps the order in which an object was built.  The canonical form sorts keys
 and drops repeats, which `Normalized` does to the value; `PrintCanonical` does both at
 once, as it prints.
 */
module Json {
  import opened Bytes
  import opened Chars
  import K = Keyed
  import opened Wrappers

  /**
   `Num` is an integer below 2^53 in magnitude: a double holds it exactly and either
   branch of the printer writes its decimal digits.  Any other number is `Float`, known
   by the text it prints as.
   */
  datatype Json =
    | Null
    | Bool(b: bool)
    | Num(n: int)
    | Float(text: string, finite: bool)
    | Str(s: string)
    | Arr(items: seq<Json>)
    | Obj(fields: seq<(string, Json)>)

  const LIMIT := 0x20_0000_0000_0000

  predicate AllDigits(s: string) {
    forall i :: 0 <= i < |s| ==> IsDigit(s[i])
  }

  function DigitsValue(s: string): nat
    requires AllDigits(s)
  {
    if s == "" then 0
    else
      assert IsDigit(s[|s| - 1]);
      10 * DigitsValue(s[..|s| - 1]) + (s[|s| - 1] as int - '0' as int)
  }

  /** Every number is an integer; one of 2^53 or more is unsigned. */
  predicate Integral(v: Json) {
    match v
    case Num(n) => -LIMIT < n < LIMIT
    case Float(text, finite) => finite && text != "" && AllDigits(text) && DigitsValue(text) >= LIMIT
    case Arr(items) => forall i :: 0 <= i < |items| ==> Integral(items[i])
    case Obj(fields) => forall i :: 0 <= i < |fields| ==> Integral(fields[i].1)
    case _ => true
  }

  /** `Json::get`: the first entry of a key. */
  function Get(v: Json, key: string): Option<Json> {
    if v.Obj? then K.Find(v.fields, key) else None
  }

  // ---- text of the scalars ------------------------------------------------

  function DigitChar(d: nat): char
    requires d < 10
  {
    ('0' as int + d) as char
  }

  /** Decimal digits, no leading zero. */
  function Decimal(n: nat): (r: string)
    ensures r != ""
  {
    if n < 10 then [DigitChar(n)] else Decimal(n / 10) + [DigitChar(n % 10)]
  }

  function Integer(n: int): string {
    if n < 0 then "-" + Decimal(-n) else Decimal(n)
  }

  /** `\u` and four lower-case hexadecimal digits, for a control character. */
  function ControlEscape(c: char): string
    requires c as int < 0x20
  {
    ['\\', 'u', '0', '0', HEX[c as int / 16], HEX[c as int % 16]]
  }

  function EscapeChar(c: char): (r: string)
    ensures r != ""
  {
    if c == '"' then ['\\', '"']
    else if c == '\\' then ['\\', '\\']
    else if c == '\n' then ['\\', 'n']
    else if c == '\r' then ['\\', 'r']
    else if c == '\t' then ['\\', 't']
    else if c as int < 0x20 then ControlEscape(c)
    else [c]
  }

  function Escaped(s: string): string {
    if s == "" then "" else EscapeChar(s[0]) + Escaped(s[1..])
  }

  function Quoted(s: string): string {
    ['"'] + Escaped(s) + ['"']
  }

  // ---- the printed form ---------------------------------------------------

  function Write(v: Json): string
    decreases v
  {
    match v
    case Null => "null"
    case Bool(b) => if b then "true" else "false"
    case Num(n) => Integer(n)
    case Float(text, _) => text
    case Str(s) => Quoted(s)
    case Arr(items) => "[" + WriteItems(items) + "]"
    case Obj(fields) => "{" + WriteFields(fields) + "}"
  }

  function WriteItems(items: seq<Json>): string
    decreases items
  {
    if items == [] then ""
    else if |items| == 1 then Write(items[0])
    else Write(items[0]) + "," + WriteItems(items[1..])
  }

  function WriteField(field: (string, Json)): string
    decreases field
  {
    Quoted(field.0) + ":" + Write(field.1)
  }

  function WriteFields(fields: seq<(string, Json)>): string
    decreases fields
  {
    if fields == [] then ""
    else if |fields| == 1 then WriteField(fields[0])
    else WriteField(fields[0]) + "," + WriteFields(fields[1..])
  }

  // ---- normal form --------------------------------------------------------

  /** Keys sorted at every depth, repeated keys dropped but the first, non-finite numbers null. */
  function Normalized(v: Json): Json
    decreases v
  {
    match v
    case Float(_, false) => Null
    case Arr(items) => Arr(NormalizedItems(items))
    case Obj(fields) => Obj(K.Canonical(NormalizedFields(fields)))
    case _ => v
  }

  function NormalizedItems(items: seq<Json>): (r: seq<Json>)
    ensures |r| == |items|
    decreases items
  {
    if items == [] then [] else [Normalized(items[0])] + NormalizedItems(items[1..])
  }

  function NormalizedFields(fields: seq<(string, Json)>): (r: seq<(string, Json)>)
    ensures |r| == |fields|
    decreases fields
  {
    if fields == [] then [] else [NormalizedField(fields[0])] + NormalizedFields(fields[1..])
  }

  function NormalizedField(field: (string, Json)): (string, Json)
    decreases field
  {
    (field.0, Normalized(field.1))
  }

  lemma {:induction false} ItemsAt(items: seq<Json>, i: nat)
    requires i < |items|
    ensures NormalizedItems(items)[i] == Normalized(items[i])
  {
    hide Normalized;
    if i > 0 {
      ItemsAt(items[1..], i - 1);
    }
  }

  lemma {:induction false} FieldsAt(fields: seq<(string, Json)>, i: nat)
    requires i < |fields|
    ensures NormalizedFields(fields)[i] == (fields[i].0, Normalized(fields[i].1))
  {
    hide Normalized;
    if i > 0 {
      FieldsAt(fields[1..], i - 1);
    }
  }

  lemma {:induction false} FindNormalized(fields: seq<(string, Json)>, key: string)
    ensures K.Find(NormalizedFields(fields), key) ==
            match K.Find(fields, key) case Some(v) => Some(Normalized(v)) case None => None
  {
    hide Normalized;
    if fields != [] {
      FindNormalized(fields[1..], key);
      var r := NormalizedFields(fields);
      assert r[1..] == NormalizedFields(fields[1..]);
    }
  }

  /** Normalising keeps what `get` finds. */
  lemma {:induction false} NormalizedKeepsGet(v: Json, key: string)
    ensures Get(Normalized(v), key) ==
            match Get(v, key) case Some(w) => Some(Normalized(w)) case None => None
  {
    hide K.Canonical, K.Find;
    if v.Obj? {
      FindNormalized(v.fields, key);
      K.CanonicalKeepsFirst(NormalizedFields(v.fields), key);
    }
  }

  /** Sorting and dropping repeats can come before or after the fields are normalised. */
  lemma {:induction false} NormalizedCommutes(fields: seq<(string, Json)>)
    ensures K.Canonical(NormalizedFields(fields)) == NormalizedFields(K.Canonical(fields))
  {
    hide K.Canonical, Normalized, NormalizedFields, K.Find;
    var a, b := K.Canonical(NormalizedFields(fields)), NormalizedFields(K.Canonical(fields));
    K.CanonicalIsStrict(NormalizedFields(fields));
    K.CanonicalIsStrict(fields);
    NormalizedStrict(K.Canonical(fields));
    forall key ensures K.Find(a, key) == K.Find(b, key) {
      K.CanonicalKeepsFirst(NormalizedFields(fields), key);
      K.CanonicalKeepsFirst(fields, key);
      FindNormalized(fields, key);
      FindNormalized(K.Canonical(fields), key);
    }
    K.StrictlyOrderedUnique(a, b);
  }

  lemma {:induction false} NormalizedStrict(fields: seq<(string, Json)>)
    requires K.StrictlyOrdered(fields)
    ensures K.StrictlyOrdered(NormalizedFields(fields))
  {
    hide Normalized, NormalizedFields;
    var r := NormalizedFields(fields);
    forall i, j | 0 <= i < j < |r|
      ensures K.StringLe(r[i].0, r[j].0) && r[i].0 != r[j].0
    {
      FieldsAt(fields, i);
      FieldsAt(fields, j);
      assert K.StringLe(fields[i].0, fields[j].0);
    }
  }

  /** The normal form is its own normal form. */
  lemma {:induction false} NormalizedIdempotent(v: Json)
    ensures Normalized(Normalized(v)) == Normalized(v)
    decreases v
  {
    hide K.Canonical;
    match v
    case Arr(items) => ItemsIdempotent(items);
    case Obj(fields) =>
      var once := NormalizedFields(fields);
      FieldsIdempotent(fields);
      NormalizedCommutes(once);
      K.CanonicalIsStrict(once);
      K.CanonicalOfStrict(K.Canonical(once));
    case _ =>
  }

  lemma {:induction false} ItemsIdempotent(items: seq<Json>)
    ensures NormalizedItems(NormalizedItems(items)) == NormalizedItems(items)
    decreases items
  {
    hide Normalized;
    if items != [] {
      NormalizedIdempotent(items[0]);
      ItemsIdempotent(items[1..]);
      assert NormalizedItems(items)[1..] == NormalizedItems(items[1..]);
    }
  }

  lemma {:induction false} FieldsIdempotent(fields: seq<(string, Json)>)
    ensures NormalizedFields(NormalizedFields(fields)) == NormalizedFields(fields)
    decreases fields
  {
    hide Normalized;
    if fields != [] {
      FieldIdempotent(fields[0]);
      FieldsIdempotent(fields[1..]);
      assert NormalizedFields(fields)[1..] == NormalizedFields(fields[1..]);
    }
  }

  lemma {:induction false} FieldIdempotent(field: (string, Json))
    ensures NormalizedField(NormalizedField(field)) == NormalizedField(field)
    decreases field
  {
    hide Normalized;
    NormalizedIdempotent(field.1);
  }

  /** Normal forms of integral values are integral. */
  lemma {:induction false} NormalizedIntegral(v: Json)
    requires Integral(v)
    ensures Integral(Normalized(v))
    decreases v
  {
    hide K.Canonical;
    match v
    case Arr(items) =>
      forall i | 0 <= i < |items| ensures Integral(NormalizedItems(items)[i]) {
        ItemsAt(items, i);
        NormalizedIntegral(items[i]);
      }
    case Obj(fields) =>
      var once := NormalizedFields(fields);
      var r := K.Canonical(once);
      forall i | 0 <= i < |r| ensures Integral(r[i].1) {
        K.CanonicalMembers(once);
        assert r[i] in r;
        var j: nat :| j < |once| && once[j] == r[i];
        FieldsAt(fields, j);
        NormalizedIntegral(fields[j].1);
      }
    case _ =>
  }

  // ---- the program --------------------------------------------------------

  method PrintChar(c: char, out: string) returns (r: string)
    ensures r == out + EscapeChar(c)
  {
    if c == '"' {
      r := out + ['\\', '"'];
    } else if c == '\\' {
      r := out + ['\\', '\\'];
    } else if c == '\n' {
      r := out + ['\\', 'n'];
    } else if c == '\r' {
      r := out + ['\\', 'r'];
    } else if c == '\t' {
      r := out + ['\\', 't'];
    } else if c as int < 0x20 {
      r := out + ControlEscape(c);
    } else {
      r := out + [c];
    }
  }

  method PrintString(s: string, out: string) returns (r: string)
    ensures r == out + Quoted(s)
  {
    hide EscapeChar;
    r := out + ['"'];
    assert s[0..] == s;
    for i := 0 to |s|
      invariant r + Escaped(s[i..]) == out + ['"'] + Escaped(s)
    {
      assert s[i..][1..] == s[i + 1..];
      r := PrintChar(s[i], r);
    }
    assert s[|s|..] == "";
    assert r + Escaped("") == r;
    r := r + ['"'];
  }

  function Comma(first: bool): string {
    if first then "" else ","
  }

  lemma {:induction false} WriteNothing()
    ensures WriteItems([]) == "" && WriteFields([]) == ""
  {
  }

  lemma {:induction false} WriteItemsNext(items: seq<Json>, item: Json)
    ensures WriteItems(items + [item]) == WriteItems(items) + Comma(items == []) + Write(item)
  {
    hide Write;
    if items != [] {
      assert (items + [item])[1..] == items[1..] + [item];
      WriteItemsNext(items[1..], item);
    }
  }

  lemma {:induction false} WriteFieldsNext(fields: seq<(string, Json)>, field: (string, Json))
    ensures WriteFields(fields + [field]) == WriteFields(fields) + Comma(fields == []) + WriteField(field)
  {
    hide WriteField;
    if fields != [] {
      assert (fields + [field])[1..] == fields[1..] + [field];
      WriteFieldsNext(fields[1..], field);
    }
  }

  /** `write`: appends the text of a value. */
  method Print(v: Json, out: string) returns (r: string)
    ensures r == out + Write(v)
    decreases v
  {
    hide Integer, Quoted, WriteFields, WriteItems;
    match v
    case Null => r := out + "null";
    case Bool(b) => r := out + if b then "true" else "false";
    case Num(n) => r := out + Integer(n);
    case Float(text, _) => r := out + text;
    case Str(s) => r := PrintString(s, out);
    case Arr(items) => r := PrintItems(items, out);
    case Obj(fields) => r := PrintFields(fields, out);
  }

  method PrintItems(items: seq<Json>, out: string) returns (r: string)
    ensures r == out + ("[" + WriteItems(items) + "]")
    decreases items
  {
    hide Write, WriteItems;
    WriteNothing();
    assert items[..0] == [];
    r := out + "[";
    for i := 0 to |items|
      invariant r == out + "[" + WriteItems(items[..i])
    {
      WriteItemsNext(items[..i], items[i]);
      assert items[..i + 1] == items[..i] + [items[i]];
      r := r + Comma(i == 0);
      r := Print(items[i], r);
    }
    assert items[..|items|] == items;
    r := r + "]";
  }

  method PrintFields(fields: seq<(string, Json)>, out: string) returns (r: string)
    ensures r == out + ("{" + WriteFields(fields) + "}")
    decreases fields
  {
    hide WriteField, WriteFields;
    WriteNothing();
    assert fields[..0] == [];
    r := out + "{";
    for i := 0 to |fields|
      invariant r == out + "{" + WriteFields(fields[..i])
    {
      WriteFieldsNext(fields[..i], fields[i]);
      assert fields[..i + 1] == fields[..i] + [fields[i]];
      r := r + Comma(i == 0);
      r := PrintField(fields[i], r);
    }
    assert fields[..|fields|] == fields;
    r := r + "}";
  }

  method PrintField(field: (string, Json), out: string) returns (r: string)
    ensures r == out + WriteField(field)
    decreases field
  {
    hide Write, Quoted;
    r := PrintString(field.0, out);
    r := r + ":";
    r := Print(field.1, r);
  }

  /** `write_canonical`: sorts, drops repeats and prints as it goes; that prints the normal form. */
  method PrintCanonical(v: Json, out: string) returns (r: string)
    ensures r == out + Write(Normalized(v))
    decreases v, 1
  {
    hide Integer, Quoted, WriteFields, WriteItems, K.Canonical, NormalizedItems, NormalizedFields, K.StringLe;
    match v
    case Float(text, finite) => r := out + if finite then text else "null";
    case Arr(items) => r := PrintCanonicalItems(v, out);
    case Obj(fields) =>
      K.CanonicalMembers(fields);
      NormalizedCommutes(fields);
      r := PrintCanonicalFields(v, K.Canonical(fields), out);
    case _ => r := Print(v, out);
  }

  method PrintCanonicalItems(v: Json, out: string) returns (r: string)
    requires v.Arr?
    ensures r == out + ("[" + WriteItems(NormalizedItems(v.items)) + "]")
    decreases v, 0
  {
    hide Write, WriteItems, Normalized, NormalizedItems;
    ghost var done := NormalizedItems(v.items);
    WriteNothing();
    assert done[..0] == [];
    r := out + "[";
    for i := 0 to |v.items|
      invariant r == out + "[" + WriteItems(done[..i])
    {
      ItemsAt(v.items, i);
      WriteItemsNext(done[..i], done[i]);
      assert done[..i + 1] == done[..i] + [done[i]];
      r := r + Comma(i == 0);
      r := PrintCanonical(v.items[i], r);
    }
    assert done[..|v.items|] == done;
    r := r + "]";
  }

  method PrintCanonicalFields(ghost v: Json, sorted: seq<(string, Json)>, out: string) returns (r: string)
    requires v.Obj? && forall e :: e in sorted ==> e in v.fields
    ensures r == out + ("{" + WriteFields(NormalizedFields(sorted)) + "}")
    decreases v, 0
  {
    hide WriteFields, Normalized, NormalizedFields, Quoted, Write;
    ghost var done := NormalizedFields(sorted);
    WriteNothing();
    assert done[..0] == [];
    r := out + "{";
    for i := 0 to |sorted|
      invariant r == out + "{" + WriteFields(done[..i])
    {
      FieldsAt(sorted, i);
      WriteFieldsNext(done[..i], done[i]);
      assert done[..i + 1] == done[..i] + [done[i]];
      assert sorted[i] in v.fields;
      r := r + Comma(i == 0);
      r := PrintString(sorted[i].0, r);
      r := r + ":";
      r := PrintCanonical(sorted[i].1, r);
    }
    assert done[..|sorted|] == done;
    r := r + "}";
  }
}
