/**
 Content-addressed objects (src/context_store.rs).

 A record's id is the digest of its canonical text.  Reading a stored record gives it
 back with its body in normal form, and re-encoding that reproduces the id.
 */
module Objects {
  import opened Bytes
  import C = Checkpoints
  import opened Json
  import JsonParse
  import JsonRoundTrip
  import K = Keyed
  import S = Sha256
  import T = Tagged
  import Utf8
  import opened Wrappers

  datatype ObjectKind = Document | Span | Node | Edge | Usage

  datatype TrustLabel = Trusted | External | LowTrust | Untrusted

  datatype ObjectRecord = ObjectRecord(
    kind: ObjectKind, logicalId: string, trust: TrustLabel, derived: bool, sourceObjects: seq<string>,
    createdBy: string, body: Json)

  function KindName(k: ObjectKind): string {
    match k
    case Document => "document"
    case Span => "span"
    case Node => "node"
    case Edge => "edge"
    case Usage => "usage"
  }

  function KindOf(text: string): Option<ObjectKind> {
    if text == "document" then Some(Document)
    else if text == "span" then Some(Span)
    else if text == "node" then Some(Node)
    else if text == "edge" then Some(Edge)
    else if text == "usage" then Some(Usage)
    else None
  }

  function LabelName(l: TrustLabel): string {
    match l
    case Trusted => "trusted"
    case External => "external"
    case LowTrust => "low-trust"
    case Untrusted => "untrusted"
  }

  function LabelOf(text: string): Option<TrustLabel> {
    if text == "trusted" then Some(Trusted)
    else if text == "external" then Some(External)
    else if text == "low-trust" then Some(LowTrust)
    else if text == "untrusted" then Some(Untrusted)
    else None
  }

  lemma {:induction false} NamesRead(k: ObjectKind, l: TrustLabel)
    ensures KindOf(KindName(k)) == Some(k) && LabelOf(LabelName(l)) == Some(l)
  {
    assert |KindName(Document)| == 8 && |KindName(Span)| == 4 && |KindName(Node)| == 4 && |KindName(Edge)| == 4
           && |KindName(Usage)| == 5;
    assert KindName(Span)[0] == 's' && KindName(Node)[0] == 'n' && KindName(Edge)[0] == 'e';
    assert |LabelName(Trusted)| == 7 && |LabelName(External)| == 8 && |LabelName(LowTrust)| == 9
           && |LabelName(Untrusted)| == 9;
    assert LabelName(LowTrust)[0] == 'l' && LabelName(Untrusted)[0] == 'u';
  }

  /** `to_json`. */
  function RecordFields(r: ObjectRecord): (f: seq<(string, Json)>)
    ensures |f| == 8
  {
    [("schema", Str(C.SCHEMA_VERSION)),
     ("kind", Str(KindName(r.kind))),
     ("logical_id", Str(r.logicalId)),
     ("label", Str(LabelName(r.trust))),
     ("derived", Bool(r.derived)),
     ("source_objects", Arr(C.Strings(r.sourceObjects))),
     ("created_by", Str(r.createdBy)),
     ("body", r.body)]
  }

  function CanonicalText(r: ObjectRecord): string {
    Write(Normalized(Obj(RecordFields(r))))
  }

  function CanonicalBytes(r: ObjectRecord): seq<u8> {
    Utf8.Encode(CanonicalText(r))
  }

  function ContentHash(r: ObjectRecord): Digest {
    S.SHA256(CanonicalBytes(r))
  }

  function ObjectId(r: ObjectRecord): string {
    ToHex(ContentHash(r))
  }

  /** The string under a key, empty when it is not a string; none when the key is missing. */
  function Text(v: Json, key: string): Option<string> {
    match Get(v, key)
    case None => None
    case Some(w) => Some(if w.Str? then w.s else "")
  }

  function FromJson(v: Json): Option<ObjectRecord> {
    var kind, trust := Text(v, "kind"), Text(v, "label");
    var logicalId, body := Text(v, "logical_id"), Get(v, "body");
    if kind.None? || KindOf(kind.value).None? || logicalId.None? || trust.None? || LabelOf(trust.value).None?
       || body.None?
    then None
    else
      Some(ObjectRecord(
             KindOf(kind.value).value, logicalId.value, LabelOf(trust.value).value,
             Get(v, "derived").Some? && Get(v, "derived").value == Bool(true),
             C.StringList(Get(v, "source_objects")), Text(v, "created_by").GetOr(""), body.value))
  }

  // ---- round trip ---------------------------------------------------------

  lemma {:induction false} RecordKeys(r: ObjectRecord)
    ensures K.DistinctKeys(RecordFields(r))
  {
    hide C.Strings, KindName, LabelName;
    var f := RecordFields(r);
    assert |f[0].0| == 6 && |f[1].0| == 4 && |f[2].0| == 10 && |f[3].0| == 5;
    assert |f[4].0| == 7 && |f[5].0| == 14 && |f[6].0| == 10 && |f[7].0| == 4;
    assert f[1].0[0] == 'k' && f[7].0[0] == 'b' && f[2].0[0] == 'l' && f[6].0[0] == 'c';
  }

  /** Any field, looked up in the normal form, is the normal form of the field. */
  lemma {:induction false} FieldLookup(r: ObjectRecord, i: nat)
    requires i < 8
    ensures Get(Normalized(Obj(RecordFields(r))), RecordFields(r)[i].0) == Some(Normalized(RecordFields(r)[i].1))
  {
    hide RecordFields, Normalized, K.Find, K.DistinctKeys;
    var f := RecordFields(r);
    RecordKeys(r);
    Found(f, i);
    NormalizedKeepsGet(Obj(f), f[i].0);
  }

  lemma {:induction false} Found(f: seq<(string, Json)>, i: nat)
    requires i < |f| && K.DistinctKeys(f)
    ensures K.Find(f, f[i].0) == Some(f[i].1)
  {
    hide K.Find;
    K.FindAt(f, i);
  }

  lemma {:induction false} RecordIntegral(r: ObjectRecord)
    requires Integral(r.body)
    ensures Integral(Obj(RecordFields(r)))
  {
    hide KindName, LabelName;
    var f := RecordFields(r);
    forall i | 0 <= i < |f| ensures Integral(f[i].1) {
    }
  }

  /** What `from_json` finds in the stored form. */
  lemma {:induction false} StoredFields(r: ObjectRecord)
    ensures var v := Normalized(Obj(RecordFields(r)));
            && Get(v, "kind") == Some(Str(KindName(r.kind)))
            && Get(v, "logical_id") == Some(Str(r.logicalId))
            && Get(v, "label") == Some(Str(LabelName(r.trust)))
            && Get(v, "derived") == Some(Bool(r.derived))
            && Get(v, "source_objects") == Some(Arr(C.Strings(r.sourceObjects)))
            && Get(v, "created_by") == Some(Str(r.createdBy))
            && Get(v, "body") == Some(Normalized(r.body))
  {
    hide KindName, LabelName, C.Strings, Get, K.Canonical;
    FieldLookup(r, 1);
    FieldLookup(r, 2);
    FieldLookup(r, 3);
    FieldLookup(r, 4);
    FieldLookup(r, 5);
    FieldLookup(r, 6);
    FieldLookup(r, 7);
    C.StringsNormal(r.sourceObjects);
  }

  /** Reading a stored record gives it back, its body in normal form. */
  lemma {:induction false} RecordReloads(r: ObjectRecord)
    requires Integral(r.body)
    ensures JsonParse.Parse(CanonicalText(r)).Some?
    ensures FromJson(JsonParse.Parse(CanonicalText(r)).value) == Some(r.(body := Normalized(r.body)))
  {
    hide KindName, KindOf, LabelName, LabelOf, C.Strings, Get, Normalized, JsonParse.Parse, Write, Integral;
    hide C.OnlyStrings, RecordFields;
    RecordIntegral(r);
    JsonRoundTrip.ParseCanonical(Obj(RecordFields(r)));
    StoredFields(r);
    NamesRead(r.kind, r.trust);
    C.OnlyStringsOf(r.sourceObjects);
  }

  /** Encoding the reloaded record reproduces its bytes, and so its id. */
  lemma {:induction false} ReloadKeepsId(r: ObjectRecord)
    ensures CanonicalBytes(r.(body := Normalized(r.body))) == CanonicalBytes(r)
  {
    hide KindName, LabelName, C.Strings, Write, K.Canonical, K.Find, Utf8.Encode;
    var r' := r.(body := Normalized(r.body));
    var f, g := RecordFields(r), RecordFields(r');
    assert NormalizedFields(f) == NormalizedFields(g) by {
      forall i | 0 <= i < 8 ensures NormalizedFields(f)[i] == NormalizedFields(g)[i] {
        FieldsAt(f, i);
        FieldsAt(g, i);
        NormalizedIdempotent(r.body);
      }
    }
  }

  /** Without a collision an id names one record: the same content always, other content never. */
  lemma {:induction false} IdNamesContent(a: ObjectRecord, b: ObjectRecord)
    requires T.NoCollision({CanonicalBytes(a), CanonicalBytes(b)})
    requires Integral(a.body) && Integral(b.body)
    ensures ObjectId(a) == ObjectId(b) <==> a.(body := Normalized(a.body)) == b.(body := Normalized(b.body))
  {
    hide CanonicalText, ToHex, FromJson, Normalized, Integral, Utf8.Encode, JsonParse.Parse;
    ReloadKeepsId(a);
    ReloadKeepsId(b);
    if ObjectId(a) == ObjectId(b) {
      ToHexInjective(ContentHash(a), ContentHash(b));
      Utf8.EncodeInjective(CanonicalText(a), CanonicalText(b));
      RecordReloads(a);
      RecordReloads(b);
    }
  }
}
