/**
 The immutable raw store (src/spans.rs).

 Ids are content-derived; `docName` and `spanName` are the functions that derive them.
 A document may be added when the ids of its chunks clash with nothing in the store.
 */
module Spans {
  import opened Bytes
  import opened Chunking
  import opened MemoryGraphClass
  import opened Sorting
  import opened Text
  import Utf8
  import opened Wrappers

  type SpanIdx = nat

  /** `order` is the program's `seq`, the position among the document's spans. */
  datatype Span = Span(id: string, docId: string, start: nat, end: nat, order: nat, ts: nat)

  datatype Document = Document(id: string, text: string, ts: nat, source: Option<string>)

  /** The ids of a document's chunks differ from each other and from those in the store. */
  ghost predicate NoClash(
    spanName: (string, nat, nat) -> string, spanIndex: map<string, SpanIdx>, id: string, pieces: seq<Range>)
  {
    && (forall q: nat :: q < |pieces| ==> spanName(id, pieces[q].0, pieces[q].1) !in spanIndex)
    && (forall p: nat, q: nat :: p < q < |pieces| ==>
          spanName(id, pieces[p].0, pieces[p].1) != spanName(id, pieces[q].0, pieces[q].1))
  }

  // ---- what the indices say -----------------------------------------------

  ghost predicate DocsIndexed(documents: seq<Document>, docIndex: map<string, nat>) {
    && (forall d: nat :: d < |documents| ==> documents[d].id in docIndex && docIndex[documents[d].id] == d)
    && (forall id: string :: id in docIndex ==> docIndex[id] < |documents| && documents[docIndex[id]].id == id)
  }

  ghost predicate SpansIndexed(spans: seq<Span>, spanIndex: map<string, SpanIdx>) {
    && (forall j: nat :: j < |spans| ==> spans[j].id in spanIndex && spanIndex[spans[j].id] == j)
    && (forall id: string :: id in spanIndex ==> spanIndex[id] < |spans| && spans[spanIndex[id]].id == id)
  }

  /** A span is a cut of its document, on character boundaries. */
  ghost predicate SpanFits(documents: seq<Document>, docIndex: map<string, nat>, s: Span) {
    && s.docId in docIndex && docIndex[s.docId] < |documents|
    && var t := Utf8.Encode(documents[docIndex[s.docId]].text);
       s.start < s.end <= |t| && Boundary(t, s.start) && Boundary(t, s.end)
  }

  /** Each document lists its spans by position, and every span is listed. */
  ghost predicate Listed(docIndex: map<string, nat>, spans: seq<Span>, docSpans: seq<seq<SpanIdx>>) {
    && (forall id: string :: id in docIndex ==> docIndex[id] < |docSpans|)
    && (forall d: nat, q: nat :: d < |docSpans| && q < |docSpans[d]| ==>
          && docSpans[d][q] < |spans| && spans[docSpans[d][q]].docId in docIndex
          && docIndex[spans[docSpans[d][q]].docId] == d && spans[docSpans[d][q]].order == q)
    && (forall j: nat :: j < |spans| ==>
          && spans[j].docId in docIndex && spans[j].order < |docSpans[docIndex[spans[j].docId]]|
          && docSpans[docIndex[spans[j].docId]][spans[j].order] == j)
  }

  function RangeOf(s: Span): Range {
    (s.start, s.end)
  }

  function RangesOf(spans: seq<Span>, list: seq<SpanIdx>): (r: seq<Range>)
    requires forall q: nat :: q < |list| ==> list[q] < |spans|
    ensures |r| == |list| && forall q: nat :: q < |r| ==> r[q] == RangeOf(spans[list[q]])
  {
    seq(|list|, q requires 0 <= q < |list| => RangeOf(spans[list[q]]))
  }

  // ---- the order `restore` rebuilds ---------------------------------------

  /** A span's place: its document, its position there, and its index in the store. */
  datatype Entry = Entry(doc: nat, order: nat, idx: SpanIdx)

  predicate EntryLe(a: Entry, b: Entry) {
    a.doc < b.doc || (a.doc == b.doc && a.order <= b.order)
  }

  function Entries(spans: seq<Span>, docIndex: map<string, nat>, n: nat): seq<Entry>
    requires n <= |spans|
  {
    if n == 0 then []
    else
      Entries(spans, docIndex, n - 1)
      + if spans[n - 1].docId in docIndex then [Entry(docIndex[spans[n - 1].docId], spans[n - 1].order, n - 1)] else []
  }

  function Ordered(entries: seq<Entry>): seq<Entry> {
    Sort((a: Entry, b: Entry) => EntryLe(a, b), entries)
  }

  function Pick(entries: seq<Entry>, d: nat): seq<SpanIdx> {
    if entries == [] then []
    else
      Pick(entries[..|entries| - 1], d)
      + if entries[|entries| - 1].doc == d then [entries[|entries| - 1].idx] else []
  }

  /** The span lists `restore` builds. */
  function Rebuilt(documents: seq<Document>, spans: seq<Span>, docIndex: map<string, nat>): seq<seq<SpanIdx>> {
    seq(|documents|, d requires 0 <= d < |documents| => Pick(Ordered(Entries(spans, docIndex, |spans|)), d))
  }

  lemma {:induction false} EntriesAre(spans: seq<Span>, docIndex: map<string, nat>, n: nat, e: Entry)
    requires n <= |spans|
    ensures e in Entries(spans, docIndex, n) <==>
            e.idx < n && spans[e.idx].docId in docIndex && e.doc == docIndex[spans[e.idx].docId] && e.order == spans[e.idx].order
  {
    if n > 0 {
      EntriesAre(spans, docIndex, n - 1, e);
    }
  }

  lemma {:induction false} EntriesDistinct(spans: seq<Span>, docIndex: map<string, nat>, n: nat)
    requires n <= |spans|
    ensures forall i, j :: 0 <= i < j < |Entries(spans, docIndex, n)| ==>
              Entries(spans, docIndex, n)[i] != Entries(spans, docIndex, n)[j]
  {
    if n > 0 {
      EntriesDistinct(spans, docIndex, n - 1);
      var front := Entries(spans, docIndex, n - 1);
      forall i | 0 <= i < |front| ensures front[i].idx < n - 1 {
        EntriesAre(spans, docIndex, n - 1, front[i]);
        assert front[i] in front;
      }
    }
  }

  /** A permutation of distinct elements has distinct elements. */
  lemma {:induction false} DistinctPermutes<T>(a: seq<T>, b: seq<T>)
    requires multiset(a) == multiset(b) && forall i, j :: 0 <= i < j < |a| ==> a[i] != a[j]
    ensures forall i, j :: 0 <= i < j < |b| ==> b[i] != b[j]
  {
    forall i, j | 0 <= i < j < |b| ensures b[i] != b[j] {
      if b[i] == b[j] {
        TwiceCounted(b, i, j);
        CountedOnce(a, b[i]);
      }
    }
  }

  lemma {:induction false} TwiceCounted<T>(s: seq<T>, i: nat, j: nat)
    requires i < j < |s| && s[i] == s[j]
    ensures multiset(s)[s[i]] >= 2
  {
    assert s == s[..j] + [s[j]] + s[j + 1..];
    assert s[..j][i] == s[i];
    assert multiset(s[..j])[s[i]] >= 1;
  }

  lemma {:induction false} PickMembers(entries: seq<Entry>, d: nat, j: SpanIdx)
    ensures j in Pick(entries, d) <==> exists e: Entry :: e in entries && e.doc == d && e.idx == j
  {
    if entries != [] {
      var front, last := entries[..|entries| - 1], entries[|entries| - 1];
      PickMembers(front, d, j);
      assert entries == front + [last];
    }
  }

  /** Strictly ascending in `order`. */
  ghost predicate Ascending(spans: seq<Span>, list: seq<SpanIdx>) {
    && (forall q: nat :: q < |list| ==> list[q] < |spans|)
    && (forall p: nat, q: nat :: p < q < |list| ==> spans[list[p]].order < spans[list[q]].order)
  }

  /** What is picked from ordered entries stays in order. */
  lemma {:induction false} PickAscends(spans: seq<Span>, entries: seq<Entry>, d: nat)
    requires forall e: Entry :: e in entries && e.doc == d ==> e.idx < |spans| && spans[e.idx].order == e.order
    requires forall i, j :: 0 <= i < j < |entries| && entries[i].doc == d && entries[j].doc == d ==>
               entries[i].order < entries[j].order
    ensures Ascending(spans, Pick(entries, d))
  {
    if entries != [] {
      var front, last := entries[..|entries| - 1], entries[|entries| - 1];
      PickAscends(spans, front, d);
      if last.doc == d {
        var r := Pick(front, d);
        forall p: nat | p < |r| ensures spans[r[p]].order < spans[last.idx].order {
          PickMembers(front, d, r[p]);
          var e: Entry :| e in front && e.doc == d && e.idx == r[p];
          var i: nat :| i < |front| && front[i] == e;
          assert entries[i].order < entries[|entries| - 1].order;
        }
      }
    }
  }

  lemma {:induction false} SameHead(spans: seq<Span>, a: seq<SpanIdx>, b: seq<SpanIdx>)
    requires Ascending(spans, a) && Ascending(spans, b) && a != [] && b != [] && a[0] in b && b[0] in a
    ensures a[0] == b[0]
  {
    var i: nat :| i < |b| && b[i] == a[0];
    var k: nat :| k < |a| && a[k] == b[0];
    HeadIsLeast(spans, b, i);
    HeadIsLeast(spans, a, k);
  }

  lemma {:induction false} HeadIsLeast(spans: seq<Span>, a: seq<SpanIdx>, q: nat)
    requires Ascending(spans, a) && q < |a|
    ensures spans[a[0]].order <= spans[a[q]].order
    ensures spans[a[0]].order == spans[a[q]].order ==> q == 0
  {
    if q > 0 {
      assert spans[a[0]].order < spans[a[q]].order;
    }
  }

  /** Two ascending lists of the same spans are one. */
  lemma {:induction false} AscendingUnique(spans: seq<Span>, a: seq<SpanIdx>, b: seq<SpanIdx>)
    requires Ascending(spans, a) && Ascending(spans, b) && forall j: SpanIdx :: j in a <==> j in b
    ensures a == b
  {
    if a != [] {
      assert a[0] in b;
    }
    if b != [] {
      assert b[0] in a;
    }
    if a != [] {
      SameHead(spans, a, b);
      NotAgain(spans, a);
      NotAgain(spans, b);
      forall j: SpanIdx ensures j in a[1..] <==> j in b[1..] {
        RestOf(a, j);
        RestOf(b, j);
      }
      AscendingUnique(spans, a[1..], b[1..]);
      assert a == [a[0]] + a[1..] && b == [b[0]] + b[1..];
    }
  }

  lemma {:induction false} RestOf(a: seq<SpanIdx>, j: SpanIdx)
    requires a != [] && a[0] !in a[1..]
    ensures j in a[1..] <==> j in a && j != a[0]
  {
    assert a == [a[0]] + a[1..];
  }

  lemma {:induction false} NotAgain(spans: seq<Span>, a: seq<SpanIdx>)
    requires Ascending(spans, a) && a != []
    ensures a[0] !in a[1..]
  {
    forall q | 0 <= q < |a[1..]| ensures a[1..][q] != a[0] {
      assert spans[a[0]].order < spans[a[q + 1]].order;
    }
  }

  /** Ordering the entries of a listed store: by document, then strictly by position. */
  lemma {:induction false} OrderedStrict(spans: seq<Span>, docIndex: map<string, nat>, docSpans: seq<seq<SpanIdx>>)
    requires Listed(docIndex, spans, docSpans)
    ensures var o := Ordered(Entries(spans, docIndex, |spans|));
            && (forall e: Entry :: e in o <==> e in Entries(spans, docIndex, |spans|))
            && forall i, j :: 0 <= i < j < |o| && o[i].doc == o[j].doc ==> o[i].order < o[j].order
  {
    hide Listed, Entries;
    var le := (a: Entry, b: Entry) => EntryLe(a, b);
    var s := Entries(spans, docIndex, |spans|);
    var o := Ordered(s);
    assert TotalPreorder(le);
    SortSorted(le, s);
    SortMembers(le, s);
    SortPermutes(le, s);
    EntriesDistinct(spans, docIndex, |spans|);
    DistinctPermutes(s, o);
    forall e: Entry ensures e in o <==> e in s {
      assert e in Sort(le, s) <==> e in s;
    }
    forall i, j | 0 <= i < j < |o| && o[i].doc == o[j].doc ensures o[i].order < o[j].order {
      assert le(o[i], o[j]);
      assert o[i] in o && o[j] in o;
      EntriesAre(spans, docIndex, |spans|, o[i]);
      EntriesAre(spans, docIndex, |spans|, o[j]);
      SamePlace(spans, docIndex, docSpans, o[i], o[j]);
    }
  }

  /** One place holds one span. */
  lemma {:induction false} SamePlace(
    spans: seq<Span>, docIndex: map<string, nat>, docSpans: seq<seq<SpanIdx>>, a: Entry, b: Entry)
    requires Listed(docIndex, spans, docSpans)
    requires a.idx < |spans| && spans[a.idx].docId in docIndex && a.doc == docIndex[spans[a.idx].docId] && a.order == spans[a.idx].order
    requires b.idx < |spans| && spans[b.idx].docId in docIndex && b.doc == docIndex[spans[b.idx].docId] && b.order == spans[b.idx].order
    ensures a.doc == b.doc && a.order == b.order ==> a == b
  {
  }

  /** `restore` rebuilds the span lists the store had. */
  lemma {:induction false} RebuiltSame(
    documents: seq<Document>, spans: seq<Span>, docIndex: map<string, nat>, docSpans: seq<seq<SpanIdx>>)
    requires DocsIndexed(documents, docIndex) && Listed(docIndex, spans, docSpans) && |docSpans| == |documents|
    ensures Rebuilt(documents, spans, docIndex) == docSpans
  {
    hide Ordered, Entries, Pick, DocsIndexed;
    var o := Ordered(Entries(spans, docIndex, |spans|));
    OrderedStrict(spans, docIndex, docSpans);
    forall d: nat | d < |documents| ensures Pick(o, d) == docSpans[d] {
      PickIs(spans, docIndex, docSpans, o, d);
    }
  }

  lemma {:induction false} PickIs(
    spans: seq<Span>, docIndex: map<string, nat>, docSpans: seq<seq<SpanIdx>>, o: seq<Entry>, d: nat)
    requires Listed(docIndex, spans, docSpans) && d < |docSpans|
    requires forall e: Entry :: e in o <==> e in Entries(spans, docIndex, |spans|)
    requires forall i, j :: 0 <= i < j < |o| && o[i].doc == o[j].doc ==> o[i].order < o[j].order
    ensures Pick(o, d) == docSpans[d]
  {
    hide Entries, Pick;
    forall e: Entry | e in o && e.doc == d ensures e.idx < |spans| && spans[e.idx].order == e.order {
      EntriesAre(spans, docIndex, |spans|, e);
    }
    PickAscends(spans, o, d);
    forall j: SpanIdx ensures j in Pick(o, d) <==> j in docSpans[d] {
      PickMembers(o, d, j);
      if j in docSpans[d] {
        var q: nat :| q < |docSpans[d]| && docSpans[d][q] == j;
        var e := Entry(d, q, j);
        EntriesAre(spans, docIndex, |spans|, e);
        assert e in o;
      }
      if j in Pick(o, d) {
        var e: Entry :| e in o && e.doc == d && e.idx == j;
        EntriesAre(spans, docIndex, |spans|, e);
        assert docSpans[d][spans[j].order] == j;
      }
    }
    AscendingUnique(spans, Pick(o, d), docSpans[d]);
  }

  // ---- the program --------------------------------------------------------

  class RawStore {
    const maxSpanChars: nat
    const docName: string -> string
    const spanName: (string, nat, nat) -> string
    var documents: seq<Document>
    var docIndex: map<string, nat>
    var spans: seq<Span>
    var spanIndex: map<string, SpanIdx>
    var docSpans: seq<seq<SpanIdx>>

    /** Every span is named after its place. */
    ghost predicate Named()
      reads this
    {
      forall j: nat :: j < |spans| ==> spans[j].id == spanName(spans[j].docId, spans[j].start, spans[j].end)
    }

    ghost predicate Fits()
      reads this
    {
      forall j: nat :: j < |spans| ==> SpanFits(documents, docIndex, spans[j])
    }

    /** Every document's spans are its chunks. */
    ghost predicate Chunked()
      reads this
    {
      && |docSpans| == |documents|
      && (forall d: nat, q: nat :: d < |docSpans| && q < |docSpans[d]| ==> docSpans[d][q] < |spans|)
      && forall d: nat :: d < |docSpans| ==>
           IsChunking(Utf8.Encode(documents[d].text), maxSpanChars, RangesOf(spans, docSpans[d]))
    }

    ghost predicate Valid()
      reads this
    {
      && DocsIndexed(documents, docIndex) && SpansIndexed(spans, spanIndex)
      && Listed(docIndex, spans, docSpans) && Named() && Fits() && Chunked()
    }

    constructor (max: nat, names: string -> string, places: (string, nat, nat) -> string)
      ensures Valid() && documents == [] && spans == []
    {
      maxSpanChars, docName, spanName := max, names, places;
      documents, docIndex, spans, spanIndex, docSpans := [], map[], [], map[], [];
    }

    /** The bytes a span id stands for; `text_of` trims them. */
    ghost function TextOf(id: string): Option<seq<u8>>
      requires Valid()
      reads this
    {
      if id in spanIndex then
        var s := spans[spanIndex[id]];
        assert SpanFits(documents, docIndex, s);
        Some(Utf8.Encode(documents[docIndex[s.docId]].text)[s.start..s.end])
      else None
    }

    /** `add_document`. */
    method AddDocument(text: string, given: Option<string>, source: Option<string>, clock: Clock)
      returns (r: Result<seq<SpanIdx>, string>)
      requires Valid()
      requires var id := if given.Some? then given.value else docName(text);
               id !in docIndex ==> forall pieces: seq<Range> ::
                   IsChunking(Utf8.Encode(text), maxSpanChars, pieces) ==> NoClash(spanName, spanIndex, id, pieces)
      modifies this, clock
      ensures Valid()
      ensures var id := if given.Some? then given.value else docName(text);
              if id in old(docIndex) then
                && documents == old(documents) && spans == old(spans) && docSpans == old(docSpans)
                && spanIndex == old(spanIndex) && docIndex == old(docIndex) && clock.now == old(clock.now)
                && r == (if old(documents)[old(docIndex)[id]].text == text then Ok(old(docSpans)[old(docIndex)[id]])
                         else Err(id))
              else
                && documents == old(documents) + [Document(id, text, old(clock.now) + 1, source)]
                && r.Ok? && docSpans == old(docSpans) + [r.value]
      ensures old(documents) <= documents && old(spans) <= spans
      ensures forall id: string :: id in old(spanIndex) ==> id in spanIndex && TextOf(id) == old(TextOf(id))
    {
      hide DocsIndexed, Valid, TextOf;
      var id := if given.Some? then given.value else docName(text);
      ValidDocs();
      if id in docIndex {
        var existing := docIndex[id];
        IndexOf(documents, docIndex, id);
        if documents[existing].text != text {
          return Err(id);
        }
        return Ok(docSpans[existing]);
      }
      var ids := Enter(id, text, source, clock);
      r := Ok(ids);
    }

    lemma {:induction false} ValidDocs()
      requires Valid()
      ensures DocsIndexed(documents, docIndex) && |docSpans| == |documents|
    {
      hide DocsIndexed, SpansIndexed, Listed, SpanFits, IsChunking, Named, Fits;
    }

    /** A document under a new id. */
    method Enter(id: string, text: string, source: Option<string>, clock: Clock) returns (ids: seq<SpanIdx>)
      requires Valid() && id !in docIndex
      requires forall pieces: seq<Range> :: IsChunking(Utf8.Encode(text), maxSpanChars, pieces) ==>
                 NoClash(spanName, spanIndex, id, pieces)
      modifies this, clock
      ensures Valid()
      ensures documents == old(documents) + [Document(id, text, old(clock.now) + 1, source)]
      ensures docSpans == old(docSpans) + [ids]
      ensures old(spans) <= spans
      ensures forall id: string :: id in old(spanIndex) ==> id in spanIndex && TextOf(id) == old(TextOf(id))
    {
      hide DocsIndexed, SpansIndexed, Listed, SpanFits, IsChunking, NoClash;
      var ts := clock.Tick();
      var pieces := Chunk(Utf8.Encode(text), maxSpanChars);
      ghost var doc := Document(id, text, ts, source);
      ghost var before := (documents, docIndex, spans, spanIndex, docSpans);
      documents := documents + [Document(id, text, ts, source)];
      docIndex := docIndex[id := |documents| - 1];
      ids := AppendSpans(id, ts, pieces);
      docSpans := docSpans + [ids];
      DocAdded(before.0, before.1, doc);
      ListedMore(before.1, before.2, before.4, id, ts, pieces, spanName);
      FitsMore(before.0, before.1, before.2, doc, pieces, spanName, maxSpanChars);
      ChunkedMore(before.0, before.2, before.4, doc, pieces, spanName, maxSpanChars);
      assert spans == before.2 + NewSpans(id, ts, pieces, spanName);
      assert Chunked();
      forall k: string | k in before.3 ensures k in spanIndex && TextOf(k) == old(TextOf(k)) {
        SameSpan(before.2, before.3, spans, spanIndex, k);
        assert SpanFits(before.0, before.1, before.2[before.3[k]]);
        SameDoc(before.0, before.1, doc, before.2[before.3[k]]);
      }
    }

    /** One span per chunk, numbered as they come. */
    method AppendSpans(id: string, ts: nat, pieces: seq<Range>) returns (ids: seq<SpanIdx>)
      requires SpansIndexed(spans, spanIndex) && Named() && NoClash(spanName, spanIndex, id, pieces)
      modifies this`spans, this`spanIndex
      ensures spans == old(spans) + NewSpans(id, ts, pieces, spanName)
      ensures ids == NewIds(|old(spans)|, |pieces|)
      ensures SpansIndexed(spans, spanIndex) && Named()
    {
      hide SpansIndexed;
      ids := [];
      ghost var added := NewSpans(id, ts, pieces, spanName);
      for q := 0 to |pieces|
        invariant spans == old(spans) + added[..q] && ids == NewIds(|old(spans)|, q)
        invariant SpansIndexed(spans, spanIndex) && Named()
        invariant forall p: nat :: q <= p < |pieces| ==> spanName(id, pieces[p].0, pieces[p].1) !in spanIndex
      {
        var (start, end) := pieces[q];
        var name := spanName(id, start, end);
        SpanAdded(spans, spanIndex, added[q]);
        var idx := |spans|;
        spans := spans + [Span(name, id, start, end, q, ts)];
        spanIndex := spanIndex[name := idx];
        ids := ids + [idx];
        assert added[..q + 1] == added[..q] + [added[q]];
      }
      assert added[..|pieces|] == added;
    }

    /** `restore`: rebuild every index from the documents and the spans. */
    method Restore(docs: seq<Document>, found: seq<Span>)
      modifies this
      ensures documents == docs && spans == found
      ensures docIndex == LastDocs(docs, |docs|) && spanIndex == LastSpans(found, |found|)
      ensures docSpans == Rebuilt(docs, found, docIndex)
    {
      hide Ordered;
      documents, spans := docs, found;
      docIndex, spanIndex := map[], map[];
      for d := 0 to |docs|
        invariant docIndex == LastDocs(docs, d) && documents == docs && spans == found && spanIndex == map[]
      {
        docIndex := docIndex[docs[d].id := d];
      }
      for j := 0 to |found|
        invariant spanIndex == LastSpans(found, j) && documents == docs && spans == found
        invariant docIndex == LastDocs(docs, |docs|)
      {
        spanIndex := spanIndex[found[j].id := j];
      }
      var entries := ListEntries();
      var sorted := Ordered(entries);
      docSpans := Distribute(sorted, |docs|);
    }

    /** The spans whose document is known, with their place. */
    method ListEntries() returns (entries: seq<Entry>)
      ensures entries == Entries(spans, docIndex, |spans|)
    {
      entries := [];
      for n := 0 to |spans|
        invariant entries == Entries(spans, docIndex, n)
      {
        if spans[n].docId in docIndex {
          entries := entries + [Entry(docIndex[spans[n].docId], spans[n].order, n)];
        } else {
          assert entries + [] == entries;
        }
      }
    }
  }

  /** Each entry to its document's list. */
  method Distribute(sorted: seq<Entry>, count: nat) returns (lists: seq<seq<SpanIdx>>)
    ensures |lists| == count && forall d: nat :: d < count ==> lists[d] == Pick(sorted, d)
  {
    lists := seq(count, _ => []);
    for n := 0 to |sorted|
      invariant |lists| == count && forall d: nat :: d < count ==> lists[d] == Pick(sorted[..n], d)
    {
      var Entry(d, _, idx) := sorted[n];
      assert sorted[..n + 1][..n] == sorted[..n];
      forall c: nat | c < count ensures Pick(sorted[..n + 1], c) == lists[c] + if c == d then [idx] else [] {
        assert lists[c] + [] == lists[c];
      }
      if d < count {
        lists := lists[d := lists[d] + [idx]];
      }
    }
    assert sorted[..|sorted|] == sorted;
  }

  /** The last document of every id. */
  function LastDocs(documents: seq<Document>, n: nat): map<string, nat>
    requires n <= |documents|
  {
    if n == 0 then map[] else LastDocs(documents, n - 1)[documents[n - 1].id := n - 1]
  }

  function LastSpans(spans: seq<Span>, n: nat): map<string, SpanIdx>
    requires n <= |spans|
  {
    if n == 0 then map[] else LastSpans(spans, n - 1)[spans[n - 1].id := n - 1]
  }

  lemma {:induction false} LastDocsAre(documents: seq<Document>, n: nat, id: string)
    requires n <= |documents|
    ensures id in LastDocs(documents, n) <==> exists d: nat :: d < n && documents[d].id == id
    ensures id in LastDocs(documents, n) ==>
              LastDocs(documents, n)[id] < n && documents[LastDocs(documents, n)[id]].id == id
  {
    if n > 0 {
      LastDocsAre(documents, n - 1, id);
    }
  }

  lemma {:induction false} LastSpansAre(spans: seq<Span>, n: nat, id: string)
    requires n <= |spans|
    ensures id in LastSpans(spans, n) <==> exists j: nat :: j < n && spans[j].id == id
    ensures id in LastSpans(spans, n) ==> LastSpans(spans, n)[id] < n && spans[LastSpans(spans, n)[id]].id == id
  {
    if n > 0 {
      LastSpansAre(spans, n - 1, id);
    }
  }

  /** Restoring what a store held gives back every index it had. */
  lemma {:induction false} RestoreRebuilds(
    documents: seq<Document>, docIndex: map<string, nat>, spans: seq<Span>, spanIndex: map<string, SpanIdx>,
    docSpans: seq<seq<SpanIdx>>)
    requires DocsIndexed(documents, docIndex) && SpansIndexed(spans, spanIndex)
    requires Listed(docIndex, spans, docSpans) && |docSpans| == |documents|
    ensures LastDocs(documents, |documents|) == docIndex && LastSpans(spans, |spans|) == spanIndex
    ensures Rebuilt(documents, spans, LastDocs(documents, |documents|)) == docSpans
  {
    hide Rebuilt, Listed, LastDocs, LastSpans;
    var found, named := LastDocs(documents, |documents|), LastSpans(spans, |spans|);
    forall id: string
      ensures id in found <==> id in docIndex
      ensures id in found && id in docIndex ==> found[id] == docIndex[id]
    {
      LastDocsAre(documents, |documents|, id);
    }
    forall id: string
      ensures id in named <==> id in spanIndex
      ensures id in named && id in spanIndex ==> named[id] == spanIndex[id]
    {
      LastSpansAre(spans, |spans|, id);
    }
    assert found == docIndex && named == spanIndex;
    RebuiltSame(documents, spans, docIndex, docSpans);
  }

  // ---- adding a document --------------------------------------------------

  function NewSpans(id: string, ts: nat, pieces: seq<Range>, spanName: (string, nat, nat) -> string): (r: seq<Span>)
    ensures |r| == |pieces|
    ensures forall q: nat :: q < |r| ==>
              r[q] == Span(spanName(id, pieces[q].0, pieces[q].1), id, pieces[q].0, pieces[q].1, q, ts)
  {
    seq(|pieces|, q requires 0 <= q < |pieces| =>
      Span(spanName(id, pieces[q].0, pieces[q].1), id, pieces[q].0, pieces[q].1, q, ts))
  }

  function NewIds(base: nat, n: nat): (r: seq<SpanIdx>)
    ensures |r| == n && forall q: nat :: q < n ==> r[q] == base + q
  {
    seq(n, q requires 0 <= q < n => base + q)
  }

  lemma {:induction false} SpanAdded(spans: seq<Span>, spanIndex: map<string, SpanIdx>, s: Span)
    requires SpansIndexed(spans, spanIndex) && s.id !in spanIndex
    ensures SpansIndexed(spans + [s], spanIndex[s.id := |spans|])
  {
  }

  lemma {:induction false} DocAdded(documents: seq<Document>, docIndex: map<string, nat>, doc: Document)
    requires DocsIndexed(documents, docIndex) && doc.id !in docIndex
    ensures DocsIndexed(documents + [doc], docIndex[doc.id := |documents|])
  {
  }

  lemma {:induction false} ListedMore(
    docIndex: map<string, nat>, spans: seq<Span>, docSpans: seq<seq<SpanIdx>>, id: string, ts: nat,
    pieces: seq<Range>, spanName: (string, nat, nat) -> string)
    requires Listed(docIndex, spans, docSpans) && id !in docIndex
    ensures Listed(docIndex[id := |docSpans|], spans + NewSpans(id, ts, pieces, spanName),
                   docSpans + [NewIds(|spans|, |pieces|)])
  {
    var added, ids := NewSpans(id, ts, pieces, spanName), NewIds(|spans|, |pieces|);
    var index, all, lists := docIndex[id := |docSpans|], spans + added, docSpans + [ids];
    forall j: nat | j < |all|
      ensures all[j].docId in index && all[j].order < |lists[index[all[j].docId]]|
      ensures lists[index[all[j].docId]][all[j].order] == j
    {
      if j >= |spans| {
        assert all[j] == added[j - |spans|];
      } else {
        assert all[j] == spans[j];
      }
    }
    forall d: nat, q: nat | d < |lists| && q < |lists[d]|
      ensures lists[d][q] < |all| && all[lists[d][q]].docId in index
      ensures index[all[lists[d][q]].docId] == d && all[lists[d][q]].order == q
    {
      if d < |docSpans| {
        assert all[docSpans[d][q]] == spans[docSpans[d][q]];
      } else {
        assert all[|spans| + q] == added[q];
      }
    }
  }

  lemma {:induction false} StillFits(documents: seq<Document>, docIndex: map<string, nat>, doc: Document, s: Span)
    requires SpanFits(documents, docIndex, s) && doc.id !in docIndex
    ensures SpanFits(documents + [doc], docIndex[doc.id := |documents|], s)
  {
  }

  lemma {:induction false} FitsMore(
    documents: seq<Document>, docIndex: map<string, nat>, spans: seq<Span>, doc: Document, pieces: seq<Range>,
    spanName: (string, nat, nat) -> string, max: nat)
    requires doc.id !in docIndex && forall j: nat :: j < |spans| ==> SpanFits(documents, docIndex, spans[j])
    requires IsChunking(Utf8.Encode(doc.text), max, pieces)
    ensures var all := spans + NewSpans(doc.id, doc.ts, pieces, spanName);
            forall j: nat :: j < |all| ==> SpanFits(documents + [doc], docIndex[doc.id := |documents|], all[j])
  {
    hide IsChunking, SpanFits, WellFormed;
    var added := NewSpans(doc.id, doc.ts, pieces, spanName);
    var all := spans + added;
    forall j: nat | j < |all| ensures SpanFits(documents + [doc], docIndex[doc.id := |documents|], all[j]) {
      if j < |spans| {
        StillFits(documents, docIndex, doc, spans[j]);
      } else {
        NewFits(documents, docIndex, doc, pieces, max, added[j - |spans|], j - |spans|);
        assert all[j] == added[j - |spans|];
      }
    }
  }

  lemma {:induction false} NewFits(
    documents: seq<Document>, docIndex: map<string, nat>, doc: Document, pieces: seq<Range>, max: nat, s: Span, q: nat)
    requires IsChunking(Utf8.Encode(doc.text), max, pieces) && q < |pieces|
    requires s.docId == doc.id && (s.start, s.end) == pieces[q]
    ensures SpanFits(documents + [doc], docIndex[doc.id := |documents|], s)
  {
    hide IsChunking, WellFormed;
    var t := Utf8.Encode(doc.text);
    EncodedWellFormed(doc.text);
    ChunksPartition(t, max, pieces);
    assert Boundary(t, pieces[q].0) && Boundary(t, pieces[q].1);
  }

  lemma {:induction false} ChunkedMore(
    documents: seq<Document>, spans: seq<Span>, docSpans: seq<seq<SpanIdx>>, doc: Document, pieces: seq<Range>,
    spanName: (string, nat, nat) -> string, max: nat)
    requires |docSpans| == |documents|
    requires forall d: nat, q: nat :: d < |docSpans| && q < |docSpans[d]| ==> docSpans[d][q] < |spans|
    requires forall d: nat :: d < |docSpans| ==>
               IsChunking(Utf8.Encode(documents[d].text), max, RangesOf(spans, docSpans[d]))
    requires IsChunking(Utf8.Encode(doc.text), max, pieces)
    ensures var docs, all := documents + [doc], spans + NewSpans(doc.id, doc.ts, pieces, spanName);
            var lists := docSpans + [NewIds(|spans|, |pieces|)];
            && (forall d: nat, q: nat :: d < |lists| && q < |lists[d]| ==> lists[d][q] < |all|)
            && forall d: nat :: d < |lists| ==>
                 IsChunking(Utf8.Encode(docs[d].text), max, RangesOf(all, lists[d]))
  {
    hide IsChunking;
    var docs, added := documents + [doc], NewSpans(doc.id, doc.ts, pieces, spanName);
    var all, lists := spans + added, docSpans + [NewIds(|spans|, |pieces|)];
    forall d: nat | d < |lists|
      ensures (forall q: nat :: q < |lists[d]| ==> lists[d][q] < |all|)
              && IsChunking(Utf8.Encode(docs[d].text), max, RangesOf(all, lists[d]))
    {
      if d < |docSpans| {
        assert RangesOf(all, lists[d]) == RangesOf(spans, docSpans[d]);
      } else {
        forall q: nat | q < |pieces| ensures RangeOf(all[lists[d][q]]) == pieces[q] {
          assert all[|spans| + q] == added[q];
        }
        assert RangesOf(all, lists[d]) == pieces;
      }
    }
  }

  lemma {:induction false} SameSpan(
    spans: seq<Span>, spanIndex: map<string, SpanIdx>, spans': seq<Span>, spanIndex': map<string, SpanIdx>, id: string)
    requires SpansIndexed(spans, spanIndex) && SpansIndexed(spans', spanIndex') && spans <= spans' && id in spanIndex
    ensures spanIndex[id] < |spans| && id in spanIndex' && spanIndex'[id] == spanIndex[id] && spans'[spanIndex'[id]] == spans[spanIndex[id]]
  {
    var j := spanIndex[id];
    assert spans'[j] == spans[j];
  }

  lemma {:induction false} SameDoc(documents: seq<Document>, docIndex: map<string, nat>, doc: Document, s: Span)
    requires SpanFits(documents, docIndex, s) && doc.id !in docIndex
    ensures s.docId in docIndex && s.docId != doc.id
    ensures (documents + [doc])[docIndex[doc.id := |documents|][s.docId]] == documents[docIndex[s.docId]]
  {
  }

  lemma {:induction false} IndexOf(documents: seq<Document>, docIndex: map<string, nat>, id: string)
    requires DocsIndexed(documents, docIndex) && id in docIndex
    ensures docIndex[id] < |documents| && documents[docIndex[id]].id == id
  {
  }
}
