/**
 The chunker (`RawStore::chunk`, src/spans.rs): paragraphs, hard-wrapped at sentence
 boundaries when they are longer than the limit.
 */
module Chunking {
  import opened Bytes
  import Chars
  import opened Text
  import Utf8

  /** `chars().count()`. */
  function CharCount(t: seq<u8>): nat {
    if t == [] then 0 else CharCount(t[..|t| - 1]) + if Continuation(t[|t| - 1]) then 0 else 1
  }

  /** `trim().is_empty()`, decoding as it goes. */
  predicate Blank(t: seq<u8>)
    decreases |t|
  {
    t == [] ||
    var w := Utf8.Width(t[0]);
    w <= |t| && Chars.IsWhiteScalar(Utf8.Scalar(t[..w])) && Blank(t[w..])
  }

  /** On encoded text, exactly when every character is white space. */
  lemma {:induction false} BlankIsBlank(s: string)
    ensures Blank(Utf8.Encode(s)) <==> Chars.IsBlank(s)
  {
    hide Utf8.EncodeChar, Utf8.EncodeLast, Utf8.Encode, Utf8.Scalar, Utf8.Width, Chars.IsWhiteScalar;
    Utf8.EncodeEmpty(s);
    if s != "" {
      var head, t := Utf8.EncodeChar(s[0]), Utf8.Encode(s);
      Utf8.EncodeFront(s);
      Utf8.WidthOf(s[0]);
      Utf8.ScalarOfEncoding(s[0]);
      assert t[0] == head[0] && t[..|head|] == head && t[|head|..] == Utf8.Encode(s[1..]);
      BlankIsBlank(s[1..]);
      assert s == [s[0]] + s[1..];
      assert Chars.IsBlank(s) <==> Chars.IsWhitespace(s[0]) && Chars.IsBlank(s[1..]) by {
        if Chars.IsWhitespace(s[0]) && Chars.IsBlank(s[1..]) {
          forall i | 0 <= i < |s| ensures Chars.IsWhitespace(s[i]) {
            assert i > 0 ==> s[i] == s[1..][i - 1];
          }
        }
        if Chars.IsBlank(s) {
          forall i | 0 <= i < |s[1..]| ensures Chars.IsWhitespace(s[1..][i]) {
            assert s[1..][i] == s[i + 1];
          }
        }
      }
    }
  }

  // ---- wrapping a long block ----------------------------------------------

  /** The characters of a sentence. */
  function Length(block: seq<u8>, e: Range): nat {
    if e.0 <= e.1 <= |block| then CharCount(block[e.0..e.1]) else 0
  }

  /** What sentences `p` to `q` count for: their characters and one for each. */
  function Load(block: seq<u8>, r: seq<Range>, p: nat, q: nat): nat
    requires q <= |r|
  {
    if q <= p then 0 else Load(block, r, p, q - 1) + Length(block, r[q - 1]) + 1
  }

  /** The sentence a piece starts with. */
  function First(cuts: seq<nat>, k: nat): nat
    requires k <= |cuts|
  {
    if k == 0 then 0 else cuts[k - 1]
  }

  /** Where it starts in the block. */
  function StartOf(r: seq<Range>, cuts: seq<nat>, k: nat): nat
    requires k <= |cuts| && forall i: nat :: i < |cuts| ==> cuts[i] < |r|
  {
    if k == 0 then 0 else r[cuts[k - 1]].0
  }

  ghost predicate CutsOk(r: seq<Range>, cuts: seq<nat>) {
    forall i: nat :: i < |cuts| ==> cuts[i] < |r|
  }

  /** Every sentence but the first of its piece fits with what is there before it. */
  ghost predicate Fits(block: seq<u8>, r: seq<Range>, max: nat, p: nat, q: nat)
    requires q <= |r|
  {
    forall k: nat :: p < k < q ==> Load(block, r, p, k) + Length(block, r[k]) <= max
  }

  /** A piece from sentence `p` on was full: sentence `q` did not fit. */
  ghost predicate FullAt(block: seq<u8>, r: seq<Range>, max: nat, p: nat, q: nat) {
    p <= q < |r| && Fits(block, r, max, p, q) && Load(block, r, p, q) + Length(block, r[q]) > max
  }

  /**
   The greedy wrapping: pieces start at the cuts, each holds as many whole sentences as
   fit, and a cut comes only where the next sentence did not.
   */
  ghost predicate Wrapped(block: seq<u8>, r: seq<Range>, max: nat, cuts: seq<nat>, q: nat)
    requires q <= |r|
  {
    && (forall i: nat :: i < |cuts| ==> FullAt(block, r, max, First(cuts, i), cuts[i]))
    && First(cuts, |cuts|) <= q && Fits(block, r, max, First(cuts, |cuts|), q)
  }

  lemma {:induction false} FitsNext(block: seq<u8>, r: seq<Range>, max: nat, p: nat, q: nat)
    requires q < |r| && Fits(block, r, max, p, q) && (p < q ==> Load(block, r, p, q) + Length(block, r[q]) <= max)
    ensures Fits(block, r, max, p, q + 1)
  {
    hide Load, Length;
  }

  lemma {:induction false} CutHere(block: seq<u8>, r: seq<Range>, max: nat, cuts: seq<nat>, n: nat)
    requires n < |r| && Wrapped(block, r, max, cuts, n)
    requires Load(block, r, First(cuts, |cuts|), n) + Length(block, r[n]) > max
    ensures Wrapped(block, r, max, cuts + [n], n)
  {
    hide FullAt, Load, Length, Fits;
    var more := cuts + [n];
    NowFull(block, r, max, First(cuts, |cuts|), n);
    forall i: nat | i < |more| ensures FullAt(block, r, max, First(more, i), more[i]) {
      assert First(more, i) == First(cuts, i);
    }
    FitsNone(block, r, max, n);
  }

  lemma {:induction false} NowFull(block: seq<u8>, r: seq<Range>, max: nat, p: nat, q: nat)
    requires p <= q < |r| && Fits(block, r, max, p, q) && Load(block, r, p, q) + Length(block, r[q]) > max
    ensures FullAt(block, r, max, p, q)
  {
  }

  lemma {:induction false} FitsNone(block: seq<u8>, r: seq<Range>, max: nat, n: nat)
    requires n <= |r|
    ensures Fits(block, r, max, n, n)
  {
  }

  /** The `k`-th piece of the block from `a` to `b`. */
  function Piece(r: seq<Range>, cuts: seq<nat>, a: nat, b: nat, k: nat): Range
    requires k <= |cuts| && forall i: nat :: i < |cuts| ==> cuts[i] < |r|
  {
    (a + StartOf(r, cuts, k), if k < |cuts| then a + StartOf(r, cuts, k + 1) else b)
  }

  /** All the pieces: from each start to the next, and from the last to the block's end. */
  function Pieces(r: seq<Range>, cuts: seq<nat>, a: nat, b: nat): (out: seq<Range>)
    requires forall i: nat :: i < |cuts| ==> cuts[i] < |r|
    ensures |out| == |cuts| + 1 && forall k: nat :: k < |out| ==> out[k] == Piece(r, cuts, a, b, k)
  {
    seq(|cuts| + 1, k requires 0 <= k <= |cuts| => Piece(r, cuts, a, b, k))
  }

  /** Sentence starts ascend. */
  lemma {:induction false} StartsAscend(r: seq<Range>, n: nat, p: nat, q: nat)
    requires InOrder(r, n) && p < q < |r|
    ensures r[p].0 < r[p].1 <= r[q].0
    decreases q - p
  {
    if p + 1 < q {
      StartsAscend(r, n, p + 1, q);
    }
  }

  /** A later sentence of the piece starts past the piece's start. */
  lemma {:induction false} PastStart(r: seq<Range>, len: nat, cuts: seq<nat>, n: nat)
    requires InOrder(r, len) && n < |r| && CutsOk(r, cuts) && First(cuts, |cuts|) < n
    ensures r[n].0 > StartOf(r, cuts, |cuts|)
  {
    StartsAscend(r, len, First(cuts, |cuts|), n);
  }

  /** The pieces already cut, and where the open one starts. */
  ghost predicate Cut(r: seq<Range>, cuts: seq<nat>, a: nat, b: nat, out: seq<Range>, bufStart: nat) {
    && CutsOk(r, cuts) && bufStart == StartOf(r, cuts, |cuts|)
    && |out| == |cuts| && forall k: nat :: k < |out| ==> out[k] == Piece(r, cuts, a, b, k)
  }

  /** Every cut moves on. */
  ghost predicate Rising(r: seq<Range>, cuts: seq<nat>) {
    CutsOk(r, cuts) && forall i: nat :: i < |cuts| ==> r[cuts[i]].0 > StartOf(r, cuts, i)
  }

  lemma {:induction false} CutNext(r: seq<Range>, cuts: seq<nat>, a: nat, b: nat, out: seq<Range>, bufStart: nat, n: nat)
    requires Cut(r, cuts, a, b, out, bufStart) && n < |r|
    ensures Cut(r, cuts + [n], a, b, out + [(a + bufStart, a + r[n].0)], r[n].0)
  {
    PiecesKept(r, cuts, n, a, b);
  }

  lemma {:induction false} CutLast(r: seq<Range>, cuts: seq<nat>, a: nat, b: nat, out: seq<Range>, bufStart: nat)
    requires Cut(r, cuts, a, b, out, bufStart)
    ensures out + [(a + bufStart, b)] == Pieces(r, cuts, a, b)
  {
    var all := out + [(a + bufStart, b)];
    forall k: nat | k < |all| ensures all[k] == Piece(r, cuts, a, b, k) {
      assert k < |out| ==> all[k] == out[k];
    }
  }

  lemma {:induction false} RisingNext(r: seq<Range>, cuts: seq<nat>, n: nat)
    requires Rising(r, cuts) && n < |r| && r[n].0 > StartOf(r, cuts, |cuts|)
    ensures Rising(r, cuts + [n])
  {
    hide StartOf;
    var more := cuts + [n];
    forall i: nat | i < |more| ensures more[i] < |r| {
      assert more[i] == if i < |cuts| then cuts[i] else n;
    }
    StartKept(r, cuts, n);
    forall i: nat | i < |more| ensures r[more[i]].0 > StartOf(r, more, i) {
      assert more[i] == if i < |cuts| then cuts[i] else n;
      assert StartOf(r, more, i) == StartOf(r, cuts, i);
    }
  }

  lemma {:induction false} StartKept(r: seq<Range>, cuts: seq<nat>, n: nat)
    requires n < |r| && CutsOk(r, cuts) && CutsOk(r, cuts + [n])
    ensures forall i: nat :: i <= |cuts| ==> StartOf(r, cuts + [n], i) == StartOf(r, cuts, i)
  {
  }

  /** Where the wrapping stands before sentence `n`. */
  ghost predicate Wrapping(block: seq<u8>, r: seq<Range>, max: nat, n: nat, cuts: seq<nat>, bufLen: nat) {
    && n <= |r| && InOrder(r, |block|) && Wrapped(block, r, max, cuts, n) && Rising(r, cuts)
    && (cuts == [] || First(cuts, |cuts|) < n)
    && bufLen == Load(block, r, First(cuts, |cuts|), n)
  }

  lemma {:induction false} WrappingStart(block: seq<u8>, r: seq<Range>, max: nat, a: nat, b: nat)
    requires Sentences(block, r)
    ensures Wrapping(block, r, max, 0, [], 0) && Cut(r, [], a, b, [], 0)
  {
    hide Sentences, Fits, FullAt, Piece, Length;
    SentencesInOrder(block, r);
    FitsNone(block, r, max, 0);
    LoadNone(block, r, 0);
  }

  /** The sentence starts a new piece. */
  lemma {:induction false} WrappingCuts(
    block: seq<u8>, r: seq<Range>, max: nat, n: nat, cuts: seq<nat>, bufLen: nat)
    requires Wrapping(block, r, max, n, cuts, bufLen) && n < |r|
    requires bufLen + Length(block, r[n]) > max && r[n].0 > StartOf(r, cuts, |cuts|)
    ensures Wrapping(block, r, max, n + 1, cuts + [n], Length(block, r[n]) + 1)
  {
    hide Length, Load, Wrapped, InOrder, Rising;
    WrappedFits(block, r, max, cuts, n);
    CutHere(block, r, max, cuts, n);
    WrappedNext(block, r, max, cuts + [n], n);
    RisingNext(r, cuts, n);
    LoadNone(block, r, n);
    LoadNext(block, r, n, n);
  }

  lemma {:induction false} WrappedFits(block: seq<u8>, r: seq<Range>, max: nat, cuts: seq<nat>, n: nat)
    requires n <= |r| && Wrapped(block, r, max, cuts, n)
    ensures First(cuts, |cuts|) <= n
  {
    hide Load, Length, Fits, FullAt;
  }

  /** The sentence joins the piece. */
  lemma {:induction false} WrappingKeeps(
    block: seq<u8>, r: seq<Range>, max: nat, n: nat, cuts: seq<nat>, bufLen: nat)
    requires Wrapping(block, r, max, n, cuts, bufLen) && n < |r| && CutsOk(r, cuts)
    requires !(bufLen + Length(block, r[n]) > max && r[n].0 > StartOf(r, cuts, |cuts|))
    ensures Wrapping(block, r, max, n + 1, cuts, bufLen + Length(block, r[n]) + 1)
  {
    hide Length, Load, Wrapped, Rising;
    WrappedFits(block, r, max, cuts, n);
    if First(cuts, |cuts|) < n {
      PastStart(r, |block|, cuts, n);
    }
    WrappedNext(block, r, max, cuts, n);
    LoadNext(block, r, First(cuts, |cuts|), n);
  }

  /** Sentence by sentence; a piece ends before the sentence that would overfill it. */
  method Wrap(t: seq<u8>, a: nat, b: nat, max: nat) returns (out: seq<Range>, ghost r: seq<Range>, ghost cuts: seq<nat>)
    requires a < b <= |t|
    ensures IsWrap(t[a..b], r, max, cuts) && out == Pieces(r, cuts, a, b)
  {
    hide Sentences, CharCount, Load, Fits, Wrapping, WellFormed, Wrapped, Rising;
    var block := t[a..b];
    var sentences := SentenceRanges(block);
    r := sentences;
    WrappingStart(block, r, max, a, b);
    out, cuts := [], [];
    var bufStart: nat, bufLen: nat := 0, 0;
    for n := 0 to |sentences|
      invariant Wrapping(block, r, max, n, cuts, bufLen) && Cut(r, cuts, a, b, out, bufStart)
    {
      var (s, e) := sentences[n];
      SentencesInOrder(block, r);
      var length := CharCount(block[s..e]);
      if bufLen + length > max && s > bufStart {
        WrappingCuts(block, r, max, n, cuts, bufLen);
        CutNext(r, cuts, a, b, out, bufStart, n);
        out := out + [(a + bufStart, a + s)];
        cuts := cuts + [n];
        bufStart, bufLen := s, 0;
      } else {
        WrappingKeeps(block, r, max, n, cuts, bufLen);
      }
      bufLen := bufLen + length + 1;
    }
    CutLast(r, cuts, a, b, out, bufStart);
    WrappingEnds(block, r, max, cuts, bufLen);
    out := out + [(a + bufStart, b)];
  }

  lemma {:induction false} WrappingEnds(block: seq<u8>, r: seq<Range>, max: nat, cuts: seq<nat>, bufLen: nat)
    requires Wrapping(block, r, max, |r|, cuts, bufLen)
    requires Sentences(block, r) && (WellFormed(block) ==> OnBoundaries(r, block))
    ensures IsWrap(block, r, max, cuts)
  {
    hide Sentences, Wrapped, WellFormed, Load, First, Rising;
  }

  lemma {:induction false} SentencesInOrder(t: seq<u8>, r: seq<Range>)
    requires Sentences(t, r)
    ensures InOrder(r, |t|)
  {
    hide Sentence, Break, Spaces;
  }

  lemma {:induction false} WrappedNext(block: seq<u8>, r: seq<Range>, max: nat, cuts: seq<nat>, n: nat)
    requires n < |r| && Wrapped(block, r, max, cuts, n)
    requires First(cuts, |cuts|) < n ==> Load(block, r, First(cuts, |cuts|), n) + Length(block, r[n]) <= max
    ensures Wrapped(block, r, max, cuts, n + 1)
  {
    hide Load, Length, Fits, FullAt;
    FitsNext(block, r, max, First(cuts, |cuts|), n);
  }

  lemma {:induction false} LoadNone(block: seq<u8>, r: seq<Range>, n: nat)
    requires n <= |r|
    ensures Load(block, r, n, n) == 0
  {
  }

  lemma {:induction false} LoadNext(block: seq<u8>, r: seq<Range>, p: nat, n: nat)
    requires p <= n < |r|
    ensures Load(block, r, p, n + 1) == Load(block, r, p, n) + Length(block, r[n]) + 1
  {
  }

  lemma {:induction false} PiecesKept(r: seq<Range>, cuts: seq<nat>, n: nat, a: nat, b: nat)
    requires n < |r| && CutsOk(r, cuts)
    ensures CutsOk(r, cuts + [n])
    ensures forall k: nat :: k < |cuts| ==> Piece(r, cuts + [n], a, b, k) == Piece(r, cuts, a, b, k)
    ensures Piece(r, cuts + [n], a, b, |cuts|) == (a + StartOf(r, cuts, |cuts|), a + r[n].0)
    ensures forall i: nat :: i < |cuts| ==> StartOf(r, cuts + [n], i) == StartOf(r, cuts, i)
  {
  }

  // ---- the whole text -----------------------------------------------------

  /** What one paragraph becomes: nothing if blank, itself if it fits, the greedy pieces otherwise. */
  ghost predicate PartOf(t: seq<u8>, max: nat, e: Range, part: seq<Range>)
    requires e.0 < e.1 <= |t|
  {
    var block := t[e.0..e.1];
    if CharCount(block) <= max then part == if Blank(block) then [] else [e]
    else exists r: seq<Range>, cuts: seq<nat> :: Wraps(block, r, max, cuts, e, part)
  }

  ghost predicate Wraps(block: seq<u8>, r: seq<Range>, max: nat, cuts: seq<nat>, e: Range, part: seq<Range>) {
    IsWrap(block, r, max, cuts) && part == Pieces(r, cuts, e.0, e.1)
  }

  ghost predicate IsWrap(block: seq<u8>, r: seq<Range>, max: nat, cuts: seq<nat>) {
    && Sentences(block, r) && Rising(r, cuts) && Wrapped(block, r, max, cuts, |r|)
    && (WellFormed(block) ==> OnBoundaries(r, block))
  }

  function Joined(parts: seq<seq<Range>>): seq<Range> {
    if parts == [] then [] else Joined(parts[..|parts| - 1]) + parts[|parts| - 1]
  }

  ghost predicate Parts(t: seq<u8>, max: nat, paras: seq<Range>, parts: seq<seq<Range>>) {
    && |parts| <= |paras| && InOrder(paras, |t|)
    && forall i: nat :: i < |parts| ==> PartOf(t, max, paras[i], parts[i])
  }

  /** The chunks of a text under a limit. */
  ghost predicate IsChunking(t: seq<u8>, max: nat, out: seq<Range>) {
    exists paras: seq<Range>, parts: seq<seq<Range>> ::
      Paragraphs(t, paras) && |parts| == |paras| && Parts(t, max, paras, parts) && out == Joined(parts)
      && (WellFormed(t) ==> OnBoundaries(paras, t))
  }

  method Chunk(t: seq<u8>, max: nat) returns (out: seq<Range>)
    ensures IsChunking(t, max, out)
  {
    hide Paragraphs, WellFormed, CharCount, PartOf, Joined;
    var paras := ParagraphRanges(t);
    ParagraphsInOrder(t, paras);
    ghost var parts: seq<seq<Range>> := [];
    out := [];
    JoinedNone();
    for n := 0 to |paras|
      invariant |parts| == n && Parts(t, max, paras, parts) && out == Joined(parts)
    {
      var part := ChunkParagraph(t, max, paras[n]);
      PartsNext(t, max, paras, parts, part);
      JoinedNext(parts, part);
      parts := parts + [part];
      out := out + part;
    }
  }

  lemma {:induction false} JoinedNone()
    ensures Joined([]) == []
  {
  }

  lemma {:induction false} JoinedNext(parts: seq<seq<Range>>, part: seq<Range>)
    ensures Joined(parts + [part]) == Joined(parts) + part
  {
    assert (parts + [part])[..|parts|] == parts;
  }

  lemma {:induction false} PartsNext(
    t: seq<u8>, max: nat, paras: seq<Range>, parts: seq<seq<Range>>, part: seq<Range>)
    requires Parts(t, max, paras, parts) && |parts| < |paras| && PartOf(t, max, paras[|parts|], part)
    ensures Parts(t, max, paras, parts + [part])
  {
    hide PartOf;
  }

  lemma {:induction false} ParagraphsInOrder(t: seq<u8>, r: seq<Range>)
    requires Paragraphs(t, r)
    ensures InOrder(r, |t|)
  {
    hide Solid, Fresh, Separator, Gap;
  }

  method ChunkParagraph(t: seq<u8>, max: nat, e: Range) returns (part: seq<Range>)
    requires e.0 < e.1 <= |t|
    ensures PartOf(t, max, e, part)
  {
    hide CharCount, Blank, Sentences, Wrapped, WellFormed;
    var block := t[e.0..e.1];
    if CharCount(block) <= max {
      part := if Blank(block) then [] else [e];
    } else {
      ghost var r, cuts;
      part, r, cuts := Wrap(t, e.0, e.1, max);
      assert Wraps(block, r, max, cuts, e, part);
    }
  }

  // ---- what a chunking promises -------------------------------------------

  /** Within one paragraph: in order, and inside it. */
  ghost predicate Inside(part: seq<Range>, a: nat, b: nat) {
    && (forall i: nat :: i < |part| ==> a <= part[i].0 < part[i].1 <= b)
    && (forall i: nat :: i + 1 < |part| ==> part[i].1 <= part[i + 1].0)
  }

  lemma {:induction false} StartWithin(r: seq<Range>, cuts: seq<nat>, n: nat, k: nat)
    requires InOrder(r, n) && k <= |cuts| && n > 0 && forall i: nat :: i < |cuts| ==> cuts[i] < |r|
    ensures StartOf(r, cuts, k) < n
  {
    if k > 0 {
      assert r[cuts[k - 1]].0 < r[cuts[k - 1]].1 <= n;
    }
  }

  /** The pieces of a block lie end to end and cover all of it. */
  lemma {:induction false} PiecesTile(block: seq<u8>, r: seq<Range>, max: nat, cuts: seq<nat>, a: nat, b: nat)
    requires IsWrap(block, r, max, cuts) && b == a + |block| && |block| > 0
    ensures Inside(Pieces(r, cuts, a, b), a, b)
    ensures forall k: nat :: k + 1 < |Pieces(r, cuts, a, b)| ==> Pieces(r, cuts, a, b)[k].1 == Pieces(r, cuts, a, b)[k + 1].0
    ensures forall p: nat :: a <= p < b ==> Covered(Pieces(r, cuts, a, b), p)
  {
    hide Sentences, Wrapped, WellFormed;
    SentencesInOrder(block, r);
    var out := Pieces(r, cuts, a, b);
    forall k: nat | k < |out| ensures a <= out[k].0 < out[k].1 <= b {
      assert out[k] == Piece(r, cuts, a, b, k);
      StartWithin(r, cuts, |block|, k);
      if k < |cuts| {
        StartWithin(r, cuts, |block|, k + 1);
        assert r[cuts[k]].0 > StartOf(r, cuts, k);
      }
    }
    forall k: nat | k + 1 < |out| ensures out[k].1 == out[k + 1].0 {
      assert out[k] == Piece(r, cuts, a, b, k) && out[k + 1] == Piece(r, cuts, a, b, k + 1);
    }
    assert out[0].0 == a && out[|out| - 1].1 == b;
    forall p: nat | a <= p < b ensures Covered(out, p) {
      TilesCover(out, p);
    }
  }

  lemma {:induction false} TilesCover(out: seq<Range>, p: nat)
    requires out != [] && out[0].0 <= p < out[|out| - 1].1
    requires forall k: nat :: k < |out| ==> out[k].0 < out[k].1
    requires forall k: nat :: k + 1 < |out| ==> out[k].1 == out[k + 1].0
    ensures Covered(out, p)
  {
    var k := 0;
    while out[k].1 <= p
      invariant k < |out| && out[k].0 <= p
      decreases |out| - k
    {
      k := k + 1;
    }
    assert out[k].0 <= p < out[k].1;
  }

  /** The position is in white space between two character boundaries. */
  ghost predicate InBlank(t: seq<u8>, p: nat) {
    exists a: nat, b: nat ::
      a <= p < b <= |t| && Blank(t[a..b]) && (WellFormed(t) ==> Boundary(t, a) && Boundary(t, b))
  }

  /** One paragraph's chunks stay in it, on boundaries, and leave it out only if it is blank. */
  lemma {:induction false} PartPromises(t: seq<u8>, max: nat, e: Range, part: seq<Range>)
    requires e.0 < e.1 <= |t| && PartOf(t, max, e, part)
    requires WellFormed(t) ==> Boundary(t, e.0) && Boundary(t, e.1)
    ensures Inside(part, e.0, e.1)
    ensures forall p: nat :: e.0 <= p < e.1 ==> Covered(part, p) || InBlank(t, p)
    ensures WellFormed(t) ==> OnBoundaries(part, t)
  {
    hide CharCount, Blank, Sentences, Wrapped, WellFormed;
    var block := t[e.0..e.1];
    if CharCount(block) <= max {
      forall p: nat | e.0 <= p < e.1 ensures Covered(part, p) || InBlank(t, p) {
        if part == [e] {
          assert part[0].0 <= p < part[0].1;
        }
      }
    } else {
      var r, cuts :| Wraps(block, r, max, cuts, e, part);
      PiecesTile(block, r, max, cuts, e.0, e.1);
      if WellFormed(t) && Boundary(t, e.0) && Boundary(t, e.1) {
        SliceWellFormed(t, e.0, e.1);
        PieceBoundaries(t, r, max, cuts, e);
      }
    }
  }

  lemma {:induction false} PieceBoundaries(t: seq<u8>, r: seq<Range>, max: nat, cuts: seq<nat>, e: Range)
    requires e.0 < e.1 <= |t| && IsWrap(t[e.0..e.1], r, max, cuts) && OnBoundaries(r, t[e.0..e.1])
    requires Boundary(t, e.0) && Boundary(t, e.1)
    ensures OnBoundaries(Pieces(r, cuts, e.0, e.1), t)
  {
    hide Sentences, Wrapped, WellFormed;
    var block := t[e.0..e.1];
    SentencesInOrder(block, r);
    forall k: nat | k <= |cuts| ensures Boundary(t, e.0 + StartOf(r, cuts, k)) {
      if k > 0 {
        var s := r[cuts[k - 1]];
        assert Boundary(block, s.0) && s.0 < |block| && block[s.0] == t[e.0 + s.0];
      }
    }
    var out := Pieces(r, cuts, e.0, e.1);
    forall k: nat | k < |out| ensures Boundary(t, out[k].0) && Boundary(t, out[k].1) {
      assert out[k] == Piece(r, cuts, e.0, e.1, k);
    }
  }

  /** The chunks of the first paragraphs. */
  ghost predicate Promised(t: seq<u8>, out: seq<Range>, upTo: nat) {
    && InOrder(out, |t|) && End(out) <= upTo <= |t|
    && (WellFormed(t) ==> OnBoundaries(out, t))
    && (forall p: nat :: p < upTo ==> Covered(out, p) || IsSpace(t[p]) || InBlank(t, p))
  }

  /** One more paragraph's chunks. */
  lemma {:induction false} PromisedNext(t: seq<u8>, out: seq<Range>, upTo: nat, part: seq<Range>, e: Range)
    requires Promised(t, out, upTo) && upTo <= e.0 < e.1 <= |t| && Inside(part, e.0, e.1)
    requires forall p: nat :: upTo <= p < e.0 ==> IsSpace(t[p])
    requires forall p: nat :: e.0 <= p < e.1 ==> Covered(part, p) || InBlank(t, p)
    requires WellFormed(t) ==> OnBoundaries(part, t)
    ensures Promised(t, out + part, e.1)
  {
    hide WellFormed, InBlank, IsSpace;
    var all := out + part;
    forall i: nat | i + 1 < |all| ensures all[i].1 <= all[i + 1].0 {
      if i + 1 < |out| {
        assert all[i] == out[i] && all[i + 1] == out[i + 1];
      } else if i >= |out| {
        assert all[i] == part[i - |out|] && all[i + 1] == part[i - |out| + 1];
      }
    }
    forall p: nat | p < e.1 ensures Covered(all, p) || IsSpace(t[p]) || InBlank(t, p) {
      if Covered(out, p) {
        var i: nat :| i < |out| && out[i].0 <= p < out[i].1;
        assert all[i] == out[i];
      } else if Covered(part, p) {
        var i: nat :| i < |part| && part[i].0 <= p < part[i].1;
        assert all[|out| + i] == part[i];
      }
    }
  }

  lemma {:induction false} PartsPromised(
    t: seq<u8>, max: nat, paras: seq<Range>, parts: seq<seq<Range>>)
    requires Paragraphs(t, paras) && Parts(t, max, paras, parts)
    requires WellFormed(t) ==> OnBoundaries(paras, t)
    ensures Promised(t, Joined(parts), if parts == [] then 0 else paras[|parts| - 1].1)
  {
    hide WellFormed, PartOf, Paragraphs, InBlank;
    if parts == [] {
      assert InOrder([], |t|);
    } else {
      var n := |parts| - 1;
      var front := parts[..n];
      assert Parts(t, max, paras, front);
      PartsPromised(t, max, paras, front);
      PartPromises(t, max, paras[n], parts[n]);
      GapIsSpace(t, paras, n);
      PromisedNext(t, Joined(front), if n == 0 then 0 else paras[n - 1].1, parts[n], paras[n]);
    }
  }

  lemma {:induction false} GapIsSpace(t: seq<u8>, paras: seq<Range>, n: nat)
    requires Paragraphs(t, paras) && n < |paras|
    ensures (if n == 0 then 0 else paras[n - 1].1) <= paras[n].0 < paras[n].1 <= |t|
    ensures forall p: nat :: (if n == 0 then 0 else paras[n - 1].1) <= p < paras[n].0 ==> IsSpace(t[p])
  {
    hide Solid, Fresh;
    if n > 0 {
      assert Separator(t, paras[n - 1].1, paras[n - 1 + 1].0);
    }
  }

  lemma {:induction false} TailIsSpace(t: seq<u8>, paras: seq<Range>)
    requires Paragraphs(t, paras)
    ensures End(paras) <= |t| && forall p: nat :: End(paras) <= p < |t| ==> IsSpace(t[p])
  {
    hide Solid, Fresh;
  }

  /**
   For every text and every limit the chunks are in order, disjoint, within the text and
   never empty, no cut lands inside a character, and nothing is left out but white space.
   */
  lemma {:induction false} ChunksPartition(t: seq<u8>, max: nat, out: seq<Range>)
    requires IsChunking(t, max, out)
    ensures InOrder(out, |t|)
    ensures WellFormed(t) ==> OnBoundaries(out, t)
    ensures forall p: nat :: p < |t| ==> Covered(out, p) || IsSpace(t[p]) || InBlank(t, p)
  {
    hide WellFormed, Paragraphs, Parts, InBlank;
    var paras: seq<Range>, parts: seq<seq<Range>> :|
      Paragraphs(t, paras) && |parts| == |paras| && Parts(t, max, paras, parts) && out == Joined(parts)
      && (WellFormed(t) ==> OnBoundaries(paras, t));
    PartsPromised(t, max, paras, parts);
    TailIsSpace(t, paras);
    ParagraphsInOrder(t, paras);
  }

  // ---- how long a piece is ------------------------------------------------

  /** The characters between sentences `p` and `q`, which the wrapping does not count. */
  function Gaps(block: seq<u8>, r: seq<Range>, p: nat, q: nat): nat
    requires q < |r|
  {
    if q <= p then 0 else Gaps(block, r, p, q - 1) + Length(block, (r[q - 1].1, r[q].0))
  }

  lemma {:induction false} CharCountJoin(a: seq<u8>, b: seq<u8>)
    ensures CharCount(a + b) == CharCount(a) + CharCount(b)
  {
    if b == [] {
      assert a + b == a;
    } else {
      assert (a + b)[..|a + b| - 1] == a + b[..|b| - 1];
      CharCountJoin(a, b[..|b| - 1]);
    }
  }

  lemma {:induction false} LengthJoin(block: seq<u8>, a: nat, b: nat, c: nat)
    requires a <= b <= c <= |block|
    ensures Length(block, (a, c)) == Length(block, (a, b)) + Length(block, (b, c))
  {
    hide CharCount;
    assert block[a..c] == block[a..b] + block[b..c];
    CharCountJoin(block[a..b], block[b..c]);
  }

  lemma {:induction false} RunInOrder(r: seq<Range>, n: nat, p: nat, q: nat)
    requires InOrder(r, n) && p <= q < |r|
    ensures r[p].0 <= r[q].0 < r[q].1 <= n && (p < q ==> r[p].0 < r[q - 1].1 <= r[q].0)
  {
    if p < q {
      RunInOrder(r, n, p, q - 1);
      assert r[q - 1].1 <= r[q - 1 + 1].0;
    }
  }

  /** The text from sentence `p` to sentence `q`: what they count for, less one for each but the last, and the gaps. */
  lemma {:induction false} RunLength(block: seq<u8>, r: seq<Range>, p: nat, q: nat)
    requires InOrder(r, |block|) && p <= q < |r|
    ensures Length(block, (r[p].0, r[q].1)) + (q - p) == Load(block, r, p, q) + Length(block, r[q]) + Gaps(block, r, p, q)
  {
    hide Length;
    if p < q {
      RunLength(block, r, p, q - 1);
      RunInOrder(r, |block|, p, q);
      LengthJoin(block, r[p].0, r[q - 1].1, r[q].0);
      LengthJoin(block, r[p].0, r[q].0, r[q].1);
    }
  }

  /** The sentence after the `k`-th piece's last one. */
  function After(r: seq<Range>, cuts: seq<nat>, k: nat): nat
    requires k <= |cuts|
  {
    if k < |cuts| then cuts[k] else |r|
  }

  /**
   The limit holds up to the gaps: a piece of several sentences has at most `max`
   characters, but for what the gaps in it have beyond one character each.
   */
  lemma {:induction false} PieceBound(block: seq<u8>, r: seq<Range>, max: nat, cuts: seq<nat>, k: nat)
    requires IsWrap(block, r, max, cuts) && k <= |cuts| && First(cuts, k) + 1 < After(r, cuts, k)
    ensures var p, q := First(cuts, k), After(r, cuts, k) - 1;
            && q < |r|
            && Length(block, (r[p].0, r[q].1)) + (q - p) <= max + Gaps(block, r, p, q)
  {
    hide Length, Load, Gaps, Sentences, WellFormed, Wrapped, Rising, First, After, InOrder, OnBoundaries;
    SentencesInOrder(block, r);
    PieceFits(block, r, max, cuts, k);
    RunLength(block, r, First(cuts, k), After(r, cuts, k) - 1);
  }

  lemma {:induction false} PieceFits(block: seq<u8>, r: seq<Range>, max: nat, cuts: seq<nat>, k: nat)
    requires Wrapped(block, r, max, cuts, |r|) && k <= |cuts|
    ensures First(cuts, k) <= After(r, cuts, k) <= |r| && Fits(block, r, max, First(cuts, k), After(r, cuts, k))
  {
    hide Length, Load, Fits;
    if k < |cuts| {
      assert FullAt(block, r, max, First(cuts, k), cuts[k]);
    }
  }
}
