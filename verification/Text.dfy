/**
 The scanners the chunker relies on (src/text.rs), over the bytes of a UTF-8 text.

 `IsSpace` is the program's test, a byte read as a Latin-1 character.  In well-formed
 text it only ever meets the first byte of a character, so a split never lands inside
 one.
 */
module Text {
  import opened Bytes
  import Utf8

  type Range = (nat, nat)

  const NEWLINE: u8 := 0x0A

  /** `(byte as char).is_whitespace()`. */
  predicate IsSpace(b: u8) {
    0x09 <= b <= 0x0D || b == 0x20 || b == 0x85 || b == 0xA0
  }

  predicate IsStop(b: u8) {
    b == 0x2E || b == 0x21 || b == 0x3F
  }

  predicate Continuation(b: u8) {
    0x80 <= b < 0xC0
  }

  // ---- character boundaries -----------------------------------------------

  /** A character starts at the front and after every ASCII byte. */
  ghost predicate WellFormed(t: seq<u8>) {
    && (t != [] ==> !Continuation(t[0]))
    && forall i: nat :: i + 1 < |t| && t[i] < 0x80 ==> !Continuation(t[i + 1])
  }

  predicate Boundary(t: seq<u8>, i: nat) {
    i == |t| || (i < |t| && !Continuation(t[i]))
  }

  lemma {:induction false} EncodedCharStarts(c: char)
    ensures var r := Utf8.EncodeChar(c);
            && !Continuation(r[0]) && (forall i: nat :: i + 1 < |r| ==> r[i] >= 0x80)
            && (|r| > 1 ==> r[|r| - 1] >= 0x80)
  {
  }

  /** Every string's bytes are well formed. */
  lemma {:induction false} EncodedWellFormed(s: string)
    ensures WellFormed(Utf8.Encode(s))
  {
    hide Utf8.EncodeChar, Utf8.Encode;
    Utf8.EncodeEmpty(s);
    if s != "" {
      Utf8.EncodeFront(s);
      var head, tail := Utf8.EncodeChar(s[0]), Utf8.Encode(s[1..]);
      EncodedCharStarts(s[0]);
      EncodedWellFormed(s[1..]);
      var t := head + tail;
      forall i: nat | i + 1 < |t| && t[i] < 0x80 ensures !Continuation(t[i + 1]) {
        if i + 1 > |head| {
          assert t[i] == tail[i - |head|] && t[i + 1] == tail[i - |head| + 1];
        } else if i + 1 == |head| {
          assert t[i + 1] == tail[0];
        }
      }
    }
  }

  lemma {:induction false} SliceWellFormed(t: seq<u8>, a: nat, b: nat)
    requires WellFormed(t) && a <= b <= |t| && Boundary(t, a)
    ensures WellFormed(t[a..b])
  {
    var s := t[a..b];
    forall i: nat | i + 1 < |s| && s[i] < 0x80 ensures !Continuation(s[i + 1]) {
      assert s[i] == t[a + i] && s[i + 1] == t[a + i + 1];
    }
  }

  /** A space byte on a boundary is ASCII, so a boundary follows it. */
  lemma {:induction false} SpaceStep(t: seq<u8>, i: nat)
    requires WellFormed(t) && i < |t| && Boundary(t, i) && (IsSpace(t[i]) || IsStop(t[i]))
    ensures Boundary(t, i + 1)
  {
  }

  // ---- ranges -------------------------------------------------------------

  /** Non-empty, within the text, in order and disjoint. */
  ghost predicate InOrder(r: seq<Range>, n: nat) {
    && (forall i: nat :: i < |r| ==> r[i].0 < r[i].1 <= n)
    && (forall i: nat :: i + 1 < |r| ==> r[i].1 <= r[i + 1].0)
  }

  ghost predicate OnBoundaries(r: seq<Range>, t: seq<u8>) {
    forall i: nat :: i < |r| ==> Boundary(t, r[i].0) && Boundary(t, r[i].1)
  }

  ghost predicate Covered(r: seq<Range>, p: nat) {
    exists i: nat :: i < |r| && r[i].0 <= p < r[i].1
  }

  ghost predicate Spaces(t: seq<u8>, a: nat, b: nat) {
    forall p: nat :: a <= p < b && p < |t| ==> IsSpace(t[p])
  }

  ghost predicate Ink(t: seq<u8>, a: nat, b: nat) {
    exists p: nat :: a <= p < b && p < |t| && !IsSpace(t[p])
  }

  /** Where the last range ends. */
  function End(r: seq<Range>): nat {
    if r == [] then 0 else r[|r| - 1].1
  }

  lemma {:induction false} AppendInOrder(r: seq<Range>, e: Range, n: nat)
    requires InOrder(r, n) && End(r) <= e.0 < e.1 <= n
    ensures InOrder(r + [e], n)
  {
    var s := r + [e];
    forall i: nat | i + 1 < |s| ensures s[i].1 <= s[i + 1].0 {
      if i + 1 < |r| {
        assert r[i].1 <= r[i + 1].0;
      }
    }
  }

  // ---- paragraphs ---------------------------------------------------------

  /** White space from a newline to another one. */
  ghost predicate Separator(t: seq<u8>, a: nat, b: nat) {
    a + 2 <= b <= |t| && t[a] == NEWLINE && t[b - 1] == NEWLINE && Spaces(t, a, b)
  }

  /** No separator inside: two newlines have ink between them. */
  ghost predicate Solid(t: seq<u8>, a: nat, b: nat) {
    forall p: nat, q: nat :: a <= p < q < b && q < |t| && t[p] == NEWLINE && t[q] == NEWLINE ==> Ink(t, p, q)
  }

  /** The separator before `a` took every newline it could: the next one has ink before it. */
  ghost predicate Fresh(t: seq<u8>, a: nat) {
    a > 0 ==> forall q: nat :: a <= q < |t| && t[q] == NEWLINE ==> Ink(t, a, q)
  }

  /** Nothing, or a separator. */
  ghost predicate Gap(t: seq<u8>, a: nat, b: nat) {
    a == b || Separator(t, a, b)
  }

  /** The blocks of a text: solid, with separators and nothing else between, before and after them. */
  ghost predicate Paragraphs(t: seq<u8>, r: seq<Range>) {
    && InOrder(r, |t|)
    && (forall i: nat :: i < |r| ==> Solid(t, r[i].0, r[i].1) && Fresh(t, r[i].0))
    && (forall i: nat :: i + 1 < |r| ==> Separator(t, r[i].1, r[i + 1].0))
    && (r != [] ==> Gap(t, 0, r[0].0))
    && Gap(t, End(r), |t|)
  }

  /** `paragraph_ranges`. */
  method ParagraphRanges(t: seq<u8>) returns (out: seq<Range>)
    ensures Paragraphs(t, out)
    ensures WellFormed(t) ==> OnBoundaries(out, t)
  {
    hide Ink, Spaces, WellFormed, Blocks, Solid;
    out := [];
    var pos, i := 0, 0;
    NoneYet(t);
    SolidNone(t, 0);
    while i < |t|
      invariant pos <= i <= |t| && Blocks(t, out, pos)
      invariant Solid(t, pos, i)
      invariant i < |t| ==> forall p: nat :: pos <= p < i && t[p] == NEWLINE ==> Ink(t, p, i + 1)
      invariant WellFormed(t) ==> OnBoundaries(out, t) && Boundary(t, pos)
      decreases |t| - i
    {
      if t[i] != NEWLINE {
        SolidStep(t, pos, i);
        i := i + 1;
      } else {
        NewlineStep(t, pos, i);
        var j, last := SpaceRun(t, i);
        if last > i {
          TakeBlock(t, out, pos, i, last, j);
          if i > pos {
            out := out + [(pos, i)];
          }
          pos := last + 1;
          i := last + 1;
          SolidNone(t, i);
        } else {
          SkipRun(t, pos, i, j);
          i := j;
        }
      }
    }
    if pos < |t| {
      LastBlock(t, out, pos);
      out := out + [(pos, |t|)];
    } else {
      AllBlocks(t, out);
    }
  }

  lemma {:induction false} SolidNone(t: seq<u8>, a: nat)
    ensures Solid(t, a, a)
  {
  }

  lemma {:induction false} AllBlocks(t: seq<u8>, r: seq<Range>)
    requires Blocks(t, r, |t|)
    ensures Paragraphs(t, r)
  {
    hide Ink, Solid, Fresh, InOrder;
  }

  /** The blocks found so far, the last separator ending at `pos`. */
  ghost predicate Blocks(t: seq<u8>, r: seq<Range>, pos: nat) {
    && pos <= |t| && InOrder(r, |t|) && End(r) <= pos
    && (forall i: nat :: i < |r| ==> Solid(t, r[i].0, r[i].1) && Fresh(t, r[i].0))
    && (forall i: nat :: i + 1 < |r| ==> Separator(t, r[i].1, r[i + 1].0))
    && (r != [] ==> Gap(t, 0, r[0].0) && Separator(t, End(r), pos))
    && (r == [] ==> Gap(t, 0, pos))
    && Fresh(t, pos)
  }

  /** The white space after a newline: where it ends, and the last newline in it (`i` itself if there is no other). */
  method SpaceRun(t: seq<u8>, i: nat) returns (j: nat, last: nat)
    requires i < |t| && t[i] == NEWLINE
    ensures i < j <= |t| && Spaces(t, i, j) && (j < |t| ==> !IsSpace(t[j]))
    ensures i <= last < j && t[last] == NEWLINE
    ensures forall p: nat :: last < p < j ==> t[p] != NEWLINE
    ensures WellFormed(t) ==> Boundary(t, last + 1)
  {
    j, last := i + 1, i;
    while j < |t| && IsSpace(t[j])
      invariant i < j <= |t| && Spaces(t, i, j)
      invariant i <= last < j && t[last] == NEWLINE
      invariant forall p: nat :: last < p < j ==> t[p] != NEWLINE
    {
      if t[j] == NEWLINE {
        last := j;
      }
      j := j + 1;
    }
  }

  lemma {:induction false} InkGrows(t: seq<u8>, a: nat, b: nat, c: nat)
    requires Ink(t, a, b) && b <= c
    ensures Ink(t, a, c)
  {
  }

  lemma {:induction false} InkBefore(t: seq<u8>, a: nat, b: nat)
    requires Ink(t, a, b + 1) && b < |t| && IsSpace(t[b])
    ensures Ink(t, a, b)
  {
  }

  lemma {:induction false} InkAt(t: seq<u8>, a: nat, p: nat, b: nat)
    requires a <= p < b && p < |t| && !IsSpace(t[p])
    ensures Ink(t, a, b)
  {
  }

  lemma {:induction false} SolidStep(t: seq<u8>, pos: nat, i: nat)
    requires pos <= i < |t| && Solid(t, pos, i) && t[i] != NEWLINE
    requires forall p: nat :: pos <= p < i && t[p] == NEWLINE ==> Ink(t, p, i + 1)
    ensures Solid(t, pos, i + 1)
    ensures forall p: nat :: pos <= p < i + 1 && t[p] == NEWLINE ==> Ink(t, p, i + 2)
  {
    hide Ink;
    forall p: nat | pos <= p < i + 1 && t[p] == NEWLINE ensures Ink(t, p, i + 2) {
      InkGrows(t, p, i + 1, i + 2);
    }
  }

  lemma {:induction false} NewlineStep(t: seq<u8>, pos: nat, i: nat)
    requires pos <= i < |t| && Solid(t, pos, i) && t[i] == NEWLINE
    requires forall p: nat :: pos <= p < i && t[p] == NEWLINE ==> Ink(t, p, i + 1)
    ensures Solid(t, pos, i + 1)
    ensures forall p: nat :: pos <= p < i && t[p] == NEWLINE ==> Ink(t, p, i)
  {
    hide Ink;
    forall p: nat | pos <= p < i && t[p] == NEWLINE ensures Ink(t, p, i) {
      InkBefore(t, p, i);
    }
  }

  /** A lone newline and the spaces after it stay in the block. */
  lemma {:induction false} SkipRun(t: seq<u8>, pos: nat, i: nat, j: nat)
    requires pos <= i < j <= |t| && Solid(t, pos, i + 1) && t[i] == NEWLINE && (j < |t| ==> !IsSpace(t[j]))
    requires forall p: nat :: pos <= p < i && t[p] == NEWLINE ==> Ink(t, p, i)
    requires forall p: nat :: i < p < j ==> t[p] != NEWLINE
    ensures Solid(t, pos, j)
    ensures j < |t| ==> forall p: nat :: pos <= p < j && t[p] == NEWLINE ==> Ink(t, p, j + 1)
  {
    hide Ink;
    forall p: nat | j < |t| && pos <= p < j && t[p] == NEWLINE ensures Ink(t, p, j + 1) {
      InkAt(t, p, j, j + 1);
    }
  }

  lemma {:induction false} FreshAfter(t: seq<u8>, last: nat, j: nat)
    requires last < j <= |t| && (j < |t| ==> !IsSpace(t[j]))
    requires forall p: nat :: last < p < j ==> t[p] != NEWLINE
    ensures Fresh(t, last + 1)
  {
    hide Ink;
    forall q: nat | last + 1 <= q < |t| && t[q] == NEWLINE ensures Ink(t, last + 1, q) {
      InkAt(t, last + 1, j, q);
    }
  }

  lemma {:induction false} SeparatorJoins(t: seq<u8>, a: nat, b: nat, c: nat)
    requires Gap(t, a, b) && Separator(t, b, c)
    ensures Separator(t, a, c)
  {
  }

  /** A separator ends the block, if there is one, and moves `pos` past itself. */
  lemma {:induction false} TakeBlock(t: seq<u8>, r: seq<Range>, pos: nat, i: nat, last: nat, j: nat)
    requires Blocks(t, r, pos) && pos <= i < last < j <= |t| && Solid(t, pos, i + 1)
    requires t[i] == NEWLINE && t[last] == NEWLINE && Spaces(t, i, j) && (j < |t| ==> !IsSpace(t[j]))
    requires forall p: nat :: last < p < j ==> t[p] != NEWLINE
    ensures i > pos ==> Blocks(t, r + [(pos, i)], last + 1)
    ensures i == pos ==> Blocks(t, r, last + 1)
  {
    hide Ink, Fresh, Spaces;
    FreshAfter(t, last, j);
    RunSeparates(t, i, last, j);
    if i > pos {
      AppendInOrder(r, (pos, i), |t|);
      SolidPart(t, pos, i);
      var s := r + [(pos, i)];
      forall k: nat | k + 1 < |s| ensures Separator(t, s[k].1, s[k + 1].0) {
        if k + 1 < |r| {
          assert s[k] == r[k] && s[k + 1] == r[k + 1];
        }
      }
    } else {
      SeparatorJoins(t, End(r), pos, last + 1);
    }
  }

  lemma {:induction false} SolidPart(t: seq<u8>, a: nat, b: nat)
    requires Solid(t, a, b + 1)
    ensures Solid(t, a, b)
  {
    hide Ink;
  }

  lemma {:induction false} RunSeparates(t: seq<u8>, i: nat, last: nat, j: nat)
    requires i < last < j <= |t| && t[i] == NEWLINE && t[last] == NEWLINE && Spaces(t, i, j)
    ensures Separator(t, i, last + 1)
  {
  }

  lemma {:induction false} LastBlock(t: seq<u8>, r: seq<Range>, pos: nat)
    requires Blocks(t, r, pos) && pos < |t| && Solid(t, pos, |t|)
    ensures Paragraphs(t, r + [(pos, |t|)])
  {
    hide Ink, Fresh, Spaces;
    AppendInOrder(r, (pos, |t|), |t|);
    var s := r + [(pos, |t|)];
    forall k: nat | k + 1 < |s| ensures Separator(t, s[k].1, s[k + 1].0) {
      if k + 1 < |r| {
        assert s[k] == r[k] && s[k + 1] == r[k + 1];
      }
    }
  }

  /** The blocks leave nothing out but white space. */
  lemma {:induction false} ParagraphsCover(t: seq<u8>, r: seq<Range>, p: nat)
    requires Paragraphs(t, r) && p < |t| && !Covered(r, p)
    ensures IsSpace(t[p])
  {
    hide Solid, Fresh;
    if r == [] || p < r[0].0 || p >= End(r) {
    } else {
      var i := Between(r, |t|, p);
      assert Separator(t, r[i].1, r[i + 1].0);
    }
  }

  /** A position that no range covers, but that lies between the first and the last, falls in a gap. */
  lemma {:induction false} Between(r: seq<Range>, n: nat, p: nat) returns (i: nat)
    requires InOrder(r, n) && r != [] && r[0].0 <= p < End(r) && !Covered(r, p)
    ensures i + 1 < |r| && r[i].1 <= p < r[i + 1].0
  {
    i := 0;
    assert !(r[0].0 <= p < r[0].1);
    while r[i + 1].0 <= p
      invariant i + 1 < |r| && r[i].1 <= p
      decreases |r| - i
    {
      assert !(r[i + 1].0 <= p < r[i + 1].1);
      i := i + 1;
    }
  }

  // ---- sentences ----------------------------------------------------------

  /** A place to split: a newline, or a stop with white space after it. */
  predicate Splits(t: seq<u8>, i: nat) {
    i < |t| && (t[i] == NEWLINE || (IsStop(t[i]) && i + 1 < |t| && IsSpace(t[i + 1])))
  }

  /** No split before the last byte of the range. */
  ghost predicate Unsplit(t: seq<u8>, a: nat, b: nat) {
    forall i: nat :: a <= i && i + 1 < b ==> !Splits(t, i)
  }

  /** The range stops at a newline, after a stop with white space behind it, or where the text does. */
  ghost predicate Finished(t: seq<u8>, b: nat) {
    b == |t| || (b < |t| && t[b] == NEWLINE) || (0 < b < |t| && IsStop(t[b - 1]) && IsSpace(t[b]))
  }

  /** A range that does not split, holds no newline and stops where a sentence may. */
  ghost predicate Sentence(t: seq<u8>, e: Range) {
    && e.0 <= e.1 <= |t| && Unsplit(t, e.0, e.1) && Finished(t, e.1)
    && forall p: nat :: e.0 <= p < e.1 ==> t[p] != NEWLINE
  }

  /** White space up to the first ink. */
  ghost predicate Break(t: seq<u8>, a: nat, b: nat) {
    Spaces(t, a, b) && b < |t| && !IsSpace(t[b])
  }

  /** Unsplit ranges without a newline, white space and nothing else between, before and after them. */
  ghost predicate Sentences(t: seq<u8>, r: seq<Range>) {
    && InOrder(r, |t|)
    && (forall i: nat :: i < |r| ==> Sentence(t, r[i]))
    && (forall i: nat :: i + 1 < |r| ==> Break(t, r[i].1, r[i + 1].0))
    && (r != [] ==> Spaces(t, 0, r[0].0))
    && Spaces(t, End(r), |t|)
  }

  /** The sentences found so far, the next one starting at `start`. */
  ghost predicate SomeSentences(t: seq<u8>, r: seq<Range>, start: nat) {
    && start <= |t| && InOrder(r, |t|) && End(r) <= start
    && (forall i: nat :: i < |r| ==> Sentence(t, r[i]))
    && (forall i: nat :: i + 1 < |r| ==> Break(t, r[i].1, r[i + 1].0))
    && (r != [] ==> Spaces(t, 0, r[0].0))
    && Spaces(t, End(r), start)
    && (start > 0 ==> start == |t| || !IsSpace(t[start]))
    && (r != [] ==> start > 0)
  }

  /** `sentence_ranges`. */
  method SentenceRanges(t: seq<u8>) returns (out: seq<Range>)
    ensures Sentences(t, out)
    ensures WellFormed(t) ==> OnBoundaries(out, t)
  {
    hide WellFormed, IsSpace, Spaces, Sentence, Break, Splits, InOrder;
    out := [];
    var start, i := 0, 0;
    NoneYet(t);
    while i < |t|
      invariant start <= i <= |t| && SomeSentences(t, out, start)
      invariant forall p: nat :: start <= p < i ==> !Splits(t, p)
      invariant WellFormed(t) ==> OnBoundaries(out, t) && Boundary(t, start)
      decreases |t| - i
    {
      if Splits(t, i) {
        var end := if t[i] == NEWLINE then i else i + 1;
        SplitBoundary(t, i);
        TakeSentence(t, out, start, i, end);
        if end > start {
          out := out + [(start, end)];
        }
        var j := SkipSpaces(t, end);
        NextSentence(t, out, end, j);
        start := j;
        i := j;
      } else {
        i := i + 1;
      }
    }
    if start < |t| {
      LastSentence(t, out, start);
      out := out + [(start, |t|)];
    } else {
      AllFound(t, out);
    }
  }

  lemma {:induction false} AllFound(t: seq<u8>, r: seq<Range>)
    requires SomeSentences(t, r, |t|)
    ensures Sentences(t, r)
  {
    hide Sentence, Break, InOrder, Spaces;
  }

  lemma {:induction false} NoneYet(t: seq<u8>)
    ensures SomeSentences(t, [], 0) && Blocks(t, [], 0) && (WellFormed(t) ==> Boundary(t, 0))
  {
  }

  lemma {:induction false} NoSpaces(t: seq<u8>, a: nat)
    ensures Spaces(t, a, a)
  {
  }

  method SkipSpaces(t: seq<u8>, end: nat) returns (j: nat)
    requires end <= |t|
    ensures end <= j <= |t| && Spaces(t, end, j) && (j < |t| ==> !IsSpace(t[j]))
    ensures WellFormed(t) && Boundary(t, end) ==> Boundary(t, j)
    ensures end < |t| && IsSpace(t[end]) ==> j > end
  {
    hide WellFormed, IsSpace;
    j := end;
    while j < |t| && IsSpace(t[j])
      invariant end <= j <= |t| && Spaces(t, end, j)
      invariant WellFormed(t) && Boundary(t, end) ==> Boundary(t, j)
      invariant end < |t| && IsSpace(t[end]) && j == end ==> true
    {
      SpaceStepIf(t, j);
      j := j + 1;
    }
  }

  lemma {:induction false} SpaceStepIf(t: seq<u8>, i: nat)
    requires i < |t| && IsSpace(t[i])
    ensures WellFormed(t) && Boundary(t, i) ==> Boundary(t, i + 1)
  {
    if WellFormed(t) && Boundary(t, i) {
      SpaceStep(t, i);
    }
  }

  lemma {:induction false} SplitBoundary(t: seq<u8>, i: nat)
    requires Splits(t, i)
    ensures Boundary(t, i) && (WellFormed(t) ==> Boundary(t, i + 1))
    ensures IsSpace(t[if t[i] == NEWLINE then i else i + 1])
    ensures t[i] != NEWLINE ==> i + 1 < |t|
  {
  }

  /** A split ends the sentence, if it holds anything. */
  lemma {:induction false} TakeSentence(t: seq<u8>, r: seq<Range>, start: nat, i: nat, end: nat)
    requires SomeSentences(t, r, start) && start <= i && Splits(t, i)
    requires end == if t[i] == NEWLINE then i else i + 1
    requires forall p: nat :: start <= p < i ==> !Splits(t, p)
    ensures end > start ==> Ended(t, r + [(start, end)], end)
    ensures end == start ==> Ended(t, r, end)
  {
    hide IsSpace, Spaces, Sentence, Break, Splits;
    SplitBoundary(t, i);
    if end > start {
      SplitSentence(t, start, i, end);
      if r != [] {
        StartBreaks(t, r, start);
      }
      AppendSentence(t, r, (start, end));
      NoSpaces(t, end);
    }
  }

  lemma {:induction false} StartBreaks(t: seq<u8>, r: seq<Range>, start: nat)
    requires SomeSentences(t, r, start) && start < |t| && r != []
    ensures Break(t, End(r), start)
  {
    hide IsSpace, Spaces, Sentence, InOrder;
  }

  lemma {:induction false} SplitSentence(t: seq<u8>, start: nat, i: nat, end: nat)
    requires start <= i && Splits(t, i) && end == (if t[i] == NEWLINE then i else i + 1) && start < end
    requires forall p: nat :: start <= p < i ==> !Splits(t, p)
    ensures Sentence(t, (start, end))
  {
    hide IsSpace, IsStop;
    SplitFinishes(t, i, end);
    forall p: nat | start <= p < end ensures t[p] != NEWLINE {
      assert p < i ==> !Splits(t, p);
    }
  }

  lemma {:induction false} SplitFinishes(t: seq<u8>, i: nat, end: nat)
    requires Splits(t, i) && end == if t[i] == NEWLINE then i else i + 1
    ensures Finished(t, end) && end <= |t|
  {
  }

  /** One more sentence, after a break or at the front. */
  lemma {:induction false} AppendSentence(t: seq<u8>, r: seq<Range>, e: Range)
    requires InOrder(r, |t|) && End(r) <= e.0 < e.1 <= |t| && Sentence(t, e)
    requires forall i: nat :: i < |r| ==> Sentence(t, r[i])
    requires forall i: nat :: i + 1 < |r| ==> Break(t, r[i].1, r[i + 1].0)
    requires r != [] ==> Break(t, End(r), e.0)
    ensures InOrder(r + [e], |t|)
    ensures forall i: nat :: i < |r + [e]| ==> Sentence(t, (r + [e])[i])
    ensures forall i: nat :: i + 1 < |r + [e]| ==> Break(t, (r + [e])[i].1, (r + [e])[i + 1].0)
  {
    hide Sentence, Break, InOrder;
    AppendInOrder(r, e, |t|);
    var s := r + [e];
    forall i: nat | i + 1 < |s| ensures Break(t, s[i].1, s[i + 1].0) {
      if i + 1 < |r| {
        assert s[i] == r[i] && s[i + 1] == r[i + 1];
      }
    }
  }

  /** The sentences found, spaces up to `end`. */
  ghost predicate Ended(t: seq<u8>, r: seq<Range>, end: nat) {
    && end <= |t| && InOrder(r, |t|) && End(r) <= end
    && (forall i: nat :: i < |r| ==> Sentence(t, r[i]))
    && (forall i: nat :: i + 1 < |r| ==> Break(t, r[i].1, r[i + 1].0))
    && (r != [] ==> Spaces(t, 0, r[0].0))
    && Spaces(t, End(r), end)
  }

  lemma {:induction false} NextSentence(t: seq<u8>, r: seq<Range>, end: nat, j: nat)
    requires Ended(t, r, end) && end < j <= |t| && Spaces(t, end, j) && (j < |t| ==> !IsSpace(t[j]))
    ensures SomeSentences(t, r, j)
  {
    hide IsSpace, Sentence, Break, InOrder;
  }

  lemma {:induction false} LastSentence(t: seq<u8>, r: seq<Range>, start: nat)
    requires SomeSentences(t, r, start) && start < |t| && forall p: nat :: start <= p < |t| ==> !Splits(t, p)
    ensures Sentences(t, r + [(start, |t|)])
  {
    hide IsSpace, Spaces, Sentence, Break, Splits;
    EndSentence(t, start);
    if r != [] {
      StartBreaks(t, r, start);
    }
    AppendSentence(t, r, (start, |t|));
    NoSpaces(t, |t|);
  }

  lemma {:induction false} EndSentence(t: seq<u8>, start: nat)
    requires start < |t| && forall p: nat :: start <= p < |t| ==> !Splits(t, p)
    ensures Sentence(t, (start, |t|))
  {
    hide IsSpace, IsStop;
    forall p: nat | start <= p < |t| ensures t[p] != NEWLINE {
      assert !Splits(t, p);
    }
  }
}
