/** The token by which an answer asks for a node (`parse_escalation`, src/llm.rs). */
module Escalation {
  import Chars
  import opened Nodes
  import opened Wrappers

  const TOKEN := "#ESCALATE"

  /** `find`: what follows the first occurrence. */
  function AfterFirst(s: string, needle: string): Option<string> {
    if needle <= s then Some(s[|needle|..])
    else if s == "" then None
    else AfterFirst(s[1..], needle)
  }

  predicate IsIdChar(c: char) {
    'a' <= c <= 'z' || 'A' <= c <= 'Z' || '0' <= c <= '9' || c == '_'
  }

  function TakeId(s: string): string {
    if s != "" && IsIdChar(s[0]) then [s[0]] + TakeId(s[1..]) else ""
  }

  /** `parse_escalation`: the token anywhere, then an id. */
  function ParseEscalation(text: string): Option<NodeId> {
    match AfterFirst(text, TOKEN)
    case Some(rest) => var id := TakeId(Chars.Trimmed(rest)); if id == "" then None else Some(id)
    case None => None
  }

  /** A text without a hash sign holds no token. */
  lemma {:induction false} NoHashNoToken(s: string)
    requires '#' !in s
    ensures ParseEscalation(s).None?
  {
    NoHashNoMatch(s);
  }

  lemma {:induction false} NoHashNoMatch(s: string)
    requires '#' !in s
    ensures AfterFirst(s, TOKEN).None?
  {
    assert TOKEN[0] == '#';
    if s != "" {
      assert |TOKEN| <= |s| ==> s[..|TOKEN|][0] == s[0];
      NoHashNoMatch(s[1..]);
    }
  }

  ghost predicate TokenAt(s: string, i: nat) {
    i + 9 <= |s| && s[i..i + 9] == "#ESCALATE"
  }

  /** The text asks for an id: a first token, a gap, and a longest run of letters, digits and underscores. */
  ghost predicate Asks(text: string, before: string, gap: string, id: NodeId, after: string) {
    && text == before + "#ESCALATE" + gap + id + after
    && (forall i: nat :: !TokenAt(before, i))
    && (forall c :: c in gap ==> Chars.IsWhitespace(c))
    && id != "" && (forall c :: c in id ==> 'a' <= c <= 'z' || 'A' <= c <= 'Z' || '0' <= c <= '9' || c == '_')
    && (after == "" ||
        !('a' <= after[0] <= 'z' || 'A' <= after[0] <= 'Z' || '0' <= after[0] <= '9' || after[0] == '_'))
  }

  lemma {:induction false} TakesRun(id: string, after: string)
    requires forall c :: c in id ==> IsIdChar(c)
    requires after == "" || !IsIdChar(after[0])
    ensures TakeId(id + after) == id
  {
    if id == "" {
      assert id + after == after;
    } else {
      assert id[0] in id && forall c :: c in id[1..] ==> c in id;
      TakesRun(id[1..], after);
      assert (id + after)[1..] == id[1..] + after;
    }
  }

  lemma {:induction false} TakeIsRun(s: string) returns (after: string)
    ensures s == TakeId(s) + after && (forall c :: c in TakeId(s) ==> IsIdChar(c))
    ensures after == "" || !IsIdChar(after[0])
  {
    after := s;
    if s != "" && IsIdChar(s[0]) {
      after := TakeIsRun(s[1..]);
      assert s == [s[0]] + s[1..];
    }
  }

  lemma {:induction false} GapTrimmed(gap: string, rest: string)
    requires (forall c :: c in gap ==> Chars.IsWhitespace(c)) && rest != "" && !Chars.IsWhitespace(rest[0])
    ensures Chars.Trimmed(gap + rest) == rest
  {
    if gap == "" {
      assert gap + rest == rest;
    } else {
      assert gap[0] in gap && forall c :: c in gap[1..] ==> c in gap;
      GapTrimmed(gap[1..], rest);
      assert (gap + rest)[1..] == gap[1..] + rest;
    }
  }

  lemma {:induction false} TrimmedGap(s: string) returns (gap: string)
    ensures s == gap + Chars.Trimmed(s) && forall c :: c in gap ==> Chars.IsWhitespace(c)
  {
    gap := "";
    if s != "" && Chars.IsWhitespace(s[0]) {
      var more := TrimmedGap(s[1..]);
      gap := [s[0]] + more;
      assert s == [s[0]] + s[1..];
    }
  }

  lemma {:induction false} TokenInTail(s: string, i: nat)
    requires s != ""
    ensures TokenAt(s[1..], i) <==> TokenAt(s, i + 1)
  {
    if i + 10 <= |s| {
      assert s[1..][i..i + 9] == s[i + 1..i + 1 + 9];
    }
  }

  lemma {:induction false} NoneInTail(s: string)
    requires s != "" && forall i: nat :: !TokenAt(s, i)
    ensures forall i: nat :: !TokenAt(s[1..], i)
  {
    hide TokenAt;
    forall i: nat ensures !TokenAt(s[1..], i) {
      TokenInTail(s, i);
    }
  }

  lemma {:induction false} NoPrefix(a: string, s: string, k: nat)
    requires k < |a| && k < |s| && a[k] != s[k]
    ensures !(a <= s)
  {
  }

  /** A token that starts inside `before` would have to end inside it: only its first character is a hash sign. */
  lemma {:induction false} NotYet(before: string, rest: string)
    requires before != "" && !TokenAt(before, 0)
    ensures !(TOKEN <= before + TOKEN + rest)
  {
    var s := before + TOKEN + rest;
    var k := |before|;
    if k < 9 {
      assert s[k] == TOKEN[0] == '#' && TOKEN[k] != '#';
      NoPrefix(TOKEN, s, k);
    } else {
      assert before[0..0 + 9] == s[..9];
    }
  }

  lemma {:induction false} FoundFirst(before: string, rest: string)
    requires forall i: nat :: !TokenAt(before, i)
    ensures AfterFirst(before + TOKEN + rest, TOKEN) == Some(rest)
  {
    hide TokenAt;
    var s := before + TOKEN + rest;
    if before == "" {
      assert s == TOKEN + rest;
    } else {
      NotYet(before, rest);
      NoneInTail(before);
      FoundFirst(before[1..], rest);
      assert s[1..] == before[1..] + TOKEN + rest;
    }
  }

  lemma {:induction false} NotAtFront(s: string, before: string)
    requires !(TOKEN <= s) && before <= s
    ensures !TokenAt(before, 0)
  {
    if 9 <= |before| {
      assert before[0..9] == s[..9];
    }
  }

  lemma {:induction false} FirstFound(s: string) returns (before: string)
    requires AfterFirst(s, TOKEN).Some?
    ensures s == before + TOKEN + AfterFirst(s, TOKEN).value
    ensures forall i: nat :: !TokenAt(before, i)
  {
    hide TokenAt;
    if TOKEN <= s {
      before := "";
      NothingAt();
      assert s == TOKEN + s[|TOKEN|..];
    } else {
      var later := FirstFound(s[1..]);
      before := [s[0]] + later;
      FrontBack(s, later, AfterFirst(s, TOKEN).value);
      NoneWithFront(s, before, later);
    }
  }

  lemma {:induction false} NothingAt()
    ensures forall i: nat :: !TokenAt("", i)
  {
  }

  lemma {:induction false} FrontBack(s: string, later: string, rest: string)
    requires s != "" && s[1..] == later + TOKEN + rest
    ensures s == [s[0]] + later + TOKEN + rest && [s[0]] + later <= s
  {
    assert s == [s[0]] + s[1..];
  }

  lemma {:induction false} NoneWithFront(s: string, before: string, later: string)
    requires !(TOKEN <= s) && before <= s && before != "" && before[1..] == later
    requires forall i: nat :: !TokenAt(later, i)
    ensures forall i: nat :: !TokenAt(before, i)
  {
    NotAtFront(s, before);
    hide TokenAt;
    forall i: nat ensures !TokenAt(before, i) {
      if i > 0 {
        TokenInTail(before, i - 1);
      }
    }
  }

  /** An id is asked for exactly when the text, read this way, names it. */
  lemma {:induction false} EscalationIff(text: string, id: NodeId)
    ensures ParseEscalation(text) == Some(id) <==>
            exists before: string, gap: string, after: string :: Asks(text, before, gap, id, after)
  {
    hide AfterFirst, TakeId, Chars.Trimmed;
    if ParseEscalation(text) == Some(id) {
      var before := FirstFound(text);
      var rest := AfterFirst(text, TOKEN).value;
      var gap := TrimmedGap(rest);
      var after := TakeIsRun(Chars.Trimmed(rest));
      assert text == before + "#ESCALATE" + gap + id + after;
      assert Asks(text, before, gap, id, after);
    }
    if exists before: string, gap: string, after: string :: Asks(text, before, gap, id, after) {
      var before: string, gap: string, after: string :| Asks(text, before, gap, id, after);
      assert id[0] in id;
      FoundFirst(before, gap + (id + after));
      assert text == before + TOKEN + (gap + (id + after));
      GapTrimmed(gap, id + after);
      TakesRun(id, after);
    }
  }
}
