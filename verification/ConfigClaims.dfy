/**
 * The rewriting of a configuration to one claim, read back before it is used
 * (proofs/check_mutants.py, `_sections`, `split_config` and `config_for`).
 */
module ConfigClaims {
  import opened Common
  import opened ConfigText
  import opened ConfigRewrite

  datatype Section = Section(keyword: string, written: string, body: seq<string>)

  function Span(t: string, begin: nat, end: nat): string { if begin <= end <= |t| then t[begin..end] else [] }

  function Cut(clean: string, toks: seq<Token>): (secs: seq<Section>)
    decreases toks
  {
    if toks == [] then [] else
    var n := NextHead(Texts(toks), 1, Turn(toks[0].text));
    [Section(toks[0].text, Span(clean, toks[0].begin, toks[n - 1].end), Texts(toks[1..n]))] + Cut(clean, toks[n..])
  }

  /**
   * Each section with its keyword, its text as written and its tokens; None
   * where reading stops with an error: a text that does not lex or has something
   * before its first keyword is refused, and on a text without a token the
   * pairing of heads with the heads that follow them fails.
   */
  function SectionsOf(t: string): Option<seq<Section>> {
    var toks := Lex(t, 0);
    if toks.None? || toks.value == [] || !IsKeyword(toks.value[0].text) then None
    else Some(Cut(Clean(t), toks.value))
  }

  function SectionTexts(s: Section): seq<string> { [s.keyword] + s.body }

  function Read(secs: seq<Section>): seq<seq<string>> {
    seq(|secs|, j requires 0 <= j < |secs| => SectionTexts(secs[j]))
  }

  function Kept(secs: seq<Section>): seq<Section> {
    if secs == [] then [] else (if IsClaim(secs[0].keyword) then [] else [secs[0]]) + Kept(secs[1..])
  }

  function Claims(secs: seq<Section>): seq<Section> {
    if secs == [] then [] else (if IsClaim(secs[0].keyword) then [secs[0]] else []) + Claims(secs[1..])
  }

  function Joined(secs: seq<Section>): string {
    if secs == [] then [] else if |secs| == 1 then secs[0].written else secs[0].written + ['\n'] + Joined(secs[1..])
  }

  function Rewritten(secs: seq<Section>, kind: string, name: string): string {
    Joined(Kept(secs)) + ['\n'] + (kind + [' '] + (name + ['\n'] + []))
  }

  /** The configuration with its claims replaced by exactly one, or None where the result does not read back so. */
  function ConfigFor(t: string, kind: string, name: string): Option<string> {
    var secs := SectionsOf(t);
    if secs.None? then None else
    var text := Rewritten(secs.value, kind, name);
    var after := SectionsOf(text);
    if after.Some? && Read(Kept(after.value)) == Read(Kept(secs.value))
       && |Claims(after.value)| == 1 && Claims(after.value)[0].body == [name]
    then Some(text) else None
  }

  // --- what each section's text reads as

  lemma {:induction false} CutReads(c: string, toks: seq<Token>, from: nat)
    requires PlainLex(c, 0) == Some(toks) && from <= |toks|
    ensures Read(Cut(c, toks[from..])) == Split(Texts(toks[from..]))
    ensures forall s :: s in Cut(c, toks[from..]) ==> PlainTexts(s.written, 0) == Some(SectionTexts(s))
    decreases |toks| - from
  {
    hide NextPiece;
    hide IsKeyword;
    hide PlainTexts;
    hide PlainLex;
    hide Texts;
    hide NextHead;
    hide Cut;
    hide Read;
    var ts := toks[from..];
    NoSections(c);
    if ts != [] {
      var n := NextHead(Texts(ts), 1, Turn(ts[0].text));
      Slice(c, toks, from, from + n);
      CutReads(c, toks, from + n);
      assert ts[n..] == toks[from + n..] && ts[..n] == toks[from..from + n];
      TextsAt(ts, n);
      CutStep(c, ts, n);
      var head, rest := Cut(c, ts)[0], Cut(c, ts[n..]);
      forall s | s in Cut(c, ts) ensures PlainTexts(s.written, 0) == Some(SectionTexts(s)) {
        assert s == head || s in rest;
      }
    }
  }

  lemma NoSections(c: string)
    ensures Cut(c, []) == [] && Read([]) == [] && Split(Texts([])) == []
  {
  }

  lemma CutStep(c: string, ts: seq<Token>, n: nat)
    requires ts != [] && n == NextHead(Texts(ts), 1, Turn(ts[0].text))
    ensures var head := Section(ts[0].text, Span(c, ts[0].begin, ts[n - 1].end), Texts(ts[1..n]));
      Cut(c, ts) == [head] + Cut(c, ts[n..]) && Read(Cut(c, ts)) == [SectionTexts(head)] + Read(Cut(c, ts[n..]))
  {
    hide NextHead, Turn, Texts, Read, Span;
    ReadMore(Section(ts[0].text, Span(c, ts[0].begin, ts[n - 1].end), Texts(ts[1..n])), Cut(c, ts[n..]));
  }

  lemma ReadMore(head: Section, rest: seq<Section>)
    ensures Read([head] + rest) == [SectionTexts(head)] + Read(rest)
  {
    assert ([head] + rest)[1..] == rest;
  }

  lemma TextsAt(ts: seq<Token>, n: nat)
    requires 1 <= n <= |ts|
    ensures |Texts(ts)| == |ts| && Texts(ts)[..n] == Texts(ts[..n]) == [ts[0].text] + Texts(ts[1..n])
      && Texts(ts)[n..] == Texts(ts[n..])
  {
  }

  /** What is read of a text: its tokens split into sections, each as it is written. */
  lemma SectionsRead(t: string)
    requires SectionsOf(t).Some?
    ensures Read(SectionsOf(t).value) == Split(Texts(Lex(t, 0).value))
    ensures Readable(Read(SectionsOf(t).value))
    ensures forall s :: s in SectionsOf(t).value ==> PlainTexts(s.written, 0) == Some(SectionTexts(s))
  {
    var toks := Lex(t, 0).value;
    BlankingKeepsTokens(t);
    assert toks[0..] == toks;
    CutReads(Clean(t), toks, 0);
    SplitReadable(Texts(toks));
  }

  /** Text that is plain reads as its tokens split into sections. */
  lemma PlainSections(t: string, ts: seq<string>)
    requires PlainTexts(t, 0) == Some(ts) && ts != [] && IsKeyword(ts[0])
    ensures SectionsOf(t).Some? && Read(SectionsOf(t).value) == Split(ts)
  {
    TextsArePlain(t, 0);
    PlainIsLex(t, 0);
    SectionsRead(t);
  }

  // --- filtering sections

  lemma KeptIn(secs: seq<Section>)
    ensures forall s :: s in Kept(secs) ==> s in secs && !IsClaim(s.keyword)
  {
  }

  lemma {:induction false} FilterJoin(a: seq<Section>, b: seq<Section>)
    ensures Kept(a + b) == Kept(a) + Kept(b) && Claims(a + b) == Claims(a) + Claims(b)
  {
    if a == [] {
      assert a + b == b;
    } else {
      assert (a + b)[1..] == a[1..] + b;
      FilterJoin(a[1..], b);
    }
  }

  lemma {:induction false} AllKept(secs: seq<Section>)
    requires forall s :: s in secs ==> !IsClaim(s.keyword)
    ensures Kept(secs) == secs && Claims(secs) == []
  {
    if secs != [] {
      AllKept(secs[1..]);
      assert secs == [secs[0]] + secs[1..];
    }
  }

  lemma {:induction false} JoinedReads(secs: seq<Section>, b: string)
    requires forall s :: s in secs ==> PlainTexts(s.written, 0) == Some(SectionTexts(s))
    requires PlainTexts(b, 0).Some?
    ensures PlainTexts(Joined(secs) + ['\n'] + b, 0) == Some(Flatten(Read(secs)) + PlainTexts(b, 0).value)
  {
    hide PlainTexts;
    if secs == [] {
      NewlineFirst(b);
    } else {
      var w, rest := secs[0].written, secs[1..];
      assert Read(secs) == [SectionTexts(secs[0])] + Read(rest);
      assert Read(secs)[1..] == Read(rest);
      if |secs| == 1 {
        ConfigRewrite.Joined(w, 0, '\n', b);
        assert SectionTexts(secs[0]) + [] == SectionTexts(secs[0]);
        assert Flatten(Read(rest)) == [];
      } else {
        var more := Joined(rest) + ['\n'] + b;
        JoinedReads(rest, b);
        ConfigRewrite.Joined(w, 0, '\n', more);
        assert Joined(secs) + ['\n'] + b == w + ['\n'] + more;
        assert SectionTexts(secs[0]) + (Flatten(Read(rest)) + PlainTexts(b, 0).value)
            == SectionTexts(secs[0]) + Flatten(Read(rest)) + PlainTexts(b, 0).value;
      }
    }
  }

  lemma NewlineFirst(b: string)
    requires PlainTexts(b, 0).Some?
    ensures PlainTexts([] + ['\n'] + b, 0) == Some([] + PlainTexts(b, 0).value)
  {
    assert PlainTexts([], 0) == Some([]);
    ConfigRewrite.Joined([], 0, '\n', b);
  }

  // --- one word, and one claim

  predicate WordText(s: string) { s != [] && forall k :: 0 <= k < |s| ==> IsWord(s[k]) }

  /** A name a claim can have: one word, and no keyword. */
  predicate ClaimName(s: string) { WordText(s) && !IsKeyword(s) }

  lemma WordReads(s: string)
    requires WordText(s)
    ensures PlainTexts(s, 0) == Some([s])
  {
    WordEndIs(s, 1, |s|);
    assert NextPiece(s, 0) == Tok(|s|);
    assert s[0..|s|] == s;
    assert PlainTexts(s, |s|) == Some([]);
    assert [s] + [] == [s];
  }

  lemma ClaimReads(kind: string, name: string)
    requires WordText(kind) && WordText(name)
    ensures PlainTexts(kind + [' '] + (name + ['\n'] + []), 0) == Some([kind, name])
  {
    WordReads(kind);
    WordReads(name);
    assert PlainTexts([], 0) == Some([]);
    ConfigRewrite.Joined(name, 0, '\n', []);
    ConfigRewrite.Joined(kind, 0, ' ', name + ['\n'] + []);
    assert [kind] + ([name] + []) == [kind, name];
  }

  /** Whether the last section, if it is kept, would let a claim follow it. */
  predicate Rewritable(secs: seq<Section>) {
    secs != [] && (IsClaim(secs[|secs| - 1].keyword) || Closed(SectionTexts(secs[|secs| - 1])))
  }

  lemma KeptReadable(secs: seq<Section>)
    requires Readable(Read(secs)) && Rewritable(secs)
    ensures forall s :: s in Kept(secs) ==> Proper(SectionTexts(s)) && Closed(SectionTexts(s))
  {
    hide IsKeyword;
    hide IsClaim;
    hide Proper;
    hide Closed;
    KeptIn(secs);
    forall s | s in Kept(secs) ensures Proper(SectionTexts(s)) && Closed(SectionTexts(s)) {
      var j :| 0 <= j < |secs| && secs[j] == s;
      assert Read(secs)[j] == SectionTexts(s);
    }
  }

  lemma ClaimIsProper(kind: string, name: string)
    requires IsClaim(kind) && ClaimName(name)
    ensures Proper([kind, name]) && WordText(kind)
  {
    assert NextHead([kind, name], 2, Turn(name)) == 2;
  }

  lemma FlattenMore(a: seq<seq<string>>, sec: seq<string>)
    ensures Flatten(a + [sec]) == Flatten(a) + sec
  {
    if a == [] {
      assert a + [sec] == [sec] && [sec][1..] == [];
      assert Flatten([sec]) == sec + [];
    } else {
      assert (a + [sec])[1..] == a[1..] + [sec];
      FlattenMore(a[1..], sec);
      assert a[0] + (Flatten(a[1..]) + sec) == a[0] + Flatten(a[1..]) + sec;
    }
  }

  /** What the rewritten text reads as, token by token. */
  lemma RewrittenReads(t: string, kind: string, name: string)
    requires SectionsOf(t).Some? && IsClaim(kind) && ClaimName(name)
    ensures PlainTexts(Rewritten(SectionsOf(t).value, kind, name), 0)
         == Some(Flatten(Read(Kept(SectionsOf(t).value))) + [kind, name])
  {
    hide PlainTexts;
    SectionsRead(t);
    KeptIn(SectionsOf(t).value);
    ClaimIsProper(kind, name);
    ClaimReads(kind, name);
    JoinedReads(Kept(SectionsOf(t).value), kind + [' '] + (name + ['\n'] + []));
  }

  /** Sections whose tokens are those of kept sections are kept themselves. */
  lemma ReadKept(after: seq<Section>, kept: seq<Section>)
    requires Read(after) == Read(kept) && forall s :: s in kept ==> !IsClaim(s.keyword)
    ensures Kept(after) == after && Claims(after) == []
  {
    hide IsClaim;
    forall s | s in after ensures !IsClaim(s.keyword) {
      var j :| 0 <= j < |after| && after[j] == s;
      assert Read(after)[j] == Read(kept)[j] == SectionTexts(kept[j]);
      assert SectionTexts(s)[0] == SectionTexts(kept[j])[0];
    }
    AllKept(after);
  }

  lemma SplitRead(text: string, secs: seq<seq<string>>)
    requires PlainTexts(text, 0) == Some(Flatten(secs)) && secs != [] && Readable(secs)
    ensures SectionsOf(text).Some? && Read(SectionsOf(text).value) == secs
  {
    hide PlainTexts;
    hide IsKeyword;
    SplitFlatten(secs);
    assert Flatten(secs)[0] == secs[0][0];
    PlainSections(text, Flatten(secs));
  }

  lemma RewriteReadsBack(t: string, kind: string, name: string)
    requires SectionsOf(t).Some? && IsClaim(kind) && ClaimName(name) && Rewritable(SectionsOf(t).value)
    ensures ConfigFor(t, kind, name) == Some(Rewritten(SectionsOf(t).value, kind, name))
    ensures var after := SectionsOf(ConfigFor(t, kind, name).value);
      after.Some? && Read(after.value) == Read(Kept(SectionsOf(t).value)) + [[kind, name]]
  {
    hide PlainTexts;
    hide Proper;
    hide Closed;
    hide ClaimName;
    var kept := Kept(SectionsOf(t).value);
    SectionsRead(t);
    KeptReadable(SectionsOf(t).value);
    KeptIn(SectionsOf(t).value);
    ClaimIsProper(kind, name);
    RewrittenReads(t, kind, name);
    FlattenMore(Read(kept), [kind, name]);
    var text := Rewritten(SectionsOf(t).value, kind, name);
    SplitRead(text, Read(kept) + [[kind, name]]);
    OneClaim(SectionsOf(text).value, kept, kind, name);
  }

  lemma OneClaim(after: seq<Section>, kept: seq<Section>, kind: string, name: string)
    requires Read(after) == Read(kept) + [[kind, name]] && IsClaim(kind)
    requires forall s :: s in kept ==> !IsClaim(s.keyword)
    ensures Read(Kept(after)) == Read(kept) && |Claims(after)| == 1 && Claims(after)[0].body == [name]
  {
    hide IsClaim;
    var n := |kept|;
    assert |after| == |Read(after)| == n + 1;
    var front, last := after[..n], after[n];
    assert after == front + [last];
    assert Read(front) == Read(after)[..n] == Read(kept);
    assert SectionTexts(last) == Read(after)[n] == [kind, name];
    assert last.keyword == SectionTexts(last)[0] && last.body == SectionTexts(last)[1..];
    ReadKept(front, kept);
    FilterJoin(front, [last]);
    assert [last][1..] == [];
    assert Kept([last]) == [] && Claims([last]) == [last];
    assert Kept(after) == front + [] == front && Claims(after) == [] + [last] == [last];
  }

  /** Where the last section is kept and open, the claim is read as part of it, and the rewriting is refused. */
  lemma RewriteRefused(t: string, kind: string, name: string)
    requires SectionsOf(t).Some? && IsClaim(kind) && ClaimName(name) && !Rewritable(SectionsOf(t).value)
    ensures ConfigFor(t, kind, name).None?
  {
    hide PlainTexts;
    hide IsKeyword;
    hide Proper;
    hide Closed;
    hide ClaimName;
    hide Readable;
    hide Flatten;
    hide SectionsOf;
    hide Rewritten;
    hide Rewritable;
    hide IsClaim;
    var secs := SectionsOf(t).value;
    SomeSection(t);
    OpenLast(secs);
    var last := secs[|secs| - 1];
    var front, open := Kept(secs[..|secs| - 1]), SectionTexts(last) + [kind, name];
    SectionsRead(t);
    LastKept(secs, kind, name);
    RewrittenReads(t, kind, name);
    FlattenMore(Read(front), SectionTexts(last));
    FlattenMore(Read(front), open);
    assert Flatten(Read(front)) + SectionTexts(last) + [kind, name] == Flatten(Read(front)) + open;
    var text := Rewritten(secs, kind, name);
    SplitRead(text, Read(front) + [open]);
    var swallowed := front + [Section(last.keyword, [], last.body + [kind, name])];
    KeptIn(secs[..|secs| - 1]);
    assert [last.keyword] + (last.body + [kind, name]) == open;
    assert Read(swallowed) == Read(front) + [open];
    ReadKept(SectionsOf(text).value, swallowed);
  }

  lemma SomeSection(t: string)
    requires SectionsOf(t).Some?
    ensures SectionsOf(t).value != []
  {
    hide NextHead, Texts;
  }

  lemma OpenLast(secs: seq<Section>)
    requires secs != [] && !Rewritable(secs)
    ensures !IsClaim(secs[|secs| - 1].keyword)
  {
  }

  lemma LastKept(secs: seq<Section>, kind: string, name: string)
    requires secs != [] && Readable(Read(secs)) && !Rewritable(secs) && IsClaim(kind) && ClaimName(name)
    ensures var n := |secs| - 1;
      var front := Kept(secs[..n]);
      && Read(Kept(secs)) == Read(front) + [SectionTexts(secs[n])]
      && Readable(Read(front) + [SectionTexts(secs[n]) + [kind, name]])
  {
    hide IsKeyword;
    hide Proper;
    hide Closed;
    hide ClaimName;
    var n := |secs| - 1;
    var front, last := secs[..n], secs[n];
    FilterJoin(front, [last]);
    assert secs == front + [last] && [last][1..] == [];
    assert Kept([last]) == [last] + [] == [last];
    assert Read(secs)[n] == SectionTexts(last);
    OpenSwallows(SectionTexts(last), kind, name);
    KeptIn(front);
    forall s | s in Kept(front) ensures Proper(SectionTexts(s)) && Closed(SectionTexts(s)) {
      var j :| 0 <= j < n && front[j] == s;
      assert Read(secs)[j] == SectionTexts(s);
    }
  }

  lemma OpenSwallows(sec: seq<string>, kind: string, name: string)
    requires Proper(sec) && !Closed(sec) && IsClaim(kind) && ClaimName(name)
    ensures Proper(sec + [kind, name])
  {
    hide IsKeyword;
    var more := sec + [kind, name];
    KeywordTurn(sec[0]);
    ReadPast(sec, [kind, name], 1, 0);
    DepthJoin(sec[..1], sec[1..]);
    assert sec[..1] + sec[1..] == sec && Depth(sec[..1]) == Turn(sec[0]) + Depth([]);
    assert more[|sec|] == kind && more[|sec| + 1] == name && more[|sec| - 1] == sec[|sec| - 1];
    assert NextHead(more, |sec| + 2, Depth(sec) + Turn(kind) + Turn(name)) == |more|;
    assert NextHead(more, |sec| + 1, Depth(sec) + Turn(kind)) == |more|;
  }

  /**
   * A configuration can be rewritten to one claim exactly when it reads as
   * sections of which the last is a claim, or closes its brackets and does not
   * end on `=` or `<-`; and then the result reads back as the same other
   * sections, in order, and that claim.
   */
  lemma RewritingIsExact(t: string, kind: string, name: string)
    requires IsClaim(kind) && ClaimName(name)
    ensures ConfigFor(t, kind, name).Some? <==> SectionsOf(t).Some? && Rewritable(SectionsOf(t).value)
    ensures ConfigFor(t, kind, name).Some? ==>
              var after := SectionsOf(ConfigFor(t, kind, name).value);
              after.Some? && Read(after.value) == Read(Kept(SectionsOf(t).value)) + [[kind, name]]
  {
    if SectionsOf(t).Some? {
      if Rewritable(SectionsOf(t).value) {
        RewriteReadsBack(t, kind, name);
      } else {
        RewriteRefused(t, kind, name);
      }
    }
  }

  lemma {:induction false} OnlySpaces(c: string, i: nat)
    ensures PlainLex(c, i) == Some([]) <==> forall k :: i <= k < |c| ==> IsSpace(c[k])
    decreases if i < |c| then |c| - i else 0
  {
    hide IsSpace;
    if i < |c| {
      SpacePiece(c, i);
      if NextPiece(c, i).Space? { OnlySpaces(c, i + 1); }
    }
  }

  /**
   * A text that holds nothing but white space and comments that close has no
   * token. It does not read as no sections: reading it, and so rewriting it,
   * fails.
   */
  lemma NothingToRead(t: string, kind: string, name: string)
    requires Lex(t, 0).Some?
    ensures Lex(t, 0) == Some([]) <==> forall k :: 0 <= k < |t| ==> IsSpace(Clean(t)[k])
    ensures (forall k :: 0 <= k < |t| ==> IsSpace(Clean(t)[k])) ==>
              SectionsOf(t).None? && ConfigFor(t, kind, name).None?
  {
    hide IsSpace, Clean, PlainLex, Lex;
    BlankingKeepsTokens(t);
    OnlySpaces(Clean(t), 0);
  }

  /** The empty text is one. */
  lemma EmptyTextFails(kind: string, name: string)
    ensures Lex("", 0) == Some([]) && SectionsOf("").None? && ConfigFor("", kind, name).None?
  {
  }

  /** The reader as it runs: one pass over the tokens, keeping the bracket depth, that closes a section at each head. */
  method ReadSections(t: string) returns (r: Option<seq<Section>>)
    ensures r == SectionsOf(t)
  {
    hide NextPiece;
    var clean, lexed := Scan(t);
    if lexed.None? { return None; }
    var tokens := lexed.value;
    if tokens == [] { return None; }
    if !IsKeyword(tokens[0].text) { return None; }
    r := CutTokens(clean, tokens);
  }

  method CutTokens(clean: string, tokens: seq<Token>) returns (r: Option<seq<Section>>)
    requires tokens != []
    ensures r == Some(Cut(clean, tokens))
  {
    hide IsKeyword;
    hide Cut;
    hide NextHead;
    hide Texts;
    var done: seq<Section> := [];
    var head, i, depth := 0, 1, Turn(tokens[0].text);
    assert tokens[0..] == tokens;
    while i < |tokens|
      invariant head < i <= |tokens|
      invariant Cut(clean, tokens) == done + Cut(clean, tokens[head..])
      invariant NextHead(Texts(tokens[head..]), 1, Turn(tokens[head].text)) ==
        NextHead(Texts(tokens[head..]), i - head, depth)
    {
      NextHeadStep(tokens, head, i, depth);
      if IsKeyword(tokens[i].text) && depth == 0 && !IsGiving(tokens[i - 1].text) {
        CloseSection(clean, tokens, head, i);
        done := done + [SectionAt(clean, tokens, head, i)];
        head, depth := i, 0;
        KeywordTurn(tokens[i].text);
      } else {
        depth := depth + Turn(tokens[i].text);
      }
      i := i + 1;
    }
    assert NextHead(Texts(tokens[head..]), i - head, depth) == i - head;
    CloseSection(clean, tokens, head, i);
    assert tokens[i..] == [];
    NoSections(clean);
    assert done + ([SectionAt(clean, tokens, head, i)] + []) == done + [SectionAt(clean, tokens, head, i)];
    r := Some(done + [SectionAt(clean, tokens, head, i)]);
  }

  lemma NextHeadStep(tokens: seq<Token>, head: nat, i: nat, depth: int)
    requires head < i < |tokens|
    ensures var ts := Texts(tokens[head..]);
      NextHead(ts, i - head, depth) ==
        if IsKeyword(tokens[i].text) && depth == 0 && !IsGiving(tokens[i - 1].text) then i - head
        else NextHead(ts, i + 1 - head, depth + Turn(tokens[i].text))
  {
    hide IsKeyword;
    var ts := Texts(tokens[head..]);
    assert ts[i - head] == tokens[i].text && ts[i - head - 1] == tokens[i - 1].text;
  }

  function SectionAt(clean: string, tokens: seq<Token>, head: nat, next: nat): Section
    requires head < next <= |tokens|
  {
    Section(tokens[head].text, Span(clean, tokens[head].begin, tokens[next - 1].end), Texts(tokens[head + 1..next]))
  }

  lemma CloseSection(clean: string, tokens: seq<Token>, head: nat, next: nat)
    requires head < next <= |tokens|
    requires NextHead(Texts(tokens[head..]), 1, Turn(tokens[head].text)) == next - head
    ensures Cut(clean, tokens[head..]) == [SectionAt(clean, tokens, head, next)] + Cut(clean, tokens[next..])
  {
    var ts := tokens[head..];
    assert ts[next - head..] == tokens[next..] && ts[1..next - head] == tokens[head + 1..next];
    CutStep(clean, ts, next - head);
  }
}
