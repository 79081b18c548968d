/**
 * Sections of a configuration, and its rewriting to one claim
 * (proofs/check_mutants.py, `_sections`, `split_config`, `config_for`).
 */
module ConfigRewrite {
  import opened Common
  import opened ConfigText

  // --- text without comments

  function PlainLex(t: string, i: nat): Option<seq<Token>>
    decreases if i < |t| then |t| - i else 0
  {
    if i >= |t| then Some([]) else
    match NextPiece(t, i)
    case Space => PlainLex(t, i + 1)
    case Tok(n) => Prepend([Token(t[i..i + n], i, i + n)], PlainLex(t, i + n))
    case _ => None
  }

  /** The tokens of a text that has no comment from a place on, without their spans. */
  function PlainTexts(t: string, i: nat): Option<seq<string>>
    decreases if i < |t| then |t| - i else 0
  {
    if i >= |t| then Some([]) else
    match NextPiece(t, i)
    case Space => PlainTexts(t, i + 1)
    case Tok(n) => Prepend([t[i..i + n]], PlainTexts(t, i + n))
    case _ => None
  }

  lemma {:induction false} PlainIsLex(t: string, i: nat)
    requires PlainLex(t, i).Some?
    ensures Lex(t, i) == PlainLex(t, i) && PlainTexts(t, i) == Some(Texts(PlainLex(t, i).value))
    decreases if i < |t| then |t| - i else 0
  {
    hide NextPiece;
    if i >= |t| {
      assert Texts([]) == [];
    } else {
      var n := Length(NextPiece(t, i));
      PlainIsLex(t, i + n);
      if NextPiece(t, i).Tok? {
        assert Texts(PlainLex(t, i).value) == [t[i..i + n]] + Texts(PlainLex(t, i + n).value);
      }
    }
  }

  lemma {:induction false} TextsArePlain(t: string, i: nat)
    requires PlainTexts(t, i).Some?
    ensures PlainLex(t, i).Some?
    decreases if i < |t| then |t| - i else 0
  {
    hide NextPiece;
    if i < |t| { TextsArePlain(t, i + Length(NextPiece(t, i))); }
  }

  // --- a token keeps its extent if what follows it does not grow it

  lemma {:induction false} WordEndIs(t: string, i: nat, e: nat)
    requires i <= e <= |t| && (forall k :: i <= k < e ==> IsWord(t[k])) && (e == |t| || !IsWord(t[e]))
    ensures WordEnd(t, i) == e
    decreases e - i
  {
    if i < e { WordEndIs(t, i + 1, e); }
  }

  lemma {:induction false} StringEndSame(t: string, i: nat, c: string, k: nat)
    requires StringEnd(t, i) < |t| && k + (StringEnd(t, i) - i) < |c|
    requires c[k..k + (StringEnd(t, i) - i)] == t[i..StringEnd(t, i)] && c[k + (StringEnd(t, i) - i)] == '"'
    ensures StringEnd(c, k) == k + (StringEnd(t, i) - i)
    decreases |t| - i
  {
    if t[i] != '"' {
      var step, e := if t[i] == '\\' then 2 else 1, StringEnd(t, i);
      var d := k + (e - i);
      assert c[k] == c[k..d][0] == t[i..e][0] == t[i];
      assert t[i + step..e] == t[i..e][step..] && c[k + step..d] == c[k..d][step..];
      StringEndSame(t, i + step, c, k + step);
    }
  }

  /** What may stand after a token without changing it: nothing, a space, or what stood there before. */
  ghost predicate Follows(t: string, i: nat, c: string, k: nat) {
    k == |c| || (k < |c| && (IsSpace(c[k]) || (i < |t| && c[k] == t[i])))
  }

  lemma SubSlice(t: string, i: nat, n: nat, a: nat, b: nat)
    requires i + n <= |t| && a <= b <= n
    ensures t[i..i + n][a..b] == t[i + a..i + b]
  {
    var x := t[i..i + n];
    assert |x[a..b]| == b - a == |t[i + a..i + b]|;
    forall j | 0 <= j < b - a ensures x[a..b][j] == t[i + a..i + b][j] {
      assert x[a..b][j] == x[a + j] == t[i + (a + j)];
    }
  }

  lemma SameString(t: string, i: nat, c: string, k: nat, n: nat)
    requires i < |t| && NextPiece(t, i) == Tok(n) && t[i] == '"' && n > 0 && i + n <= |t|
    requires k + n <= |c| && c[k..k + n] == t[i..i + n]
    ensures NextPiece(c, k) == Tok(n)
  {
    assert c[k] == c[k..k + n][0] == t[i..i + n][0] == t[i];
    SubSlice(c, k, n, 1, n - 1);
    SubSlice(t, i, n, 1, n - 1);
    assert c[k + n - 1] == c[k..k + n][n - 1] == t[i..i + n][n - 1] == '"';
    StringEndSame(t, i + 1, c, k + 1);
  }

  lemma SameWord(t: string, i: nat, c: string, k: nat, n: nat)
    requires i < |t| && NextPiece(t, i) == Tok(n) && IsWord(t[i]) && n > 0 && i + n <= |t|
    requires k + n <= |c| && c[k..k + n] == t[i..i + n] && Follows(t, i + n, c, k + n)
    ensures NextPiece(c, k) == Tok(n)
  {
    assert c[k] == c[k..k + n][0] == t[i..i + n][0] == t[i];
    forall j | k + 1 <= j < k + n ensures IsWord(c[j]) {
      assert c[j] == c[k..k + n][j - k] == t[i..i + n][j - k] == t[i + (j - k)];
    }
    WordEndIs(c, k + 1, k + n);
  }

  lemma SameToken(t: string, i: nat, c: string, k: nat, n: nat)
    requires i < |t| && NextPiece(t, i) == Tok(n)
    requires k + n <= |c| && c[k..k + n] == t[i..i + n] && Follows(t, i + n, c, k + n)
    ensures NextPiece(c, k) == Tok(n)
  {
    if t[i] == '"' {
      SameString(t, i, c, k, n);
    } else if IsWord(t[i]) {
      SameWord(t, i, c, k, n);
    } else {
      assert c[k] == c[k..k + n][0] == t[i..i + n][0] == t[i];
      assert n > 1 ==> c[k + 1] == c[k..k + n][1] == t[i..i + n][1] == t[i + 1];
    }
  }

  // --- blanking comments neither merges, splits nor drops a token

  lemma {:induction false} SkipSpaces(c: string, i: nat, j: nat)
    requires i <= j <= |c| && forall k :: i <= k < j ==> IsSpace(c[k])
    ensures PlainLex(c, i) == PlainLex(c, j)
    decreases j - i
  {
    if i < j { SkipSpaces(c, i + 1, j); }
  }

  lemma {:induction false} CleanKeepsFrom(t: string, i: nat)
    requires i <= |t| && Lex(t, i).Some? && Boundary(t, i)
    ensures PlainLex(Clean(t), i) == Lex(t, i)
    decreases |t| - i
  {
    hide NextPiece;
    hide Boundary;
    hide InComment;
    if i < |t| {
      var piece, c := NextPiece(t, i), Clean(t);
      var n := Length(piece);
      BoundaryStep(t, i, piece);
      CleanKeepsFrom(t, i + n);
      match piece
      case Space =>
        SpacePiece(t, i);
        assert c[i] == t[i];
        SpacePiece(c, i);
      case Comment(_) => SkipSpaces(c, i, i + n);
      case Tok(_) =>
        assert c[i..i + n] == t[i..i + n];
        SameToken(t, i, c, i, n);
    }
  }

  lemma SpacePiece(t: string, i: nat)
    requires i < |t|
    ensures NextPiece(t, i).Space? <==> IsSpace(t[i])
  {
  }

  /** The blanked text reads as the same tokens in the same places, and has no comment left. */
  lemma BlankingKeepsTokens(t: string)
    requires Lex(t, 0).Some?
    ensures Lex(Clean(t), 0) == Lex(t, 0) == PlainLex(Clean(t), 0)
  {
    CleanKeepsFrom(t, 0);
    PlainIsLex(Clean(t), 0);
  }

  // --- slices and joins of plain text

  lemma {:induction false} SameSuffix(t: string, i: nat, c: string, k: nat)
    requires i <= |t| && k <= |c| && t[i..] == c[k..] && PlainTexts(t, i).Some?
    ensures PlainTexts(c, k) == PlainTexts(t, i)
    decreases |t| - i
  {
    hide NextPiece;
    if i == |t| {
      assert |c[k..]| == 0;
    } else {
      var n := Length(NextPiece(t, i));
      assert t[i] == t[i..][0] == c[k..][0] == c[k];
      assert t[i + n..] == t[i..][n..] == c[k..][n..] == c[k + n..];
      assert t[i..i + n] == t[i..][..n] == c[k..][..n] == c[k..k + n];
      SameSuffix(t, i + n, c, k + n);
      SpacePiece(t, i);
      SpacePiece(c, k);
      if NextPiece(t, i).Tok? {
        assert i + n < |t| ==> t[i + n] == t[i..][n] == c[k..][n] == c[k + n];
        SameToken(t, i, c, k, n);
      }
    }
  }

  lemma {:induction false} Joined(a: string, i: nat, sep: char, b: string)
    requires i <= |a| && IsSpace(sep) && PlainTexts(a, i).Some? && PlainTexts(b, 0).Some?
    ensures PlainTexts(a + [sep] + b, i) == Some(PlainTexts(a, i).value + PlainTexts(b, 0).value)
    decreases |a| - i
  {
    hide NextPiece;
    var c := a + [sep] + b;
    SpacePiece(c, i);
    if i == |a| {
      assert c[i + 1..] == b[0..];
      SameSuffix(b, 0, c, i + 1);
      assert [] + PlainTexts(b, 0).value == PlainTexts(b, 0).value;
    } else {
      var n := Length(NextPiece(a, i));
      SpacePiece(a, i);
      Joined(a, i + n, sep, b);
      if NextPiece(a, i).Tok? {
        assert c[i..i + n] == a[i..i + n];
        SameToken(a, i, c, i, n);
        PrependAssoc([a[i..i + n]], PlainTexts(a, i + n).value, PlainTexts(b, 0));
      }
    }
  }

  lemma {:induction false} TokensInOrder(c: string, i: nat, a: nat)
    requires PlainLex(c, i).Some? && a < |PlainLex(c, i).value|
    ensures var tk := PlainLex(c, i).value[a]; i <= tk.begin < tk.end <= |c|
    ensures PlainLex(c, PlainLex(c, i).value[a].begin) == Some(PlainLex(c, i).value[a..])
    decreases if i < |c| then |c| - i else 0
  {
    hide NextPiece;
    var toks, n := PlainLex(c, i).value, Length(NextPiece(c, i));
    if NextPiece(c, i).Space? {
      TokensInOrder(c, i + 1, a);
    } else if a > 0 {
      TokensInOrder(c, i + n, a - 1);
      assert PlainLex(c, i + n).value[a - 1..] == toks[a..];
    } else {
      assert toks[0..] == toks;
    }
  }

  lemma {:induction false} Upto(c: string, i: nat, m: nat)
    requires i <= |c| && PlainLex(c, i).Some? && 0 < m <= |PlainLex(c, i).value|
    ensures var e := PlainLex(c, i).value[m - 1].end;
      i < e <= |c| && PlainTexts(c[..e], i) == Some(Texts(PlainLex(c, i).value[..m]))
    decreases |c| - i
  {
    hide NextPiece;
    hide Texts;
    var toks, n := PlainLex(c, i).value, Length(NextPiece(c, i));
    var e := toks[m - 1].end;
    TokensInOrder(c, i, m - 1);
    SpacePiece(c, i);
    SpacePiece(c[..e], i);
    if NextPiece(c, i).Space? {
      Upto(c, i + 1, m);
    } else {
      var rest := PlainLex(c, i + n).value;
      if m > 1 {
        Upto(c, i + n, m - 1);
      }
      TextsCons(toks, rest, m);
      assert c[..e][i..i + n] == c[i..i + n];
      SameToken(c, i, c[..e], i, n);
    }
  }

  lemma TextsCons(toks: seq<Token>, rest: seq<Token>, m: nat)
    requires 0 < m <= |toks| && toks[1..] == rest
    ensures Texts(toks[..m]) == [toks[0].text] + Texts(rest[..m - 1]) && (m == 1 ==> Texts(rest[..m - 1]) == [])
  {
  }

  /** The text from one token to a later one reads as the tokens from the one to the other. */
  lemma Slice(c: string, toks: seq<Token>, a: nat, b: nat)
    requires PlainLex(c, 0) == Some(toks) && a < b <= |toks|
    ensures toks[a].begin <= toks[b - 1].end <= |c|
    ensures PlainTexts(c[toks[a].begin..toks[b - 1].end], 0) == Some(Texts(toks[a..b]))
  {
    hide NextPiece;
    hide PlainLex;
    hide PlainTexts;
    hide Texts;
    TokensInOrder(c, 0, a);
    var begin, e := toks[a].begin, toks[b - 1].end;
    Upto(c, begin, b - a);
    assert toks[a..][..b - a] == toks[a..b];
    assert c[..e][begin..] == c[begin..e][0..];
    SameSuffix(c[..e], begin, c[begin..e], 0);
  }

  // --- sections, as lists of tokens

  predicate IsClaim(s: string) { s in {"INVARIANT", "INVARIANTS", "PROPERTY", "PROPERTIES"} }

  predicate IsKeyword(s: string) {
    IsClaim(s) || s in {
      "SPECIFICATION", "INIT", "NEXT", "CONSTANT", "CONSTANTS", "CONSTRAINT", "CONSTRAINTS", "ACTION_CONSTRAINT",
      "ACTION_CONSTRAINTS", "SYMMETRY", "VIEW", "ALIAS", "POSTCONDITION", "POSTCONDITIONS", "CHECK_DEADLOCK",
      "_PERIODIC", "_RL_REWARD", "_POSSIBLE" }
  }

  predicate IsGiving(s: string) { s == "=" || s == "<-" }

  function Turn(s: string): int {
    if s == "{" || s == "[" || s == "(" then 1 else if s == "}" || s == "]" || s == ")" then -1 else 0
  }

  function Depth(ts: seq<string>): int { if ts == [] then 0 else Turn(ts[0]) + Depth(ts[1..]) }

  /** Whether a keyword at a place starts a section: outside brackets, and not as the value after `=` or `<-`. */
  predicate Heads(ts: seq<string>, i: nat, depth: int)
    requires i < |ts|
  {
    IsKeyword(ts[i]) && depth == 0 && (i == 0 || !IsGiving(ts[i - 1]))
  }

  /** The first place from `i` on that starts a section, given the bracket depth there. */
  function NextHead(ts: seq<string>, i: nat, depth: int): (r: nat)
    requires i <= |ts|
    ensures i <= r <= |ts| && (r < |ts| ==> IsKeyword(ts[r]) && (r == 0 || !IsGiving(ts[r - 1])))
    decreases |ts| - i
  {
    if i == |ts| then i
    else if Heads(ts, i, depth) then i
    else NextHead(ts, i + 1, depth + Turn(ts[i]))
  }

  /** The sections of a list of tokens whose first is a keyword. */
  function Split(ts: seq<string>): seq<seq<string>> {
    if ts == [] then [] else
    var n := NextHead(ts, 1, Turn(ts[0]));
    [ts[..n]] + Split(ts[n..])
  }

  function Flatten(secs: seq<seq<string>>): seq<string> { if secs == [] then [] else secs[0] + Flatten(secs[1..]) }

  /** A section on its own: a keyword, and after it nothing that would start another. */
  predicate Proper(sec: seq<string>) { sec != [] && IsKeyword(sec[0]) && NextHead(sec, 1, 0) == |sec| }

  /** Whether a keyword after the section would start another: brackets closed, and not ending on `=` or `<-`. */
  predicate Closed(sec: seq<string>) { sec != [] && Depth(sec) == 0 && !IsGiving(sec[|sec| - 1]) }

  ghost predicate Readable(secs: seq<seq<string>>) {
    forall j :: 0 <= j < |secs| ==> Proper(secs[j]) && (j < |secs| - 1 ==> Closed(secs[j]))
  }

  lemma DepthJoin(a: seq<string>, b: seq<string>)
    ensures Depth(a + b) == Depth(a) + Depth(b)
  {
    if a == [] {
      assert a + b == b;
    } else {
      assert (a + b)[1..] == a[1..] + b;
      DepthJoin(a[1..], b);
    }
  }

  lemma KeywordTurn(s: string)
    requires IsKeyword(s)
    ensures Turn(s) == 0
  {
  }

  lemma NextHeadAt(ts: seq<string>, i: nat, depth: int)
    requires i < |ts|
    ensures NextHead(ts, i, depth) == if Heads(ts, i, depth) then i else NextHead(ts, i + 1, depth + Turn(ts[i]))
  {
    hide Heads, Turn;
  }

  lemma HeadsSame(sec: seq<string>, rest: seq<string>, i: nat, depth: int)
    requires 1 <= i < |sec|
    ensures (sec + rest)[i] == sec[i] && Heads(sec + rest, i, depth) == Heads(sec, i, depth)
    ensures Depth(sec[i..]) == Turn(sec[i]) + Depth(sec[i + 1..])
  {
    hide IsKeyword, Turn;
    assert sec[i..][1..] == sec[i + 1..];
  }

  /** Reading past a section that starts no other one. */
  lemma {:induction false} ReadPast(sec: seq<string>, rest: seq<string>, i: nat, depth: int)
    requires 1 <= i <= |sec| && NextHead(sec, i, depth) == |sec|
    ensures NextHead(sec + rest, i, depth) == NextHead(sec + rest, |sec|, depth + Depth(sec[i..]))
    decreases |sec| - i
  {
    hide NextHead, Heads, Turn;
    if i < |sec| {
      NextHeadAt(sec, i, depth);
      NextHeadAt(sec + rest, i, depth);
      HeadsSame(sec, rest, i, depth);
      ReadPast(sec, rest, i + 1, depth + Turn(sec[i]));
    } else {
      assert sec[i..] == [];
    }
  }

  /** A proper section is read up to its end, if it is closed or nothing follows it. */
  lemma ReadFirst(sec: seq<string>, rest: seq<string>)
    requires Proper(sec) && (rest != [] ==> Closed(sec) && IsKeyword(rest[0]))
    ensures Turn(sec[0]) == 0 && NextHead(sec + rest, 1, 0) == |sec|
  {
    hide NextHead, Heads, Turn, IsKeyword;
    KeywordTurn(sec[0]);
    ReadPast(sec, rest, 1, 0);
    assert sec[..1] == [sec[0]] && sec[1..] == sec[1..|sec|];
    var all := sec + rest;
    if rest == [] {
      assert |all| == |sec|;
    } else {
      assert all[|sec|] == rest[0] && all[|sec| - 1] == sec[|sec| - 1];
      NextHeadHere(all, |sec|);
    }
  }

  /** A keyword outside brackets that is no value is a head. */
  lemma NextHeadHere(ts: seq<string>, i: nat)
    requires 0 < i < |ts| && IsKeyword(ts[i]) && !IsGiving(ts[i - 1])
    ensures NextHead(ts, i, 0) == i
  {
    hide IsKeyword;
  }

  lemma ReadableParts(secs: seq<seq<string>>)
    requires Readable(secs) && secs != []
    ensures Proper(secs[0]) && Readable(secs[1..])
    ensures |secs| > 1 ==> Closed(secs[0]) && secs[1] != [] && IsKeyword(secs[1][0])
  {
    hide IsKeyword, Closed, NextHead;
  }

  lemma SplitFirst(sec: seq<string>, rest: seq<string>)
    requires sec != [] && Turn(sec[0]) == 0 && NextHead(sec + rest, 1, 0) == |sec|
    ensures Split(sec + rest) == [sec] + Split(rest)
  {
    hide NextHead, Turn;
    assert (sec + rest)[..|sec|] == sec && (sec + rest)[|sec|..] == rest && (sec + rest)[0] == sec[0];
  }

  /** Proper sections, each but the last closed, read back as themselves. */
  lemma {:induction false} SplitFlatten(secs: seq<seq<string>>)
    requires Readable(secs)
    ensures Split(Flatten(secs)) == secs
  {
    hide IsKeyword, NextHead, Turn, Closed, Readable, Split;
    if secs == [] {
      assert Split([]) == [] by { SplitNothing(); }
    } else {
      var sec, rest := secs[0], Flatten(secs[1..]);
      ReadableParts(secs);
      SplitFlatten(secs[1..]);
      if |secs| > 1 { assert rest[0] == secs[1][0]; }
      ReadFirst(sec, rest);
      SplitFirst(sec, rest);
    }
  }

  lemma SplitNothing()
    ensures Split([]) == []
  {
  }

  lemma ReadableJoin(sec: seq<string>, rest: seq<seq<string>>)
    requires Proper(sec) && Readable(rest) && (rest != [] ==> Closed(sec))
    ensures Readable([sec] + rest) && Flatten([sec] + rest) == sec + Flatten(rest)
  {
    hide Proper, Closed;
    var secs := [sec] + rest;
    assert secs[1..] == rest;
    forall j | 0 <= j < |secs| ensures Proper(secs[j]) && (j < |secs| - 1 ==> Closed(secs[j])) {
      if j > 0 { assert secs[j] == rest[j - 1]; }
    }
  }

  /** What the reader splits off is proper, and closed unless it is last. */
  lemma {:induction false} SplitReadable(ts: seq<string>)
    requires ts != [] ==> IsKeyword(ts[0])
    ensures Readable(Split(ts)) && Flatten(Split(ts)) == ts
    decreases ts
  {
    hide IsKeyword, Proper, Closed, NextHead, Turn, Readable, Flatten;
    if ts == [] {
      NothingReadable();
    } else {
      KeywordTurn(ts[0]);
      var n := NextHead(ts, 1, 0);
      FirstSection(ts);
      SplitReadable(ts[n..]);
      assert ts[..n] + ts[n..] == ts;
      ReadableJoin(ts[..n], Split(ts[n..]));
    }
  }

  lemma NothingReadable()
    ensures Readable([]) && Flatten([]) == []
  {
  }

  lemma FirstSection(ts: seq<string>)
    requires ts != [] && IsKeyword(ts[0])
    ensures var n := NextHead(ts, 1, 0); Proper(ts[..n]) && (n < |ts| ==> Closed(ts[..n]))
  {
    hide IsKeyword;
    KeywordTurn(ts[0]);
    NextHeadTake(ts, 1, 0);
    var n := NextHead(ts, 1, 0);
    var sec := ts[..n];
    assert sec == sec[..1] + sec[1..] && sec[1..] == ts[1..n];
    DepthJoin(sec[..1], sec[1..]);
    assert Depth(sec[..1]) == Turn(ts[0]) + Depth([]);
  }

  /** The tokens up to the next head hold no head, and bring the depth back to 0 if there is one. */
  lemma {:induction false} NextHeadTake(ts: seq<string>, i: nat, depth: int)
    requires 1 <= i <= |ts|
    ensures var n := NextHead(ts, i, depth);
      NextHead(ts[..n], i, depth) == n && (n < |ts| ==> depth + Depth(ts[i..n]) == 0)
    decreases |ts| - i
  {
    hide IsKeyword;
    var n := NextHead(ts, i, depth);
    if i < n {
      NextHeadTake(ts, i + 1, depth + Turn(ts[i]));
      assert ts[i..n][1..] == ts[i + 1..n];
    } else {
      assert ts[i..n] == [];
    }
  }
}
