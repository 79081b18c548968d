/**
 * Expression normalisation of scripts/audit_spanner_schema.py, from the token
 * list on: words the dialect reads without regard to case are put in upper
 * case, and parentheses that enclose the whole expression are taken off.
 */
module SqlTokens {

  datatype Token = Token(text: string, word: bool)

  /** The fixed word lists. */
  datatype Vocabulary = Vocabulary(keywords: set<string>, functions: set<string>, types: set<string>)

  const Open := Token("(", false)
  const Close := Token(")", false)

  function UpperChar(c: char): char {
    if 'a' <= c <= 'z' then c - 'a' + 'A' else c
  }

  function Upper(s: string): string {
    seq(|s|, i requires 0 <= i < |s| => UpperChar(s[i]))
  }

  function Raised(t: Token): Token { t.(text := Upper(t.text)) }

  // --- case

  predicate After(ts: seq<Token>, i: nat, text: string)
    requires i <= |ts|
  {
    i > 0 && ts[i - 1].text == text
  }

  /** The end of the dotted path whose first word ends before `end`. */
  function PathEnd(ts: seq<Token>, end: nat): (r: nat)
    requires end <= |ts|
    ensures end <= r <= |ts|
    decreases |ts| - end
  {
    if end + 1 < |ts| && ts[end].text == "." && ts[end + 1].word then PathEnd(ts, end + 2) else end
  }

  function JoinedText(ts: seq<Token>): string {
    if ts == [] then "" else ts[0].text + JoinedText(ts[1..])
  }

  function RaisedAll(ts: seq<Token>): seq<Token> {
    seq(|ts|, i requires 0 <= i < |ts| => Raised(ts[i]))
  }

  /** What the pass does at one position: raise a known function's path, a keyword, or a type after AS. */
  function CaseAt(v: Vocabulary, ts: seq<Token>, i: nat): (r: seq<Token>)
    requires i < |ts|
    ensures |r| == |ts|
  {
    if !ts[i].word || After(ts, i, ".") then ts else
    var end := PathEnd(ts, i + 1);
    if end < |ts| && ts[end].text == "(" && Upper(JoinedText(ts[i..end])) in v.functions
    then ts[..i] + RaisedAll(ts[i..end]) + ts[end..]
    else if end == i + 1 && (Upper(ts[i].text) in v.keywords || (After(ts, i, "AS") && Upper(ts[i].text) in v.types))
    then ts[i := Raised(ts[i])]
    else ts
  }

  /** The pass over the first `n` positions, each seeing what the earlier ones did. */
  function Cased(v: Vocabulary, ts: seq<Token>, n: nat): (r: seq<Token>)
    requires n <= |ts|
    ensures |r| == |ts|
  {
    if n == 0 then ts else CaseAt(v, Cased(v, ts, n - 1), n - 1)
  }

  // --- enclosing parentheses

  function Step(t: Token): int {
    if t.text == "(" then 1 else if t.text == ")" then -1 else 0
  }

  function Depth(ts: seq<Token>): int {
    if ts == [] then 0 else Depth(ts[..|ts| - 1]) + Step(ts[|ts| - 1])
  }

  /** The depth first returns to zero at the last token, or never. */
  ghost predicate Enclosed(ts: seq<Token>) {
    && ts != [] && ts[0].text == "(" && ts[|ts| - 1].text == ")"
    && forall k :: 0 < k < |ts| ==> Depth(ts[..k]) != 0
  }

  ghost function Stripped(ts: seq<Token>): (r: seq<Token>)
    ensures |r| <= |ts|
    decreases |ts|
  {
    if Enclosed(ts) then (OpensAndCloses(ts); Stripped(ts[1..|ts| - 1])) else ts
  }

  lemma OpensAndCloses(ts: seq<Token>)
    requires Enclosed(ts)
    ensures |ts| >= 2
  {
  }

  ghost function Normalised(v: Vocabulary, ts: seq<Token>): seq<Token> {
    Stripped(Cased(v, ts, |ts|))
  }

  /** The two passes of `normalise_expression`. */
  method NormaliseTokens(v: Vocabulary, raw: seq<Token>) returns (tokens: seq<Token>)
    ensures tokens == Normalised(v, raw)
  {
    tokens := CaseTokens(v, raw);
    tokens := StripTokens(tokens);
  }

  method CaseTokens(v: Vocabulary, raw: seq<Token>) returns (tokens: seq<Token>)
    ensures tokens == Cased(v, raw, |raw|)
  {
    hide CaseAt;
    tokens := raw;
    for i := 0 to |raw|
      invariant tokens == Cased(v, raw, i)
    {
      tokens := CaseToken(v, tokens, i);
    }
  }

  method CaseToken(v: Vocabulary, raw: seq<Token>, i: nat) returns (tokens: seq<Token>)
    requires i < |raw|
    ensures tokens == CaseAt(v, raw, i)
  {
    hide Upper, JoinedText, RaisedAll;
    tokens := raw;
    if !tokens[i].word || (i > 0 && tokens[i - 1].text == ".") { return; }
    var end := i + 1;
    while end + 1 < |tokens| && tokens[end].text == "." && tokens[end + 1].word
      invariant i < end <= |tokens| && PathEnd(tokens, end) == PathEnd(tokens, i + 1)
    {
      end := end + 2;
    }
    if end < |tokens| && tokens[end].text == "(" && Upper(JoinedText(tokens[i..end])) in v.functions {
      tokens := tokens[..i] + RaisedAll(tokens[i..end]) + tokens[end..];
    } else if end == i + 1 && (Upper(tokens[i].text) in v.keywords ||
                               (i > 0 && tokens[i - 1].text == "AS" && Upper(tokens[i].text) in v.types)) {
      tokens := tokens[i := Raised(tokens[i])];
    }
  }

  method StripTokens(raw: seq<Token>) returns (tokens: seq<Token>)
    ensures tokens == Stripped(raw)
  {
    tokens := raw;
    while tokens != [] && tokens[0].text == "(" && tokens[|tokens| - 1].text == ")"
      invariant Stripped(tokens) == Stripped(raw)
      decreases |tokens|
    {
      var index := FirstReturn(tokens);
      if index != |tokens| - 1 { break; }
      OpensAndCloses(tokens);
      tokens := tokens[1..|tokens| - 1];
    }
  }

  /** Where the scan for the matching parenthesis stops. */
  method FirstReturn(ts: seq<Token>) returns (index: nat)
    requires ts != []
    ensures index < |ts|
    ensures index == |ts| - 1 <==> forall k :: 0 < k < |ts| ==> Depth(ts[..k]) != 0
  {
    var depth := 0;
    index := 0;
    for i := 0 to |ts|
      invariant depth == Depth(ts[..i]) && index == (if i == 0 then 0 else i - 1)
      invariant forall k :: 0 < k <= i ==> Depth(ts[..k]) != 0
    {
      index := i;
      assert ts[..i + 1][..i] == ts[..i];
      depth := depth + Step(ts[i]);
      if depth == 0 { return; }
    }
  }

  // --- enclosing an expression

  function Wrap(ts: seq<Token>): seq<Token> { [Open] + ts + [Close] }

  /** No prefix closes more than it opens. */
  ghost predicate NeverDips(ts: seq<Token>) {
    forall k :: 0 <= k <= |ts| ==> Depth(ts[..k]) >= 0
  }

  lemma {:induction false} WrappedDepth(ts: seq<Token>, k: nat)
    requires k <= |ts|
    ensures Depth(Wrap(ts)[..k + 1]) == 1 + Depth(ts[..k])
  {
    var w := Wrap(ts);
    assert w[..k + 1][..k] == w[..k];
    if k == 0 {
      assert w[..1][..0] == [];
    } else {
      WrappedDepth(ts, k - 1);
      assert w[k] == ts[k - 1] && ts[..k][..k - 1] == ts[..k - 1];
    }
  }

  /** Before a prefix dips below zero, one stands at minus one. */
  lemma {:induction false} DipsByOne(ts: seq<Token>, k: nat) returns (m: nat)
    requires k <= |ts| && Depth(ts[..k]) < 0
    ensures m <= k && Depth(ts[..m]) == -1
    decreases k
  {
    if Depth(ts[..k]) == -1 { return k; }
    assert k > 0 && ts[..k][..k - 1] == ts[..k - 1];
    m := DipsByOne(ts, k - 1);
  }

  /** A wrapped expression counts as enclosed exactly when the expression never dips. */
  lemma WrapEncloses(ts: seq<Token>)
    ensures Enclosed(Wrap(ts)) <==> NeverDips(ts)
  {
    var w := Wrap(ts);
    if NeverDips(ts) {
      forall k | 0 < k < |w| ensures Depth(w[..k]) != 0 { WrappedDepth(ts, k - 1); }
    } else {
      var k :| 0 <= k <= |ts| && Depth(ts[..k]) < 0;
      var m := DipsByOne(ts, k);
      WrappedDepth(ts, m);
      assert Depth(w[..m + 1]) == 0 && m + 1 < |w|;
    }
  }

  /** The stripping loop takes an added pair off again exactly when the expression never dips. */
  lemma StripUndoesWrap(ts: seq<Token>)
    ensures Stripped(Wrap(ts)) == Stripped(ts) <==> NeverDips(ts)
  {
    WrapEncloses(ts);
    var w := Wrap(ts);
    assert w[1..|w| - 1] == ts;
    assert |Stripped(ts)| < |w|;
  }

  /** What is left is enclosed no more, so stripping again changes nothing. */
  lemma {:induction false} StrippedIsBare(ts: seq<Token>)
    ensures !Enclosed(Stripped(ts)) && Stripped(Stripped(ts)) == Stripped(ts)
    decreases |ts|
  {
    if Enclosed(ts) {
      OpensAndCloses(ts);
      StrippedIsBare(ts[1..|ts| - 1]);
    }
  }

  // --- case inside an added pair

  lemma {:induction false} PathEndWrapped(ts: seq<Token>, end: nat)
    requires end <= |ts|
    ensures PathEnd(Wrap(ts), end + 1) == PathEnd(ts, end) + 1
    decreases |ts| - end
  {
    var w := Wrap(ts);
    assert forall k :: 0 <= k < |ts| ==> w[k + 1] == ts[k];
    if end + 1 < |ts| && ts[end].text == "." && ts[end + 1].word { PathEndWrapped(ts, end + 2); }
  }

  /** Replacing a stretch inside an added pair. */
  lemma WrapReplaces(ts: seq<Token>, i: nat, end: nat, m: seq<Token>)
    requires i <= end <= |ts|
    ensures Wrap(ts)[i + 1..end + 1] == ts[i..end]
    ensures Wrap(ts)[..i + 1] + m + Wrap(ts)[end + 1..] == Wrap(ts[..i] + m + ts[end..])
    ensures Wrap(ts)[end + 1] == if end < |ts| then ts[end] else Close
  {
    var w := Wrap(ts);
    assert w[..i + 1] == [Open] + ts[..i] && w[end + 1..] == ts[end..] + [Close];
  }

  lemma WrapAt(ts: seq<Token>, i: nat)
    requires i < |ts|
    ensures Wrap(ts)[i + 1] == ts[i]
    ensures After(Wrap(ts), i + 1, ".") == After(ts, i, ".") && After(Wrap(ts), i + 1, "AS") == After(ts, i, "AS")
    ensures Wrap(ts)[i + 1 := Raised(ts[i])] == Wrap(ts[i := Raised(ts[i])])
  {
  }

  lemma CaseAtWrapped(v: Vocabulary, ts: seq<Token>, i: nat)
    requires i < |ts|
    ensures CaseAt(v, Wrap(ts), i + 1) == Wrap(CaseAt(v, ts, i))
  {
    hide Upper, JoinedText, RaisedAll, PathEnd, After, Wrap;
    PathEndWrapped(ts, i + 1);
    var end := PathEnd(ts, i + 1);
    WrapAt(ts, i);
    RaisedLength(ts[i..end]);
    WrapReplaces(ts, i, end, RaisedAll(ts[i..end]));
    WrapLength(ts);
  }

  lemma WrapLength(ts: seq<Token>)
    ensures |Wrap(ts)| == |ts| + 2 && Close.text != "("
  {
    assert Close.text[0] != "("[0];
  }

  lemma RaisedLength(ts: seq<Token>)
    ensures |RaisedAll(ts)| == |ts|
  {
  }

  lemma {:induction false} CasedWrapped(v: Vocabulary, ts: seq<Token>, n: nat)
    requires n <= |ts|
    ensures Cased(v, Wrap(ts), n + 1) == Wrap(Cased(v, ts, n))
  {
    hide CaseAt;
    if n == 0 {
      PairStays(v, Wrap(ts), 0);
      assert Cased(v, Wrap(ts), 0) == Wrap(ts);
    } else {
      CasedWrapped(v, ts, n - 1);
      CaseAtWrapped(v, Cased(v, ts, n - 1), n - 1);
    }
  }

  lemma PairStays(v: Vocabulary, ts: seq<Token>, i: nat)
    requires i < |ts| && !ts[i].word
    ensures CaseAt(v, ts, i) == ts
  {
  }

  /** Raising case moves no parenthesis: `(` and `)` are not words. */
  lemma {:induction false} CasedDepth(v: Vocabulary, ts: seq<Token>, n: nat, k: nat)
    requires n <= |ts| && k <= |ts|
    ensures Depth(Cased(v, ts, n)[..k]) == Depth(ts[..k])
  {
    hide CaseAt, Cased;
    SameSteps(v, ts, n);
    SameDepth(Cased(v, ts, n), ts, k);
  }

  lemma {:induction false} SameDepth(a: seq<Token>, b: seq<Token>, k: nat)
    requires k <= |a| == |b| && forall i :: 0 <= i < |a| ==> Step(a[i]) == Step(b[i])
    ensures Depth(a[..k]) == Depth(b[..k])
  {
    if k > 0 {
      assert a[..k][..k - 1] == a[..k - 1] && b[..k][..k - 1] == b[..k - 1];
      SameDepth(a, b, k - 1);
    }
  }

  lemma RaisedStep(t: Token)
    ensures Step(Raised(t)) == Step(t)
  {
    assert Raised(t).text == Upper(t.text) && |Upper(t.text)| == |t.text|;
    if |t.text| == 1 {
      assert Upper(t.text)[0] == UpperChar(t.text[0]);
      assert t.text == [t.text[0]] && Upper(t.text) == [UpperChar(t.text[0])];
    }
  }

  lemma {:induction false} SameSteps(v: Vocabulary, ts: seq<Token>, n: nat)
    requires n <= |ts|
    ensures forall i :: 0 <= i < |ts| ==> Step(Cased(v, ts, n)[i]) == Step(ts[i])
  {
    hide Step;
    if n > 0 {
      SameSteps(v, ts, n - 1);
      CaseAtSteps(v, Cased(v, ts, n - 1), n - 1);
    }
  }

  lemma CaseAtSteps(v: Vocabulary, ts: seq<Token>, i: nat)
    requires i < |ts|
    ensures forall k :: 0 <= k < |ts| ==> Step(CaseAt(v, ts, i)[k]) == Step(ts[k])
  {
    hide Step, Raised, Upper, JoinedText;
    forall t: Token ensures Step(Raised(t)) == Step(t) { RaisedStep(t); }
  }

  /**
   * Putting parentheses around a whole expression leaves its normal form alone
   * exactly when the expression never closes more than it has opened; for a
   * balanced expression, always.
   */
  lemma EnclosingIsNeutral(v: Vocabulary, ts: seq<Token>)
    ensures Normalised(v, Wrap(ts)) == Normalised(v, ts) <==> NeverDips(ts)
  {
    hide Cased, Stripped, Depth, CaseAt;
    var inner := Cased(v, ts, |ts|);
    CasedWrapped(v, ts, |ts|);
    assert Cased(v, Wrap(ts), |ts| + 2) == Wrap(inner) by { LastIsClose(v, ts); }
    StripUndoesWrap(inner);
    forall k | 0 <= k <= |ts| ensures Depth(inner[..k]) == Depth(ts[..k]) { CasedDepth(v, ts, |ts|, k); }
  }

  lemma LastIsClose(v: Vocabulary, ts: seq<Token>)
    ensures Cased(v, Wrap(ts), |ts| + 2) == Cased(v, Wrap(ts), |ts| + 1)
  {
    CasedWrapped(v, ts, |ts|);
    PairStays(v, Wrap(Cased(v, ts, |ts|)), |ts| + 1);
  }
}
