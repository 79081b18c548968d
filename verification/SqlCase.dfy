/**
 * Which tokens of an expression scripts/audit_spanner_schema.py puts in upper
 * case, said of the raw expression, and what a depth counts.
 */
module SqlCase {
  import opened SqlTokens

  /** The 26 small letters of ASCII move by 32, everything else stays. */
  lemma UpperCharIs(c: char)
    ensures UpperChar(c) as int == if 97 <= c as int <= 122 then c as int - 32 else c as int
  {
  }

  /** The places of a text among some tokens. */
  function Places(ts: seq<Token>, text: string): set<int> { set k | 0 <= k < |ts| && ts[k].text == text }

  lemma OneMorePlace(ts: seq<Token>, t: Token, text: string)
    ensures |Places(ts + [t], text)| == |Places(ts, text)| + if t.text == text then 1 else 0
  {
    assert Places(ts + [t], text) == Places(ts, text) + if t.text == text then {|ts|} else {};
  }

  /** Joining puts the texts one after another. */
  lemma {:induction false} JoinedParts(a: seq<Token>, b: seq<Token>)
    ensures JoinedText(a + b) == JoinedText(a) + JoinedText(b)
    ensures forall t: Token :: JoinedText([t]) == t.text
  {
    if a == [] {
      assert a + b == b;
    } else {
      JoinedParts(a[1..], b);
      assert (a + b)[1..] == a[1..] + b;
    }
  }

  /** The depth is the number of `(` less that of `)`. */
  lemma {:induction false} DepthCounts(ts: seq<Token>)
    ensures Depth(ts) == |Places(ts, "(")| - |Places(ts, ")")|
  {
    if ts != [] {
      hide Places;
      var some, last := ts[..|ts| - 1], ts[|ts| - 1];
      DepthCounts(some);
      OneMorePlace(some, last, "(");
      OneMorePlace(some, last, ")");
      assert ts == some + [last];
      assert "("[0] != ")"[0];
    } else {
      assert Places(ts, "(") == {} == Places(ts, ")");
    }
  }

  // --- paths

  /** A word and further words after dots, as far as they go. */
  ghost predicate IsPath(ts: seq<Token>, i: nat, end: nat) {
    && i < end <= |ts| && (end - i) % 2 == 1 && ts[i].word
    && (forall k :: i < k < end && (k - i) % 2 == 1 ==> ts[k].text == ".")
    && (forall k :: i < k < end && (k - i) % 2 == 0 ==> ts[k].word)
    && !(end + 1 < |ts| && ts[end].text == "." && ts[end + 1].word)
  }

  lemma {:induction false} PathEndIs(ts: seq<Token>, i: nat, from: nat)
    requires i < from <= |ts| && (from - i) % 2 == 1 && ts[i].word
    requires forall k :: i < k < from && (k - i) % 2 == 1 ==> ts[k].text == "."
    requires forall k :: i < k < from && (k - i) % 2 == 0 ==> ts[k].word
    ensures IsPath(ts, i, PathEnd(ts, from))
    decreases |ts| - from
  {
    if from + 1 < |ts| && ts[from].text == "." && ts[from + 1].word { PathEndIs(ts, i, from + 2); }
  }

  lemma OnePath(ts: seq<Token>, i: nat, a: nat, b: nat)
    requires IsPath(ts, i, a) && IsPath(ts, i, b)
    ensures a == b
  {
  }

  // --- what is raised

  ghost predicate Begins(ts: seq<Token>, i: nat) {
    i < |ts| && ts[i].word && !(i > 0 && ts[i - 1].text == ".")
  }

  /** A path of its own before a parenthesis that names a known function. */
  ghost predicate CallsFunction(v: Vocabulary, ts: seq<Token>, i: nat, end: nat) {
    && Begins(ts, i) && IsPath(ts, i, end) && end < |ts| && ts[end].text == "("
    && Upper(JoinedText(ts[i..end])) in v.functions
  }

  /** A word of its own that is a keyword, or a type after what comes out as AS. */
  ghost predicate StandsAlone(v: Vocabulary, ts: seq<Token>, out: seq<Token>, j: nat)
    requires |out| == |ts|
  {
    && Begins(ts, j) && IsPath(ts, j, j + 1)
    && (Upper(ts[j].text) in v.keywords || (j > 0 && out[j - 1].text == "AS" && Upper(ts[j].text) in v.types))
  }

  ghost predicate InFunction(v: Vocabulary, ts: seq<Token>, n: nat, j: nat) {
    exists i: nat, end: nat :: i < n && i <= j < end && CallsFunction(v, ts, i, end)
  }

  /** The tokens once the first `n` places have been looked at. */
  ghost predicate IsCased(v: Vocabulary, ts: seq<Token>, n: nat, out: seq<Token>) {
    && |out| == |ts|
    && forall j :: 0 <= j < |ts| ==>
         out[j] == if InFunction(v, ts, n, j) || (j < n && StandsAlone(v, ts, out, j)) then Raised(ts[j]) else ts[j]
  }

  // --- raising changes nothing the pass looks at

  lemma UpperTwice(s: string)
    ensures Upper(Upper(s)) == Upper(s) && (forall t: Token :: Raised(Raised(t)) == Raised(t))
  {
    forall t: Token ensures Raised(Raised(t)) == Raised(t) {
      assert Upper(Upper(t.text)) == Upper(t.text);
    }
  }

  /** A text of one character that is no letter is as it was. */
  lemma RaisedMark(t: Token, mark: string)
    requires mark == "." || mark == "("
    ensures Raised(t).text == mark <==> t.text == mark
  {
    if |t.text| == 1 {
      assert t.text == [t.text[0]] && Upper(t.text) == [UpperChar(t.text[0])];
      assert mark == [mark[0]];
    }
  }

  ghost predicate Alike(a: seq<Token>, b: seq<Token>) {
    |a| == |b| && forall k :: 0 <= k < |a| ==> b[k] == a[k] || b[k] == Raised(a[k])
  }

  lemma AlikeMarks(a: seq<Token>, b: seq<Token>)
    requires Alike(a, b)
    ensures forall k :: 0 <= k < |a| ==>
      && b[k].word == a[k].word && (b[k].text == "." <==> a[k].text == ".") && (b[k].text == "(" <==> a[k].text == "(")
      && Upper(b[k].text) == Upper(a[k].text) && Raised(b[k]) == Raised(a[k])
  {
    forall k | 0 <= k < |a|
      ensures b[k].word == a[k].word && (b[k].text == "." <==> a[k].text == ".")
      ensures (b[k].text == "(" <==> a[k].text == "(")
      ensures Upper(b[k].text) == Upper(a[k].text) && Raised(b[k]) == Raised(a[k])
    {
      RaisedMark(a[k], ".");
      RaisedMark(a[k], "(");
      UpperTwice(a[k].text);
    }
  }

  lemma {:induction false} AlikeText(a: seq<Token>, b: seq<Token>)
    requires |a| == |b| && forall k :: 0 <= k < |a| ==> Upper(b[k].text) == Upper(a[k].text)
    ensures Upper(JoinedText(b)) == Upper(JoinedText(a))
  {
    if a != [] {
      AlikeText(a[1..], b[1..]);
      UpperJoin(a[0].text, JoinedText(a[1..]));
      UpperJoin(b[0].text, JoinedText(b[1..]));
    }
  }

  lemma UpperJoin(s: string, t: string)
    ensures Upper(s + t) == Upper(s) + Upper(t)
  {
  }

  lemma AlikePath(a: seq<Token>, b: seq<Token>, i: nat, end: nat)
    requires Alike(a, b)
    ensures IsPath(b, i, end) <==> IsPath(a, i, end)
    ensures Begins(b, i) <==> Begins(a, i)
    ensures i <= end <= |a| ==> Upper(JoinedText(b[i..end])) == Upper(JoinedText(a[i..end]))
  {
    hide Upper, Raised, JoinedText;
    AlikeMarks(a, b);
    if i <= end <= |a| { AlikeText(a[i..end], b[i..end]); }
  }

  // --- the pass

  /** What one look does to tokens some of which were raised before, by what stands in the raw ones. */
  lemma CaseAtIs(v: Vocabulary, ts: seq<Token>, s: seq<Token>, i: nat)
    requires Alike(ts, s) && i < |ts|
    ensures forall end: nat :: CallsFunction(v, ts, i, end) ==>
      |CaseAt(v, s, i)| == |ts| &&
      forall k :: 0 <= k < |ts| ==> CaseAt(v, s, i)[k] == if i <= k < end then Raised(ts[k]) else s[k]
    ensures (forall end: nat :: !CallsFunction(v, ts, i, end)) ==>
      CaseAt(v, s, i) == if StandsAlone(v, ts, s, i) then s[i := Raised(ts[i])] else s
  {
    hide Upper, Raised, JoinedText, IsPath;
    AlikeMarks(ts, s);
    if Begins(ts, i) {
      PathEndIs(s, i, i + 1);
      var end := PathEnd(s, i + 1);
      AlikePath(ts, s, i, end);
      forall e: nat | IsPath(ts, i, e) ensures e == end { OnePath(ts, i, e, end); }
      assert CallsFunction(v, ts, i, end) <==>
        end < |s| && s[end].text == "(" && Upper(JoinedText(s[i..end])) in v.functions;
      if CallsFunction(v, ts, i, end) { RaisedStretch(ts, s, i, end); }
    }
  }

  lemma RaisedStretch(ts: seq<Token>, s: seq<Token>, i: nat, end: nat)
    requires i <= end <= |s| == |ts| && forall k :: 0 <= k < |ts| ==> Raised(s[k]) == Raised(ts[k])
    ensures var r := s[..i] + RaisedAll(s[i..end]) + s[end..];
      |r| == |ts| && forall k :: 0 <= k < |ts| ==> r[k] == if i <= k < end then Raised(ts[k]) else s[k]
  {
  }

  /** Exactly the tokens of known functions' paths, keywords, and types after AS are put in upper case. */
  lemma {:induction false} CasedIs(v: Vocabulary, ts: seq<Token>, n: nat)
    requires n <= |ts|
    ensures IsCased(v, ts, n, Cased(v, ts, n))
  {
    hide CaseAt, Raised, CallsFunction, StandsAlone;
    if n == 0 {
      assert forall j :: !InFunction(v, ts, 0, j);
    } else {
      CasedIs(v, ts, n - 1);
      CasedOneMore(v, ts, Cased(v, ts, n - 1), n - 1);
    }
  }

  lemma CasedOneMore(v: Vocabulary, ts: seq<Token>, s: seq<Token>, i: nat)
    requires i < |ts| && IsCased(v, ts, i, s)
    ensures IsCased(v, ts, i + 1, CaseAt(v, s, i))
  {
    hide CaseAt, Raised, CallsFunction, StandsAlone;
    CaseAtIs(v, ts, s, i);
    var r := CaseAt(v, s, i);
    if end: nat :| CallsFunction(v, ts, i, end) {
      forall e: nat | CallsFunction(v, ts, i, e) ensures e == end { OneFunction(v, ts, i, e, end); }
      CallStarts(v, ts, i, end);
    }
    forall j | 0 <= j < |ts|
      ensures InFunction(v, ts, i + 1, j) <==>
        InFunction(v, ts, i, j) || exists end: nat :: i <= j < end && CallsFunction(v, ts, i, end)
      ensures j <= i ==> (StandsAlone(v, ts, r, j) <==> StandsAlone(v, ts, s, j))
    {
      if j <= i { AloneBefore(v, ts, r, s, j); }
    }
  }

  lemma OneFunction(v: Vocabulary, ts: seq<Token>, i: nat, a: nat, b: nat)
    requires CallsFunction(v, ts, i, a) && CallsFunction(v, ts, i, b)
    ensures a == b
  {
    OnePath(ts, i, a, b);
  }

  lemma CallStarts(v: Vocabulary, ts: seq<Token>, i: nat, end: nat)
    requires CallsFunction(v, ts, i, end)
    ensures i < end <= |ts|
  {
  }

  lemma AloneBefore(v: Vocabulary, ts: seq<Token>, a: seq<Token>, b: seq<Token>, j: nat)
    requires |a| == |b| == |ts| && j < |ts| && (j > 0 ==> a[j - 1] == b[j - 1])
    ensures StandsAlone(v, ts, a, j) <==> StandsAlone(v, ts, b, j)
  {
  }
}
