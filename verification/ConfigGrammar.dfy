/**
 * What the pieces of a configuration text are, said of the text itself, and
 * where its sections start, said of all its tokens.
 */
module ConfigGrammar {
  import opened Common
  import opened ConfigText
  import opened ConfigRewrite

  /** The 26 letters in both cases, the ten digits and the underscore, by their ASCII codes. */
  lemma WordCharacters(c: char)
    ensures IsWord(c) <==>
      var n := c as int; 48 <= n <= 57 || 65 <= n <= 90 || 97 <= n <= 122 || n == 95
  {
  }

  predicate StartsWith(t: string, i: nat, s: string) { i + |s| <= |t| && t[i..i + |s|] == s }

  lemma AtIs(t: string, i: nat, a: char, b: char)
    ensures At(t, i, a, b) <==> StartsWith(t, i, [a, b])
  {
    if i + 2 <= |t| { assert t[i..i + 2] == [t[i], t[i + 1]]; }
  }

  // --- ends

  /** A line comment runs up to the end of its line, which it leaves. */
  lemma {:induction false} LineEndIs(t: string, i: nat)
    requires i <= |t|
    ensures var r := LineEnd(t, i); (forall k :: i <= k < r ==> t[k] != '\n') && (r == |t| || t[r] == '\n')
    decreases |t| - i
  {
    if i < |t| && t[i] != '\n' { LineEndIs(t, i + 1); }
  }

  /** One step through a comment: over a mark that opens or closes one, or over a character. */
  ghost predicate CommentStep(t: string, i: nat, depth: nat, j: nat, d: nat) {
    && depth > 0 && i < |t|
    && if StartsWith(t, i, "(*") then j == i + 2 && d == depth + 1
       else if StartsWith(t, i, "*)") then j == i + 2 && d == depth - 1
       else j == i + 1 && d == depth
  }

  ghost predicate CommentCloses(t: string, i: nat, depth: nat, end: nat)
    decreases if i < |t| then |t| - i else 0
  {
    (depth == 0 && end == i) || exists j, d :: CommentStep(t, i, depth, j, d) && CommentCloses(t, j, d, end)
  }

  /** A comment ends where the steps through it first come to depth zero, or not at all. */
  lemma {:induction false} CommentEndIs(t: string, i: nat, depth: nat, end: nat)
    requires i <= |t|
    ensures CommentEnd(t, i, depth) == Some(end) <==> CommentCloses(t, i, depth, end)
    decreases |t| - i, depth
  {
    AtIs(t, i, '(', '*');
    AtIs(t, i, '*', ')');
    if depth > 0 && i < |t| {
      var (j, d) :=
        if StartsWith(t, i, "(*") then (i + 2, depth + 1)
        else if StartsWith(t, i, "*)") then (i + 2, depth - 1) else (i + 1, depth);
      assert CommentStep(t, i, depth, j, d);
      CommentEndIs(t, j, d, end);
    }
  }

  /** One step through a string: a backslash takes the next character with it. */
  ghost predicate StringStep(t: string, i: nat, j: nat) {
    i < |t| && t[i] != '"' && j == i + if StartsWith(t, i, "\\") then 2 else 1
  }

  ghost predicate StringStops(t: string, i: nat, end: nat)
    decreases if i < |t| then |t| - i else 0
  {
    (end == i && (i < |t| ==> t[i] == '"')) || exists j :: StringStep(t, i, j) && StringStops(t, j, end)
  }

  /** A string stops at the first quote that no backslash takes, or past the text. */
  lemma {:induction false} StringEndIs(t: string, i: nat, end: nat)
    ensures StringEnd(t, i) == end <==> StringStops(t, i, end)
    decreases if i < |t| then |t| - i else 0
  {
    if i < |t| && t[i] != '"' {
      assert t[i..i + 1] == [t[i]];
      var j := i + if t[i] == '\\' then 2 else 1;
      assert StringStep(t, i, j);
      StringEndIs(t, j, end);
    }
  }

  // --- pieces

  ghost predicate LineComment(t: string, i: nat, end: nat) {
    && i + 2 <= end <= |t| && (forall k :: i + 2 <= k < end ==> t[k] != '\n') && (end == |t| || t[end] == '\n')
  }

  ghost predicate NestedComment(t: string, i: nat, end: nat) { i < end && CommentCloses(t, i + 2, 1, end) }

  ghost predicate Quoted(t: string, i: nat, end: nat) { i < end && StringStops(t, i + 1, end) }

  ghost predicate Word(t: string, i: nat, end: nat) {
    i < end <= |t| && (forall k :: i <= k < end ==> IsWord(t[k])) && (end == |t| || !IsWord(t[end]))
  }

  /**
   * What stands at a place: white space; a comment to the end of the line or a
   * nested one; a string in quotes; a word; an arrow; or one character.
   */
  ghost predicate PieceAt(t: string, i: nat, piece: Piece)
    requires i < |t|
  {
    if IsSpace(t[i]) then piece == Space
    else if StartsWith(t, i, "\\*") then exists end: nat :: LineComment(t, i, end) && piece == Comment(end - i)
    else if StartsWith(t, i, "(*") then
      || (piece == Unclosed && forall end: nat :: !NestedComment(t, i, end))
      || exists end: nat :: NestedComment(t, i, end) && piece == Comment(end - i)
    else if t[i] == '"' then
      exists end: nat :: Quoted(t, i, end) && piece == if end < |t| then Tok(end + 1 - i) else Unclosed
    else if IsWord(t[i]) then exists end: nat :: Word(t, i, end) && piece == Tok(end - i)
    else piece == Tok(if StartsWith(t, i, "<-") then 2 else 1)
  }

  /** The piece the lexer takes at a place is the one that stands there, and no other does. */
  lemma PieceIs(t: string, i: nat, piece: Piece)
    requires i < |t|
    ensures piece == NextPiece(t, i) <==> PieceAt(t, i, piece)
  {
    AtIs(t, i, '\\', '*');
    AtIs(t, i, '(', '*');
    AtIs(t, i, '<', '-');
    if StartsWith(t, i, "\\*") {
      LineEndIs(t, i + 2);
      assert LineComment(t, i, LineEnd(t, i + 2));
      forall end: nat | LineComment(t, i, end) ensures end == LineEnd(t, i + 2) { }
    }
    if StartsWith(t, i, "(*") {
      forall end: nat ensures NestedComment(t, i, end) <==> CommentEnd(t, i + 2, 1) == Some(end) {
        CommentEndIs(t, i + 2, 1, end);
      }
    }
    if t[i] == '"' {
      forall end: nat ensures Quoted(t, i, end) <==> StringEnd(t, i + 1) == end { StringEndIs(t, i + 1, end); }
      assert Quoted(t, i, StringEnd(t, i + 1));
    }
    if IsWord(t[i]) {
      assert Word(t, i, WordEnd(t, i + 1));
      forall end: nat | Word(t, i, end) ensures end == WordEnd(t, i + 1) { }
    }
  }

  // --- sections

  /** The places of some marks among tokens. */
  function Places(ts: seq<string>, marks: set<string>): set<int> { set j | 0 <= j < |ts| && ts[j] in marks }

  lemma OneMorePlace(ts: seq<string>, x: string, marks: set<string>)
    ensures |Places(ts + [x], marks)| == |Places(ts, marks)| + if x in marks then 1 else 0
  {
    assert Places(ts + [x], marks) == Places(ts, marks) + if x in marks then {|ts|} else {};
  }

  /** The bracket depth is the number of opening brackets less that of closing ones. */
  lemma {:induction false} DepthIs(ts: seq<string>)
    ensures Depth(ts) == |Places(ts, {"{", "[", "("})| - |Places(ts, {"}", "]", ")"})|
  {
    if ts == [] {
      assert Places(ts, {"{", "[", "("}) == {} == Places(ts, {"}", "]", ")"});
    } else {
      hide Places;
      var n := |ts| - 1;
      var some, last := ts[..n], ts[n];
      assert ts == some + [last];
      DepthIs(some);
      DepthJoin(some, [last]);
      LastTurn(last);
      OneMorePlace(some, last, {"{", "[", "("});
      OneMorePlace(some, last, {"}", "]", ")"});
    }
  }

  lemma LastTurn(x: string)
    ensures Depth([x]) == (if x in {"{", "[", "("} then 1 else 0) - (if x in {"}", "]", ")"} then 1 else 0)
  {
    assert Depth([x]) == Turn(x) + Depth([x][1..]);
    assert "{"[0] != "}"[0] && "{"[0] != "]"[0] && "{"[0] != ")"[0];
    assert "["[0] != "}"[0] && "["[0] != "]"[0] && "["[0] != ")"[0];
    assert "("[0] != "}"[0] && "("[0] != "]"[0] && "("[0] != ")"[0];
  }

  /** A keyword outside every bracket that is not the value after `=` or `<-`. */
  ghost predicate HeadAt(ts: seq<string>, j: nat) {
    && j < |ts| && IsKeyword(ts[j])
    && |Places(ts[..j], {"{", "[", "("})| == |Places(ts[..j], {"}", "]", ")"})|
    && (j > 0 ==> ts[j - 1] != "=" && ts[j - 1] != "<-")
  }

  /** A section starts at a place, counted in tokens. */
  ghost predicate StartsAt(secs: seq<seq<string>>, j: nat) {
    exists k :: 0 <= k < |secs| && |Flatten(secs[..k])| == j
  }

  lemma HeadIs(ts: seq<string>, j: nat)
    ensures HeadAt(ts, j) <==> j < |ts| && Heads(ts, j, Depth(ts[..j]))
  {
    if j < |ts| { DepthIs(ts[..j]); }
  }

  /** Nothing before the next head is one. */
  lemma {:induction false} NoHeadBefore(ts: seq<string>, i: nat, depth: int, j: nat)
    requires i <= |ts| && i <= j <= NextHead(ts, i, depth)
    ensures j < NextHead(ts, i, depth) ==> !Heads(ts, j, depth + Depth(ts[i..j]))
    ensures j == NextHead(ts, i, depth) < |ts| ==> Heads(ts, j, depth + Depth(ts[i..j]))
    decreases |ts| - i
  {
    hide Heads, Turn;
    if i < j {
      NextHeadAt(ts, i, depth);
      NoHeadBefore(ts, i + 1, depth + Turn(ts[i]), j);
      assert ts[i..j][1..] == ts[i + 1..j];
    } else {
      assert ts[i..j] == [];
      if i < |ts| { NextHeadAt(ts, i, depth); }
    }
  }

  lemma StartsLater(head: seq<string>, rest: seq<seq<string>>, j: nat)
    requires head != []
    ensures StartsAt([head] + rest, j) <==> j == 0 || (j >= |head| && StartsAt(rest, j - |head|))
  {
    var secs := [head] + rest;
    forall k | 0 < k < |secs| ensures |Flatten(secs[..k])| == |head| + |Flatten(rest[..k - 1])| {
      assert secs[..k][1..] == rest[..k - 1];
    }
    assert |Flatten(secs[..0])| == 0;
    if j >= |head| && StartsAt(rest, j - |head|) {
      var k :| 0 <= k < |rest| && |Flatten(rest[..k])| == j - |head|;
      var next := k + 1;
      assert |Flatten(secs[..next])| == j;
    }
    if StartsAt(secs, j) && j > 0 {
      var k :| 0 <= k < |secs| && |Flatten(secs[..k])| == j;
      assert |Flatten(rest[..k - 1])| == j - |head|;
    }
  }

  lemma SplitStep(ts: seq<string>)
    requires ts != []
    ensures var n := NextHead(ts, 1, Turn(ts[0])); Split(ts) == [ts[..n]] + Split(ts[n..])
  {
  }

  lemma NoStart(j: nat)
    ensures !StartsAt([], j) && Split([]) == []
  {
  }

  lemma FirstHead(before: seq<string>, ts: seq<string>)
    requires Depth(before) == 0 && (before != [] ==> !IsGiving(before[|before| - 1]))
    requires ts != [] && IsKeyword(ts[0])
    ensures Heads(before + ts, |before|, Depth((before + ts)[..|before|]))
  {
    assert (before + ts)[..|before|] == before;
  }

  /** A head among the tokens of one section is a head among all, if what comes before is closed. */
  lemma SameHead(before: seq<string>, ts: seq<string>, j: nat)
    requires Depth(before) == 0 && ts != [] && 1 <= j <= |ts|
    ensures Depth((before + ts)[..|before| + j]) == Depth(before + ts[..j]) == Turn(ts[0]) + Depth(ts[1..j])
    ensures j < |ts| ==> forall depth :: Heads(before + ts, |before| + j, depth) <==> Heads(ts, j, depth)
    ensures j < |ts| ==> forall depth :: Heads(ts, j, depth) ==> IsKeyword(ts[j]) && depth == 0 && !IsGiving(ts[j - 1])
  {
    assert (before + ts)[..|before| + j] == before + ts[..j];
    DepthJoin(before, ts[..j]);
    assert ts[..j][1..] == ts[1..j];
  }

  lemma {:induction false} SplitStarts(before: seq<string>, ts: seq<string>, j: nat)
    requires Depth(before) == 0 && (before != [] ==> !IsGiving(before[|before| - 1]))
    requires ts != [] ==> IsKeyword(ts[0])
    ensures HeadAt(before + ts, |before| + j) <==> StartsAt(Split(ts), j)
    decreases |ts|
  {
    hide HeadAt, StartsAt, Heads, IsGiving, IsKeyword, Turn, NextHead, Split, Depth;
    var all := before + ts;
    HeadIs(all, |before| + j);
    if ts == [] {
      NoStart(j);
    } else {
      var n := NextHead(ts, 1, Turn(ts[0]));
      SplitStep(ts);
      StartsLater(ts[..n], Split(ts[n..]), j);
      if j == 0 {
        FirstHead(before, ts);
      } else if j < n {
        NoHeadBefore(ts, 1, Turn(ts[0]), j);
        SameHead(before, ts, j);
      } else {
        NoHeadBefore(ts, 1, Turn(ts[0]), n);
        SameHead(before, ts, n);
        assert before + ts[..n] + ts[n..] == all;
        if n < |ts| {
          SplitStarts(before + ts[..n], ts[n..], j - n);
        } else {
          NoStart(j - n);
        }
      }
    }
  }

  /** The sections of a text start at exactly its heads, and together they are all its tokens. */
  lemma SectionsStart(ts: seq<string>, j: nat)
    requires ts != [] && IsKeyword(ts[0])
    ensures HeadAt(ts, j) <==> StartsAt(Split(ts), j)
    ensures Flatten(Split(ts)) == ts
  {
    SplitStarts([], ts, j);
    assert [] + ts == ts;
    SplitReadable(ts);
  }
}
