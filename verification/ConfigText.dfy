/**
 * Model-checker configurations as proofs/check_mutants.py reads them: a lexer
 * that blanks comments in place, a reader of sections, and the rewriting of a
 * configuration to check exactly one claim.
 */
module ConfigText {
  import opened Common

  // --- characters

  predicate IsWord(c: char) { 'a' <= c <= 'z' || 'A' <= c <= 'Z' || '0' <= c <= '9' || c == '_' }

  predicate At(t: string, i: nat, a: char, b: char) { i + 1 < |t| && t[i] == a && t[i + 1] == b }

  // --- one piece of text: a space, a comment, or a token, by its length

  datatype Piece = Space | Comment(len: nat) | Tok(len: nat) | Unclosed

  function LineEnd(t: string, i: nat): (r: nat)
    requires i <= |t|
    ensures i <= r <= |t|
    decreases |t| - i
  {
    if i == |t| || t[i] == '\n' then i else LineEnd(t, i + 1)
  }

  function CommentEnd(t: string, i: nat, depth: nat): (r: Option<nat>)
    requires i <= |t|
    ensures r.Some? ==> i <= r.value <= |t|
    decreases |t| - i, depth
  {
    if depth == 0 then Some(i)
    else if i == |t| then None
    else if At(t, i, '(', '*') then CommentEnd(t, i + 2, depth + 1)
    else if At(t, i, '*', ')') then CommentEnd(t, i + 2, depth - 1)
    else CommentEnd(t, i + 1, depth)
  }

  function StringEnd(t: string, i: nat): (r: nat)
    ensures i <= r && (r < |t| ==> t[r] == '"')
    decreases if i < |t| then |t| - i else 0
  {
    if i >= |t| || t[i] == '"' then i else StringEnd(t, if t[i] == '\\' then i + 2 else i + 1)
  }

  function WordEnd(t: string, i: nat): (r: nat)
    requires i <= |t|
    ensures i <= r <= |t| && (r < |t| ==> !IsWord(t[r]))
    ensures forall k :: i <= k < r ==> IsWord(t[k])
    decreases |t| - i
  {
    if i == |t| || !IsWord(t[i]) then i else WordEnd(t, i + 1)
  }

  function NextPiece(t: string, i: nat): (r: Piece)
    requires i < |t|
    ensures r.Tok? || r.Comment? ==> r.len > 0 && i + r.len <= |t|
  {
    if IsSpace(t[i]) then Space
    else if At(t, i, '\\', '*') then Comment(LineEnd(t, i + 2) - i)
    else if At(t, i, '(', '*') then
      var finish := CommentEnd(t, i + 2, 1);
      if finish.None? then Unclosed else Comment(finish.value - i)
    else if t[i] == '"' then
      var finish := StringEnd(t, i + 1);
      if finish >= |t| then Unclosed else Tok(finish + 1 - i)
    else if IsWord(t[i]) then Tok(WordEnd(t, i + 1) - i)
    else if At(t, i, '<', '-') then Tok(2)
    else Tok(1)
  }

  // --- the lexer

  datatype Token = Token(text: string, begin: nat, end: nat)

  function Texts(ts: seq<Token>): (r: seq<string>)
    ensures |r| == |ts|
  {
    seq(|ts|, i requires 0 <= i < |ts| => ts[i].text)
  }

  function Prepend<T>(x: seq<T>, r: Option<seq<T>>): Option<seq<T>> {
    if r.None? then None else Some(x + r.value)
  }

  lemma PrependAssoc<T>(x: seq<T>, y: seq<T>, r: Option<seq<T>>)
    ensures Prepend(x, Prepend(y, r)) == Prepend(x + y, r) && Prepend([], r) == r
  {
    if r.Some? {
      assert x + (y + r.value) == x + y + r.value && [] + r.value == r.value;
    }
  }

  /** The tokens of a text from a place on, with their spans; None if a comment or a string never closes. */
  function Lex(t: string, i: nat): Option<seq<Token>>
    decreases if i < |t| then |t| - i else 0
  {
    if i >= |t| then Some([]) else
    match NextPiece(t, i)
    case Space => Lex(t, i + 1)
    case Comment(n) => Lex(t, i + n)
    case Tok(n) => Prepend([Token(t[i..i + n], i, i + n)], Lex(t, i + n))
    case Unclosed => None
  }

  /** Whether the place `k` lies in a comment, reading from the place `i`. */
  predicate InComment(t: string, i: nat, k: nat)
    decreases if i < |t| then |t| - i else 0
  {
    i < |t| && i <= k &&
    match NextPiece(t, i)
    case Space => InComment(t, i + 1, k)
    case Comment(n) => k < i + n || InComment(t, i + n, k)
    case Tok(n) => InComment(t, i + n, k)
    case Unclosed => false
  }

  function CleanChar(t: string, i: nat, k: nat): char
    requires k < |t|
  {
    if InComment(t, i, k) && t[k] != '\n' then ' ' else t[k]
  }

  /** The text with its comments blanked, each character in its place. */
  function Clean(t: string): (r: string)
    ensures |r| == |t|
  {
    seq(|t|, k requires 0 <= k < |t| => CleanChar(t, 0, k))
  }

  /** How far the piece of text at a place runs, found by scanning forward from it. */
  method ScanPiece(t: string, i: nat) returns (piece: Piece)
    requires i < |t|
    ensures piece == NextPiece(t, i)
  {
    var finish, n := i, |t|;
    if IsSpace(t[i]) {
      piece := Space;
    } else if At(t, i, '\\', '*') {
      finish := i + 2;
      while finish < n && t[finish] != '\n'
        invariant i + 2 <= finish <= n && LineEnd(t, finish) == LineEnd(t, i + 2)
      {
        finish := finish + 1;
      }
      piece := Comment(finish - i);
    } else if At(t, i, '(', '*') {
      var depth := 1;
      finish := i + 2;
      while finish < n && depth > 0
        invariant i + 2 <= finish <= n && CommentEnd(t, finish, depth) == CommentEnd(t, i + 2, 1)
      {
        if At(t, finish, '(', '*') {
          depth, finish := depth + 1, finish + 2;
        } else if At(t, finish, '*', ')') {
          depth, finish := depth - 1, finish + 2;
        } else {
          finish := finish + 1;
        }
      }
      piece := if depth > 0 then Unclosed else Comment(finish - i);
    } else if t[i] == '"' {
      finish := i + 1;
      while finish < n && t[finish] != '"'
        invariant i + 1 <= finish && StringEnd(t, finish) == StringEnd(t, i + 1)
      {
        finish := finish + if t[finish] == '\\' then 2 else 1;
      }
      piece := if finish >= n then Unclosed else Tok(finish + 1 - i);
    } else if IsWord(t[i]) {
      while finish < n && IsWord(t[finish])
        invariant i <= finish <= n && WordEnd(t, finish) == WordEnd(t, i)
      {
        finish := finish + 1;
      }
      piece := Tok(finish - i);
    } else {
      piece := Tok(if At(t, i, '<', '-') then 2 else 1);
    }
  }

  function Length(piece: Piece): nat
    requires !piece.Unclosed?
  {
    if piece.Space? then 1 else piece.len
  }

  function TokensOf(t: string, i: nat, piece: Piece): seq<Token>
    requires piece.Tok? ==> i + piece.len <= |t|
  {
    if piece.Tok? then [Token(t[i..i + piece.len], i, i + piece.len)] else []
  }

  /** What the scan ends with, from a place and the tokens found before it. */
  function Onward(t: string, i: nat, found: seq<Token>): Option<seq<Token>>
    decreases if i < |t| then |t| - i else 0
  {
    if i >= |t| then Some(found) else
    var piece := NextPiece(t, i);
    if piece.Unclosed? then None else Onward(t, i + Length(piece), found + TokensOf(t, i, piece))
  }

  lemma {:induction false} OnwardIsLex(t: string, i: nat, found: seq<Token>)
    ensures Onward(t, i, found) == Prepend(found, Lex(t, i))
    decreases if i < |t| then |t| - i else 0
  {
    hide NextPiece;
    if i >= |t| {
      assert found + [] == found;
    } else if !NextPiece(t, i).Unclosed? {
      var piece := NextPiece(t, i);
      var n := Length(piece);
      OnwardIsLex(t, i + n, found + TokensOf(t, i, piece));
      PrependAssoc(found, TokensOf(t, i, piece), Lex(t, i + n));
      PrependAssoc([], [], Lex(t, i + n));
    }
  }

  /** Whether the scan comes to the place `i` between two pieces, as far as comments tell. */
  ghost predicate Boundary(t: string, i: nat) {
    forall k :: i <= k < |t| ==> CleanChar(t, 0, k) == CleanChar(t, i, k)
  }

  lemma BoundaryStep(t: string, i: nat, piece: Piece)
    requires i < |t| && piece == NextPiece(t, i) && !piece.Unclosed? && Boundary(t, i)
    ensures Boundary(t, i + Length(piece))
    ensures forall k :: i <= k < i + Length(piece) ==>
      CleanChar(t, 0, k) == if piece.Comment? && t[k] != '\n' then ' ' else t[k]
  {
    forall k | i + Length(piece) <= k < |t| ensures CleanChar(t, 0, k) == CleanChar(t, i + Length(piece), k) {
      assert CleanChar(t, 0, k) == CleanChar(t, i, k);
    }
    forall k | i <= k < i + Length(piece) ensures InComment(t, i, k) == piece.Comment? {
    }
  }

  method Blank(text: string, begin: nat, finish: nat) returns (clean: string)
    requires begin <= finish <= |text|
    ensures |clean| == |text|
    ensures forall k :: 0 <= k < |text| ==> clean[k] == if begin <= k < finish && text[k] != '\n' then ' ' else text[k]
  {
    clean := text;
    for k := begin to finish
      invariant |clean| == |text|
      invariant forall j :: 0 <= j < |text| ==> clean[j] == if begin <= j < k && text[j] != '\n' then ' ' else text[j]
    {
      if clean[k] != '\n' { clean := clean[k := ' ']; }
    }
  }

  /** The lexer as it runs: one pass over the text, blanking comments in a copy of it. */
  method Scan(t: string) returns (clean: string, tokens: Option<seq<Token>>)
    ensures tokens == Lex(t, 0)
    ensures tokens.Some? ==> clean == Clean(t)
  {
    clean := t;
    var found: seq<Token> := [];
    var i := 0;
    hide NextPiece;
    ghost var goal := Lex(t, 0);
    assert Onward(t, 0, found) == goal by {
      OnwardIsLex(t, 0, found);
      PrependAssoc([], [], Lex(t, 0));
    }
    while i < |t|
      invariant 0 <= i <= |t| == |clean|
      invariant Onward(t, i, found) == goal
      invariant Boundary(t, i)
      invariant forall k :: i <= k < |t| ==> clean[k] == t[k]
      invariant forall k :: 0 <= k < i ==> clean[k] == CleanChar(t, 0, k)
    {
      var piece := ScanPiece(t, i);
      if piece.Unclosed? { return clean, None; }
      var n := Length(piece);
      BoundaryStep(t, i, piece);
      if piece.Comment? { clean := Blank(clean, i, i + n); }
      found := found + TokensOf(t, i, piece);
      i := i + n;
    }
    tokens := Some(found);
  }
}
