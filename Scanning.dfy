/**
  A reference definition of what one call of the lexer does, written over
  the input string and a position: skip whitespace, then read one token by
  the longest match the scanning rules allow. The class in Lexer.dfy is
  proved to follow it step by step.
 */
module Scanning {
  import opened Tokens

  /** The character at index i, or the sentinel '\0' outside the input. */
  function Peek(s: string, i: int): (c: char)
    ensures 0 <= i < |s| ==> c == s[i]
    ensures !(0 <= i < |s|) ==> c == '\0'
  {
    if i >= |s| || i < 0 then '\0' else s[i]
  }

  /** Java's Character.isWhitespace on a UTF-16 unit: the space, line and
      paragraph separators other than the no-break spaces, and the controls
      U+0009 to U+000D and U+001C to U+001F. */
  predicate IsWhitespace(c: char) {
    ('\t' <= c <= '\r') || ('\U{1C}' <= c <= ' ') || c == '\U{1680}'
    || ('\U{2000}' <= c <= '\U{2006}') || ('\U{2008}' <= c <= '\U{200A}')
    || c == '\U{2028}' || c == '\U{2029}' || c == '\U{205F}' || c == '\U{3000}'
  }

  /** Character.isLetter, restricted to ASCII. */
  predicate IsAsciiLetter(c: char) {
    ('a' <= c <= 'z') || ('A' <= c <= 'Z')
  }

  /** Character.isDigit, restricted to ASCII. */
  predicate IsDigit(c: char) {
    '0' <= c <= '9'
  }

  /** The lexer's isLetter: a letter or an underscore. */
  predicate IsLetter(c: char) {
    IsAsciiLetter(c) || c == '_'
  }

  /** The end of the maximal run of characters in the class inRun that
      starts at p. */
  function RunEnd(s: string, p: nat, inRun: char -> bool): (e: nat)
    requires p <= |s|
    requires !inRun('\0')
    ensures p <= e <= |s|
    ensures forall k :: p <= k < e ==> inRun(s[k])
    ensures !inRun(Peek(s, e))
    decreases |s| - p
  {
    if inRun(Peek(s, p)) then RunEnd(s, p + 1, inRun) else p
  }

  /** A non-empty slice is its first character followed by the rest. */
  lemma SliceCons(s: string, q: nat, e: nat)
    requires q < e <= |s|
    ensures [s[q]] + s[q + 1..e] == s[q..e]
  {
  }

  /** The position of the first non-whitespace character at or after p. */
  function SkipWs(s: string, p: nat): (q: nat)
    requires p <= |s|
  {
    RunEnd(s, p, IsWhitespace)
  }

  /** The token read at q and the position after it; q is not whitespace. */
  function Lex(s: string, q: nat): (r: (Token, nat))
    requires q <= |s|
  {
    var c := Peek(s, q);
    match c
    case '{' => (Fixed(LSquirly), q + 1)
    case '}' => (Fixed(RSquirly), q + 1)
    case '(' => (Fixed(LParen), q + 1)
    case ')' => (Fixed(RParen), q + 1)
    case ',' => (Fixed(Comma), q + 1)
    case ';' => (Fixed(Semi), q + 1)
    case '+' => (Fixed(Plus), q + 1)
    case '=' => if Peek(s, q + 1) == '=' then (Fixed(Equal), q + 2) else (Fixed(Assign), q + 1)
    case '-' => (Fixed(Minus), q + 1)
    case '!' => if Peek(s, q + 1) == '=' then (Fixed(NotEqual), q + 2) else (Fixed(Bang), q + 1)
    case '*' => (Fixed(Asterisk), q + 1)
    case '/' => (Fixed(Slash), q + 1)
    case '>' => (Fixed(Gt), q + 1)
    case '<' => (Fixed(Lt), q + 1)
    case '\0' => (Fixed(Eof), if q < |s| then q + 1 else q)
    case _ =>
      if IsLetter(c) then
        var e := RunEnd(s, q + 1, IsLetter);
        (IdentToken(s[q..e]), e)
      else if IsDigit(c) then
        var e := RunEnd(s, q + 1, IsDigit);
        (Created(Int, s[q..e]), e)
      else
        (Created(Illegal, [c]), q + 1)
  }

  /** One call of the lexer from position p: the token and the new position. */
  function Step(s: string, p: nat): (r: (Token, nat))
    requires p <= |s|
  {
    Lex(s, SkipWs(s, p))
  }

  /** The characters the lexer treats specially before trying letters and
      digits. */
  predicate IsPunctuation(c: char) {
    c in "{}(),;+=-!*/><\0"
  }

  // ---------------------------------------------------------------------
  // Properties of one call

  /** RunEnd is the only end of a maximal run starting at p. */
  lemma RunEndUnique(s: string, p: nat, inRun: char -> bool, e: nat)
    requires p <= e <= |s| && !inRun('\0')
    requires forall k :: p <= k < e ==> inRun(s[k])
    requires !inRun(Peek(s, e))
    ensures RunEnd(s, p, inRun) == e
  {
  }

  /** The cursor stays within the input, never moves back, and stays put
      exactly when it is already at the end. */
  lemma StepBounds(s: string, p: nat)
    requires p <= |s|
    ensures p <= SkipWs(s, p) <= Step(s, p).1 <= |s|
    ensures Step(s, p).1 == p <==> p == |s|
  {
    var q := SkipWs(s, p);
    var c := Peek(s, q);
    if IsLetter(c) || IsDigit(c) {
      assert c != '\0' && !IsPunctuation(c);
    }
  }

  /** Whatever whitespace remains, once nothing else does the lexer returns
      EOF at the end of the input. */
  lemma OnlyWhitespaceLeft(s: string, p: nat)
    requires p <= |s|
    requires forall k :: p <= k < |s| ==> IsWhitespace(s[k])
    ensures Step(s, p) == (Fixed(Eof), |s|)
  {
    RunEndUnique(s, p, IsWhitespace, |s|);
  }

  /** At the end of the input the lexer returns EOF and does not move, so it
      returns EOF on every later call too. */
  lemma EofAtEnd(s: string)
    ensures Step(s, |s|) == (Fixed(Eof), |s|)
  {
    OnlyWhitespaceLeft(s, |s|);
  }

  /** EOF is returned exactly when the first non-whitespace character is the
      sentinel: the end of the input or an embedded NUL, which is consumed. */
  lemma EofIff(s: string, p: nat)
    requires p <= |s|
    ensures Step(s, p).0 == Fixed(Eof) <==> Peek(s, SkipWs(s, p)) == '\0'
    ensures Step(s, p).0 == Fixed(Eof) && SkipWs(s, p) < |s| ==> Step(s, p).1 == SkipWs(s, p) + 1
  {
    var q := SkipWs(s, p);
    var c := Peek(s, q);
    if IsLetter(c) {
      assert !IsPunctuation(c);
      assert IsKeywordKind(Step(s, p).0.kind) || Step(s, p).0.kind == Identifier;
    }
  }

  /** '=' and '!' look one character ahead: followed by '=' they make a
      two-character operator, otherwise a one-character one. */
  lemma TwoCharOperators(s: string, p: nat)
    requires p <= |s|
    ensures var q := SkipWs(s, p);
      Peek(s, q) == '=' ==>
        Step(s, p) == if Peek(s, q + 1) == '=' then (Fixed(Equal), q + 2) else (Fixed(Assign), q + 1)
    ensures var q := SkipWs(s, p);
      Peek(s, q) == '!' ==>
        Step(s, p) == if Peek(s, q + 1) == '=' then (Fixed(NotEqual), q + 2) else (Fixed(Bang), q + 1)
  {
  }

  /** A '-' is always a token of its own: a sign is never part of a number. */
  lemma MinusIsSeparate(s: string, p: nat)
    requires p <= |s|
    ensures Peek(s, SkipWs(s, p)) == '-' ==> Step(s, p) == (Fixed(Minus), SkipWs(s, p) + 1)
  {
  }

  /** A letter or '_' starts a maximal run of letters and underscores; the
      run is a keyword or an identifier carrying exactly that text. */
  lemma IdentifierRun(s: string, p: nat)
    requires p <= |s|
    requires IsLetter(Peek(s, SkipWs(s, p)))
    ensures var q, e := SkipWs(s, p), Step(s, p).1;
      && q < e <= |s|
      && (forall k :: q <= k < e ==> IsLetter(s[k]))
      && !IsLetter(Peek(s, e))
      && Step(s, p).0 == IdentToken(s[q..e])
  {
    var c := Peek(s, SkipWs(s, p));
    assert c != '\0' && !IsPunctuation(c);
  }

  /** A digit starts a maximal run of digits, carried verbatim as an INT. */
  lemma IntegerRun(s: string, p: nat)
    requires p <= |s|
    requires IsDigit(Peek(s, SkipWs(s, p)))
    ensures var q, e := SkipWs(s, p), Step(s, p).1;
      && q < e <= |s|
      && (forall k :: q <= k < e ==> IsDigit(s[k]))
      && !IsDigit(Peek(s, e))
      && Step(s, p).0 == Created(Int, s[q..e])
  {
    var c := Peek(s, SkipWs(s, p));
    assert c != '\0' && !IsPunctuation(c) && !IsLetter(c);
  }

  /** Any other character is one ILLEGAL token carrying that character, and
      lexing goes on after it. */
  lemma IllegalChar(s: string, p: nat)
    requires p <= |s|
    ensures var q, c := SkipWs(s, p), Peek(s, SkipWs(s, p));
      Step(s, p).0.kind == Illegal <==> !IsPunctuation(c) && !IsLetter(c) && !IsDigit(c)
    ensures var q, c := SkipWs(s, p), Peek(s, SkipWs(s, p));
      Step(s, p).0.kind == Illegal ==> q < |s| && Step(s, p) == (Created(Illegal, [s[q]]), q + 1)
  {
    var q := SkipWs(s, p);
    var c := Peek(s, q);
    if IsLetter(c) {
      assert !IsPunctuation(c);
      assert IsKeywordKind(Step(s, p).0.kind) || Step(s, p).0.kind == Identifier;
    } else if IsDigit(c) {
      assert !IsPunctuation(c);
    }
  }

  /** A created token's literal is exactly the text the call consumed after
      the whitespace. */
  lemma LiteralIsConsumedText(s: string, p: nat)
    requires p <= |s|
    ensures var q, e := SkipWs(s, p), Step(s, p).1;
      q <= e <= |s| && (Step(s, p).0.Created? ==> Step(s, p).0.literal == s[q..e])
  {
    var q := SkipWs(s, p);
    var c := Peek(s, q);
    StepBounds(s, p);
    if IsLetter(c) {
      IdentifierRun(s, p);
    } else if IsDigit(c) {
      IntegerRun(s, p);
    }
  }

  /** The text a call consumes after the whitespace holds no whitespace, in
      particular no '\n'. */
  lemma NoWhitespaceConsumed(s: string, p: nat)
    requires p <= |s|
    ensures var q, e := SkipWs(s, p), Step(s, p).1;
      q <= e <= |s| && forall k :: q <= k < e ==> !IsWhitespace(s[k])
  {
    var q := SkipWs(s, p);
    var c := Peek(s, q);
    StepBounds(s, p);
    if IsLetter(c) {
      IdentifierRun(s, p);
    } else if IsDigit(c) {
      IntegerRun(s, p);
    }
  }

  /** The token depends only on the text it was read from: lexing that text
      on its own gives the same token and consumes all of it. */
  lemma TokenIsItsOwnText(s: string, p: nat)
    requires p <= |s|
    ensures var q, e := SkipWs(s, p), Step(s, p).1;
      q <= e <= |s| && Step(s[q..e], 0) == (Step(s, p).0, e - q)
  {
    var q := SkipWs(s, p);
    var c := Peek(s, q);
    StepBounds(s, p);
    NoWhitespaceConsumed(s, p);
    var u := s[q..Step(s, p).1];
    RunEndUnique(u, 0, IsWhitespace, 0);
    if IsLetter(c) || IsDigit(c) {
      OwnTextOfRun(s, q);
    } else {
      OwnTextOfOther(s, q);
    }
  }

  /** A run of letters or digits, read on its own, gives the same token. */
  lemma OwnTextOfRun(s: string, q: nat)
    requires q <= |s|
    requires IsLetter(Peek(s, q)) || IsDigit(Peek(s, q))
    ensures Lex(s, q).1 <= |s| && Lex(s[q..Lex(s, q).1], 0) == (Lex(s, q).0, Lex(s, q).1 - q)
  {
    var c := Peek(s, q);
    assert c != '\0' && !IsPunctuation(c);
    var e := Lex(s, q).1;
    var u := s[q..e];
    assert u[0..|u|] == u;
    assert Peek(u, 0) == c;
    if IsLetter(c) {
      RunEndUnique(u, 1, IsLetter, |u|);
    } else {
      RunEndUnique(u, 1, IsDigit, |u|);
    }
  }

  /** A token other than a run, read on its own, is read the same way. */
  lemma OwnTextOfOther(s: string, q: nat)
    requires q <= |s|
    requires !IsWhitespace(Peek(s, q)) && !IsLetter(Peek(s, q)) && !IsDigit(Peek(s, q))
    ensures Lex(s, q).1 <= |s| && Lex(s[q..Lex(s, q).1], 0) == (Lex(s, q).0, Lex(s, q).1 - q)
  {
    var e := Lex(s, q).1;
    var u := s[q..e];
    if q < |s| {
      assert Peek(u, 0) == s[q];
      if e == q + 2 {
        assert Peek(u, 1) == s[q + 1];
      } else {
        assert Peek(u, 1) == '\0';
      }
    }
  }

  // ---------------------------------------------------------------------
  // Repeated calls

  /** The position after n calls of the lexer from p. */
  function PosAfter(s: string, p: nat, n: nat): (r: nat)
    requires p <= |s|
    ensures r <= |s|
    decreases n
  {
    if n == 0 then p
    else
      StepBounds(s, p);
      PosAfter(s, Step(s, p).1, n - 1)
  }

  /** Every call before the end moves the cursor, so n calls reach at least
      n positions further or the end. */
  lemma {:induction false} PosAfterProgress(s: string, p: nat, n: nat)
    requires p <= |s|
    ensures PosAfter(s, p, n) >= if p + n <= |s| then p + n else |s|
    decreases n
  {
    if n > 0 {
      StepBounds(s, p);
      PosAfterProgress(s, Step(s, p).1, n - 1);
    }
  }

  /** Any input is exhausted after at most its length in calls, after which
      every call returns EOF. */
  lemma TokenStreamEnds(s: string, p: nat, n: nat)
    requires p <= |s|
    requires n >= |s| - p
    ensures PosAfter(s, p, n) == |s|
    ensures Step(s, PosAfter(s, p, n)) == (Fixed(Eof), |s|)
  {
    PosAfterProgress(s, p, n);
    EofAtEnd(s);
  }

  /** The prefix-expression input "- 15;": the whitespace between '-' and
      the digits is skipped, and the sign is a token of its own. */
  lemma MinusFifteenExample()
    ensures Step("- 15;", 0) == (Fixed(Minus), 1)
    ensures Step("- 15;", 1) == (Created(Int, "15"), 4)
    ensures Step("- 15;", 4) == (Fixed(Semi), 5)
    ensures Step("- 15;", 5) == (Fixed(Eof), 5)
  {
    var s := "- 15;";
    RunEndUnique(s, 1, IsWhitespace, 2);
    RunEndUnique(s, 3, IsDigit, 4);
    assert s[2..4] == "15";
    EofAtEnd(s);
  }
}
