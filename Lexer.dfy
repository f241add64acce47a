/**
  The Monkey lexer: a pull-based scanner over a string whose cursor (pos,
  line, column) moves forward one token per call of NextToken.

  Between calls the cursor satisfies Valid(): pos lies within the input,
  line is the number of '\n' before pos and column is the distance from the
  start of the current line. Each call is proved to do exactly what
  Scanning.Step prescribes.
 */
module Lexer {
  import opened Tokens
  import opened Lines
  import opened Scanning

  class Lexer {
    const input: string
    const lines: seq<string>
    var pos: int
    var line: int
    var column: int

    ghost predicate Valid()
      reads this
    {
      && 0 <= pos <= |input|
      && lines == JavaSplit(input)
      && line == Newlines(input[..pos])
      && column == pos - LineStart(input[..pos])
    }

    constructor (input: string)
      ensures Valid()
      ensures this.input == input && pos == 0 && line == 0 && column == 0
    {
      this.input := input;
      this.lines := JavaSplit(input);
      pos, line, column := 0, 0, 0;
    }

    /** The character under the cursor, '\0' past the end. */
    function GetCc(): char
      reads this
    {
      Peek(input, pos)
    }

    /** Moves the cursor one character to the right, unless it is already at
        (or past) the end of the input. */
    method Advance()
      modifies this`pos, this`column
      ensures old(pos) >= |input| ==> pos == old(pos) && column == old(column)
      ensures old(pos) < |input| ==> pos == old(pos) + 1 && column == old(column) + 1
    {
      if pos >= |input| {
        return;
      }
      pos := pos + 1;
      column := column + 1;
    }

    /** Returns the character under the cursor and advances past it. */
    method ReadCc() returns (c: char)
      modifies this`pos, this`column
      ensures c == Peek(input, old(pos))
      ensures old(pos) >= |input| ==> pos == old(pos) && column == old(column)
      ensures old(pos) < |input| ==> pos == old(pos) + 1 && column == old(column) + 1
    {
      c := GetCc();
      Advance();
    }

    /** Reads the rest of a maximal run of digits after firstChar. */
    method Number(firstChar: char) returns (text: string)
      requires 0 <= pos <= |input|
      modifies this`pos, this`column
      ensures pos == RunEnd(input, old(pos), IsDigit)
      ensures column == old(column) + (pos - old(pos))
      ensures text == [firstChar] + input[old(pos)..pos]
    {
      var start := pos;
      while IsDigit(GetCc())
        invariant start <= pos <= |input|
        invariant RunEnd(input, pos, IsDigit) == RunEnd(input, start, IsDigit)
        invariant column == old(column) + (pos - start)
        decreases |input| - pos
      {
        Advance();
      }
      text := [firstChar] + input[start..pos];
    }

    /** Reads the rest of a maximal run of letters and underscores after
        firstChar. */
    method Indent(firstChar: char) returns (text: string)
      requires 0 <= pos <= |input|
      modifies this`pos, this`column
      ensures pos == RunEnd(input, old(pos), IsLetter)
      ensures column == old(column) + (pos - old(pos))
      ensures text == [firstChar] + input[old(pos)..pos]
    {
      var start := pos;
      while IsLetter(GetCc())
        invariant start <= pos <= |input|
        invariant RunEnd(input, pos, IsLetter) == RunEnd(input, start, IsLetter)
        invariant column == old(column) + (pos - start)
        decreases |input| - pos
      {
        Advance();
      }
      text := [firstChar] + input[start..pos];
    }

    /** Skips whitespace; every '\n' skipped starts a new line whose next
        character is in column 0. */
    method SkipWhitespace()
      requires Valid()
      modifies this`pos, this`line, this`column
      ensures Valid()
      ensures pos == SkipWs(input, old(pos))
      ensures !IsWhitespace(GetCc())
    {
      while IsWhitespace(GetCc())
        invariant Valid()
        invariant SkipWs(input, pos) == SkipWs(input, old(pos))
        decreases |input| - pos
      {
        ghost var p := pos;
        StepOne(input, p);
        if GetCc() == '\n' {
          column := -1;
          line := line + 1;
        }
        Advance();
        assert pos == p + 1;
      }
    }

    /** Skips whitespace and reads one token. */
    method NextToken() returns (t: Token)
      requires Valid()
      modifies this`pos, this`line, this`column
      ensures Valid()
      ensures (t, pos) == Step(input, old(pos))
      ensures old(pos) == |input| ==> t == Fixed(Eof) && pos == old(pos) && line == old(line) && column == old(column)
    {
      SkipWhitespace();
      ghost var q := pos;
      t := ReadToken();
      NoWhitespaceConsumed(input, old(pos));
      NoNewlineBetween(input, q, pos);
      if old(pos) == |input| {
        EofAtEnd(input);
      }
    }

    /** Reads the token at the cursor: the switch on the current character. */
    method ReadToken() returns (t: Token)
      requires 0 <= pos <= |input|
      modifies this`pos, this`column
      ensures (t, pos) == Lex(input, old(pos))
      ensures column == old(column) + (pos - old(pos))
    {
      ghost var q := pos;
      var c := ReadCc();
      match c {
        case '{' => t := Fixed(LSquirly);
        case '}' => t := Fixed(RSquirly);
        case '(' => t := Fixed(LParen);
        case ')' => t := Fixed(RParen);
        case ',' => t := Fixed(Comma);
        case ';' => t := Fixed(Semi);
        case '+' => t := Fixed(Plus);
        case '=' =>
          if GetCc() == '=' {
            Advance();
            t := Fixed(Equal);
          } else {
            t := Fixed(Assign);
          }
        case '-' => t := Fixed(Minus);
        case '!' =>
          if GetCc() == '=' {
            Advance();
            t := Fixed(NotEqual);
          } else {
            t := Fixed(Bang);
          }
        case '*' => t := Fixed(Asterisk);
        case '/' => t := Fixed(Slash);
        case '>' => t := Fixed(Gt);
        case '<' => t := Fixed(Lt);
        case '\0' => t := Fixed(Eof);
        case _ =>
          if IsLetter(c) {
            var ident := Indent(c);
            SliceCons(input, q, pos);
            t := IdentToken(ident);
          } else if IsDigit(c) {
            var digits := Number(c);
            SliceCons(input, q, pos);
            t := Created(Int, digits);
          } else {
            t := Created(Illegal, [c]);
          }
      }
    }

    /** Reads one token together with the line and column of its first
        character and the text of that line. */
    method NextLocalized() returns (lt: LocalizedToken)
      requires Valid()
      modifies this`pos, this`line, this`column
      ensures Valid()
      ensures (lt.token, pos) == Step(input, old(pos))
      ensures var q := SkipWs(input, old(pos));
        && lt.line == Newlines(input[..q])
        && lt.column == q - LineStart(input[..q])
        && lt.codeLine == input[LineStart(input[..q])..LineEnd(input, q)]
    {
      SkipWhitespace();
      var start := column;
      var lineStart := line;
      var codeLine := if lineStart >= |lines| then "" else lines[lineStart];
      LineAt(input, pos);
      SplitLineOrEmpty(input, lineStart);
      ghost var q := pos;
      RunEndUnique(input, q, IsWhitespace, q);
      var t := NextToken();
      lt := LocalizedToken(t, lineStart, start, codeLine);
    }
  }
}
