# Monkey lexer, modelled and verified in Dafny

This project models the lexer of a Java interpreter for the Monkey language
(`root.lexer.Lexer`). The lexer is a pull-based scanner over a string. It keeps
a cursor made of three mutable fields: `pos`, `line` and `column`. Each call of
`nextToken()` does three things:

- skips whitespace, counting every newline it passes;
- reads one character, with `'\0'` standing for "past the end";
- turns that character into a token:
  - one-character punctuation and operators;
  - `==` and `!=` by one character of lookahead;
  - maximal runs of letters and underscores, which are keywords or identifiers;
  - maximal runs of digits, which are integers;
  - otherwise a one-character `ILLEGAL` token.

`nextLocalized()` returns the same token, plus the line, the column and the
text of the line where the token starts.

The project has four files:

- `Tokens.dfy` (module `Tokens`) defines the token kinds and the token values.
  - A `Fixed(kind)` token stands for `TokenType.token()`. Its canonical literal
    lives in `TokenType`, which is not part of this model.
  - A `Created(kind, literal)` token stands for `TokenType.createToken(text)`.
  - The module also holds the keyword table and `LocalizedToken`.
- `Scanning.dfy` (module `Scanning`) is a pure reference definition of one
  lexer call.
  - `Peek`, the character classes and `RunEnd` (the end of a maximal run) are
    the building blocks.
  - `Lex(s, q)` reads one token at `q`. `Step(s, p)` skips whitespace and then
    calls `Lex`.
  - The lemmas state what the source promises about a call: bounds, progress,
    EOF at the end of input, the operators, the runs, illegal characters, the
    literal being the consumed text, and the token stream ending.
- `Lines.dfy` (module `Lines`) does the line bookkeeping: newline counts, where
  a line starts and ends, and the cut into lines. `JavaSplit` models
  `input.split("\n")`: a string without `'\n'` is returned whole, otherwise
  trailing empty strings are dropped.
- `Lexer.dfy` (module `Lexer`) is the class `Lexer`. It has the fields `input`,
  `lines`, `pos`, `line` and `column`, and one method per method of the source.
  - `Valid()` is the invariant that holds between calls:
    - `0 <= pos <= |input|`;
    - `line` is the number of `'\n'` in `input[..pos]`;
    - `column` is `pos` minus the start of the current line;
    - `lines` is `JavaSplit(input)`.
  - `NextToken` is proved to keep `Valid()` and to return exactly
    `Step(input, old(pos))`. So every lemma about `Step` applies to the class.
  - The `switch` in `nextToken` is the method `ReadToken`, and `NextToken` is
    `SkipWhitespace` followed by `ReadToken`.
  - `getCc` is the function `GetCc` (`Peek(input, pos)`). `isLetter` is the
    predicate `Scanning.IsLetter`. Both are plain definitions with no contract
    of their own.

Inside `skipWhitespace` the column is briefly `-1` after a newline; the
`advance` that follows brings it back to `0`. `Valid()` therefore holds between
calls, not in the middle of that loop.

An embedded NUL character in the input also yields an `EOF` token, and it is
consumed. Three consequences:

- an `EOF` token does not by itself mean the input is exhausted (`EofIff`);
- the cursor stands still only at the end of the input (`StepBounds`);
- a description of the lexer as "EOF only at end of input" is narrower than the
  code. The model follows the code.

## Model

| member | source | states |
|---|---|---|
| `Tokens.IdentToken` | java/monkey/src/main/java/root/lexer/Lexer.java:68-77 | Each of the seven texts `fn`, `let`, `true`, `false`, `if`, `else`, `return`, and only that text, gives its keyword token. Every other text gives an `IDENTIFIER` token carrying exactly that text. |
| `Scanning.Peek` | java/monkey/src/main/java/root/lexer/Lexer.java:102-107 | Inside the input, gives the character at the index. Outside `[0, |input|)`, on either side, gives `'\0'`. |
| `Scanning.RunEnd` | java/monkey/src/main/java/root/lexer/Lexer.java:113-127 | The run loop stops at a position within the input. Every character it passed is in the class. The character it stops at, or the `'\0'` sentinel, is not. |
| `Scanning.RunEndUnique` | java/monkey/src/main/java/root/lexer/Lexer.java:113-127 | Any end of a maximal run is the one the loop finds, so the run is determined by the input. |
| `Scanning.StepBounds` | java/monkey/src/main/java/root/lexer/Lexer.java:84-100 | A call keeps `pos <= |input|` and never moves the cursor back. It leaves the cursor where it was exactly when the cursor is already at the end. |
| `Scanning.PosAfterProgress` | java/monkey/src/main/java/root/lexer/Lexer.java:96-100 | After `n` calls the cursor is at least `n` positions further on, or at the end: this is the termination measure. |
| `Scanning.TokenStreamEnds` | java/monkey/src/main/java/root/lexer/Lexer.java:30-33 | After at most `|input| - pos` calls the input is exhausted, and every later call returns `EOF`. |
| `Scanning.EofAtEnd` | java/monkey/src/main/java/root/lexer/Lexer.java:84-107 | At the end of input a call returns `EOF` and leaves the cursor at the end: `peek` gives `'\0'`, `advance` does nothing and case `'\0'` applies. So every later call returns `EOF` again. |
| `Scanning.OnlyWhitespaceLeft` | java/monkey/src/main/java/root/lexer/Lexer.java:129-137 | When only whitespace remains, one call skips all of it and returns `EOF` at the end. |
| `Scanning.EofIff` | java/monkey/src/main/java/root/lexer/Lexer.java:64 | `EOF` is returned exactly when the first non-whitespace character is the sentinel. An embedded NUL is consumed. |
| `Scanning.TwoCharOperators` | java/monkey/src/main/java/root/lexer/Lexer.java:43-59 | `=` followed by `=` gives `EQUAL` and consumes two characters. A lone `=` gives `ASSIGN` and consumes one. The same holds for `!`, with `NOT_EQUAL` and `BANG`. |
| `Scanning.MinusIsSeparate` | java/monkey/src/main/java/root/lexer/Lexer.java:51 | A `-` is always a one-character `MINUS` token, never part of a number. |
| `Scanning.IdentifierRun` | java/monkey/src/main/java/root/lexer/Lexer.java:66-78 | A letter or `_` starts a non-empty maximal run of letters and underscores that stops before a non-letter. The token is the keyword or identifier for exactly `input[start..pos]`. |
| `Scanning.IntegerRun` | java/monkey/src/main/java/root/lexer/Lexer.java:79 | A digit starts a non-empty maximal run of digits that stops before a non-digit. The token is `INT` carrying exactly `input[start..pos]`, with no sign. |
| `Scanning.IllegalChar` | java/monkey/src/main/java/root/lexer/Lexer.java:80 | The token is `ILLEGAL` exactly when the character is neither punctuation, a letter nor a digit. It then carries that one character and consumes exactly one position. |
| `Scanning.LiteralIsConsumedText` | java/monkey/src/main/java/root/lexer/Lexer.java:66-80 | The literal of every created token (identifier, integer, illegal) is exactly the slice of input the call consumed after the whitespace. |
| `Scanning.NoWhitespaceConsumed` | java/monkey/src/main/java/root/lexer/Lexer.java:35-81 | The text a call reads after skipping whitespace holds no whitespace, so only `skipWhitespace` ever consumes `'\n'`. |
| `Scanning.TokenIsItsOwnText` | java/monkey/src/main/java/root/lexer/Lexer.java:35-81 | Lexing the consumed text on its own gives the same token and consumes all of it: a token depends on its own text alone. |
| `Scanning.MinusFifteenExample` | java/monkey/src/test/java/ParserTest.java:121 | On the input `- 15;` the calls give `MINUS`, then `INT "15"` (the space is skipped), then `SEMI`, then `EOF` at the end. |
| `Lines.StepOne` | java/monkey/src/main/java/root/lexer/Lexer.java:129-137 | Passing a `'\n'` adds one line, and the new line starts right after it. Passing any other character extends the current line. |
| `Lines.NoNewlineBetween` | java/monkey/src/main/java/root/lexer/Lexer.java:113-127 | Consuming characters other than `'\n'` changes neither the line number nor the start of the line. |
| `Lines.JoinRawLines` | java/monkey/src/main/java/root/lexer/Lexer.java:17 | Cutting the input at every `'\n'` and joining the pieces with `'\n'` gives the input back. |
| `Lines.SplitLineOrEmpty` | java/monkey/src/main/java/root/lexer/Lexer.java:25 | Reading line `l` of `input.split("\n")`, or `""` when `l` is past its end, gives the `l`-th piece between newlines. So the fallback to `""` only stands in for the empty trailing lines that `split` drops. |
| `Lines.LineAt` | java/monkey/src/main/java/root/lexer/Lexer.java:25 | The piece between newlines whose number is the number of newlines before `q` is the text from the start to the end of the line holding `q`. |
| `Lexer.Lexer.constructor` | java/monkey/src/main/java/root/lexer/Lexer.java:15-18 | A new lexer starts at position, line and column 0, with `lines` the Java split of the input. The invariant holds. |
| `Lexer.Lexer.Advance` | java/monkey/src/main/java/root/lexer/Lexer.java:84-90 | Does nothing once `pos >= |input|`. Otherwise it increments `pos` and `column` by one. |
| `Lexer.Lexer.ReadCc` | java/monkey/src/main/java/root/lexer/Lexer.java:96-100 | Returns `peek(pos)` and advances as `advance` does. |
| `Lexer.Lexer.Number` | java/monkey/src/main/java/root/lexer/Lexer.java:113-119 | Moves `pos` to the end of the maximal digit run and moves `column` by the same amount. Returns the first character followed by exactly the characters passed. |
| `Lexer.Lexer.Indent` | java/monkey/src/main/java/root/lexer/Lexer.java:121-127 | The same for a run of letters and underscores. |
| `Lexer.Lexer.SkipWhitespace` | java/monkey/src/main/java/root/lexer/Lexer.java:129-137 | Moves `pos` to the first non-whitespace position and keeps the line and column invariant. The current character is then not whitespace. |
| `Lexer.Lexer.ReadToken` | java/monkey/src/main/java/root/lexer/Lexer.java:33-81 | Reads the current character and classifies it. The token and the new `pos` are exactly `Lex(input, pos)`, and `column` moves with `pos`. |
| `Lexer.Lexer.NextToken` | java/monkey/src/main/java/root/lexer/Lexer.java:30-82 | Keeps the invariant, and the token and the new `pos` are exactly `Step(input, old(pos))`. At the end of input it returns `EOF` and leaves `pos`, `line` and `column` unchanged. |
| `Lexer.Lexer.NextLocalized` | java/monkey/src/main/java/root/lexer/Lexer.java:20-28 | Returns the same token as `NextToken`. The line is the number of newlines before the token's first character, and the column is that character's distance from the start of its line. The code line is exactly the text of the line holding the token. |

## Left out

- Character classes: Unicode letters and digits beyond ASCII are not modelled. The source uses `Character.isLetter` and `Character.isDigit`, which accept them; the model takes ASCII letters and `'0'`..`'9'`. `Character.isWhitespace` is modelled exactly, for the characters it accepts.
- String encoding: Java `char` is a UTF-16 code unit, while Dafny `char` is a Unicode scalar value. Surrogate pairs are out of scope.
- Fixed-token literals: `TokenType`, `Token`, `LocalizedToken` and `token.localize(...)` are not part of this model. A fixed token records only its kind, so the canonical literal text of kinds such as `{` or `EOF` is not stated.
- `String.split`: it takes a regular expression. Only its behaviour for the pattern `"\n"` is modelled.
- Integer width: the model does not wrap `pos`, `line` or `column` at 32 bits. A Java `String` is shorter than 2^31 characters, so none of them can overflow.
- `REPL.java` is left out. It is console I/O, and `printToken` only rejects `ILLEGAL` tokens before printing.
- The parser, the AST and the evaluator are not part of this model. Their tests only feed the lexer inputs such as `- 15;`.
