/**
  Tokens of the Monkey language as the lexer produces them.

  A token is either a fixed token, whose literal is its kind's canonical
  text (TokenType.token() in the source, whose spelling is not part of this
  model), or a created token, which carries the exact text it was made from
  (TokenType.createToken(text): identifiers, integers and illegal characters).
 */
module Tokens {

  datatype TokenType =
    | Illegal | Eof
    | Identifier | Int
    | Assign | Plus | Minus | Bang | Asterisk | Slash
    | Equal | NotEqual | Lt | Gt
    | Comma | Semi
    | LParen | RParen | LSquirly | RSquirly
    | Func | Let | True | False | If | Else | Return

  datatype Token =
    | Fixed(kind: TokenType)
    | Created(kind: TokenType, literal: string)

  /** A token together with the 0-based line and column of its first
      character and the text of that source line. */
  datatype LocalizedToken = LocalizedToken(token: Token, line: nat, column: nat, codeLine: string)

  /** The seven keywords and the kinds they map to. */
  const Keywords: map<string, TokenType> :=
    map["fn" := Func, "let" := Let, "true" := True, "false" := False,
        "if" := If, "else" := Else, "return" := Return]

  predicate IsKeywordKind(k: TokenType) {
    k == Func || k == Let || k == True || k == False || k == If || k == Else || k == Return
  }

  /** The token for a maximal run of letters: a keyword, or an identifier
      carrying the run's text. */
  function IdentToken(text: string): (t: Token)
    ensures t.kind == Identifier <==> text !in Keywords
    ensures t.kind != Identifier ==> t.Fixed? && IsKeywordKind(t.kind)
    ensures t.kind == Identifier ==> t == Created(Identifier, text)
    ensures t == Fixed(Func) <==> text == "fn"
    ensures t == Fixed(Let) <==> text == "let"
    ensures t == Fixed(True) <==> text == "true"
    ensures t == Fixed(False) <==> text == "false"
    ensures t == Fixed(If) <==> text == "if"
    ensures t == Fixed(Else) <==> text == "else"
    ensures t == Fixed(Return) <==> text == "return"
  {
    if text in Keywords then Fixed(Keywords[text]) else Created(Identifier, text)
  }
}
