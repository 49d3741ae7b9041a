/**
 * The character classifiers of lib/type-checks.js. The character constants
 * are the code points that index.js spells out for the `codes` module.
 */
module TypeChecks {

  const CR: char := '\r'
  const LF: char := '\n'
  const ZWNBSP: char := '\U{FEFF}'
  const TAB: char := '\t'
  const VT: char := '\U{000B}'
  const FF: char := '\U{000C}'
  const SP: char := ' '
  const NBSP: char := '\U{00A0}'

  /** One of the six separator characters of the grammar's <whitespace>. */
  predicate IsWhitespaceChar(c: char) {
    c == ZWNBSP || c == TAB || c == VT || c == FF || c == SP || c == NBSP
  }

  /** isWhitespace: the token is exactly one whitespace character. */
  predicate IsWhitespace(token: string) {
    token == [ZWNBSP] || token == [TAB] || token == [VT] || token == [FF] || token == [SP] || token == [NBSP]
  }

  /** isNewline: the token's first character is CR or LF (charAt(0) of '' is '', so EOF is not a newline). */
  predicate IsNewline(token: string) {
    |token| > 0 && (token[0] == CR || token[0] == LF)
  }

  /** isParens: the token is "(" or ")". */
  predicate IsParens(token: string) {
    token == "(" || token == ")"
  }

  /** A token is whitespace exactly when it is a single one of the six separator characters. */
  lemma WhitespaceIsOneSeparator(token: string)
    ensures IsWhitespace(token) <==> |token| == 1 && IsWhitespaceChar(token[0])
  {
  }

  /** Both newline tokens the scanner produces, "\r\n" and a lone "\r", count as newlines; EOF does not. */
  lemma NewlineTokens()
    ensures IsNewline([CR, LF]) && IsNewline([CR]) && IsNewline([LF])
    ensures !IsNewline("")
  {
  }

  /** The three classes are pairwise disjoint: no newline token is whitespace or a paren. */
  lemma ClassesDisjoint(token: string)
    ensures !(IsWhitespace(token) && IsNewline(token))
    ensures !(IsWhitespace(token) && IsParens(token))
    ensures !(IsNewline(token) && IsParens(token))
  {
  }
}
