/**
 * lib/scanner.js: a cursor over the commit text that tracks line, column and
 * offset. The specification functions give what each scanner operation reads
 * or computes for a text and a cursor; class Scanner holds the mutable cursor
 * and is proved against them.
 */
module Scanning {
  import opened Wrappers
  import opened TypeChecks
  import opened Syntax

  /** peek(): the next logical token, CR LF fused into one token, '' at EOF. */
  function PeekAt(text: string, offset: nat): string {
    if offset >= |text| then ""
    else if text[offset] == CR && offset + 1 < |text| && text[offset + 1] == LF then [CR, LF]
    else [text[offset]]
  }

  /** text.substring(offset, offset + n): at most n characters, fewer at the end of the text. */
  function Chunk(text: string, offset: nat, n: nat): string
    requires offset <= |text|
  {
    if offset + n <= |text| then text[offset..offset + n] else text[offset..]
  }

  /** The cursor after consuming `token` (next): a token starting with CR or LF moves to column 1 of the next line. */
  function Advance(p: Pos, token: string): Pos {
    if IsNewline(token) then Pos(p.line + 1, 1, p.offset + |token|)
    else Pos(p.line, p.column + |token|, p.offset + |token|)
  }

  /** peekLiteral(literal): the upcoming |literal| characters are `literal`. */
  predicate LiteralAt(text: string, offset: nat, literal: string)
    requires offset <= |text|
  {
    Chunk(text, offset, |literal|) == literal
  }

  function DigitChar(d: nat): char
    requires d < 10
  {
    ('0' as int + d) as char
  }

  /** Decimal rendering of a number, as a template literal prints a line or column. */
  function NatToString(n: nat): (s: string)
    ensures |s| >= 1 && forall i :: 0 <= i < |s| ==> '0' <= s[i] <= '9'
    decreases n
  {
    if n < 10 then [DigitChar(n)] else NatToString(n / 10) + [DigitChar(n % 10)]
  }

  /** The number a string of decimal digits denotes. */
  function DigitsValue(s: string): nat
    requires forall i :: 0 <= i < |s| ==> '0' <= s[i] <= '9'
    decreases |s|
  {
    if s == [] then 0 else DigitsValue(s[..|s| - 1]) * 10 + (s[|s| - 1] as int - '0' as int)
  }

  /** expectedTokens.filter(Boolean): falsy entries (here the empty string) are dropped, every other entry is kept. */
  function Truthy(tokens: seq<string>): (r: seq<string>)
    ensures forall i :: 0 <= i < |r| ==> r[i] != ""
    ensures |r| <= |tokens|
  {
    if tokens == [] then []
    else if tokens[0] == "" then Truthy(tokens[1..]) else [tokens[0]] + Truthy(tokens[1..])
  }

  /** Truthy drops the empty tokens and keeps every other one, as often as it occurs. */
  lemma {:induction false} TruthyKeeps(tokens: seq<string>)
    ensures multiset(Truthy(tokens)) == multiset(tokens)["" := 0]
  {
    if tokens != [] {
      TruthyKeeps(tokens[1..]);
      assert tokens == [tokens[0]] + tokens[1..];
    }
  }

  /** Array.prototype.join. */
  function Join(xs: seq<string>, sep: string): string {
    if xs == [] then "" else if |xs| == 1 then xs[0] else xs[0] + sep + Join(xs[1..], sep)
  }

  /** The token list of an abort message: the truthy expected tokens, or `<kind>` when none were given. */
  function ValidTokens(kind: Kind, expected: Option<seq<string>>): string {
    match expected
    case None => "<" + KindName(kind) + ">"
    case Some(tokens) => Join(Truthy(tokens), ", ")
  }

  /**
   * The Error abort returns: the cursor it was made at, the kind of the node
   * being parsed and the expected tokens, from which its message is built.
   */
  datatype Failure = Failure(cursor: Pos, kind: Kind, expected: Option<seq<string>>)

  /** The wording of an abort message. */
  function Unexpected(found: string, at: string, tokens: string): string {
    "unexpected token " + found + " at " + at + ", valid tokens [" + tokens + "]"
  }

  /** The message abort builds from the cursor: the offending token (or EOF), line:column and the valid tokens. */
  function AbortMessage(text: string, f: Failure): string {
    var Failure(cursor, kind, expected) := f;
    var at := NatToString(cursor.line) + ":" + NatToString(cursor.column);
    var found := if cursor.offset >= |text| then "EOF" else "'" + PeekAt(text, cursor.offset) + "'";
    Unexpected(found, at, ValidTokens(kind, expected))
  }

  /** The peeked token is the text at the cursor: empty only at EOF, two characters only for CR LF. */
  lemma PeekIsPrefix(text: string, offset: nat)
    requires offset <= |text|
    ensures var t := PeekAt(text, offset);
      offset + |t| <= |text| && t == text[offset..offset + |t|]
      && (t == "" <==> offset == |text|)
      && (|t| == 2 <==> offset + 1 < |text| && text[offset] == CR && text[offset + 1] == LF)
      && |t| <= 2
  {
  }

  /** peekLiteral holds exactly when the next |literal| characters are the literal. */
  lemma LiteralAtIff(text: string, offset: nat, literal: string)
    requires offset <= |text|
    ensures LiteralAt(text, offset, literal) <==> offset + |literal| <= |text| && text[offset..offset + |literal|] == literal
  {
  }

  /** next(n) consumes at most n characters, all of them from the cursor on. */
  lemma ChunkIsPrefix(text: string, offset: nat, n: nat)
    requires offset <= |text|
    ensures var c := Chunk(text, offset, n);
      |c| <= n && offset + |c| <= |text| && c == text[offset..offset + |c|]
      && (|c| < n ==> offset + |c| == |text|)
  {
  }

  /** The classifiers applied to the peeked token are decided by the character at the cursor. */
  lemma PeekClassifies(text: string, offset: nat)
    requires offset < |text|
    ensures var t := PeekAt(text, offset);
      (IsNewline(t) <==> text[offset] == CR || text[offset] == LF)
      && (IsWhitespace(t) <==> IsWhitespaceChar(text[offset]))
      && (IsParens(t) <==> text[offset] == '(' || text[offset] == ')')
      && (t == "!" <==> text[offset] == '!') && (t == ":" <==> text[offset] == ':')
      && (t == "(" <==> text[offset] == '(') && (t == ")" <==> text[offset] == ')')
      && (t == " " <==> text[offset] == ' ') && (t == "#" <==> text[offset] == '#')
      && (!IsNewline(t) ==> t == [text[offset]])
  {
  }

  /** Consuming the peeked token from a Located cursor gives a Located cursor. */
  lemma AdvanceLocated(text: string, p: Pos)
    requires Located(text, p) && p.offset < |text|
    ensures Located(text, Advance(p, PeekAt(text, p.offset)))
  {
    var t := PeekAt(text, p.offset);
    var q := Advance(p, t);
    if IsNewline(t) {
      assert Locate(text, q.offset) == q;
    } else {
      LocateSkip(text, p, 1);
    }
  }

  /** Rendering a number in decimal and reading it back gives the number. */
  lemma {:induction false} NatToStringRoundTrip(n: nat)
    ensures DigitsValue(NatToString(n)) == n
    decreases n
  {
    if n >= 10 {
      NatToStringRoundTrip(n / 10);
      var s := NatToString(n / 10);
      var t := s + [DigitChar(n % 10)];
      assert t[..|t| - 1] == s;
    }
  }

  /**
   * The cursor over a commit text. `text` never changes; `pos` is the
   * position that next, rewind and abort update.
   */
  class Scanner {
    const text: string
    var pos: Pos

    /** The cursor never runs past the end of the text. */
    ghost predicate Valid()
      reads this
    {
      pos.offset <= |text|
    }

    /** A scanner at the given start, or at line 1, column 1, offset 0. */
    constructor (text: string, start: Option<Pos>)
      requires start.Some? ==> start.value.offset <= |text|
      ensures this.text == text && Valid()
      ensures pos == if start.Some? then start.value else Origin
    {
      this.text := text;
      pos := if start.Some? then start.value else Origin;
    }

    /** eof(): the cursor has reached the end of the text. */
    method Eof() returns (b: bool)
      ensures b <==> pos.offset >= |text|
    {
      b := pos.offset >= |text|;
    }

    /** next(n): with n == 0 (no argument) the peeked token, otherwise the next n characters. */
    method Next(n: nat) returns (token: string)
      requires Valid()
      modifies this
      ensures Valid()
      ensures token == if n == 0 then PeekAt(text, old(pos).offset) else Chunk(text, old(pos).offset, n)
      ensures pos == Advance(old(pos), token)
    {
      if n == 0 {
        token := Peek();
      } else {
        token := Chunk(text, pos.offset, n);
      }
      PeekIsPrefix(text, pos.offset);
      ChunkIsPrefix(text, pos.offset, n);
      var offset := pos.offset + |token|;
      var column := pos.column + |token|;
      var line := pos.line;
      if IsNewline(token) {
        line := line + 1;
        column := 1;
      }
      pos := Pos(line, column, offset);
    }

    /** peek(): the next token without moving. */
    method Peek() returns (token: string)
      ensures token == PeekAt(text, pos.offset)
    {
      if pos.offset >= |text| {
        token := "";
      } else {
        token := [text[pos.offset]];
        if text[pos.offset] == CR && pos.offset + 1 < |text| && text[pos.offset + 1] == LF {
          token := token + [LF];
        }
      }
    }

    /** peekLiteral(literal). */
    method PeekLiteral(literal: string) returns (b: bool)
      requires Valid()
      ensures b <==> LiteralAt(text, pos.offset, literal)
    {
      var s := Chunk(text, pos.offset, |literal|);
      b := literal == s;
    }

    /** position(): a copy of the cursor. */
    method Position() returns (p: Pos)
      ensures p == pos
    {
      p := pos;
    }

    /** rewind(p): the cursor becomes p, so rewind(position()) restores line, column and offset. */
    method Rewind(p: Pos)
      requires p.offset <= |text|
      modifies this
      ensures Valid() && pos == p
    {
      pos := p;
    }

    /** enter(kind, content): a node of that kind and content starting at the cursor. */
    method Enter(kind: Kind, content: Content) returns (node: Node)
      ensures node == Node(kind, content, pos, pos)
    {
      var start := Position();
      node := Node(kind, content, start, start);
    }

    /** exit(node): the node with its end set to the cursor. */
    method Exit(node: Node) returns (r: Node)
      ensures r == node.(end := pos)
    {
      var end := Position();
      r := node.(end := end);
    }

    /**
     * abort(node, expectedTokens): the error is made at the cursor (its
     * message is AbortMessage of that failure), then the cursor goes back to
     * the node's start.
     */
    method Abort(node: Node, expected: Option<seq<string>>) returns (f: Failure)
      requires node.start.offset <= |text|
      modifies this
      ensures Valid()
      ensures f == Failure(old(pos), node.kind, expected)
      ensures pos == node.start
    {
      var at := Position();
      f := Failure(at, node.kind, expected);
      Rewind(node.start);
    }
  }
}
