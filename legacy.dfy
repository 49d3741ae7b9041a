/**
 * index.js: the earlier standalone parser. It has its own scanner over an
 * integer offset and a summary-only grammar without error handling:
 *   <summary> ::= <type> "(" <scope> ")" ":" *<whitespace> <text>
 *              |  <type> ":" *<whitespace> <text>
 * Its peek, isParens, isWhitespace and isNewline behave exactly as those of
 * lib/scanner.js and lib/type-checks.js, so the model reuses Scanning.PeekAt
 * and the TypeChecks predicates; its scope, text and whitespace loops take
 * the same characters as the current parser's, so it reuses Parser.RunEnd.
 * Only its <type> differs: it does not stop at '!'.
 */
module Legacy {
  import opened TypeChecks
  import opened Syntax
  import Scanning
  import Parser

  /** A leaf node { type, value }. */
  datatype Field = Field(kind: Kind, value: string)

  /** The summary node { type: 'summary', children }. */
  datatype Summary = Summary(children: seq<Field>)

  /** The message node { type: 'message', children }. */
  datatype Message = Message(children: seq<Summary>)

  /** A character the <type> loop takes: anything but parens, whitespace, a newline character and ':'. */
  predicate TypeChar(c: char) {
    !(c == '(' || c == ')' || IsWhitespaceChar(c) || c == CR || c == LF || c == ':')
  }

  /** The condition on which the <type> loop stops, on the peeked token. */
  predicate TypeStop(token: string) {
    IsParens(token) || IsWhitespace(token) || IsNewline(token) || token == ":"
  }

  /** The end of the longest run of type characters from offset i. */
  function TypeEnd(text: string, i: nat): (e: nat)
    requires i <= |text|
    ensures i <= e <= |text|
    ensures forall k :: i <= k < e ==> TypeChar(text[k])
    ensures e == |text| || !TypeChar(text[e])
    decreases |text| - i
  {
    if i == |text| || !TypeChar(text[i]) then i else TypeEnd(text, i + 1)
  }

  /** consumeWhitespace() then text(scanner) from offset i: the text node and the offset after it. */
  function TextAfter(text: string, i: nat): (r: (Field, nat))
    requires i <= |text|
    ensures i <= r.1 <= |text| && r.0.kind == TextKind
  {
    var w := Parser.RunEnd(text, i, Parser.SpaceRun);
    var e := Parser.RunEnd(text, w, Parser.TextRun);
    (Field(TextKind, text[w..e]), e)
  }

  /** The offset after next() from offset j: past the peeked token. */
  function PastToken(text: string, j: nat): (k: nat)
    requires j <= |text|
    ensures j <= k <= |text|
  {
    Scanning.PeekIsPrefix(text, j);
    j + |Scanning.PeekAt(text, j)|
  }

  /**
   * What follows "(" from offset i: the scope, then two tokens consumed as
   * ")" and ":" whatever they are, then whitespace and the text.
   */
  function ScopedTail(text: string, i: nat): (r: (seq<Field>, nat))
    requires i <= |text|
    ensures i <= r.1 <= |text| && |r.0| == 2 && r.0[0].kind == ScopeKind && r.0[1].kind == TextKind
  {
    var s := Parser.RunEnd(text, i, Parser.ScopeRun);
    var b := PastToken(text, PastToken(text, s));
    var (subject, e) := TextAfter(text, b);
    ([Field(ScopeKind, text[i..s]), subject], e)
  }

  /**
   * What summary(scanner) reads after the type ending at offset t, selected
   * by the token there: ':' then the text, '(' then the scoped tail, and
   * nothing otherwise; and the offset it stops at.
   */
  function FormAfter(text: string, t: nat): (r: (seq<Field>, nat))
    requires t <= |text|
    ensures t <= r.1 <= |text| && |r.0| <= 2
  {
    var token := Scanning.PeekAt(text, t);
    if token == ":" then
      var (subject, e) := TextAfter(text, t + 1);
      ([subject], e)
    else if token == "(" then
      ScopedTail(text, t + 1)
    else
      ([], t)
  }

  /** The summary that summary(scanner) builds from offset p, and the offset it leaves the scanner at. */
  function SummaryAt(text: string, p: nat): (r: (Summary, nat))
    requires p <= |text|
    ensures p <= r.1 <= |text|
    ensures 1 <= |r.0.children| <= 3 && r.0.children[0].kind == TypeKind
  {
    var t := TypeEnd(text, p);
    var (rest, e) := FormAfter(text, t);
    (Summary([Field(TypeKind, text[p..t])] + rest), e)
  }

  /** message(commitText): the summary read from the start of the text is the only child; nothing after it is read. */
  function MessageOf(text: string): (m: Message)
    ensures |m.children| == 1 && |m.children[0].children| >= 1 && m.children[0].children[0].kind == TypeKind
  {
    Message([SummaryAt(text, 0).0])
  }

  /** The scanner of index.js: a text and an integer offset into it. */
  class Scanner {
    const text: string
    var pos: nat

    /** The offset lies within the text (only rewind can move it past the end). */
    ghost predicate Valid()
      reads this
    {
      pos <= |text|
    }

    constructor (text: string)
      ensures this.text == text && pos == 0
    {
      this.text := text;
      pos := 0;
    }

    /** eof(). */
    method Eof() returns (b: bool)
      ensures b <==> pos >= |text|
    {
      b := pos >= |text|;
    }

    /** next(): the peeked token, after which the offset moves by the token's length. */
    method Next() returns (token: string)
      modifies this
      ensures token == Scanning.PeekAt(text, old(pos)) && pos == old(pos) + |token|
      ensures old(pos) <= |text| ==> pos <= |text|
    {
      token := Peek();
      if pos <= |text| {
        Scanning.PeekIsPrefix(text, pos);
      }
      pos := pos + |token|;
    }

    /** peek(): charAt(pos), extended to "\r\n" when a CR is followed by an LF; '' past the end. */
    method Peek() returns (token: string)
      ensures token == Scanning.PeekAt(text, pos)
    {
      token := if pos < |text| then [text[pos]] else "";
      if token == [CR] && pos + 1 < |text| && text[pos + 1] == LF {
        token := token + [LF];
      }
    }

    /** position(). */
    method Position() returns (p: nat)
      ensures p == pos
    {
      p := pos;
    }

    /** rewind(pos). */
    method Rewind(p: nat)
      modifies this
      ensures pos == p
    {
      pos := p;
    }

    /** consumeWhitespace(): step one character at a time while the peeked token is whitespace. */
    method ConsumeWhitespace()
      requires Valid()
      modifies this
      ensures Valid() && pos == Parser.RunEnd(text, old(pos), Parser.SpaceRun)
    {
      ghost var start := pos;
      var token := Peek();
      while IsWhitespace(token)
        invariant start <= pos <= |text|
        invariant forall k :: start <= k < pos ==> IsWhitespaceChar(text[k])
        invariant token == Scanning.PeekAt(text, pos)
        decreases |text| - pos
      {
        Scanning.PeekClassifies(text, pos);
        pos := pos + 1;
        token := Peek();
      }
      if pos < |text| {
        Scanning.PeekClassifies(text, pos);
      }
      Parser.RunEndUnique(text, start, Parser.SpaceRun, pos);
    }
  }

  /** Before EOF, the <type> loop stops exactly on a character it does not take, which is then the whole token. */
  lemma TypeStopIff(text: string, offset: nat)
    requires offset < |text|
    ensures TypeStop(Scanning.PeekAt(text, offset)) <==> !TypeChar(text[offset])
    ensures !TypeStop(Scanning.PeekAt(text, offset)) ==> Scanning.PeekAt(text, offset) == [text[offset]]
  {
    Scanning.PeekClassifies(text, offset);
  }

  /** type(scanner): the maximal run of type characters, possibly empty. */
  method ParseType(sc: Scanner) returns (node: Field)
    requires sc.Valid()
    modifies sc
    ensures sc.Valid() && sc.pos == TypeEnd(sc.text, old(sc.pos))
    ensures node == Field(TypeKind, sc.text[old(sc.pos)..sc.pos])
  {
    ghost var start := sc.pos;
    var value := "";
    while true
      invariant start <= sc.pos <= |sc.text| && value == sc.text[start..sc.pos]
      invariant TypeEnd(sc.text, sc.pos) == TypeEnd(sc.text, start)
      decreases |sc.text| - sc.pos
    {
      var eof := sc.Eof();
      if eof {
        break;
      }
      var token := sc.Peek();
      TypeStopIff(sc.text, sc.pos);
      if TypeStop(token) {
        break;
      }
      var t := sc.Next();
      value := value + t;
    }
    node := Field(TypeKind, value);
  }

  /** The loop shared by text and scope: the maximal run from the cursor that `run` takes. */
  method ParseRun(sc: Scanner, run: Parser.Run) returns (value: string)
    requires sc.Valid()
    modifies sc
    ensures sc.Valid() && sc.pos == Parser.RunEnd(sc.text, old(sc.pos), run)
    ensures value == sc.text[old(sc.pos)..sc.pos]
  {
    ghost var start := sc.pos;
    value := "";
    while true
      invariant start <= sc.pos <= |sc.text| && value == sc.text[start..sc.pos]
      invariant Parser.RunEnd(sc.text, sc.pos, run) == Parser.RunEnd(sc.text, start, run)
      decreases |sc.text| - sc.pos
    {
      var eof := sc.Eof();
      if eof {
        break;
      }
      var token := sc.Peek();
      Parser.StopsIff(sc.text, sc.pos, run);
      if Parser.Stops(run, token) {
        break;
      }
      var t := sc.Next();
      value := value + t;
    }
  }

  /** text(scanner): the rest of the line. */
  method ParseText(sc: Scanner) returns (node: Field)
    requires sc.Valid()
    modifies sc
    ensures sc.Valid() && sc.pos == Parser.RunEnd(sc.text, old(sc.pos), Parser.TextRun)
    ensures node == Field(TextKind, sc.text[old(sc.pos)..sc.pos])
  {
    var value := ParseRun(sc, Parser.TextRun);
    node := Field(TextKind, value);
  }

  /** scope(scanner): the run up to a paren or the end of the line. */
  method ParseScope(sc: Scanner) returns (node: Field)
    requires sc.Valid()
    modifies sc
    ensures sc.Valid() && sc.pos == Parser.RunEnd(sc.text, old(sc.pos), Parser.ScopeRun)
    ensures node == Field(ScopeKind, sc.text[old(sc.pos)..sc.pos])
  {
    var value := ParseRun(sc, Parser.ScopeRun);
    node := Field(ScopeKind, value);
  }

  /** The two steps that end both summary forms: consumeWhitespace() and text(scanner). */
  method SkipToText(sc: Scanner) returns (node: Field)
    requires sc.Valid()
    modifies sc
    ensures sc.Valid() && (node, sc.pos) == TextAfter(sc.text, old(sc.pos))
  {
    sc.ConsumeWhitespace();
    node := ParseText(sc);
  }

  /**
   * The scoped form of summary(scanner) after "(": the scope, then next()
   * twice for ")" and ":" (the checks before them are empty statements, so
   * whatever tokens stand there are consumed), then whitespace and the text.
   */
  method ParseScopedTail(sc: Scanner) returns (rest: seq<Field>)
    requires sc.Valid()
    modifies sc
    ensures sc.Valid() && (rest, sc.pos) == ScopedTail(sc.text, old(sc.pos))
  {
    ghost var i := sc.pos;
    var scope := ParseScope(sc);
    ghost var s := sc.pos;
    var close := sc.Next();
    ghost var a := sc.pos;
    var colon := sc.Next();
    ghost var b := sc.pos;
    assert a == PastToken(sc.text, s) && b == PastToken(sc.text, a);
    var text := SkipToText(sc);
    rest := [scope, text];
  }

  /** summary(scanner): the type, then what the token after it selects. */
  method ParseSummary(sc: Scanner) returns (node: Summary)
    requires sc.Valid()
    modifies sc
    ensures sc.Valid() && (node, sc.pos) == SummaryAt(sc.text, old(sc.pos))
  {
    var head := ParseType(sc);
    var rest := ParseForm(sc);
    node := Summary([head] + rest);
  }

  /** The branches of summary(scanner) after the type: ':' then the text, '(' then the scoped tail, otherwise nothing. */
  method ParseForm(sc: Scanner) returns (rest: seq<Field>)
    requires sc.Valid()
    modifies sc
    ensures sc.Valid() && (rest, sc.pos) == FormAfter(sc.text, old(sc.pos))
  {
    var token := sc.Peek();
    ghost var t := sc.pos;
    rest := [];
    if token == ":" {
      var colon := sc.Next();
      assert sc.pos == t + 1;
      var text := SkipToText(sc);
      rest := [text];
    } else if token == "(" {
      var open := sc.Next();
      assert sc.pos == t + 1;
      rest := ParseScopedTail(sc);
    }
  }

  /** message(commitText): never fails; the message holds the one summary read from the start. */
  method ParseMessage(commitText: string) returns (m: Message)
    ensures m == MessageOf(commitText)
  {
    var sc := new Scanner(commitText);
    var summary := ParseSummary(sc);
    m := Message([summary]);
  }
}

/** Properties of the index.js parser: maximal runs, the three summary forms, and round trips from summary lines. */
module LegacyProofs {
  import opened TypeChecks
  import opened Syntax
  import Scanning
  import Parser
  import opened Legacy

  /** TypeEnd is the only place where the type run can stop. */
  lemma {:induction false} TypeEndUnique(text: string, i: nat, e: nat)
    requires i <= e <= |text|
    requires forall k :: i <= k < e ==> TypeChar(text[k])
    requires e == |text| || !TypeChar(text[e])
    ensures TypeEnd(text, i) == e
    decreases e - i
  {
    if i < e {
      TypeEndUnique(text, i + 1, e);
    }
  }

  /** Skipping type characters does not change where the type run ends. */
  lemma {:induction false} TypeEndSkip(text: string, i: nat, j: nat)
    requires i <= j <= |text|
    requires forall k :: i <= k < j ==> TypeChar(text[k])
    ensures TypeEnd(text, i) == TypeEnd(text, j)
    decreases j - i
  {
    if i < j {
      TypeEndSkip(text, i + 1, j);
    }
  }

  /**
   * The legacy <type> reaches at least as far as the current parser's, and
   * ends at the same place exactly when the current one does not stop at '!'.
   */
  lemma TypeRunsAgree(text: string, i: nat)
    requires i <= |text|
    ensures var e := Parser.RunEnd(text, i, Parser.TypeRun);
      e <= TypeEnd(text, i)
      && (TypeEnd(text, i) == e <==> e == |text| || text[e] != '!')
  {
    var e := Parser.RunEnd(text, i, Parser.TypeRun);
    TypeEndSkip(text, i, e);
    if e < |text| && text[e] == '!' {
      assert TypeChar(text[e]);
    }
  }

  /**
   * The three forms of summary(): ':' after the type gives [type, text], '('
   * gives [type, scope, text], anything else only [type]. The type is the
   * maximal type run and the text a whole rest of line that does not start
   * with whitespace.
   */
  lemma SummaryForms(text: string, p: nat)
    requires p <= |text|
    ensures var r := SummaryAt(text, p).0; var t := TypeEnd(text, p); var n := |r.children|;
      r.children[0] == Field(TypeKind, text[p..t])
      && (n == 2 <==> t < |text| && text[t] == ':')
      && (n == 3 <==> t < |text| && text[t] == '(')
      && (n == 1 <==> t == |text| || (text[t] != ':' && text[t] != '('))
      && (n > 1 ==> r.children[n - 1].kind == TextKind && OneLine(r.children[n - 1].value))
      && (n == 3 ==> r.children[1].kind == ScopeKind)
  {
    var t := TypeEnd(text, p);
    if t < |text| {
      Scanning.PeekClassifies(text, t);
    }
  }

  /** A text value as text() leaves it: no newline, and not starting with whitespace. */
  predicate OneLine(v: string) {
    (forall k :: 0 <= k < |v| ==> v[k] != CR && v[k] != LF) && (v == [] || !IsWhitespaceChar(v[0]))
  }

  /** A line of type characters. */
  predicate TypeWord(tv: string) {
    forall k :: 0 <= k < |tv| ==> TypeChar(tv[k])
  }

  /** Characters a scope takes: no parens and no newline. */
  predicate ScopeWord(sc: string) {
    forall k :: 0 <= k < |sc| ==> Parser.Continues(Parser.ScopeRun, sc[k])
  }

  /** A run of whitespace characters. */
  predicate Blank(ws: string) {
    forall k :: 0 <= k < |ws| ==> IsWhitespaceChar(ws[k])
  }

  /** What may follow the summary line: nothing, or a line break. */
  predicate LineEnd(rest: string) {
    rest == [] || rest[0] == CR || rest[0] == LF
  }

  /** From w: whitespace up to b, then the text run up to e, which ends the line. */
  lemma TextAfterAt(text: string, w: nat, b: nat, e: nat)
    requires w <= b <= e <= |text|
    requires forall k :: w <= k < b ==> IsWhitespaceChar(text[k])
    requires forall k :: b <= k < e ==> text[k] != CR && text[k] != LF
    requires b == e || !IsWhitespaceChar(text[b])
    requires e == |text| || text[e] == CR || text[e] == LF
    ensures TextAfter(text, w) == (Field(TextKind, text[b..e]), e)
  {
    Parser.RunEndUnique(text, w, Parser.SpaceRun, b);
    Parser.RunEndUnique(text, b, Parser.TextRun, e);
  }

  /** From i: the scope up to s, then two tokens of one character each, taken for ")" and ":", then the text. */
  lemma ScopedTailAt(text: string, i: nat, s: nat)
    requires i <= s && s + 2 <= |text|
    requires forall k :: i <= k < s ==> Parser.Continues(Parser.ScopeRun, text[k])
    requires !Parser.Continues(Parser.ScopeRun, text[s]) && text[s] != CR && text[s + 1] != CR
    ensures ScopedTail(text, i) == ([Field(ScopeKind, text[i..s]), TextAfter(text, s + 2).0], TextAfter(text, s + 2).1)
  {
    Parser.RunEndUnique(text, i, Parser.ScopeRun, s);
    assert PastToken(text, PastToken(text, s)) == s + 2;
  }

  /** After `pre`, the whitespace run ends after ws and the text run after x. */
  lemma TextAfterOf(pre: string, ws: string, x: string, rest: string)
    requires Blank(ws) && OneLine(x) && LineEnd(rest)
    ensures TextAfter(pre + ws + x + rest, |pre|) == (Field(TextKind, x), |pre| + |ws| + |x|)
  {
    var text := pre + ws + x + rest;
    var w := |pre|;
    var b := w + |ws|;
    var e := b + |x|;
    forall k | w <= k < b
      ensures IsWhitespaceChar(text[k])
    {
      assert text[k] == ws[k - w];
    }
    forall k | b <= k < e
      ensures text[k] != CR && text[k] != LF
    {
      assert text[k] == x[k - b];
    }
    if b < e {
      assert text[b] == x[0];
    }
    if e < |text| {
      assert text[e] == rest[0];
    }
    TextAfterAt(text, w, b, e);
    assert text[b..e] == x;
  }

  /** A text that starts with a type word tv: the type run ends right after it. */
  lemma TypeEndOf(text: string, tv: string)
    requires TypeWord(tv) && |tv| < |text| && text[..|tv|] == tv && !TypeChar(text[|tv|])
    ensures TypeEnd(text, 0) == |tv|
  {
    forall k | 0 <= k < |tv|
      ensures TypeChar(text[k])
    {
      assert text[k] == text[..|tv|][k];
    }
    TypeEndUnique(text, 0, |tv|);
  }

  /**
   * test.js:7-18 as a round trip: a summary line "<type>:<whitespace><text>"
   * parses back to its type and text, and nothing after the line is read.
   */
  lemma ColonSummary(tv: string, ws: string, x: string, rest: string)
    requires TypeWord(tv) && Blank(ws) && OneLine(x) && LineEnd(rest)
    ensures MessageOf(tv + ":" + ws + x + rest) == Message([Summary([Field(TypeKind, tv), Field(TextKind, x)])])
  {
    var pre := tv + ":";
    var text := pre + ws + x + rest;
    var t := |tv|;
    assert text[t] == ':' && text[..t] == tv;
    TypeEndOf(text, tv);
    TextAfterOf(pre, ws, x, rest);
    assert Scanning.PeekAt(text, t) == ":";
    assert [Field(TypeKind, tv)] + [Field(TextKind, x)] == [Field(TypeKind, tv), Field(TextKind, x)];
  }

  /**
   * A scoped summary line by offsets: type characters up to t, "(" at t,
   * scope characters up to s, then two one-character tokens that end the
   * scope and are taken for ")" and ":".
   */
  lemma ScopedSummaryAt(text: string, t: nat, s: nat)
    requires t < s && s + 2 <= |text| && text[t] == '('
    requires forall k :: 0 <= k < t ==> TypeChar(text[k])
    requires forall k :: t + 1 <= k < s ==> Parser.Continues(Parser.ScopeRun, text[k])
    requires !Parser.Continues(Parser.ScopeRun, text[s]) && text[s] != CR && text[s + 1] != CR
    ensures var tail := TextAfter(text, s + 2);
      SummaryAt(text, 0) == (Summary([Field(TypeKind, text[..t]), Field(ScopeKind, text[t + 1..s]), tail.0]), tail.1)
  {
    TypeEndUnique(text, 0, t);
    Scanning.PeekClassifies(text, t);
    ScopedTailAt(text, t + 1, s);
    var tail := TextAfter(text, s + 2);
    assert [Field(TypeKind, text[..t])] + [Field(ScopeKind, text[t + 1..s]), tail.0]
      == [Field(TypeKind, text[..t]), Field(ScopeKind, text[t + 1..s]), tail.0];
  }

  /**
   * test.js:19-33 as a round trip: "<type>(<scope>" followed by any two
   * characters that end the scope and stand where ")" and ":" belong parses
   * back to type, scope and text, since those two tokens are never checked.
   */
  lemma ScopedSummary(tv: string, sc: string, c1: char, c2: char, ws: string, x: string, rest: string)
    requires TypeWord(tv) && ScopeWord(sc) && Blank(ws) && OneLine(x) && LineEnd(rest)
    requires !Parser.Continues(Parser.ScopeRun, c1) && c1 != CR && c2 != CR
    ensures MessageOf(tv + "(" + sc + [c1, c2] + ws + x + rest)
      == Message([Summary([Field(TypeKind, tv), Field(ScopeKind, sc), Field(TextKind, x)])])
  {
    var pre := tv + "(" + sc + [c1, c2];
    var text := pre + ws + x + rest;
    var t := |tv|;
    var s := t + 1 + |sc|;
    assert text[..|pre|] == pre;
    assert text[t] == '(' && text[s] == c1 && text[s + 1] == c2;
    assert text[..t] == tv && text[t + 1..s] == sc;
    forall k | 0 <= k < t
      ensures TypeChar(text[k])
    {
      assert text[k] == tv[k];
    }
    forall k | t + 1 <= k < s
      ensures Parser.Continues(Parser.ScopeRun, text[k])
    {
      assert text[k] == sc[k - t - 1];
    }
    ScopedSummaryAt(text, t, s);
    TextAfterOf(pre, ws, x, rest);
  }

  /** Without ':' or '(' after the type, the summary is the type alone and the rest of the text is not read. */
  lemma BareSummary(tv: string, rest: string)
    requires TypeWord(tv)
    requires rest == [] || (!TypeChar(rest[0]) && rest[0] != ':' && rest[0] != '(')
    ensures MessageOf(tv + rest) == Message([Summary([Field(TypeKind, tv)])])
  {
    var text := tv + rest;
    var t := |tv|;
    forall k | 0 <= k < t
      ensures TypeChar(text[k])
    {
      assert text[k] == tv[k];
    }
    if rest != [] {
      assert text[t] == rest[0];
      Scanning.PeekClassifies(text, t);
    }
    TypeEndUnique(text, 0, t);
    assert text[..t] == tv;
    assert FormAfter(text, t) == ([], t);
    assert [Field(TypeKind, tv)] + [] == [Field(TypeKind, tv)];
  }

  /** test.js:7-18: 'fix: a really weird bug' gives type 'fix' and text 'a really weird bug'. */
  lemma ColonExample(text: string)
    requires text == "fix" + ":" + " " + "a really weird bug"
    ensures MessageOf(text) == Message([Summary([Field(TypeKind, "fix"), Field(TextKind, "a really weird bug")])])
  {
    var tv, x := "fix", "a really weird bug";
    assert TypeWord(tv) && OneLine(x);
    ColonSummary(tv, " ", x, "");
    assert text + "" == text;
  }

  /** test.js:19-33: 'feat(parser): add support for scopes' gives type 'feat', scope 'parser' and text 'add support for scopes'. */
  lemma ScopeExample(text: string)
    requires text == "feat" + "(" + "parser" + "):" + " " + "add support for scopes"
    ensures MessageOf(text)
      == Message([Summary([Field(TypeKind, "feat"), Field(ScopeKind, "parser"), Field(TextKind, "add support for scopes")])])
  {
    var tv, sc, x := "feat", "parser", "add support for scopes";
    assert TypeWord(tv) && ScopeWord(sc) && OneLine(x);
    ScopedSummary(tv, sc, ')', ':', " ", x, "");
    assert text + "" == text;
  }

  /** The unchecked tokens: in 'fix(api(! oops' the '(' and '!' after the scope are taken for ")" and ":". */
  lemma UncheckedCloseExample(text: string)
    requires text == "fix" + "(" + "api" + "(!" + " " + "oops"
    ensures MessageOf(text) == Message([Summary([Field(TypeKind, "fix"), Field(ScopeKind, "api"), Field(TextKind, "oops")])])
  {
    var tv, sc, x := "fix", "api", "oops";
    assert TypeWord(tv) && ScopeWord(sc) && OneLine(x);
    ScopedSummary(tv, sc, '(', '!', " ", x, "");
    assert text + "" == text;
  }

  /** 'hello world' has no ':' or '(' after the type: the summary is the type 'hello' alone. */
  lemma BareExample(text: string)
    requires text == "hello" + " world"
    ensures MessageOf(text) == Message([Summary([Field(TypeKind, "hello")])])
  {
    BareSummary("hello", " world");
  }
}
