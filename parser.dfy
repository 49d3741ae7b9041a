/**
 * lib/parser.js: the recursive-descent grammar for Conventional Commits.
 *
 * Each production is given twice. `XAt(text, p)` is its specification: what
 * the production returns, and where it leaves the cursor, when it starts at
 * position p of the text. The method `X(sc)` is the production as the
 * source writes it, driving a shared Scanner, and its postcondition says
 * that it returns and leaves behind exactly what `XAt` says.
 */
module Parser {
  import opened Wrappers
  import opened TypeChecks
  import opened Syntax
  import opened Scanning

  /** A production's outcome together with the cursor it leaves behind. */
  datatype Parsed = Parsed(result: Result<Node, Failure>, pos: Pos)

  /** The cursor only moves forward within the text, and a node spans from the entry to the cursor it leaves. */
  predicate Steps(text: string, p: Pos, r: Parsed) {
    p.offset <= r.pos.offset <= |text|
    && (r.result.Ok? ==> r.result.value.start == p && r.result.value.end == r.pos)
  }

  /** A node holds a value exactly when its kind is a leaf kind. */
  predicate Shaped(n: Node) {
    n.content.Leaf? <==> IsLeafKind(n.kind)
  }

  /** A successful production yields a shaped node of the given kind. */
  predicate Yields(r: Parsed, kind: Kind) {
    r.result.Ok? ==> r.result.value.kind == kind && Shaped(r.result.value)
  }

  /** The character runs that the scanning loops of type, scope, text and whitespace accumulate. */
  datatype Run = TypeRun | ScopeRun | TextRun | SpaceRun

  /** Whether the loop of a run takes character c (tokens inside a run are single characters). */
  predicate Continues(run: Run, c: char) {
    match run
    case TypeRun => !(c == '(' || c == ')' || IsWhitespaceChar(c) || c == CR || c == LF || c == '!' || c == ':')
    case ScopeRun => !(c == '(' || c == ')' || c == CR || c == LF)
    case TextRun => !(c == CR || c == LF)
    case SpaceRun => IsWhitespaceChar(c)
  }

  /** The condition on which the scanning loop of a run stops, on the peeked token. */
  predicate Stops(run: Run, token: string) {
    match run
    case TypeRun => IsParens(token) || IsWhitespace(token) || IsNewline(token) || token == "!" || token == ":"
    case ScopeRun => IsParens(token) || IsNewline(token)
    case TextRun => IsNewline(token)
    case SpaceRun => !IsWhitespace(token)
  }

  /** Before EOF, a run stops on the peeked token exactly when it does not take the character at the cursor, which is then the whole token. */
  lemma StopsIff(text: string, offset: nat, run: Run)
    requires offset < |text|
    ensures Stops(run, PeekAt(text, offset)) <==> !Continues(run, text[offset])
    ensures !Stops(run, PeekAt(text, offset)) ==> PeekAt(text, offset) == [text[offset]]
  {
  }

  /** The end of the longest run of characters from offset i that the run takes. */
  function RunEnd(text: string, i: nat, run: Run): (e: nat)
    requires i <= |text|
    ensures i <= e <= |text|
    ensures forall k :: i <= k < e ==> Continues(run, text[k])
    ensures e == |text| || !Continues(run, text[e])
    decreases |text| - i
  {
    if i == |text| || !Continues(run, text[i]) then i else RunEnd(text, i + 1, run)
  }

  /** RunEnd is the only place where a run can stop: the characters before it continue the run and the one at it does not. */
  lemma {:induction false} RunEndUnique(text: string, i: nat, run: Run, e: nat)
    requires i <= e <= |text|
    requires forall k :: i <= k < e ==> Continues(run, text[k])
    requires e == |text| || !Continues(run, text[e])
    ensures RunEnd(text, i, run) == e
    decreases e - i
  {
    if i < e {
      RunEndUnique(text, i + 1, run, e);
    }
  }

  /** The leaf a scanning loop builds from p: the maximal run, possibly empty, on the same line. */
  function RunAt(text: string, p: Pos, kind: Kind, run: Run): (n: Node)
    requires p.offset <= |text|
    ensures n.start == p && p.offset <= n.end.offset <= |text|
  {
    var e := RunEnd(text, p.offset, run);
    Node(kind, Leaf(text[p.offset..e]), p, Skip(p, e - p.offset))
  }

  /** <type>: one or more characters other than parens, whitespace, newline, '!' and ':'. */
  function TypeAt(text: string, p: Pos): (r: Parsed)
    requires p.offset <= |text|
    ensures Steps(text, p, r) && Yields(r, TypeKind)
    ensures r.result.Ok? ==> r.pos.offset > p.offset
    ensures r.result.Err? ==> r.pos == p
  {
    var n := RunAt(text, p, TypeKind, TypeRun);
    if n.content.value == "" then Parsed(Err(Failure(n.end, TypeKind, None)), p)
    else Parsed(Ok(n), n.end)
  }

  /** <text>: any characters up to a newline or EOF; always succeeds, possibly empty. */
  function TextAt(text: string, p: Pos): (n: Node)
    requires p.offset <= |text|
    ensures n.kind == TextKind
    ensures n.start == p && p.offset <= n.end.offset <= |text|
  {
    RunAt(text, p, TextKind, TextRun)
  }

  /** <scope>: one or more characters other than parens and newline. */
  function ScopeAt(text: string, p: Pos): (r: Parsed)
    requires p.offset <= |text|
    ensures Steps(text, p, r) && Yields(r, ScopeKind)
    ensures r.result.Ok? ==> r.pos.offset > p.offset
    ensures r.result.Err? ==> r.pos == p
  {
    var n := RunAt(text, p, ScopeKind, ScopeRun);
    if n.content.value == "" then Parsed(Err(Failure(n.end, ScopeKind, None)), p)
    else Parsed(Ok(n), n.end)
  }

  /** <whitespace>+: one or more whitespace characters. */
  function WhitespaceAt(text: string, p: Pos): (r: Parsed)
    requires p.offset <= |text|
    ensures Steps(text, p, r) && Yields(r, WhitespaceKind)
    ensures r.result.Ok? ==> r.pos.offset > p.offset
    ensures r.result.Err? ==> r.pos == p
  {
    var n := RunAt(text, p, WhitespaceKind, SpaceRun);
    if n.content.value == "" then Parsed(Err(Failure(n.end, WhitespaceKind, Some([" "]))), p)
    else Parsed(Ok(n), n.end)
  }

  /** <separator> ::= ":" | " #". A space not followed by '#' fails, and the cursor goes back. */
  function SeparatorAt(text: string, p: Pos): (r: Parsed)
    requires p.offset <= |text|
    ensures Steps(text, p, r) && Yields(r, SeparatorKind)
    ensures r.result.Ok? ==> r.pos.offset > p.offset
    ensures r.result.Err? ==> r.pos == p
  {
    var t := PeekAt(text, p.offset);
    if t == ":" then
      var q := Advance(p, t);
      Parsed(Ok(Node(SeparatorKind, Leaf(t), p, q)), q)
    else if t == " " then
      var q := Advance(p, t);
      if PeekAt(text, q.offset) == "#" then
        var e := Advance(q, "#");
        Parsed(Ok(Node(SeparatorKind, Leaf(" #"), p, e)), e)
      else
        Parsed(Err(Failure(q, SeparatorKind, None)), p)
    else
      Parsed(Err(Failure(p, SeparatorKind, None)), p)
  }

  const BreakingLiteral: string := "BREAKING CHANGE"

  /** <breaking-change> ::= "!" | "BREAKING CHANGE". */
  function BreakingChangeAt(text: string, p: Pos): (r: Parsed)
    requires p.offset <= |text|
    ensures Steps(text, p, r) && Yields(r, BreakingChangeKind)
    ensures r.result.Ok? ==> r.pos.offset > p.offset
    ensures r.result.Err? ==> r.pos == p
  {
    var t := PeekAt(text, p.offset);
    if t == "!" then
      var q := Advance(p, t);
      Parsed(Ok(Node(BreakingChangeKind, Leaf(t), p, q)), q)
    else if LiteralAt(text, p.offset, BreakingLiteral) then
      var v := Chunk(text, p.offset, |BreakingLiteral|);
      var q := Advance(p, v);
      Parsed(Ok(Node(BreakingChangeKind, Leaf(v), p, q)), q)
    else
      Parsed(Err(Failure(p, BreakingChangeKind, Some([BreakingLiteral]))), p)
  }

  /**
   * <summary> ::= <type> ["(" <scope> ")"] ["!"] <separator> <whitespace>* <text>.
   * A failing <type> or <scope> is returned as it is; a missing ")" or
   * separator aborts the summary.
   */
  function SummaryAt(text: string, p: Pos): (r: Parsed)
    requires p.offset <= |text|
    ensures Steps(text, p, r) && Yields(r, SummaryKind)
  {
    var t := TypeAt(text, p);
    if t.result.Err? then t
    else if PeekAt(text, t.pos.offset) == "(" then
      var s := ScopeAt(text, Advance(t.pos, "("));
      if s.result.Err? then s
      else if PeekAt(text, s.pos.offset) != ")" then
        Parsed(Err(Failure(s.pos, SummaryKind, Some([")"]))), p)
      else
        SummaryTail(text, p, [t.result.value, s.result.value], Advance(s.pos, ")"), true)
    else
      SummaryTail(text, p, [t.result.value], t.pos, false)
  }

  /** The rest of a summary from q, after its type and optional scope `kids`. */
  function SummaryTail(text: string, p: Pos, kids: seq<Node>, q: Pos, scoped: bool): (r: Parsed)
    requires p.offset <= q.offset <= |text|
    ensures Steps(text, p, r) && Yields(r, SummaryKind)
  {
    var b := BreakingChangeAt(text, q);
    var marked := b.result.Ok?;
    var kids1 := if marked then kids + [b.result.value] else kids;
    var sep := SeparatorAt(text, b.pos);
    if sep.result.Err? then
      var expected := [if scoped then "" else "(", if marked then "" else "!", ":"];
      Parsed(Err(Failure(sep.pos, SummaryKind, Some(expected))), p)
    else
      var kids2 := kids1 + [sep.result.value];
      var ws := WhitespaceAt(text, sep.pos);
      var kids3 := if ws.result.Ok? then kids2 + [ws.result.value] else kids2;
      var txt := TextAt(text, ws.pos);
      Parsed(Ok(Node(SummaryKind, Children(kids3 + [txt]), p, txt.end)), txt.end)
  }

  /** <continuation> ::= <newline> <whitespace> <text>. Fails after consuming the newline when no whitespace follows. */
  function ContinuationAt(text: string, p: Pos): (r: Parsed)
    requires p.offset <= |text|
    ensures Steps(text, p, r) && Yields(r, ContinuationKind)
    ensures r.result.Ok? ==> r.pos.offset > p.offset
  {
    var t := PeekAt(text, p.offset);
    if IsNewline(t) then
      var q := Advance(p, t);
      var ws := WhitespaceAt(text, q);
      if ws.result.Err? then ws
      else
        var txt := TextAt(text, ws.pos);
        Parsed(Ok(Node(ContinuationKind, Children([ws.result.value, txt]), p, txt.end)), txt.end)
    else
      Parsed(Err(Failure(p, ContinuationKind, None)), p)
  }

  /** The loop of <value>: continuations pushed onto `acc` until one fails, and the cursor that failure leaves. */
  function ContinuationsFrom(text: string, p: Pos, acc: seq<Node>): (r: (seq<Node>, Pos))
    requires p.offset <= |text|
    ensures p.offset <= r.1.offset <= |text|
    decreases |text| - p.offset
  {
    var c := ContinuationAt(text, p);
    if c.result.Err? then (acc, c.pos)
    else
      ContinuationsFrom(text, c.pos, acc + [c.result.value])
  }

  /** <value> ::= <text> <continuation>*; always succeeds. */
  function ValueAt(text: string, p: Pos): (n: Node)
    requires p.offset <= |text|
    ensures n.kind == ValueKind && Shaped(n)
    ensures n.start == p && p.offset <= n.end.offset <= |text|
  {
    var t := TextAt(text, p);
    var cs := ContinuationsFrom(text, t.end, [t]);
    Node(ValueKind, Children(cs.0), p, cs.1)
  }

  /** <token> ::= <breaking-change> | <type> ["(" <scope> ")"] ["!"]. */
  function TokenAt(text: string, p: Pos): (r: Parsed)
    requires p.offset <= |text|
    ensures Steps(text, p, r) && Yields(r, TokenKind)
    ensures r.result.Ok? ==> r.pos.offset > p.offset
  {
    var b := BreakingChangeAt(text, p);
    if b.result.Ok? then
      Parsed(Ok(Node(TokenKind, Children([b.result.value]), p, b.pos)), b.pos)
    else
      var t := TypeAt(text, p);
      if t.result.Err? then t
      else if PeekAt(text, t.pos.offset) == "(" then
        var s := ScopeAt(text, Advance(t.pos, "("));
        if s.result.Err? then s
        else if PeekAt(text, s.pos.offset) != ")" then
          // the token's start aliases the cursor here, so the abort's rewind does not move it
          Parsed(Err(Failure(s.pos, TokenKind, Some([")"]))), s.pos)
        else
          TokenTail(text, p, [t.result.value, s.result.value], Advance(s.pos, ")"))
      else
        TokenTail(text, p, [t.result.value], t.pos)
  }

  /** The optional trailing "!" of a token whose type and scope `kids` end at q. */
  function TokenTail(text: string, p: Pos, kids: seq<Node>, q: Pos): (r: Parsed)
    requires p.offset < q.offset <= |text|
    ensures Steps(text, p, r) && Yields(r, TokenKind)
    ensures r.result.Ok? && r.pos.offset > p.offset
  {
    var b := BreakingChangeAt(text, q);
    if b.result.Ok? then
      Parsed(Ok(Node(TokenKind, Children(kids + [b.result.value]), p, b.pos)), b.pos)
    else
      Parsed(Ok(Node(TokenKind, Children(kids), p, q)), q)
  }

  /**
   * <footer> ::= <token> <separator> <whitespace>* <value> <newline>?.
   * The error of a failing token or separator is returned as it is, without
   * going back to the footer's start.
   */
  function FooterAt(text: string, p: Pos): (r: Parsed)
    requires p.offset <= |text|
    ensures Steps(text, p, r) && Yields(r, FooterKind)
    ensures r.result.Ok? ==> r.pos.offset > p.offset
  {
    var tk := TokenAt(text, p);
    if tk.result.Err? then tk
    else
      var sep := SeparatorAt(text, tk.pos);
      if sep.result.Err? then sep
      else
        var ws := WhitespaceAt(text, sep.pos);
        var v := ValueAt(text, ws.pos);
        var kids := [tk.result.value, sep.result.value];
        var kids1 := if ws.result.Ok? then kids + [ws.result.value] else kids;
        var e := PastNewline(text, v.end);
        Parsed(Ok(Node(FooterKind, Children(kids1 + [v]), p, e)), e)
  }

  /** <newline>?: the cursor after the newline token at p, if there is one. */
  function PastNewline(text: string, p: Pos): (q: Pos)
    requires p.offset <= |text|
    ensures p.offset <= q.offset <= |text|
  {
    var t := PeekAt(text, p.offset);
    if IsNewline(t) then Advance(p, t) else p
  }

  /** <newline>*: the cursor after every newline token from p. */
  function SkipNewlines(text: string, p: Pos): (q: Pos)
    requires p.offset <= |text|
    ensures p.offset <= q.offset <= |text| && !IsNewline(PeekAt(text, q.offset))
    decreases |text| - p.offset
  {
    var t := PeekAt(text, p.offset);
    if IsNewline(t) then SkipNewlines(text, Advance(p, t)) else p
  }

  /** How a run of footers up to EOF ends: at EOF, or stuck where a footer fails. */
  datatype FooterRun = Reached(end: Pos) | Stuck(at: Pos)

  /** The footer loop of <pre-footer>: footers until EOF, stopping at the first one that fails. */
  function FootersToEnd(text: string, p: Pos): (r: FooterRun)
    requires p.offset <= |text|
    ensures r.Reached? ==> p.offset <= r.end.offset == |text|
    ensures r.Stuck? ==> p.offset <= r.at.offset <= |text|
    decreases |text| - p.offset
  {
    if p.offset >= |text| then Reached(p)
    else
      var f := FooterAt(text, p);
      if f.result.Err? then Stuck(f.pos) else FootersToEnd(text, f.pos)
  }

  /** <pre-footer> ::= <newline>* <footer>+ up to EOF; a lookahead that never adds children. */
  function PreFooterAt(text: string, p: Pos): (r: Parsed)
    requires p.offset <= |text|
    ensures Steps(text, p, r) && Yields(r, PreFooterKind)
    ensures r.result.Err? ==> r.pos == p
  {
    var run := FootersToEnd(text, SkipNewlines(text, p));
    if run.Stuck? then Parsed(Err(Failure(run.at, PreFooterKind, None)), p)
    else Parsed(Ok(Node(PreFooterKind, Children([]), p, run.end)), run.end)
  }

  /**
   * <body>: fails (and goes back) where a pre-footer parses; otherwise a
   * line of text and, after a newline, the body's own children from the
   * next line on.
   */
  function BodyAt(text: string, p: Pos): (r: Parsed)
    requires p.offset <= |text|
    ensures Steps(text, p, r) && Yields(r, BodyKind)
    ensures r.result.Err? ==> r.pos == p
    decreases |text| - p.offset
  {
    var pf := PreFooterAt(text, p);
    if pf.result.Ok? then Parsed(Err(Failure(pf.pos, BodyKind, None)), p)
    else
      var t := TextAt(text, p);
      var nl := PeekAt(text, t.end.offset);
      if IsNewline(nl) then
        var b := BodyAt(text, Advance(t.end, nl));
        var kids := if b.result.Ok? then [t] + b.result.value.content.children else [t];
        Parsed(Ok(Node(BodyKind, Children(kids), p, b.pos)), b.pos)
      else
        Parsed(Ok(Node(BodyKind, Children([t]), p, t.end)), t.end)
  }

  /**
   * The footer loop of <message>: footers pushed onto `acc`, each tried from
   * where the previous attempt left the cursor. A failure that does not
   * move the cursor would make the source loop forever; here it ends the
   * loop, and MessageFootersReachEnd shows that this never happens.
   */
  function FooterLoop(text: string, p: Pos, acc: seq<Node>): (r: (seq<Node>, Pos))
    requires p.offset <= |text|
    ensures p.offset <= r.1.offset <= |text|
    decreases |text| - p.offset
  {
    if p.offset >= |text| then (acc, p)
    else
      var f := FooterAt(text, p);
      if f.result.Ok? then
        FooterLoop(text, f.pos, acc + [f.result.value])
      else if f.pos.offset > p.offset then FooterLoop(text, f.pos, acc)
      else (acc, p)
  }

  /**
   * <message> ::= <summary> [<newline>+ [<body>] <newline>* <footer>*], over
   * an already trimmed text. An error of the summary is what message throws.
   */
  function MessageAt(text: string): Result<Node, Failure> {
    MessageAfter(text, SummaryAt(text, Origin))
  }

  /** The message once its summary has been parsed into s. */
  function MessageAfter(text: string, s: Parsed): Result<Node, Failure>
    requires s.pos.offset <= |text|
  {
    if s.result.Err? then s.result
    else if s.pos.offset >= |text| then Ok(Node(MessageKind, Children([s.result.value]), Origin, s.pos))
    else if !IsNewline(PeekAt(text, s.pos.offset)) then Err(Failure(s.pos, MessageKind, None))
    else Ok(MessageTail(text, SkipNewlines(text, s.pos), s.result.value))
  }

  /** The message after its summary and the newlines that follow it, from q: [<body>] <newline>* <footer>*. */
  function MessageTail(text: string, q: Pos, summary: Node): Node
    requires q.offset <= |text|
  {
    var b := BodyAt(text, q);
    var kids := if b.result.Ok? then [summary, b.result.value] else [summary];
    var footers := FooterLoop(text, SkipNewlines(text, b.pos), kids);
    Node(MessageKind, Children(footers.0), Origin, footers.1)
  }

  /** Characters String.prototype.trim removes: ECMAScript WhiteSpace (TAB, VT, FF, ZWNBSP and the Zs separators) and LineTerminator. */
  predicate IsTrimmable(c: char) {
    c == TAB || c == VT || c == FF || c == ZWNBSP || c == SP || c == NBSP
    || c == '\U{1680}' || ('\U{2000}' <= c <= '\U{200A}') || c == '\U{202F}' || c == '\U{205F}' || c == '\U{3000}'
    || c == LF || c == CR || c == '\U{2028}' || c == '\U{2029}'
  }

  function TrimStart(s: string): (r: string)
    ensures |r| <= |s| && r == s[|s| - |r|..]
    ensures r == [] || !IsTrimmable(r[0])
    ensures forall i :: 0 <= i < |s| - |r| ==> IsTrimmable(s[i])
  {
    if s != [] && IsTrimmable(s[0]) then TrimStart(s[1..]) else s
  }

  function TrimEnd(s: string): (r: string)
    ensures |r| <= |s| && r == s[..|r|]
    ensures r == [] || !IsTrimmable(r[|r| - 1])
    ensures forall i :: |r| <= i < |s| ==> IsTrimmable(s[i])
  {
    if s != [] && IsTrimmable(s[|s| - 1]) then TrimEnd(s[..|s| - 1]) else s
  }

  /** commitText.trim(). */
  function Trim(s: string): string {
    TrimEnd(TrimStart(s))
  }

  /** message(commitText): parse the trimmed text; a failure is thrown as an Error with its abort message. */
  function Parse(commitText: string): Result<Node, string> {
    var text := Trim(commitText);
    match MessageAt(text)
    case Ok(n) => Ok(n)
    case Err(f) => Err(AbortMessage(text, f))
  }
}
