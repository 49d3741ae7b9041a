/**
 * The productions of lib/parser.js as the source writes them: each one
 * drives the shared Scanner, pushes children onto the node it entered and
 * either exits that node or aborts. Each method is proved to return, and to
 * leave the cursor at, exactly what its specification function in module
 * Parser gives.
 */
module Grammar {
  import opened Wrappers
  import opened TypeChecks
  import opened Syntax
  import opened Scanning
  import opened Parser
  import opened ParserProofs

  /** node.children.push(child). */
  function Push(node: Node, child: Node): (r: Node)
    requires node.content.Children?
    ensures r.content == Children(node.content.children + [child])
    ensures r.kind == node.kind && r.start == node.start && r.end == node.end
  {
    node.(content := Children(node.content.children + [child]))
  }

  /** node.value += token. */
  function Append(node: Node, token: string): (r: Node)
    requires node.content.Leaf?
    ensures r.content == Leaf(node.content.value + token)
    ensures r.kind == node.kind && r.start == node.start && r.end == node.end
  {
    node.(content := Leaf(node.content.value + token))
  }

  /** While a scanning loop runs: every character from `start` to `pos` continues the run, all on one line. */
  ghost predicate Scanned(text: string, start: Pos, pos: Pos, run: Run) {
    start.offset <= pos.offset <= |text|
    && (forall k :: start.offset <= k < pos.offset ==> Continues(run, text[k]))
    && pos == Skip(start, pos.offset - start.offset)
  }

  /** One turn of a scanning loop: the peeked token is one character that continues the run, and it is appended. */
  lemma ScanStep(text: string, start: Pos, pos: Pos, run: Run)
    requires Scanned(text, start, pos, run) && pos.offset < |text|
    requires !Stops(run, PeekAt(text, pos.offset))
    ensures PeekAt(text, pos.offset) == [text[pos.offset]]
    ensures Scanned(text, start, Advance(pos, PeekAt(text, pos.offset)), run)
    ensures text[start.offset..pos.offset + 1] == text[start.offset..pos.offset] + PeekAt(text, pos.offset)
  {
    StopsIff(text, pos.offset, run);
  }

  /** A scanning loop that stops at EOF or on its stop condition has built exactly the leaf RunAt gives. */
  lemma ScanEnd(text: string, start: Pos, pos: Pos, run: Run, kind: Kind)
    requires Scanned(text, start, pos, run)
    requires pos.offset == |text| || Stops(run, PeekAt(text, pos.offset))
    ensures RunAt(text, start, kind, run) == Node(kind, Leaf(text[start.offset..pos.offset]), start, pos)
  {
    if pos.offset < |text| {
      StopsIff(text, pos.offset, run);
    }
    RunEndUnique(text, start.offset, run, pos.offset);
  }

  /** type(scanner). */
  method Type(sc: Scanner) returns (r: Result<Node, Failure>)
    requires sc.Valid()
    modifies sc
    ensures sc.Valid() && Parsed(r, sc.pos) == TypeAt(sc.text, old(sc.pos))
  {
    var node := sc.Enter(TypeKind, Leaf(""));
    assert sc.text[sc.pos.offset..sc.pos.offset] == "";
    while true
      invariant sc.Valid() && Scanned(sc.text, node.start, sc.pos, TypeRun) && node.start == old(sc.pos)
      invariant node == Node(TypeKind, Leaf(sc.text[node.start.offset..sc.pos.offset]), node.start, node.start)
      decreases |sc.text| - sc.pos.offset
    {
      var eof := sc.Eof();
      if eof {
        break;
      }
      var token := sc.Peek();
      if IsParens(token) || IsWhitespace(token) || IsNewline(token) || token == "!" || token == ":" {
        break;
      }
      ScanStep(sc.text, node.start, sc.pos, TypeRun);
      var t := sc.Next(0);
      node := Append(node, t);
    }
    ScanEnd(sc.text, node.start, sc.pos, TypeRun, TypeKind);
    if node.content.value == "" {
      var f := sc.Abort(node, None);
      r := Err(f);
    } else {
      var n := sc.Exit(node);
      r := Ok(n);
    }
  }

  /** text(scanner): never fails. */
  method Text(sc: Scanner) returns (n: Node)
    requires sc.Valid()
    modifies sc
    ensures sc.Valid() && n == TextAt(sc.text, old(sc.pos)) && sc.pos == n.end
  {
    var node := sc.Enter(TextKind, Leaf(""));
    assert sc.text[sc.pos.offset..sc.pos.offset] == "";
    while true
      invariant sc.Valid() && Scanned(sc.text, node.start, sc.pos, TextRun) && node.start == old(sc.pos)
      invariant node == Node(TextKind, Leaf(sc.text[node.start.offset..sc.pos.offset]), node.start, node.start)
      decreases |sc.text| - sc.pos.offset
    {
      var eof := sc.Eof();
      if eof {
        break;
      }
      var token := sc.Peek();
      if IsNewline(token) {
        break;
      }
      ScanStep(sc.text, node.start, sc.pos, TextRun);
      var t := sc.Next(0);
      node := Append(node, t);
    }
    ScanEnd(sc.text, node.start, sc.pos, TextRun, TextKind);
    n := sc.Exit(node);
  }

  /** scope(scanner). */
  method Scope(sc: Scanner) returns (r: Result<Node, Failure>)
    requires sc.Valid()
    modifies sc
    ensures sc.Valid() && Parsed(r, sc.pos) == ScopeAt(sc.text, old(sc.pos))
  {
    var node := sc.Enter(ScopeKind, Leaf(""));
    assert sc.text[sc.pos.offset..sc.pos.offset] == "";
    while true
      invariant sc.Valid() && Scanned(sc.text, node.start, sc.pos, ScopeRun) && node.start == old(sc.pos)
      invariant node == Node(ScopeKind, Leaf(sc.text[node.start.offset..sc.pos.offset]), node.start, node.start)
      decreases |sc.text| - sc.pos.offset
    {
      var eof := sc.Eof();
      if eof {
        break;
      }
      var token := sc.Peek();
      if IsParens(token) || IsNewline(token) {
        break;
      }
      ScanStep(sc.text, node.start, sc.pos, ScopeRun);
      var t := sc.Next(0);
      node := Append(node, t);
    }
    ScanEnd(sc.text, node.start, sc.pos, ScopeRun, ScopeKind);
    if node.content.value == "" {
      var f := sc.Abort(node, None);
      r := Err(f);
    } else {
      var n := sc.Exit(node);
      r := Ok(n);
    }
  }

  /** whitespace(scanner). */
  method Whitespace(sc: Scanner) returns (r: Result<Node, Failure>)
    requires sc.Valid()
    modifies sc
    ensures sc.Valid() && Parsed(r, sc.pos) == WhitespaceAt(sc.text, old(sc.pos))
  {
    var node := sc.Enter(WhitespaceKind, Leaf(""));
    assert sc.text[sc.pos.offset..sc.pos.offset] == "";
    var token := sc.Peek();
    while IsWhitespace(token)
      invariant sc.Valid() && Scanned(sc.text, node.start, sc.pos, SpaceRun) && node.start == old(sc.pos)
      invariant node == Node(WhitespaceKind, Leaf(sc.text[node.start.offset..sc.pos.offset]), node.start, node.start)
      invariant token == PeekAt(sc.text, sc.pos.offset)
      decreases |sc.text| - sc.pos.offset
    {
      ScanStep(sc.text, node.start, sc.pos, SpaceRun);
      var t := sc.Next(0);
      node := Append(node, t);
      token := sc.Peek();
    }
    ScanEnd(sc.text, node.start, sc.pos, SpaceRun, WhitespaceKind);
    if node.content.value == "" {
      var f := sc.Abort(node, Some([" "]));
      r := Err(f);
    } else {
      var n := sc.Exit(node);
      r := Ok(n);
    }
  }

  /** separator(scanner). */
  method Separator(sc: Scanner) returns (r: Result<Node, Failure>)
    requires sc.Valid()
    modifies sc
    ensures sc.Valid() && Parsed(r, sc.pos) == SeparatorAt(sc.text, old(sc.pos))
  {
    var node := sc.Enter(SeparatorKind, Leaf(""));
    var token := sc.Peek();
    if token == ":" {
      var colon := sc.Next(0);
      node := node.(content := Leaf(colon));
      var n := sc.Exit(node);
      return Ok(n);
    }
    if token == " " {
      var space := sc.Next(0);
      token := sc.Peek();
      if token == "#" {
        var hash := sc.Next(0);
        node := node.(content := Leaf(" #"));
        var n := sc.Exit(node);
        return Ok(n);
      } else {
        var f := sc.Abort(node, None);
        return Err(f);
      }
    }
    var f := sc.Abort(node, None);
    r := Err(f);
  }

  /** breakingChange(scanner). */
  method BreakingChange(sc: Scanner) returns (r: Result<Node, Failure>)
    requires sc.Valid()
    modifies sc
    ensures sc.Valid() && Parsed(r, sc.pos) == BreakingChangeAt(sc.text, old(sc.pos))
  {
    var node := sc.Enter(BreakingChangeKind, Leaf(""));
    var token := sc.Peek();
    if token == "!" {
      var bang := sc.Next(0);
      node := node.(content := Leaf(bang));
    } else {
      var literal := sc.PeekLiteral(BreakingLiteral);
      if literal {
        var v := sc.Next(|BreakingLiteral|);
        node := node.(content := Leaf(v));
      }
    }
    if node.content.value == "" {
      var f := sc.Abort(node, Some([BreakingLiteral]));
      r := Err(f);
    } else {
      var n := sc.Exit(node);
      r := Ok(n);
    }
  }

  /** summary(scanner). */
  method Summary(sc: Scanner) returns (r: Result<Node, Failure>)
    requires sc.Valid()
    modifies sc
    ensures sc.Valid() && Parsed(r, sc.pos) == SummaryAt(sc.text, old(sc.pos))
  {
    ghost var p := sc.pos;
    var node := sc.Enter(SummaryKind, Children([]));
    var t := Type(sc);
    if t.Err? {
      return t;
    }
    node := Push(node, t.value);
    var scoped := false;
    var token := sc.Peek();
    if token == "(" {
      var open := sc.Next(0);
      var s := Scope(sc);
      if s.Err? {
        return s;
      }
      node := Push(node, s.value);
      scoped := true;
      token := sc.Peek();
      if token != ")" {
        var f := sc.Abort(node, Some([")"]));
        return Err(f);
      }
      var close := sc.Next(0);
      assert node.content.children == [t.value, s.value];
    } else {
      assert node.content.children == [t.value];
    }
    ghost var q := sc.pos;
    ghost var kids := node.content.children;
    assert node == Node(SummaryKind, Children(kids), p, p);
    var b := BreakingChange(sc);
    var marked := b.Ok?;
    if marked {
      node := Push(node, b.value);
    }
    var sep := Separator(sc);
    if sep.Err? {
      var f := sc.Abort(node, Some([if scoped then "" else "(", if marked then "" else "!", ":"]));
      return Err(f);
    }
    node := Push(node, sep.value);
    var ws := Whitespace(sc);
    if ws.Ok? {
      node := Push(node, ws.value);
    }
    var txt := Text(sc);
    node := Push(node, txt);
    var n := sc.Exit(node);
    r := Ok(n);
  }

  /** continuation(scanner). */
  method Continuation(sc: Scanner) returns (r: Result<Node, Failure>)
    requires sc.Valid()
    modifies sc
    ensures sc.Valid() && Parsed(r, sc.pos) == ContinuationAt(sc.text, old(sc.pos))
  {
    var node := sc.Enter(ContinuationKind, Children([]));
    var token := sc.Peek();
    if IsNewline(token) {
      var nl := sc.Next(0);
      var ws := Whitespace(sc);
      if ws.Err? {
        return ws;
      }
      node := Push(node, ws.value);
      var txt := Text(sc);
      node := Push(node, txt);
      assert node.content.children == [ws.value, txt];
      assert node.start == old(sc.pos);
    } else {
      var f := sc.Abort(node, None);
      return Err(f);
    }
    var n := sc.Exit(node);
    r := Ok(n);
  }

  /** value(scanner): never fails. */
  method Value(sc: Scanner) returns (n: Node)
    requires sc.Valid()
    modifies sc
    ensures sc.Valid() && n == ValueAt(sc.text, old(sc.pos)) && sc.pos == n.end
  {
    var node := sc.Enter(ValueKind, Children([]));
    var txt := Text(sc);
    node := Push(node, txt);
    assert node.content.children == [txt];
    ghost var goal := ContinuationsFrom(sc.text, sc.pos, [txt]);
    while true
      invariant sc.Valid() && node.kind == ValueKind && node.start == old(sc.pos) && node.end == node.start
      invariant node.content.Children?
      invariant ContinuationsFrom(sc.text, sc.pos, node.content.children) == goal
      decreases |sc.text| - sc.pos.offset
    {
      var c := Continuation(sc);
      if c.Err? {
        break;
      }
      node := Push(node, c.value);
    }
    n := sc.Exit(node);
  }

  /** token(scanner). */
  method Token(sc: Scanner) returns (r: Result<Node, Failure>)
    requires sc.Valid()
    modifies sc
    ensures sc.Valid() && Parsed(r, sc.pos) == TokenAt(sc.text, old(sc.pos))
  {
    var node := sc.Enter(TokenKind, Children([]));
    var b := BreakingChange(sc);
    if b.Err? {
      var ignored := sc.Abort(node, None);
    } else {
      node := Push(node, b.value);
      assert node.content.children == [b.value];
      var n := sc.Exit(node);
      return Ok(n);
    }
    var t := Type(sc);
    if t.Err? {
      return t;
    }
    node := Push(node, t.value);
    assert node.content.children == [t.value];
    var token := sc.Peek();
    if token == "(" {
      var open := sc.Next(0);
      var s := Scope(sc);
      if s.Err? {
        return s;
      }
      node := Push(node, s.value);
      assert node.content.children == [t.value, s.value];
      token := sc.Peek();
      if token != ")" {
        // abort rewinds to the token's start, which by now is the cursor itself
        var f := sc.Abort(node.(start := sc.pos), Some([")"]));
        return Err(f);
      }
      var close := sc.Next(0);
    }
    var bang := BreakingChange(sc);
    if bang.Ok? {
      node := Push(node, bang.value);
    }
    var n := sc.Exit(node);
    r := Ok(n);
  }

  /** footer(scanner). */
  method Footer(sc: Scanner) returns (r: Result<Node, Failure>)
    requires sc.Valid()
    modifies sc
    ensures sc.Valid() && Parsed(r, sc.pos) == FooterAt(sc.text, old(sc.pos))
  {
    var node := sc.Enter(FooterKind, Children([]));
    var t := Token(sc);
    if t.Err? {
      return t;
    }
    node := Push(node, t.value);
    var s := Separator(sc);
    if s.Err? {
      return s;
    }
    node := Push(node, s.value);
    assert node.content.children == [t.value, s.value];
    var ws := Whitespace(sc);
    if ws.Ok? {
      node := Push(node, ws.value);
    }
    var v := Value(sc);
    node := Push(node, v);
    var token := sc.Peek();
    if IsNewline(token) {
      var nl := sc.Next(0);
    }
    var n := sc.Exit(node);
    r := Ok(n);
  }

  /** while (isNewline(scanner.peek())) scanner.next(). */
  method SkipNewlineTokens(sc: Scanner)
    requires sc.Valid()
    modifies sc
    ensures sc.Valid() && sc.pos == SkipNewlines(sc.text, old(sc.pos))
  {
    var token := sc.Peek();
    while IsNewline(token)
      invariant sc.Valid() && token == PeekAt(sc.text, sc.pos.offset)
      invariant SkipNewlines(sc.text, sc.pos) == SkipNewlines(sc.text, old(sc.pos))
      decreases |sc.text| - sc.pos.offset
    {
      var nl := sc.Next(0);
      token := sc.Peek();
    }
  }

  /** preFooter(scanner). */
  method PreFooter(sc: Scanner) returns (r: Result<Node, Failure>)
    requires sc.Valid()
    modifies sc
    ensures sc.Valid() && Parsed(r, sc.pos) == PreFooterAt(sc.text, old(sc.pos))
  {
    var node := sc.Enter(PreFooterKind, Children([]));
    SkipNewlineTokens(sc);
    ghost var run := FootersToEnd(sc.text, sc.pos);
    while true
      invariant sc.Valid() && FootersToEnd(sc.text, sc.pos) == run
      decreases |sc.text| - sc.pos.offset
    {
      var eof := sc.Eof();
      if eof {
        break;
      }
      var f := Footer(sc);
      if f.Err? {
        var e := sc.Abort(node, None);
        return Err(e);
      }
    }
    var n := sc.Exit(node);
    r := Ok(n);
  }

  /** body(scanner). */
  method Body(sc: Scanner) returns (r: Result<Node, Failure>)
    requires sc.Valid()
    modifies sc
    ensures sc.Valid() && Parsed(r, sc.pos) == BodyAt(sc.text, old(sc.pos))
    decreases |sc.text| - sc.pos.offset
  {
    var node := sc.Enter(BodyKind, Children([]));
    var pf := PreFooter(sc);
    if pf.Ok? {
      var f := sc.Abort(node, None);
      return Err(f);
    }
    var txt := Text(sc);
    node := Push(node, txt);
    assert node.content.children == [txt];
    var token := sc.Peek();
    if IsNewline(token) {
      var nl := sc.Next(0);
      var b := Body(sc);
      if b.Ok? {
        node := node.(content := Children(node.content.children + b.value.content.children));
      }
    }
    var n := sc.Exit(node);
    r := Ok(n);
  }

  /**
   * message(commitText): parse the trimmed text. The Error the source throws
   * is the Err result, carrying the abort message.
   */
  method Message(commitText: string) returns (r: Result<Node, string>)
    ensures r == Parse(commitText)
  {
    var sc := new Scanner(Trim(commitText), None);
    var node := sc.Enter(MessageKind, Children([]));
    var s := Summary(sc);
    if s.Err? {
      return Err(AbortMessage(sc.text, s.error));
    }
    node := Push(node, s.value);
    assert node.content.children == [s.value];
    var eof := sc.Eof();
    if eof {
      var n := sc.Exit(node);
      return Ok(n);
    }
    var token := sc.Peek();
    if IsNewline(token) {
      SkipNewlineTokens(sc);
    } else {
      var f := sc.Abort(node, None);
      return Err(AbortMessage(sc.text, f));
    }
    r := BodyAndFooters(sc, node, s.value);
  }

  /** Lines 34-46 of message(): the optional body, newlines, then footers up to EOF, pushed onto the message node. */
  method BodyAndFooters(sc: Scanner, node: Node, summary: Node) returns (r: Result<Node, string>)
    requires sc.Valid() && node == Node(MessageKind, Children([summary]), Origin, Origin)
    modifies sc
    ensures r == Ok(MessageTail(sc.text, old(sc.pos), summary))
  {
    var message := node;
    ghost var bodyStart := sc.pos;
    var b := Body(sc);
    if b.Ok? {
      message := Push(message, b.value);
    }
    assert message.content.children == if b.Ok? then [summary, b.value] else [summary];
    BodyLeavesFooters(sc.text, bodyStart);
    SkipNewlineTokens(sc);
    ghost var goal := FooterLoop(sc.text, sc.pos, message.content.children);
    while true
      invariant sc.Valid() && message.kind == MessageKind && message.start == Origin && message.end == Origin
      invariant message.content.Children?
      invariant FootersToEnd(sc.text, sc.pos).Reached?
      invariant FooterLoop(sc.text, sc.pos, message.content.children) == goal
      decreases |sc.text| - sc.pos.offset
    {
      var eof := sc.Eof();
      if eof {
        break;
      }
      var f := Footer(sc);
      if f.Ok? {
        message := Push(message, f.value);
      }
    }
    var n := sc.Exit(message);
    r := Ok(n);
  }
}
