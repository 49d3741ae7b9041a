/**
 * Properties of the grammar of lib/parser.js, proved about the
 * specification functions of module Parser.
 */
module ParserProofs {
  import opened Wrappers
  import opened TypeChecks
  import opened Syntax
  import opened Scanning
  import opened Parser

  /** <text> stops only at a newline or at EOF. */
  lemma TextStopsAtLineEnd(text: string, p: Pos)
    requires p.offset <= |text|
    ensures var e := TextAt(text, p).end.offset;
      e == |text| || IsNewline(PeekAt(text, e))
  {
    var e := TextAt(text, p).end.offset;
    if e < |text| {
      PeekClassifies(text, e);
    }
  }

  /** When the footers up to EOF all parse, the message's footer loop reaches EOF where they do. */
  lemma {:induction false} FooterLoopReaches(text: string, q: Pos, acc: seq<Node>)
    requires q.offset <= |text| && FootersToEnd(text, q).Reached?
    ensures FooterLoop(text, q, acc).1 == FootersToEnd(text, q).end
    decreases |text| - q.offset
  {
    if q.offset < |text| {
      var f := FooterAt(text, q);
      FooterLoopReaches(text, f.pos, acc + [f.result.value]);
    }
  }

  /** Wherever a body stops, the rest of the text after its newlines is footers up to EOF. */
  lemma {:induction false} BodyLeavesFooters(text: string, p: Pos)
    requires p.offset <= |text|
    ensures FootersToEnd(text, SkipNewlines(text, BodyAt(text, p).pos)).Reached?
    decreases |text| - p.offset
  {
    if PreFooterAt(text, p).result.Err? {
      var t := TextAt(text, p);
      TextStopsAtLineEnd(text, p);
      var nl := PeekAt(text, t.end.offset);
      if IsNewline(nl) {
        BodyLeavesFooters(text, Advance(t.end, nl));
      }
    }
  }

  // ---------------------------------------------------------------------
  // Footers take precedence over the body.
  // ---------------------------------------------------------------------

  /** A pre-footer parses at EOF: no newlines and no footers is footers up to EOF. */
  lemma PreFooterAtEof(text: string, p: Pos)
    requires p.offset == |text|
    ensures PreFooterAt(text, p).result.Ok?
  {
    assert SkipNewlines(text, p) == p;
  }

  /** The body is omitted exactly where the rest of the text parses as newlines and footers up to EOF. */
  lemma BodyYieldsToFooters(text: string, p: Pos)
    requires p.offset <= |text|
    ensures BodyAt(text, p).result.Err? <==> PreFooterAt(text, p).result.Ok?
    ensures BodyAt(text, p).result.Err? ==> BodyAt(text, p).pos == p
  {
  }

  /** A body child: a whole line of text, from whose start the rest does not parse as footers. */
  ghost predicate LineBeforeFooters(text: string, n: Node) {
    n.kind == TextKind && n.content.Leaf? && n.start.offset <= |text| && n == TextAt(text, n.start)
    && PreFooterAt(text, n.start).result.Err?
  }

  /** Where the line after `n` starts, past the newline that ends it. */
  function NextLineStart(text: string, n: Node): Pos {
    Advance(n.end, PeekAt(text, n.end.offset))
  }

  /**
   * The children of a body from p that ends at e: lines before footers, the
   * first at p, each of the others on the line right after the one before,
   * and e just after the last line (past its newline, if any), where the
   * rest parses as footers.
   */
  ghost predicate BodyShaped(text: string, p: Pos, cs: seq<Node>, e: Pos) {
    |cs| >= 1 && cs[0].start == p
    && (forall i :: 0 <= i < |cs| ==> LineBeforeFooters(text, cs[i]))
    && (forall i :: 0 <= i < |cs| - 1 ==>
          IsNewline(PeekAt(text, cs[i].end.offset)) && cs[i + 1].start == NextLineStart(text, cs[i]))
    && (e == cs[|cs| - 1].end
        || (IsNewline(PeekAt(text, cs[|cs| - 1].end.offset)) && e == NextLineStart(text, cs[|cs| - 1])))
    && e.offset <= |text| && PreFooterAt(text, e).result.Ok?
  }

  /**
   * A body is the lines of text from its start up to the first line from
   * which the rest parses as footers: its children, flattened across the
   * recursion, are text leaves, one per consecutive line, each starting
   * where no pre-footer parses, and the body ends where one does.
   */
  lemma {:induction false} BodyLines(text: string, p: Pos)
    requires p.offset <= |text|
    ensures var r := BodyAt(text, p);
      r.result.Ok? ==> r.result.value.content.Children? && BodyShaped(text, p, r.result.value.content.children, r.pos)
    decreases |text| - p.offset
  {
    if PreFooterAt(text, p).result.Err? {
      var t := TextAt(text, p);
      assert LineBeforeFooters(text, t);
      TextStopsAtLineEnd(text, p);
      var nl := PeekAt(text, t.end.offset);
      if IsNewline(nl) {
        var q := Advance(t.end, nl);
        BodyLines(text, q);
        BodyLinesStep(text, p, t, BodyAt(text, q));
      } else {
        PreFooterAtEof(text, t.end);
      }
    }
  }

  /** One step of BodyLines: a line ending at a newline, followed by the rest of the body or by footers. */
  lemma BodyLinesStep(text: string, p: Pos, t: Node, b: Parsed)
    requires LineBeforeFooters(text, t) && t.start == p && IsNewline(PeekAt(text, t.end.offset))
    requires b.pos.offset <= |text|
    requires b.result.Ok? ==>
      b.result.value.content.Children? && b.result.value.start == NextLineStart(text, t)
      && BodyShaped(text, b.result.value.start, b.result.value.content.children, b.pos)
    requires b.result.Err? ==> b.pos == NextLineStart(text, t) && PreFooterAt(text, b.pos).result.Ok?
    ensures var kids := if b.result.Ok? then [t] + b.result.value.content.children else [t];
      BodyShaped(text, p, kids, b.pos)
  {
    if b.result.Ok? {
      BodyLinesCons(text, t, b.result.value.content.children, b.pos);
    }
  }

  /** A line before footers, put in front of the lines of a body that starts on the next line. */
  lemma BodyLinesCons(text: string, t: Node, cs: seq<Node>, e: Pos)
    requires LineBeforeFooters(text, t) && IsNewline(PeekAt(text, t.end.offset))
    requires BodyShaped(text, NextLineStart(text, t), cs, e)
    ensures BodyShaped(text, t.start, [t] + cs, e)
  {
    var ds := [t] + cs;
    forall i | 0 <= i < |ds|
      ensures LineBeforeFooters(text, ds[i])
    {
      if i > 0 {
        assert ds[i] == cs[i - 1];
      }
    }
    forall i | 0 <= i < |ds| - 1
      ensures IsNewline(PeekAt(text, ds[i].end.offset)) && ds[i + 1].start == NextLineStart(text, ds[i])
    {
      if i > 0 {
        assert ds[i] == cs[i - 1] && ds[i + 1] == cs[i];
      }
    }
    assert ds[|ds| - 1] == cs[|cs| - 1];
  }

  // ---------------------------------------------------------------------
  // The message.
  // ---------------------------------------------------------------------

  /** A summary ends at EOF or at a newline, because its last part is <text>. */
  lemma SummaryEndsLine(text: string, p: Pos)
    requires p.offset <= |text|
    ensures var s := SummaryAt(text, p);
      s.result.Ok? ==> s.pos.offset == |text| || IsNewline(PeekAt(text, s.pos.offset))
  {
    var t := TypeAt(text, p);
    if t.result.Ok? {
      var q, scoped, kids;
      if PeekAt(text, t.pos.offset) == "(" {
        var s := ScopeAt(text, Advance(t.pos, "("));
        if s.result.Err? || PeekAt(text, s.pos.offset) != ")" {
          return;
        }
        q, scoped, kids := Advance(s.pos, ")"), true, [t.result.value, s.result.value];
      } else {
        q, scoped, kids := t.pos, false, [t.result.value];
      }
      assert SummaryAt(text, p) == SummaryTail(text, p, kids, q, scoped);
      var b := BreakingChangeAt(text, q);
      var sep := SeparatorAt(text, b.pos);
      if sep.result.Ok? {
        TextStopsAtLineEnd(text, WhitespaceAt(text, sep.pos).pos);
      }
    }
  }

  /**
   * A message fails only when its summary does, with the summary's error:
   * the abort for a summary followed by something other than EOF or a
   * newline cannot happen. A parsed message consumes the whole text, so
   * the footer loop never meets a failing footer.
   */
  lemma MessageFootersReachEnd(text: string)
    ensures MessageAt(text).Ok? <==> SummaryAt(text, Origin).result.Ok?
    ensures MessageAt(text).Err? ==> MessageAt(text) == SummaryAt(text, Origin).result
    ensures MessageAt(text).Ok? ==> MessageAt(text).value.end.offset == |text|
  {
    var s := SummaryAt(text, Origin);
    SummaryEndsLine(text, Origin);
    if s.result.Ok? && s.pos.offset < |text| {
      var q := SkipNewlines(text, s.pos);
      var b := BodyAt(text, q);
      BodyLeavesFooters(text, q);
      var kids := if b.result.Ok? then [s.result.value, b.result.value] else [s.result.value];
      FooterLoopReaches(text, SkipNewlines(text, b.pos), kids);
    }
  }

  /** Parse fails exactly when the summary of the trimmed text does, and a parse spans the whole trimmed text. */
  lemma ParseConsumesAll(commitText: string)
    ensures var text := Trim(commitText);
      (Parse(commitText).Ok? <==> SummaryAt(text, Origin).result.Ok?)
      && (Parse(commitText).Ok? ==> Parse(commitText).value.start == Origin && Parse(commitText).value.end.offset == |text|)
  {
    MessageFootersReachEnd(Trim(commitText));
  }

  // ---------------------------------------------------------------------
  // trim.
  // ---------------------------------------------------------------------

  /**
   * Trim removes the longest trimmable prefix and suffix and nothing else:
   * the result is a contiguous part of the input that neither starts nor
   * ends with a trimmable character.
   */
  lemma TrimShape(s: string)
    ensures var t := Trim(s);
      var i := |s| - |TrimStart(s)|;
      i + |t| <= |s| && t == s[i..i + |t|]
      && (forall k :: 0 <= k < i ==> IsTrimmable(s[k]))
      && (forall k :: i + |t| <= k < |s| ==> IsTrimmable(s[k]))
      && (t == [] || (!IsTrimmable(t[0]) && !IsTrimmable(t[|t| - 1])))
  {
    TrimSlice(s);
    TrimSuffix(s);
    var u := TrimStart(s);
    var t := TrimEnd(u);
    if t != [] {
      assert t[0] == u[0];
    }
  }

  lemma TrimSlice(s: string)
    ensures var t := Trim(s);
      var i := |s| - |TrimStart(s)|;
      i + |t| <= |s| && t == s[i..i + |t|]
  {
    var u := TrimStart(s);
    var t := TrimEnd(u);
    var i := |s| - |u|;
    assert u == s[i..];
    assert t == u[..|t|];
  }

  lemma TrimSuffix(s: string)
    ensures var t := Trim(s);
      var i := |s| - |TrimStart(s)|;
      forall k :: i + |t| <= k < |s| ==> IsTrimmable(s[k])
  {
    var u := TrimStart(s);
    var t := TrimEnd(u);
    var i := |s| - |u|;
    forall k | i + |t| <= k < |s|
      ensures IsTrimmable(s[k])
    {
      assert u == s[i..];
      assert s[k] == u[k - i];
    }
  }

  /** Trimming twice is trimming once. */
  lemma TrimIdempotent(s: string)
    ensures Trim(Trim(s)) == Trim(s)
  {
    var t := Trim(s);
    TrimShape(s);
    if t != [] {
      TrimKeeps(t);
    }
  }

  // ---------------------------------------------------------------------
  // Positions: every leaf of a successful parse is the text between its
  // offsets, and its start and end carry the true line and column.
  // ---------------------------------------------------------------------

  /** Every node of the sequence satisfies Spans. */
  ghost predicate AllSpan(text: string, nodes: seq<Node>) {
    forall i :: 0 <= i < |nodes| ==> Spans(text, nodes[i])
  }

  /** The production leaves a Located cursor, and a node it yields satisfies Spans. */
  ghost predicate Positioned(text: string, r: Parsed) {
    Located(text, r.pos) && (r.result.Ok? ==> Spans(text, r.result.value))
  }

  lemma AllSpanAppend(text: string, nodes: seq<Node>, n: Node)
    requires AllSpan(text, nodes) && Spans(text, n)
    ensures AllSpan(text, nodes + [n])
  {
    assert forall i :: 0 <= i < |nodes| ==> (nodes + [n])[i] == nodes[i];
  }

  lemma AllSpanConcat(text: string, xs: seq<Node>, ys: seq<Node>)
    requires AllSpan(text, xs) && AllSpan(text, ys)
    ensures AllSpan(text, xs + ys)
  {
    assert forall i :: |xs| <= i < |xs + ys| ==> (xs + ys)[i] == ys[i - |xs|];
  }

  /** A run never crosses a line break, so its leaf spans its characters and ends Located. */
  lemma RunSpans(text: string, p: Pos, kind: Kind, run: Run)
    requires Located(text, p)
    ensures var n := RunAt(text, p, kind, run);
      Spans(text, n) && Located(text, n.end)
  {
    var e := RunEnd(text, p.offset, run);
    LocateSkip(text, p, e - p.offset);
  }

  lemma TypeSpans(text: string, p: Pos)
    requires Located(text, p)
    ensures Positioned(text, TypeAt(text, p))
  {
    RunSpans(text, p, TypeKind, TypeRun);
  }

  lemma ScopeSpans(text: string, p: Pos)
    requires Located(text, p)
    ensures Positioned(text, ScopeAt(text, p))
  {
    RunSpans(text, p, ScopeKind, ScopeRun);
  }

  lemma WhitespaceSpans(text: string, p: Pos)
    requires Located(text, p)
    ensures Positioned(text, WhitespaceAt(text, p))
  {
    RunSpans(text, p, WhitespaceKind, SpaceRun);
  }

  lemma TextSpans(text: string, p: Pos)
    requires Located(text, p)
    ensures Spans(text, TextAt(text, p)) && Located(text, TextAt(text, p).end)
  {
    RunSpans(text, p, TextKind, TextRun);
  }

  /** Consuming a peeked token that is not EOF keeps the cursor Located, and the token is the text it passes. */
  lemma StepSpans(text: string, p: Pos)
    requires Located(text, p) && p.offset < |text|
    ensures var t := PeekAt(text, p.offset);
      var q := Advance(p, t);
      Located(text, q) && q.offset == p.offset + |t| && t == text[p.offset..q.offset]
  {
    AdvanceLocated(text, p);
    PeekIsPrefix(text, p.offset);
  }

  lemma SeparatorSpans(text: string, p: Pos)
    requires Located(text, p)
    ensures Positioned(text, SeparatorAt(text, p))
  {
    var t := PeekAt(text, p.offset);
    if t == ":" || t == " " {
      StepSpans(text, p);
      var q := Advance(p, t);
      if t == " " && PeekAt(text, q.offset) == "#" {
        StepSpans(text, q);
        assert text[p.offset..q.offset + 1] == text[p.offset..q.offset] + text[q.offset..q.offset + 1];
      }
    }
  }

  lemma BreakingSpans(text: string, p: Pos)
    requires Located(text, p)
    ensures Positioned(text, BreakingChangeAt(text, p))
  {
    var t := PeekAt(text, p.offset);
    if t == "!" {
      StepSpans(text, p);
    } else if LiteralAt(text, p.offset, BreakingLiteral) {
      LiteralAtIff(text, p.offset, BreakingLiteral);
      forall j | p.offset <= j < p.offset + |BreakingLiteral|
        ensures text[j] != CR && text[j] != LF
      {
        assert text[j] == BreakingLiteral[j - p.offset];
      }
      LocateSkip(text, p, |BreakingLiteral|);
    }
  }

  lemma SummaryTailSpans(text: string, p: Pos, kids: seq<Node>, q: Pos, scoped: bool)
    requires p.offset <= q.offset
    requires Located(text, p) && Located(text, q) && AllSpan(text, kids)
    ensures Positioned(text, SummaryTail(text, p, kids, q, scoped))
  {
    var b := BreakingChangeAt(text, q);
    BreakingSpans(text, q);
    var kids1 := if b.result.Ok? then kids + [b.result.value] else kids;
    if b.result.Ok? {
      AllSpanAppend(text, kids, b.result.value);
    }
    var sep := SeparatorAt(text, b.pos);
    SeparatorSpans(text, b.pos);
    if sep.result.Ok? {
      AllSpanAppend(text, kids1, sep.result.value);
      SpacedTextSpans(text, kids1 + [sep.result.value], sep.pos);
    }
  }

  /** <whitespace>* <text> from r, pushed after `kids`. */
  lemma SpacedTextSpans(text: string, kids: seq<Node>, r: Pos)
    requires Located(text, r) && AllSpan(text, kids)
    ensures var ws := WhitespaceAt(text, r);
      var kids1 := if ws.result.Ok? then kids + [ws.result.value] else kids;
      var txt := TextAt(text, ws.pos);
      AllSpan(text, kids1 + [txt]) && Located(text, txt.end)
  {
    var ws := WhitespaceAt(text, r);
    WhitespaceSpans(text, r);
    var kids1 := if ws.result.Ok? then kids + [ws.result.value] else kids;
    if ws.result.Ok? {
      AllSpanAppend(text, kids, ws.result.value);
    }
    var txt := TextAt(text, ws.pos);
    TextSpans(text, ws.pos);
    AllSpanAppend(text, kids1, txt);
  }

  lemma SummarySpans(text: string, p: Pos)
    requires Located(text, p)
    ensures Positioned(text, SummaryAt(text, p))
  {
    var t := TypeAt(text, p);
    TypeSpans(text, p);
    if t.result.Ok? {
      if PeekAt(text, t.pos.offset) == "(" {
        StepSpans(text, t.pos);
        var s := ScopeAt(text, Advance(t.pos, "("));
        ScopeSpans(text, Advance(t.pos, "("));
        if s.result.Ok? && PeekAt(text, s.pos.offset) == ")" {
          StepSpans(text, s.pos);
          SummaryTailSpans(text, p, [t.result.value, s.result.value], Advance(s.pos, ")"), true);
        }
      } else {
        SummaryTailSpans(text, p, [t.result.value], t.pos, false);
      }
    }
  }

  lemma ContinuationSpans(text: string, p: Pos)
    requires Located(text, p)
    ensures Positioned(text, ContinuationAt(text, p))
  {
    var t := PeekAt(text, p.offset);
    if IsNewline(t) {
      StepSpans(text, p);
      var q := Advance(p, t);
      var ws := WhitespaceAt(text, q);
      SpacedTextSpans(text, [], q);
      if ws.result.Ok? {
        assert [] + [ws.result.value] + [TextAt(text, ws.pos)] == [ws.result.value, TextAt(text, ws.pos)];
      }
    }
  }

  lemma {:induction false} ContinuationsSpans(text: string, p: Pos, acc: seq<Node>)
    requires Located(text, p) && AllSpan(text, acc)
    ensures var r := ContinuationsFrom(text, p, acc);
      AllSpan(text, r.0) && Located(text, r.1)
    decreases |text| - p.offset
  {
    var c := ContinuationAt(text, p);
    ContinuationSpans(text, p);
    if c.result.Ok? {
      AllSpanAppend(text, acc, c.result.value);
      ContinuationsSpans(text, c.pos, acc + [c.result.value]);
    }
  }

  lemma ValueSpans(text: string, p: Pos)
    requires Located(text, p)
    ensures Spans(text, ValueAt(text, p)) && Located(text, ValueAt(text, p).end)
  {
    var t := TextAt(text, p);
    TextSpans(text, p);
    ContinuationsSpans(text, t.end, [t]);
  }

  lemma TokenTailSpans(text: string, p: Pos, kids: seq<Node>, q: Pos)
    requires p.offset < q.offset
    requires Located(text, q) && AllSpan(text, kids)
    ensures Positioned(text, TokenTail(text, p, kids, q))
  {
    var b := BreakingChangeAt(text, q);
    BreakingSpans(text, q);
    if b.result.Ok? {
      AllSpanAppend(text, kids, b.result.value);
    }
  }

  lemma TokenSpans(text: string, p: Pos)
    requires Located(text, p)
    ensures Positioned(text, TokenAt(text, p))
  {
    var b := BreakingChangeAt(text, p);
    BreakingSpans(text, p);
    if b.result.Err? {
      var t := TypeAt(text, p);
      TypeSpans(text, p);
      if t.result.Ok? {
        if PeekAt(text, t.pos.offset) == "(" {
          StepSpans(text, t.pos);
          var s := ScopeAt(text, Advance(t.pos, "("));
          ScopeSpans(text, Advance(t.pos, "("));
          if s.result.Ok? && PeekAt(text, s.pos.offset) == ")" {
            StepSpans(text, s.pos);
            TokenTailSpans(text, p, [t.result.value, s.result.value], Advance(s.pos, ")"));
          }
        } else {
          TokenTailSpans(text, p, [t.result.value], t.pos);
        }
      }
    }
  }

  lemma PastNewlineLocated(text: string, p: Pos)
    requires Located(text, p)
    ensures Located(text, PastNewline(text, p))
  {
    if p.offset < |text| {
      AdvanceLocated(text, p);
    }
  }

  lemma {:induction false} SkipNewlinesLocated(text: string, p: Pos)
    requires Located(text, p)
    ensures Located(text, SkipNewlines(text, p))
    decreases |text| - p.offset
  {
    var t := PeekAt(text, p.offset);
    if IsNewline(t) {
      AdvanceLocated(text, p);
      SkipNewlinesLocated(text, Advance(p, t));
    }
  }

  lemma FooterSpans(text: string, p: Pos)
    requires Located(text, p)
    ensures Positioned(text, FooterAt(text, p))
  {
    var tk := TokenAt(text, p);
    TokenSpans(text, p);
    if tk.result.Ok? {
      var sep := SeparatorAt(text, tk.pos);
      SeparatorSpans(text, tk.pos);
      if sep.result.Ok? {
        var ws := WhitespaceAt(text, sep.pos);
        WhitespaceSpans(text, sep.pos);
        var v := ValueAt(text, ws.pos);
        ValueSpans(text, ws.pos);
        var kids := [tk.result.value, sep.result.value];
        var kids1 := if ws.result.Ok? then kids + [ws.result.value] else kids;
        if ws.result.Ok? {
          AllSpanAppend(text, kids, ws.result.value);
        }
        AllSpanAppend(text, kids1, v);
        PastNewlineLocated(text, v.end);
      }
    }
  }

  lemma {:induction false} BodySpans(text: string, p: Pos)
    requires Located(text, p)
    ensures Positioned(text, BodyAt(text, p))
    decreases |text| - p.offset
  {
    if PreFooterAt(text, p).result.Err? {
      var t := TextAt(text, p);
      TextSpans(text, p);
      var nl := PeekAt(text, t.end.offset);
      if IsNewline(nl) {
        var q := Advance(t.end, nl);
        AdvanceLocated(text, t.end);
        BodySpans(text, q);
        var b := BodyAt(text, q);
        if b.result.Ok? {
          AllSpanConcat(text, [t], b.result.value.content.children);
        }
      }
    }
  }

  lemma {:induction false} FooterLoopSpans(text: string, p: Pos, acc: seq<Node>)
    requires Located(text, p) && AllSpan(text, acc)
    ensures var r := FooterLoop(text, p, acc);
      AllSpan(text, r.0) && Located(text, r.1)
    decreases |text| - p.offset
  {
    if p.offset < |text| {
      var f := FooterAt(text, p);
      FooterSpans(text, p);
      if f.result.Ok? {
        AllSpanAppend(text, acc, f.result.value);
        FooterLoopSpans(text, f.pos, acc + [f.result.value]);
      } else if f.pos.offset > p.offset {
        FooterLoopSpans(text, f.pos, acc);
      }
    }
  }

  /**
   * In a successful parse every leaf's value is the substring of the text
   * between its start and end offsets, and its start and end carry the
   * line and column of those offsets.
   */
  lemma MessageSpans(text: string)
    ensures MessageAt(text).Ok? ==> Spans(text, MessageAt(text).value) && Located(text, MessageAt(text).value.end)
  {
    SummarySpans(text, Origin);
    var s := SummaryAt(text, Origin);
    if s.result.Ok? && s.pos.offset < |text| && IsNewline(PeekAt(text, s.pos.offset)) {
      SkipNewlinesLocated(text, s.pos);
      MessageTailSpans(text, SkipNewlines(text, s.pos), s.result.value);
    }
  }

  /** The body and footers after a summary whose leaves span their text. */
  lemma MessageTailSpans(text: string, q: Pos, summary: Node)
    requires Located(text, q) && Spans(text, summary)
    ensures Spans(text, MessageTail(text, q, summary)) && Located(text, MessageTail(text, q, summary).end)
  {
    var b := BodyAt(text, q);
    BodySpans(text, q);
    var kids := if b.result.Ok? then [summary, b.result.value] else [summary];
    assert AllSpan(text, kids);
    SkipNewlinesLocated(text, b.pos);
    FooterLoopSpans(text, SkipNewlines(text, b.pos), kids);
  }

  /** Parse: the positions of every leaf address the trimmed commit text. */
  lemma ParseSpans(commitText: string)
    ensures Parse(commitText).Ok? ==> Spans(Trim(commitText), Parse(commitText).value)
  {
    MessageSpans(Trim(commitText));
  }

  // ---------------------------------------------------------------------
  // The leaf productions.
  // ---------------------------------------------------------------------

  /** A scanning loop takes exactly the maximal run: its value is the text up to where the source's break condition first holds, or EOF. */
  lemma RunStops(text: string, p: Pos, kind: Kind, run: Run)
    requires p.offset <= |text|
    ensures var n := RunAt(text, p, kind, run);
      var e := n.end.offset;
      n.content.value == text[p.offset..e]
      && (forall j :: p.offset <= j < e ==> !Stops(run, PeekAt(text, j)))
      && (e == |text| || Stops(run, PeekAt(text, e)))
  {
    var e := RunAt(text, p, kind, run).end.offset;
    forall j | p.offset <= j < e
      ensures !Stops(run, PeekAt(text, j))
    {
      StopsIff(text, j, run);
    }
    if e < |text| {
      StopsIff(text, e, run);
    }
  }

  /**
   * <type> succeeds exactly when the character at the cursor may begin a
   * type; it then holds the maximal run, which stops before parens,
   * whitespace, newline, '!' and ':'. A failure leaves the cursor at entry.
   */
  lemma TypeNonEmpty(text: string, p: Pos)
    requires p.offset <= |text|
    ensures var r := TypeAt(text, p);
      (r.result.Ok? <==> p.offset < |text| && !Stops(TypeRun, PeekAt(text, p.offset)))
      && (r.result.Ok? ==>
            r.result.value.content.value != "" && r.result.value.content.value == text[p.offset..r.pos.offset]
            && (r.pos.offset == |text| || Stops(TypeRun, PeekAt(text, r.pos.offset))))
      && (r.result.Err? ==> r.pos == p)
  {
    RunStops(text, p, TypeKind, TypeRun);
    if p.offset < |text| {
      StopsIff(text, p.offset, TypeRun);
    }
  }

  /** <scope> succeeds exactly when the cursor is not at a paren, a newline or EOF; it stops only before a paren or a newline. */
  lemma ScopeNonEmpty(text: string, p: Pos)
    requires p.offset <= |text|
    ensures var r := ScopeAt(text, p);
      (r.result.Ok? <==> p.offset < |text| && !Stops(ScopeRun, PeekAt(text, p.offset)))
      && (r.result.Ok? ==>
            r.result.value.content.value != "" && r.result.value.content.value == text[p.offset..r.pos.offset]
            && (r.pos.offset == |text| || Stops(ScopeRun, PeekAt(text, r.pos.offset))))
      && (r.result.Err? ==> r.pos == p)
  {
    RunStops(text, p, ScopeKind, ScopeRun);
    if p.offset < |text| {
      StopsIff(text, p.offset, ScopeRun);
    }
  }

  /** <text> always succeeds, never holds CR or LF, and stops only at a newline or EOF. */
  lemma TextToLineEnd(text: string, p: Pos)
    requires p.offset <= |text|
    ensures var n := TextAt(text, p);
      var v := n.content.value;
      v == text[p.offset..n.end.offset]
      && (forall i :: 0 <= i < |v| ==> v[i] != CR && v[i] != LF)
      && (n.end.offset == |text| || IsNewline(PeekAt(text, n.end.offset)))
  {
    RunStops(text, p, TextKind, TextRun);
  }

  /** <separator> yields exactly ":" or " #", and succeeds exactly when one of them is at the cursor; otherwise the cursor is back at entry. */
  lemma SeparatorValues(text: string, p: Pos)
    requires p.offset <= |text|
    ensures var r := SeparatorAt(text, p);
      (r.result.Ok? ==>
        r.result.value.content.value in {":", " #"} && r.result.value.content.value == text[p.offset..r.pos.offset])
      && (r.result.Ok? <==>
            (p.offset < |text| && text[p.offset] == ':')
            || (p.offset + 1 < |text| && text[p.offset] == ' ' && text[p.offset + 1] == '#'))
      && (r.result.Err? ==> r.pos == p)
  {
    if p.offset < |text| {
      PeekClassifies(text, p.offset);
      if text[p.offset] == ' ' && p.offset + 1 < |text| {
        PeekClassifies(text, p.offset + 1);
      }
    }
  }

  /**
   * <breaking-change> yields exactly "!" or "BREAKING CHANGE" and succeeds
   * exactly when one of them is at the cursor; the hyphenated spelling is
   * not one of them. A failure leaves the cursor unmoved.
   */
  lemma BreakingChangeValues(text: string, p: Pos)
    requires p.offset <= |text|
    ensures var r := BreakingChangeAt(text, p);
      (r.result.Ok? ==>
        r.result.value.content.value in {"!", BreakingLiteral} && r.result.value.content.value == text[p.offset..r.pos.offset])
      && (r.result.Ok? <==>
            (p.offset < |text| && text[p.offset] == '!')
            || (p.offset + |BreakingLiteral| <= |text| && text[p.offset..p.offset + |BreakingLiteral|] == BreakingLiteral))
      && (r.result.Err? ==> r.pos == p)
  {
    LiteralAtIff(text, p.offset, BreakingLiteral);
    if p.offset < |text| {
      PeekClassifies(text, p.offset);
      PeekIsPrefix(text, p.offset);
    }
  }

  /** "BREAKING-CHANGE" is not a breaking-change marker: from its start, <breaking-change> fails. */
  lemma HyphenatedIsNotBreaking(text: string, p: Pos)
    requires p.offset + 15 <= |text| && text[p.offset..p.offset + 15] == "BREAKING-CHANGE"
    ensures BreakingChangeAt(text, p).result.Err?
  {
    BreakingChangeValues(text, p);
    assert text[p.offset + 8] == '-';
  }

  // ---------------------------------------------------------------------
  // Summary errors.
  // ---------------------------------------------------------------------

  /**
   * A summary whose type parses but is followed by neither a scope, a
   * marker nor a separator fails at the cursor after the type, with the
   * expected tokens "(", "!" and ":" and the cursor back at the summary's
   * start.
   */
  lemma SummaryMissingSeparator(text: string, p: Pos)
    requires p.offset <= |text|
    requires TypeAt(text, p).result.Ok?
    requires var q := TypeAt(text, p).pos;
      PeekAt(text, q.offset) != "(" && BreakingChangeAt(text, q).result.Err? && SeparatorAt(text, q).result.Err?
    ensures SummaryAt(text, p) == Parsed(Err(Failure(TypeAt(text, p).pos, SummaryKind, Some(["(", "!", ":"]))), p)
    ensures ValidTokens(SummaryKind, Some(["(", "!", ":"])) == "(, !, :"
  {
    var q := TypeAt(text, p).pos;
    assert SummaryAt(text, p) == SummaryTail(text, p, [TypeAt(text, p).result.value], q, false);
    assert Truthy(["(", "!", ":"]) == ["(", "!", ":"] by {
      assert Truthy([":"]) == [":"];
      assert Truthy(["!", ":"]) == ["!", ":"];
    }
  }

  /**
   * In general, a summary that fails for want of a separator lists "(" only
   * when no scope was parsed and "!" only when no marker was, then ":".
   */
  lemma SummarySeparatorExpected(marked: bool, scoped: bool)
    ensures ValidTokens(SummaryKind, Some([if scoped then "" else "(", if marked then "" else "!", ":"]))
      == (if scoped then "" else "(, ") + (if marked then "" else "!, ") + ":"
  {
    var xs := [if scoped then "" else "(", if marked then "" else "!", ":"];
    assert xs[1..][1..] == [":"];
    assert Truthy([":"]) == [":"];
    var ys := Truthy(xs[1..]);
    assert ys == if marked then [":"] else ["!", ":"];
    assert Join([":"], ", ") == ":";
    assert Join(["!", ":"], ", ") == "!, :" by {
      assert ["!", ":"][1..] == [":"];
    }
    if !scoped {
      assert Truthy(xs) == ["("] + ys;
      assert (["("] + ys)[1..] == ys;
    }
  }

  /**
   * A summary whose scope is opened but not closed fails at the cursor after
   * the scope, expecting ")", with the cursor back at the summary's start.
   */
  lemma SummaryUnclosedScope(text: string, p: Pos)
    requires p.offset <= |text|
    requires TypeAt(text, p).result.Ok?
    requires var q := TypeAt(text, p).pos;
      PeekAt(text, q.offset) == "("
      && var s := ScopeAt(text, Advance(q, "("));
      s.result.Ok? && PeekAt(text, s.pos.offset) != ")"
    ensures var s := ScopeAt(text, Advance(TypeAt(text, p).pos, "("));
      SummaryAt(text, p) == Parsed(Err(Failure(s.pos, SummaryKind, Some([")"]))), p)
    ensures ValidTokens(SummaryKind, Some([")"])) == ")"
  {
  }

  /** Neither "!" nor "BREAKING CHANGE" starts at a character other than '!' and 'B'. */
  lemma NotBreaking(text: string, p: Pos)
    requires p.offset < |text| && text[p.offset] != '!' && text[p.offset] != 'B'
    ensures BreakingChangeAt(text, p) == Parsed(Err(Failure(p, BreakingChangeKind, Some([BreakingLiteral]))), p)
  {
    PeekClassifies(text, p.offset);
  }

  /** A space followed by something other than '#' is no separator, and the cursor stays. */
  lemma NotSeparator(text: string, p: Pos)
    requires p.offset + 1 < |text| && text[p.offset] == ' ' && text[p.offset + 1] != '#'
    ensures SeparatorAt(text, p).result.Err? && SeparatorAt(text, p).pos == p
  {
    PeekClassifies(text, p.offset);
    PeekClassifies(text, p.offset + 1);
  }

  /** A summary whose type is followed by a closed scope goes on after the ")". */
  lemma ScopedSummary(text: string, p: Pos)
    requires p.offset <= |text| && TypeAt(text, p).result.Ok?
    requires PeekAt(text, TypeAt(text, p).pos.offset) == "("
    requires var s := ScopeAt(text, Advance(TypeAt(text, p).pos, "("));
      s.result.Ok? && PeekAt(text, s.pos.offset) == ")"
    ensures var t := TypeAt(text, p);
      var s := ScopeAt(text, Advance(t.pos, "("));
      SummaryAt(text, p) == SummaryTail(text, p, [t.result.value, s.result.value], Advance(s.pos, ")"), true)
  {
  }

  /** After the type and scope, a missing separator fails at the cursor after the optional marker. */
  lemma SummaryTailNoSeparator(text: string, p: Pos, kids: seq<Node>, q: Pos, scoped: bool)
    requires p.offset <= q.offset <= |text|
    requires SeparatorAt(text, BreakingChangeAt(text, q).pos).result.Err?
    ensures var b := BreakingChangeAt(text, q);
      SummaryTail(text, p, kids, q, scoped)
      == Parsed(Err(Failure(b.pos, SummaryKind, Some([if scoped then "" else "(", if b.result.Ok? then "" else "!", ":"]))), p)
  {
  }

  /** A text that neither starts nor ends with a trimmable character is its own trim. */
  lemma TrimKeeps(s: string)
    requires s != [] && !IsTrimmable(s[0]) && !IsTrimmable(s[|s| - 1])
    ensures Trim(s) == s
  {
  }

  /** The type "feat" at the start of a text, as every example below begins. */
  lemma FeatType(text: string)
    requires |text| > 4 && text[0] == 'f' && text[1] == 'e' && text[2] == 'a' && text[3] == 't'
    requires !Continues(TypeRun, text[4])
    ensures TypeAt(text, Origin) == Parsed(Ok(Node(TypeKind, Leaf(text[..4]), Origin, Pos(1, 5, 4))), Pos(1, 5, 4))
  {
    RunEndUnique(text, 0, TypeRun, 4);
  }

  /** A scope run over text[i..e], on line 1. */
  lemma ScopeRunOn(text: string, i: nat, e: nat)
    requires 0 < i < e <= |text|
    requires forall k :: i <= k < e ==> Continues(ScopeRun, text[k])
    requires e == |text| || !Continues(ScopeRun, text[e])
    ensures ScopeAt(text, Pos(1, i + 1, i))
      == Parsed(Ok(Node(ScopeKind, Leaf(text[i..e]), Pos(1, i + 1, i), Pos(1, e + 1, e))), Pos(1, e + 1, e))
  {
    RunEndUnique(text, i, ScopeRun, e);
  }

  /** Any summary that starts "feat a" fails at the space after "feat", line 1, column 5, expecting "(", "!" or ":". */
  lemma MissingSeparatorExample(text: string)
    requires |text| > 5
    requires text[0] == 'f' && text[1] == 'e' && text[2] == 'a' && text[3] == 't' && text[4] == ' ' && text[5] == 'a'
    ensures SummaryAt(text, Origin) == Parsed(Err(Failure(Pos(1, 5, 4), SummaryKind, Some(["(", "!", ":"]))), Origin)
  {
    FeatType(text);
    NotSeparator(text, Pos(1, 5, 4));
    NotBreaking(text, Pos(1, 5, 4));
    SummaryMissingSeparator(text, Origin);
  }

  /** The abort message of that failure: the offending token is the space at offset 4. */
  lemma MissingSeparatorMessage(text: string)
    requires |text| > 4 && text[4] == ' '
    ensures AbortMessage(text, Failure(Pos(1, 5, 4), SummaryKind, Some(["(", "!", ":"])))
      == "unexpected token ' ' at 1:5, valid tokens [(, !, :]"
  {
    SummarySeparatorExpected(false, false);
    assert ValidTokens(SummaryKind, Some(["(", "!", ":"])) == "(, !, :";
    assert "'" + PeekAt(text, 4) + "'" == "' '";
    assert NatToString(1) + ":" + NatToString(5) == "1:5";
    MissingSeparatorWords();
  }

  lemma MissingSeparatorWords()
    ensures Unexpected("' '", "1:5", "(, !, :") == "unexpected token ' ' at 1:5, valid tokens [(, !, :]"
  {
  }

  /**
   * message throws "unexpected token ' ' at 1:5, valid tokens [(, !, :]" for
   * "feat add support for scopes", and for every commit text that starts
   * "feat a" and does not end in whitespace.
   */
  lemma MissingSeparatorParse(text: string)
    requires |text| > 5 && !IsTrimmable(text[|text| - 1])
    requires text[0] == 'f' && text[1] == 'e' && text[2] == 'a' && text[3] == 't' && text[4] == ' ' && text[5] == 'a'
    ensures Parse(text) == Err("unexpected token ' ' at 1:5, valid tokens [(, !, :]")
  {
    TrimKeeps(text);
    MissingSeparatorExample(text);
    MissingSeparatorMessage(text);
  }

  /** Any summary that starts "feat( foo ) a" fails at the space after ")", expecting "!" or ":". */
  lemma ScopedMissingSeparatorExample(text: string)
    requires |text| > 12
    requires text[0] == 'f' && text[1] == 'e' && text[2] == 'a' && text[3] == 't' && text[4] == '('
    requires text[5] == ' ' && text[6] == 'f' && text[7] == 'o' && text[8] == 'o' && text[9] == ' '
    requires text[10] == ')' && text[11] == ' ' && text[12] == 'a'
    ensures SummaryAt(text, Origin) == Parsed(Err(Failure(Pos(1, 12, 11), SummaryKind, Some(["", "!", ":"]))), Origin)
  {
    var kids := FeatScope(text, 10);
    var q := Pos(1, 12, 11);
    NotBreaking(text, q);
    NotSeparator(text, q);
    SummaryTailNoSeparator(text, Origin, kids, q, true);
  }

  /** A summary "feat(" whose scope closes at offset e goes on after the ")" with the type and scope as children. */
  lemma FeatScope(text: string, e: nat) returns (kids: seq<Node>)
    requires 5 < e < |text|
    requires text[0] == 'f' && text[1] == 'e' && text[2] == 'a' && text[3] == 't' && text[4] == '('
    requires forall k :: 5 <= k < e ==> Continues(ScopeRun, text[k])
    requires text[e] == ')'
    ensures SummaryAt(text, Origin) == SummaryTail(text, Origin, kids, Pos(1, e + 2, e + 1), true)
  {
    FeatType(text);
    ScopeRunOn(text, 5, e);
    ScopedSummary(text, Origin);
    kids := [TypeAt(text, Origin).result.value, ScopeAt(text, Pos(1, 6, 5)).result.value];
  }

  /** The abort message when "feat( foo ) add support for scopes" fails there, at the space at offset 11. */
  lemma ScopedMissingSeparatorMessage(text: string)
    requires |text| > 11 && text[11] == ' '
    ensures AbortMessage(text, Failure(Pos(1, 12, 11), SummaryKind, Some(["", "!", ":"])))
      == "unexpected token ' ' at 1:12, valid tokens [!, :]"
  {
    SummarySeparatorExpected(false, true);
    assert ValidTokens(SummaryKind, Some(["", "!", ":"])) == "!, :";
    assert "'" + PeekAt(text, 11) + "'" == "' '";
    assert NatToString(12) == "12";
    assert NatToString(1) + ":" + NatToString(12) == "1:12";
    ScopedMissingSeparatorWords();
  }

  lemma ScopedMissingSeparatorWords()
    ensures Unexpected("' '", "1:12", "!, :") == "unexpected token ' ' at 1:12, valid tokens [!, :]"
  {
  }

  /**
   * message throws "unexpected token ' ' at 1:12, valid tokens [!, :]" for
   * "feat( foo ) add support for scopes", and for every commit text that
   * starts "feat( foo ) a" and does not end in whitespace.
   */
  lemma ScopedMissingSeparatorParse(text: string)
    requires |text| > 12 && !IsTrimmable(text[|text| - 1])
    requires text[0] == 'f' && text[1] == 'e' && text[2] == 'a' && text[3] == 't' && text[4] == '('
    requires text[5] == ' ' && text[6] == 'f' && text[7] == 'o' && text[8] == 'o' && text[9] == ' '
    requires text[10] == ')' && text[11] == ' ' && text[12] == 'a'
    ensures Parse(text) == Err("unexpected token ' ' at 1:12, valid tokens [!, :]")
  {
    TrimKeeps(text);
    ScopedMissingSeparatorExample(text);
    ScopedMissingSeparatorMessage(text);
  }

  /** Any summary that starts "feat(bar)! a" fails at the space after "!", expecting only ":". */
  lemma MarkedMissingSeparatorExample(text: string)
    requires |text| > 11
    requires text[0] == 'f' && text[1] == 'e' && text[2] == 'a' && text[3] == 't' && text[4] == '('
    requires text[5] == 'b' && text[6] == 'a' && text[7] == 'r' && text[8] == ')' && text[9] == '!'
    requires text[10] == ' ' && text[11] == 'a'
    ensures SummaryAt(text, Origin) == Parsed(Err(Failure(Pos(1, 11, 10), SummaryKind, Some(["", "", ":"]))), Origin)
  {
    var kids := FeatScope(text, 8);
    var q := Pos(1, 10, 9);
    PeekClassifies(text, 9);
    assert BreakingChangeAt(text, q).pos == Pos(1, 11, 10);
    NotSeparator(text, Pos(1, 11, 10));
    SummaryTailNoSeparator(text, Origin, kids, q, true);
  }

  /** The abort message when "feat(bar)! add support for breaking change" fails there, at the space at offset 10. */
  lemma MarkedMissingSeparatorMessage(text: string)
    requires |text| > 10 && text[10] == ' '
    ensures AbortMessage(text, Failure(Pos(1, 11, 10), SummaryKind, Some(["", "", ":"])))
      == "unexpected token ' ' at 1:11, valid tokens [:]"
  {
    SummarySeparatorExpected(true, true);
    assert ValidTokens(SummaryKind, Some(["", "", ":"])) == ":";
    assert "'" + PeekAt(text, 10) + "'" == "' '";
    assert NatToString(11) == "11";
    assert NatToString(1) + ":" + NatToString(11) == "1:11";
    MarkedMissingSeparatorWords();
  }

  lemma MarkedMissingSeparatorWords()
    ensures Unexpected("' '", "1:11", ":") == "unexpected token ' ' at 1:11, valid tokens [:]"
  {
  }

  /**
   * message throws "unexpected token ' ' at 1:11, valid tokens [:]" for
   * "feat(bar)! add support for breaking change", and for every commit text
   * that starts "feat(bar)! a" and does not end in whitespace.
   */
  lemma MarkedMissingSeparatorParse(text: string)
    requires |text| > 11 && !IsTrimmable(text[|text| - 1])
    requires text[0] == 'f' && text[1] == 'e' && text[2] == 'a' && text[3] == 't' && text[4] == '('
    requires text[5] == 'b' && text[6] == 'a' && text[7] == 'r' && text[8] == ')' && text[9] == '!'
    requires text[10] == ' ' && text[11] == 'a'
    ensures Parse(text) == Err("unexpected token ' ' at 1:11, valid tokens [:]")
  {
    TrimKeeps(text);
    MarkedMissingSeparatorExample(text);
    MarkedMissingSeparatorMessage(text);
  }

  /** A 32-character summary "feat(..." whose scope never closes fails at EOF, line 1, column 33, expecting ")". */
  lemma UnclosedScopeExample(text: string)
    requires |text| == 32
    requires text[0] == 'f' && text[1] == 'e' && text[2] == 'a' && text[3] == 't' && text[4] == '('
    requires forall k :: 5 <= k < 32 ==> Continues(ScopeRun, text[k])
    ensures SummaryAt(text, Origin) == Parsed(Err(Failure(Pos(1, 33, 32), SummaryKind, Some([")"]))), Origin)
  {
    FeatType(text);
    ScopeRunOn(text, 5, 32);
    SummaryUnclosedScope(text, Origin);
  }

  /** The abort message of that failure, at the EOF of the 32-character text. */
  lemma UnclosedScopeMessage(text: string)
    requires |text| == 32
    ensures AbortMessage(text, Failure(Pos(1, 33, 32), SummaryKind, Some([")"])))
      == "unexpected token EOF at 1:33, valid tokens [)]"
  {
    assert NatToString(33) == "33";
    assert NatToString(1) + ":" + NatToString(33) == "1:33";
    assert ValidTokens(SummaryKind, Some([")"])) == ")";
    UnclosedScopeWords();
  }

  lemma UnclosedScopeWords()
    ensures Unexpected("EOF", "1:33", ")") == "unexpected token EOF at 1:33, valid tokens [)]"
  {
  }

  /**
   * message throws "unexpected token EOF at 1:33, valid tokens [)]" for
   * "feat(foo: add support for scopes", and for every 32-character commit
   * text "feat(" whose scope runs to its end.
   */
  lemma UnclosedScopeParse(text: string)
    requires |text| == 32 && !IsTrimmable(text[31])
    requires text[0] == 'f' && text[1] == 'e' && text[2] == 'a' && text[3] == 't' && text[4] == '('
    requires forall k :: 5 <= k < 32 ==> Continues(ScopeRun, text[k])
    ensures Parse(text) == Err("unexpected token EOF at 1:33, valid tokens [)]")
  {
    TrimKeeps(text);
    UnclosedScopeExample(text);
    UnclosedScopeMessage(text);
  }

  /**
   * A continuation consumes the newline before it finds no whitespace: it
   * fails with the cursor past the newline, not at its entry.
   */
  lemma ContinuationEatsNewline(text: string, p: Pos)
    requires p.offset < |text| && IsNewline(PeekAt(text, p.offset))
    requires var q := Advance(p, PeekAt(text, p.offset));
      q.offset == |text| || !IsWhitespaceChar(text[q.offset])
    ensures var q := Advance(p, PeekAt(text, p.offset));
      ContinuationAt(text, p) == Parsed(Err(Failure(q, WhitespaceKind, Some([" "]))), q)
      && q.offset > p.offset
  {
    PeekIsPrefix(text, p.offset);
    var q := Advance(p, PeekAt(text, p.offset));
    RunEndUnique(text, q.offset, SpaceRun, q.offset);
  }

  /**
   * A footer whose token parses but whose separator does not returns the
   * separator's error with the cursor left after the token: it does not go
   * back to its own start.
   */
  lemma FooterKeepsTokenCursor(text: string, p: Pos)
    requires p.offset <= |text| && TokenAt(text, p).result.Ok?
    requires SeparatorAt(text, TokenAt(text, p).pos).result.Err?
    ensures var tk := TokenAt(text, p);
      FooterAt(text, p) == Parsed(SeparatorAt(text, tk.pos).result, tk.pos)
      && FooterAt(text, p).pos.offset > p.offset
  {
  }
}
