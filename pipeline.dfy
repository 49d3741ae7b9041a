/**
 * The two halves of the package together: the tree message(text) parses,
 * handed to toConventionalChangelogFormat. The record reads no positions
 * (ChangelogProofs.ChangelogErase), so what a parse contributes is the
 * tree's shape and values, which the lemmas here give for a summary line,
 * a summary with a body of two lines, and a summary with one footer; the
 * examples of test/utils.js follow from them.
 */
module Pipeline {
  import opened Wrappers
  import opened TypeChecks
  import opened Syntax
  import opened Scanning
  import opened Parser
  import opened ParserProofs
  import opened Changelog
  import opened ChangelogProofs

  // ---------------------------------------------------------------------
  // Pieces of a line.
  // ---------------------------------------------------------------------

  /** Every character of s continues the run. */
  predicate All(run: Run, s: string)
    decreases |s|
  {
    s == [] || (Continues(run, s[0]) && All(run, s[1..]))
  }

  lemma {:induction false} AllIndex(run: Run, s: string)
    ensures All(run, s) <==> forall k :: 0 <= k < |s| ==> Continues(run, s[k])
    decreases |s|
  {
    if s != [] {
      AllIndex(run, s[1..]);
      assert forall k :: 1 <= k < |s| ==> s[1..][k - 1] == s[k];
    }
  }

  /** A string without CR and LF is one line of text. */
  lemma NoLineBreak(s: string)
    requires LF !in s && CR !in s
    ensures All(TextRun, s)
  {
    AllIndex(TextRun, s);
  }

  /** The characters from i up to e continue the run, and the run stops at e. */
  predicate RunTo(text: string, i: nat, e: nat, run: Run) {
    i <= e <= |text| && All(run, text[i..e]) && (e == |text| || !Continues(run, text[e]))
  }

  lemma EraseOne(n: Node, m: Node)
    requires Erase(n) == m
    ensures EraseAll([n]) == [m]
  {
  }

  lemma EraseTwo(m: Node, n: Node)
    ensures EraseAll([m, n]) == [Erase(m), Erase(n)]
  {
  }

  lemma EraseThree(a: Node, b: Node, c: Node)
    ensures EraseAll([a, b, c]) == [Erase(a), Erase(b), Erase(c)]
  {
  }

  lemma EraseAllConcat(xs: seq<Node>, ys: seq<Node>)
    ensures EraseAll(xs + ys) == EraseAll(xs) + EraseAll(ys)
  {
  }

  /** A scanning loop over such a run builds the leaf of the run, ending at e. */
  lemma RunLeaf(text: string, p: Pos, e: nat, kind: Kind, run: Run)
    requires RunTo(text, p.offset, e, run)
    ensures var n := RunAt(text, p, kind, run);
      n.end.offset == e && Erase(n) == Lf(kind, text[p.offset..e])
  {
    AllIndex(run, text[p.offset..e]);
    forall k | p.offset <= k < e
      ensures Continues(run, text[k])
    {
      assert text[p.offset..e][k - p.offset] == text[k];
    }
    RunEndUnique(text, p.offset, run, e);
  }

  lemma TypeTo(text: string, p: Pos, e: nat)
    requires p.offset < e && RunTo(text, p.offset, e, TypeRun)
    ensures var r := TypeAt(text, p);
      r.result.Ok? && r.pos.offset == e && Erase(r.result.value) == Lf(TypeKind, text[p.offset..e])
  {
    RunLeaf(text, p, e, TypeKind, TypeRun);
  }

  lemma ScopeTo(text: string, p: Pos, e: nat)
    requires p.offset < e && RunTo(text, p.offset, e, ScopeRun)
    ensures var r := ScopeAt(text, p);
      r.result.Ok? && r.pos.offset == e && Erase(r.result.value) == Lf(ScopeKind, text[p.offset..e])
  {
    RunLeaf(text, p, e, ScopeKind, ScopeRun);
  }

  lemma TextTo(text: string, p: Pos, e: nat)
    requires RunTo(text, p.offset, e, TextRun)
    ensures var n := TextAt(text, p);
      n.end.offset == e && Erase(n) == Lf(TextKind, text[p.offset..e])
  {
    RunLeaf(text, p, e, TextKind, TextRun);
  }

  /** One space followed by something else than whitespace is a whitespace node " ". */
  lemma OneSpace(text: string, p: Pos)
    requires p.offset + 1 < |text| && text[p.offset] == ' ' && !IsWhitespaceChar(text[p.offset + 1])
    ensures var r := WhitespaceAt(text, p);
      r.result.Ok? && r.pos.offset == p.offset + 1 && Erase(r.result.value) == Lf(WhitespaceKind, " ")
  {
    RunLeaf(text, p, p.offset + 1, WhitespaceKind, SpaceRun);
  }

  // ---------------------------------------------------------------------
  // The summary.
  // ---------------------------------------------------------------------

  /** After the type and scope, at q: an optional '!', then ':', one space and the subject, up to e. */
  ghost predicate TailShape(text: string, q: nat, marked: bool, e: nat) {
    var c := q + (if marked then 1 else 0);
    c + 2 < e <= |text| && (marked ==> text[q] == '!')
    && text[c] == ':' && text[c + 1] == ' ' && !IsWhitespaceChar(text[c + 2]) && RunTo(text, c + 2, e, TextRun)
  }

  lemma SummaryTailTo(text: string, p: Pos, kids: seq<Node>, q: Pos, t: string, scope: Option<string>, scoped: bool, marked: bool, e: nat)
    returns (r: Parsed)
    requires p.offset <= q.offset && TailShape(text, q.offset, marked, e) && scoped == scope.Some?
    requires EraseAll(kids) == if scope.Some? then [Lf(TypeKind, t), Lf(ScopeKind, scope.value)] else [Lf(TypeKind, t)]
    ensures SummaryTail(text, p, kids, q, scoped) == r
    ensures var c := q.offset + (if marked then 1 else 0);
      r.result.Ok? && r.pos.offset == e && Erase(r.result.value) == SummaryNode(t, scope, marked, text[c + 2..e])
  {
    var c := q.offset + (if marked then 1 else 0);
    var b, sep, ws, txt := TailPieces(text, q, marked, e);
    r := TailUnfold(text, p, kids, q, scoped, b, sep, ws, txt);
    var kids1 := if marked then kids + [b.result.value] else kids;
    TailErased(r.result.value, kids, kids1, b.result, t, scope, marked, sep.result.value, ws.result.value, txt, text[c + 2..e]);
  }

  /** The pieces of a summary's rest laid out as TailShape says: the optional '!', ':', ' ' and the subject. */
  lemma TailPieces(text: string, q: Pos, marked: bool, e: nat) returns (b: Parsed, sep: Parsed, ws: Parsed, txt: Node)
    requires TailShape(text, q.offset, marked, e)
    ensures b == BreakingChangeAt(text, q) && b.pos.offset + 2 <= |text|
    ensures b.result.Ok? == marked && (marked ==> Erase(b.result.value) == Lf(BreakingChangeKind, "!"))
    ensures sep == SeparatorAt(text, b.pos) && sep.result.Ok? && Erase(sep.result.value) == Lf(SeparatorKind, ":")
    ensures sep.pos.offset <= |text| && ws == WhitespaceAt(text, sep.pos) && ws.result.Ok?
    ensures Erase(ws.result.value) == Lf(WhitespaceKind, " ")
    ensures ws.pos.offset <= |text| && txt == TextAt(text, ws.pos) && txt.end.offset == e
    ensures Erase(txt) == Lf(TextKind, text[q.offset + (if marked then 1 else 0) + 2..e])
  {
    MarkerAt(text, q, marked);
    b := BreakingChangeAt(text, q);
    SeparatorThenText(text, b.pos, e);
    sep := SeparatorAt(text, b.pos);
    ws := WhitespaceAt(text, sep.pos);
    txt := TextAt(text, ws.pos);
  }

  /** The rest of a summary, given what its pieces parse to. */
  lemma TailUnfold(text: string, p: Pos, kids: seq<Node>, q: Pos, scoped: bool, b: Parsed, sep: Parsed, ws: Parsed, txt: Node)
    returns (r: Parsed)
    requires p.offset <= q.offset <= |text| && b == BreakingChangeAt(text, q)
    requires b.pos.offset <= |text| && sep == SeparatorAt(text, b.pos) && sep.result.Ok?
    requires sep.pos.offset <= |text| && ws == WhitespaceAt(text, sep.pos) && ws.result.Ok?
    requires ws.pos.offset <= |text| && txt == TextAt(text, ws.pos)
    ensures SummaryTail(text, p, kids, q, scoped) == r
    ensures r.result.Ok? && r.pos == txt.end && r.result.value.kind == SummaryKind
    ensures r.result.value.content
      == Children((if b.result.Ok? then kids + [b.result.value] else kids) + [sep.result.value, ws.result.value, txt])
  {
    r := SummaryTail(text, p, kids, q, scoped);
    var kids1 := if b.result.Ok? then kids + [b.result.value] else kids;
    assert kids1 + [sep.result.value] + [ws.result.value] + [txt] == kids1 + [sep.result.value, ws.result.value, txt];
  }

  /** A summary node of the type and scope, the optional '!', ':', ' ' and the subject x erases to SummaryNode. */
  lemma TailErased(n: Node, kids: seq<Node>, kids1: seq<Node>, b: Result<Node, Failure>, t: string, scope: Option<string>, marked: bool,
                   sep: Node, ws: Node, txt: Node, x: string)
    requires EraseAll(kids) == if scope.Some? then [Lf(TypeKind, t), Lf(ScopeKind, scope.value)] else [Lf(TypeKind, t)]
    requires b.Ok? == marked && kids1 == (if marked then kids + [b.value] else kids)
    requires marked ==> Erase(b.value) == Lf(BreakingChangeKind, "!")
    requires Erase(sep) == Lf(SeparatorKind, ":") && Erase(ws) == Lf(WhitespaceKind, " ") && Erase(txt) == Lf(TextKind, x)
    requires n.kind == SummaryKind && n.content == Children(kids1 + [sep, ws, txt])
    ensures Erase(n) == SummaryNode(t, scope, marked, x)
  {
    EraseAllConcat(kids1, [sep, ws, txt]);
    EraseThree(sep, ws, txt);
    if marked {
      EraseAllConcat(kids, [b.value]);
    }
    SummaryErase(n, t, scope, marked, x);
  }

  /** The optional '!' at q: a breaking-change node when marked, no move otherwise (a ':' is there). */
  lemma MarkerAt(text: string, q: Pos, marked: bool)
    requires q.offset < |text| && (if marked then text[q.offset] == '!' else text[q.offset] == ':')
    ensures var b := BreakingChangeAt(text, q);
      b.result.Ok? == marked && b.pos.offset == q.offset + (if marked then 1 else 0)
      && (marked ==> Erase(b.result.value) == Lf(BreakingChangeKind, "!"))
  {
    if marked {
      PeekClassifies(text, q.offset);
    } else {
      NotBreaking(text, q);
    }
  }

  /** ": " and a subject up to e, from r: a separator, one whitespace and the text. */
  lemma SeparatorThenText(text: string, r: Pos, e: nat)
    requires r.offset + 2 < e <= |text| && text[r.offset] == ':' && text[r.offset + 1] == ' '
    requires !IsWhitespaceChar(text[r.offset + 2]) && RunTo(text, r.offset + 2, e, TextRun)
    ensures var sep := SeparatorAt(text, r);
      sep.result.Ok? && sep.pos.offset == r.offset + 1 && Erase(sep.result.value) == Lf(SeparatorKind, ":")
      && var ws := WhitespaceAt(text, sep.pos);
      ws.result.Ok? && ws.pos.offset == r.offset + 2 && Erase(ws.result.value) == Lf(WhitespaceKind, " ")
      && var txt := TextAt(text, ws.pos);
      txt.end.offset == e && Erase(txt) == Lf(TextKind, text[r.offset + 2..e])
  {
    PeekClassifies(text, r.offset);
    var sep := SeparatorAt(text, r);
    OneSpace(text, sep.pos);
    TextTo(text, WhitespaceAt(text, sep.pos).pos, e);
  }

  /**
   * A summary `type[!]: subject` at the start of the text, the type ending
   * at te and the subject at e, is the summary node of those values and
   * ends at e.
   */
  lemma BareSummaryTo(text: string, p: Pos, te: nat, marked: bool, e: nat)
    requires p.offset == 0 && 0 < te < |text| && RunTo(text, 0, te, TypeRun) && text[te] != '('
    requires TailShape(text, te, marked, e)
    ensures var s := SummaryAt(text, p);
      var c := te + (if marked then 1 else 0);
      s.result.Ok? && s.pos.offset == e && Erase(s.result.value) == SummaryNode(text[..te], None, marked, text[c + 2..e])
  {
    var kids, q := BareHead(text, p, te);
    var c := te + (if marked then 1 else 0);
    var n := SummaryNode(text[..te], None, marked, text[c + 2..e]);
    var r := SummaryTailTo(text, p, kids, q, text[..te], None, false, marked, e);
    SummaryVia(text, p, kids, q, false, e, n);
  }

  /** The type of a summary without a scope, and where the rest of it starts. */
  lemma BareHead(text: string, p: Pos, te: nat) returns (kids: seq<Node>, q: Pos)
    requires p.offset == 0 && 0 < te < |text| && RunTo(text, 0, te, TypeRun) && text[te] != '('
    ensures p.offset <= q.offset <= |text| && SummaryAt(text, p) == SummaryTail(text, p, kids, q, false)
    ensures q.offset == te
    ensures EraseAll(kids) == [Lf(TypeKind, text[..te])]
  {
    var t := TypeAt(text, p);
    TypeTo(text, p, te);
    PeekClassifies(text, te);
    kids, q := [t.result.value], t.pos;
    BareSummary(text, p);
  }

  /** The same for a summary `type(scope)[!]: subject`, the scope between te + 1 and se. */
  lemma ScopedSummaryTo(text: string, p: Pos, te: nat, se: nat, marked: bool, e: nat)
    requires p.offset == 0 && 0 < te && te + 1 < se < |text| && RunTo(text, 0, te, TypeRun)
    requires text[te] == '(' && RunTo(text, te + 1, se, ScopeRun) && text[se] == ')'
    requires TailShape(text, se + 1, marked, e)
    ensures var s := SummaryAt(text, p);
      var c := se + 1 + (if marked then 1 else 0);
      s.result.Ok? && s.pos.offset == e
      && Erase(s.result.value) == SummaryNode(text[..te], Some(text[te + 1..se]), marked, text[c + 2..e])
  {
    var kids, q := ScopedStart(text, p, te, se);
    var c := se + 1 + (if marked then 1 else 0);
    var n := SummaryNode(text[..te], Some(text[te + 1..se]), marked, text[c + 2..e]);
    ScopedTail(text, p, kids, q, te, se, marked, e, n);
    SummaryVia(text, p, kids, q, true, e, n);
  }

  /** The rest of a scoped summary, after the ")" at se, completes the summary node n. */
  lemma ScopedTail(text: string, p: Pos, kids: seq<Node>, q: Pos, te: nat, se: nat, marked: bool, e: nat, n: Node)
    requires p.offset == 0 && te + 1 < se && q.offset == se + 1 && TailShape(text, se + 1, marked, e)
    requires EraseAll(kids) == [Lf(TypeKind, text[..te]), Lf(ScopeKind, text[te + 1..se])]
    requires n == SummaryNode(text[..te], Some(text[te + 1..se]), marked, text[se + 1 + (if marked then 1 else 0) + 2..e])
    ensures var r := SummaryTail(text, p, kids, q, true); r.result.Ok? && r.pos.offset == e && Erase(r.result.value) == n
  {
    var r := SummaryTailTo(text, p, kids, q, text[..te], Some(text[te + 1..se]), true, marked, e);
  }

  /** What the rest of a summary parses to, the summary parses to, when the one goes on with the other. */
  lemma SummaryVia(text: string, p: Pos, kids: seq<Node>, q: Pos, scoped: bool, e: nat, n: Node)
    requires p.offset <= q.offset <= |text| && SummaryAt(text, p) == SummaryTail(text, p, kids, q, scoped)
    requires var r := SummaryTail(text, p, kids, q, scoped); r.result.Ok? && r.pos.offset == e && Erase(r.result.value) == n
    ensures var s := SummaryAt(text, p); s.result.Ok? && s.pos.offset == e && Erase(s.result.value) == n
  {
  }

  /** A scoped summary goes on, after its type and closed scope, with the rest of the summary. */
  lemma ScopedStart(text: string, p: Pos, te: nat, se: nat) returns (kids: seq<Node>, q: Pos)
    requires p.offset == 0 && 0 < te && te + 1 < se < |text| && RunTo(text, 0, te, TypeRun)
    requires text[te] == '(' && RunTo(text, te + 1, se, ScopeRun) && text[se] == ')'
    ensures p.offset <= q.offset <= |text| && SummaryAt(text, p) == SummaryTail(text, p, kids, q, true)
    ensures q.offset == se + 1
    ensures EraseAll(kids) == [Lf(TypeKind, text[..te]), Lf(ScopeKind, text[te + 1..se])]
  {
    kids, q := ScopedHead(text, p, te, se);
    ScopedGoesOn(text, p, kids, q);
  }

  /** The type and the closed scope of a scoped summary, and where the rest of it starts. */
  lemma ScopedHead(text: string, p: Pos, te: nat, se: nat) returns (kids: seq<Node>, q: Pos)
    requires p.offset == 0 && 0 < te && te + 1 < se < |text| && RunTo(text, 0, te, TypeRun)
    requires text[te] == '(' && RunTo(text, te + 1, se, ScopeRun) && text[se] == ')'
    ensures var t := TypeAt(text, p);
      t.result.Ok? && PeekAt(text, t.pos.offset) == "(" && var s := ScopeAt(text, Advance(t.pos, "("));
      s.result.Ok? && PeekAt(text, s.pos.offset) == ")"
      && kids == [t.result.value, s.result.value] && q == Advance(s.pos, ")")
    ensures q.offset == se + 1
    ensures EraseAll(kids) == [Lf(TypeKind, text[..te]), Lf(ScopeKind, text[te + 1..se])]
  {
    var t := TypeAt(text, p);
    TypeTo(text, p, te);
    PeekClassifies(text, te);
    var sp := Advance(t.pos, "(");
    ScopeTo(text, sp, se);
    var s := ScopeAt(text, sp);
    PeekClassifies(text, se);
    q := Advance(s.pos, ")");
    kids := [t.result.value, s.result.value];
  }

  /** A summary whose type is followed by a closed scope goes on with the rest of the summary after the ")". */
  lemma ScopedGoesOn(text: string, p: Pos, kids: seq<Node>, q: Pos)
    requires p.offset <= |text|
    requires var t := TypeAt(text, p);
      t.result.Ok? && PeekAt(text, t.pos.offset) == "(" && var s := ScopeAt(text, Advance(t.pos, "("));
      s.result.Ok? && PeekAt(text, s.pos.offset) == ")"
      && kids == [t.result.value, s.result.value] && q == Advance(s.pos, ")")
    ensures p.offset <= q.offset <= |text| && SummaryAt(text, p) == SummaryTail(text, p, kids, q, true)
  {
    ScopedSummary(text, p);
  }

  /** A summary without a scope goes on, after its type, with the rest of the summary. */
  lemma BareSummary(text: string, p: Pos)
    requires p.offset <= |text| && TypeAt(text, p).result.Ok? && PeekAt(text, TypeAt(text, p).pos.offset) != "("
    ensures var t := TypeAt(text, p);
      SummaryAt(text, p) == SummaryTail(text, p, [t.result.value], t.pos, false)
  {
  }

  /** A summary node whose children erase to those of SummaryNode erases to it. */
  lemma SummaryErase(n: Node, t: string, scope: Option<string>, marked: bool, x: string)
    requires n.kind == SummaryKind && n.content.Children?
    requires EraseAll(n.content.children)
      == (if scope.Some? then [Lf(TypeKind, t), Lf(ScopeKind, scope.value)] else [Lf(TypeKind, t)])
         + (if marked then [Lf(BreakingChangeKind, "!")] else [])
         + [Lf(SeparatorKind, ":"), Lf(WhitespaceKind, " "), Lf(TextKind, x)]
    ensures Erase(n) == SummaryNode(t, scope, marked, x)
  {
    var head := if scope.Some? then [Lf(TypeKind, t), Lf(ScopeKind, scope.value)] else [Lf(TypeKind, t)];
    var bang := if marked then [Lf(BreakingChangeKind, "!")] else [];
    var tail := [Lf(SeparatorKind, ":"), Lf(WhitespaceKind, " "), Lf(TextKind, x)];
    assert Erase(n) == Br(SummaryKind, EraseAll(n.content.children));
    assert SummaryKids(t, scope, marked, x) == head + bang + tail;
  }

  // ---------------------------------------------------------------------
  // A header, parsed back.
  // ---------------------------------------------------------------------

  /** A type the parser reads back whole: non-empty, of characters the type loop takes, not starting with one trim removes. */
  predicate TypeWord(t: string) {
    |t| > 0 && !IsTrimmable(t[0]) && All(TypeRun, t)
  }

  /** A scope the parser reads back whole: non-empty, with no paren and no line break. */
  predicate ScopeWord(s: string) {
    |s| > 0 && All(ScopeRun, s)
  }

  /** A subject or a footer value the parser reads back whole: one non-empty line not starting with whitespace. */
  predicate LineWord(x: string) {
    |x| > 0 && !IsWhitespaceChar(x[0]) && All(TextRun, x)
  }

  /** Where the parts of a header sit: the type first, then "(" scope ")", '!', ": " and the subject. */
  lemma HeaderLayout(t: string, scope: Option<string>, marked: bool, x: string)
    requires scope.Some? ==> scope.value != ""
    ensures var h := Header(Some(t), scope, marked, Some(x));
      var q := if scope.Some? then |t| + 2 + |scope.value| else |t|;
      var c := q + (if marked then 1 else 0);
      |h| == c + 2 + |x| && h[..|t|] == t
      && (scope.Some? ==> h[|t|] == '(' && h[|t| + 1..q - 1] == scope.value && h[q - 1] == ')')
      && (marked ==> h[q] == '!')
      && h[c] == ':' && h[c + 1] == ' ' && h[c + 2..] == x
  {
    var m := if scope.Some? then "(" + scope.value + ")" else "";
    var b := if marked then "!" else "";
    var h := Header(Some(t), scope, marked, Some(x));
    var a := t + m + b + ": ";
    assert h == a + x;
    Split(a, x);
    Split(t + m + b, ": ");
    Split(t + m, b);
    Split(t, m);
    if scope.Some? {
      assert m[1..|m| - 1] == scope.value;
      assert h[|t| + 1..|t| + |m| - 1] == m[1..|m| - 1];
    }
  }

  /** The halves of a + b: a is its prefix, b what follows. */
  lemma Split(a: string, b: string)
    ensures (a + b)[..|a|] == a && (a + b)[|a|..] == b
  {
  }

  /** The header's parts laid out at the start of the text, as HeaderLayout places them, up to e. */
  predicate Laid(text: string, t: string, scope: Option<string>, marked: bool, x: string, e: nat) {
    var q := if scope.Some? then |t| + 2 + |scope.value| else |t|;
    var c := q + (if marked then 1 else 0);
    e == c + 2 + |x| && e <= |text| && text[..|t|] == t
    && (scope.Some? ==> text[|t|] == '(' && text[|t| + 1..q - 1] == scope.value && text[q - 1] == ')')
    && (marked ==> text[q] == '!')
    && text[c] == ':' && text[c + 1] == ' ' && text[c + 2..e] == x
  }

  /** A text that starts with a header has the header's parts laid out in it. */
  lemma HeaderLaid(text: string, t: string, scope: Option<string>, marked: bool, x: string)
    requires scope.Some? ==> scope.value != ""
    requires var h := Header(Some(t), scope, marked, Some(x)); |h| <= |text| && text[..|h|] == h
    ensures Laid(text, t, scope, marked, x, |Header(Some(t), scope, marked, Some(x))|)
  {
    var h := Header(Some(t), scope, marked, Some(x));
    HeaderLayout(t, scope, marked, x);
    var q := if scope.Some? then |t| + 2 + |scope.value| else |t|;
    var c := q + (if marked then 1 else 0);
    assert forall i, j :: 0 <= i <= j <= |h| ==> text[i..j] == h[i..j] by {
      forall i, j | 0 <= i <= j <= |h|
        ensures text[i..j] == h[i..j]
      {
        assert text[..|h|][i..j] == text[i..j];
      }
    }
    assert text[..|t|] == text[0..|t|] && h[..|t|] == h[0..|t|];
    assert text[c + 2..|h|] == h[c + 2..|h|] && h[c + 2..] == h[c + 2..|h|];
    assert text[c] == text[c..c + 1][0] && text[c + 1] == text[c + 1..c + 2][0];
    if scope.Some? {
      assert text[|t|] == text[|t|..|t| + 1][0] && text[q - 1] == text[q - 1..q][0];
    }
    if marked {
      assert text[q] == text[q..q + 1][0];
    }
  }

  /**
   * A text that starts with a header and goes on, if at all, with a line
   * break: its summary is the summary node of the header's type, scope,
   * marker and subject, and it ends where the header does.
   */
  lemma HeaderAt(text: string, t: string, scope: Option<string>, marked: bool, x: string)
    requires TypeWord(t) && (scope.Some? ==> ScopeWord(scope.value)) && LineWord(x)
    requires var h := Header(Some(t), scope, marked, Some(x));
      |h| <= |text| && text[..|h|] == h && (|h| == |text| || text[|h|] == CR || text[|h|] == LF)
    ensures var s := SummaryAt(text, Origin);
      s.result.Ok? && s.pos.offset == |Header(Some(t), scope, marked, Some(x))|
      && Erase(s.result.value) == SummaryNode(t, scope, marked, x)
  {
    HeaderLaid(text, t, scope, marked, x);
    LaidSummary(text, t, scope, marked, x, |Header(Some(t), scope, marked, Some(x))|);
  }

  /** The summary of a text laid out so, ending at e with EOF or a line break. */
  lemma LaidSummary(text: string, t: string, scope: Option<string>, marked: bool, x: string, e: nat)
    requires TypeWord(t) && (scope.Some? ==> ScopeWord(scope.value)) && LineWord(x)
    requires Laid(text, t, scope, marked, x, e) && (e == |text| || text[e] == CR || text[e] == LF)
    ensures var s := SummaryAt(text, Origin);
      s.result.Ok? && s.pos.offset == e && Erase(s.result.value) == SummaryNode(t, scope, marked, x)
  {
    var te := |t|;
    var se := if scope.Some? then te + 1 + |scope.value| else 0;
    var q := if scope.Some? then se + 1 else te;
    var c := q + (if marked then 1 else 0);
    assert text[0..te] == t;
    assert text[c + 2] == x[0] by {
      assert text[c + 2..e][0] == text[c + 2];
    }
    if scope.Some? {
      ScopedSummaryTo(text, Origin, te, se, marked, e);
    } else {
      BareSummaryTo(text, Origin, te, marked, e);
    }
  }

  /** A summary that runs to the end of the text is the whole message. */
  lemma SummaryOnly(text: string, n: Node)
    requires SummaryAt(text, Origin).result.Ok? && SummaryAt(text, Origin).pos.offset == |text|
    requires Erase(SummaryAt(text, Origin).result.value) == n
    ensures MessageAt(text).Ok? && Erase(MessageAt(text).value) == Br(MessageKind, [n])
  {
    var s := SummaryAt(text, Origin);
    assert MessageAt(text) == Ok(Node(MessageKind, Children([s.result.value]), Origin, s.pos));
    assert EraseAll([s.result.value]) == [n];
  }

  /** A text that trims to itself parses to a tree that erases as its message does. */
  lemma ParsesAs(text: string)
    requires text != [] && !IsTrimmable(text[0]) && !IsTrimmable(text[|text| - 1]) && MessageAt(text).Ok?
    ensures Parse(text).Ok? && Erase(Parse(text).value) == Erase(MessageAt(text).value)
  {
    ParseUntrimmed(text);
  }

  /** A text that trims to itself parses as its message. */
  lemma ParseUntrimmed(text: string)
    requires text != [] && !IsTrimmable(text[0]) && !IsTrimmable(text[|text| - 1]) && MessageAt(text).Ok?
    ensures Parse(text) == Ok(MessageAt(text).value)
  {
    TrimKeeps(text);
  }

  /**
   * message(header) for a header the record could print: the tree has one
   * summary, of the header's own type, scope, marker and subject.
   */
  lemma HeaderParses(t: string, scope: Option<string>, marked: bool, x: string)
    requires TypeWord(t) && (scope.Some? ==> ScopeWord(scope.value)) && LineWord(x) && !IsTrimmable(x[|x| - 1])
    ensures var h := Header(Some(t), scope, marked, Some(x));
      Parse(h).Ok? && Erase(Parse(h).value) == Br(MessageKind, [SummaryNode(t, scope, marked, x)])
  {
    var h := Header(Some(t), scope, marked, Some(x));
    HeaderLayout(t, scope, marked, x);
    assert h[..|h|] == h;
    HeaderAt(h, t, scope, marked, x);
    SummaryOnly(h, SummaryNode(t, scope, marked, x));
    ParseUntrimmed(h);
  }

  /**
   * Parsing a header and handing the tree to toConventionalChangelogFormat
   * gives back the header's type, scope and subject, the header itself,
   * and a BREAKING CHANGE note exactly when the header is marked.
   */
  lemma HeaderRoundTrip(h: string, t: string, scope: Option<string>, marked: bool, x: string)
    requires TypeWord(t) && (scope.Some? ==> ScopeWord(scope.value)) && LineWord(x) && !IsTrimmable(x[|x| - 1])
    requires h == Header(Some(t), scope, marked, Some(x))
    ensures Parse(h).Ok?
      && ChangelogOf(Parse(h).value)
         == Ok(Commit(Some(t), scope, Some(x), h, None, if marked then [Note("BREAKING CHANGE", Some(x))] else [],
                      [], [], None, None))
  {
    HeaderParses(t, scope, marked, x);
    ChangelogErase(Parse(h).value);
    SummaryMessage(t, scope, marked, x);
  }

  // ---------------------------------------------------------------------
  // A body of two lines, parsed back.
  // ---------------------------------------------------------------------

  /**
   * A line of prose that no footer can start: its first word, the w type
   * characters before w, does not start with 'B' and is followed by a space
   * and then by something other than '#'.
   */
  predicate ProseLine(l: string, w: nat) {
    0 < w && w + 1 < |l| && l[0] != 'B' && All(TypeRun, l[..w]) && l[w] == ' ' && l[w + 1] != '#' && All(TextRun, l)
  }

  /** A word of type characters at p, ending at w and followed by a space and no '#', starts no pre-footer. */
  lemma NotFooterLine(text: string, p: Pos, w: nat)
    requires p.offset < w && w + 1 < |text| && RunTo(text, p.offset, w, TypeRun)
    requires text[p.offset] != 'B' && text[w] == ' ' && text[w + 1] != '#'
    ensures PreFooterAt(text, p).result.Err?
  {
    PeekClassifies(text, p.offset);
    assert SkipNewlines(text, p) == p;
    NotBreaking(text, p);
    TypeTo(text, p, w);
    var t := TypeAt(text, p);
    PeekClassifies(text, w);
    NotBreaking(text, t.pos);
    assert TokenAt(text, p).pos == t.pos;
    NotSeparator(text, t.pos);
    assert FooterAt(text, p).result.Err?;
  }

  /** A prose line placed at a in the text, ended by EOF or LF, gives NotFooterLine its word and TextTo its run. */
  lemma ProsePlaced(text: string, a: nat, l: string, w: nat)
    requires a + |l| <= |text| && text[a..a + |l|] == l && ProseLine(l, w)
    requires a + |l| == |text| || text[a + |l|] == LF
    ensures a < a + w && a + w + 1 < |text| && RunTo(text, a, a + w, TypeRun)
    ensures text[a] != 'B' && text[a + w] == ' ' && text[a + w + 1] != '#' && RunTo(text, a, a + |l|, TextRun)
  {
    assert text[a..a + w] == l[..w];
    assert text[a] == l[0] && text[a + w] == l[w] && text[a + w + 1] == l[w + 1] by {
      assert text[a..a + |l|][0] == text[a];
      assert text[a..a + |l|][w] == text[a + w];
      assert text[a..a + |l|][w + 1] == text[a + w + 1];
    }
  }

  /** A body at p whose pre-footer fails and whose first line ends the text is that one line. */
  lemma BodyOneLine(text: string, p: Pos)
    requires p.offset <= |text| && PreFooterAt(text, p).result.Err? && TextAt(text, p).end.offset == |text|
    ensures var t := TextAt(text, p);
      BodyAt(text, p) == Parsed(Ok(Node(BodyKind, Children([t]), p, t.end)), t.end)
  {
  }

  /** A body at p whose pre-footer fails and whose first line ends with a line break goes on after it. */
  lemma BodyNextLine(text: string, p: Pos)
    requires p.offset <= |text| && PreFooterAt(text, p).result.Err?
    requires var t := TextAt(text, p); t.end.offset < |text| && text[t.end.offset] == LF
    ensures var t := TextAt(text, p);
      var b := BodyAt(text, Advance(t.end, "\n"));
      var kids := if b.result.Ok? then [t] + b.result.value.content.children else [t];
      BodyAt(text, p) == Parsed(Ok(Node(BodyKind, Children(kids), p, b.pos)), b.pos)
  {
    var t := TextAt(text, p);
    assert PeekAt(text, t.end.offset) == "\n";
  }

  /** A body whose first line ends with a line break: that line, then the children of the body after it. */
  lemma BodyCons(text: string, p: Pos, rest: seq<Node>)
    requires p.offset <= |text| && PreFooterAt(text, p).result.Err?
    requires var t := TextAt(text, p); t.end.offset < |text| && text[t.end.offset] == LF
    requires var b := BodyAt(text, Advance(TextAt(text, p).end, "\n"));
      b.result.Ok? && Erase(b.result.value) == Br(BodyKind, rest)
    ensures var b := BodyAt(text, p);
      b.result.Ok? && b.pos == BodyAt(text, Advance(TextAt(text, p).end, "\n")).pos
      && Erase(b.result.value) == Br(BodyKind, [Erase(TextAt(text, p))] + rest)
  {
    var t := TextAt(text, p);
    BodyNextLine(text, p);
    var b := BodyAt(text, Advance(t.end, "\n"));
    var u := b.result.value.content.children;
    assert EraseAll(u) == rest;
    EraseOne(t, Erase(t));
    EraseAllConcat([t], u);
  }

  /** A last line of prose at p, up to EOF, is a body of that one line. */
  lemma LastLine(text: string, p: Pos, w: nat)
    requires p.offset < w && w + 1 < |text| && RunTo(text, p.offset, w, TypeRun)
    requires text[p.offset] != 'B' && text[w] == ' ' && text[w + 1] != '#'
    requires RunTo(text, p.offset, |text|, TextRun)
    ensures var b := BodyAt(text, p);
      b.result.Ok? && b.pos.offset == |text| && Erase(b.result.value) == Br(BodyKind, [Lf(TextKind, text[p.offset..])])
  {
    NotFooterLine(text, p, w);
    TextTo(text, p, |text|);
    var t := TextAt(text, p);
    BodyOneLine(text, p);
    EraseOne(t, Lf(TextKind, text[p.offset..]));
  }

  /** A line of prose at p ending at e with LF, then a last line of prose, is a body of those two lines. */
  lemma LineThenLast(text: string, p: Pos, w1: nat, e: nat, w2: nat)
    requires p.offset < w1 && w1 + 1 < |text| && RunTo(text, p.offset, w1, TypeRun)
    requires text[p.offset] != 'B' && text[w1] == ' ' && text[w1 + 1] != '#'
    requires RunTo(text, p.offset, e, TextRun) && e < |text| && text[e] == LF
    requires e + 1 < w2 && w2 + 1 < |text| && RunTo(text, e + 1, w2, TypeRun)
    requires text[e + 1] != 'B' && text[w2] == ' ' && text[w2 + 1] != '#'
    requires RunTo(text, e + 1, |text|, TextRun)
    ensures var b := BodyAt(text, p);
      b.result.Ok? && b.pos.offset == |text|
      && Erase(b.result.value) == Br(BodyKind, [Lf(TextKind, text[p.offset..e]), Lf(TextKind, text[e + 1..])])
  {
    TextTo(text, p, e);
    var t := TextAt(text, p);
    var q := Advance(t.end, "\n");
    LastLine(text, q, w2);
    NotFooterLine(text, p, w1);
    assert t.end.offset == e && q.offset == e + 1;
    assert text[q.offset..] == text[e + 1..];
    BodyCons(text, p, [Lf(TextKind, text[e + 1..])]);
    assert [Erase(t)] + [Lf(TextKind, text[e + 1..])] == [Lf(TextKind, text[p.offset..e]), Lf(TextKind, text[e + 1..])];
  }

  // ---------------------------------------------------------------------
  // The message around a summary.
  // ---------------------------------------------------------------------

  /** A summary followed by a line feed: the message goes on past the newlines that follow. */
  lemma LineAfterSummary(text: string, s: Parsed)
    requires s.result.Ok? && s.pos.offset < |text| && text[s.pos.offset] == LF
    ensures MessageAfter(text, s) == Ok(MessageTail(text, SkipNewlines(text, s.pos), s.result.value))
  {
    assert IsNewline(PeekAt(text, s.pos.offset));
  }

  /** Two line feeds and then something other than a line break: the newlines end after the two. */
  lemma SkipTwo(text: string, p: Pos)
    requires p.offset + 2 < |text| && text[p.offset] == LF && text[p.offset + 1] == LF
    requires text[p.offset + 2] != CR && text[p.offset + 2] != LF
    ensures SkipNewlines(text, p).offset == p.offset + 2
  {
    var p1 := Advance(p, "\n");
    var p2 := Advance(p1, "\n");
    assert PeekAt(text, p.offset) == "\n" && PeekAt(text, p1.offset) == "\n";
    PeekClassifies(text, p2.offset);
    assert SkipNewlines(text, p2) == p2;
  }

  /** A message tail whose body runs to EOF: the summary and the body, and no footer. */
  lemma BodyToEnd(text: string, q: Pos, summary: Node)
    requires q.offset <= |text| && BodyAt(text, q).result.Ok? && BodyAt(text, q).pos.offset == |text|
    ensures var b := BodyAt(text, q);
      MessageTail(text, q, summary) == Node(MessageKind, Children([summary, b.result.value]), Origin, b.pos)
  {
    var b := BodyAt(text, q);
    assert SkipNewlines(text, b.pos) == b.pos;
  }

  /** Where a blank line after the summary leaves the text: two line feeds, then the rest. */
  lemma BlankLine(text: string, n: nat, rest: string)
    requires n <= |text| && text[n..] == "\n\n" + rest && rest != []
    ensures n + 2 < |text| && text[n] == LF && text[n + 1] == LF && text[n + 2] == rest[0] && text[n + 2..] == rest
  {
    assert text[n..][0] == text[n] && text[n..][1] == text[n + 1] && text[n..][2] == text[n + 2];
    assert text[n..][2..] == text[n + 2..];
  }

  /** Two prose lines, from q to e and from e + 1 to EOF, are a body of those lines. */
  lemma TwoLinesAt(text: string, q: Pos, e: nat, l1: string, w1: nat, l2: string, w2: nat)
    requires q.offset + |l1| == e && e + 1 + |l2| == |text| && ProseLine(l1, w1) && ProseLine(l2, w2)
    requires text[q.offset..e] == l1 && text[e] == LF && text[e + 1..e + 1 + |l2|] == l2 && text[e + 1..] == l2
    ensures var b := BodyAt(text, q);
      b.result.Ok? && b.pos.offset == |text| && Erase(b.result.value) == Br(BodyKind, [Lf(TextKind, l1), Lf(TextKind, l2)])
  {
    TwoLinesLaid(text, q.offset, e, l1, w1, l2, w2);
    LineThenLast(text, q, q.offset + w1, e, e + 1 + w2);
  }

  /** Where two prose lines, the first from a to e and the second from e + 1 to EOF, put their words and their runs. */
  lemma TwoLinesLaid(text: string, a: nat, e: nat, l1: string, w1: nat, l2: string, w2: nat)
    requires a + |l1| == e && e + 1 + |l2| == |text| && ProseLine(l1, w1) && ProseLine(l2, w2)
    requires text[a..e] == l1 && text[e] == LF && text[e + 1..e + 1 + |l2|] == l2
    ensures a < a + w1 && a + w1 + 1 < |text| && RunTo(text, a, a + w1, TypeRun)
    ensures text[a] != 'B' && text[a + w1] == ' ' && text[a + w1 + 1] != '#' && RunTo(text, a, e, TextRun)
    ensures e + 1 < e + 1 + w2 && e + 1 + w2 + 1 < |text| && RunTo(text, e + 1, e + 1 + w2, TypeRun)
    ensures text[e + 1] != 'B' && text[e + 1 + w2] == ' ' && text[e + 1 + w2 + 1] != '#'
    ensures RunTo(text, e + 1, |text|, TextRun)
  {
    ProsePlaced(text, a, l1, w1);
    ProsePlaced(text, e + 1, l2, w2);
  }

  /** Two lines joined by a line feed, from a to EOF: where each line and the line feed sit. */
  lemma TwoLinesSplit(text: string, a: nat, l1: string, l2: string)
    requires a <= |text| && text[a..] == l1 + "\n" + l2
    ensures |text| == a + |l1| + 1 + |l2|
    ensures text[a..a + |l1|] == l1 && text[a + |l1|] == LF
    ensures text[a + |l1| + 1..a + |l1| + 1 + |l2|] == l2 && text[a + |l1| + 1..] == l2
  {
    assert text[a..][..|l1|] == l1;
    assert text[a..][|l1|] == LF;
    assert text[a..][|l1| + 1..] == l2;
  }

  /** The message tail of two prose lines from q to EOF: the summary and a body of the two lines. */
  lemma TwoLineTail(text: string, q: Pos, l1: string, w1: nat, l2: string, w2: nat, summary: Node)
    requires q.offset <= |text| && text[q.offset..] == l1 + "\n" + l2 && ProseLine(l1, w1) && ProseLine(l2, w2)
    ensures Erase(MessageTail(text, q, summary))
      == Br(MessageKind, [Erase(summary), Br(BodyKind, [Lf(TextKind, l1), Lf(TextKind, l2)])])
  {
    TwoLinesSplit(text, q.offset, l1, l2);
    TwoLinesAt(text, q, q.offset + |l1|, l1, w1, l2, w2);
    BodyToEnd(text, q, summary);
    EraseTwo(summary, BodyAt(text, q).result.value);
  }

  /** The message of a summary ending at n, a blank line and two prose lines: the summary and a body of the two lines. */
  lemma BodyMessage(text: string, n: nat, l1: string, w1: nat, l2: string, w2: nat)
    requires var s := SummaryAt(text, Origin); s.result.Ok? && s.pos.offset == n
    requires n <= |text| && text[n..] == "\n\n" + (l1 + "\n" + l2) && ProseLine(l1, w1) && ProseLine(l2, w2)
    ensures var s := SummaryAt(text, Origin);
      MessageAt(text).Ok?
      && Erase(MessageAt(text).value)
         == Br(MessageKind, [Erase(s.result.value), Br(BodyKind, [Lf(TextKind, l1), Lf(TextKind, l2)])])
  {
    var s := SummaryAt(text, Origin);
    BlankLine(text, n, l1 + "\n" + l2);
    LineAfterSummary(text, s);
    SkipTwo(text, s.pos);
    var q := SkipNewlines(text, s.pos);
    TwoLineTail(text, q, l1, w1, l2, w2, s.result.value);
  }

  /**
   * message(text) for a header, a blank line and a body of two prose lines:
   * the tree has the summary of the header and a body of the two lines.
   */
  lemma BodyParses(text: string, t: string, x: string, l1: string, w1: nat, l2: string, w2: nat)
    requires TypeWord(t) && LineWord(x) && ProseLine(l1, w1) && ProseLine(l2, w2) && !IsTrimmable(l2[|l2| - 1])
    requires text == Header(Some(t), None, false, Some(x)) + "\n\n" + (l1 + "\n" + l2)
    ensures Parse(text).Ok?
      && Erase(Parse(text).value)
         == Br(MessageKind, [SummaryNode(t, None, false, x), Br(BodyKind, [Lf(TextKind, l1), Lf(TextKind, l2)])])
  {
    BodyMessageOf(text, t, x, l1, w1, l2, w2);
    ParsesAs(text);
  }

  /** The message of such a text, which starts and ends with no whitespace. */
  lemma BodyMessageOf(text: string, t: string, x: string, l1: string, w1: nat, l2: string, w2: nat)
    requires TypeWord(t) && LineWord(x) && ProseLine(l1, w1) && ProseLine(l2, w2) && !IsTrimmable(l2[|l2| - 1])
    requires text == Header(Some(t), None, false, Some(x)) + "\n\n" + (l1 + "\n" + l2)
    ensures text != [] && !IsTrimmable(text[0]) && !IsTrimmable(text[|text| - 1]) && MessageAt(text).Ok?
      && Erase(MessageAt(text).value)
         == Br(MessageKind, [SummaryNode(t, None, false, x), Br(BodyKind, [Lf(TextKind, l1), Lf(TextKind, l2)])])
  {
    var h := Header(Some(t), None, false, Some(x));
    HeaderLayout(t, None, false, x);
    Opens(text, h, "\n\n" + (l1 + "\n" + l2));
    HeaderAt(text, t, None, false, x);
    BodyMessage(text, |h|, l1, w1, l2, w2);
    EndsAsLast(text, h + "\n\n", l1 + "\n", l2);
  }

  /** A text a + b + c ends with c's last character, so trim keeps it when c's is kept. */
  lemma EndsAsLast(text: string, a: string, b: string, c: string)
    requires c != [] && !IsTrimmable(c[|c| - 1]) && text == a + (b + c)
    ensures text != [] && !IsTrimmable(text[|text| - 1])
  {
    LastOf(a, b + c);
    LastOf(b, c);
  }

  /** A text made of h and then rest: h is its prefix, rest what follows, and its first character is h's. */
  lemma Opens(text: string, h: string, rest: string)
    requires text == h + rest && h != [] && rest != []
    ensures |h| < |text| && text[..|h|] == h && text[|h|..] == rest && text[0] == h[0] && text[|h|] == rest[0]
  {
  }

  /** The last character of a + b is b's. */
  lemma LastOf(a: string, b: string)
    requires b != []
    ensures (a + b)[|a + b| - 1] == b[|b| - 1]
  {
  }

  /**
   * Parsing a header, a blank line and two prose lines and handing the tree
   * to toConventionalChangelogFormat gives back the header and the two lines
   * joined by a line feed as the body.
   */
  lemma BodyRoundTrip(text: string, t: string, x: string, l1: string, w1: nat, l2: string, w2: nat)
    requires TypeWord(t) && LineWord(x) && ProseLine(l1, w1) && ProseLine(l2, w2) && !IsTrimmable(l2[|l2| - 1])
    requires text == Header(Some(t), None, false, Some(x)) + "\n\n" + (l1 + "\n" + l2)
    ensures Parse(text).Ok?
      && ChangelogOf(Parse(text).value)
         == Ok(Commit(Some(t), None, Some(x), Header(Some(t), None, false, Some(x)), Some(l1 + "\n" + l2), [], [], [], None, None))
  {
    BodyParses(text, t, x, l1, w1, l2, w2);
    ChangelogErase(Parse(text).value);
    TwoLineBody(t, x, l1, l2);
  }

  // ---------------------------------------------------------------------
  // A footer, parsed back.
  // ---------------------------------------------------------------------

  /** A footer token the parser reads back as a type alone: a type word that cannot start BREAKING CHANGE. */
  predicate TokenWord(tok: string) {
    TypeWord(tok) && tok[0] != 'B'
  }

  /** A type at p up to te, followed by neither '(' nor '!', is a token of that type alone. */
  lemma TokenTo(text: string, p: Pos, te: nat) returns (tk: Node, tp: Pos)
    requires p.offset < te < |text| && RunTo(text, p.offset, te, TypeRun) && text[p.offset] != 'B'
    requires text[te] != '(' && text[te] != '!'
    ensures TokenAt(text, p) == Parsed(Ok(tk), tp)
    ensures tp.offset == te && Erase(tk) == Br(TokenKind, [Lf(TypeKind, text[p.offset..te])])
  {
    assert text[p.offset..te][0] == text[p.offset];
    NotBreaking(text, p);
    TypeTo(text, p, te);
    var t := TypeAt(text, p);
    PeekClassifies(text, te);
    NotBreaking(text, t.pos);
    assert TokenAt(text, p) == TokenTail(text, p, [t.result.value], t.pos);
    EraseOne(t.result.value, Lf(TypeKind, text[p.offset..te]));
    tk, tp := TokenAt(text, p).result.value, TokenAt(text, p).pos;
  }

  /** The separator ":" or " #" at r. */
  lemma SeparatorTo(text: string, r: Pos, sep: string)
    requires sep == ":" || sep == " #"
    requires r.offset + |sep| <= |text| && text[r.offset] == sep[0] && (sep == " #" ==> text[r.offset + 1] == '#')
    ensures var s := SeparatorAt(text, r);
      s.result.Ok? && s.pos.offset == r.offset + |sep| && Erase(s.result.value) == Lf(SeparatorKind, sep)
  {
    PeekClassifies(text, r.offset);
    if sep == " #" {
      PeekClassifies(text, r.offset + 1);
    }
  }

  /** Something other than whitespace at p: the whitespace parser fails where it started. */
  lemma NoSpace(text: string, p: Pos)
    requires p.offset < |text| && !IsWhitespaceChar(text[p.offset])
    ensures WhitespaceAt(text, p).result.Err? && WhitespaceAt(text, p).pos == p
  {
    RunLeaf(text, p, p.offset, WhitespaceKind, SpaceRun);
  }

  /** A value of one line from p to EOF: its text, and no continuation. */
  lemma ValueToEnd(text: string, p: Pos)
    requires RunTo(text, p.offset, |text|, TextRun)
    ensures var v := ValueAt(text, p);
      v.end.offset == |text| && Erase(v) == Br(ValueKind, [Lf(TextKind, text[p.offset..])])
  {
    TextTo(text, p, |text|);
    var t := TextAt(text, p);
    assert ContinuationsFrom(text, t.end, [t]) == ([t], t.end);
    EraseOne(t, Lf(TextKind, text[p.offset..]));
  }

  /**
   * A footer from q to EOF: a token up to te, the separator sep, one space
   * when spaced, and a value from d to EOF that does not start with
   * whitespace. It is the footer node of those parts.
   */
  lemma FooterLaid(text: string, q: Pos, te: nat, sep: string, spaced: bool, d: nat)
    requires q.offset < te && RunTo(text, q.offset, te, TypeRun) && text[q.offset] != 'B'
    requires (sep == ":" || sep == " #") && d == te + |sep| + (if spaced then 1 else 0) && d < |text|
    requires text[te] == sep[0] && (sep == " #" ==> text[te + 1] == '#') && (spaced ==> text[te + |sep|] == ' ')
    requires !IsWhitespaceChar(text[d]) && RunTo(text, d, |text|, TextRun)
    ensures var f := FooterAt(text, q);
      f.result.Ok? && f.pos.offset == |text|
      && Erase(f.result.value) == FooterNode(text[q.offset..te], sep, spaced, text[d..])
  {
    var kids, r := FooterStart(text, q, te, sep, spaced, d);
    ValueToEnd(text, r);
    var v := ValueAt(text, r);
    assert PastNewline(text, v.end) == v.end;
    FooterErase(kids, v, text[q.offset..te], sep, spaced, text[d..]);
  }

  /** Such a footer goes on, after its token, separator and optional space, with its value from r. */
  lemma FooterStart(text: string, q: Pos, te: nat, sep: string, spaced: bool, d: nat) returns (kids: seq<Node>, r: Pos)
    requires q.offset < te && RunTo(text, q.offset, te, TypeRun) && text[q.offset] != 'B'
    requires (sep == ":" || sep == " #") && d == te + |sep| + (if spaced then 1 else 0) && d < |text|
    requires text[te] == sep[0] && (sep == " #" ==> text[te + 1] == '#') && (spaced ==> text[te + |sep|] == ' ')
    requires !IsWhitespaceChar(text[d])
    ensures r.offset == d && var v := ValueAt(text, r); var e := PastNewline(text, v.end);
      FooterAt(text, q) == Parsed(Ok(Node(FooterKind, Children(kids + [v]), q, e)), e)
    ensures EraseAll(kids)
      == [Br(TokenKind, [Lf(TypeKind, text[q.offset..te])]), Lf(SeparatorKind, sep)] + (if spaced then [Lf(WhitespaceKind, " ")] else [])
  {
    var tk, tp := TokenTo(text, q, te);
    assert text[tp.offset] == sep[0] && d == tp.offset + |sep| + (if spaced then 1 else 0);
    kids, r := FooterFrom(text, q, tk, tp, sep, spaced, d, Lf(TypeKind, text[q.offset..te]));
  }

  /** After the footer's token tk, ending at tp: its separator, its optional space, and its value from r. */
  lemma FooterFrom(text: string, q: Pos, tk: Node, tp: Pos, sep: string, spaced: bool, d: nat, t: Node) returns (kids: seq<Node>, r: Pos)
    requires q.offset <= |text| && TokenAt(text, q) == Parsed(Ok(tk), tp)
    requires (sep == ":" || sep == " #") && d == tp.offset + |sep| + (if spaced then 1 else 0) && d < |text|
    requires text[tp.offset] == sep[0] && (sep == " #" ==> text[tp.offset + 1] == '#') && (spaced ==> text[tp.offset + |sep|] == ' ')
    requires !IsWhitespaceChar(text[d]) && Erase(tk) == Br(TokenKind, [t])
    ensures r.offset == d && var v := ValueAt(text, r); var e := PastNewline(text, v.end);
      FooterAt(text, q) == Parsed(Ok(Node(FooterKind, Children(kids + [v]), q, e)), e)
    ensures EraseAll(kids) == [Br(TokenKind, [t]), Lf(SeparatorKind, sep)] + (if spaced then [Lf(WhitespaceKind, " ")] else [])
  {
    kids, r := AfterToken(text, tp, sep, spaced, d, tk, t);
    FooterGoesOn(text, q, tk, tp, kids, r);
  }

  /** A footer node whose children erase as FooterNode's do erases to it. */
  lemma FooterErase(kids: seq<Node>, v: Node, tok: string, sep: string, spaced: bool, x: string)
    requires EraseAll(kids) == [Br(TokenKind, [Lf(TypeKind, tok)]), Lf(SeparatorKind, sep)] + (if spaced then [Lf(WhitespaceKind, " ")] else [])
    requires Erase(v) == Br(ValueKind, [Lf(TextKind, x)])
    ensures forall q: Pos, e: Pos :: Erase(Node(FooterKind, Children(kids + [v]), q, e)) == FooterNode(tok, sep, spaced, x)
  {
    EraseOne(v, Br(ValueKind, [Lf(TextKind, x)]));
    EraseAllConcat(kids, [v]);
  }

  /** After a token node tk ending at p: the separator, the optional space, and where the value starts. */
  lemma AfterToken(text: string, p: Pos, sep: string, spaced: bool, d: nat, tk: Node, t: Node) returns (kids: seq<Node>, r: Pos)
    requires (sep == ":" || sep == " #") && d == p.offset + |sep| + (if spaced then 1 else 0) && d < |text|
    requires text[p.offset] == sep[0] && (sep == " #" ==> text[p.offset + 1] == '#') && (spaced ==> text[p.offset + |sep|] == ' ')
    requires !IsWhitespaceChar(text[d]) && Erase(tk) == Br(TokenKind, [t])
    ensures var s := SeparatorAt(text, p);
      s.result.Ok? && var ws := WhitespaceAt(text, s.pos);
      r == ws.pos && kids == if ws.result.Ok? then [tk, s.result.value] + [ws.result.value] else [tk, s.result.value]
    ensures r.offset == d
    ensures EraseAll(kids) == [Br(TokenKind, [t]), Lf(SeparatorKind, sep)] + (if spaced then [Lf(WhitespaceKind, " ")] else [])
  {
    SeparatorSpace(text, p, sep, spaced, d);
    var s := SeparatorAt(text, p);
    var ws := WhitespaceAt(text, s.pos);
    r := ws.pos;
    kids := if ws.result.Ok? then [tk, s.result.value] + [ws.result.value] else [tk, s.result.value];
    FrontErase(tk, s.result.value, ws.result, t, sep);
  }

  /** The separator sep at p, and one space after it when spaced, up to d where the value starts. */
  lemma SeparatorSpace(text: string, p: Pos, sep: string, spaced: bool, d: nat)
    requires (sep == ":" || sep == " #") && d == p.offset + |sep| + (if spaced then 1 else 0) && d < |text|
    requires text[p.offset] == sep[0] && (sep == " #" ==> text[p.offset + 1] == '#') && (spaced ==> text[p.offset + |sep|] == ' ')
    requires !IsWhitespaceChar(text[d])
    ensures var s := SeparatorAt(text, p);
      s.result.Ok? && Erase(s.result.value) == Lf(SeparatorKind, sep)
      && var ws := WhitespaceAt(text, s.pos);
      ws.result.Ok? == spaced && ws.pos.offset == d && (spaced ==> Erase(ws.result.value) == Lf(WhitespaceKind, " "))
  {
    SeparatorTo(text, p, sep);
    var s := SeparatorAt(text, p);
    if spaced {
      OneSpace(text, s.pos);
    } else {
      NoSpace(text, s.pos);
    }
  }

  /** The token, the separator and the whitespace if it parsed, erased. */
  lemma FrontErase(tk: Node, s: Node, ws: Result<Node, Failure>, t: Node, sep: string)
    requires Erase(tk) == Br(TokenKind, [t]) && Erase(s) == Lf(SeparatorKind, sep)
    requires ws.Ok? ==> Erase(ws.value) == Lf(WhitespaceKind, " ")
    ensures EraseAll(if ws.Ok? then [tk, s] + [ws.value] else [tk, s])
      == [Br(TokenKind, [t]), Lf(SeparatorKind, sep)] + (if ws.Ok? then [Lf(WhitespaceKind, " ")] else [])
  {
  }

  /** A footer whose token and separator parse goes on with its value after them. */
  lemma FooterGoesOn(text: string, q: Pos, tk: Node, tp: Pos, kids: seq<Node>, r: Pos)
    requires q.offset <= |text| && TokenAt(text, q) == Parsed(Ok(tk), tp)
    requires var s := SeparatorAt(text, tp);
      s.result.Ok? && var ws := WhitespaceAt(text, s.pos);
      r == ws.pos && kids == if ws.result.Ok? then [tk, s.result.value] + [ws.result.value] else [tk, s.result.value]
    ensures r.offset <= |text| && var v := ValueAt(text, r); var e := PastNewline(text, v.end);
      FooterAt(text, q) == Parsed(Ok(Node(FooterKind, Children(kids + [v]), q, e)), e)
  {
  }

  /** A footer text after a, split into its token, separator, optional space and value. */
  lemma FooterSplit(text: string, a: nat, tok: string, sep: string, spaced: bool, v: string)
    requires TokenWord(tok) && (sep == ":" || sep == " #") && LineWord(v)
    requires a <= |text| && text[a..] == tok + sep + (if spaced then " " else "") + v
    ensures var te := a + |tok|; var d := te + |sep| + (if spaced then 1 else 0);
      d < |text| && text[a..te] == tok && text[d..] == v && text[a] == tok[0]
      && text[te] == sep[0] && (sep == " #" ==> text[te + 1] == '#') && (spaced ==> text[te + |sep|] == ' ')
      && text[d] == v[0]
  {
    var te := a + |tok|;
    var sp := if spaced then " " else "";
    var d := te + |sep| + |sp|;
    var f := tok + sep + sp + v;
    assert text[a..][..|tok|] == tok && text[a..][|tok|] == sep[0];
    assert sep == " #" ==> text[a..][|tok| + 1] == '#';
    assert spaced ==> text[a..][|tok| + |sep|] == ' ';
    assert text[a..][d - a..] == v;
    assert text[a..][0] == tok[0] && text[a..][d - a] == v[0];
  }

  /** A footer `tok sep [" "] v` from q to EOF is the footer node of those parts, ending at EOF. */
  lemma FooterToEnd(text: string, q: Pos, tok: string, sep: string, spaced: bool, v: string)
    requires TokenWord(tok) && (sep == ":" || sep == " #") && LineWord(v)
    requires q.offset <= |text| && text[q.offset..] == tok + sep + (if spaced then " " else "") + v
    ensures var f := FooterAt(text, q);
      f.result.Ok? && f.pos.offset == |text| && Erase(f.result.value) == FooterNode(tok, sep, spaced, v)
  {
    var te := q.offset + |tok|;
    var d := te + |sep| + (if spaced then 1 else 0);
    FooterSplit(text, q.offset, tok, sep, spaced, v);
    FooterRuns(text, q.offset, te, tok, d, v);
    FooterLaid(text, q, te, sep, spaced, d);
  }

  /** The runs a footer's token and value make in the text. */
  lemma FooterRuns(text: string, a: nat, te: nat, tok: string, d: nat, v: string)
    requires TokenWord(tok) && LineWord(v) && a < te < d < |text| && text[a..te] == tok && text[d..] == v
    requires !Continues(TypeRun, text[te])
    ensures RunTo(text, a, te, TypeRun) && RunTo(text, d, |text|, TextRun)
  {
    assert text[d..|text|] == text[d..];
  }

  /** A footer at q that runs to EOF: the pre-footer parses there, so the body gives way, and the footer loop takes the footer. */
  lemma FooterTail(text: string, q: Pos, summary: Node)
    requires q.offset < |text| && text[q.offset] != CR && text[q.offset] != LF
    requires var f := FooterAt(text, q); f.result.Ok? && f.pos.offset == |text|
    ensures var f := FooterAt(text, q);
      MessageTail(text, q, summary) == Node(MessageKind, Children([summary, f.result.value]), Origin, f.pos)
  {
    StaysAt(text, q);
    FooterGivesWay(text, q);
    FooterTaken(text, q, [summary]);
    assert [summary] + [FooterAt(text, q).result.value] == [summary, FooterAt(text, q).result.value];
  }

  /** No newline at q: the newline loop does not move. */
  lemma StaysAt(text: string, q: Pos)
    requires q.offset < |text| && text[q.offset] != CR && text[q.offset] != LF
    ensures SkipNewlines(text, q) == q
  {
    PeekClassifies(text, q.offset);
  }

  /** A footer at q that runs to EOF is a pre-footer, so the body fails at q. */
  lemma FooterGivesWay(text: string, q: Pos)
    requires q.offset < |text| && SkipNewlines(text, q) == q
    requires var f := FooterAt(text, q); f.result.Ok? && f.pos.offset == |text|
    ensures BodyAt(text, q).result.Err? && BodyAt(text, q).pos == q
  {
    var f := FooterAt(text, q);
    assert FootersToEnd(text, f.pos) == Reached(f.pos);
    assert FootersToEnd(text, q) == Reached(f.pos);
  }

  /** The footer loop at a footer that runs to EOF takes it and stops. */
  lemma FooterTaken(text: string, q: Pos, acc: seq<Node>)
    requires q.offset < |text|
    requires var f := FooterAt(text, q); f.result.Ok? && f.pos.offset == |text|
    ensures var f := FooterAt(text, q); FooterLoop(text, q, acc) == (acc + [f.result.value], f.pos)
  {
    var f := FooterAt(text, q);
    assert FooterLoop(text, f.pos, acc + [f.result.value]) == (acc + [f.result.value], f.pos);
  }

  /** The message of a summary ending at n, a blank line and a footer: the summary and the footer. */
  lemma FooterMessageAt(text: string, n: nat, tok: string, sep: string, spaced: bool, v: string)
    requires var s := SummaryAt(text, Origin); s.result.Ok? && s.pos.offset == n
    requires TokenWord(tok) && (sep == ":" || sep == " #") && LineWord(v)
    requires n <= |text| && text[n..] == "\n\n" + (tok + sep + (if spaced then " " else "") + v)
    ensures var s := SummaryAt(text, Origin);
      MessageAt(text).Ok?
      && Erase(MessageAt(text).value) == Br(MessageKind, [Erase(s.result.value), FooterNode(tok, sep, spaced, v)])
  {
    var s := SummaryAt(text, Origin);
    var f := tok + sep + (if spaced then " " else "") + v;
    BlankLine(text, n, f);
    LineAfterSummary(text, s);
    assert f[0] == tok[0];
    SkipTwo(text, s.pos);
    var q := SkipNewlines(text, s.pos);
    FooterToEnd(text, q, tok, sep, spaced, v);
    FooterTail(text, q, s.result.value);
    EraseTwo(s.result.value, FooterAt(text, q).result.value);
  }

  /**
   * message(text) for a header, a blank line and one footer `tok sep [" "] v`
   * (sep being ":" or " #"): the tree has the summary of the header and the
   * footer of those parts.
   */
  lemma FooterParses(text: string, t: string, x: string, tok: string, sep: string, spaced: bool, v: string)
    requires TypeWord(t) && LineWord(x) && TokenWord(tok) && (sep == ":" || sep == " #") && LineWord(v)
    requires !IsTrimmable(v[|v| - 1])
    requires text == Header(Some(t), None, false, Some(x)) + "\n\n" + (tok + sep + (if spaced then " " else "") + v)
    ensures Parse(text).Ok?
      && Erase(Parse(text).value) == Br(MessageKind, [SummaryNode(t, None, false, x), FooterNode(tok, sep, spaced, v)])
  {
    FooterMessageOf(text, t, x, tok, sep, spaced, v);
    ParsesAs(text);
  }

  /** The message of such a text, which starts and ends with no whitespace. */
  lemma FooterMessageOf(text: string, t: string, x: string, tok: string, sep: string, spaced: bool, v: string)
    requires TypeWord(t) && LineWord(x) && TokenWord(tok) && (sep == ":" || sep == " #") && LineWord(v)
    requires !IsTrimmable(v[|v| - 1])
    requires text == Header(Some(t), None, false, Some(x)) + "\n\n" + (tok + sep + (if spaced then " " else "") + v)
    ensures text != [] && !IsTrimmable(text[0]) && !IsTrimmable(text[|text| - 1]) && MessageAt(text).Ok?
      && Erase(MessageAt(text).value) == Br(MessageKind, [SummaryNode(t, None, false, x), FooterNode(tok, sep, spaced, v)])
  {
    var h := Header(Some(t), None, false, Some(x));
    var f := tok + sep + (if spaced then " " else "") + v;
    HeaderLayout(t, None, false, x);
    Opens(text, h, "\n\n" + f);
    HeaderAt(text, t, None, false, x);
    FooterMessageAt(text, |h|, tok, sep, spaced, v);
    EndsAsLast(text, h + "\n\n", tok + sep + (if spaced then " " else ""), v);
  }

  /**
   * Parsing a header, a blank line and one footer and handing the tree to
   * toConventionalChangelogFormat: a reference to the value, its '#'
   * dropped, exactly when the separator or the value carries a '#' and the
   * rest of the value is a number.
   */
  lemma FooterRoundTrip(text: string, t: string, x: string, tok: string, sep: string, spaced: bool, v: string)
    requires TypeWord(t) && LineWord(x) && TokenWord(tok) && (sep == ":" || sep == " #") && LineWord(v)
    requires !IsTrimmable(v[|v| - 1])
    requires text == Header(Some(t), None, false, Some(x)) + "\n\n" + (tok + sep + (if spaced then " " else "") + v)
    ensures var refs := if ('#' in sep || v[0] == '#') && AllDigits(StripHash(v)) then [Reference("#", Some(tok), StripHash(v))] else [];
      Parse(text).Ok?
      && ChangelogOf(Parse(text).value)
         == Ok(Commit(Some(t), None, Some(x), Header(Some(t), None, false, Some(x)), None, [], refs, [], None, None))
  {
    FooterParses(text, t, x, tok, sep, spaced, v);
    ChangelogErase(Parse(text).value);
    FooterMessage(t, x, tok, sep, spaced, v);
  }

  // ---------------------------------------------------------------------
  // The examples of test/utils.js, from the commit text on.
  // ---------------------------------------------------------------------

  /** test/utils.js:8-10: 'foo: bar' has type 'foo' and subject 'bar'. */
  lemma SubjectExample(text: string)
    requires text == "foo: bar"
    ensures Parse(text).Ok?
    ensures var c := ChangelogOf(Parse(text).value); c.Ok? && c.value.commitType == Some("foo") && c.value.subject == Some("bar")
  {
    var t, x := "foo", "bar";
    HeaderExampleWords(text, t, None, false, x);
    HeaderRoundTrip(text, t, None, false, x);
  }

  /** test/utils.js:11-14: 'foo(parser): hello world' has type 'foo', scope 'parser' and subject 'hello world'. */
  lemma ScopeExample(text: string)
    requires text == "foo(parser): hello world"
    ensures Parse(text).Ok?
    ensures var c := ChangelogOf(Parse(text).value);
      c.Ok? && c.value.commitType == Some("foo") && c.value.scope == Some("parser") && c.value.subject == Some("hello world")
  {
    var t, scope, x := "foo", "parser", "hello world";
    HeaderExampleWords(text, t, Some(scope), false, x);
    HeaderRoundTrip(text, t, Some(scope), false, x);
  }

  /** test/utils.js:20-26: 'foo!: hello world' gives one note, titled 'BREAKING CHANGE', whose text is the subject. */
  lemma BreakingNoteExample(text: string)
    requires text == "foo!: hello world"
    ensures Parse(text).Ok?
    ensures var c := ChangelogOf(Parse(text).value);
      c.Ok? && |c.value.notes| == 1 && c.value.notes[0].title == "BREAKING CHANGE" && c.value.notes[0].text == Some("hello world")
  {
    var t, x := "foo", "hello world";
    HeaderExampleWords(text, t, None, true, x);
    HeaderRoundTrip(text, t, None, true, x);
  }

  /** The words of the header examples, and the text as the header of them. */
  lemma HeaderExampleWords(text: string, t: string, scope: Option<string>, marked: bool, x: string)
    requires t == "foo"
    requires (scope == None && !marked && x == "bar" && text == "foo: bar")
      || (scope == Some("parser") && !marked && x == "hello world" && text == "foo(parser): hello world")
      || (scope == None && marked && x == "hello world" && text == "foo!: hello world")
    ensures TypeWord(t) && (scope.Some? ==> ScopeWord(scope.value)) && LineWord(x) && !IsTrimmable(x[|x| - 1])
    ensures text == Header(Some(t), scope, marked, Some(x))
  {
    FooWord(t);
    SubjectWord(x);
    if scope.Some? {
      assert All(ScopeRun, "parser");
    }
    HeaderExampleLayout(text, t, scope, marked, x);
  }

  /** 'foo' is a type word. */
  lemma FooWord(t: string)
    requires t == "foo"
    ensures TypeWord(t)
  {
    assert All(TypeRun, t[2..]);
    assert All(TypeRun, t);
  }

  /** A non-empty line without a line break, whose first and last characters are not whitespace, is a line word. */
  lemma SubjectWord(x: string)
    requires |x| > 0 && LF !in x && CR !in x && !IsWhitespaceChar(x[0]) && !IsTrimmable(x[|x| - 1])
    ensures LineWord(x) && !IsTrimmable(x[|x| - 1])
  {
    NoLineBreak(x);
  }

  /** The header examples' text is the header of their parts. */
  lemma HeaderExampleLayout(text: string, t: string, scope: Option<string>, marked: bool, x: string)
    requires t == "foo"
    requires (scope == None && !marked && x == "bar" && text == "foo: bar")
      || (scope == Some("parser") && !marked && x == "hello world" && text == "foo(parser): hello world")
      || (scope == None && marked && x == "hello world" && text == "foo!: hello world")
    ensures text == Header(Some(t), scope, marked, Some(x))
  {
  }

  /** test/utils.js:16-19: the body of 'foo: bar\n\nthe body of commit\nsecond line' is its two lines joined by a line feed. */
  lemma BodyExample(text: string)
    requires text == "foo: bar\n\nthe body of commit\nsecond line"
    ensures Parse(text).Ok?
    ensures var c := ChangelogOf(Parse(text).value); c.Ok? && c.value.body == Some("the body of commit\nsecond line")
  {
    var l1, l2 := "the body of commit", "second line";
    BodyExampleLayout(text, l1, l2);
    BodyExampleWords(l1, l2);
    BodyRoundTrip(text, "foo", "bar", l1, 3, l2, 6);
  }

  /** The words of that example: a type, a subject and two prose lines. */
  lemma BodyExampleWords(l1: string, l2: string)
    requires l1 == "the body of commit" && l2 == "second line"
    ensures TypeWord("foo") && LineWord("bar") && ProseLine(l1, 3) && ProseLine(l2, 6) && !IsTrimmable(l2[|l2| - 1])
    ensures l1 + "\n" + l2 == "the body of commit\nsecond line"
  {
    FooWord("foo");
    SubjectWord("bar");
    FirstBodyLine(l1);
    SecondBodyLine(l2);
  }

  /** The example's first body line is a prose line whose first word is 'the'. */
  lemma FirstBodyLine(l: string)
    requires l == "the body of commit"
    ensures ProseLine(l, 3)
  {
    ProseExample(l, "the", 3);
  }

  /** The example's second body line is a prose line whose first word is 'second', ending in no whitespace. */
  lemma SecondBodyLine(l: string)
    requires l == "second line"
    ensures ProseLine(l, 6) && !IsTrimmable(l[|l| - 1])
  {
    ProseExample(l, "second", 6);
  }

  /** The body example's text is a header, a blank line and its two lines. */
  lemma BodyExampleLayout(text: string, l1: string, l2: string)
    requires text == "foo: bar\n\nthe body of commit\nsecond line" && l1 == "the body of commit" && l2 == "second line"
    ensures text == Header(Some("foo"), None, false, Some("bar")) + "\n\n" + (l1 + "\n" + l2)
  {
    assert Header(Some("foo"), None, false, Some("bar")) == "foo: bar";
  }

  /** A line of the examples, its first word w characters long, is a prose line. */
  lemma ProseExample(l: string, word: string, w: nat)
    requires 0 < w && w + 1 < |l| && l[0] != 'B' && l[w] == ' ' && l[w + 1] != '#'
    requires word == l[..w] && All(TypeRun, word) && LF !in l && CR !in l
    ensures ProseLine(l, w)
  {
    NoLineBreak(l);
  }

  /** test/utils.js:27-32: the footer of 'foo: summary\n\nRefs #34' gives one reference, to issue '34'. */
  lemma HashSeparatorExample(text: string)
    requires text == "foo: summary\n\nRefs #34"
    ensures Parse(text).Ok?
    ensures var c := ChangelogOf(Parse(text).value); c.Ok? && |c.value.references| == 1 && c.value.references[0].issue == "34"
  {
    var v := "34";
    FooterExampleLayout(text, " #", false, v);
    SeparatorIssue(text, v);
  }

  /** test/utils.js:33-38: the footer of 'foo: summary\n\nRefs: #34' gives one reference, to issue '34'. */
  lemma HashTextExample(text: string)
    requires text == "foo: summary\n\nRefs: #34"
    ensures Parse(text).Ok?
    ensures var c := ChangelogOf(Parse(text).value); c.Ok? && |c.value.references| == 1 && c.value.references[0].issue == "34"
  {
    var v := "#34";
    FooterExampleLayout(text, ":", true, v);
    TextIssue(text, v);
  }

  /** test/utils.js:39-42: the footer of 'foo: summary\n\nRefs #batman' gives no reference, its issue not being a number. */
  lemma NonNumericExample(text: string)
    requires text == "foo: summary\n\nRefs #batman"
    ensures Parse(text).Ok?
    ensures var c := ChangelogOf(Parse(text).value); c.Ok? && c.value.references == []
  {
    var v := "batman";
    FooterExampleLayout(text, " #", false, v);
    NoIssue(text, v);
  }

  /** The footer 'Refs #batman' after the header 'foo: summary' gives no reference. */
  lemma NoIssue(text: string, v: string)
    requires v == "batman"
    requires text == Header(Some("foo"), None, false, Some("summary")) + "\n\n" + ("Refs" + " #" + "" + v)
    ensures Parse(text).Ok?
    ensures var c := ChangelogOf(Parse(text).value); c.Ok? && c.value.references == []
  {
    FooterHeaderWords();
    SubjectWord(v);
    assert !AllDigits(StripHash(v)) by {
      assert StripHash(v)[0] == 'b';
    }
    NoReference(text, "foo", "summary", "Refs", " #", false, v);
  }

  /** The footer 'Refs #34' after the header 'foo: summary' gives one reference, to issue '34'. */
  lemma SeparatorIssue(text: string, v: string)
    requires v == "34"
    requires text == Header(Some("foo"), None, false, Some("summary")) + "\n\n" + ("Refs" + " #" + "" + v)
    ensures Parse(text).Ok?
    ensures var c := ChangelogOf(Parse(text).value); c.Ok? && |c.value.references| == 1 && c.value.references[0].issue == "34"
  {
    FooterHeaderWords();
    SubjectWord(v);
    IssueDigits(v, "34");
    OneReference(text, "foo", "summary", "Refs", " #", false, v, "34");
  }

  /** The footer 'Refs: #34' after the header 'foo: summary' gives one reference, to issue '34'. */
  lemma TextIssue(text: string, v: string)
    requires v == "#34"
    requires text == Header(Some("foo"), None, false, Some("summary")) + "\n\n" + ("Refs" + ":" + " " + v)
    ensures Parse(text).Ok?
    ensures var c := ChangelogOf(Parse(text).value); c.Ok? && |c.value.references| == 1 && c.value.references[0].issue == "34"
  {
    FooterHeaderWords();
    SubjectWord(v);
    IssueDigits(v, "34");
    OneReference(text, "foo", "summary", "Refs", ":", true, v, "34");
  }

  /** A footer whose separator or value carries a '#' and whose value, '#' dropped, is a number gives one reference, to that number. */
  lemma OneReference(text: string, t: string, x: string, tok: string, sep: string, spaced: bool, v: string, issue: string)
    requires TypeWord(t) && LineWord(x) && TokenWord(tok) && (sep == ":" || sep == " #") && LineWord(v)
    requires !IsTrimmable(v[|v| - 1])
    requires text == Header(Some(t), None, false, Some(x)) + "\n\n" + (tok + sep + (if spaced then " " else "") + v)
    requires ('#' in sep || v[0] == '#') && StripHash(v) == issue && AllDigits(issue)
    ensures Parse(text).Ok?
    ensures var c := ChangelogOf(Parse(text).value); c.Ok? && c.value.references == [Reference("#", Some(tok), issue)]
  {
    FooterRoundTrip(text, t, x, tok, sep, spaced, v);
  }

  /** A footer whose value, '#' dropped, is not a number gives no reference. */
  lemma NoReference(text: string, t: string, x: string, tok: string, sep: string, spaced: bool, v: string)
    requires TypeWord(t) && LineWord(x) && TokenWord(tok) && (sep == ":" || sep == " #") && LineWord(v)
    requires !IsTrimmable(v[|v| - 1])
    requires text == Header(Some(t), None, false, Some(x)) + "\n\n" + (tok + sep + (if spaced then " " else "") + v)
    requires !AllDigits(StripHash(v))
    ensures Parse(text).Ok?
    ensures var c := ChangelogOf(Parse(text).value); c.Ok? && c.value.references == []
  {
    FooterRoundTrip(text, t, x, tok, sep, spaced, v);
  }

  /** The words the footer examples share: the type 'foo', the subject 'summary' and the token 'Refs'. */
  lemma FooterHeaderWords()
    ensures TypeWord("foo") && LineWord("summary") && TokenWord("Refs")
  {
    FooWord("foo");
    RefsWord("Refs");
    SubjectWord("summary");
  }

  /** An issue value of the examples, with or without its '#', is all digits, and stripped it is the issue. */
  lemma IssueDigits(v: string, issue: string)
    requires issue == "34" && (v == issue || v == "#" + issue)
    ensures StripHash(v) == issue && AllDigits(issue)
  {
  }

  /** 'Refs' is a token word. */
  lemma RefsWord(tok: string)
    requires tok == "Refs"
    ensures TokenWord(tok)
  {
    assert All(TypeRun, tok[3..]);
    assert All(TypeRun, tok[2..]);
    assert All(TypeRun, tok);
  }

  /** The footer examples' text is a header, a blank line and the footer of their parts. */
  lemma FooterExampleLayout(text: string, sep: string, spaced: bool, v: string)
    requires (sep == " #" && !spaced && v == "34" && text == "foo: summary\n\nRefs #34")
      || (sep == ":" && spaced && v == "#34" && text == "foo: summary\n\nRefs: #34")
      || (sep == " #" && !spaced && v == "batman" && text == "foo: summary\n\nRefs #batman")
    ensures text == Header(Some("foo"), None, false, Some("summary")) + "\n\n" + ("Refs" + sep + (if spaced then " " else "") + v)
  {
    assert Header(Some("foo"), None, false, Some("summary")) == "foo: summary";
  }
}
