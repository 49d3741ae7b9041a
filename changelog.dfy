/**
 * lib/utils.js: toConventionalChangelogFormat, which flattens a commit's
 * syntax tree into the record conventional-changelog consumes.
 *
 * The source walks the tree with unist-util-visit and lets visitor callbacks
 * update the record. Here the walk is the explicit sequence `Preorder` of the
 * visits that library makes; ChangelogOf states the record declaratively
 * (the last node of a kind, whether some node has a kind, the joined body
 * lines), and the method ToConventionalChangelogFormat performs the
 * callbacks' updates step by step and is proved to produce it.
 */
module Changelog {
  import opened Wrappers
  import opened Syntax
  import opened Scanning

  /** One visitor call: the node and the kind of its parent (None for the root of the walk). */
  datatype Visit = Visit(node: Node, parent: Option<Kind>)

  /** The order in which unist-util-visit calls its visitor: a node, then the subtrees of its children left to right. */
  function Preorder(n: Node, parent: Option<Kind>): (vs: seq<Visit>)
    ensures |vs| >= 1 && vs[0] == Visit(n, parent)
    decreases n, 1
  {
    [Visit(n, parent)] + (if n.content.Children? then PreorderAll(n.content.children, n.kind) else [])
  }

  /** The walks of sibling subtrees, one after the other. */
  function PreorderAll(cs: seq<Node>, parent: Kind): seq<Visit>
    decreases cs, 0
  {
    if cs == [] then [] else Preorder(cs[0], Some(parent)) + PreorderAll(cs[1..], parent)
  }

  /** `node.value`: a leaf's value, undefined for a node with children. */
  function ValueOf(n: Node): Option<string> {
    if n.content.Leaf? then Some(n.content.value) else None
  }

  /** How a template literal renders a possibly undefined string. */
  function Render(s: Option<string>): string {
    if s.Some? then s.value else "undefined"
  }

  /** JavaScript truthiness of a possibly undefined string. */
  predicate Truthful(s: Option<string>) {
    s.Some? && s.value != ""
  }

  /** NUMBER_REGEX, /^[0-9]+$/: one or more ASCII digits and nothing else. */
  predicate AllDigits(s: string) {
    |s| >= 1 && forall i :: 0 <= i < |s| ==> '0' <= s[i] <= '9'
  }

  /** value.substring(1) when value.charAt(0) is '#', else value. */
  function StripHash(v: string): string {
    if |v| > 0 && v[0] == '#' then v[1..] else v
  }

  datatype Note = Note(title: string, text: Option<string>)

  /** A reference; owner, repository and raw are never set. */
  datatype Reference = Reference(prefix: string, action: Option<string>, issue: string)

  /**
   * The record returned: `commitType` is the record's `type` field. `body`,
   * `merge` and `revert` start as null; `commitType`, `scope` and `subject`
   * are undefined unless set (both are None here).
   */
  datatype Commit = Commit(
    commitType: Option<string>, scope: Option<string>, subject: Option<string>,
    header: string, body: Option<string>,
    notes: seq<Note>, references: seq<Reference>, mentions: seq<string>,
    merge: Option<string>, revert: Option<string>)

  /** The TypeErrors the function throws on trees the parser does not build. */
  datatype Fault =
    | NoSummary        // visit(undefined, ...) when the tree has no summary node
    | NoValue          // .includes / .charAt on a footer separator or text without a value
    | NoIssue          // .match on an undefined issue: a '#' separator but no text in the footer

  /** The node of the last visit of kind k, or `dflt` when there is none. */
  function LastNode(vs: seq<Visit>, k: Kind, dflt: Option<Node>): Option<Node>
    decreases |vs|
  {
    if vs == [] then dflt
    else LastNode(vs[1..], k, if vs[0].node.kind == k then Some(vs[0].node) else dflt)
  }

  /** The value of the last visit of kind k, or `dflt` when there is none. */
  function LastValue(vs: seq<Visit>, k: Kind, dflt: Option<string>): Option<string>
    decreases |vs|
  {
    if vs == [] then dflt
    else LastValue(vs[1..], k, if vs[0].node.kind == k then ValueOf(vs[0].node) else dflt)
  }

  /** Some visit is of kind k. */
  predicate HasKind(vs: seq<Visit>, k: Kind) {
    exists i :: 0 <= i < |vs| && vs[i].node.kind == k
  }

  /** The values of the text nodes whose parent is the body, in walk order. */
  function BodyLines(vs: seq<Visit>): seq<string>
    decreases |vs|
  {
    if vs == [] then []
    else
      var v := vs[0];
      (if v.node.kind == TextKind && v.parent == Some(BodyKind) then [Render(ValueOf(v.node))] else [])
      + BodyLines(vs[1..])
  }

  /** The lines with their leading empty ones removed. */
  function DropLeadingEmpty(lines: seq<string>): (r: seq<string>)
    ensures r == [] || r[0] != ""
    decreases |lines|
  {
    if lines == [] || lines[0] != "" then lines else DropLeadingEmpty(lines[1..])
  }

  /** The body field: null without a body node or when its lines join to the empty string. */
  function BodyOf(body: Option<Node>): Option<string> {
    if body.None? then None
    else
      var text := Join(DropLeadingEmpty(BodyLines(Preorder(body.value, None))), "\n");
      if text == "" then None else Some(text)
  }

  /** `${type}${scope ? `(${scope})` : ''}${breaking ? '!' : ''}: ${subject}` */
  function Header(commitType: Option<string>, scope: Option<string>, breaking: bool, subject: Option<string>): string {
    Render(commitType) + (if Truthful(scope) then "(" + scope.value + ")" else "")
    + (if breaking then "!" else "") + ": " + Render(subject)
  }

  /** A separator or text visit without a value, on which the footer visitor throws. */
  predicate Valueless(v: Visit) {
    (v.node.kind == SeparatorKind || v.node.kind == TextKind) && v.node.content.Children?
  }

  /** A separator containing '#' ("Refs #99") or a text starting with '#' ("Refs: #99"). */
  predicate HashMark(v: Visit) {
    v.node.content.Leaf?
    && ((v.node.kind == SeparatorKind && '#' in v.node.content.value)
        || (v.node.kind == TextKind && |v.node.content.value| > 0 && v.node.content.value[0] == '#'))
  }

  /** The reference one footer yields, if any (lib/utils.js:86-119). */
  function FooterReference(footer: Node): Result<Option<Reference>, Fault> {
    var vs := Preorder(footer, None);
    if exists i :: 0 <= i < |vs| && Valueless(vs[i]) then Err(NoValue)
    else if !(exists i :: 0 <= i < |vs| && HashMark(vs[i])) then Ok(None)
    else
      var text := LastValue(vs, TextKind, None);
      if text.None? then Err(NoIssue)
      else if AllDigits(StripHash(text.value)) then
        Ok(Some(Reference("#", LastValue(vs, TypeKind, None), StripHash(text.value))))
      else Ok(None)
  }

  /** The references of the footers among `vs`, appended to `acc` in walk order. */
  function References(vs: seq<Visit>, acc: seq<Reference>): Result<seq<Reference>, Fault>
    decreases |vs|
  {
    if vs == [] then Ok(acc)
    else if vs[0].node.kind != FooterKind then References(vs[1..], acc)
    else
      match FooterReference(vs[0].node)
      case Err(f) => Err(f)
      case Ok(None) => References(vs[1..], acc)
      case Ok(Some(r)) => References(vs[1..], acc + [r])
  }

  /** What the walk of the summary collects: the last type, scope and text values, and whether a breaking-change node occurs. */
  datatype Heading = Heading(commitType: Option<string>, scope: Option<string>, subject: Option<string>, breaking: bool)

  function HeadingOf(summary: Node): Heading {
    var fields := Preorder(summary, None);
    Heading(LastValue(fields, TypeKind, None), LastValue(fields, ScopeKind, None),
            LastValue(fields, TextKind, None), HasKind(fields, BreakingChangeKind))
  }

  /** The record toConventionalChangelogFormat returns for `ast`, or the error it throws. */
  function ChangelogOf(ast: Node): Result<Commit, Fault> {
    var walk := Preorder(ast, None);
    var summary := LastNode(walk, SummaryKind, None);
    if summary.None? then Err(NoSummary)
    else
      var h := HeadingOf(summary.value);
      var notes := if h.breaking then [Note("BREAKING CHANGE", h.subject)] else [];
      match References(walk, [])
      case Err(f) => Err(f)
      case Ok(refs) =>
        Ok(Commit(h.commitType, h.scope, h.subject, Header(h.commitType, h.scope, h.breaking, h.subject),
                  BodyOf(LastNode(walk, BodyKind, None)), notes, refs, [], None, None))
  }

  /**
   * toConventionalChangelogFormat(ast): one walk picks the last body and
   * summary nodes, a walk of the summary sets type, scope, subject and
   * breaking, a walk of the body joins its lines, and a walk per footer
   * decides its reference. Each walk is a method of its own below.
   */
  method ToConventionalChangelogFormat(ast: Node) returns (r: Result<Commit, Fault>)
    ensures r == ChangelogOf(ast)
  {
    var walk := Preorder(ast, None);
    var body, summary := FindSections(walk);
    if summary.None? {
      return Err(NoSummary);
    }
    var h := ReadSummary(summary.value);
    var header := Header(h.commitType, h.scope, h.breaking, h.subject);
    var bodyText: Option<string> := None;
    if body.Some? {
      var text := JoinBody(body.value);
      if text != "" {
        bodyText := Some(text);
      }
    }
    var notes: seq<Note> := [];
    if h.breaking {
      notes := notes + [Note("BREAKING CHANGE", h.subject)];
    }
    var refs := CollectReferences(walk);
    if refs.Err? {
      return Err(refs.error);
    }
    assert bodyText == BodyOf(body);
    assert notes == if h.breaking then [Note("BREAKING CHANGE", h.subject)] else [];
    r := Ok(Commit(h.commitType, h.scope, h.subject, header, bodyText, notes, refs.value, [], None, None));
  }

  /** visit(ast, ['body', 'summary'], ...): the last body node and the last summary node of the walk. */
  method FindSections(walk: seq<Visit>) returns (body: Option<Node>, summary: Option<Node>)
    ensures body == LastNode(walk, BodyKind, None)
    ensures summary == LastNode(walk, SummaryKind, None)
  {
    body, summary := None, None;
    var i := 0;
    while i < |walk|
      invariant 0 <= i <= |walk|
      invariant LastNode(walk[i..], BodyKind, body) == LastNode(walk, BodyKind, None)
      invariant LastNode(walk[i..], SummaryKind, summary) == LastNode(walk, SummaryKind, None)
    {
      var node := walk[i].node;
      if node.kind == BodyKind {
        body := Some(node);
      } else if node.kind == SummaryKind {
        summary := Some(node);
      }
      assert walk[i..][1..] == walk[i + 1..];
      i := i + 1;
    }
  }

  /** visit(summary, () => true, ...): type, scope and subject from the last such nodes; breaking if any breaking-change node. */
  method ReadSummary(summary: Node) returns (h: Heading)
    ensures h == HeadingOf(summary)
  {
    var fields := Preorder(summary, None);
    var commitType: Option<string> := None;
    var scope: Option<string> := None;
    var subject: Option<string> := None;
    var breaking := false;
    var i := 0;
    while i < |fields|
      invariant 0 <= i <= |fields|
      invariant LastValue(fields[i..], TypeKind, commitType) == LastValue(fields, TypeKind, None)
      invariant LastValue(fields[i..], ScopeKind, scope) == LastValue(fields, ScopeKind, None)
      invariant LastValue(fields[i..], TextKind, subject) == LastValue(fields, TextKind, None)
      invariant breaking == HasKind(fields[..i], BreakingChangeKind)
    {
      var node := fields[i].node;
      if node.kind == TypeKind {
        commitType := ValueOf(node);
      } else if node.kind == ScopeKind {
        scope := ValueOf(node);
      } else if node.kind == TextKind {
        subject := ValueOf(node);
      } else if node.kind == BreakingChangeKind {
        breaking := true;
      }
      assert fields[i..][1..] == fields[i + 1..];
      assert fields[..i + 1] == fields[..i] + [fields[i]];
      i := i + 1;
    }
    assert fields[..i] == fields;
    h := Heading(commitType, scope, subject, breaking);
  }

  /** visit(body, 'text', ...): the text children of the body, "\n" put before each once the text is non-empty. */
  method JoinBody(body: Node) returns (text: string)
    ensures text == Join(DropLeadingEmpty(BodyLines(Preorder(body, None))), "\n")
  {
    var lines := Preorder(body, None);
    text := "";
    var i := 0;
    while i < |lines|
      invariant 0 <= i <= |lines|
      invariant text == Join(DropLeadingEmpty(BodyLines(lines[..i])), "\n")
    {
      BodyLinesSnoc(lines[..i], lines[i]);
      assert lines[..i + 1] == lines[..i] + [lines[i]];
      if lines[i].node.kind == TextKind && lines[i].parent == Some(BodyKind) {
        var line := Render(ValueOf(lines[i].node));
        assert BodyLines(lines[..i + 1]) == BodyLines(lines[..i]) + [line];
        JoinAppendsLine(BodyLines(lines[..i]), line);
        if text != "" {
          text := text + "\n";
        }
        text := text + line;
      } else {
        assert BodyLines(lines[..i + 1]) == BodyLines(lines[..i]);
      }
      i := i + 1;
    }
    assert lines[..i] == lines;
  }

  /** The footer visitor (lib/utils.js:86-119): walk the footer for its action, issue and '#' mark. */
  method FooterRef(footer: Node) returns (r: Result<Option<Reference>, Fault>)
    ensures r == FooterReference(footer)
  {
    var marks := Preorder(footer, None);
    var action: Option<string> := None;
    var issue: Option<string> := None;
    ghost var text: Option<string> := None;
    var hasRef := false;
    var j := 0;
    while j < |marks|
      invariant 0 <= j <= |marks|
      invariant forall k :: 0 <= k < j ==> !Valueless(marks[k])
      invariant hasRef <==> exists k :: 0 <= k < j && HashMark(marks[k])
      invariant LastValue(marks[j..], TypeKind, action) == LastValue(marks, TypeKind, None)
      invariant LastValue(marks[j..], TextKind, text) == LastValue(marks, TextKind, None)
      invariant issue == if text.Some? then Some(StripHash(text.value)) else None
    {
      var m := marks[j].node;
      if m.kind == TypeKind {
        action := ValueOf(m);
      } else if m.kind == SeparatorKind {
        if m.content.Children? {
          assert Valueless(marks[j]);
          return Err(NoValue);
        }
        if '#' in m.content.value {
          hasRef := true;
        }
      } else if m.kind == TextKind {
        if m.content.Children? {
          assert Valueless(marks[j]);
          return Err(NoValue);
        }
        var v := m.content.value;
        if |v| > 0 && v[0] == '#' {
          hasRef := true;
          issue := Some(v[1..]);
        } else {
          issue := Some(v);
        }
        text := Some(v);
      }
      assert marks[j..][1..] == marks[j + 1..];
      j := j + 1;
    }
    r := Ok(None);
    if hasRef {
      if issue.None? {
        return Err(NoIssue);
      }
      if AllDigits(issue.value) {
        r := Ok(Some(Reference("#", action, issue.value)));
      }
    }
  }

  /** visit(ast, ['footer'], ...): the references of the footers, in walk order. */
  method CollectReferences(walk: seq<Visit>) returns (r: Result<seq<Reference>, Fault>)
    ensures r == References(walk, [])
  {
    var refs: seq<Reference> := [];
    var i := 0;
    while i < |walk|
      invariant 0 <= i <= |walk|
      invariant References(walk[i..], refs) == References(walk, [])
    {
      var node := walk[i].node;
      if node.kind == FooterKind {
        var ref := FooterRef(node);
        if ref.Err? {
          return Err(ref.error);
        }
        if ref.value.Some? {
          refs := refs + [ref.value.value];
        }
      }
      assert walk[i..][1..] == walk[i + 1..];
      i := i + 1;
    }
    r := Ok(refs);
  }

  /** Array.prototype.join over one more element adds the separator and the element. */
  lemma {:induction false} JoinSnoc(ys: seq<string>, v: string, sep: string)
    requires ys != []
    ensures Join(ys + [v], sep) == Join(ys, sep) + sep + v
    decreases |ys|
  {
    if |ys| > 1 {
      JoinSnoc(ys[1..], v, sep);
      assert (ys + [v])[1..] == ys[1..] + [v];
    }
  }

  /** Dropping leading empty lines commutes with appending a line, unless all lines so far were empty. */
  lemma {:induction false} DropLeadingEmptySnoc(xs: seq<string>, v: string)
    ensures DropLeadingEmpty(xs + [v])
      == if DropLeadingEmpty(xs) == [] then (if v == "" then [] else [v]) else DropLeadingEmpty(xs) + [v]
    decreases |xs|
  {
    if xs != [] {
      assert (xs + [v])[1..] == xs[1..] + [v];
      if xs[0] == "" {
        DropLeadingEmptySnoc(xs[1..], v);
      }
    }
  }

  /** The body lines of a longer walk. */
  lemma {:induction false} BodyLinesSnoc(vs: seq<Visit>, v: Visit)
    ensures BodyLines(vs + [v])
      == BodyLines(vs) + (if v.node.kind == TextKind && v.parent == Some(BodyKind) then [Render(ValueOf(v.node))] else [])
    decreases |vs|
  {
    if vs != [] {
      assert (vs + [v])[1..] == vs[1..] + [v];
      BodyLinesSnoc(vs[1..], v);
    }
  }

  /**
   * The body visitor's step (lib/utils.js:61-62): appending "\n" before a
   * line only once the text is non-empty builds the lines, leading empty ones
   * dropped, joined with "\n".
   */
  lemma JoinAppendsLine(lines: seq<string>, v: string)
    ensures var text := Join(DropLeadingEmpty(lines), "\n");
      Join(DropLeadingEmpty(lines + [v]), "\n") == (if text != "" then text + "\n" else text) + v
  {
    DropLeadingEmptySnoc(lines, v);
    var ys := DropLeadingEmpty(lines);
    if ys != [] {
      JoinSnoc(ys, v, "\n");
      assert Join(ys, "\n") != "" by {
        if |ys| > 1 {
          assert Join(ys, "\n") == ys[0] + "\n" + Join(ys[1..], "\n");
        }
      }
    }
  }
}

/**
 * Properties of the record ChangelogOf describes: what "last" and "some"
 * mean for the folds, when the body is null, that footers do not reach the
 * heading, the order of references, and the records of the projector's
 * example commits.
 */
module ChangelogProofs {
  import opened Wrappers
  import opened Syntax
  import opened Scanning
  import opened Changelog

  /** Visit i is of kind k and no later visit is. */
  ghost predicate IsLastOf(vs: seq<Visit>, k: Kind, i: int) {
    0 <= i < |vs| && vs[i].node.kind == k && forall j :: i < j < |vs| ==> vs[j].node.kind != k
  }

  /** A sequence whose first visit and tail hold no visit of kind k holds none. */
  lemma NoKindAfterHead(vs: seq<Visit>, k: Kind)
    requires vs != [] && vs[0].node.kind != k && !HasKind(vs[1..], k)
    ensures !HasKind(vs, k)
  {
    forall i | 0 <= i < |vs|
      ensures vs[i].node.kind != k
    {
      if i > 0 {
        assert vs[i] == vs[1..][i - 1];
      }
    }
  }

  /** The last-value fold gives the value of the last visit of the kind, or the default when there is none. */
  lemma {:induction false} LastValueIsLast(vs: seq<Visit>, k: Kind, dflt: Option<string>)
    ensures !HasKind(vs, k) ==> LastValue(vs, k, dflt) == dflt
    ensures HasKind(vs, k) ==> exists i :: IsLastOf(vs, k, i) && LastValue(vs, k, dflt) == ValueOf(vs[i].node)
    decreases |vs|
  {
    if vs != [] {
      var d := if vs[0].node.kind == k then ValueOf(vs[0].node) else dflt;
      LastValueIsLast(vs[1..], k, d);
      if HasKind(vs[1..], k) {
        var i :| IsLastOf(vs[1..], k, i) && LastValue(vs[1..], k, d) == ValueOf(vs[1..][i].node);
        assert IsLastOf(vs, k, i + 1);
      } else if vs[0].node.kind == k {
        assert IsLastOf(vs, k, 0);
      } else {
        NoKindAfterHead(vs, k);
      }
    }
  }

  /** The last-node fold gives the node of the last visit of the kind, or the default when there is none. */
  lemma {:induction false} LastNodeIsLast(vs: seq<Visit>, k: Kind, dflt: Option<Node>)
    ensures !HasKind(vs, k) ==> LastNode(vs, k, dflt) == dflt
    ensures HasKind(vs, k) ==> exists i :: IsLastOf(vs, k, i) && LastNode(vs, k, dflt) == Some(vs[i].node)
    decreases |vs|
  {
    if vs != [] {
      var d := if vs[0].node.kind == k then Some(vs[0].node) else dflt;
      LastNodeIsLast(vs[1..], k, d);
      if HasKind(vs[1..], k) {
        var i :| IsLastOf(vs[1..], k, i) && LastNode(vs[1..], k, d) == Some(vs[1..][i].node);
        assert IsLastOf(vs, k, i + 1);
      } else if vs[0].node.kind == k {
        assert IsLastOf(vs, k, 0);
      } else {
        NoKindAfterHead(vs, k);
      }
    }
  }

  /** Leading empty lines are all there is exactly when every line is empty. */
  lemma {:induction false} DropLeadingEmptyNil(lines: seq<string>)
    ensures DropLeadingEmpty(lines) == [] <==> forall i :: 0 <= i < |lines| ==> lines[i] == ""
    decreases |lines|
  {
    if lines != [] && lines[0] == "" {
      DropLeadingEmptyNil(lines[1..]);
      assert forall i :: 0 < i < |lines| ==> lines[i] == lines[1..][i - 1];
    }
  }

  /** The body is null exactly when there is no body node or every text line of the body is empty. */
  lemma BodyNullIff(body: Option<Node>)
    ensures BodyOf(body) == None
      <==> body.None? || forall i :: 0 <= i < |BodyLines(Preorder(body.value, None))| ==> BodyLines(Preorder(body.value, None))[i] == ""
  {
    if body.Some? {
      var lines := BodyLines(Preorder(body.value, None));
      DropLeadingEmptyNil(lines);
      var ys := DropLeadingEmpty(lines);
      assert BodyOf(body) == if Join(ys, "\n") == "" then None else Some(Join(ys, "\n"));
      if ys != [] {
        assert |Join(ys, "\n")| >= |ys[0]| > 0 by {
          if |ys| > 1 {
            assert Join(ys, "\n") == ys[0] + "\n" + Join(ys[1..], "\n");
          }
        }
      }
    }
  }

  lemma {:induction false} PreorderAllConcat(cs: seq<Node>, ds: seq<Node>, k: Kind)
    ensures PreorderAll(cs + ds, k) == PreorderAll(cs, k) + PreorderAll(ds, k)
    decreases |cs|
  {
    if cs == [] {
      assert cs + ds == ds;
    } else {
      assert (cs + ds)[1..] == cs[1..] + ds;
      PreorderAllConcat(cs[1..], ds, k);
    }
  }

  lemma {:induction false} LastNodeConcat(vs: seq<Visit>, ws: seq<Visit>, k: Kind, dflt: Option<Node>)
    requires !HasKind(ws, k)
    ensures LastNode(vs + ws, k, dflt) == LastNode(vs, k, dflt)
    decreases |vs|
  {
    if vs == [] {
      assert vs + ws == ws;
      LastNodeIsLast(ws, k, dflt);
    } else {
      assert (vs + ws)[1..] == vs[1..] + ws;
      LastNodeConcat(vs[1..], ws, k, if vs[0].node.kind == k then Some(vs[0].node) else dflt);
    }
  }

  /** The references of two walks in a row: those of the first, then those of the second. */
  lemma {:induction false} ReferencesConcat(vs: seq<Visit>, ws: seq<Visit>, acc: seq<Reference>)
    ensures References(vs + ws, acc)
      == match References(vs, acc) case Err(f) => Err(f) case Ok(rs) => References(ws, rs)
    decreases |vs|
  {
    if vs == [] {
      assert vs + ws == ws;
    } else {
      assert (vs + ws)[1..] == vs[1..] + ws;
      if vs[0].node.kind != FooterKind {
        ReferencesConcat(vs[1..], ws, acc);
      } else {
        match FooterReference(vs[0].node)
        case Err(f) =>
        case Ok(None) => ReferencesConcat(vs[1..], ws, acc);
        case Ok(Some(r)) => ReferencesConcat(vs[1..], ws, acc + [r]);
      }
    }
  }

  /** The references found so far stay in front of those found later. */
  lemma {:induction false} ReferencesKeepOrder(vs: seq<Visit>, acc: seq<Reference>)
    ensures References(vs, acc).Err? <==> References(vs, []).Err?
    ensures References(vs, acc).Err? ==> References(vs, acc) == References(vs, [])
    ensures References(vs, acc).Ok? ==> References(vs, acc).value == acc + References(vs, []).value
    decreases |vs|
  {
    if vs != [] {
      if vs[0].node.kind != FooterKind {
        ReferencesKeepOrder(vs[1..], acc);
      } else {
        match FooterReference(vs[0].node)
        case Err(f) =>
        case Ok(None) => ReferencesKeepOrder(vs[1..], acc);
        case Ok(Some(r)) =>
          ReferencesKeepOrder(vs[1..], acc + [r]);
          ReferencesKeepOrder(vs[1..], [r]);
          assert [] + [r] == [r];
      }
    }
  }

  /**
   * Type, scope and subject come from the summary alone: subtrees without a
   * summary node appended to a message (its body and footers) leave the
   * summary the projector reads, and so the heading and notes, unchanged, and
   * only add references after the ones already there.
   */
  lemma FootersLeaveHeading(cs: seq<Node>, fs: seq<Node>, a: Pos, b: Pos)
    requires !HasKind(PreorderAll(fs, MessageKind), SummaryKind)
    ensures var whole := Node(MessageKind, Children(cs + fs), a, b);
      var part := Node(MessageKind, Children(cs), a, b);
      LastNode(Preorder(whole, None), SummaryKind, None) == LastNode(Preorder(part, None), SummaryKind, None)
      && (ChangelogOf(whole).Ok? && ChangelogOf(part).Ok? ==>
            var c1 := ChangelogOf(whole).value;
            var c2 := ChangelogOf(part).value;
            c1.commitType == c2.commitType && c1.scope == c2.scope && c1.subject == c2.subject
            && c1.header == c2.header && c1.notes == c2.notes && c2.references <= c1.references)
  {
    var whole := Node(MessageKind, Children(cs + fs), a, b);
    var part := Node(MessageKind, Children(cs), a, b);
    var xs := PreorderAll(cs, MessageKind);
    var ys := PreorderAll(fs, MessageKind);
    PreorderAllConcat(cs, fs, MessageKind);
    assert Preorder(whole, None) == [Visit(whole, None)] + xs + ys;
    assert Preorder(part, None) == [Visit(part, None)] + xs;
    LastNodeConcat(xs, ys, SummaryKind, None);
    assert Preorder(whole, None)[1..] == xs + ys;
    assert Preorder(part, None)[1..] == xs;
    ReferencesConcat(xs, ys, []);
    match References(xs, [])
    case Err(f) =>
    case Ok(rs) => ReferencesKeepOrder(ys, rs);
  }

  // ---------------------------------------------------------------------
  // The record reads no positions.
  // ---------------------------------------------------------------------

  /** The walk with every visited node's positions erased. */
  function EraseVisits(vs: seq<Visit>): seq<Visit> {
    seq(|vs|, i requires 0 <= i < |vs| => Visit(Erase(vs[i].node), vs[i].parent))
  }

  lemma EraseVisitsConcat(vs: seq<Visit>, ws: seq<Visit>)
    ensures EraseVisits(vs + ws) == EraseVisits(vs) + EraseVisits(ws)
  {
  }

  lemma EraseVisitsTail(vs: seq<Visit>)
    requires vs != []
    ensures EraseVisits(vs)[1..] == EraseVisits(vs[1..])
  {
  }

  /** Walking an erased tree visits the erased nodes of the original walk. */
  lemma {:induction false} PreorderErase(n: Node, parent: Option<Kind>)
    ensures Preorder(Erase(n), parent) == EraseVisits(Preorder(n, parent))
    decreases n, 1
  {
    match n.content {
      case Leaf(v) =>
      case Children(cs) =>
        PreorderAllErase(cs, n.kind);
        EraseVisitsConcat([Visit(n, parent)], PreorderAll(cs, n.kind));
    }
  }

  lemma {:induction false} PreorderAllErase(cs: seq<Node>, k: Kind)
    ensures PreorderAll(EraseAll(cs), k) == EraseVisits(PreorderAll(cs, k))
    decreases cs, 0
  {
    if cs != [] {
      assert EraseAll(cs)[1..] == EraseAll(cs[1..]);
      PreorderErase(cs[0], Some(k));
      PreorderAllErase(cs[1..], k);
      EraseVisitsConcat(Preorder(cs[0], Some(k)), PreorderAll(cs[1..], k));
    }
  }

  /** Erasing positions commutes with picking the last node of a kind. */
  lemma {:induction false} LastNodeErase(vs: seq<Visit>, k: Kind, dflt: Option<Node>)
    ensures LastNode(EraseVisits(vs), k, if dflt.Some? then Some(Erase(dflt.value)) else None)
      == if LastNode(vs, k, dflt).Some? then Some(Erase(LastNode(vs, k, dflt).value)) else None
    decreases |vs|
  {
    if vs != [] {
      EraseVisitsTail(vs);
      LastNodeErase(vs[1..], k, if vs[0].node.kind == k then Some(vs[0].node) else dflt);
    }
  }

  /** Values are untouched by erasing positions. */
  lemma {:induction false} LastValueErase(vs: seq<Visit>, k: Kind, dflt: Option<string>)
    ensures LastValue(EraseVisits(vs), k, dflt) == LastValue(vs, k, dflt)
    decreases |vs|
  {
    if vs != [] {
      EraseVisitsTail(vs);
      LastValueErase(vs[1..], k, if vs[0].node.kind == k then ValueOf(vs[0].node) else dflt);
    }
  }

  lemma {:induction false} BodyLinesErase(vs: seq<Visit>)
    ensures BodyLines(EraseVisits(vs)) == BodyLines(vs)
    decreases |vs|
  {
    if vs != [] {
      EraseVisitsTail(vs);
      BodyLinesErase(vs[1..]);
    }
  }

  /** The heading of a summary does not depend on positions. */
  lemma HeadingErase(summary: Node)
    ensures HeadingOf(Erase(summary)) == HeadingOf(summary)
  {
    var vs := Preorder(summary, None);
    PreorderErase(summary, None);
    LastValueErase(vs, TypeKind, None);
    LastValueErase(vs, ScopeKind, None);
    LastValueErase(vs, TextKind, None);
    HasKindErase(vs, BreakingChangeKind);
  }

  /** Erasing positions keeps the kinds a walk holds. */
  lemma HasKindErase(vs: seq<Visit>, k: Kind)
    ensures HasKind(EraseVisits(vs), k) == HasKind(vs, k)
  {
    if HasKind(vs, k) {
      var i :| 0 <= i < |vs| && vs[i].node.kind == k;
      assert EraseVisits(vs)[i].node.kind == k;
    }
  }

  /** Nor does the reference of a footer. */
  lemma FooterReferenceErase(footer: Node)
    ensures FooterReference(Erase(footer)) == FooterReference(footer)
  {
    var vs := Preorder(footer, None);
    PreorderErase(footer, None);
    var ws := EraseVisits(vs);
    assert forall i :: 0 <= i < |vs| ==> (Valueless(ws[i]) <==> Valueless(vs[i])) && (HashMark(ws[i]) <==> HashMark(vs[i]));
    LastValueErase(vs, TextKind, None);
    LastValueErase(vs, TypeKind, None);
  }

  lemma {:induction false} ReferencesErase(vs: seq<Visit>, acc: seq<Reference>)
    ensures References(EraseVisits(vs), acc) == References(vs, acc)
    decreases |vs|
  {
    if vs != [] {
      EraseVisitsTail(vs);
      FooterReferenceErase(vs[0].node);
      if vs[0].node.kind != FooterKind {
        ReferencesErase(vs[1..], acc);
      } else {
        match FooterReference(vs[0].node) {
          case Err(f) =>
          case Ok(None) => ReferencesErase(vs[1..], acc);
          case Ok(Some(r)) => ReferencesErase(vs[1..], acc + [r]);
        }
      }
    }
  }

  /**
   * The record toConventionalChangelogFormat builds reads kinds and values
   * only: a tree with its positions erased gives the same record, or the
   * same error.
   */
  lemma ChangelogErase(ast: Node)
    ensures ChangelogOf(Erase(ast)) == ChangelogOf(ast)
  {
    var walk := Preorder(ast, None);
    PreorderErase(ast, None);
    LastNodeErase(walk, SummaryKind, None);
    LastNodeErase(walk, BodyKind, None);
    ReferencesErase(walk, []);
    var summary := LastNode(walk, SummaryKind, None);
    if summary.Some? {
      HeadingErase(summary.value);
    }
    var body := LastNode(walk, BodyKind, None);
    if body.Some? {
      PreorderErase(body.value, None);
      BodyLinesErase(Preorder(body.value, None));
    }
  }

  /** A leaf node, positions left at the origin. */
  function Lf(k: Kind, v: string): Node {
    Node(k, Leaf(v), Origin, Origin)
  }

  /** A node with children, positions left at the origin. */
  function Br(k: Kind, cs: seq<Node>): Node {
    Node(k, Children(cs), Origin, Origin)
  }

  /** The children the parser gives the summary of `<type>[(<scope>)][!]: <subject>`. */
  function SummaryKids(t: string, scope: Option<string>, marked: bool, x: string): seq<Node> {
    var sep := [Lf(SeparatorKind, ":"), Lf(WhitespaceKind, " "), Lf(TextKind, x)];
    if scope.Some? && marked then [Lf(TypeKind, t), Lf(ScopeKind, scope.value), Lf(BreakingChangeKind, "!")] + sep
    else if scope.Some? then [Lf(TypeKind, t), Lf(ScopeKind, scope.value)] + sep
    else if marked then [Lf(TypeKind, t), Lf(BreakingChangeKind, "!")] + sep
    else [Lf(TypeKind, t)] + sep
  }

  function SummaryNode(t: string, scope: Option<string>, marked: bool, x: string): Node {
    Br(SummaryKind, SummaryKids(t, scope, marked, x))
  }

  /** The fold's value when visit i is the last of its kind. */
  lemma LastValueAt(vs: seq<Visit>, k: Kind, dflt: Option<string>, i: int)
    requires IsLastOf(vs, k, i)
    ensures LastValue(vs, k, dflt) == ValueOf(vs[i].node)
  {
    LastValueIsLast(vs, k, dflt);
    var j :| IsLastOf(vs, k, j) && LastValue(vs, k, dflt) == ValueOf(vs[j].node);
    assert vs[i].node.kind == k && vs[j].node.kind == k;
    assert i == j;
  }

  /** The walk of a node whose children are all leaves: the node, then each child once, in order. */
  lemma FlatWalk(k: Kind, cs: seq<Node>, parent: Option<Kind>)
    requires forall i :: 0 <= i < |cs| ==> cs[i].content.Leaf?
    ensures var walk := Preorder(Br(k, cs), parent);
      |walk| == |cs| + 1 && walk[0].node == Br(k, cs) && walk[0] == Visit(Br(k, cs), parent)
      && forall i :: 0 <= i < |cs| ==> walk[i + 1].node == cs[i] && walk[i + 1] == Visit(cs[i], Some(k))
  {
    PreorderAllLeaves(cs, k);
  }

  /** The heading a summary yields: its own type, scope and text values, and breaking exactly when it has the '!'. */
  lemma SummaryHeading(t: string, scope: Option<string>, marked: bool, x: string)
    ensures HeadingOf(SummaryNode(t, scope, marked, x)) == Heading(Some(t), scope, Some(x), marked)
  {
    var kids := SummaryKids(t, scope, marked, x);
    var walk := Preorder(SummaryNode(t, scope, marked, x), None);
    var n := |kids|;
    SummaryWalkShape(t, scope, marked, x);
    assert IsLastOf(walk, TypeKind, 1);
    LastValueAt(walk, TypeKind, None, 1);
    assert IsLastOf(walk, TextKind, n);
    LastValueAt(walk, TextKind, None, n);
    if scope.Some? {
      assert IsLastOf(walk, ScopeKind, 2);
      LastValueAt(walk, ScopeKind, None, 2);
    } else {
      LastValueIsLast(walk, ScopeKind, None);
    }
  }

  /**
   * Where each kind sits in the walk of a summary: the type first, the scope
   * second when there is one, the text last, and a '!' only when marked.
   */
  lemma SummaryWalkShape(t: string, scope: Option<string>, marked: bool, x: string)
    ensures var kids := SummaryKids(t, scope, marked, x);
      var walk := Preorder(SummaryNode(t, scope, marked, x), None);
      var n := |kids|;
      |walk| == n + 1 && n >= 4
      && walk[1].node == Lf(TypeKind, t) && walk[n].node == Lf(TextKind, x)
      && (scope.Some? ==> walk[2].node == Lf(ScopeKind, scope.value))
      && (marked ==> walk[n - 3].node == Lf(BreakingChangeKind, "!"))
      && walk[0].node.kind == SummaryKind
      && forall j | 2 <= j <= n ::
        walk[j].node.kind != TypeKind && (j < n ==> walk[j].node.kind != TextKind)
        && (walk[j].node.kind == ScopeKind ==> j == 2 && scope.Some?)
        && (walk[j].node.kind == BreakingChangeKind ==> marked)
  {
    var kids := SummaryKids(t, scope, marked, x);
    var walk := Preorder(SummaryNode(t, scope, marked, x), None);
    var n := |kids|;
    FlatWalk(SummaryKind, kids, None);
    forall j | 2 <= j <= n
      ensures walk[j].node.kind != TypeKind && (j < n ==> walk[j].node.kind != TextKind)
      ensures walk[j].node.kind == ScopeKind ==> j == 2 && scope.Some?
      ensures walk[j].node.kind == BreakingChangeKind ==> marked
    {
      assert walk[j].node == kids[j - 1];
      if j - 1 >= n - 3 {
        assert kids[j - 1] == [Lf(SeparatorKind, ":"), Lf(WhitespaceKind, " "), Lf(TextKind, x)][j - 1 - (n - 3)];
      }
    }
    assert walk[1].node == kids[0];
    assert walk[n].node == kids[n - 1] == Lf(TextKind, x);
    if scope.Some? {
      assert walk[2].node == kids[1] == Lf(ScopeKind, scope.value);
    }
    if marked {
      assert walk[n - 3].node == kids[n - 4] == Lf(BreakingChangeKind, "!");
    }
  }

  /** The last-value fold over two walks in a row. */
  lemma {:induction false} LastValueConcat(vs: seq<Visit>, ws: seq<Visit>, k: Kind, dflt: Option<string>)
    ensures LastValue(vs + ws, k, dflt) == LastValue(ws, k, LastValue(vs, k, dflt))
    decreases |vs|
  {
    if vs == [] {
      assert vs + ws == ws;
    } else {
      assert (vs + ws)[1..] == vs[1..] + ws;
      LastValueConcat(vs[1..], ws, k, if vs[0].node.kind == k then ValueOf(vs[0].node) else dflt);
    }
  }

  /** The walk of leaves visits each leaf once, in order. */
  lemma {:induction false} PreorderAllLeaves(cs: seq<Node>, k: Kind)
    requires forall i :: 0 <= i < |cs| ==> cs[i].content.Leaf?
    ensures |PreorderAll(cs, k)| == |cs|
    ensures forall i :: 0 <= i < |cs| ==> PreorderAll(cs, k)[i] == Visit(cs[i], Some(k))
    decreases |cs|
  {
    if cs != [] {
      PreorderAllLeaves(cs[1..], k);
    }
  }

  lemma PreorderLeaf(n: Node, parent: Option<Kind>)
    requires n.content.Leaf?
    ensures Preorder(n, parent) == [Visit(n, parent)]
  {
  }

  lemma PreorderAllSingle(c: Node, k: Kind)
    ensures PreorderAll([c], k) == Preorder(c, Some(k))
  {
    assert [c][1..] == [];
  }

  lemma PreorderAllCons(c: Node, cs: seq<Node>, k: Kind)
    ensures PreorderAll([c] + cs, k) == Preorder(c, Some(k)) + PreorderAll(cs, k)
  {
    assert ([c] + cs)[1..] == cs;
  }

  /** The walk of a node with one leaf child: the node, then the child. */
  lemma PreorderSingle(k: Kind, c: Node, parent: Option<Kind>)
    requires c.content.Leaf?
    ensures Preorder(Br(k, [c]), parent) == [Visit(Br(k, [c]), parent), Visit(c, Some(k))]
  {
    assert [c][1..] == [];
    assert PreorderAll([c], k) == Preorder(c, Some(k)) + PreorderAll([], k);
  }

  /** The footer the parser builds for `<tok><sep>[ ]<v>`, with a one-line value. */
  function FooterNode(tok: string, sep: string, spaced: bool, v: string): Node {
    Br(FooterKind,
       [Br(TokenKind, [Lf(TypeKind, tok)]), Lf(SeparatorKind, sep)]
       + (if spaced then [Lf(WhitespaceKind, " ")] else [])
       + [Br(ValueKind, [Lf(TextKind, v)])])
  }

  /** The walk of such a footer: footer, token, type, separator, whitespace if any, value, text. */
  lemma FooterWalk(tok: string, sep: string, spaced: bool, v: string, parent: Option<Kind>)
    ensures Preorder(FooterNode(tok, sep, spaced, v), parent)
      == [Visit(FooterNode(tok, sep, spaced, v), parent), Visit(Br(TokenKind, [Lf(TypeKind, tok)]), Some(FooterKind)),
          Visit(Lf(TypeKind, tok), Some(TokenKind)), Visit(Lf(SeparatorKind, sep), Some(FooterKind))]
         + (if spaced then [Visit(Lf(WhitespaceKind, " "), Some(FooterKind))] else [])
         + [Visit(Br(ValueKind, [Lf(TextKind, v)]), Some(FooterKind)), Visit(Lf(TextKind, v), Some(ValueKind))]
  {
    var token := Br(TokenKind, [Lf(TypeKind, tok)]);
    var value := Br(ValueKind, [Lf(TextKind, v)]);
    var ws: seq<Node> := if spaced then [Lf(WhitespaceKind, " ")] else [];
    PreorderSingle(TokenKind, Lf(TypeKind, tok), Some(FooterKind));
    PreorderSingle(ValueKind, Lf(TextKind, v), Some(FooterKind));
    var kids := [token, Lf(SeparatorKind, sep)] + ws + [value];
    assert kids == [token] + ([Lf(SeparatorKind, sep)] + (ws + [value]));
    PreorderAllCons(token, [Lf(SeparatorKind, sep)] + (ws + [value]), FooterKind);
    PreorderAllCons(Lf(SeparatorKind, sep), ws + [value], FooterKind);
    PreorderAllConcat(ws, [value], FooterKind);
    PreorderAllCons(value, [], FooterKind);
    if spaced {
      PreorderAllCons(Lf(WhitespaceKind, " "), [], FooterKind);
    }
  }

  /** What the footer visitor meets along such a footer's walk. */
  lemma FooterFacts(tok: string, sep: string, spaced: bool, v: string)
    ensures var walk := Preorder(FooterNode(tok, sep, spaced, v), None);
      var n := |walk|;
      n >= 6 && walk[2].node == Lf(TypeKind, tok) && walk[3].node == Lf(SeparatorKind, sep)
      && walk[n - 1].node == Lf(TextKind, v)
      && forall j :: 0 <= j < n ==>
           !Valueless(walk[j])
           && (walk[j].node.kind == TextKind ==> j == n - 1)
           && (walk[j].node.kind == TypeKind ==> j == 2)
           && (HashMark(walk[j]) ==> j == 3 || j == n - 1)
  {
    FooterWalk(tok, sep, spaced, v, None);
  }

  /**
   * The reference of a one-line footer (lib/utils.js:86-119): there is one
   * exactly when the separator contains '#' or the value starts with '#', and
   * the value without that '#' is all digits; its action is the token's type.
   */
  lemma FooterReferenceOf(tok: string, sep: string, spaced: bool, v: string)
    ensures FooterReference(FooterNode(tok, sep, spaced, v))
      == if ('#' in sep || (|v| > 0 && v[0] == '#')) && AllDigits(StripHash(v))
         then Ok(Some(Reference("#", Some(tok), StripHash(v)))) else Ok(None)
  {
    var walk := Preorder(FooterNode(tok, sep, spaced, v), None);
    FooterFacts(tok, sep, spaced, v);
    var n := |walk|;
    assert IsLastOf(walk, TextKind, n - 1);
    LastValueAt(walk, TextKind, None, n - 1);
    assert IsLastOf(walk, TypeKind, 2);
    LastValueAt(walk, TypeKind, None, 2);
    if '#' in sep {
      assert HashMark(walk[3]);
    } else if |v| > 0 && v[0] == '#' {
      assert HashMark(walk[n - 1]);
    } else {
      assert !HashMark(walk[3]) && !HashMark(walk[n - 1]);
    }
  }

  /** Below the summary node, its walk meets only leaf kinds: no summary, body or footer. */
  lemma SummaryWalkKinds(t: string, scope: Option<string>, marked: bool, x: string, parent: Option<Kind>)
    ensures var sw := Preorder(SummaryNode(t, scope, marked, x), parent);
      sw[0].node == SummaryNode(t, scope, marked, x)
      && forall j :: 1 <= j < |sw| ==> IsLeafKind(sw[j].node.kind)
  {
    var kids := SummaryKids(t, scope, marked, x);
    var sw := Preorder(SummaryNode(t, scope, marked, x), parent);
    var n := |kids|;
    FlatWalk(SummaryKind, kids, parent);
    forall j | 1 <= j < |sw|
      ensures IsLeafKind(sw[j].node.kind)
    {
      assert sw[j].node == kids[j - 1];
      if j - 1 >= n - 3 {
        assert kids[j - 1] == [Lf(SeparatorKind, ":"), Lf(WhitespaceKind, " "), Lf(TextKind, x)][j - 1 - (n - 3)];
      }
    }
  }

  /** A walk without footers adds no references. */
  lemma {:induction false} ReferencesNone(vs: seq<Visit>, acc: seq<Reference>)
    requires !HasKind(vs, FooterKind)
    ensures References(vs, acc) == Ok(acc)
    decreases |vs|
  {
    if vs != [] {
      assert vs[0].node.kind != FooterKind;
      assert !HasKind(vs[1..], FooterKind) by {
        forall i | 0 <= i < |vs[1..]|
          ensures vs[1..][i].node.kind != FooterKind
        {
          assert vs[1..][i] == vs[i + 1];
        }
      }
      ReferencesNone(vs[1..], acc);
    }
  }

  /** The last-node fold over two walks in a row. */
  lemma {:induction false} LastNodeSplit(vs: seq<Visit>, ws: seq<Visit>, k: Kind, dflt: Option<Node>)
    ensures LastNode(vs + ws, k, dflt) == LastNode(ws, k, LastNode(vs, k, dflt))
    decreases |vs|
  {
    if vs == [] {
      assert vs + ws == ws;
    } else {
      assert (vs + ws)[1..] == vs[1..] + ws;
      LastNodeSplit(vs[1..], ws, k, if vs[0].node.kind == k then Some(vs[0].node) else dflt);
    }
  }

  /**
   * The record of a message whose first child is a summary and whose other
   * children hold no summary node: type, scope and subject are the summary's,
   * the header recombines them, the body and the references come from the
   * other children.
   */
  lemma MessageRecord(t: string, scope: Option<string>, marked: bool, x: string, rest: seq<Node>)
    requires !HasKind(PreorderAll(rest, MessageKind), SummaryKind)
    ensures var tail := PreorderAll(rest, MessageKind);
      ChangelogOf(Br(MessageKind, [SummaryNode(t, scope, marked, x)] + rest))
      == match References(tail, [])
         case Err(f) => Err(f)
         case Ok(refs) =>
           Ok(Commit(Some(t), scope, Some(x), Header(Some(t), scope, marked, Some(x)),
                     BodyOf(LastNode(tail, BodyKind, None)),
                     if marked then [Note("BREAKING CHANGE", Some(x))] else [], refs, [], None, None))
  {
    var summary := SummaryNode(t, scope, marked, x);
    MessageWalk(t, scope, marked, x, rest);
    SummaryHeading(t, scope, marked, x);
  }

  /**
   * The walk of such a message: its last summary node is the first child, and
   * its last body node and its references are those of the other children.
   */
  lemma MessageWalk(t: string, scope: Option<string>, marked: bool, x: string, rest: seq<Node>)
    requires !HasKind(PreorderAll(rest, MessageKind), SummaryKind)
    ensures var summary := SummaryNode(t, scope, marked, x);
      var walk := Preorder(Br(MessageKind, [summary] + rest), None);
      var tail := PreorderAll(rest, MessageKind);
      LastNode(walk, SummaryKind, None) == Some(summary)
      && LastNode(walk, BodyKind, None) == LastNode(tail, BodyKind, None)
      && References(walk, []) == References(tail, [])
  {
    var summary := SummaryNode(t, scope, marked, x);
    var m := Br(MessageKind, [summary] + rest);
    var tail := PreorderAll(rest, MessageKind);
    var sw := Preorder(summary, Some(MessageKind));
    PreorderAllCons(summary, rest, MessageKind);
    var walk := Preorder(m, None);
    var head := [Visit(m, None)] + sw;
    assert walk == head + tail;
    SummaryHead(Visit(m, None), t, scope, marked, x);
    LastNodeConcat(head, tail, SummaryKind, None);
    LastNodeSplit(head, tail, BodyKind, None);
    ReferencesConcat(head, tail, []);
  }

  /**
   * The message node followed by the walk of its summary: the summary is its
   * last summary node, and it holds no body and no footer.
   */
  lemma SummaryHead(v: Visit, t: string, scope: Option<string>, marked: bool, x: string)
    requires v.node.kind == MessageKind
    ensures var summary := SummaryNode(t, scope, marked, x);
      var head := [v] + Preorder(summary, Some(MessageKind));
      LastNode(head, SummaryKind, None) == Some(summary)
      && LastNode(head, BodyKind, None) == None
      && References(head, []) == Ok([])
  {
    var summary := SummaryNode(t, scope, marked, x);
    var sw := Preorder(summary, Some(MessageKind));
    SummaryWalkKinds(t, scope, marked, x, Some(MessageKind));
    var head := [v] + sw;
    assert head[1..][1..] == sw[1..];
    LeafWalk(v, sw);
    LastNodeIsLast(sw[1..], SummaryKind, Some(summary));
    LastNodeIsLast(sw[1..], BodyKind, None);
    ReferencesNone(head, []);
  }

  /**
   * A message visit followed by a walk that opens with a summary and then
   * holds leaves only: the leaves hold no summary and no body, and the whole
   * holds no footer.
   */
  lemma LeafWalk(v: Visit, sw: seq<Visit>)
    requires v.node.kind == MessageKind && sw != [] && sw[0].node.kind == SummaryKind
    requires forall j :: 1 <= j < |sw| ==> IsLeafKind(sw[j].node.kind)
    ensures !HasKind(sw[1..], SummaryKind) && !HasKind(sw[1..], BodyKind)
    ensures !HasKind([v] + sw, FooterKind)
  {
    forall i | 0 <= i < |sw[1..]|
      ensures IsLeafKind(sw[1..][i].node.kind)
    {
      assert sw[1..][i] == sw[i + 1];
    }
    var head := [v] + sw;
    forall i | 0 <= i < |head|
      ensures head[i].node.kind != FooterKind
    {
      if i >= 1 {
        assert head[i] == sw[i - 1];
      }
    }
  }

  /** A message of a summary and a body of two text lines: the body is the lines joined by a newline. */
  lemma TwoLineBody(t: string, x: string, l1: string, l2: string)
    requires l1 != ""
    ensures var body := Br(BodyKind, [Lf(TextKind, l1), Lf(TextKind, l2)]);
      ChangelogOf(Br(MessageKind, [SummaryNode(t, None, false, x), body]))
      == Ok(Commit(Some(t), None, Some(x), Header(Some(t), None, false, Some(x)), Some(l1 + "\n" + l2), [], [], [], None, None))
  {
    var body := Br(BodyKind, [Lf(TextKind, l1), Lf(TextKind, l2)]);
    var tail := PreorderAll([body], MessageKind);
    BodyTail(l1, l2);
    TwoLineText(l1, l2);
    MessageRecord(t, None, false, x, [body]);
    assert [SummaryNode(t, None, false, x)] + [body] == [SummaryNode(t, None, false, x), body];
  }

  /** The walk a two-line body adds after the summary: the body node, found last, and no summary or footer. */
  lemma BodyTail(l1: string, l2: string)
    ensures var body := Br(BodyKind, [Lf(TextKind, l1), Lf(TextKind, l2)]);
      var tail := PreorderAll([body], MessageKind);
      !HasKind(tail, SummaryKind) && LastNode(tail, BodyKind, None) == Some(body) && References(tail, []) == Ok([])
  {
    var body := Br(BodyKind, [Lf(TextKind, l1), Lf(TextKind, l2)]);
    FlatWalk(BodyKind, [Lf(TextKind, l1), Lf(TextKind, l2)], Some(MessageKind));
    PreorderAllSingle(body, MessageKind);
    var tail := PreorderAll([body], MessageKind);
    var kids := [Lf(TextKind, l1), Lf(TextKind, l2)];
    assert |tail| == 3 && kids[0] == Lf(TextKind, l1) && kids[1] == Lf(TextKind, l2);
    assert tail[1] == Visit(Lf(TextKind, l1), Some(BodyKind)) && tail[2] == Visit(Lf(TextKind, l2), Some(BodyKind));
    assert !HasKind(tail, SummaryKind) && !HasKind(tail, FooterKind) by {
      forall i | 0 <= i < 3
        ensures tail[i].node.kind in {BodyKind, TextKind}
      {
      }
    }
    assert IsLastOf(tail, BodyKind, 0);
    LastNodeIsLast(tail, BodyKind, None);
    ReferencesNone(tail, []);
  }

  /** The body field of a two-line body whose first line is not empty: the lines joined by a newline. */
  lemma TwoLineText(l1: string, l2: string)
    requires l1 != ""
    ensures BodyOf(Some(Br(BodyKind, [Lf(TextKind, l1), Lf(TextKind, l2)]))) == Some(l1 + "\n" + l2)
  {
    var body := Br(BodyKind, [Lf(TextKind, l1), Lf(TextKind, l2)]);
    FlatWalk(BodyKind, [Lf(TextKind, l1), Lf(TextKind, l2)], None);
    var walk := Preorder(body, None);
    var kids := [Lf(TextKind, l1), Lf(TextKind, l2)];
    assert |walk| == 3 && kids[0] == Lf(TextKind, l1) && kids[1] == Lf(TextKind, l2);
    assert walk[1] == Visit(Lf(TextKind, l1), Some(BodyKind)) && walk[2] == Visit(Lf(TextKind, l2), Some(BodyKind));
    assert walk[2..][1..] == [];
    assert walk[1..][1..] == walk[2..];
    assert BodyLines(walk[2..]) == [l2];
    assert BodyLines(walk[1..]) == [l1, l2];
    assert BodyLines(walk) == [l1, l2];
    assert [l1, l2][1..] == [l2];
    assert Join([l1, l2], "\n") == l1 + "\n" + l2;
  }

  /** A message of a summary and one footer: its references are those of the footer. */
  lemma FooterMessage(t: string, x: string, tok: string, sep: string, spaced: bool, v: string)
    ensures var footer := FooterNode(tok, sep, spaced, v);
      var refs := if ('#' in sep || (|v| > 0 && v[0] == '#')) && AllDigits(StripHash(v))
        then [Reference("#", Some(tok), StripHash(v))] else [];
      ChangelogOf(Br(MessageKind, [SummaryNode(t, None, false, x), footer]))
      == Ok(Commit(Some(t), None, Some(x), Header(Some(t), None, false, Some(x)), None, [], refs, [], None, None))
  {
    var footer := FooterNode(tok, sep, spaced, v);
    FooterTail(tok, sep, spaced, v);
    MessageRecord(t, None, false, x, [footer]);
    assert [SummaryNode(t, None, false, x)] + [footer] == [SummaryNode(t, None, false, x), footer];
  }

  /** The walk a one-line footer adds after the summary: no summary, no body, and the footer's reference. */
  lemma FooterTail(tok: string, sep: string, spaced: bool, v: string)
    ensures var footer := FooterNode(tok, sep, spaced, v);
      var tail := PreorderAll([footer], MessageKind);
      !HasKind(tail, SummaryKind) && LastNode(tail, BodyKind, None) == None
      && References(tail, []) == if ('#' in sep || (|v| > 0 && v[0] == '#')) && AllDigits(StripHash(v))
        then Ok([Reference("#", Some(tok), StripHash(v))]) else Ok([])
  {
    var footer := FooterNode(tok, sep, spaced, v);
    FooterWalk(tok, sep, spaced, v, Some(MessageKind));
    PreorderAllSingle(footer, MessageKind);
    var tail := PreorderAll([footer], MessageKind);
    assert tail[0].node == footer;
    forall i | 0 <= i < |tail|
      ensures tail[i].node.kind != SummaryKind && tail[i].node.kind != BodyKind
      ensures i > 0 ==> tail[i].node.kind != FooterKind
    {
    }
    assert !HasKind(tail[1..], FooterKind) by {
      forall i | 0 <= i < |tail[1..]|
        ensures tail[1..][i].node.kind != FooterKind
      {
        assert tail[1..][i] == tail[i + 1];
      }
    }
    assert !HasKind(tail, BodyKind);
    LastNodeIsLast(tail, BodyKind, None);
    FooterReferenceOf(tok, sep, spaced, v);
    match FooterReference(footer) {
      case Ok(None) => ReferencesNone(tail[1..], []);
      case Ok(Some(r)) =>
        ReferencesNone(tail[1..], [r]);
        assert [] + [r] == [r];
        assert References(tail, []) == References(tail[1..], [r]);
    }
  }

  /** A message that is only a summary: its record has the summary's heading, no body and no references. */
  lemma SummaryMessage(t: string, scope: Option<string>, marked: bool, x: string)
    ensures ChangelogOf(Br(MessageKind, [SummaryNode(t, scope, marked, x)]))
      == Ok(Commit(Some(t), scope, Some(x), Header(Some(t), scope, marked, Some(x)), None,
                   if marked then [Note("BREAKING CHANGE", Some(x))] else [], [], [], None, None))
  {
    MessageRecord(t, scope, marked, x, []);
    assert [SummaryNode(t, scope, marked, x)] + [] == [SummaryNode(t, scope, marked, x)];
  }

  /**
   * The header recombines the summary: the type, the scope in parentheses
   * unless it is empty, '!' when marked, then ": " and the subject. The
   * summary here has one space after its ':'; the header always has one,
   * since the whitespace node is not read.
   */
  lemma HeaderRecombines(t: string, scope: Option<string>, marked: bool, x: string)
    ensures var c := ChangelogOf(Br(MessageKind, [SummaryNode(t, scope, marked, x)]));
      c.Ok? && c.value.header
        == t + (if scope.Some? && scope.value != "" then "(" + scope.value + ")" else "") + (if marked then "!" else "") + ": " + x
  {
    SummaryMessage(t, scope, marked, x);
  }

  /**
   * Notes come from the summary alone: one BREAKING CHANGE note carrying the
   * subject when the last summary has a breaking-change node, none otherwise;
   * mentions stay empty and merge and revert stay null.
   */
  lemma NotesFromSummary(ast: Node)
    ensures var c := ChangelogOf(ast);
      var s := LastNode(Preorder(ast, None), SummaryKind, None);
      c.Ok? ==>
        s.Some?
        && (HasKind(Preorder(s.value, None), BreakingChangeKind) ==> c.value.notes == [Note("BREAKING CHANGE", c.value.subject)])
        && (!HasKind(Preorder(s.value, None), BreakingChangeKind) ==> c.value.notes == [])
        && c.value.mentions == [] && c.value.merge.None? && c.value.revert.None?
  {
  }
}
