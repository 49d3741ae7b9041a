/**
 * The syntax tree built by lib/parser.js through Scanner.enter/exit: every
 * node has a kind (its `type` string), either a `value` or `children`, and a
 * start and end position. Also the line/column coordinates of an offset,
 * against which node positions are checked.
 */
module Syntax {
  import opened TypeChecks

  /** A point in the text: 1-based line and column, 0-based offset. */
  datatype Pos = Pos(line: nat, column: nat, offset: nat)

  /** The scanner's default start. */
  const Origin: Pos := Pos(1, 1, 0)

  datatype Kind =
    | MessageKind | SummaryKind | TypeKind | ScopeKind | TextKind | WhitespaceKind
    | BreakingChangeKind | SeparatorKind | BodyKind | PreFooterKind | FooterKind
    | TokenKind | ValueKind | ContinuationKind

  /** The `type` string the parser gives each kind of node. */
  function KindName(k: Kind): string {
    match k
    case MessageKind => "message"
    case SummaryKind => "summary"
    case TypeKind => "type"
    case ScopeKind => "scope"
    case TextKind => "text"
    case WhitespaceKind => "whitespace"
    case BreakingChangeKind => "breaking-change"
    case SeparatorKind => "separator"
    case BodyKind => "body"
    case PreFooterKind => "pre-footer"
    case FooterKind => "footer"
    case TokenKind => "token"
    case ValueKind => "value"
    case ContinuationKind => "continuation"
  }

  /** Kinds the parser creates with a string `value` rather than `children`. */
  predicate IsLeafKind(k: Kind) {
    k == TypeKind || k == ScopeKind || k == TextKind || k == WhitespaceKind
    || k == BreakingChangeKind || k == SeparatorKind
  }

  /** A node holds a value or children, never both. */
  datatype Content = Leaf(value: string) | Children(children: seq<Node>)

  /** A node; `end` equals `start` until Scanner.Exit sets it. */
  datatype Node = Node(kind: Kind, content: Content, start: Pos, end: Pos)

  /** The node with its own and all its descendants' positions put back to the origin: its shape and values. */
  function Erase(n: Node): Node
    decreases n, 1
  {
    match n.content
    case Leaf(v) => Node(n.kind, Leaf(v), Origin, Origin)
    case Children(cs) => Node(n.kind, Children(EraseAll(cs)), Origin, Origin)
  }

  function EraseAll(cs: seq<Node>): seq<Node>
    decreases cs, 0
  {
    seq(|cs|, i requires 0 <= i < |cs| => Erase(cs[i]))
  }

  /** Leaf kinds carry values and all other kinds carry children, throughout the tree. */
  predicate WellKinded(n: Node)
    decreases n
  {
    match n.content
    case Leaf(_) => IsLeafKind(n.kind)
    case Children(cs) => !IsLeafKind(n.kind) && forall i :: 0 <= i < |cs| ==> WellKinded(cs[i])
  }

  /** The offset does not fall between the CR and the LF of a CR LF pair. */
  predicate AtBoundary(text: string, offset: nat)
    requires offset <= |text|
  {
    !(0 < offset < |text| && text[offset - 1] == CR && text[offset] == LF)
  }

  /**
   * The line and column of `offset`, counting CR LF, a lone CR and a lone LF
   * each as one line break.
   */
  function Locate(text: string, offset: nat): (p: Pos)
    requires offset <= |text|
    ensures p.offset == offset && p.line >= 1 && p.column >= 1
    decreases offset
  {
    if offset == 0 then Origin
    else if text[offset - 1] == LF && offset >= 2 && text[offset - 2] == CR then
      var q := Locate(text, offset - 2);
      Pos(q.line + 1, 1, offset)
    else if text[offset - 1] == CR || text[offset - 1] == LF then
      var q := Locate(text, offset - 1);
      Pos(q.line + 1, 1, offset)
    else
      var q := Locate(text, offset - 1);
      Pos(q.line, q.column + 1, offset)
  }

  /** A position is a true point of the text: in range, on a token boundary, with its real line and column. */
  predicate Located(text: string, p: Pos) {
    p.offset <= |text| && AtBoundary(text, p.offset) && p == Locate(text, p.offset)
  }

  /** Every leaf's value is the text between its offsets, and both its ends are Located. */
  predicate Spans(text: string, n: Node)
    decreases n
  {
    match n.content
    case Leaf(v) =>
      Located(text, n.start) && Located(text, n.end) && n.start.offset <= n.end.offset
      && v == text[n.start.offset..n.end.offset]
    case Children(cs) => forall i :: 0 <= i < |cs| ==> Spans(text, cs[i])
  }

  /** `k` columns further along the same line. */
  function Skip(p: Pos, k: nat): Pos {
    Pos(p.line, p.column + k, p.offset + k)
  }

  /** Moving over characters that are not CR or LF keeps the line and adds to the column. */
  lemma {:induction false} LocateSkip(text: string, p: Pos, k: nat)
    requires Located(text, p) && p.offset + k <= |text|
    requires forall j :: p.offset <= j < p.offset + k ==> text[j] != CR && text[j] != LF
    ensures Located(text, Skip(p, k))
    decreases k
  {
    if k > 0 {
      LocateSkip(text, p, k - 1);
      var e := p.offset + k;
      assert text[e - 1] != CR && text[e - 1] != LF;
      assert Locate(text, e) == Skip(p, k);
    }
  }
}
