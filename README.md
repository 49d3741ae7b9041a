# Conventional Commits parser, modelled in Dafny

This project models the core of the `conventional-commits/parser` JavaScript
package:

- **Character classifiers** (`lib/type-checks.js`, module `TypeChecks`).
- **Scanner** (`lib/scanner.js`, module `Scanning`). This is a cursor over the commit text that tracks line, column and offset. It has:
  - CR LF fusion;
  - literal lookahead;
  - checkpoints and rewinds;
  - node construction;
  - abort errors.
- **Recursive-descent grammar** (`lib/parser.js`):
  - module `Parser` holds the specification functions;
  - module `Grammar` holds the imperative productions;
  - module `ParserProofs` holds the lemmas.
- **Projection of the syntax tree into the conventional-changelog record** (`lib/utils.js`, modules `Changelog` and `ChangelogProofs`).
- **The older summary-only parser** (`index.js`, modules `Legacy` and `LegacyProofs`).

Files:

- `wrappers.dfy`: Option and Result.
- `type_checks.dfy`: isWhitespace, isNewline, isParens and the code points of the `codes` constants.
- `syntax.dfy`:
  - positions;
  - node kinds (the `type` strings);
  - nodes, which hold a value or children, never both;
  - `Locate`, the line and column of an offset, against which node positions are checked.
- `scanner.dfy`:
  - the specification functions of peek, next and peekLiteral;
  - the abort message;
  - `class Scanner`, whose `pos` field the methods update in place.
- `parser.dfy`: one specification function `XAt(text, p)` per production. It gives the production's node or failure together with the cursor it leaves. `MessageAt` is split at the summary: `MessageAfter` is the rest of `message` once the summary is parsed.
- `grammar.dfy`:
  - one method per production, working on a shared `Scanner`, with the source's loops, pushes and rewinds;
  - each is proved to equal its specification function.
- `parser_proofs.dfy`:
  - leaf spans;
  - run maximality;
  - separator and breaking-change values;
  - footer precedence over the body;
  - termination of the footer loop;
  - exact error messages;
  - trim.
- `changelog.dfy`:
  - the preorder walk that unist-util-visit performs;
  - the declarative record `ChangelogOf`;
  - the method `ToConventionalChangelogFormat`, whose visitor callbacks update the record step by step;
  - lemmas on the record: heading, body, notes and references.
- `pipeline.dfy`: the two halves together. `message(text)` is parsed and its tree handed to `toConventionalChangelogFormat`, for:
  - a header of any type, scope, marker and subject;
  - a header, a blank line and a body of two lines;
  - a header, a blank line and one footer.
  The examples of test/utils.js follow from these, starting from the commit text.
- `legacy.dfy`: the integer-offset scanner of `index.js` and its summary grammar. The lemmas cover:
  - the three summary forms;
  - round trips from summary lines;
  - the unchecked `)` and `:` tokens.

Design points:

- **Failures are values.** A failure is `Failure(cursor, kind, expected)`, the data `abort` builds its `Error` from. `AbortMessage` renders the text of the `Error`. `Parse` turns a failure into `Err(message)`, which stands for the thrown `Error`.
- **The footer loop of `message`** (lib/parser.js:42-45) has no exit of its own. The proof shows that every footer there succeeds and advances, so the loop terminates:
  - `BodyLeavesFooters` shows the rest after the body is footers up to EOF;
  - `FooterLoopReaches` shows the loop then reaches EOF.
- **Failures that do not rewind** are modelled as written:
  - a footer that returns the error of its token or separator;
  - a continuation that has consumed a newline;
  - the token at lib/parser.js:273, where the node's start aliases the cursor.
- **The classifiers and `peek` of `index.js`** (index.js:18-25, 42-61) are the same functions as those of `lib/type-checks.js` and `lib/scanner.js`, so they are modelled once. Both copies of `isNewline` are the same function: neither has a `return false`, so both return `undefined` for a token that is not a newline, and the model reads that as false.
- **Specification functions state their properties through lemmas.** The functions carry no contract of their own; each has lemma rows below that cite its lines:
  - `Parser.Parse` and `Parser.MessageAt`: `ParseConsumesAll`, `ParseSpans`, `MessageFootersReachEnd` and the `Pipeline` round trips;
  - `Parser.MessageTail`: `Grammar.BodyAndFooters`, `Pipeline.BodyToEnd` and `Pipeline.FooterTail`;
  - `Parser.Trim`: `TrimShape`, `TrimIdempotent` and `TrimKeeps`;
  - `Scanning.PeekAt`, `Advance`, `Chunk` and `LiteralAt`: `PeekIsPrefix`, `PeekClassifies`, `AdvanceLocated`, `StepSpans`, `ChunkIsPrefix` and `LiteralAtIff`;
  - `Scanning.AbortMessage`: the `*Message` and `*Parse` lemmas of `ParserProofs`, which give the exact text for each test input;
  - `Changelog.ChangelogOf`: `MessageRecord`, `ChangelogErase` and `ToConventionalChangelogFormat`;
  - `Changelog.HeadingOf` and `Changelog.Header`: `SummaryHeading`, `HeadingErase` and `HeaderRecombines`;
  - `Changelog.BodyOf`: `BodyNullIff` and `TwoLineText`;
  - `Changelog.FooterReference`, `AllDigits` and `StripHash`: `FooterReferenceOf` and `FooterReferenceErase`;
  - `Changelog.References`: `ReferencesConcat`, `ReferencesKeepOrder` and `ReferencesNone`.
- **The legacy summary does not check its tokens.** In the scoped form it consumes the two tokens after the scope without checking them (index.js:98-101; the source marks this as a TODO). `LegacyProofs.UncheckedCloseExample` shows `fix(api(! oops` parsing as type `fix`, scope `api` and text `oops`.

## Model

| member | source | states |
|---|---|---|
| TypeChecks.WhitespaceIsOneSeparator | lib/type-checks.js:7-9 | isWhitespace holds exactly for a one-character token that is ZWNBSP, TAB, VT, FF, SP or NBSP |
| TypeChecks.NewlineTokens | lib/type-checks.js:14-17 | "\r\n", a lone CR and a lone LF are newlines; the empty token at EOF is not |
| TypeChecks.ClassesDisjoint | lib/type-checks.js:7-24 | no token is in two of the whitespace, newline and paren classes |
| Syntax.Locate | lib/scanner.js:14-28 | the line and column the scanner reaches at an offset (a line break is CR LF, a lone CR or a lone LF): 1-based, with the offset unchanged |
| Syntax.LocateSkip | lib/scanner.js:19-20 | moving over k characters that are not CR or LF keeps the line and adds k to the column, and the result is still a true point of the text |
| Scanning.PeekIsPrefix | lib/scanner.js:30-37 | the peeked token is the text at the cursor; it is empty exactly at EOF and two characters exactly for CR LF |
| Scanning.PeekClassifies | lib/scanner.js:30-37 | before EOF the classifiers and the single-character comparisons on the peeked token are decided by the character at the cursor |
| Scanning.ChunkIsPrefix | lib/scanner.js:14-17 | next(n) takes at most n characters from the cursor, and fewer only at the end of the text |
| Scanning.LiteralAtIff | lib/scanner.js:39-42 | peekLiteral holds exactly when the next characters are the literal |
| Scanning.AdvanceLocated | lib/scanner.js:14-28 | consuming the peeked token from a true point of the text leads to a true point of the text |
| Scanning.NatToString | lib/scanner.js:65 | the rendering of a line or column number is a non-empty string of decimal digits |
| Scanning.NatToStringRoundTrip | lib/scanner.js:65 | reading the rendering back as decimal gives the number |
| Scanning.Truthy | lib/scanner.js:67 | filter(Boolean) keeps no empty token and never grows the list |
| Scanning.TruthyKeeps | lib/scanner.js:67 | filter(Boolean) drops exactly the empty tokens: every other token is kept, as often as it occurs |
| Scanning.Scanner.constructor | lib/scanner.js:5-8 | the cursor starts at the given position or at line 1, column 1, offset 0 |
| Scanning.Scanner.Eof | lib/scanner.js:10-12 | eof holds exactly when the offset is at or past the end of the text |
| Scanning.Scanner.Next | lib/scanner.js:14-28 | next returns the peeked token (or the next n characters) and advances by its length; a token starting with CR or LF moves to column 1 of the next line |
| Scanning.Scanner.Peek | lib/scanner.js:30-37 | peek returns PeekAt at the cursor and does not move it |
| Scanning.Scanner.PeekLiteral | lib/scanner.js:39-42 | peekLiteral answers LiteralAt at the cursor without moving it |
| Scanning.Scanner.Position | lib/scanner.js:44-46 | position returns the cursor |
| Scanning.Scanner.Rewind | lib/scanner.js:48-50 | rewind sets the cursor to the given position, so rewind(position()) restores line, column and offset |
| Scanning.Scanner.Enter | lib/scanner.js:52-57 | enter makes a node of the kind and content (a value or children) starting and ending at the cursor |
| Scanning.Scanner.Exit | lib/scanner.js:59-62 | exit sets the node's end to the cursor and changes nothing else |
| Scanning.Scanner.Abort | lib/scanner.js:64-76 | abort records the cursor from before the rewind, the node's kind and the expected tokens, then puts the cursor back at the node's start |
| Parser.StopsIff | lib/parser.js:110-152 | before EOF a scanning loop stops exactly on a character it does not take, and a character it takes is the whole peeked token |
| Parser.RunEnd | lib/parser.js:110-152 | the end of the longest run from an offset: every character before it continues the run and the one at it does not |
| Parser.RunEndUnique | lib/parser.js:110-152 | that end is the only offset with this property |
| Parser.RunAt | lib/parser.js:111-118 | the leaf a scanning loop builds starts at the cursor and ends within the text |
| Parser.TypeAt | lib/parser.js:110-124 | type moves the cursor forward within the text; a success yields a type leaf and consumes a character; a failure leaves the cursor at entry |
| Parser.TextAt | lib/parser.js:129-139 | text yields a text leaf from the cursor that ends within the text |
| Parser.ScopeAt | lib/parser.js:144-159 | scope: a success yields a scope leaf and consumes a character; a failure leaves the cursor at entry |
| Parser.WhitespaceAt | lib/parser.js:367-376 | whitespace: a success yields a whitespace leaf and consumes a character; a failure leaves the cursor at entry |
| Parser.SeparatorAt | lib/parser.js:341-362 | separator: a success yields a separator leaf and consumes a character; a failure, including a space without '#', leaves the cursor at entry |
| Parser.BreakingChangeAt | lib/parser.js:289-301 | breakingChange: a success yields a breaking-change leaf and consumes a character; a failure leaves the cursor at entry |
| Parser.SummaryAt | lib/parser.js:54-105 | summary moves the cursor forward within the text and a success yields a summary node with children |
| Parser.SummaryTail | lib/parser.js:80-104 | the marker, separator, whitespace and text after the type and scope yield a summary node or a failure, the cursor staying within the text |
| Parser.ContinuationAt | lib/parser.js:321-336 | continuation: a success yields a continuation node with children and consumes a character |
| Parser.ContinuationsFrom | lib/parser.js:310-314 | the continuation loop leaves the cursor forward and within the text |
| Parser.ValueAt | lib/parser.js:307-316 | value always succeeds with a value node with children that starts at the cursor |
| Parser.TokenAt | lib/parser.js:246-284 | token: a success yields a token node with children and consumes a character |
| Parser.TokenTail | lib/parser.js:277-283 | after the type and scope, the optional '!' always completes the token |
| Parser.FooterAt | lib/parser.js:204-239 | footer: a success yields a footer node with children and consumes a character |
| Parser.PastNewline | lib/parser.js:235-237 | the optional newline after a footer moves the cursor forward within the text |
| Parser.SkipNewlines | lib/parser.js:190-192 | skipping newlines stops at a token that is not a newline |
| Parser.FootersToEnd | lib/parser.js:194-197 | the footer loop of preFooter either reaches EOF or is stuck at a failing footer within the text |
| Parser.PreFooterAt | lib/parser.js:188-199 | preFooter yields a pre-footer node, and a failure leaves the cursor at entry |
| Parser.BodyAt | lib/parser.js:165-183 | body yields a body node, and a failure leaves the cursor at entry |
| Parser.FooterLoop | lib/parser.js:42-45 | the footer loop of message leaves the cursor forward and within the text |
| Parser.TrimStart | lib/parser.js:11 | trimming the start removes only trimmable characters and leaves no trimmable character first |
| Parser.TrimEnd | lib/parser.js:11 | trimming the end removes only trimmable characters and leaves no trimmable character last |
| Grammar.Push | lib/parser.js:19 | children.push appends the child and keeps the kind and positions |
| Grammar.Append | lib/parser.js:117 | value += token appends the token and keeps the kind and positions |
| Grammar.ScanStep | lib/parser.js:112-118 | a turn of a scanning loop appends exactly the character at the cursor, which continues the run on the same line |
| Grammar.ScanEnd | lib/parser.js:112-118 | a scanning loop that stops at EOF or on its stop condition has built the leaf RunAt gives |
| Grammar.Type | lib/parser.js:110-124 | type(scanner) gives TypeAt's result and cursor |
| Grammar.Text | lib/parser.js:129-139 | text(scanner) gives TextAt's node and leaves the cursor at its end |
| Grammar.Scope | lib/parser.js:144-159 | scope(scanner) gives ScopeAt's result and cursor |
| Grammar.Whitespace | lib/parser.js:367-376 | whitespace(scanner) gives WhitespaceAt's result and cursor |
| Grammar.Separator | lib/parser.js:341-362 | separator(scanner) gives SeparatorAt's result and cursor |
| Grammar.BreakingChange | lib/parser.js:289-301 | breakingChange(scanner) gives BreakingChangeAt's result and cursor |
| Grammar.Summary | lib/parser.js:54-105 | summary(scanner) gives SummaryAt's result and cursor |
| Grammar.Continuation | lib/parser.js:321-336 | continuation(scanner) gives ContinuationAt's result and cursor |
| Grammar.Value | lib/parser.js:307-316 | value(scanner) gives ValueAt's node and leaves the cursor at its end |
| Grammar.Token | lib/parser.js:246-284 | token(scanner) gives TokenAt's result and cursor |
| Grammar.Footer | lib/parser.js:204-239 | footer(scanner) gives FooterAt's result and cursor |
| Grammar.SkipNewlineTokens | lib/parser.js:28-30 | the newline loop leaves the cursor at SkipNewlines |
| Grammar.PreFooter | lib/parser.js:188-199 | preFooter(scanner) gives PreFooterAt's result and cursor |
| Grammar.Body | lib/parser.js:165-183 | body(scanner) gives BodyAt's result and cursor |
| Grammar.Message | lib/parser.js:10-47 | message(commitText) returns Parse's node or the abort message it throws |
| Grammar.BodyAndFooters | lib/parser.js:34-46 | the optional body, the newlines and the footers up to EOF give MessageTail's node |
| ParserProofs.TextStopsAtLineEnd | lib/parser.js:129-139 | text stops only at a newline or at EOF |
| ParserProofs.TextToLineEnd | lib/parser.js:129-139 | text always succeeds, its value is the text it passes, it holds no CR or LF, and it stops only at a newline or EOF |
| ParserProofs.RunStops | lib/parser.js:110-152 | a scanning loop's value is the text up to the first place its break condition holds, or EOF |
| ParserProofs.TypeNonEmpty | lib/parser.js:110-124 | type succeeds exactly when the cursor is at a character it takes; the value is then non-empty and maximal; a failure leaves the cursor at entry |
| ParserProofs.ScopeNonEmpty | lib/parser.js:144-159 | scope succeeds exactly when the cursor is not at a paren, a newline or EOF; the value is then non-empty and maximal; a failure leaves the cursor at entry |
| ParserProofs.SeparatorValues | lib/parser.js:341-362 | separator yields exactly ":" or " #", succeeds exactly when one of them is at the cursor, and otherwise leaves the cursor at entry |
| ParserProofs.NotSeparator | lib/parser.js:350-358 | a space not followed by '#' is no separator, and the cursor stays |
| ParserProofs.BreakingChangeValues | lib/parser.js:289-301 | breakingChange yields exactly "!" or "BREAKING CHANGE", succeeds exactly when one is at the cursor, and otherwise leaves the cursor at entry |
| ParserProofs.NotBreaking | lib/parser.js:289-301 | at a character other than '!' and 'B', breakingChange fails at the cursor expecting "BREAKING CHANGE" |
| ParserProofs.HyphenatedIsNotBreaking | lib/parser.js:289-301 | "BREAKING-CHANGE" is not a breaking-change marker |
| ParserProofs.ContinuationEatsNewline | lib/parser.js:321-336 | a continuation with no whitespace after its newline fails with the cursor past the newline |
| ParserProofs.FooterKeepsTokenCursor | lib/parser.js:204-220 | a footer whose separator fails returns that error with the cursor after the token, not at the footer's start |
| ParserProofs.SummaryEndsLine | lib/parser.js:96-104 | a summary ends at EOF or at a newline, because its last part is text |
| ParserProofs.SummaryMissingSeparator | lib/parser.js:88-92 | with no scope, no marker and no separator after the type, summary fails after the type expecting "(, !, :" and rewinds to its start |
| ParserProofs.SummarySeparatorExpected | lib/parser.js:91 | the expected list of a missing separator names '(' only without a scope, '!' only without a marker, then ':' |
| ParserProofs.SummaryTailNoSeparator | lib/parser.js:80-92 | after the type and scope, a missing separator fails at the cursor after the optional marker with that expected list |
| ParserProofs.SummaryUnclosedScope | lib/parser.js:64-76 | a scope not followed by ')' fails at the end of the scope expecting ")" and rewinds to the summary's start |
| ParserProofs.ScopedSummary | lib/parser.js:64-78 | a closed scope makes the summary go on after the ")" with the type and scope as children |
| ParserProofs.MissingSeparatorExample | test/parser.js:39-42 | a summary starting "feat a" fails at line 1, column 5, expecting "(", "!" and ":" |
| ParserProofs.MissingSeparatorMessage | test/parser.js:39-42 | that failure's message is "unexpected token ' ' at 1:5, valid tokens [(, !, :]" |
| ParserProofs.MissingSeparatorParse | test/parser.js:39-42 | parsing such a text fails with exactly that message |
| ParserProofs.ScopedMissingSeparatorExample | test/parser.js:43-45 | a summary starting "feat( foo ) a" fails at line 1, column 12, expecting "!" and ":" |
| ParserProofs.ScopedMissingSeparatorMessage | test/parser.js:43-45 | that failure's message is "unexpected token ' ' at 1:12, valid tokens [!, :]" |
| ParserProofs.ScopedMissingSeparatorParse | test/parser.js:43-45 | parsing such a text fails with exactly that message |
| ParserProofs.MarkedMissingSeparatorExample | test/parser.js:46-48 | a summary starting "feat(bar)! a" fails at line 1, column 11, expecting only ":" |
| ParserProofs.MarkedMissingSeparatorMessage | test/parser.js:46-48 | that failure's message is "unexpected token ' ' at 1:11, valid tokens [:]" |
| ParserProofs.MarkedMissingSeparatorParse | test/parser.js:46-48 | parsing such a text fails with exactly that message |
| ParserProofs.UnclosedScopeExample | test/parser.js:50-54 | a 32-character "feat(..." whose scope never closes fails at EOF, line 1, column 33, expecting ")" |
| ParserProofs.UnclosedScopeMessage | test/parser.js:50-54 | that failure's message is "unexpected token EOF at 1:33, valid tokens [)]" |
| ParserProofs.UnclosedScopeParse | test/parser.js:50-54 | parsing such a text fails with exactly that message |
| ParserProofs.PreFooterAtEof | lib/parser.js:188-199 | at EOF preFooter succeeds, since no newlines and no footers reach EOF |
| ParserProofs.BodyYieldsToFooters | lib/parser.js:165-169 | the body is omitted exactly where the rest of the text parses as newlines and footers up to EOF, and then the cursor stays |
| ParserProofs.BodyLines | lib/parser.js:165-183 | a body's children are text lines, one per consecutive line from the body's start; from the start of each, the rest does not parse as footers, and from the body's end, right after the last line or its newline, it does |
| ParserProofs.BodyLinesCons | lib/parser.js:170-181 | a line before footers that ends at a newline, put in front of a body starting on the next line, is again a body of consecutive lines |
| ParserProofs.BodyLeavesFooters | lib/parser.js:165-199 | wherever a body stops, the rest after its newlines is footers up to EOF |
| ParserProofs.FooterLoopReaches | lib/parser.js:42-45 | when the footers up to EOF all parse, the footer loop of message reaches EOF where they do |
| ParserProofs.MessageFootersReachEnd | lib/parser.js:10-47 | the message fails exactly when its summary does, with the summary's failure, and a parsed message ends at the end of the text |
| ParserProofs.ParseConsumesAll | lib/parser.js:10-47 | parse fails exactly when the summary of the trimmed text does, and a parse starts at the origin and spans the whole trimmed text |
| ParserProofs.TrimShape | lib/parser.js:11 | the trimmed text is a slice of the input with only trimmable characters cut on either side and none at its own ends |
| ParserProofs.TrimIdempotent | lib/parser.js:11 | trimming twice is trimming once |
| ParserProofs.TrimKeeps | lib/parser.js:11 | a text that neither starts nor ends with a trimmable character is its own trim |
| ParserProofs.StepSpans | lib/scanner.js:14-28 | consuming a peeked token keeps the cursor a true point of the text, and the token is the text passed |
| ParserProofs.RunSpans | test/parser.js:136-144 | the leaf of a scanning loop addresses its value by offsets and by line and column |
| ParserProofs.TypeSpans | test/parser.js:136-144 | a type leaf addresses its value, and the cursor stays a true point |
| ParserProofs.ScopeSpans | test/parser.js:136-144 | a scope leaf addresses its value, and the cursor stays a true point |
| ParserProofs.WhitespaceSpans | test/parser.js:136-144 | a whitespace leaf addresses its value, and the cursor stays a true point |
| ParserProofs.TextSpans | test/parser.js:136-144 | a text leaf addresses its value, and its end is a true point |
| ParserProofs.SeparatorSpans | test/parser.js:136-144 | a separator leaf addresses its value, including " #" over two tokens |
| ParserProofs.BreakingSpans | test/parser.js:136-144 | a breaking-change leaf addresses its value, including the 15-character literal |
| ParserProofs.SummarySpans | test/parser.js:136-144 | every leaf of a summary addresses its value |
| ParserProofs.ContinuationSpans | test/parser.js:136-144 | every leaf of a continuation addresses its value |
| ParserProofs.ValueSpans | test/parser.js:136-144 | every leaf of a value addresses its value |
| ParserProofs.TokenSpans | test/parser.js:136-144 | every leaf of a token addresses its value |
| ParserProofs.FooterSpans | test/parser.js:136-144 | every leaf of a footer addresses its value |
| ParserProofs.BodySpans | test/parser.js:136-144 | every leaf of a body addresses its value |
| ParserProofs.MessageSpans | test/parser.js:136-144 | every leaf of a parsed message addresses its value, and the message ends at a true point |
| ParserProofs.ParseSpans | test/parser.js:136-144 | every leaf of a successful parse equals the trimmed input between its offsets, and its line and column are those of those offsets |
| Changelog.Preorder | lib/utils.js:20-31 | the walk visits a node first, with its parent's kind |
| Changelog.DropLeadingEmpty | lib/utils.js:61 | the kept body lines never start with an empty line |
| Changelog.ToConventionalChangelogFormat | lib/utils.js:6-123 | the callbacks' updates give the record ChangelogOf states, or the TypeError the source throws |
| Changelog.FindSections | lib/utils.js:20-31 | the first walk keeps the last body node and the last summary node |
| Changelog.ReadSummary | lib/utils.js:33-53 | the summary walk gives the last type, scope and text values and whether a breaking-change node occurs |
| Changelog.JoinBody | lib/utils.js:57-65 | the body walk joins the body's text children with "\n", with no separator while the text is still empty |
| Changelog.FooterRef | lib/utils.js:86-119 | the footer visitor gives FooterReference |
| Changelog.CollectReferences | lib/utils.js:85-120 | the footer walk gives the references of the footers in walk order |
| Changelog.JoinSnoc | lib/utils.js:61-62 | appending a line to a non-empty join adds the separator and the line |
| Changelog.DropLeadingEmptySnoc | lib/utils.js:61-62 | one more line is dropped only while every line so far is empty |
| Changelog.BodyLinesSnoc | lib/utils.js:59-60 | one more visit adds a line exactly when it is a text node whose parent is the body |
| Changelog.JoinAppendsLine | lib/utils.js:59-63 | one callback turn: "\n" is added before the value only when the text so far is not empty |
| ChangelogProofs.LastValueIsLast | lib/utils.js:33-53 | the last-value fold gives the value of the last visit of the kind, or the default when there is none |
| ChangelogProofs.LastNodeIsLast | lib/utils.js:20-31 | the last-node fold gives the last visit of the kind, or the default when there is none |
| ChangelogProofs.DropLeadingEmptyNil | lib/utils.js:61-64 | nothing is kept exactly when every line is empty |
| ChangelogProofs.BodyNullIff | lib/utils.js:57-65 | the body is null exactly when there is no body node or every text line of the body is empty |
| ChangelogProofs.PreorderAllConcat | lib/utils.js:20 | the walk of two runs of siblings is the walk of the first, then of the second |
| ChangelogProofs.LastNodeConcat | lib/utils.js:20-31 | a second walk without the kind does not change the last node of that kind |
| ChangelogProofs.LastNodeSplit | lib/utils.js:20-31 | the last-node fold over two walks continues from the first into the second |
| ChangelogProofs.LastValueConcat | lib/utils.js:33-53 | the last-value fold over two walks continues from the first into the second |
| ChangelogProofs.ReferencesConcat | lib/utils.js:85-120 | the references of two walks are those of the first, then those of the second |
| ChangelogProofs.ReferencesKeepOrder | lib/utils.js:117-118 | references found earlier stay in front of those found later, and a fault does not depend on them |
| ChangelogProofs.ReferencesNone | lib/utils.js:85-120 | a walk without footers adds no references |
| ChangelogProofs.FootersLeaveHeading | lib/utils.js:20-53 | footers added after the summary do not change the type, scope, subject, header or notes; they only add references |
| ChangelogProofs.FlatWalk | lib/utils.js:20-31 | a node with leaf children is walked as the node, then each child in order |
| ChangelogProofs.SummaryWalkShape | lib/utils.js:33-53 | in a summary's walk the type comes first, the scope second when present, the text last, and a '!' only when marked |
| ChangelogProofs.SummaryHeading | lib/utils.js:33-55 | a summary's heading is its own type, scope and subject, and breaking exactly when it has the '!' |
| ChangelogProofs.SummaryWalkKinds | lib/utils.js:20-31 | below the summary node, its walk meets only leaf kinds |
| ChangelogProofs.SummaryHead | lib/utils.js:20-31 | the message node and its summary's walk hold the summary as last summary node, no body and no reference |
| ChangelogProofs.MessageWalk | lib/utils.js:20-31 | in a message that starts with a summary, the summary is the last one, and the body and references come from the other children |
| ChangelogProofs.MessageRecord | lib/utils.js:6-123 | the record of such a message: the summary's type, scope, subject and header, the other children's body and references, one note exactly when marked |
| ChangelogProofs.SummaryMessage | lib/utils.js:6-123 | a message that is only a summary gives the summary's heading, a null body and no references |
| ChangelogProofs.HeaderRecombines | lib/utils.js:55 | the header is the type, "(scope)" unless the scope is empty, "!" when marked, then ": " and the subject |
| ChangelogProofs.NotesFromSummary | lib/utils.js:72-75 | one BREAKING CHANGE note with the subject exactly when the summary has a breaking-change node; mentions stay empty and merge and revert null |
| ChangelogProofs.BodyTail | lib/utils.js:57-65 | a two-line body after the summary is the last body node and adds no summary or reference |
| ChangelogProofs.TwoLineText | lib/utils.js:57-65 | the body field of a two-line body with a non-empty first line is the lines joined by "\n" |
| ChangelogProofs.TwoLineBody | lib/utils.js:57-65 | the record of a summary and a two-line body has the joined body |
| ChangelogProofs.FooterWalk | lib/utils.js:85-90 | a footer is walked as footer, token, type, separator, optional whitespace, value, text |
| ChangelogProofs.FooterFacts | lib/utils.js:90-115 | along that walk the visitor finds values everywhere, one type, the text last, and '#' marks only at the separator or the text |
| ChangelogProofs.FooterReferenceOf | lib/utils.js:86-119 | a footer gives a reference exactly when its separator holds '#' or its text starts with '#', and the issue is all digits; the action is the token's type |
| ChangelogProofs.FooterTail | lib/utils.js:85-120 | a footer after the summary adds no summary and no body, and exactly its own reference |
| ChangelogProofs.FooterMessage | lib/utils.js:85-120 | the record of a summary and one footer has exactly that footer's reference |
| ChangelogProofs.HeadingErase | lib/utils.js:33-55 | the heading read from a summary does not depend on the positions of its nodes |
| ChangelogProofs.FooterReferenceErase | lib/utils.js:86-119 | the reference read from a footer does not depend on the positions of its nodes |
| ChangelogProofs.ChangelogErase | lib/utils.js:6-123 | the record, or the error, read from a tree does not depend on the positions of its nodes |
| Pipeline.TypeTo | lib/parser.js:110-124 | type over a run of type characters from the cursor to e succeeds with the leaf of that run and ends at e |
| Pipeline.SummaryTailTo | lib/parser.js:80-104 | after the type and scope, an optional '!', ": " and a one-line subject give the summary node of those values, ending at the subject's end |
| Pipeline.BareSummaryTo | lib/parser.js:54-105 | a summary `type[!]: subject` at the start of the text is the summary node of those values |
| Pipeline.ScopedSummaryTo | lib/parser.js:54-105 | a summary `type(scope)[!]: subject` at the start of the text is the summary node of those values |
| Pipeline.HeaderAt | lib/parser.js:54-105 | a text that starts with a header and goes on, if at all, with a line break has the summary of the header's type, scope, marker and subject, ending where the header does |
| Pipeline.SummaryOnly | lib/parser.js:10-23 | a summary that runs to the end of the text is the whole message |
| Pipeline.ParseUntrimmed | lib/parser.js:10-11 | a text that neither starts nor ends with whitespace parses as its message |
| Pipeline.HeaderParses | lib/parser.js:10-47 | message(header) gives a tree with one summary, of the header's own type, scope, marker and subject |
| Pipeline.HeaderRoundTrip | lib/utils.js:6-123 | parsing a header and converting the tree gives back its type, scope and subject, the header itself, no body, no references, and one BREAKING CHANGE note exactly when it is marked |
| Pipeline.NotFooterLine | lib/parser.js:188-199 | a line whose first word is followed by a space and no '#' starts no pre-footer |
| Pipeline.BodyCons | lib/parser.js:165-183 | a line that starts no footers and ends with a line feed is the first child of the body, followed by the body of the next line |
| Pipeline.BodyToEnd | lib/parser.js:34-46 | a body that runs to EOF ends the message: the summary, the body and no footer |
| Pipeline.BodyMessage | lib/parser.js:10-47 | a summary, a blank line and two prose lines give the summary and a body of the two lines |
| Pipeline.BodyParses | lib/parser.js:10-47 | message(header + blank line + two prose lines) gives the header's summary and a body of the two lines |
| Pipeline.BodyRoundTrip | lib/utils.js:57-65 | parsing such a text and converting the tree gives back the header and the two lines joined by a line feed as the body |
| Pipeline.TokenTo | lib/parser.js:246-284 | a type followed by neither '(' nor '!' is a token of that type alone |
| Pipeline.SeparatorTo | lib/parser.js:341-362 | ":" or " #" at the cursor is a separator leaf of that value |
| Pipeline.ValueToEnd | lib/parser.js:307-316 | a value of one line up to EOF is its text and no continuation |
| Pipeline.FooterLaid | lib/parser.js:204-239 | a token, a separator, an optional space and a one-line value up to EOF are the footer node of those parts |
| Pipeline.FooterToEnd | lib/parser.js:204-239 | a footer `tok sep [" "] v` up to EOF is the footer node of those parts, ending at EOF |
| Pipeline.FooterGivesWay | lib/parser.js:165-169 | where a footer runs to EOF, the body fails and leaves the cursor in place |
| Pipeline.FooterTaken | lib/parser.js:42-45 | the footer loop of message takes a footer that runs to EOF and stops |
| Pipeline.FooterTail | lib/parser.js:34-46 | after the summary, a footer that runs to EOF is the rest of the message: no body, that footer |
| Pipeline.FooterMessageAt | lib/parser.js:10-47 | a summary, a blank line and a footer give the summary and the footer |
| Pipeline.FooterParses | lib/parser.js:10-47 | message(header + blank line + footer) gives the header's summary and the footer of those parts |
| Pipeline.FooterRoundTrip | lib/utils.js:85-120 | parsing such a text and converting the tree gives back the header and a reference to the value, its '#' dropped, exactly when the separator or the value carries a '#' and the rest is a number |
| Pipeline.OneReference | lib/utils.js:86-119 | a parsed footer whose separator or value carries a '#' and whose value is otherwise a number gives exactly one reference, to that number, with the token as action |
| Pipeline.NoReference | lib/utils.js:102-119 | a parsed footer whose value, '#' dropped, is not a number gives no reference |
| Pipeline.SubjectExample | test/utils.js:8-10 | parsing 'foo: bar' and converting the tree gives type 'foo' and subject 'bar' |
| Pipeline.ScopeExample | test/utils.js:11-14 | parsing 'foo(parser): hello world' and converting the tree gives type 'foo', scope 'parser' and subject 'hello world' |
| Pipeline.BodyExample | test/utils.js:16-19 | parsing 'foo: bar\n\nthe body of commit\nsecond line' and converting the tree gives the two body lines joined by a line feed |
| Pipeline.BreakingNoteExample | test/utils.js:20-26 | parsing 'foo!: hello world' and converting the tree gives one BREAKING CHANGE note whose text is the subject |
| Pipeline.HashSeparatorExample | test/utils.js:27-32 | parsing 'foo: summary\n\nRefs #34' and converting the tree gives one reference, to issue '34' |
| Pipeline.HashTextExample | test/utils.js:33-38 | parsing 'foo: summary\n\nRefs: #34' and converting the tree gives one reference, to issue '34' |
| Pipeline.NonNumericExample | test/utils.js:39-42 | parsing 'foo: summary\n\nRefs #batman' and converting the tree gives no reference |
| Legacy.TypeEnd | index.js:111-124 | the end of the longest run of characters other than parens, whitespace, a newline and ':' |
| Legacy.TextAfter | index.js:92-93 | skipping whitespace, then the text, yields a text field and an offset within the text |
| Legacy.PastToken | index.js:12-16 | next() moves forward within the text |
| Legacy.ScopedTail | index.js:96-103 | the scoped form yields a scope field and a text field |
| Legacy.FormAfter | index.js:89-104 | after the type, the summary adds at most two fields |
| Legacy.SummaryAt | index.js:83-106 | the summary holds one to three fields, the first a type |
| Legacy.MessageOf | index.js:69-77 | the message has exactly one summary, whose first field is a type |
| Legacy.Scanner.constructor | index.js:3-6 | the scanner starts at offset 0 over the text |
| Legacy.Scanner.Eof | index.js:8-10 | eof holds exactly when the offset is at or past the end |
| Legacy.Scanner.Next | index.js:12-16 | next returns the peeked token and advances the offset by its length |
| Legacy.Scanner.Peek | index.js:18-25 | peek gives "\r\n" as one token, the character at the offset otherwise and '' at the end |
| Legacy.Scanner.Position | index.js:27-29 | position returns the offset |
| Legacy.Scanner.Rewind | index.js:31-33 | rewind sets the offset |
| Legacy.Scanner.ConsumeWhitespace | index.js:35-39 | consumeWhitespace moves past exactly the maximal run of whitespace characters |
| Legacy.TypeStopIff | index.js:116-121 | before EOF, the type loop stops exactly on a character it does not take, which is then the whole token |
| Legacy.ParseType | index.js:111-124 | type takes the maximal run of type characters, possibly empty |
| Legacy.ParseRun | index.js:134-140 | the text and scope loop takes the maximal run of its characters |
| Legacy.ParseText | index.js:129-142 | text takes the rest of the line |
| Legacy.ParseScope | index.js:147-160 | scope takes the run up to a paren or a newline |
| Legacy.SkipToText | index.js:92-93 | consumeWhitespace then text give TextAfter |
| Legacy.ParseScopedTail | index.js:96-103 | the scoped form gives ScopedTail |
| Legacy.ParseForm | index.js:89-104 | the branches after the type give FormAfter |
| Legacy.ParseSummary | index.js:83-106 | summary(scanner) gives SummaryAt |
| Legacy.ParseMessage | index.js:69-77 | message(commitText) gives MessageOf |
| LegacyProofs.TypeEndUnique | index.js:116-122 | the type run can stop only at TypeEnd |
| LegacyProofs.TypeEndSkip | index.js:116-122 | skipping type characters does not change where the run ends |
| LegacyProofs.TypeRunsAgree | index.js:118 | the type of lib/parser.js stops no later than this one, and at the same place exactly when it does not stop at a '!' |
| LegacyProofs.SummaryForms | index.js:83-106 | the summary is [type, text] exactly when ':' follows the type, [type, scope, text] exactly when '(' does, and the type alone otherwise; the text is one line |
| LegacyProofs.TextAfterAt | index.js:92-93 | the whitespace is skipped and the text runs to the end of the line |
| LegacyProofs.TextAfterOf | index.js:92-93 | after a prefix, whitespace and a line of text, the text field is that line |
| LegacyProofs.ScopedTailAt | index.js:96-103 | the scope runs to a paren or a newline, the next two tokens are consumed unchecked, then the text follows |
| LegacyProofs.TypeEndOf | index.js:111-124 | a text starting with a type word ends its type run right after the word |
| LegacyProofs.ColonSummary | index.js:89-93 | parsing "type:" + whitespace + text + line end gives [type, text], with the whitespace not stored |
| LegacyProofs.ScopedSummaryAt | index.js:94-103 | the scoped form read at offsets gives [type, scope, text] |
| LegacyProofs.ScopedSummary | index.js:94-103 | parsing "type(scope" + any two tokens + whitespace + text gives [type, scope, text], whatever the two tokens are |
| LegacyProofs.BareSummary | index.js:88-105 | without ':' or '(' after the type, the summary is the type alone |
| LegacyProofs.ColonExample | test.js:7-18 | 'fix: a really weird bug' gives type 'fix' and text 'a really weird bug' |
| LegacyProofs.ScopeExample | test.js:19-33 | 'feat(parser): add support for scopes' gives type 'feat', scope 'parser' and text 'add support for scopes' |
| LegacyProofs.UncheckedCloseExample | index.js:98-101 | in 'fix(api(! oops' the '(' and '!' after the scope are consumed as ')' and ':' |
| LegacyProofs.BareExample | index.js:88-105 | 'hello world' gives the summary [type 'hello'] alone |

## Left out

- The command-line inspection scripts (`inspect.js`, `scripts/inspect.js`) and the snapshot machinery of the tests are not part of this model. The tests' assertions appear as lemmas instead.
- `index.d.ts` holds only type declarations. Its `newline` nodes are never built by the parser.
- unist-util-visit is modelled by the preorder walk `Changelog.Preorder`. A visitor's test on node types is a filter on that walk.
- Character counts: Dafny characters are code points, while JavaScript counts UTF-16 code units. Offsets and columns agree only for text within the Basic Multilingual Plane.
- `Parser.Trim`: `String.prototype.trim` is modelled over a declared set of characters. The set is the ECMAScript WhiteSpace and LineTerminator characters, including the Unicode space separators.
- Positions are values, so the aliasing that `rewind` creates (lib/scanner.js:48-50) is not modelled in general. Its cursor effect at lib/parser.js:273 is modelled: the rewind there does not move the cursor. The drift of that token node's own start, which follows the cursor, is left out.
- No lemma states anything about the start position of a token node inside a footer, for the same reason.
- Parser.FooterLoop: adds an exit on a failing footer that leaves the cursor where it was. The source would loop forever there. `ParserProofs.MessageFootersReachEnd` shows that after the body this exit is never taken.
- The error examples are proved as lemmas over texts that start with the test inputs: the summary fails on that prefix, and the message follows from the failure. The full test strings are not used as literals.
- BodyParses: proved for a header without scope or marker and a body of two lines, each of which starts with a word of type characters not starting with 'B', followed by a space and no '#'. Such a line cannot start a footer. Longer bodies follow the same `BodyCons` step but are not stated.
- FooterParses: proved for a header without scope or marker and one footer whose token is a type word not starting with 'B', so that the token cannot be BREAKING CHANGE. Scoped tokens, '!' and several footers are not stated.
- The `owner`, `repository` and `raw` fields of a reference are never set by the source, so they are absent from the model.
- Legacy.Scanner: `rewind` and `next` may leave the offset past the end of the text. The parse methods require a scanner within the text, which is what `message` creates.
- LegacyProofs.ScopedSummary: requires that neither token after the scope is a CR. A CR there would fuse with a following LF into one token.
- The `codes` module is not part of this model. Its constants are the code points that index.js spells out.
