# gomodclean require-style checker, in Dafny

gomodclean is a Go linter for `go.mod` files. It inspects only the `require`
directives and enforces three layout rules:

1. Isolated `require` lines should be grouped into blocks. One stray line of
   a kind is tolerated.
2. There are at most two `require` blocks. An isolated line must not exist
   beside a block of its own kind.
3. The first block holds only direct dependencies and the second only
   indirect ones. A lone block must not be mixed.

A dependency is indirect when a trailing comment of its line marks it so.

The checker works in two phases:

- **Extraction.** It walks the parsed statement list into a `reqStmts` value:
  - the isolated direct lines, in document order;
  - the isolated indirect lines, in document order;
  - the blocks, each carrying a fold of its lines' kinds into a consistency.
- **Analysis.** It runs the rules in order and stops at the first rule
  that reports anything.

The repository holds two copies of this logic:

- `internal/processor/processor.go` is the copy the linter uses. Its
  issues carry positions.
- `internal/analyzer` is an older copy. It returns bare strings and differs
  in rule 3 and in how it recognises an indirect line.

Modules:

- `ModFile`: the slice of the parsed syntax tree that is inspected, with
  `Option`, `Position`, and models of `strings.HasPrefix` and
  `strings.Contains`.
- `Fmt`: the decimal rendering of `%d`, with a parse-back round trip.
- `Messages`: the rule 1 and rule 2 texts, whose format strings both copies
  share.
- `ConsistencyFold`: the three-state consistency shared by both copies,
  its one-step update `Combine`, the fold `Fold` over a sequence of kind
  flags, and an independent reference classification `Classify`.
- `Processor`:
  - the value model (`ReqLine`, `Block`, `Stmts`, `Issue`);
  - the rules as functions on a snapshot;
  - the extraction as declarative filters over the statement list;
  - the imperative code as classes `ReqBlock` and `ReqStmts`, whose
    methods are proved to compute exactly those functions;
  - `ProcessFile` and its statement loop.
- `ProcessorRules`, `ProcessorExtraction`: what the rules and the
  extraction guarantee.
- `ProcessorScenarios`: concrete layouts with the issues the test
  expectations name.
- `Analyzer`, `AnalyzerRules`: the same for the older copy.
- `Variants`: the two copies side by side. Without positions, rules 1 and 2
  agree. Rule 3 agrees up to the final period, except on a lone block. The
  prefix test for "indirect" implies the substring test, but not conversely.
  When no comment tells the two tests apart, both extractions agree.

Notes on the code:

- Indirect marker. The processor recognises a line as indirect when a
  suffix comment *starts with* `// indirect` (processor.go:282). The
  older copy does so when the comment *contains* `indirect` anywhere
  (analyzer.go:82). The two models follow their code.
  `Variants.ContainsTestIsLooser` exhibits a comment on which the two
  tests differ.
- The clean case. A file with at most one isolated line per kind and two
  correctly ordered blocks is *not* always clean. Rule 2 still objects to
  an isolated line beside a block of its own kind (processor.go:163-175).
  `ProcessorRules.AnalysisCleanIff` states the exact condition.
  `ProcessorScenarios.IsolatedDirectLineShouldBeInsideBlock` gives an
  instance.
- Inner-line positions. The lines inside a block record only a line
  number, with an empty file name (processor.go:255-257). The model does
  the same, and no issue ever cites such a position.
- Empty blocks. A block whose inner lines all have fewer than two tokens
  is still recorded, with consistency `Unset`, and it takes part in
  rules 2 and 3.

## Model

| member | source | states |
|---|---|---|
| Fmt.Decimal | internal/processor/processor.go:134 | the `%d` rendering of a count is a non-empty string of digits without a leading zero |
| Fmt.DecimalRoundTrip | internal/processor/processor.go:134 | reading the rendered digits back gives the count |
| Fmt.DecimalInjective | internal/processor/processor.go:155 | different counts give different texts |
| ConsistencyFold.Combine | internal/processor/processor.go:85-105 | one update never yields `Unset`; `Mixed` stays `Mixed`; `OnlyDirect` only after a direct line, `OnlyIndirect` only after an indirect one |
| ConsistencyFold.FoldSnoc | internal/processor/processor.go:78-81 | folding one more line at the end is one `Combine` step on the previous consistency |
| ConsistencyFold.FoldClassifies | internal/processor/processor.go:85-105 | the fold equals the reference classification: `Unset` for no line, the single kind if only one occurs, else `Mixed` |
| ConsistencyFold.FoldOrderIndependent | internal/processor/processor.go:85-105 | the fold depends only on the multiset of flags, not their order |
| ConsistencyFold.MixedAbsorbs | internal/processor/processor.go:101-103 | once the lines so far are mixed, any further lines keep the block mixed |
| Processor.ConsistencyOfSnoc | internal/processor/processor.go:78-81 | a block's consistency after appending a line is `Combine` of the old one with the line's flag |
| Processor.ReqBlock.constructor | internal/processor/processor.go:241-246 | a new block has no lines, `Unset` consistency and the given position |
| Processor.ReqBlock.AddLine | internal/processor/processor.go:78-81 | appends exactly the line at the end, leaves the position, and keeps the consistency equal to the fold of all lines |
| Processor.ReqBlock.UpdateConsistency | internal/processor/processor.go:85-105 | the consistency becomes `Combine` of the old value and the flag, `Mixed` untouched |
| Processor.ReqStmts.constructor | internal/processor/processor.go:223 | the model starts with no lines and no blocks |
| Processor.ReqStmts.AddLine | internal/processor/processor.go:63-69 | an indirect line is appended to the indirect lines, a direct one to the direct lines; the other container and the blocks are unchanged |
| Processor.ReqStmts.AddBlock | internal/processor/processor.go:72-74 | the block is appended at the end; both line containers are unchanged |
| Processor.ReqStmts.CheckRule1 | internal/processor/processor.go:128-146 | returns exactly rule 1 of the current model |
| Processor.ReqStmts.CheckRule2 | internal/processor/processor.go:149-178 | the loop over the blocks returns exactly rule 2 of the current model |
| Processor.ReqStmts.CheckRule3 | internal/processor/processor.go:182-219 | returns exactly rule 3 of the current model |
| Processor.ReqStmts.Analyze | internal/processor/processor.go:108-122 | returns exactly the short-circuit analysis of the current model |
| Processor.IsIndirect | internal/processor/processor.go:279-289 | true iff the comment exists and one of its suffix tokens starts with `// indirect` |
| Processor.IsRequire | internal/processor/processor.go:274-276 | a statement is a require statement iff its first token is exactly `require` |
| Processor.NewBlock | internal/processor/processor.go:241-261 | a fresh block positioned at the statement, holding the inner lines with at least two tokens in order, with the fold of their kinds |
| Processor.AddStmt | internal/processor/processor.go:226-267 | a require line is routed by kind, a require block is appended, anything else leaves the model unchanged |
| Processor.BuildModel | internal/processor/processor.go:223-268 | the statement loop yields exactly the declarative extraction of the file |
| Processor.ProcessFile | internal/processor/processor.go:222-271 | the issues are the analysis of the file's extracted model |
| Processor.ExtractSnoc | internal/processor/processor.go:225-268 | extracting one more statement extends the model by that statement alone |
| ProcessorRules.ConsistencyOfLines | internal/processor/processor.go:85-105 | `Unset` iff no line; `OnlyDirect` iff non-empty and all direct; `OnlyIndirect` iff non-empty and all indirect; `Mixed` iff both kinds occur |
| ProcessorRules.KindSurvivesPermutation | internal/processor/processor.go:85-105 | a kind present in a block's lines is present in any reordering of them |
| ProcessorRules.ConsistencyOrderIndependent | internal/processor/processor.go:85-105 | reordering a block's lines does not change its consistency |
| ProcessorRules.MixedStaysMixed | internal/processor/processor.go:101-103 | a mixed block stays mixed whatever is appended |
| ProcessorRules.Rule1Reports | internal/processor/processor.go:128-146 | no issue iff neither container has more than one line; one issue per overfull container, direct first, at element 0, text embedding the container's length |
| ProcessorRules.BlockIssuesReport | internal/processor/processor.go:163-175 | one issue per flagged block, in block order, each naming element 0 of the isolated container of that block's kind with its name and version; none iff no block is flagged; an issue for each kind that has both a block and an isolated line |
| ProcessorRules.Rule2TooManyBlocks | internal/processor/processor.go:152-159 | more than two blocks: exactly one issue, at the first block, embedding the count |
| ProcessorRules.Rule2PerBlock | internal/processor/processor.go:161-177 | at most two blocks: none iff no block is flagged; with one or two blocks, exactly the issue of each flagged block, the first block's before the second's |
| ProcessorRules.Rule3Cases | internal/processor/processor.go:182-219 | no block: nothing; one block: the mixed message iff it is mixed; two or more: the first-block message iff the first is not direct-only, then the second-block message iff the second is not indirect-only |
| ProcessorRules.Rule3Punctuated | internal/processor/processor.go:192-213 | every rule 3 message ends with a period |
| ProcessorRules.LoneIndirectBlockAccepted | internal/processor/processor.go:208-216 | a lone indirect-only block raises no rule 3 issue |
| ProcessorRules.Rule3InspectsFirstTwo | internal/processor/processor.go:188-216 | rule 3 depends only on the consistency and position of the first two blocks |
| ProcessorRules.AnalysisShortCircuits | internal/processor/processor.go:108-122 | rule 1's issues if any, else rule 2's if any, else rule 3's |
| ProcessorRules.AnalysisCleanIff | internal/processor/processor.go:108-219 | no issue iff at most one line per container, at most two blocks, no flagged block, and the blocks are ordered and not mixed as rule 3 demands |
| ProcessorRules.AnalysisAtMostTwo | internal/processor/processor.go:108-219 | the analysis never reports more than two issues |
| ProcessorRules.Rule2CitesFront | internal/processor/processor.go:152-175 | every rule 2 issue is at the first block or at element 0 of an isolated container |
| ProcessorRules.Rule3CitesFront | internal/processor/processor.go:188-216 | every rule 3 issue is at the first or the second block |
| ProcessorRules.AnalysisCitesFirstOnly | internal/processor/processor.go:131-213 | every issue is at element 0 of a container, or at the first or second block |
| ProcessorRules.AnalysisPositions | internal/processor/processor.go:108-219 | every issue's position is that of an isolated line or a block of the model |
| ProcessorExtraction.IsolatedLinesAppend | internal/processor/processor.go:225-238 | the isolated lines of two runs of statements are those of the first followed by those of the second |
| ProcessorExtraction.BlocksAppend | internal/processor/processor.go:239-263 | the blocks of two runs of statements are those of the first followed by those of the second |
| ProcessorExtraction.ExtractAppend | internal/processor/processor.go:225-268 | extraction keeps document order: the model of a concatenation joins the two models |
| ProcessorExtraction.ExtractIgnoresOthers | internal/processor/processor.go:228-266 | inserting a non-require statement anywhere leaves the model unchanged |
| ProcessorExtraction.IsolatedLinesFrom | internal/processor/processor.go:227-238 | a line is an isolated line of a kind iff it comes from a require line with that marker status, named by token 1 and versioned by token 2 |
| ProcessorExtraction.BlockLinesFrom | internal/processor/processor.go:248-260 | a block keeps exactly the inner lines with at least two tokens, and never more lines than it has |
| ProcessorExtraction.BlankBlockIsUnset | internal/processor/processor.go:248-262 | a block whose inner lines are all skipped is still recorded, empty and `Unset` |
| ProcessorExtraction.BlocksFrom | internal/processor/processor.go:239-263 | exactly the require blocks become blocks, at their opening line, each with the fold of its kept lines |
| ProcessorExtraction.ModelPositionsAreRequirePositions | internal/processor/processor.go:233-245 | every position in the model is the file name with the opening line of a require statement |
| ProcessorExtraction.ProcessFilePositions | internal/processor/processor.go:222-271 | every issue `ProcessFile` returns cites the file and the line of a require statement of it |
| ProcessorScenarios.HeaderIsEmpty | internal/processor/processor.go:228 | the `module` and `go` lines contribute nothing to the model |
| ProcessorScenarios.SeveralDirectLines | internal/processor/processor_test.go:28-34 | two isolated direct require lines at lines 5 and 6 give one rule 1 issue at line 5 counting 2 |
| ProcessorScenarios.MoreThanTwoBlocks | internal/processor/processor_test.go:56-61 | four blocks give the single count message at the first block |
| ProcessorScenarios.IsolatedDirectLineShouldBeInsideBlock | internal/processor/processor_test.go:62-67 | an isolated direct line beside a direct-only block is reported at that line, with its name and version |
| ProcessorScenarios.IsolatedIndirectLineShouldBeInsideBlock | internal/processor/processor_test.go:68-73 | an isolated indirect line at line 12 beside a direct block and an indirect block is reported once, at that line, with its name and version |
| ProcessorScenarios.IsolatedLinesShouldBeInsideBlock | internal/processor/processor_test.go:74-83 | one isolated line of each kind beside a direct block and an indirect block gives two issues: the direct line's at line 5, then the indirect line's at line 11 |
| ProcessorScenarios.UnorderedBlocks | internal/processor/processor_test.go:90-99 | an indirect block before a direct block gives both rule 3 messages at the two blocks |
| ProcessorScenarios.MixedFirstBlock | internal/processor/processor.go:188-205 | a mixed first block with a correct second block gives only the first-block message |
| ProcessorScenarios.LoneMixedBlock | internal/processor/processor.go:208-216 | a lone mixed block gives the mixed-block message |
| ProcessorScenarios.MarkerWithTrailingText | internal/processor/processor.go:279-289 | a suffix comment continuing after `// indirect` still marks the line indirect |
| ProcessorScenarios.TwoBlocksConsistency | internal/processor/processor.go:248-260 | an unmarked inner line makes a direct-only block, a marked one an indirect-only block |
| ProcessorScenarios.TwoBlocksModel | internal/processor/processor.go:222-268 | a direct block followed by an indirect block is extracted as exactly those two blocks |
| ProcessorScenarios.TwoCorrectBlocks | internal/processor/processor_test.go:89 | the file with a direct block then an indirect block gives no issue |
| Analyzer.ConsistencyOfSnoc | internal/analyzer/model.go:61-64 | a block's consistency after appending a line is `Combine` of the old one with the line's flag |
| Analyzer.ReqBlock.constructor | internal/analyzer/analyzer.go:52 | a new block has no lines and `Unset` consistency |
| Analyzer.ReqBlock.AddLine | internal/analyzer/model.go:61-64 | appends exactly the line and keeps the consistency equal to the fold of all lines |
| Analyzer.ReqBlock.UpdateConsistency | internal/analyzer/model.go:68-87 | the same three-state update, `Mixed` untouched |
| Analyzer.ReqStmts.constructor | internal/analyzer/analyzer.go:38 | the model starts with no lines and no blocks |
| Analyzer.ReqStmts.AddLine | internal/analyzer/model.go:46-52 | routes by the flag, appending only to the matching container |
| Analyzer.ReqStmts.AddBlock | internal/analyzer/model.go:55-57 | appends the block; the line containers are unchanged |
| Analyzer.ReqStmts.CheckRule1 | internal/analyzer/model.go:111-119 | returns exactly this copy's rule 1 of the current model |
| Analyzer.ReqStmts.CheckRule2 | internal/analyzer/model.go:122-142 | returns exactly this copy's rule 2 of the current model |
| Analyzer.ReqStmts.CheckRule3 | internal/analyzer/model.go:146-162 | returns exactly this copy's rule 3 of the current model |
| Analyzer.ReqStmts.Analyze | internal/analyzer/model.go:90-105 | returns exactly this copy's short-circuit analysis of the current model |
| Analyzer.IsIndirect | internal/analyzer/analyzer.go:79-88 | true iff the comment exists and one of its suffix tokens contains `indirect` |
| Analyzer.IsRequire | internal/analyzer/analyzer.go:74-76 | a statement is a require statement iff its first token is exactly `require` |
| Analyzer.NewBlock | internal/analyzer/analyzer.go:52-62 | a fresh block holding the inner lines with at least two tokens, in order |
| Analyzer.AddStmt | internal/analyzer/analyzer.go:41-67 | a require line is routed by kind, a require block appended, anything else ignored |
| Analyzer.ProcessFile | internal/analyzer/analyzer.go:37-71 | the statement loop yields exactly this copy's extraction of the file |
| Analyzer.AnalyzeFile | internal/analyzer/analyzer.go:20-23 | the messages `Run` would print are this copy's analysis of the extracted model |
| Analyzer.ExtractSnoc | internal/analyzer/analyzer.go:40-68 | extracting one more statement extends the model by that statement alone |
| AnalyzerRules.ConsistencyClassifies | internal/analyzer/model.go:68-87 | this copy's fold equals the reference classification |
| AnalyzerRules.Rule1Reports | internal/analyzer/model.go:111-119 | at most two messages, direct first, each embedding its container's length; none iff no container has more than one line |
| AnalyzerRules.BlockIssuesReport | internal/analyzer/model.go:132-139 | one message per flagged block, in block order, each naming element 0 of the container of that block's kind; none iff no block is flagged; a message for each kind that has both a block and an isolated line |
| AnalyzerRules.Rule2Reports | internal/analyzer/model.go:122-142 | more than two blocks: exactly the count message, the loop skipped; otherwise none iff no block is flagged, and with one or two blocks exactly the message of each flagged block, in block order |
| AnalyzerRules.Rule3Reports | internal/analyzer/model.go:146-162 | each message at most once, the first-block message before the second-block one: the first block is flagged iff it is not direct-only, whenever blocks exist; the second iff it is not indirect-only; no message ends in a period |
| AnalyzerRules.LoneIndirectBlockFlagged | internal/analyzer/model.go:148-152 | a lone indirect-only block is flagged with the first-block message |
| AnalyzerRules.AnalysisShortCircuits | internal/analyzer/model.go:90-105 | rule 1's messages if any, else rule 2's if any, else rule 3's |
| AnalyzerRules.IsolatedLinesFrom | internal/analyzer/analyzer.go:42-49 | a line is an isolated line of a kind iff it comes from a require line with that comment status, named by token 1 and versioned by token 2 |
| AnalyzerRules.BlockLinesFrom | internal/analyzer/analyzer.go:53-62 | a block keeps exactly the inner lines with at least two tokens, named by token 0 and versioned by token 1 |
| AnalyzerRules.BlankBlockKept | internal/analyzer/analyzer.go:50-64 | a block whose inner lines were all skipped is still appended, empty and `Unset` |
| AnalyzerRules.BlocksFrom | internal/analyzer/analyzer.go:50-64 | exactly the require block statements become blocks |
| Variants.SameFold | internal/analyzer/model.go:68-87 | both copies fold the same lines to the same consistency |
| Variants.Rule1Agrees | internal/analyzer/model.go:111-119 | the older rule 1 gives the processor's rule 1 texts |
| Variants.BlockIssueAgrees | internal/analyzer/model.go:133-138 | one block: the older copy's message is the processor's text |
| Variants.BlockIssuesAgree | internal/analyzer/model.go:132-139 | the per-block loops give the same texts |
| Variants.Rule2Agrees | internal/analyzer/model.go:122-142 | the older rule 2 gives the processor's rule 2 texts |
| Variants.Rule3AgreesUpToPeriod | internal/analyzer/model.go:146-162 | with zero or at least two blocks, rule 3 gives the processor's texts less their final period |
| Variants.Rule3OnLoneBlock | internal/analyzer/model.go:148-152 | with one block the processor objects only if it is mixed, the older copy whenever it is not direct-only |
| Variants.AnalysesAgree | internal/analyzer/model.go:90-105 | away from a lone block the analyses give the same texts, rule 3's less the period |
| Variants.LegacyRejectsLoneIndirectBlock | internal/analyzer/analyzer_test.go:70 | a file whose only block is indirect-only is rejected by the older copy and accepted by the processor |
| Variants.MarkerImpliesWord | internal/analyzer/analyzer.go:82 | a token starting with `// indirect` contains `indirect` |
| Variants.PrefixTestImpliesContainsTest | internal/analyzer/analyzer.go:79-88 | whatever the processor takes for indirect, the older copy does too |
| Variants.ContainsTestIsLooser | internal/analyzer/analyzer.go:82 | the comment `// not indirect` is indirect for the older copy only |
| Variants.BlockLinesAgree | internal/analyzer/analyzer.go:53-62 | without disagreeing comments, both copies keep the same block lines |
| Variants.IsolatedLinesAgree | internal/analyzer/analyzer.go:42-49 | without disagreeing comments, both copies extract the same isolated lines |
| Variants.BlocksAgree | internal/analyzer/analyzer.go:50-64 | without disagreeing comments, both copies extract the same blocks |
| Variants.ExtractionAgrees | internal/analyzer/analyzer.go:37-71 | without disagreeing comments, the older model is the processor's without positions |

## Left out

- The go.mod parser (`modfile.Parse`, comment attachment, newline handling) is not part of this model. A parsed file is a name and a list of statements: lines with tokens, an optional list of suffix-comment tokens and a start line; blocks with header tokens and inner lines; and everything else.
- internal/io/io.go is not part of this model. It runs `go env GOMOD` and reads the file from disk.
- pkg/analyzer/analyzer.go and cmd/main.go are not part of this model. They are wrappers and the entry point.
- `Run` (internal/analyzer/analyzer.go:11-34) is modelled only from extraction to analysis (`Analyzer.AnalyzeFile`). Fetching the file, `log.Fatal`, printing and the exit status are I/O.
- Go's out-of-range panics are preconditions (`ModFile.Processable`), not an error path. These cover a single `require` line with fewer than three tokens, and a statement with no tokens passed to `isRequire`.
- `Issue` positions keep only the file name and line, not the column or offset of `token.Position`, which the source never sets.
- Block objects are held by reference in the model's list, as in the source. The proofs assume nothing about aliasing beyond what the methods themselves create.
- The scenarios do not read the `testdata` fixtures; they use hand-built statement lists and models shaped after the test expectations.
- ProcessorScenarios: the scenario issue texts are stated through the message functions (`GroupingText`, `MaxBlocksText`, `InsideBlockText` and the message constants), not as fully spelled-out string literals.

## Findings

| source | as written | input that shows it | evidently intended | confidence | as-written member | corrected member |
|---|---|---|---|---|---|---|
| internal/analyzer/model.go:146-162 | rule 3 flags the first block whenever it is not direct-only, even when it is the only block | a file whose single require block contains only `// indirect` lines; the test at internal/analyzer/analyzer_test.go:70 expects no issue | a lone block is reported only when mixed, as the processor does (internal/processor/processor.go:208-216) | not executed | Variants.LegacyRejectsLoneIndirectBlock | ProcessorRules.LoneIndirectBlockAccepted |
| internal/analyzer/model.go:146-162 | the rule 3 messages have no final period | any file with an indirect-only first block among two; the test at internal/analyzer/analyzer_test.go:63-69 expects the messages with a period | the messages end with a period, as in internal/processor/processor.go:192-199 | not executed | AnalyzerRules.Rule3Reports | ProcessorRules.Rule3Punctuated |
