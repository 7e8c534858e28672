/** The older copy of the require-directive checker, in internal/analyzer
    (model.go and analyzer.go): the same model without positions, issues as
    plain strings, a Rule 3 that also flags a lone block that is not
    direct-only, and an indirect test by substring rather than prefix. */
module Analyzer {
  import opened ModFile
  import opened ConsistencyFold
  import opened Fmt
  import opened Messages

  /** The substring that marks a dependency as indirect in this copy. */
  const IndirectWord: string := "indirect"

  datatype ReqLine = ReqLine(name: string, version: string, indirect: bool)
  datatype Block = Block(lines: seq<ReqLine>, consistency: Consistency)
  datatype Stmts = Stmts(directLines: seq<ReqLine>, indirectLines: seq<ReqLine>, blocks: seq<Block>)

  function Flags(lines: seq<ReqLine>): (flags: seq<bool>)
    ensures |flags| == |lines|
    ensures forall k :: 0 <= k < |lines| ==> flags[k] == lines[k].indirect
  {
    seq(|lines|, k requires 0 <= k < |lines| => lines[k].indirect)
  }

  function ConsistencyOf(lines: seq<ReqLine>): Consistency {
    Fold(Flags(lines))
  }

  lemma ConsistencyOfSnoc(lines: seq<ReqLine>, line: ReqLine)
    ensures ConsistencyOf(lines + [line]) == Combine(ConsistencyOf(lines), line.indirect)
  {
    assert Flags(lines + [line]) == Flags(lines) + [line.indirect];
    FoldSnoc(Flags(lines), line.indirect);
  }

  // ---------------------------------------------------------------------
  // Messages

  const FirstBlockText: string := "first require block should only contain direct dependencies"
  const SecondBlockText: string := "second require block should only contain indirect dependencies"

  // ---------------------------------------------------------------------
  // The rules, as functions of a model snapshot

  /** `checkRule1`. */
  function Rule1(m: Stmts): seq<string> {
    (if |m.directLines| > 1 then [GroupingText("direct", |m.directLines|)] else [])
    + (if |m.indirectLines| > 1 then [GroupingText("indirect", |m.indirectLines|)] else [])
  }

  /** The message about the first isolated direct line, rendered for Rule 2. */
  function DirectInsideText(m: Stmts): string
    requires |m.directLines| > 0
  {
    InsideBlockText(m.directLines[0].name, m.directLines[0].version)
  }

  function IndirectInsideText(m: Stmts): string
    requires |m.indirectLines| > 0
  {
    InsideBlockText(m.indirectLines[0].name, m.indirectLines[0].version)
  }

  /** What `checkRule2`'s loop body reports for one block. */
  function BlockIssue(m: Stmts, b: Block): seq<string> {
    if b.consistency == OnlyDirect && |m.directLines| > 0 then [DirectInsideText(m)]
    else if b.consistency == OnlyIndirect && |m.indirectLines| > 0 then [IndirectInsideText(m)]
    else []
  }

  function BlockIssues(m: Stmts, bs: seq<Block>): seq<string> {
    if bs == [] then [] else BlockIssues(m, bs[..|bs| - 1]) + BlockIssue(m, bs[|bs| - 1])
  }

  /** `checkRule2`. */
  function Rule2(m: Stmts): seq<string> {
    if |m.blocks| > 2 then [MaxBlocksText(|m.blocks|)] else BlockIssues(m, m.blocks)
  }

  /** `checkRule3`: the first block, if any, must be direct-only; the second,
      if any, indirect-only. */
  function Rule3(m: Stmts): seq<string> {
    (if |m.blocks| > 0 && m.blocks[0].consistency != OnlyDirect then [FirstBlockText] else [])
    + (if |m.blocks| > 1 && m.blocks[1].consistency != OnlyIndirect then [SecondBlockText] else [])
  }

  /** `analyze`. */
  function Analysis(m: Stmts): seq<string> {
    if Rule1(m) != [] then Rule1(m)
    else if Rule2(m) != [] then Rule2(m)
    else Rule3(m)
  }

  // ---------------------------------------------------------------------
  // Extraction, as functions of the syntax tree

  /** `isRequire`. */
  predicate IsRequire(tokens: seq<string>): (r: bool)
    requires |tokens| > 0
    ensures r <==> tokens[..1] == ["require"]
  {
    tokens[0] == "require"
  }

  /** What this copy's `isIndirect` decides: some suffix comment contains the
      word anywhere. */
  predicate MentionsIndirect(comment: Option<Comments>) {
    comment.Some? &&
    exists k :: 0 <= k < |comment.value.suffix| && Contains(comment.value.suffix[k], IndirectWord)
  }

  predicate IsRequireLine(s: Stmt)
    requires Processable(s)
  {
    s.LineStmt? && IsRequire(s.line.token)
  }

  predicate IsRequireBlock(s: Stmt)
    requires Processable(s)
  {
    s.LineBlock? && IsRequire(s.token)
  }

  function IsolatedLine(l: Line): ReqLine
    requires |l.token| >= 3
  {
    ReqLine(l.token[1], l.token[2], MentionsIndirect(l.comment))
  }

  function BlockLine(l: Line): ReqLine
    requires |l.token| >= 2
  {
    ReqLine(l.token[0], l.token[1], MentionsIndirect(l.comment))
  }

  function BlockLines(inner: seq<Line>): seq<ReqLine> {
    if inner == [] then []
    else
      var l := inner[|inner| - 1];
      BlockLines(inner[..|inner| - 1]) + (if |l.token| > 1 then [BlockLine(l)] else [])
  }

  function BlockOf(inner: seq<Line>): Block {
    var lines := BlockLines(inner);
    Block(lines, ConsistencyOf(lines))
  }

  function IsolatedLines(stmts: seq<Stmt>, indirect: bool): seq<ReqLine>
    requires AllProcessable(stmts)
  {
    if stmts == [] then []
    else
      var s := stmts[|stmts| - 1];
      IsolatedLines(stmts[..|stmts| - 1], indirect)
      + (if IsRequireLine(s) && MentionsIndirect(s.line.comment) == indirect
         then [IsolatedLine(s.line)] else [])
  }

  function Blocks(stmts: seq<Stmt>): seq<Block>
    requires AllProcessable(stmts)
  {
    if stmts == [] then []
    else
      var s := stmts[|stmts| - 1];
      Blocks(stmts[..|stmts| - 1]) + (if IsRequireBlock(s) then [BlockOf(s.lines)] else [])
  }

  function Extract(stmts: seq<Stmt>): Stmts
    requires AllProcessable(stmts)
  {
    Stmts(IsolatedLines(stmts, false), IsolatedLines(stmts, true), Blocks(stmts))
  }

  function ExtendedBy(m: Stmts, s: Stmt): Stmts
    requires Processable(s)
  {
    if IsRequireLine(s) then
      var line := IsolatedLine(s.line);
      if line.indirect then m.(indirectLines := m.indirectLines + [line])
      else m.(directLines := m.directLines + [line])
    else if IsRequireBlock(s) then m.(blocks := m.blocks + [BlockOf(s.lines)])
    else m
  }

  lemma ExtractSnoc(stmts: seq<Stmt>, s: Stmt)
    requires AllProcessable(stmts) && Processable(s)
    ensures AllProcessable(stmts + [s])
    ensures Extract(stmts + [s]) == ExtendedBy(Extract(stmts), s)
  {
    assert (stmts + [s])[..|stmts|] == stmts;
  }

  // ---------------------------------------------------------------------
  // The objects the source mutates

  class ReqBlock {
    var lines: seq<ReqLine>
    var consistency: Consistency

    ghost predicate Valid()
      reads this
    {
      consistency == ConsistencyOf(lines)
    }

    ghost function View(): Block
      reads this
    {
      Block(lines, consistency)
    }

    constructor ()
      ensures Valid() && lines == [] && consistency == Unset
    {
      lines, consistency := [], Unset;
    }

    method AddLine(line: ReqLine)
      requires Valid()
      modifies this
      ensures Valid()
      ensures lines == old(lines) + [line]
      ensures consistency == Combine(old(consistency), line.indirect)
    {
      ConsistencyOfSnoc(lines, line);
      lines := lines + [line];
      UpdateConsistency(line.indirect);
    }

    method UpdateConsistency(indirect: bool)
      modifies this`consistency
      ensures consistency == Combine(old(consistency), indirect)
    {
      match consistency {
        case Unset =>
          if indirect {
            consistency := OnlyIndirect;
          } else {
            consistency := OnlyDirect;
          }
        case OnlyIndirect =>
          if !indirect {
            consistency := Mixed;
          }
        case OnlyDirect =>
          if indirect {
            consistency := Mixed;
          }
        case Mixed =>
      }
    }
  }

  ghost function Views(bs: seq<ReqBlock>): (r: seq<Block>)
    reads bs
    ensures |r| == |bs|
    ensures forall k :: 0 <= k < |bs| ==> r[k] == bs[k].View()
  {
    if bs == [] then [] else Views(bs[..|bs| - 1]) + [bs[|bs| - 1].View()]
  }

  class ReqStmts {
    var directLines: seq<ReqLine>
    var indirectLines: seq<ReqLine>
    var blocks: seq<ReqBlock>

    ghost function Model(): Stmts
      reads this, blocks
    {
      Stmts(directLines, indirectLines, Views(blocks))
    }

    constructor ()
      ensures directLines == [] && indirectLines == [] && blocks == []
    {
      directLines, indirectLines, blocks := [], [], [];
    }

    method AddLine(line: ReqLine)
      modifies this
      ensures blocks == old(blocks)
      ensures line.indirect ==> indirectLines == old(indirectLines) + [line] && directLines == old(directLines)
      ensures !line.indirect ==> directLines == old(directLines) + [line] && indirectLines == old(indirectLines)
    {
      if line.indirect {
        indirectLines := indirectLines + [line];
      } else {
        directLines := directLines + [line];
      }
    }

    method AddBlock(block: ReqBlock)
      modifies this
      ensures blocks == old(blocks) + [block]
      ensures directLines == old(directLines) && indirectLines == old(indirectLines)
    {
      blocks := blocks + [block];
    }

    /** `checkRule1`. */
    method CheckRule1() returns (issues: seq<string>)
      ensures issues == Rule1(Model())
    {
      issues := [];
      if |directLines| > 1 {
        issues := issues + [GroupingText("direct", |directLines|)];
      }
      if |indirectLines| > 1 {
        issues := issues + [GroupingText("indirect", |indirectLines|)];
      }
    }

    /** `checkRule2`, with its loop over the blocks. */
    method CheckRule2() returns (issues: seq<string>)
      ensures issues == Rule2(Model())
    {
      issues := [];
      if |blocks| > 2 {
        issues := issues + [MaxBlocksText(|blocks|)];
      }
      if |issues| > 0 {
        return;
      }
      ghost var m := Model();
      var k := 0;
      while k < |blocks|
        invariant 0 <= k <= |blocks|
        invariant issues == BlockIssues(m, m.blocks[..k])
      {
        var block := blocks[k];
        if block.consistency == OnlyDirect && |directLines| > 0 {
          issues := issues + [InsideBlockText(directLines[0].name, directLines[0].version)];
        } else if block.consistency == OnlyIndirect && |indirectLines| > 0 {
          issues := issues + [InsideBlockText(indirectLines[0].name, indirectLines[0].version)];
        }
        assert m.blocks[..k + 1][..k] == m.blocks[..k];
        k := k + 1;
      }
      assert m.blocks[..k] == m.blocks;
    }

    /** `checkRule3`: each of the first two blocks is checked on its own. */
    method CheckRule3() returns (issues: seq<string>)
      ensures issues == Rule3(Model())
    {
      issues := [];
      if |blocks| > 0 {
        if blocks[0].consistency != OnlyDirect {
          issues := issues + [FirstBlockText];
        }
      }
      if |blocks| > 1 {
        if blocks[1].consistency != OnlyIndirect {
          issues := issues + [SecondBlockText];
        }
      }
    }

    method Analyze() returns (issues: seq<string>)
      ensures issues == Analysis(Model())
    {
      issues := CheckRule1();
      if |issues| > 0 {
        return;
      }
      issues := CheckRule2();
      if |issues| > 0 {
        return;
      }
      issues := CheckRule3();
    }
  }

  // ---------------------------------------------------------------------
  // The imperative entry points

  /** This copy's `isIndirect`: scans the suffix comments for the word. */
  method IsIndirect(comment: Option<Comments>) returns (indirect: bool)
    ensures indirect == MentionsIndirect(comment)
  {
    if comment.Some? {
      var suffix := comment.value.suffix;
      var k := 0;
      while k < |suffix|
        invariant 0 <= k <= |suffix|
        invariant forall j :: 0 <= j < k ==> !Contains(suffix[j], IndirectWord)
      {
        if Contains(suffix[k], IndirectWord) {
          return true;
        }
        k := k + 1;
      }
    }
    return false;
  }

  method NewBlock(inner: seq<Line>) returns (block: ReqBlock)
    ensures fresh(block)
    ensures block.View() == BlockOf(inner)
  {
    block := new ReqBlock();
    var j := 0;
    while j < |inner|
      invariant 0 <= j <= |inner|
      invariant block.Valid()
      invariant block.lines == BlockLines(inner[..j])
    {
      assert inner[..j + 1][..j] == inner[..j];
      var line := inner[j];
      if |line.token| > 1 {
        var indirect := IsIndirect(line.comment);
        block.AddLine(ReqLine(line.token[0], line.token[1], indirect));
      }
      j := j + 1;
    }
    assert inner[..j] == inner;
  }

  method AddStmt(rs: ReqStmts, s: Stmt)
    requires Processable(s)
    modifies rs
    ensures rs.Model() == ExtendedBy(old(rs.Model()), s)
  {
    match s {
      case LineStmt(l) =>
        if IsRequire(l.token) {
          var indirect := IsIndirect(l.comment);
          rs.AddLine(ReqLine(l.token[1], l.token[2], indirect));
        }
      case LineBlock(token, inner, _) =>
        if IsRequire(token) {
          var block := NewBlock(inner);
          rs.AddBlock(block);
          assert Views(rs.blocks) == Views(old(rs.blocks)) + [block.View()];
        }
      case CommentBlock(_) =>
    }
  }

  /** `processFile`: the model of the file's require statements. */
  method ProcessFile(file: File) returns (rs: ReqStmts)
    requires AllProcessable(file.stmts)
    ensures fresh(rs)
    ensures rs.Model() == Extract(file.stmts)
  {
    rs := new ReqStmts();
    var i := 0;
    while i < |file.stmts|
      invariant 0 <= i <= |file.stmts|
      invariant fresh(rs)
      invariant rs.Model() == Extract(file.stmts[..i])
    {
      assert file.stmts[..i + 1] == file.stmts[..i] + [file.stmts[i]];
      ExtractSnoc(file.stmts[..i], file.stmts[i]);
      AddStmt(rs, file.stmts[i]);
      i := i + 1;
    }
    assert file.stmts[..i] == file.stmts;
  }

  /** The analysis `Run` performs on a parsed file (before printing). */
  method AnalyzeFile(file: File) returns (issues: seq<string>)
    requires AllProcessable(file.stmts)
    ensures issues == Analysis(Extract(file.stmts))
  {
    var rs := ProcessFile(file);
    issues := rs.Analyze();
  }
}
