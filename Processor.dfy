/** The require-directive style checker of internal/processor/processor.go:
    the model of a go.mod file's require statements (isolated direct lines,
    isolated indirect lines and blocks, in document order), the extraction
    that builds it from the syntax tree, and the three style rules. */
module Processor {
  import opened ModFile
  import opened ConsistencyFold
  import opened Fmt
  import opened Messages

  const MaxRequireBlocks: nat := 2

  /** The suffix-comment prefix that marks a dependency as indirect. */
  const IndirectMarker: string := "// indirect"

  /** One require directive. */
  datatype ReqLine = ReqLine(name: string, version: string, indirect: bool, position: Position)

  /** A snapshot of a require block. */
  datatype Block = Block(lines: seq<ReqLine>, consistency: Consistency, position: Position)

  /** A snapshot of the whole model (`reqStmts`). */
  datatype Stmts = Stmts(directLines: seq<ReqLine>, indirectLines: seq<ReqLine>, blocks: seq<Block>)

  /** A style violation at a position. */
  datatype Issue = Issue(position: Position, text: string)

  function Flags(lines: seq<ReqLine>): (flags: seq<bool>)
    ensures |flags| == |lines|
    ensures forall k :: 0 <= k < |lines| ==> flags[k] == lines[k].indirect
  {
    seq(|lines|, k requires 0 <= k < |lines| => lines[k].indirect)
  }

  /** The consistency a block holding exactly these lines has. */
  function ConsistencyOf(lines: seq<ReqLine>): Consistency {
    Fold(Flags(lines))
  }

  lemma ConsistencyOfSnoc(lines: seq<ReqLine>, line: ReqLine)
    ensures ConsistencyOf(lines + [line]) == Combine(ConsistencyOf(lines), line.indirect)
  {
    assert Flags(lines + [line]) == Flags(lines) + [line.indirect];
    FoldSnoc(Flags(lines), line.indirect);
  }

  // ---------------------------------------------------------------------
  // Messages

  const FirstBlockText: string := "first require block should only contain direct dependencies."
  const SecondBlockText: string := "second require block should only contain indirect dependencies."
  const MixedBlockText: string := "require block should not contain mixed dependencies."

  // ---------------------------------------------------------------------
  // The rules, as functions of a model snapshot

  /** Rule 1: isolated lines of one kind should be grouped into a block. */
  function Rule1(m: Stmts): seq<Issue> {
    (if |m.directLines| > 1
     then [Issue(m.directLines[0].position, GroupingText("direct", |m.directLines|))]
     else [])
    + (if |m.indirectLines| > 1
       then [Issue(m.indirectLines[0].position, GroupingText("indirect", |m.indirectLines|))]
       else [])
  }

  /** The issue of the first isolated direct line, rendered for Rule 2. */
  function DirectInsideIssue(m: Stmts): Issue
    requires |m.directLines| > 0
  {
    Issue(m.directLines[0].position, InsideBlockText(m.directLines[0].name, m.directLines[0].version))
  }

  function IndirectInsideIssue(m: Stmts): Issue
    requires |m.indirectLines| > 0
  {
    Issue(m.indirectLines[0].position, InsideBlockText(m.indirectLines[0].name, m.indirectLines[0].version))
  }

  /** What Rule 2's loop body reports for one block. */
  function BlockIssue(m: Stmts, b: Block): seq<Issue> {
    if b.consistency == OnlyDirect && |m.directLines| > 0 then [DirectInsideIssue(m)]
    else if b.consistency == OnlyIndirect && |m.indirectLines| > 0 then [IndirectInsideIssue(m)]
    else []
  }

  /** Rule 2's loop over the blocks `bs`, in order. */
  function BlockIssues(m: Stmts, bs: seq<Block>): seq<Issue> {
    if bs == [] then [] else BlockIssues(m, bs[..|bs| - 1]) + BlockIssue(m, bs[|bs| - 1])
  }

  /** Rule 2: at most two blocks, and no isolated line of a kind that has a
      block of its own. */
  function Rule2(m: Stmts): seq<Issue> {
    if |m.blocks| > MaxRequireBlocks
    then [Issue(m.blocks[0].position, MaxBlocksText(|m.blocks|))]
    else BlockIssues(m, m.blocks)
  }

  /** Rule 3: the first block is direct-only and the second indirect-only;
      a lone block must not be mixed. */
  function Rule3(m: Stmts): seq<Issue> {
    var first := if |m.blocks| > 1 && m.blocks[0].consistency != OnlyDirect
                 then [Issue(m.blocks[0].position, FirstBlockText)] else [];
    var second := if |m.blocks| > 1 && m.blocks[1].consistency != OnlyIndirect
                  then [Issue(m.blocks[1].position, SecondBlockText)] else [];
    if first + second != [] then first + second
    else if |m.blocks| > 0 && m.blocks[0].consistency == Mixed
    then [Issue(m.blocks[0].position, MixedBlockText)]
    else []
  }

  /** The rules in order, stopping at the first that reports anything. */
  function Analysis(m: Stmts): seq<Issue> {
    if Rule1(m) != [] then Rule1(m)
    else if Rule2(m) != [] then Rule2(m)
    else Rule3(m)
  }

  // ---------------------------------------------------------------------
  // Extraction, as functions of the syntax tree

  /** `isRequire`; the source indexes the first token without a check. */
  predicate IsRequire(tokens: seq<string>): (r: bool)
    requires |tokens| > 0
    ensures r <==> tokens[..1] == ["require"]
  {
    tokens[0] == "require"
  }

  /** What `isIndirect` decides: some suffix comment starts with the marker. */
  predicate HasIndirectMarker(comment: Option<Comments>) {
    comment.Some? &&
    exists k :: 0 <= k < |comment.value.suffix| && HasPrefix(comment.value.suffix[k], IndirectMarker)
  }

  predicate IsRequireLine(s: Stmt)
    requires Processable(s)
  {
    s.LineStmt? && IsRequire(s.line.token)
  }

  predicate IsRequireBlock(s: Stmt)
    requires Processable(s)
  {
    s.LineBlock? && IsRequire(s.token)
  }

  /** The directive of a single `require` line. */
  function IsolatedLine(filename: string, l: Line): ReqLine
    requires |l.token| >= 3
  {
    ReqLine(l.token[1], l.token[2], HasIndirectMarker(l.comment), Position(filename, l.start))
  }

  /** The directive of a line inside a block; the source records only the
      line number there, not the file name. */
  function BlockLine(l: Line): ReqLine
    requires |l.token| >= 2
  {
    ReqLine(l.token[0], l.token[1], HasIndirectMarker(l.comment), Position("", l.start))
  }

  /** The directives of a block's inner lines, skipping lines with fewer than
      two tokens. */
  function BlockLines(inner: seq<Line>): seq<ReqLine> {
    if inner == [] then []
    else
      var l := inner[|inner| - 1];
      BlockLines(inner[..|inner| - 1]) + (if |l.token| > 1 then [BlockLine(l)] else [])
  }

  /** The block a require block statement yields. */
  function BlockOf(filename: string, start: nat, inner: seq<Line>): Block {
    var lines := BlockLines(inner);
    Block(lines, ConsistencyOf(lines), Position(filename, start))
  }

  /** The isolated require lines of one kind, in document order. */
  function IsolatedLines(filename: string, stmts: seq<Stmt>, indirect: bool): seq<ReqLine>
    requires AllProcessable(stmts)
  {
    if stmts == [] then []
    else
      var s := stmts[|stmts| - 1];
      IsolatedLines(filename, stmts[..|stmts| - 1], indirect)
      + (if IsRequireLine(s) && HasIndirectMarker(s.line.comment) == indirect
         then [IsolatedLine(filename, s.line)] else [])
  }

  /** The require blocks, in document order. */
  function Blocks(filename: string, stmts: seq<Stmt>): seq<Block>
    requires AllProcessable(stmts)
  {
    if stmts == [] then []
    else
      var s := stmts[|stmts| - 1];
      Blocks(filename, stmts[..|stmts| - 1])
      + (if IsRequireBlock(s) then [BlockOf(filename, s.start, s.lines)] else [])
  }

  /** The model of a file's statements. */
  function Extract(filename: string, stmts: seq<Stmt>): Stmts
    requires AllProcessable(stmts)
  {
    Stmts(IsolatedLines(filename, stmts, false), IsolatedLines(filename, stmts, true), Blocks(filename, stmts))
  }

  /** The model after one more statement. */
  function ExtendedBy(m: Stmts, filename: string, s: Stmt): Stmts
    requires Processable(s)
  {
    if IsRequireLine(s) then
      var line := IsolatedLine(filename, s.line);
      if line.indirect then m.(indirectLines := m.indirectLines + [line])
      else m.(directLines := m.directLines + [line])
    else if IsRequireBlock(s) then m.(blocks := m.blocks + [BlockOf(filename, s.start, s.lines)])
    else m
  }

  lemma ExtractSnoc(filename: string, stmts: seq<Stmt>, s: Stmt)
    requires AllProcessable(stmts) && Processable(s)
    ensures AllProcessable(stmts + [s])
    ensures Extract(filename, stmts + [s]) == ExtendedBy(Extract(filename, stmts), filename, s)
  {
    assert (stmts + [s])[..|stmts|] == stmts;
  }

  // ---------------------------------------------------------------------
  // The objects the source mutates

  /** A require block under construction (`reqBlock`). */
  class ReqBlock {
    var lines: seq<ReqLine>
    var consistency: Consistency
    var position: Position

    /** The consistency always reflects the lines added so far. */
    ghost predicate Valid()
      reads this
    {
      consistency == ConsistencyOf(lines)
    }

    ghost function View(): Block
      reads this
    {
      Block(lines, consistency, position)
    }

    constructor (position: Position)
      ensures Valid()
      ensures lines == [] && consistency == Unset && this.position == position
    {
      lines := [];
      consistency := Unset;
      this.position := position;
    }

    /** Appends one line at the end and folds its flag into the consistency. */
    method AddLine(line: ReqLine)
      requires Valid()
      modifies this
      ensures Valid()
      ensures lines == old(lines) + [line] && position == old(position)
      ensures consistency == Combine(old(consistency), line.indirect)
    {
      ConsistencyOfSnoc(lines, line);
      lines := lines + [line];
      UpdateConsistency(line.indirect);
    }

    /** `updateConsistency`: one step of the fold, `Mixed` left alone. */
    method UpdateConsistency(indirect: bool)
      modifies this`consistency
      ensures consistency == Combine(old(consistency), indirect)
    {
      match consistency {
        case Unset =>
          if indirect {
            consistency := OnlyIndirect;
          } else {
            consistency := OnlyDirect;
          }
        case OnlyIndirect =>
          if !indirect {
            consistency := Mixed;
          }
        case OnlyDirect =>
          if indirect {
            consistency := Mixed;
          }
        case Mixed =>
          return;
      }
    }
  }

  /** Snapshots of a sequence of blocks. */
  ghost function Views(bs: seq<ReqBlock>): (r: seq<Block>)
    reads bs
    ensures |r| == |bs|
    ensures forall k :: 0 <= k < |bs| ==> r[k] == bs[k].View()
  {
    if bs == [] then [] else Views(bs[..|bs| - 1]) + [bs[|bs| - 1].View()]
  }

  /** The whole model (`reqStmts`). */
  class ReqStmts {
    var directLines: seq<ReqLine>
    var indirectLines: seq<ReqLine>
    var blocks: seq<ReqBlock>

    ghost function Model(): Stmts
      reads this, blocks
    {
      Stmts(directLines, indirectLines, Views(blocks))
    }

    constructor ()
      ensures directLines == [] && indirectLines == [] && blocks == []
    {
      directLines, indirectLines, blocks := [], [], [];
    }

    /** Appends an isolated line to the container of its kind. */
    method AddLine(line: ReqLine)
      modifies this
      ensures blocks == old(blocks)
      ensures line.indirect ==> indirectLines == old(indirectLines) + [line] && directLines == old(directLines)
      ensures !line.indirect ==> directLines == old(directLines) + [line] && indirectLines == old(indirectLines)
    {
      if line.indirect {
        indirectLines := indirectLines + [line];
      } else {
        directLines := directLines + [line];
      }
    }

    /** Appends a block at the end. */
    method AddBlock(block: ReqBlock)
      modifies this
      ensures blocks == old(blocks) + [block]
      ensures directLines == old(directLines) && indirectLines == old(indirectLines)
    {
      blocks := blocks + [block];
    }

    method CheckRule1() returns (issues: seq<Issue>)
      ensures issues == Rule1(Model())
    {
      issues := [];
      if |directLines| > 1 {
        issues := issues + [Issue(directLines[0].position, GroupingText("direct", |directLines|))];
      }
      if |indirectLines| > 1 {
        issues := issues + [Issue(indirectLines[0].position, GroupingText("indirect", |indirectLines|))];
      }
    }

    method CheckRule2() returns (issues: seq<Issue>)
      ensures issues == Rule2(Model())
    {
      issues := [];
      if |blocks| > MaxRequireBlocks {
        issues := issues + [Issue(blocks[0].position, MaxBlocksText(|blocks|))];
        return;
      }
      ghost var m := Model();
      var k := 0;
      while k < |blocks|
        invariant 0 <= k <= |blocks|
        invariant issues == BlockIssues(m, m.blocks[..k])
      {
        var block := blocks[k];
        if block.consistency == OnlyDirect && |directLines| > 0 {
          issues := issues + [Issue(directLines[0].position, InsideBlockText(directLines[0].name, directLines[0].version))];
        } else if block.consistency == OnlyIndirect && |indirectLines| > 0 {
          issues := issues + [Issue(indirectLines[0].position, InsideBlockText(indirectLines[0].name, indirectLines[0].version))];
        }
        assert m.blocks[..k + 1][..k] == m.blocks[..k];
        k := k + 1;
      }
      assert m.blocks[..k] == m.blocks;
    }

    method CheckRule3() returns (issues: seq<Issue>)
      ensures issues == Rule3(Model())
    {
      issues := [];
      if |blocks| > 1 {
        if blocks[0].consistency != OnlyDirect {
          issues := issues + [Issue(blocks[0].position, FirstBlockText)];
        }
        if blocks[1].consistency != OnlyIndirect {
          issues := issues + [Issue(blocks[1].position, SecondBlockText)];
        }
        if |issues| > 0 {
          return;
        }
      }
      if |blocks| > 0 {
        if blocks[0].consistency == Mixed {
          issues := issues + [Issue(blocks[0].position, MixedBlockText)];
        }
      }
    }

    method Analyze() returns (issues: seq<Issue>)
      ensures issues == Analysis(Model())
    {
      issues := CheckRule1();
      if |issues| > 0 {
        return;
      }
      issues := CheckRule2();
      if |issues| > 0 {
        return;
      }
      issues := CheckRule3();
    }
  }

  // ---------------------------------------------------------------------
  // The imperative entry points

  /** `isIndirect`: scans the suffix comments, stopping at the first marker. */
  method IsIndirect(comment: Option<Comments>) returns (indirect: bool)
    ensures indirect == HasIndirectMarker(comment)
  {
    if comment.Some? {
      var suffix := comment.value.suffix;
      var k := 0;
      while k < |suffix|
        invariant 0 <= k <= |suffix|
        invariant forall j :: 0 <= j < k ==> !HasPrefix(suffix[j], IndirectMarker)
      {
        if HasPrefix(suffix[k], IndirectMarker) {
          return true;
        }
        k := k + 1;
      }
    }
    return false;
  }

  /** The inner loop of `ProcessFile` for a require block: a new block
      holding the inner lines with at least two tokens, in order. */
  method NewBlock(filename: string, start: nat, inner: seq<Line>) returns (block: ReqBlock)
    ensures fresh(block)
    ensures block.View() == BlockOf(filename, start, inner)
  {
    block := new ReqBlock(Position(filename, start));
    var j := 0;
    while j < |inner|
      invariant 0 <= j <= |inner|
      invariant block.Valid()
      invariant block.lines == BlockLines(inner[..j])
      invariant block.position == Position(filename, start)
    {
      assert inner[..j + 1][..j] == inner[..j];
      var line := inner[j];
      if |line.token| > 1 {
        var indirect := IsIndirect(line.comment);
        block.AddLine(ReqLine(line.token[0], line.token[1], indirect, Position("", line.start)));
      }
      j := j + 1;
    }
    assert inner[..j] == inner;
  }

  /** One iteration of `ProcessFile`'s statement loop. */
  method AddStmt(rs: ReqStmts, filename: string, s: Stmt)
    requires Processable(s)
    modifies rs
    ensures rs.Model() == ExtendedBy(old(rs.Model()), filename, s)
  {
    match s {
      case LineStmt(l) =>
        if IsRequire(l.token) {
          var indirect := IsIndirect(l.comment);
          rs.AddLine(ReqLine(l.token[1], l.token[2], indirect, Position(filename, l.start)));
        }
      case LineBlock(token, inner, start) =>
        if IsRequire(token) {
          var block := NewBlock(filename, start, inner);
          rs.AddBlock(block);
          assert Views(rs.blocks) == Views(old(rs.blocks)) + [block.View()];
        }
      case CommentBlock(_) =>
    }
  }

  /** `ProcessFile`'s statement loop: the model of the file's statements. */
  method BuildModel(file: File) returns (rs: ReqStmts)
    requires AllProcessable(file.stmts)
    ensures fresh(rs)
    ensures rs.Model() == Extract(file.name, file.stmts)
  {
    rs := new ReqStmts();
    var i := 0;
    while i < |file.stmts|
      invariant 0 <= i <= |file.stmts|
      invariant fresh(rs)
      invariant rs.Model() == Extract(file.name, file.stmts[..i])
    {
      assert file.stmts[..i + 1] == file.stmts[..i] + [file.stmts[i]];
      ExtractSnoc(file.name, file.stmts[..i], file.stmts[i]);
      AddStmt(rs, file.name, file.stmts[i]);
      i := i + 1;
    }
    assert file.stmts[..i] == file.stmts;
  }

  /** `ProcessFile`: builds the model of the file and analyses it. */
  method ProcessFile(file: File) returns (issues: seq<Issue>)
    requires AllProcessable(file.stmts)
    ensures issues == Analysis(Extract(file.name, file.stmts))
  {
    var rs := BuildModel(file);
    issues := rs.Analyze();
  }
}
