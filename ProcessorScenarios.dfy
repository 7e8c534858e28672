/** Concrete go.mod layouts and the issues the processor reports for them,
    following the expectations of internal/processor/processor_test.go. */
module ProcessorScenarios {
  import opened ModFile
  import opened ConsistencyFold
  import opened Messages
  import opened Processor
  import opened Fmt

  const Header: seq<Stmt> := [LineStmt(Line(["module", "example.com/app"], None, 1)),
                              LineStmt(Line(["go", "1.22"], None, 3))]

  /** The header contributes nothing to the model. */
  lemma HeaderIsEmpty(filename: string)
    ensures AllProcessable(Header) && Extract(filename, Header) == Stmts([], [], [])
  {
    ExtractSnoc(filename, [], Header[0]);
    assert [] + [Header[0]] == Header[..1];
    ExtractSnoc(filename, Header[..1], Header[1]);
    assert Header[..1] + [Header[1]] == Header;
  }

  function Require(name: string, version: string, comment: Option<Comments>, start: nat): Stmt {
    LineStmt(Line(["require", name, version], comment, start))
  }

  function Inner(name: string, version: string, indirect: bool, start: nat): Line {
    Line([name, version], if indirect then Some(Comments(["// indirect"])) else None, start)
  }

  function RequireBlock(inner: seq<Line>, start: nat): Stmt {
    LineBlock(["require"], inner, start)
  }

  /** Two isolated direct lines on lines 5 and 6: one rule 1 issue at the
      first of them. */
  lemma SeveralDirectLines()
    ensures var stmts := Header + [Require("github.com/foo/foo", "v1.0.0", None, 5),
                                   Require("github.com/bar/bar/v2", "v2.0.0", None, 6)];
            AllProcessable(stmts)
            && Analysis(Extract("go.mod", stmts))
               == [Issue(Position("go.mod", 5), GroupingText("direct", 2))]
  {
    var a := Require("github.com/foo/foo", "v1.0.0", None, 5);
    var b := Require("github.com/bar/bar/v2", "v2.0.0", None, 6);
    HeaderIsEmpty("go.mod");
    ExtractSnoc("go.mod", Header, a);
    ExtractSnoc("go.mod", Header + [a], b);
    assert Header + [a] + [b] == Header + [a, b];
    var m := Extract("go.mod", Header + [a, b]);
    assert m == Stmts([IsolatedLine("go.mod", a.line), IsolatedLine("go.mod", b.line)], [], []);
  }

  /** Four blocks: the count message at the first block, and nothing about
      the blocks' contents. */
  lemma MoreThanTwoBlocks(b1: Block, b2: Block, b3: Block, b4: Block)
    requires b1.position == Position("go.mod", 5)
    ensures Analysis(Stmts([], [], [b1, b2, b3, b4]))
            == [Issue(Position("go.mod", 5), MaxBlocksText(4))]
  {
    var m := Stmts([], [], [b1, b2, b3, b4]);
    assert Rule1(m) == [];
    assert Rule2(m) == [Issue(b1.position, MaxBlocksText(4))];
  }

  /** An isolated direct line next to a direct-only block: one issue, at
      that line. */
  lemma IsolatedDirectLineShouldBeInsideBlock(b: Block)
    requires b.consistency == OnlyDirect
    ensures var line := ReqLine("github.com/bar/bar/v2", "v2.0.0", false, Position("go.mod", 5));
            Analysis(Stmts([line], [], [b]))
            == [Issue(Position("go.mod", 5), InsideBlockText(line.name, line.version))]
  {
    var line := ReqLine("github.com/bar/bar/v2", "v2.0.0", false, Position("go.mod", 5));
    var m := Stmts([line], [], [b]);
    assert [b][..0] == [];
    assert BlockIssues(m, [b]) == BlockIssue(m, b);
    assert Rule2(m) == [DirectInsideIssue(m)];
  }

  /** An isolated indirect line beside a direct block and an indirect block:
      one issue, at that line. */
  lemma IsolatedIndirectLineShouldBeInsideBlock(b1: Block, b2: Block)
    requires b1.consistency == OnlyDirect && b2.consistency == OnlyIndirect
    ensures var line := ReqLine("github.com/dmrioja/shodo", "v1.0.0", true, Position("go.mod", 12));
            Analysis(Stmts([], [line], [b1, b2]))
            == [Issue(Position("go.mod", 12), InsideBlockText(line.name, line.version))]
  {
    var line := ReqLine("github.com/dmrioja/shodo", "v1.0.0", true, Position("go.mod", 12));
    var m := Stmts([], [line], [b1, b2]);
    assert [b1, b2][..1] == [b1] && [b1][..0] == [];
    assert BlockIssues(m, [b1]) == [];
    assert BlockIssues(m, [b1, b2]) == BlockIssues(m, [b1]) + BlockIssue(m, b2);
    assert Rule2(m) == [IndirectInsideIssue(m)];
  }

  /** One isolated line of each kind beside a direct block and an indirect
      block: two issues, the direct line's first. */
  lemma IsolatedLinesShouldBeInsideBlock(b1: Block, b2: Block)
    requires b1.consistency == OnlyDirect && b2.consistency == OnlyIndirect
    ensures var direct := ReqLine("github.com/bar/bar/v2", "v2.0.0", false, Position("go.mod", 5));
            var indirect := ReqLine("github.com/cosa/cosita/v5", "v5.3.3", true, Position("go.mod", 11));
            Analysis(Stmts([direct], [indirect], [b1, b2]))
            == [Issue(Position("go.mod", 5), InsideBlockText(direct.name, direct.version)),
                Issue(Position("go.mod", 11), InsideBlockText(indirect.name, indirect.version))]
  {
    var direct := ReqLine("github.com/bar/bar/v2", "v2.0.0", false, Position("go.mod", 5));
    var indirect := ReqLine("github.com/cosa/cosita/v5", "v5.3.3", true, Position("go.mod", 11));
    var m := Stmts([direct], [indirect], [b1, b2]);
    assert [b1, b2][..1] == [b1] && [b1][..0] == [];
    assert BlockIssues(m, [b1]) == [DirectInsideIssue(m)];
    assert BlockIssues(m, [b1, b2]) == BlockIssues(m, [b1]) + BlockIssue(m, b2);
    assert Rule2(m) == [DirectInsideIssue(m), IndirectInsideIssue(m)];
  }

  function Direct(start: nat): ReqLine {
    ReqLine("github.com/foo/foo", "v1.0.0", false, Position("", start))
  }

  function Indirect(start: nat): ReqLine {
    ReqLine("github.com/dmrioja/shodo", "v1.0.0", true, Position("", start))
  }

  /** The indirect block before the direct one: both rule 3 messages. */
  lemma UnorderedBlocks()
    ensures var first := Block([Indirect(6)], ConsistencyOf([Indirect(6)]), Position("go.mod", 5));
            var second := Block([Direct(11)], ConsistencyOf([Direct(11)]), Position("go.mod", 10));
            Analysis(Stmts([], [], [first, second]))
            == [Issue(Position("go.mod", 5), FirstBlockText),
                Issue(Position("go.mod", 10), SecondBlockText)]
  {
    assert Flags([Indirect(6)]) == [true] && [true][..0] == [];
    assert Flags([Direct(11)]) == [false] && [false][..0] == [];
    var first := Block([Indirect(6)], ConsistencyOf([Indirect(6)]), Position("go.mod", 5));
    var second := Block([Direct(11)], ConsistencyOf([Direct(11)]), Position("go.mod", 10));
    var m := Stmts([], [], [first, second]);
    assert [first, second][..1] == [first] && [first][..0] == [];
    assert BlockIssues(m, [first]) == [];
    assert BlockIssues(m, [first, second]) == BlockIssues(m, [first]) + BlockIssue(m, second);
    assert Rule2(m) == [];
  }

  /** A mixed first block with a correct second one: only the first block
      is reported, with the first-block message rather than the mixed one. */
  lemma MixedFirstBlock()
    ensures var mixed := [Direct(6), Indirect(7)];
            var first := Block(mixed, ConsistencyOf(mixed), Position("go.mod", 5));
            var second := Block([Indirect(11)], ConsistencyOf([Indirect(11)]), Position("go.mod", 10));
            Rule3(Stmts([], [], [first, second]))
            == [Issue(Position("go.mod", 5), FirstBlockText)]
  {
    assert Flags([Direct(6), Indirect(7)]) == [false, true];
    assert [false, true][..1] == [false] && [false][..0] == [];
    assert Flags([Indirect(11)]) == [true] && [true][..0] == [];
  }

  /** A lone mixed block gets the mixed-block message. */
  lemma LoneMixedBlock()
    ensures var mixed := [Direct(6), Indirect(7)];
            Analysis(Stmts([], [], [Block(mixed, ConsistencyOf(mixed), Position("go.mod", 5))]))
            == [Issue(Position("go.mod", 5), MixedBlockText)]
  {
    assert Flags([Direct(6), Indirect(7)]) == [false, true];
    assert [false, true][..1] == [false] && [false][..0] == [];
  }

  /** A suffix comment that goes on after the marker still marks the
      dependency indirect. */
  lemma MarkerWithTrailingText()
    ensures HasIndirectMarker(Some(Comments(["// indirect; used by tests"])))
  {
    var s := "// indirect; used by tests";
    assert s[..|IndirectMarker|] == IndirectMarker;
    assert HasPrefix(Some(Comments([s])).value.suffix[0], IndirectMarker);
  }

  function DirectLine(): Line { Inner("github.com/foo/foo", "v1.0.0", false, 6) }
  function IndirectLine(): Line { Inner("github.com/dmrioja/shodo", "v1.0.0", true, 11) }

  function TwoBlocksFile(): seq<Stmt> {
    Header + [RequireBlock([DirectLine()], 5), RequireBlock([IndirectLine()], 10)]
  }

  /** The inner lines' markers decide the two blocks' consistencies. */
  lemma TwoBlocksConsistency()
    ensures BlockOf("go.mod", 5, [DirectLine()]).consistency == OnlyDirect
    ensures BlockOf("go.mod", 10, [IndirectLine()]).consistency == OnlyIndirect
  {
    var direct := DirectLine();
    var indirect := IndirectLine();
    assert HasIndirectMarker(indirect.comment) by {
      assert HasPrefix(indirect.comment.value.suffix[0], IndirectMarker);
    }
    assert [direct][..0] == [] && [indirect][..0] == [];
    assert BlockLines([direct]) == [BlockLine(direct)];
    assert BlockLines([indirect]) == [BlockLine(indirect)];
    assert Flags([BlockLine(direct)]) == [false] && [false][..0] == [];
    assert Flags([BlockLine(indirect)]) == [true] && [true][..0] == [];
  }

  /** The file's model is its two blocks and no isolated line. */
  lemma TwoBlocksModel()
    ensures AllProcessable(TwoBlocksFile())
    ensures Extract("go.mod", TwoBlocksFile())
            == Stmts([], [], [BlockOf("go.mod", 5, [DirectLine()]), BlockOf("go.mod", 10, [IndirectLine()])])
  {
    var a := RequireBlock([DirectLine()], 5);
    var b := RequireBlock([IndirectLine()], 10);
    HeaderIsEmpty("go.mod");
    ExtractSnoc("go.mod", Header, a);
    ExtractSnoc("go.mod", Header + [a], b);
    assert Header + [a] + [b] == TwoBlocksFile();
  }

  /** A direct block followed by an indirect block, with the marker carried
      by each inner line, yields no issue at all. */
  lemma TwoCorrectBlocks()
    ensures AllProcessable(TwoBlocksFile()) && Analysis(Extract("go.mod", TwoBlocksFile())) == []
  {
    TwoBlocksModel();
    TwoBlocksConsistency();
    var first := BlockOf("go.mod", 5, [DirectLine()]);
    var second := BlockOf("go.mod", 10, [IndirectLine()]);
    var m := Stmts([], [], [first, second]);
    assert [first, second][..1] == [first] && [first][..0] == [];
    assert BlockIssues(m, [first]) == [];
    assert BlockIssues(m, [first, second]) == BlockIssues(m, [first]) + BlockIssue(m, second);
    assert Rule2(m) == [];
  }
}
