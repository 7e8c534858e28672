/** How the older checker (internal/analyzer) differs from the one the
    linter calls (internal/processor): the same lines, blocks and fold, the
    same rule 1 and rule 2 messages; a period-less rule 3 that also flags a
    lone block that is not direct-only; a looser indirect test. */
module Variants {
  import opened ModFile
  import opened ConsistencyFold
  import P = Processor
  import A = Analyzer

  // ---------------------------------------------------------------------
  // Forgetting positions

  function StripLine(l: P.ReqLine): A.ReqLine {
    A.ReqLine(l.name, l.version, l.indirect)
  }

  function StripLines(ls: seq<P.ReqLine>): (r: seq<A.ReqLine>)
    ensures |r| == |ls| && forall k :: 0 <= k < |ls| ==> r[k] == StripLine(ls[k])
  {
    seq(|ls|, k requires 0 <= k < |ls| => StripLine(ls[k]))
  }

  function StripBlock(b: P.Block): A.Block {
    A.Block(StripLines(b.lines), b.consistency)
  }

  function StripBlocks(bs: seq<P.Block>): (r: seq<A.Block>)
    ensures |r| == |bs| && forall k :: 0 <= k < |bs| ==> r[k] == StripBlock(bs[k])
  {
    seq(|bs|, k requires 0 <= k < |bs| => StripBlock(bs[k]))
  }

  /** The older model of the same statements: the processor's without
      positions. */
  function Strip(m: P.Stmts): A.Stmts {
    A.Stmts(StripLines(m.directLines), StripLines(m.indirectLines), StripBlocks(m.blocks))
  }

  function Texts(issues: seq<P.Issue>): (r: seq<string>)
    ensures |r| == |issues| && forall k :: 0 <= k < |issues| ==> r[k] == issues[k].text
  {
    seq(|issues|, k requires 0 <= k < |issues| => issues[k].text)
  }

  /** Both copies fold a block's lines to the same consistency. */
  lemma SameFold(lines: seq<P.ReqLine>)
    ensures A.ConsistencyOf(StripLines(lines)) == P.ConsistencyOf(lines)
  {
    assert A.Flags(StripLines(lines)) == P.Flags(lines);
  }

  // ---------------------------------------------------------------------
  // The rules

  /** Rule 1 gives the same messages, without positions. */
  lemma Rule1Agrees(m: P.Stmts)
    ensures A.Rule1(Strip(m)) == Texts(P.Rule1(m))
  {
  }

  lemma TextsAppend(a: seq<P.Issue>, b: seq<P.Issue>)
    ensures Texts(a + b) == Texts(a) + Texts(b)
  {
  }

  lemma BlockIssueAgrees(m: P.Stmts, b: P.Block)
    ensures A.BlockIssue(Strip(m), StripBlock(b)) == Texts(P.BlockIssue(m, b))
  {
  }

  lemma {:induction false} BlockIssuesAgree(m: P.Stmts, bs: seq<P.Block>)
    ensures A.BlockIssues(Strip(m), StripBlocks(bs)) == Texts(P.BlockIssues(m, bs))
  {
    if bs != [] {
      var init := bs[..|bs| - 1];
      BlockIssuesAgree(m, init);
      BlockIssueAgrees(m, bs[|bs| - 1]);
      TextsAppend(P.BlockIssues(m, init), P.BlockIssue(m, bs[|bs| - 1]));
      assert StripBlocks(bs)[..|bs| - 1] == StripBlocks(init);
    }
  }

  /** Rule 2 gives the same messages, without positions. */
  lemma Rule2Agrees(m: P.Stmts)
    ensures A.Rule2(Strip(m)) == Texts(P.Rule2(m))
  {
    BlockIssuesAgree(m, m.blocks);
  }

  /** With zero or at least two blocks, rule 3 gives the same messages as
      the processor's, each without its final period. */
  lemma Rule3AgreesUpToPeriod(m: P.Stmts)
    requires |m.blocks| != 1
    ensures |A.Rule3(Strip(m))| == |P.Rule3(m)|
    ensures forall k :: 0 <= k < |P.Rule3(m)| ==> A.Rule3(Strip(m))[k] + "." == P.Rule3(m)[k].text
  {
  }

  /** With exactly one block, the processor objects only to a mixed block
      while the older copy objects to anything but a direct-only one. */
  lemma Rule3OnLoneBlock(m: P.Stmts)
    requires |m.blocks| == 1
    ensures P.Rule3(m) != [] <==> m.blocks[0].consistency == Mixed
    ensures A.Rule3(Strip(m)) != [] <==> m.blocks[0].consistency != OnlyDirect
  {
  }

  /** Away from the lone-block case the two analyses report the same
      messages in the same order, rule 3's without the period. */
  lemma AnalysesAgree(m: P.Stmts)
    requires |m.blocks| != 1
    ensures |A.Analysis(Strip(m))| == |P.Analysis(m)|
    ensures P.Rule1(m) != [] || P.Rule2(m) != [] ==> A.Analysis(Strip(m)) == Texts(P.Analysis(m))
    ensures P.Rule1(m) == [] && P.Rule2(m) == [] ==>
              forall k :: 0 <= k < |P.Analysis(m)| ==> A.Analysis(Strip(m))[k] + "." == P.Analysis(m)[k].text
  {
    Rule1Agrees(m);
    Rule2Agrees(m);
    Rule3AgreesUpToPeriod(m);
  }

  /** The older copy's Rule 3 as written rejects a file whose only block
      holds indirect dependencies, which its own test expects to pass; the
      processor accepts it. */
  lemma LegacyRejectsLoneIndirectBlock()
    ensures var line := P.ReqLine("example.com/dep", "v1.0.0", true, Position("", 6));
            var m := P.Stmts([], [], [P.Block([line], P.ConsistencyOf([line]), Position("go.mod", 5))]);
            A.Analysis(Strip(m)) == [A.FirstBlockText]
            && P.Analysis(m) == []
  {
    var line := P.ReqLine("example.com/dep", "v1.0.0", true, Position("", 6));
    assert P.ConsistencyOf([line]) == OnlyIndirect by {
      assert P.Flags([line]) == [true];
      assert [true][..0] == [];
    }
  }

  // ---------------------------------------------------------------------
  // The indirect test

  /** A suffix comment starting with "// indirect" contains "indirect". */
  lemma MarkerImpliesWord(s: string)
    requires HasPrefix(s, P.IndirectMarker)
    ensures Contains(s, A.IndirectWord)
  {
    assert s[3..11] == P.IndirectMarker[3..11] == A.IndirectWord;
    assert OccursAt(s, A.IndirectWord, 3);
  }

  /** So whatever the processor takes for indirect, the older copy does too. */
  lemma PrefixTestImpliesContainsTest(c: Option<Comments>)
    ensures P.HasIndirectMarker(c) ==> A.MentionsIndirect(c)
  {
    if P.HasIndirectMarker(c) {
      var k :| 0 <= k < |c.value.suffix| && HasPrefix(c.value.suffix[k], P.IndirectMarker);
      MarkerImpliesWord(c.value.suffix[k]);
    }
  }

  /** The converse fails: the older copy's test is strictly looser. */
  lemma ContainsTestIsLooser()
    ensures var c := Some(Comments(["// not indirect"]));
            A.MentionsIndirect(c) && !P.HasIndirectMarker(c)
  {
    var s := "// not indirect";
    assert s[7..15] == A.IndirectWord;
    assert OccursAt(s, A.IndirectWord, 7);
    assert Contains(Some(Comments([s])).value.suffix[0], A.IndirectWord);
    assert s[..11] != P.IndirectMarker by {
      assert s[3] != P.IndirectMarker[3];
    }
  }

  // ---------------------------------------------------------------------
  // Extraction

  predicate CommentAgrees(c: Option<Comments>) {
    P.HasIndirectMarker(c) == A.MentionsIndirect(c)
  }

  /** Every comment in the statement is judged alike by both tests. */
  predicate StmtAgrees(s: Stmt) {
    match s
    case LineStmt(l) => CommentAgrees(l.comment)
    case LineBlock(_, inner, _) => forall k :: 0 <= k < |inner| ==> CommentAgrees(inner[k].comment)
    case CommentBlock(_) => true
  }

  lemma {:induction false} BlockLinesAgree(inner: seq<Line>)
    requires forall k :: 0 <= k < |inner| ==> CommentAgrees(inner[k].comment)
    ensures A.BlockLines(inner) == StripLines(P.BlockLines(inner))
  {
    if inner != [] {
      var init := inner[..|inner| - 1];
      assert forall k :: 0 <= k < |init| ==> init[k] == inner[k];
      BlockLinesAgree(init);
      var l := inner[|inner| - 1];
      assert StripLines(P.BlockLines(inner))
             == StripLines(P.BlockLines(init)) + StripLines(if |l.token| > 1 then [P.BlockLine(l)] else []);
    }
  }

  lemma {:induction false} IsolatedLinesAgree(filename: string, stmts: seq<Stmt>, indirect: bool)
    requires AllProcessable(stmts)
    requires forall j :: 0 <= j < |stmts| ==> StmtAgrees(stmts[j])
    ensures A.IsolatedLines(stmts, indirect) == StripLines(P.IsolatedLines(filename, stmts, indirect))
  {
    if stmts != [] {
      var init := stmts[..|stmts| - 1];
      assert forall j :: 0 <= j < |init| ==> init[j] == stmts[j];
      IsolatedLinesAgree(filename, init, indirect);
      var s := stmts[|stmts| - 1];
      var tail := if P.IsRequireLine(s) && P.HasIndirectMarker(s.line.comment) == indirect
                  then [P.IsolatedLine(filename, s.line)] else [];
      assert StripLines(P.IsolatedLines(filename, stmts, indirect))
             == StripLines(P.IsolatedLines(filename, init, indirect)) + StripLines(tail);
    }
  }

  lemma {:induction false} BlocksAgree(filename: string, stmts: seq<Stmt>)
    requires AllProcessable(stmts)
    requires forall j :: 0 <= j < |stmts| ==> StmtAgrees(stmts[j])
    ensures A.Blocks(stmts) == StripBlocks(P.Blocks(filename, stmts))
  {
    if stmts != [] {
      var init := stmts[..|stmts| - 1];
      assert forall j :: 0 <= j < |init| ==> init[j] == stmts[j];
      BlocksAgree(filename, init);
      var s := stmts[|stmts| - 1];
      if P.IsRequireBlock(s) {
        BlockLinesAgree(s.lines);
        SameFold(P.BlockLines(s.lines));
        assert A.BlockOf(s.lines) == StripBlock(P.BlockOf(filename, s.start, s.lines));
      }
      var tail := if P.IsRequireBlock(s) then [P.BlockOf(filename, s.start, s.lines)] else [];
      assert StripBlocks(P.Blocks(filename, stmts))
             == StripBlocks(P.Blocks(filename, init)) + StripBlocks(tail);
    }
  }

  /** When no comment tells the two indirect tests apart, both copies extract
      the same model, up to positions. */
  lemma ExtractionAgrees(filename: string, stmts: seq<Stmt>)
    requires AllProcessable(stmts)
    requires forall j :: 0 <= j < |stmts| ==> StmtAgrees(stmts[j])
    ensures A.Extract(stmts) == Strip(P.Extract(filename, stmts))
  {
    IsolatedLinesAgree(filename, stmts, false);
    IsolatedLinesAgree(filename, stmts, true);
    BlocksAgree(filename, stmts);
  }
}
