/** Properties of the older rule engine (internal/analyzer/model.go). */
module AnalyzerRules {
  import opened ModFile
  import opened ConsistencyFold
  import opened Messages
  import opened Analyzer

  /** The same fold as the processor's: a block's consistency is the
      classification of its lines' flags. */
  lemma ConsistencyClassifies(lines: seq<ReqLine>)
    ensures ConsistencyOf(lines) == Classify(Flags(lines))
  {
    FoldClassifies(Flags(lines));
  }

  /** At most two messages, the direct one first, each embedding the length
      of its container; nothing iff neither container has more than one
      line. */
  lemma Rule1Reports(m: Stmts)
    ensures Rule1(m) == [] <==> |m.directLines| <= 1 && |m.indirectLines| <= 1
    ensures |Rule1(m)| == (if |m.directLines| > 1 then 1 else 0) + (if |m.indirectLines| > 1 then 1 else 0)
    ensures |m.directLines| > 1 ==> Rule1(m)[0] == GroupingText("direct", |m.directLines|)
    ensures |m.indirectLines| > 1 ==> Rule1(m)[|Rule1(m)| - 1] == GroupingText("indirect", |m.indirectLines|)
  {
  }

  predicate Flagged(m: Stmts, b: Block) {
    (b.consistency == OnlyDirect && |m.directLines| > 0)
    || (b.consistency == OnlyIndirect && |m.indirectLines| > 0)
  }

  /** The message the per-block loop gives a flagged block: it names the
      first isolated line of the block's own kind. */
  function InsideText(m: Stmts, b: Block): string
    requires Flagged(m, b)
  {
    if b.consistency == OnlyDirect then DirectInsideText(m) else IndirectInsideText(m)
  }

  /** The flagged blocks among `bs`, in order. */
  function FlaggedBlocks(m: Stmts, bs: seq<Block>): (r: seq<Block>)
    ensures |r| <= |bs|
    ensures forall k :: 0 <= k < |r| ==> Flagged(m, r[k])
  {
    if bs == [] then []
    else FlaggedBlocks(m, bs[..|bs| - 1]) + (if Flagged(m, bs[|bs| - 1]) then [bs[|bs| - 1]] else [])
  }

  /** The per-block loop: one message per flagged block, in block order, each
      naming element 0 of the container of that block's kind; nothing iff no
      block is flagged. */
  lemma {:induction false} BlockIssuesReport(m: Stmts, bs: seq<Block>)
    ensures |BlockIssues(m, bs)| == |FlaggedBlocks(m, bs)| <= |bs|
    ensures forall k :: 0 <= k < |BlockIssues(m, bs)| ==>
              BlockIssues(m, bs)[k] == InsideText(m, FlaggedBlocks(m, bs)[k])
    ensures BlockIssues(m, bs) == [] <==> forall k :: 0 <= k < |bs| ==> !Flagged(m, bs[k])
    ensures forall k :: 0 <= k < |bs| && bs[k].consistency == OnlyDirect && |m.directLines| > 0
              ==> DirectInsideText(m) in BlockIssues(m, bs)
    ensures forall k :: 0 <= k < |bs| && bs[k].consistency == OnlyIndirect && |m.indirectLines| > 0
              ==> IndirectInsideText(m) in BlockIssues(m, bs)
  {
    if bs != [] {
      var init := bs[..|bs| - 1];
      var last := bs[|bs| - 1];
      BlockIssuesReport(m, init);
      assert forall k :: 0 <= k < |init| ==> init[k] == bs[k];
      assert BlockIssues(m, bs) == BlockIssues(m, init) + BlockIssue(m, last);
      assert FlaggedBlocks(m, bs) == FlaggedBlocks(m, init) + (if Flagged(m, last) then [last] else []);
      if Flagged(m, last) {
        assert BlockIssue(m, last) == [InsideText(m, last)];
      }
    }
  }

  /** More than two blocks: exactly the one count message, the loop skipped;
      otherwise one message per flagged block, in block order. */
  lemma Rule2Reports(m: Stmts)
    ensures |m.blocks| > 2 ==> Rule2(m) == [MaxBlocksText(|m.blocks|)]
    ensures |m.blocks| <= 2 ==> |Rule2(m)| <= |m.blocks|
    ensures |m.blocks| <= 2 ==> (Rule2(m) == [] <==> forall k :: 0 <= k < |m.blocks| ==> !Flagged(m, m.blocks[k]))
    ensures |m.blocks| == 1
            ==> Rule2(m) == (if Flagged(m, m.blocks[0]) then [InsideText(m, m.blocks[0])] else [])
    ensures |m.blocks| == 2
            ==> Rule2(m) == (if Flagged(m, m.blocks[0]) then [InsideText(m, m.blocks[0])] else [])
                            + (if Flagged(m, m.blocks[1]) then [InsideText(m, m.blocks[1])] else [])
  {
    BlockIssuesReport(m, m.blocks);
    var bs := m.blocks;
    if |bs| >= 1 {
      assert bs[..1][..0] == [] && bs[..1][0] == bs[0];
      assert BlockIssues(m, bs[..1]) == BlockIssue(m, bs[0]);
    }
    if |bs| == 1 {
      assert bs[..1] == bs;
    }
  }

  /** Rule 3 flags a first block that is not direct-only whenever there is
      one, and a second block that is not indirect-only; the messages end
      without a period. */
  lemma Rule3Reports(m: Stmts)
    ensures |m.blocks| == 0 ==> Rule3(m) == []
    ensures |m.blocks| > 0 ==> (FirstBlockText in Rule3(m) <==> m.blocks[0].consistency != OnlyDirect)
    ensures SecondBlockText in Rule3(m) <==> |m.blocks| > 1 && m.blocks[1].consistency != OnlyIndirect
    ensures forall k :: 0 <= k < |Rule3(m)| ==> Rule3(m)[k][|Rule3(m)[k]| - 1] != '.'
    ensures |Rule3(m)| == (if |m.blocks| > 0 && m.blocks[0].consistency != OnlyDirect then 1 else 0)
                          + (if |m.blocks| > 1 && m.blocks[1].consistency != OnlyIndirect then 1 else 0)
    ensures forall k, j :: 0 <= k < j < |Rule3(m)| ==> Rule3(m)[k] == FirstBlockText && Rule3(m)[j] == SecondBlockText
  {
    assert FirstBlockText != SecondBlockText by {
      assert |FirstBlockText| != |SecondBlockText|;
    }
  }

  /** In this copy a lone indirect-only block is flagged. */
  lemma LoneIndirectBlockFlagged(m: Stmts)
    requires |m.blocks| == 1 && m.blocks[0].consistency == OnlyIndirect
    ensures Rule3(m) == [FirstBlockText]
  {
  }

  /** The same rule 1, rule 2, rule 3 short-circuit. */
  lemma AnalysisShortCircuits(m: Stmts)
    ensures Rule1(m) != [] ==> Analysis(m) == Rule1(m)
    ensures Rule1(m) == [] && Rule2(m) != [] ==> Analysis(m) == Rule2(m)
    ensures Rule1(m) == [] && Rule2(m) == [] ==> Analysis(m) == Rule3(m)
  {
  }

  /** Routing: exactly the `require` lines whose comment does (does not)
      mention the word become isolated indirect (direct) lines, named by
      their second token and versioned by their third. */
  lemma {:induction false} IsolatedLinesFrom(stmts: seq<Stmt>, indirect: bool)
    requires AllProcessable(stmts)
    ensures forall l :: l in IsolatedLines(stmts, indirect) <==>
              exists j :: 0 <= j < |stmts| && IsRequireLine(stmts[j])
                          && MentionsIndirect(stmts[j].line.comment) == indirect
                          && l == ReqLine(stmts[j].line.token[1], stmts[j].line.token[2], indirect)
  {
    if stmts != [] {
      var init := stmts[..|stmts| - 1];
      assert forall j :: 0 <= j < |init| ==> init[j] == stmts[j];
      IsolatedLinesFrom(init, indirect);
    }
  }

  /** The block's lines: exactly the inner lines with at least two tokens. */
  lemma {:induction false} BlockLinesFrom(inner: seq<Line>)
    ensures |BlockLines(inner)| <= |inner|
    ensures forall l :: l in BlockLines(inner) <==>
              exists k :: 0 <= k < |inner| && |inner[k].token| >= 2
                          && l == ReqLine(inner[k].token[0], inner[k].token[1], MentionsIndirect(inner[k].comment))
  {
    if inner != [] {
      var init := inner[..|inner| - 1];
      assert forall k :: 0 <= k < |init| ==> init[k] == inner[k];
      BlockLinesFrom(init);
    }
  }

  /** A block all of whose inner lines were skipped is still kept, empty and
      `Unset`. */
  lemma {:induction false} BlankBlockKept(inner: seq<Line>)
    requires forall k :: 0 <= k < |inner| ==> |inner[k].token| < 2
    ensures BlockOf(inner) == Block([], Unset)
  {
    if inner != [] {
      var init := inner[..|inner| - 1];
      assert forall k :: 0 <= k < |init| ==> init[k] == inner[k];
      BlankBlockKept(init);
    }
  }

  /** Exactly the `require` block statements become blocks; their order is
      that of the statement loop, as `Analyzer.ExtractSnoc` states. */
  lemma {:induction false} BlocksFrom(stmts: seq<Stmt>)
    requires AllProcessable(stmts)
    ensures forall b :: b in Blocks(stmts) <==>
              exists j :: 0 <= j < |stmts| && IsRequireBlock(stmts[j]) && b == BlockOf(stmts[j].lines)
  {
    if stmts != [] {
      var init := stmts[..|stmts| - 1];
      assert forall j :: 0 <= j < |init| ==> init[j] == stmts[j];
      BlocksFrom(init);
    }
  }
}
