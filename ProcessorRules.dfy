/** Properties of the rule engine of internal/processor/processor.go, stated
    over model snapshots. */
module ProcessorRules {
  import opened ModFile
  import opened ConsistencyFold
  import opened Processor
  import opened Messages

  /** A block's consistency, read off its lines: `Unset` iff it has none,
      `OnlyDirect` / `OnlyIndirect` iff it has some and all are of that kind,
      `Mixed` iff both kinds occur. */
  lemma ConsistencyOfLines(lines: seq<ReqLine>)
    ensures ConsistencyOf(lines) == Unset <==> lines == []
    ensures ConsistencyOf(lines) == OnlyDirect
            <==> lines != [] && forall k :: 0 <= k < |lines| ==> !lines[k].indirect
    ensures ConsistencyOf(lines) == OnlyIndirect
            <==> lines != [] && forall k :: 0 <= k < |lines| ==> lines[k].indirect
    ensures ConsistencyOf(lines) == Mixed
            <==> (exists k :: 0 <= k < |lines| && lines[k].indirect)
                 && (exists k :: 0 <= k < |lines| && !lines[k].indirect)
  {
    var flags := Flags(lines);
    FoldClassifies(flags);
    assert (true in flags) <==> exists k :: 0 <= k < |lines| && lines[k].indirect;
    assert (false in flags) <==> exists k :: 0 <= k < |lines| && !lines[k].indirect;
  }

  /** A line of the given kind in `a` is also in any permutation of `a`. */
  lemma KindSurvivesPermutation(a: seq<ReqLine>, b: seq<ReqLine>, indirect: bool)
    requires multiset(a) == multiset(b)
    requires exists k :: 0 <= k < |a| && a[k].indirect == indirect
    ensures exists j :: 0 <= j < |b| && b[j].indirect == indirect
  {
    var k :| 0 <= k < |a| && a[k].indirect == indirect;
    assert a[k] in multiset(b);
    var j :| 0 <= j < |b| && b[j] == a[k];
  }

  /** Permuting a block's lines does not change its consistency. */
  lemma ConsistencyOrderIndependent(a: seq<ReqLine>, b: seq<ReqLine>)
    requires multiset(a) == multiset(b)
    ensures ConsistencyOf(a) == ConsistencyOf(b)
  {
    ConsistencyOfLines(a);
    ConsistencyOfLines(b);
    assert |a| == |multiset(a)| == |b|;
    if exists k :: 0 <= k < |a| && a[k].indirect {
      KindSurvivesPermutation(a, b, true);
    }
    if exists k :: 0 <= k < |a| && !a[k].indirect {
      KindSurvivesPermutation(a, b, false);
    }
    if exists k :: 0 <= k < |b| && b[k].indirect {
      KindSurvivesPermutation(b, a, true);
    }
    if exists k :: 0 <= k < |b| && !b[k].indirect {
      KindSurvivesPermutation(b, a, false);
    }
  }

  /** Once a block is mixed, adding lines keeps it mixed. */
  lemma MixedStaysMixed(lines: seq<ReqLine>, more: seq<ReqLine>)
    requires ConsistencyOf(lines) == Mixed
    ensures ConsistencyOf(lines + more) == Mixed
  {
    assert Flags(lines + more) == Flags(lines) + Flags(more);
    MixedAbsorbs(Flags(lines), Flags(more));
  }

  /** Rule 1 reports the direct container, then the indirect one, each only
      when it holds more than one line, at its first line and with its
      length in the text. */
  lemma Rule1Reports(m: Stmts)
    ensures Rule1(m) == [] <==> |m.directLines| <= 1 && |m.indirectLines| <= 1
    ensures |Rule1(m)| == (if |m.directLines| > 1 then 1 else 0) + (if |m.indirectLines| > 1 then 1 else 0)
    ensures |m.directLines| > 1
            ==> Rule1(m)[0] == Issue(m.directLines[0].position, GroupingText("direct", |m.directLines|))
    ensures |m.indirectLines| > 1
            ==> Rule1(m)[|Rule1(m)| - 1]
                == Issue(m.indirectLines[0].position, GroupingText("indirect", |m.indirectLines|))
  {
  }

  /** A block for which Rule 2 reports something. */
  predicate Flagged(m: Stmts, b: Block) {
    (b.consistency == OnlyDirect && |m.directLines| > 0)
    || (b.consistency == OnlyIndirect && |m.indirectLines| > 0)
  }

  /** The issue Rule 2 reports for a flagged block: the first isolated line
      of the block's own kind. */
  function InsideIssue(m: Stmts, b: Block): Issue
    requires Flagged(m, b)
  {
    if b.consistency == OnlyDirect then DirectInsideIssue(m) else IndirectInsideIssue(m)
  }

  /** The flagged blocks among `bs`, in order. */
  function FlaggedBlocks(m: Stmts, bs: seq<Block>): (r: seq<Block>)
    ensures |r| <= |bs|
    ensures forall k :: 0 <= k < |r| ==> Flagged(m, r[k])
  {
    if bs == [] then []
    else FlaggedBlocks(m, bs[..|bs| - 1]) + (if Flagged(m, bs[|bs| - 1]) then [bs[|bs| - 1]] else [])
  }

  /** Rule 2's loop yields one issue per flagged block, in block order, each
      naming the first isolated line of that block's kind: so nothing iff no
      block is flagged, and an issue for each kind that has both a block and
      an isolated line. */
  lemma {:induction false} BlockIssuesReport(m: Stmts, bs: seq<Block>)
    ensures |BlockIssues(m, bs)| == |FlaggedBlocks(m, bs)| <= |bs|
    ensures forall k :: 0 <= k < |BlockIssues(m, bs)| ==>
              BlockIssues(m, bs)[k] == InsideIssue(m, FlaggedBlocks(m, bs)[k])
    ensures BlockIssues(m, bs) == [] <==> forall k :: 0 <= k < |bs| ==> !Flagged(m, bs[k])
    ensures forall k :: 0 <= k < |bs| && bs[k].consistency == OnlyDirect && |m.directLines| > 0
              ==> DirectInsideIssue(m) in BlockIssues(m, bs)
    ensures forall k :: 0 <= k < |bs| && bs[k].consistency == OnlyIndirect && |m.indirectLines| > 0
              ==> IndirectInsideIssue(m) in BlockIssues(m, bs)
    ensures forall k :: 0 <= k < |BlockIssues(m, bs)| ==>
              (|m.directLines| > 0 && BlockIssues(m, bs)[k] == DirectInsideIssue(m))
              || (|m.indirectLines| > 0 && BlockIssues(m, bs)[k] == IndirectInsideIssue(m))
  {
    if bs != [] {
      var init := bs[..|bs| - 1];
      var last := bs[|bs| - 1];
      BlockIssuesReport(m, init);
      assert forall k :: 0 <= k < |init| ==> init[k] == bs[k];
      assert BlockIssues(m, bs) == BlockIssues(m, init) + BlockIssue(m, last);
      assert FlaggedBlocks(m, bs) == FlaggedBlocks(m, init) + (if Flagged(m, last) then [last] else []);
      if Flagged(m, last) {
        assert BlockIssue(m, last) == [InsideIssue(m, last)];
      }
    }
  }

  /** Rule 2 with more than two blocks: exactly one issue, at the first block,
      with the count, and the per-block check is skipped. */
  lemma Rule2TooManyBlocks(m: Stmts)
    requires |m.blocks| > MaxRequireBlocks
    ensures Rule2(m) == [Issue(m.blocks[0].position, MaxBlocksText(|m.blocks|))]
  {
  }

  /** Rule 2 with at most two blocks: the per-block issues, one for each
      flagged block, in block order. */
  lemma Rule2PerBlock(m: Stmts)
    requires |m.blocks| <= MaxRequireBlocks
    ensures |Rule2(m)| <= |m.blocks|
    ensures Rule2(m) == [] <==> forall k :: 0 <= k < |m.blocks| ==> !Flagged(m, m.blocks[k])
    ensures |m.blocks| == 1
            ==> Rule2(m) == (if Flagged(m, m.blocks[0]) then [InsideIssue(m, m.blocks[0])] else [])
    ensures |m.blocks| == 2
            ==> Rule2(m) == (if Flagged(m, m.blocks[0]) then [InsideIssue(m, m.blocks[0])] else [])
                            + (if Flagged(m, m.blocks[1]) then [InsideIssue(m, m.blocks[1])] else [])
  {
    BlockIssuesReport(m, m.blocks);
    var bs := m.blocks;
    if |bs| >= 1 {
      assert bs[..1][..0] == [] && bs[..1][0] == bs[0];
      assert BlockIssues(m, bs[..1]) == BlockIssue(m, bs[0]);
    }
    if |bs| == 1 {
      assert bs[..1] == bs;
    }
  }

  /** Rule 3, case by case on the number of blocks. */
  lemma Rule3Cases(m: Stmts)
    ensures |m.blocks| == 0 ==> Rule3(m) == []
    ensures |m.blocks| == 1
            ==> Rule3(m) == (if m.blocks[0].consistency == Mixed
                             then [Issue(m.blocks[0].position, MixedBlockText)] else [])
    ensures |m.blocks| >= 2
            ==> Rule3(m) == (if m.blocks[0].consistency != OnlyDirect
                             then [Issue(m.blocks[0].position, FirstBlockText)] else [])
                            + (if m.blocks[1].consistency != OnlyIndirect
                               then [Issue(m.blocks[1].position, SecondBlockText)] else [])
  {
  }

  /** Every rule 3 message is a full sentence ending with a period. */
  lemma Rule3Punctuated(m: Stmts)
    ensures forall k :: 0 <= k < |Rule3(m)| ==>
              |Rule3(m)[k].text| > 0 && Rule3(m)[k].text[|Rule3(m)[k].text| - 1] == '.'
  {
  }

  /** A lone indirect-only block is accepted by Rule 3. */
  lemma LoneIndirectBlockAccepted(m: Stmts)
    requires |m.blocks| == 1 && m.blocks[0].consistency == OnlyIndirect
    ensures Rule3(m) == []
  {
  }

  /** Rule 3 looks at nothing but the consistency and position of the first
      two blocks. */
  lemma Rule3InspectsFirstTwo(m: Stmts, m': Stmts)
    requires |m.blocks| >= 2 && |m'.blocks| >= 2
    requires m.blocks[0].consistency == m'.blocks[0].consistency
    requires m.blocks[1].consistency == m'.blocks[1].consistency
    requires m.blocks[0].position == m'.blocks[0].position
    requires m.blocks[1].position == m'.blocks[1].position
    ensures Rule3(m) == Rule3(m')
  {
  }

  /** `analyze` short-circuits: the first rule with an issue decides. */
  lemma AnalysisShortCircuits(m: Stmts)
    ensures Rule1(m) != [] ==> Analysis(m) == Rule1(m)
    ensures Rule1(m) == [] && Rule2(m) != [] ==> Analysis(m) == Rule2(m)
    ensures Rule1(m) == [] && Rule2(m) == [] ==> Analysis(m) == Rule3(m)
  {
  }

  /** A compliant model: what each rule demands, all together. */
  predicate Compliant(m: Stmts) {
    && |m.directLines| <= 1
    && |m.indirectLines| <= 1
    && |m.blocks| <= MaxRequireBlocks
    && (forall k :: 0 <= k < |m.blocks| ==> !Flagged(m, m.blocks[k]))
    && (|m.blocks| >= 2 ==> m.blocks[0].consistency == OnlyDirect && m.blocks[1].consistency == OnlyIndirect)
    && (|m.blocks| == 1 ==> m.blocks[0].consistency != Mixed)
  }

  /** The analysis reports nothing exactly for compliant models. */
  lemma AnalysisCleanIff(m: Stmts)
    ensures Analysis(m) == [] <==> Compliant(m)
  {
    Rule1Reports(m);
    if |m.blocks| <= MaxRequireBlocks {
      Rule2PerBlock(m);
    }
    Rule3Cases(m);
  }

  /** The analysis never reports more than two issues. */
  lemma AnalysisAtMostTwo(m: Stmts)
    ensures |Analysis(m)| <= 2
  {
    Rule1Reports(m);
    if |m.blocks| <= MaxRequireBlocks {
      Rule2PerBlock(m);
    }
    Rule3Cases(m);
  }

  /** The positions an issue may cite: those of the isolated lines and of the
      blocks. */
  predicate ModelPosition(m: Stmts, p: Position) {
    (exists k :: 0 <= k < |m.directLines| && m.directLines[k].position == p)
    || (exists k :: 0 <= k < |m.indirectLines| && m.indirectLines[k].position == p)
    || (exists k :: 0 <= k < |m.blocks| && m.blocks[k].position == p)
  }

  /** The positions the rules cite: the first line of each isolated
      container and the first two blocks. */
  predicate CitesFront(m: Stmts, p: Position) {
    (|m.directLines| > 0 && p == m.directLines[0].position)
    || (|m.indirectLines| > 0 && p == m.indirectLines[0].position)
    || (|m.blocks| > 0 && p == m.blocks[0].position)
    || (|m.blocks| > 1 && p == m.blocks[1].position)
  }

  /** The positions Rule 2 may cite: the first line of either isolated
      container, or the first block. */
  predicate Rule2Position(m: Stmts, p: Position) {
    (|m.directLines| > 0 && p == m.directLines[0].position)
    || (|m.indirectLines| > 0 && p == m.indirectLines[0].position)
    || (|m.blocks| > 0 && p == m.blocks[0].position)
  }

  /** Rule 2 cites the first block (too many blocks) or the first line of an
      isolated container (a line that belongs in a block). */
  lemma Rule2CitesFront(m: Stmts)
    ensures forall k :: 0 <= k < |Rule2(m)| ==> Rule2Position(m, Rule2(m)[k].position)
  {
    if |m.blocks| <= MaxRequireBlocks {
      BlockIssuesReport(m, m.blocks);
    }
  }

  /** The positions Rule 3 may cite: the first two blocks. */
  predicate Rule3Position(m: Stmts, p: Position) {
    (|m.blocks| > 0 && p == m.blocks[0].position)
    || (|m.blocks| > 1 && p == m.blocks[1].position)
  }

  /** Rule 3 cites only the first or the second block. */
  lemma Rule3CitesFront(m: Stmts)
    ensures forall k :: 0 <= k < |Rule3(m)| ==> Rule3Position(m, Rule3(m)[k].position)
  {
    Rule3Cases(m);
  }

  /** The analysis only ever cites the first line of each isolated container
      and the first or second block: the rest of each container is never
      looked at beyond its length. */
  lemma AnalysisCitesFirstOnly(m: Stmts)
    ensures forall k :: 0 <= k < |Analysis(m)| ==> CitesFront(m, Analysis(m)[k].position)
  {
    if Rule1(m) != [] {
      assert Analysis(m) == Rule1(m);
    } else if Rule2(m) != [] {
      assert Analysis(m) == Rule2(m);
      Rule2CitesFront(m);
    } else {
      assert Analysis(m) == Rule3(m);
      Rule3CitesFront(m);
    }
  }

  /** Every issue is positioned at an isolated line or a block of the model;
      no position is made up. */
  lemma AnalysisPositions(m: Stmts)
    ensures forall k :: 0 <= k < |Analysis(m)| ==> ModelPosition(m, Analysis(m)[k].position)
  {
    AnalysisCitesFirstOnly(m);
  }
}
