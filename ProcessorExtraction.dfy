/** Properties of `ProcessFile`'s extraction of the require model from the
    syntax tree (internal/processor/processor.go). */
module ProcessorExtraction {
  import opened ModFile
  import opened ConsistencyFold
  import opened Processor
  import opened ProcessorRules

  /** The model of two consecutive runs of statements. */
  function Join(m: Stmts, n: Stmts): Stmts {
    Stmts(m.directLines + n.directLines, m.indirectLines + n.indirectLines, m.blocks + n.blocks)
  }

  lemma ProcessableSplit(a: seq<Stmt>, b: seq<Stmt>)
    requires AllProcessable(a + b)
    ensures AllProcessable(a) && AllProcessable(b)
  {
    assert forall k :: 0 <= k < |a| ==> a[k] == (a + b)[k];
    assert forall k :: 0 <= k < |b| ==> b[k] == (a + b)[|a| + k];
  }

  lemma {:induction false} IsolatedLinesAppend(filename: string, a: seq<Stmt>, b: seq<Stmt>, indirect: bool)
    requires AllProcessable(a + b)
    ensures AllProcessable(a) && AllProcessable(b)
    ensures IsolatedLines(filename, a + b, indirect)
            == IsolatedLines(filename, a, indirect) + IsolatedLines(filename, b, indirect)
  {
    ProcessableSplit(a, b);
    if b == [] {
      assert a + b == a;
    } else {
      var init := b[..|b| - 1];
      assert (a + b)[..|a + b| - 1] == a + init;
      assert (a + b)[|a + b| - 1] == b[|b| - 1];
      IsolatedLinesAppend(filename, a, init, indirect);
    }
  }

  lemma {:induction false} BlocksAppend(filename: string, a: seq<Stmt>, b: seq<Stmt>)
    requires AllProcessable(a + b)
    ensures AllProcessable(a) && AllProcessable(b)
    ensures Blocks(filename, a + b) == Blocks(filename, a) + Blocks(filename, b)
  {
    ProcessableSplit(a, b);
    if b == [] {
      assert a + b == a;
    } else {
      var init := b[..|b| - 1];
      assert (a + b)[..|a + b| - 1] == a + init;
      assert (a + b)[|a + b| - 1] == b[|b| - 1];
      BlocksAppend(filename, a, init);
    }
  }

  /** Extraction is compositional and keeps document order: the model of a
      file split in two is the first half's model followed by the second's. */
  lemma ExtractAppend(filename: string, a: seq<Stmt>, b: seq<Stmt>)
    requires AllProcessable(a + b)
    ensures AllProcessable(a) && AllProcessable(b)
    ensures Extract(filename, a + b) == Join(Extract(filename, a), Extract(filename, b))
  {
    IsolatedLinesAppend(filename, a, b, false);
    IsolatedLinesAppend(filename, a, b, true);
    BlocksAppend(filename, a, b);
  }

  /** Statements that are neither a require line nor a require block do not
      change the model, wherever they stand. */
  lemma ExtractIgnoresOthers(filename: string, a: seq<Stmt>, s: Stmt, b: seq<Stmt>)
    requires AllProcessable(a + [s] + b)
    requires Processable(s) && !IsRequireLine(s) && !IsRequireBlock(s)
    ensures AllProcessable(a + b)
    ensures Extract(filename, a + [s] + b) == Extract(filename, a + b)
  {
    ExtractAppend(filename, a + [s], b);
    ExtractAppend(filename, a, [s]);
    assert [s][..0] == [];
    assert AllProcessable(a + b) by {
      forall k | 0 <= k < |a + b|
        ensures Processable((a + b)[k])
      {
        if k < |a| {
          assert (a + b)[k] == (a + [s] + b)[k];
        } else {
          assert (a + b)[k] == (a + [s] + b)[k + 1];
        }
      }
    }
    ExtractAppend(filename, a, b);
  }

  /** Routing: exactly the require lines with (without) the indirect marker
      become isolated indirect (direct) lines, built from their second and
      third tokens. */
  lemma {:induction false} IsolatedLinesFrom(filename: string, stmts: seq<Stmt>, indirect: bool)
    requires AllProcessable(stmts)
    ensures forall l :: l in IsolatedLines(filename, stmts, indirect) <==>
              exists j :: 0 <= j < |stmts| && IsRequireLine(stmts[j])
                          && HasIndirectMarker(stmts[j].line.comment) == indirect
                          && l == IsolatedLine(filename, stmts[j].line)
    ensures forall k :: 0 <= k < |IsolatedLines(filename, stmts, indirect)| ==>
              IsolatedLines(filename, stmts, indirect)[k].indirect == indirect
  {
    if stmts != [] {
      var init := stmts[..|stmts| - 1];
      assert forall j :: 0 <= j < |init| ==> init[j] == stmts[j];
      IsolatedLinesFrom(filename, init, indirect);
    }
  }

  /** The inner lines kept in a block: exactly those with at least two
      tokens, named by their first token and versioned by their second. */
  lemma {:induction false} BlockLinesFrom(inner: seq<Line>)
    ensures |BlockLines(inner)| <= |inner|
    ensures forall l :: l in BlockLines(inner) <==>
              exists k :: 0 <= k < |inner| && |inner[k].token| >= 2 && l == BlockLine(inner[k])
  {
    if inner != [] {
      var init := inner[..|inner| - 1];
      assert forall k :: 0 <= k < |init| ==> init[k] == inner[k];
      BlockLinesFrom(init);
    }
  }

  /** A block whose inner lines all have fewer than two tokens is still
      recorded, empty and with consistency `Unset`. */
  lemma {:induction false} BlankBlockIsUnset(filename: string, start: nat, inner: seq<Line>)
    requires forall k :: 0 <= k < |inner| ==> |inner[k].token| < 2
    ensures BlockOf(filename, start, inner).lines == []
    ensures BlockOf(filename, start, inner).consistency == Unset
  {
    if inner != [] {
      var init := inner[..|inner| - 1];
      assert forall k :: 0 <= k < |init| ==> init[k] == inner[k];
      BlankBlockIsUnset(filename, start, init);
    }
  }

  /** Exactly the require block statements become blocks, each positioned at
      its opening line and with the consistency of the lines it kept. */
  lemma {:induction false} BlocksFrom(filename: string, stmts: seq<Stmt>)
    requires AllProcessable(stmts)
    ensures forall b :: b in Blocks(filename, stmts) <==>
              exists j :: 0 <= j < |stmts| && IsRequireBlock(stmts[j])
                          && b == BlockOf(filename, stmts[j].start, stmts[j].lines)
    ensures forall k :: 0 <= k < |Blocks(filename, stmts)| ==>
              Blocks(filename, stmts)[k].consistency == ConsistencyOf(Blocks(filename, stmts)[k].lines)
  {
    if stmts != [] {
      var init := stmts[..|stmts| - 1];
      assert forall j :: 0 <= j < |init| ==> init[j] == stmts[j];
      BlocksFrom(filename, init);
    }
  }

  /** A position `ProcessFile` may report: the file name with the opening
      line of a require line or a require block of the file. */
  predicate RequirePosition(file: File, p: Position)
    requires AllProcessable(file.stmts)
  {
    exists j :: 0 <= j < |file.stmts|
                && (IsRequireLine(file.stmts[j]) || IsRequireBlock(file.stmts[j]))
                && p == Position(file.name, file.stmts[j].StartLine())
  }

  /** Every position in the extracted model is that of a require statement. */
  lemma ModelPositionsAreRequirePositions(file: File, p: Position)
    requires AllProcessable(file.stmts)
    requires ModelPosition(Extract(file.name, file.stmts), p)
    ensures RequirePosition(file, p)
  {
    var m := Extract(file.name, file.stmts);
    if exists i :: 0 <= i < |m.directLines| && m.directLines[i].position == p {
      var i :| 0 <= i < |m.directLines| && m.directLines[i].position == p;
      IsolatedLinesFrom(file.name, file.stmts, false);
      assert m.directLines[i] in m.directLines;
    } else if exists i :: 0 <= i < |m.indirectLines| && m.indirectLines[i].position == p {
      var i :| 0 <= i < |m.indirectLines| && m.indirectLines[i].position == p;
      IsolatedLinesFrom(file.name, file.stmts, true);
      assert m.indirectLines[i] in m.indirectLines;
    } else {
      var i :| 0 <= i < |m.blocks| && m.blocks[i].position == p;
      BlocksFrom(file.name, file.stmts);
      assert m.blocks[i] in m.blocks;
    }
  }

  /** No issue position is made up: each names the file and the line of a
      require statement in it. */
  lemma ProcessFilePositions(file: File)
    requires AllProcessable(file.stmts)
    ensures forall k :: 0 <= k < |Analysis(Extract(file.name, file.stmts))| ==>
              RequirePosition(file, Analysis(Extract(file.name, file.stmts))[k].position)
  {
    var m := Extract(file.name, file.stmts);
    AnalysisPositions(m);
    forall k | 0 <= k < |Analysis(m)|
      ensures RequirePosition(file, Analysis(m)[k].position)
    {
      ModelPositionsAreRequirePositions(file, Analysis(m)[k].position);
    }
  }
}
