/** The consistency of a require block: which kinds of dependency it holds.
    Both copies of the checker fold a block's lines into this value one line
    at a time; the fold is stated here once over the lines' indirect flags. */
module ConsistencyFold {

  /** `Unset` is the empty string a fresh block starts with. */
  datatype Consistency = Unset | OnlyDirect | OnlyIndirect | Mixed

  /** One step of `updateConsistency`: the block's new consistency after a
      line with the given indirect flag is added. */
  function Combine(c: Consistency, indirect: bool): (r: Consistency)
    ensures r != Unset
    ensures c == Mixed ==> r == Mixed
    ensures r == OnlyDirect ==> !indirect
    ensures r == OnlyIndirect ==> indirect
  {
    match c
    case Unset => if indirect then OnlyIndirect else OnlyDirect
    case OnlyIndirect => if indirect then OnlyIndirect else Mixed
    case OnlyDirect => if indirect then Mixed else OnlyDirect
    case Mixed => Mixed
  }

  /** The consistency reached by adding lines with these flags, in order, to
      an empty block. */
  function Fold(flags: seq<bool>): Consistency {
    if flags == [] then Unset else Combine(Fold(flags[..|flags| - 1]), flags[|flags| - 1])
  }

  /** The classification the fold is meant to compute, by presence of each
      kind only. */
  function Classify(flags: seq<bool>): Consistency {
    if flags == [] then Unset
    else if true !in flags then OnlyDirect
    else if false !in flags then OnlyIndirect
    else Mixed
  }

  lemma FoldSnoc(flags: seq<bool>, f: bool)
    ensures Fold(flags + [f]) == Combine(Fold(flags), f)
  {
    assert (flags + [f])[..|flags|] == flags;
  }

  /** The fold computes the classification: `Unset` iff no line, `OnlyDirect`
      iff every line is direct, `OnlyIndirect` iff every line is indirect,
      `Mixed` iff both kinds occur. */
  lemma {:induction false} FoldClassifies(flags: seq<bool>)
    ensures Fold(flags) == Classify(flags)
  {
    if flags != [] {
      var init := flags[..|flags| - 1];
      var last := flags[|flags| - 1];
      FoldClassifies(init);
      assert flags == init + [last];
      assert forall b :: b in flags <==> b in init || b == last;
    }
  }

  /** Hence the order of the lines in a block does not matter. */
  lemma FoldOrderIndependent(a: seq<bool>, b: seq<bool>)
    requires multiset(a) == multiset(b)
    ensures Fold(a) == Fold(b)
  {
    FoldClassifies(a);
    FoldClassifies(b);
    assert |a| == |multiset(a)| == |b|;
    assert true in a <==> true in multiset(a);
    assert true in b <==> true in multiset(b);
    assert false in a <==> false in multiset(a);
    assert false in b <==> false in multiset(b);
  }

  /** `Mixed` is absorbing: once reached, no further line changes it. */
  lemma {:induction false} MixedAbsorbs(a: seq<bool>, b: seq<bool>)
    requires Fold(a) == Mixed
    ensures Fold(a + b) == Mixed
  {
    if b == [] {
      assert a + b == a;
    } else {
      var init := b[..|b| - 1];
      MixedAbsorbs(a, init);
      assert a + b == (a + init) + [b[|b| - 1]];
      FoldSnoc(a + init, b[|b| - 1]);
    }
  }
}
