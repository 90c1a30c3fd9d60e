/** When the chain changes under a retry: which crashes of the retry leave a stored block without its receipts. */
module Reorganization {
  import opened Storage
  import opened Durability

  /** The receipts of each block: a block determines them, whatever chain it is on. */
  type Origins = Block -> set<Receipt>

  ghost predicate Has(s: Store, rs: set<Receipt>) {
    forall r :: r in rs ==> r.txHash in s.receipts && s.receipts[r.txHash] == r
  }

  /** Every height up to the latest one holds a block with all its receipts. */
  ghost predicate Whole(origins: Origins, first: nat, s: Store) {
    s.latest.Some? ==> WholeBelow(origins, first, s, s.latest.value + 1)
  }

  ghost predicate WholeBelow(origins: Origins, first: nat, s: Store, h: nat) {
    forall g :: first <= g < h ==> g in s.blocks && Has(s, origins(s.blocks[g]))
  }

  ghost predicate Follows(origins: Origins, d: Chain) {
    forall h: nat :: Elements(d(h).receipts) == origins(d(h).block)
  }

  /** No receipt of rs replaces one of qs by another. */
  ghost predicate Compatible(qs: set<Receipt>, rs: set<Receipt>) {
    forall q, r :: q in qs && r in rs && q.txHash == r.txHash ==> q == r
  }

  /** The heights below a that stay, against the receipts the retry of a .. b - 1 brings. */
  ghost predicate LeavesBelow(origins: Origins, first: nat, s: Store, d: Chain, a: nat, b: nat) {
    forall g, h :: first <= g < a && a <= h < b && g in s.blocks ==> Compatible(origins(s.blocks[g]), origins(d(h).block))
  }

  /** What the retry may be made from: everything up to the latest height and below a is whole. */
  ghost predicate Resumable(origins: Origins, first: nat, s: Store, a: nat) {
    && Whole(origins, first, s) && WholeBelow(origins, first, s, a)
    && (s.latest.Some? ==> a <= s.latest.value + 1)
  }

  /** The retry asks again for a height at or below the latest one only if it brings no receipt for it that is not
      already stored, and it replaces no receipt of a block below it. */
  ghost predicate Harmless(origins: Origins, first: nat, s: Store, d: Chain, a: nat, b: nat) {
    && (s.latest.Some? && a <= s.latest.value ==> Has(s, origins(d(a).block)))
    && LeavesBelow(origins, first, s, d, a, b)
  }

  // ---- One height -----------------------------------------------------------------------------

  lemma KeepsReceipts(s: Store, rs: seq<Receipt>, qs: set<Receipt>)
    requires Functional(Elements(rs)) && Compatible(qs, Elements(rs)) && Has(s, qs)
    ensures Has(Replay(s, ReceiptWrites(rs)), qs)
  {
    ReplayReceipts(s, rs);
    var t := Replay(s, ReceiptWrites(rs));
    hide Replay, Compatible;
    forall q | q in qs ensures q.txHash in t.receipts && t.receipts[q.txHash] == q {
      if r :| r in Elements(rs) && r.txHash == q.txHash {
        assert Compatible(qs, Elements(rs)) ==> q == r by {
          CompatibleAt(qs, Elements(rs), q, r);
        }
      }
    }
  }

  lemma CompatibleAt(qs: set<Receipt>, rs: set<Receipt>, q: Receipt, r: Receipt)
    requires q in qs && r in rs && q.txHash == r.txHash
    ensures Compatible(qs, rs) ==> q == r
  {
  }

  /** The store after the block and the first k receipts of a height. */
  lemma PartOfCommit(s: Store, f: Fetched, k: nat)
    requires k <= |f.receipts|
    ensures CommitLog(f)[..k + 1] == [SetBlock(f.block)] + ReceiptWrites(f.receipts[..k])
    ensures Replay(s, CommitLog(f)[..k + 1])
         == Replay(s.(blocks := s.blocks[f.block.number := f.block]), ReceiptWrites(f.receipts[..k]))
  {
    var part := [SetBlock(f.block)] + ReceiptWrites(f.receipts[..k]);
    assert CommitLog(f)[..k + 1] == part;
    ReplayConcat(s, [SetBlock(f.block)], ReceiptWrites(f.receipts[..k]));
    ReplayOne(s, SetBlock(f.block));
  }

  lemma SubsetCompatible(qs: set<Receipt>, some: set<Receipt>, all: set<Receipt>)
    requires some <= all && Compatible(qs, all)
    ensures Compatible(qs, some)
  {
  }

  /** A crash within the commit of height m, before the latest height is written. */
  lemma MidCommitWhole(origins: Origins, first: nat, t: Store, d: Chain, m: nat, k: nat)
    requires Canonical(d) && Follows(origins, d) && Whole(origins, first, t) && k <= |d(m).receipts|
    requires t.latest.Some? && first <= m <= t.latest.value ==> Has(t, origins(d(m).block))
    requires t.latest.Some? ==> forall g :: first <= g <= t.latest.value && g != m && g in t.blocks ==>
      Compatible(origins(t.blocks[g]), origins(d(m).block))
    ensures Whole(origins, first, Replay(t, CommitLog(d(m))[..k + 1]))
  {
    var f, some := d(m), d(m).receipts[..k];
    PartOfCommit(t, f, k);
    var u := t.(blocks := t.blocks[m := f.block]);
    var v := Replay(u, ReceiptWrites(some));
    assert Elements(some) <= Elements(f.receipts);
    BlockReceiptsFunctional(d, m);
    ReplayReceipts(u, some);
    if t.latest.Some? {
      hide Replay, CommitLog, Canonical, Follows, Compatible, Has;
      forall g | first <= g < v.latest.value + 1 ensures g in v.blocks && Has(v, origins(v.blocks[g])) {
        assert g in t.blocks && Has(t, origins(t.blocks[g]));
        if g == m {
          SelfCompatible(origins(f.block));
          SameReceiptTable(t, u, origins(f.block));
          SubsetCompatible(origins(f.block), Elements(some), origins(f.block));
          KeepsReceipts(u, some, origins(f.block));
        } else {
          SubsetCompatible(origins(t.blocks[g]), Elements(some), origins(f.block));
          SameReceiptTable(t, u, origins(t.blocks[g]));
          KeepsReceipts(u, some, origins(t.blocks[g]));
        }
      }
    }
  }

  lemma SelfCompatible(rs: set<Receipt>)
    ensures Functional(rs) ==> Compatible(rs, rs)
  {
  }

  lemma SameReceiptTable(t: Store, u: Store, rs: set<Receipt>)
    requires u.receipts == t.receipts && Has(t, rs)
    ensures Has(u, rs)
  {
  }

  /** The whole commit of height m makes the heights up to m whole. */
  lemma CommitWhole(origins: Origins, first: nat, t: Store, d: Chain, m: nat)
    requires Canonical(d) && Follows(origins, d) && WholeBelow(origins, first, t, m) && first <= m
    requires forall g :: first <= g < m && g in t.blocks ==> Compatible(origins(t.blocks[g]), origins(d(m).block))
    ensures var u := Replay(t, CommitLog(d(m)));
            u.latest == Some(m) && WholeBelow(origins, first, u, m + 1) && Whole(origins, first, u)
  {
    var f := d(m);
    BlockReceiptsFunctional(d, m);
    CommitEffect(t, f);
    var u := Replay(t, CommitLog(f));
    hide Replay, CommitLog, Canonical, Compatible;
    forall g | first <= g < m + 1 ensures g in u.blocks && Has(u, origins(u.blocks[g])) {
      if g < m {
        assert g in t.blocks && Has(t, origins(t.blocks[g]));
        AddedKeeps(t, u, Elements(f.receipts), origins(t.blocks[g]));
      }
    }
  }

  lemma AddedKeeps(t: Store, u: Store, rs: set<Receipt>, qs: set<Receipt>)
    requires ReceiptsAdded(t.receipts, rs, u.receipts) && Compatible(qs, rs) && Has(t, qs)
    ensures Has(u, qs)
  {
    forall q | q in qs ensures q.txHash in u.receipts && u.receipts[q.txHash] == q {
      if r :| r in rs && r.txHash == q.txHash {
        assert q == r;
      }
    }
  }

  // ---- The whole retry ------------------------------------------------------------------------

  /** The blocks of the first m heights of the retry, and what stood below. */
  ghost predicate Replaced(s: Store, t: Store, d: Chain, a: nat, m: nat) {
    && (forall g: nat :: g in t.blocks <==> g in s.blocks || a <= g < m)
    && (forall g: nat :: g in t.blocks ==> t.blocks[g] == if a <= g < m then d(g).block else s.blocks[g])
    && t.latest == if a < m then Some(m - 1) else s.latest
  }

  lemma CompatibleBelow(origins: Origins, first: nat, s: Store, t: Store, d: Chain, a: nat, m: nat, b: nat, g: nat)
    requires Canonical(d) && Follows(origins, d) && LeavesBelow(origins, first, s, d, a, b) && Replaced(s, t, d, a, m)
    requires first <= g < m && a <= m < b && g in t.blocks
    ensures Compatible(origins(t.blocks[g]), origins(d(m).block))
  {
    if a <= g {
      assert origins(t.blocks[g]) == Elements(d(g).receipts) && origins(d(m).block) == Elements(d(m).receipts);
    }
  }

  lemma RangeReplaces(s: Store, d: Chain, a: nat, m: nat)
    requires Canonical(d)
    ensures Replaced(s, Replay(s, RangeLog(d, a, m)), d, a, m)
  {
    RangeEffect(s, d, a, m);
  }

  lemma NextWhole(origins: Origins, first: nat, s: Store, t: Store, d: Chain, a: nat, m: nat, b: nat)
    requires Canonical(d) && Follows(origins, d) && first <= a <= m < b
    requires LeavesBelow(origins, first, s, d, a, b) && Replaced(s, t, d, a, m) && WholeBelow(origins, first, t, m)
    ensures WholeBelow(origins, first, Replay(t, CommitLog(d(m))), m + 1)
  {
    hide Replay, CommitLog, Canonical, Follows, LeavesBelow, WholeBelow, Replaced, Compatible;
    forall g | first <= g < m && g in t.blocks ensures Compatible(origins(t.blocks[g]), origins(d(m).block)) {
      CompatibleBelow(origins, first, s, t, d, a, m, b, g);
    }
    CommitWhole(origins, first, t, d, m);
  }

  /** After the heights a .. m - 1 of the retry. */
  ghost predicate Retried(origins: Origins, first: nat, s: Store, d: Chain, a: nat, m: nat) {
    var t := Replay(s, RangeLog(d, a, m));
    Replaced(s, t, d, a, m) && WholeBelow(origins, first, t, m)
  }

  lemma NothingRetried(origins: Origins, first: nat, s: Store, d: Chain, a: nat)
    requires Canonical(d) && WholeBelow(origins, first, s, a)
    ensures Retried(origins, first, s, d, a, a)
  {
    RangeReplaces(s, d, a, a);
    ReplayNothing(s);
  }

  lemma OneMoreRetried(origins: Origins, first: nat, s: Store, d: Chain, a: nat, m: nat, b: nat)
    requires Canonical(d) && Follows(origins, d) && first <= a <= m < b
    requires LeavesBelow(origins, first, s, d, a, b) && Retried(origins, first, s, d, a, m)
    ensures Retried(origins, first, s, d, a, m + 1)
  {
    RangeReplaces(s, d, a, m + 1);
    ReplayRangeStep(s, d, a, m + 1);
    NextWhole(origins, first, s, Replay(s, RangeLog(d, a, m)), d, a, m, b);
    hide Replay, CommitLog, Canonical, Follows, LeavesBelow, WholeBelow, Replaced;
  }

  lemma {:induction false} RetryWhole(origins: Origins, first: nat, s: Store, d: Chain, a: nat, m: nat, b: nat)
    requires Canonical(d) && Follows(origins, d) && first <= a <= m <= b
    requires WholeBelow(origins, first, s, a) && LeavesBelow(origins, first, s, d, a, b)
    ensures Retried(origins, first, s, d, a, m)
    decreases m
  {
    hide *;
    if a == m {
      NothingRetried(origins, first, s, d, a);
    } else {
      RetryWhole(origins, first, s, d, a, m - 1, b);
      OneMoreRetried(origins, first, s, d, a, m - 1, b);
    }
  }

  /** Before the first height of the retry is complete, the heights above it are still counted as indexed. */
  lemma FirstHeightCompatible(origins: Origins, first: nat, s: Store, d: Chain, a: nat, b: nat, g: nat)
    requires Whole(origins, first, s) && Harmless(origins, first, s, d, a, b) && a < b
    requires s.latest.Some? && first <= g <= s.latest.value && g != a && g in s.blocks
    ensures Compatible(origins(s.blocks[g]), origins(d(a).block))
  {
    if a < g {
      assert Has(s, origins(s.blocks[g])) && Has(s, origins(d(a).block));
    }
  }

  /** A harmless retry leaves every crash whole. */
  lemma {:induction false} HarmlessRetry(origins: Origins, first: nat, s: Store, d: Chain, a: nat, m: nat, b: nat, k: nat)
    requires Canonical(d) && Follows(origins, d) && Resumable(origins, first, s, a) && first <= a <= m <= b
    requires a < b && Harmless(origins, first, s, d, a, b) && k <= |RangeLog(d, a, m)|
    ensures Whole(origins, first, Replay(s, RangeLog(d, a, m)[..k]))
    decreases m
  {
    hide Replay, CommitLog, Canonical, Follows, Whole, WholeBelow, Harmless;
    if a == m {
      ReplayNothing(s);
      assert RangeLog(d, a, m)[..k] == [];
    } else {
      var shorter, ws := RangeLog(d, a, m - 1), CommitLog(d(m - 1));
      if k <= |shorter| {
        assert RangeLog(d, a, m)[..k] == shorter[..k];
        HarmlessRetry(origins, first, s, d, a, m - 1, b, k);
      } else {
        var j := k - |shorter|;
        assert RangeLog(d, a, m)[..k] == shorter + ws[..j];
        ReplayConcat(s, shorter, ws[..j]);
        HarmlessLast(origins, first, s, d, a, m - 1, b, j);
      }
    }
  }

  lemma HarmlessLast(origins: Origins, first: nat, s: Store, d: Chain, a: nat, m: nat, b: nat, j: nat)
    requires Canonical(d) && Follows(origins, d) && Resumable(origins, first, s, a) && first <= a <= m < b
    requires Harmless(origins, first, s, d, a, b) && 0 < j <= |CommitLog(d(m))|
    ensures Whole(origins, first, Replay(Replay(s, RangeLog(d, a, m)), CommitLog(d(m))[..j]))
  {
    RetryWhole(origins, first, s, d, a, m, b);
    var t := Replay(s, RangeLog(d, a, m));
    if a == m {
      ReplayNothing(s);
      assert t == s;
    }
    hide Replay, Canonical, Follows, LeavesBelow, Has, Compatible;
    forall g | first <= g < m && g in t.blocks ensures Compatible(origins(t.blocks[g]), origins(d(m).block)) {
      CompatibleBelow(origins, first, s, t, d, a, m, b, g);
    }
    if j == |CommitLog(d(m))| {
      assert CommitLog(d(m))[..j] == CommitLog(d(m));
      CommitWhole(origins, first, t, d, m);
    } else {
      if a == m && s.latest.Some? {
        forall g | first <= g <= s.latest.value && g != m && g in s.blocks
          ensures Compatible(origins(s.blocks[g]), origins(d(m).block))
        {
          FirstHeightCompatible(origins, first, s, d, a, b, g);
        }
      }
      MidCommitWhole(origins, first, t, d, m, j - 1);
    }
  }

  // ---- And only a harmless one ----------------------------------------------------------------

  /** The crash after the very first write shows the missing receipts. */
  lemma FirstCrash(origins: Origins, first: nat, s: Store, d: Chain, a: nat, b: nat)
    requires Canonical(d) && first <= a < b && s.latest.Some? && a <= s.latest.value
    requires !Has(s, origins(d(a).block))
    ensures 1 <= |RangeLog(d, a, b)| && !Whole(origins, first, Replay(s, RangeLog(d, a, b)[..1]))
  {
    RangeLogGrows(d, a, a, b);
    var log := RangeLog(d, a, b);
    assert RangeLog(d, a, a) + CommitLog(d(a)) == CommitLog(d(a));
    assert log[..1] == [SetBlock(d(a).block)];
    ReplayOne(s, SetBlock(d(a).block));
    var t := Apply(s, SetBlock(d(a).block));
    assert t.blocks[a] == d(a).block && t.receipts == s.receipts;
    assert !Has(t, origins(t.blocks[a]));
  }

  /** A receipt that replaces one of a block below stays for good. */
  lemma LastCrash(origins: Origins, first: nat, s: Store, d: Chain, a: nat, b: nat)
    requires Canonical(d) && Follows(origins, d) && first <= a < b && WholeBelow(origins, first, s, a)
    requires !LeavesBelow(origins, first, s, d, a, b)
    ensures !Whole(origins, first, Replay(s, RangeLog(d, a, b)))
  {
    var g, h :| first <= g < a && a <= h < b && g in s.blocks && !Compatible(origins(s.blocks[g]), origins(d(h).block));
    RangeReplaces(s, d, a, b);
    RangeKeepsReceipts(s, d, a, b, h);
    var t := Replay(s, RangeLog(d, a, b));
    assert g in t.blocks && t.blocks[g] == s.blocks[g] && t.latest.Some? && g <= t.latest.value;
    assert Elements(d(h).receipts) == origins(d(h).block);
    hide Replay, RangeLog, Canonical, Follows, Replaced;
    Overwritten(t, d, h, origins(s.blocks[g]));
  }

  lemma Overwritten(t: Store, d: Chain, h: nat, qs: set<Receipt>)
    requires ReceiptsStored(t, d, h) && !Compatible(qs, Elements(d(h).receipts))
    ensures !Has(t, qs)
  {
    var q, r :| q in qs && r in Elements(d(h).receipts) && q.txHash == r.txHash && q != r;
    assert t.receipts[q.txHash] == r;
  }

  /** A retry of the heights a .. b - 1 on a changed chain leaves every block up to the latest height with all its
      receipts, at every point where it may crash, if and only if it is harmless. */
  lemma RetryCrashesExactly(origins: Origins, first: nat, s: Store, d: Chain, a: nat, b: nat)
    requires Canonical(d) && Follows(origins, d) && Resumable(origins, first, s, a) && first <= a < b
    ensures (forall k :: 0 <= k <= |RangeLog(d, a, b)| ==> Whole(origins, first, Replay(s, RangeLog(d, a, b)[..k])))
      <==> Harmless(origins, first, s, d, a, b)
  {
    var log := RangeLog(d, a, b);
    if Harmless(origins, first, s, d, a, b) {
      forall k | 0 <= k <= |log| ensures Whole(origins, first, Replay(s, log[..k])) {
        HarmlessRetry(origins, first, s, d, a, b, b, k);
      }
    } else if !LeavesBelow(origins, first, s, d, a, b) {
      LastCrash(origins, first, s, d, a, b);
      assert log[..|log|] == log;
    } else {
      FirstCrash(origins, first, s, d, a, b);
    }
  }

  /** When the chain has not changed below the retried heights, only the first of them matters: it must be above the
      latest height, or bring no receipt that is not already stored. */
  lemma ShallowRetryExactly(origins: Origins, first: nat, s: Store, d: Chain, a: nat, b: nat)
    requires Canonical(d) && Follows(origins, d) && Resumable(origins, first, s, a) && first <= a < b
    requires forall g :: first <= g < a && g in s.blocks ==> s.blocks[g] == d(g).block
    ensures (forall k :: 0 <= k <= |RangeLog(d, a, b)| ==> Whole(origins, first, Replay(s, RangeLog(d, a, b)[..k])))
      <==> s.latest.None? || a > s.latest.value || ReceiptsStored(s, d, a)
  {
    RetryCrashesExactly(origins, first, s, d, a, b);
    forall g, h | first <= g < a && a <= h < b && g in s.blocks
      ensures Compatible(origins(s.blocks[g]), origins(d(h).block))
    {
      assert origins(s.blocks[g]) == Elements(d(g).receipts) && origins(d(h).block) == Elements(d(h).receipts);
    }
    assert origins(d(a).block) == Elements(d(a).receipts);
    assert Has(s, origins(d(a).block)) <==> ReceiptsStored(s, d, a);
  }
}
