/** Stored blocks whose receipts are missing. */
module ReceiptGaps {
  import opened Storage

  datatype ReceiptGap = ReceiptGap(height: nat, missing: seq<Hash>)

  /** Every block lists the transactions whose receipts the node serves with it. */
  ghost predicate Described(c: Chain) {
    forall h: nat, t :: t in c(h).block.txs <==> exists r :: r in c(h).receipts && r.txHash == t
  }

  /** The transactions without a stored receipt, in order. */
  function Missing(receipts: map<Hash, Receipt>, txs: seq<Hash>): seq<Hash> {
    if txs == [] then []
    else
      var front, t := Missing(receipts, txs[..|txs| - 1]), txs[|txs| - 1];
      if t in receipts then front else front + [t]
  }

  lemma {:induction false} MissingMembers(receipts: map<Hash, Receipt>, txs: seq<Hash>)
    ensures forall t :: t in Missing(receipts, txs) <==> t in txs && t !in receipts
  {
    if txs != [] {
      MissingMembers(receipts, txs[..|txs| - 1]);
      assert txs == txs[..|txs| - 1] + [txs[|txs| - 1]];
    }
  }

  lemma {:induction false} NoneLeft(receipts: map<Hash, Receipt>, txs: seq<Hash>)
    requires forall t :: t in txs ==> t in receipts
    ensures Missing(receipts, txs) == []
  {
    if txs != [] {
      NoneLeft(receipts, txs[..|txs| - 1]);
    }
  }

  /** Each gap is a stored block of the range with the transactions it lacks receipts for, in order of height. */
  ghost predicate GapsFound(s: Store, start: nat, end: nat, gaps: seq<ReceiptGap>) {
    && (forall i :: 0 <= i < |gaps| ==>
          && start <= gaps[i].height < end && gaps[i].height in s.blocks
          && gaps[i].missing != [] && gaps[i].missing == Missing(s.receipts, s.blocks[gaps[i].height].txs))
    && (forall i, j :: 0 <= i < j < |gaps| ==> gaps[i].height < gaps[j].height)
  }

  ghost predicate HasGap(gaps: seq<ReceiptGap>, h: nat) {
    exists i :: 0 <= i < |gaps| && gaps[i].height == h
  }

  /** And no block of the range that lacks a receipt is left out. */
  ghost predicate AllFound(s: Store, start: nat, end: nat, gaps: seq<ReceiptGap>) {
    forall h :: start <= h < end && h in s.blocks && Missing(s.receipts, s.blocks[h].txs) != [] ==> HasGap(gaps, h)
  }

  lemma NextFound(s: Store, start: nat, h: nat, gaps: seq<ReceiptGap>)
    requires GapsFound(s, start, h, gaps) && start <= h
    ensures GapsFound(s, start, h + 1, gaps)
    ensures AllFound(s, start, h, gaps) && (h in s.blocks ==> Missing(s.receipts, s.blocks[h].txs) == []) ==>
      AllFound(s, start, h + 1, gaps)
    ensures h in s.blocks && Missing(s.receipts, s.blocks[h].txs) != [] ==>
      var more := gaps + [ReceiptGap(h, Missing(s.receipts, s.blocks[h].txs))];
      GapsFound(s, start, h + 1, more) && (AllFound(s, start, h, gaps) ==> AllFound(s, start, h + 1, more))
  {
    hide Missing;
    if h in s.blocks && Missing(s.receipts, s.blocks[h].txs) != [] {
      var more := gaps + [ReceiptGap(h, Missing(s.receipts, s.blocks[h].txs))];
      assert more[|gaps|].height == h;
      forall g | HasGap(gaps, g) ensures HasGap(more, g) {
        var i :| 0 <= i < |gaps| && gaps[i].height == g;
        assert more[i].height == g;
      }
    }
  }

  /** What stored receipts of the missing transactions there are, the chain serves at the height of the gap. */
  ghost predicate Filled(s: Store, c: Chain, gap: ReceiptGap) {
    forall r :: r in c(gap.height).receipts && r.txHash in gap.missing ==>
      r.txHash in s.receipts && s.receipts[r.txHash] == r
  }

  /** Only receipts are added, and those already there stay, but for the ones the chain serves. */
  ghost predicate OnlyReceipts(c: Chain, s: Store, t: Store) {
    && t.blocks == s.blocks && t.latest == s.latest && s.receipts.Keys <= t.receipts.Keys
    && forall k :: k in t.receipts ==>
         (k in s.receipts && t.receipts[k] == s.receipts[k]) || exists h: nat :: t.receipts[k] in c(h).receipts
  }

  lemma StillFilled(s: Store, t: Store, c: Chain, gap: ReceiptGap)
    requires Canonical(c) && Filled(s, c, gap) && OnlyReceipts(c, s, t)
    requires forall k :: k in t.receipts ==> t.receipts[k].txHash == k
    ensures Filled(t, c, gap)
  {
    forall r | r in c(gap.height).receipts && r.txHash in gap.missing
      ensures r.txHash in t.receipts && t.receipts[r.txHash] == r
    {
      assert r.txHash in s.receipts.Keys;
    }
  }

  lemma OnlyReceiptsTwice(c: Chain, s: Store, t: Store, u: Store)
    requires OnlyReceipts(c, s, t) && OnlyReceipts(c, t, u)
    ensures OnlyReceipts(c, s, u)
  {
  }

  /** Once all gaps found are filled, no block of the range that is on the chain lacks a receipt. */
  lemma NoneMissing(s: Store, t: Store, c: Chain, start: nat, end: nat, gaps: seq<ReceiptGap>, h: nat)
    requires Described(c) && GapsFound(s, start, end, gaps) && AllFound(s, start, end, gaps) && OnlyReceipts(c, s, t)
    requires forall i :: 0 <= i < |gaps| ==> Filled(t, c, gaps[i])
    requires start <= h < end && h in t.blocks && t.blocks[h] == c(h).block
    ensures Missing(t.receipts, t.blocks[h].txs) == []
  {
    var txs := t.blocks[h].txs;
    MissingMembers(s.receipts, txs);
    MissingMembers(t.receipts, txs);
    forall x | x in txs ensures x in t.receipts {
      if x !in s.receipts {
        assert x in Missing(s.receipts, txs);
        assert HasGap(gaps, h);
        var i :| 0 <= i < |gaps| && gaps[i].height == h;
        var r :| r in c(h).receipts && r.txHash == x;
        assert Filled(t, c, gaps[i]);
      } else {
        assert x in s.receipts.Keys;
      }
    }
    NoneLeft(t.receipts, txs);
  }
}
