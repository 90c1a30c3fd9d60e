/** The durable state of the indexer, seen as the replay of the writes issued so far.

    Blocks, receipts and the latest height are the projection of the database that the
    fetch pipeline reads back.  Every fetch path issues, for each block, the same group of
    writes; a crash keeps a prefix of the writes issued before it. */
module Storage {
  datatype Option<+T> = None | Some(value: T)

  type Hash = nat
  datatype Receipt = Receipt(txHash: Hash, payload: nat)
  /** A block and the hashes of its transactions. */
  datatype Block = Block(number: nat, hash: Hash, txs: seq<Hash>)

  /** What the node answers for one height: a block and the receipts of its transactions. */
  datatype Fetched = Fetched(block: Block, receipts: seq<Receipt>)

  /** The content a node serves at each height. */
  type Chain = nat -> Fetched

  datatype Store = Store(blocks: map<nat, Block>, receipts: map<Hash, Receipt>, latest: Option<nat>)

  datatype Write = SetBlock(block: Block) | SetReceipt(receipt: Receipt) | SetLatest(height: nat)

  const EMPTY := Store(map[], map[], None)

  /** A block is stored under its own number, and a transaction hash names one receipt. */
  ghost predicate Canonical(chain: Chain) {
    && Numbered(chain)
    && (forall g: nat, h: nat, q, r ::
          q in chain(g).receipts && r in chain(h).receipts && q.txHash == r.txHash ==> q == r)
  }

  ghost predicate Numbered(chain: Chain) {
    forall h: nat :: chain(h).block.number == h
  }

  function Apply(s: Store, w: Write): Store {
    match w
    case SetBlock(b) => s.(blocks := s.blocks[b.number := b])
    case SetReceipt(r) => s.(receipts := s.receipts[r.txHash := r])
    case SetLatest(h) => s.(latest := Some(h))
  }

  function Replay(s: Store, log: seq<Write>): Store {
    if log == [] then s
    else Apply(Replay(s, log[..|log| - 1]), log[|log| - 1])
  }

  function ReceiptWrites(rs: seq<Receipt>): (ws: seq<Write>)
    ensures |ws| == |rs|
    ensures forall i :: 0 <= i < |rs| ==> ws[i] == SetReceipt(rs[i])
  {
    seq(|rs|, i requires 0 <= i < |rs| => SetReceipt(rs[i]))
  }

  /** The writes that index one block, in the order they are issued. */
  function CommitLog(f: Fetched): (ws: seq<Write>)
    ensures |ws| == |f.receipts| + 2
  {
    [SetBlock(f.block)] + ReceiptWrites(f.receipts) + [SetLatest(f.block.number)]
  }

  /** The writes that index heights start, ..., end - 1 one after the other. */
  function RangeLog(chain: Chain, start: nat, end: nat): seq<Write>
    decreases end
  {
    if end <= start then []
    else RangeLog(chain, start, end - 1) + CommitLog(chain(end - 1))
  }

  lemma {:induction false} ReplayConcat(s: Store, a: seq<Write>, b: seq<Write>)
    ensures Replay(s, a + b) == Replay(Replay(s, a), b)
  {
    if b == [] {
      assert a + b == a;
    } else {
      var c := a + b;
      assert c[..|c| - 1] == a + b[..|b| - 1];
      ReplayConcat(s, a, b[..|b| - 1]);
    }
  }

  lemma {:induction false} RangeLogSplit(chain: Chain, start: nat, mid: nat, end: nat)
    requires start <= mid <= end
    ensures RangeLog(chain, start, end) == RangeLog(chain, start, mid) + RangeLog(chain, mid, end)
    decreases end
  {
    if mid < end {
      RangeLogSplit(chain, start, mid, end - 1);
    }
  }

  /** The log of a longer range extends the log of a shorter one. */
  lemma RangeLogGrows(chain: Chain, start: nat, mid: nat, end: nat)
    requires start <= mid < end
    ensures RangeLog(chain, start, mid) + CommitLog(chain(mid)) <= RangeLog(chain, start, end)
  {
    RangeLogSplit(chain, start, mid + 1, end);
  }

  // ---- what a replayed range leaves behind ----

  /** The entries that storing rs adds to the receipt table. */
  ghost predicate ReceiptsAdded(before: map<Hash, Receipt>, rs: set<Receipt>, after: map<Hash, Receipt>) {
    && (forall k :: k in after <==> k in before || exists r :: r in rs && r.txHash == k)
    && (forall r :: r in rs ==> r.txHash in after && after[r.txHash] == r)
    && (forall k :: k in before && (forall r :: r in rs ==> r.txHash != k) ==> k in after && after[k] == before[k])
  }

  ghost predicate Functional(rs: set<Receipt>) {
    forall q, r :: q in rs && r in rs && q.txHash == r.txHash ==> q == r
  }

  ghost function Elements<T(!new)>(s: seq<T>): set<T> {
    set x | x in s
  }

  lemma {:induction false} ReplayReceipts(s: Store, rs: seq<Receipt>)
    requires Functional(Elements(rs))
    ensures var t := Replay(s, ReceiptWrites(rs));
            && t.blocks == s.blocks && t.latest == s.latest
            && ReceiptsAdded(s.receipts, Elements(rs), t.receipts)
  {
    if rs != [] {
      var n := |rs| - 1;
      assert ReceiptWrites(rs)[..n] == ReceiptWrites(rs[..n]);
      assert Elements(rs) == Elements(rs[..n]) + {rs[n]};
      ReplayReceipts(s, rs[..n]);
    }
  }

  lemma ReceiptsAddedUnique(before: map<Hash, Receipt>, rs: set<Receipt>, a: map<Hash, Receipt>, b: map<Hash, Receipt>)
    requires ReceiptsAdded(before, rs, a) && ReceiptsAdded(before, rs, b)
    ensures a == b
  {
    forall k ensures k in a <==> k in b {
      assert k in a <==> (k in before || exists r :: r in rs && r.txHash == k);
    }
    forall k | k in a ensures a[k] == b[k] {
      if r :| r in rs && r.txHash == k {
      } else {
        assert k in before;
      }
    }
  }

  /** Receipts of one block may be stored in any order. */
  lemma ReceiptOrderIsIrrelevant(s: Store, rs: seq<Receipt>, qs: seq<Receipt>)
    requires Elements(rs) == Elements(qs) && Functional(Elements(rs))
    ensures Replay(s, ReceiptWrites(rs)) == Replay(s, ReceiptWrites(qs))
  {
    ReplayReceipts(s, rs);
    ReplayReceipts(s, qs);
    ReceiptsAddedUnique(s.receipts, Elements(rs),
                        Replay(s, ReceiptWrites(rs)).receipts, Replay(s, ReceiptWrites(qs)).receipts);
  }

  /** Two chains that serve the same blocks and the same receipts, up to the order of a block's receipts. */
  ghost predicate Reordering(c: Chain, d: Chain) {
    forall h: nat :: d(h).block == c(h).block && multiset(d(h).receipts) == multiset(c(h).receipts)
  }

  lemma CommitEffect(s: Store, f: Fetched)
    requires Functional(Elements(f.receipts))
    ensures var t := Replay(s, CommitLog(f));
            && t.blocks == s.blocks[f.block.number := f.block]
            && t.latest == Some(f.block.number)
            && ReceiptsAdded(s.receipts, Elements(f.receipts), t.receipts)
  {
    var b, r, l := [SetBlock(f.block)], ReceiptWrites(f.receipts), [SetLatest(f.block.number)];
    ReplayConcat(s, b + r, l);
    ReplayConcat(s, b, r);
    assert Replay(s, b) == s.(blocks := s.blocks[f.block.number := f.block]) by {
      assert b[..0] == [];
    }
    ReplayReceipts(Replay(s, b), f.receipts);
    var u := Replay(Replay(s, b), r);
    assert Replay(u, l) == u.(latest := Some(f.block.number)) by {
      assert l[..0] == [];
    }
  }

  lemma SameCommit(s: Store, f: Fetched, g: Fetched)
    requires f.block == g.block && multiset(f.receipts) == multiset(g.receipts)
    requires Functional(Elements(f.receipts))
    ensures Replay(s, CommitLog(f)) == Replay(s, CommitLog(g))
  {
    assert Elements(f.receipts) == Elements(g.receipts) by {
      forall r ensures r in f.receipts <==> r in g.receipts {
        assert r in multiset(f.receipts) <==> r in multiset(g.receipts);
      }
    }
    CommitEffect(s, f);
    CommitEffect(s, g);
    ReceiptsAddedUnique(s.receipts, Elements(f.receipts),
                        Replay(s, CommitLog(f)).receipts, Replay(s, CommitLog(g)).receipts);
  }

  lemma BlockReceiptsFunctional(c: Chain, h: nat)
    requires Canonical(c)
    ensures Functional(Elements(c(h).receipts))
  {
  }

  lemma ReplayNothing(s: Store)
    ensures Replay(s, []) == s
  {
  }

  /** Replaying a range is replaying all but its last height, then committing that height. */
  lemma ReplayRangeStep(s: Store, c: Chain, start: nat, end: nat)
    requires start < end
    ensures Replay(s, RangeLog(c, start, end)) == Replay(Replay(s, RangeLog(c, start, end - 1)), CommitLog(c(end - 1)))
  {
    ReplayConcat(s, RangeLog(c, start, end - 1), CommitLog(c(end - 1)));
  }

  /** The order in which the receipts of each block are stored does not show in the final state. */
  lemma {:induction false} RangeOrderIsIrrelevant(s: Store, c: Chain, d: Chain, start: nat, end: nat)
    requires Canonical(c) && Reordering(c, d)
    ensures Replay(s, RangeLog(c, start, end)) == Replay(s, RangeLog(d, start, end))
    decreases end
  {
    hide Replay, CommitLog;
    if start < end {
      var h := end - 1;
      RangeOrderIsIrrelevant(s, c, d, start, h);
      ReplayRangeStep(s, c, start, end);
      ReplayRangeStep(s, d, start, end);
      BlockReceiptsFunctional(c, h);
      SameCommit(Replay(s, RangeLog(c, start, h)), c(h), d(h));
    }
  }

  /** A fully replayed range stores exactly the heights in it besides those already there, and
      moves the latest height to the end of the range. */
  lemma {:induction false} RangeEffect(s: Store, c: Chain, start: nat, end: nat)
    requires Canonical(c)
    ensures var t := Replay(s, RangeLog(c, start, end));
            && (forall h: nat :: h in t.blocks <==> h in s.blocks || start <= h < end)
            && (forall h: nat | h in t.blocks :: t.blocks[h] == if start <= h < end then c(h).block else s.blocks[h])
            && t.latest == (if start < end then Some(end - 1) else s.latest)
    decreases end
  {
    hide Replay, CommitLog;
    if end <= start {
      ReplayNothing(s);
    } else {
      var m := end - 1;
      RangeEffect(s, c, start, m);
      ReplayRangeStep(s, c, start, end);
      BlockReceiptsFunctional(c, m);
      CommitEffect(Replay(s, RangeLog(c, start, m)), c(m));
    }
  }

  /** The receipts served at height h are stored as served. */
  ghost predicate ReceiptsStored(s: Store, c: Chain, h: nat) {
    forall r :: r in c(h).receipts ==> r.txHash in s.receipts && s.receipts[r.txHash] == r
  }

  /** Committing one height stores its receipts and loses none of another height. */
  lemma CommitKeepsReceipts(s: Store, c: Chain, h: nat, g: nat)
    requires Canonical(c) && (g == h || ReceiptsStored(s, c, g))
    ensures ReceiptsStored(Replay(s, CommitLog(c(h))), c, g)
  {
    BlockReceiptsFunctional(c, h);
    CommitEffect(s, c(h));
    var t := Replay(s, CommitLog(c(h)));
    forall r | r in c(g).receipts ensures r.txHash in t.receipts && t.receipts[r.txHash] == r {
      if q :| q in Elements(c(h).receipts) && q.txHash == r.txHash {
        assert q in c(h).receipts;
      } else if g == h {
        assert r in Elements(c(h).receipts);
      }
    }
  }

  lemma {:induction false} RangeKeepsReceipts(s: Store, c: Chain, start: nat, end: nat, g: nat)
    requires Canonical(c) && (start <= g < end || ReceiptsStored(s, c, g))
    ensures ReceiptsStored(Replay(s, RangeLog(c, start, end)), c, g)
    decreases end
  {
    hide Replay, CommitLog;
    if end <= start {
      ReplayNothing(s);
    } else {
      var m := end - 1;
      if g != m {
        RangeKeepsReceipts(s, c, start, m, g);
      }
      ReplayRangeStep(s, c, start, end);
      CommitKeepsReceipts(Replay(s, RangeLog(c, start, m)), c, m, g);
    }
  }
}
