/** The fetcher: retries, one block, a range (sequential and concurrent), the indexing loop, and gap recovery. */
module Fetcher {
  import opened Storage
  import opened Durability
  import opened Gaps
  import opened ReceiptGaps
  import Pipeline
  import LargeBlock

  /** Loops of the form height <= end over uint64 need end below this. */
  const MAX_HEIGHT: nat := 0xFFFF_FFFF_FFFF_FFFF

  const DEFAULT_NUM_WORKERS: nat := 100

  // ---- retries ----

  /** What the node answers to one attempt. */
  datatype Reply = Reply(block: Option<Block>, receipts: Option<seq<Receipt>>) {
    predicate Complete() {
      block.Some? && receipts.Some?
    }
  }

  /** The first attempt that yields both the block and its receipts decides; the pair never mixes attempts. */
  method FetchWithRetry(replies: seq<Reply>) returns (f: Option<Fetched>, attempts: nat)
    requires replies != []   // one per attempt: MaxRetries + 1 of them
    ensures 1 <= attempts <= |replies|
    ensures forall i :: 0 <= i < attempts - 1 ==> !replies[i].Complete()
    ensures f.Some? ==> var r := replies[attempts - 1]; r.Complete() && f.value == Fetched(r.block.value, r.receipts.value)
    ensures f.None? ==> attempts == |replies| && !replies[attempts - 1].Complete()
  {
    f, attempts := None, 0;
    var attempt := 0;
    var block, receipts := None, None;
    while attempt < |replies|
      invariant 0 <= attempt < |replies|
      invariant forall i :: 0 <= i < attempt ==> !replies[i].Complete()
    {
      block := replies[attempt].block;
      if block.None? {
        if attempt == |replies| - 1 {
          return None, attempt + 1;
        }
        attempt := attempt + 1;
        continue;
      }
      receipts := replies[attempt].receipts;
      if receipts.None? {
        if attempt == |replies| - 1 {
          return None, attempt + 1;
        }
        attempt := attempt + 1;
        continue;
      }
      return Some(Fetched(block.value, receipts.value)), attempt + 1;
    }
    assert false;
  }

  // ---- the fetcher ----

  /** Every state a crash could leave is sound. */
  ghost predicate AllSound(c: Chain, first: nat, log: seq<Write>) {
    forall k :: 0 <= k <= |log| ==> LeavesSound(c, first, log[..k])
  }

  /** Every block written from position k of the log on has a height the gaps cover. */
  ghost predicate OnlyFills(log: seq<Write>, k: nat, gaps: seq<GapRange>) {
    forall i :: k <= i < |log| && log[i].SetBlock? ==> InGaps(gaps, log[i].block.number)
  }

  /** A sequence that starts with stored and has the elements of all. */
  lemma {:induction false} Complete(stored: seq<Receipt>, all: seq<Receipt>) returns (whole: seq<Receipt>)
    requires multiset(stored) <= multiset(all)
    ensures stored <= whole && multiset(whole) == multiset(all)
    ensures multiset(stored) == multiset(all) ==> whole == stored
    decreases |all| - |stored|
  {
    if multiset(stored) == multiset(all) {
      whole := stored;
    } else {
      var missing := multiset(all) - multiset(stored);
      assert multiset(all) == multiset(stored) + missing;
      assert |multiset(all)| == |all| && |multiset(stored)| == |stored|;
      var r :| r in missing;
      whole := Complete(stored + [r], all);
    }
  }

  /** The blocks of a range log are those of its heights. */
  lemma {:induction false} RangeLogHeights(d: Chain, a: nat, b: nat, i: nat)
    requires Numbered(d) && i < |RangeLog(d, a, b)| && RangeLog(d, a, b)[i].SetBlock?
    ensures a <= RangeLog(d, a, b)[i].block.number < b
    decreases b
  {
    if a < b {
      var shorter := RangeLog(d, a, b - 1);
      if i < |shorter| {
        RangeLogHeights(d, a, b - 1, i);
      } else {
        assert RangeLog(d, a, b)[i] == CommitLog(d(b - 1))[i - |shorter|];
      }
    }
  }

  /** A write that belongs to a height. */
  ghost predicate OfHeight(c: Chain, w: Write, h: nat) {
    match w
    case SetBlock(b) => b.number == h
    case SetReceipt(r) => r in c(h).receipts
    case SetLatest(n) => n == h
  }

  ghost predicate OfHeightFrom(c: Chain, w: Write, first: nat) {
    exists h: nat :: h >= first && OfHeight(c, w, h)
  }

  /** From position k of the log on, every write belongs to a height not below first. */
  ghost predicate OnlyFrom(c: Chain, log: seq<Write>, k: nat, first: nat) {
    forall i :: k <= i < |log| ==> OfHeightFrom(c, log[i], first)
  }

  lemma {:induction false} RangeLogFrom(c: Chain, d: Chain, a: nat, b: nat, i: nat)
    requires Numbered(d) && Reordering(c, d) && i < |RangeLog(d, a, b)|
    ensures OfHeightFrom(c, RangeLog(d, a, b)[i], a)
    decreases b
  {
    if a < b {
      var shorter, h := RangeLog(d, a, b - 1), b - 1;
      if i < |shorter| {
        RangeLogFrom(c, d, a, b - 1, i);
      } else {
        var w := CommitLog(d(h))[i - |shorter|];
        assert RangeLog(d, a, b)[i] == w;
        assert w.SetReceipt? ==> w.receipt in d(h).receipts && w.receipt in multiset(d(h).receipts);
        assert OfHeight(c, w, h);
      }
    }
  }

  lemma StillFrom(c: Chain, log: seq<Write>, k: nat, first: nat, start: nat, end: nat, d: Chain, part: seq<Write>)
    requires Canonical(c) && Reordering(c, d) && first <= start && k <= |log|
    requires OnlyFrom(c, log, k, first) && part <= RangeLog(d, start, end + 1)
    ensures OnlyFrom(c, log + part, k, first)
  {
    var more := log + part;
    forall i | k <= i < |more| ensures OfHeightFrom(c, more[i], first) {
      if i >= |log| {
        RangeLogFrom(c, d, start, end + 1, i - |log|);
        assert more[i] == RangeLog(d, start, end + 1)[i - |log|];
        var h: nat :| h >= start && OfHeight(c, more[i], h);
      }
    }
  }

  class Fetcher {
    const chain: Chain       // what the node serves
    const startHeight: nat
    const batchSize: nat
    const maxRetries: nat
    const numWorkers: nat    // 0 stands for the default
    var store: Store
    ghost var log: seq<Write>   // every write since the store was empty
    var cancelled: bool         // the context is done
    ghost var faults: nat       // lookups, fetches, writes and worker runs that have failed

    ghost predicate Valid()
      reads this
    {
      && store == Replay(EMPTY, log)
      && Canonical(chain) && batchSize > 0
    }

    constructor (chain: Chain, startHeight: nat, batchSize: nat, maxRetries: nat, numWorkers: nat)
      requires Canonical(chain) && batchSize > 0
      ensures Valid() && log == [] && AllSound(this.chain, this.startHeight, log)
    {
      this.chain, this.startHeight, this.batchSize := chain, startHeight, batchSize;
      this.maxRetries, this.numWorkers := maxRetries, numWorkers;
      store, log, cancelled, faults := EMPTY, [], false, 0;
      new;
      StartSafe(chain, startHeight);
    }

    /** One storage write, which may fail and then changes nothing. */
    method Put(w: Write) returns (ok: bool)
      requires Valid()
      modifies this`store, this`log, this`faults
      ensures Valid() && log == if ok then old(log) + [w] else old(log)
      ensures faults == if ok then old(faults) else old(faults) + 1
    {
      if * {
        faults := faults + 1;
        return false;
      }
      Issue(w);
      return true;
    }

    /** The context may be cancelled at any time, and stays so. */
    method PollContext() returns (done: bool)
      modifies this`cancelled
      ensures done == cancelled && (old(cancelled) ==> cancelled)
    {
      if * {
        cancelled := true;
      }
      done := cancelled;
    }

    /** The node's answers to the attempts of one fetch: what the chain holds, or failures. */
    method Ask(height: nat) returns (replies: seq<Reply>)
      modifies this`faults
      ensures |replies| == maxRetries + 1
      ensures forall i :: 0 <= i < |replies| && replies[i].Complete() ==>
                Fetched(replies[i].block.value, replies[i].receipts.value) == chain(height)
      ensures faults == if exists i :: 0 <= i < |replies| && replies[i].Complete() then old(faults) else old(faults) + 1
    {
      replies := [];
      while |replies| < maxRetries + 1
        invariant |replies| <= maxRetries + 1
        invariant forall i :: 0 <= i < |replies| && replies[i].Complete() ==>
                    Fetched(replies[i].block.value, replies[i].receipts.value) == chain(height)
      {
        var reply := Reply(None, None);
        if * {
          reply := reply.(block := Some(chain(height).block));
        }
        if * {
          reply := reply.(receipts := Some(chain(height).receipts));
        }
        replies := replies + [reply];
      }
      if forall i :: 0 <= i < |replies| ==> !replies[i].Complete() {
        faults := faults + 1;
      }
    }

    /** FetchBlock writes the block, its receipts, then the latest height, and stops at the first failure. */
    method FetchBlock(height: nat) returns (ok: bool, ghost served: Fetched, ghost part: seq<Write>)
      requires Valid()
      modifies this`store, this`log, this`faults
      ensures Valid() && log == old(log) + part && part <= CommitLog(served)
      ensures served.block == chain(height).block && multiset(served.receipts) == multiset(chain(height).receipts)
      ensures ok <==> part == CommitLog(served)
      ensures old(faults) <= faults && (ok <==> faults == old(faults))
    {
      hide CommitLog, Replay, ReceiptWrites, Canonical;
      served, part := chain(height), [];
      NumberedAt(chain, height);
      var replies := Ask(height);
      var f, attempts := FetchWithRetry(replies);
      if f.None? {
        return false, served, part;
      }
      ok := Put(SetBlock(f.value.block));
      if !ok {
        return false, served, part;
      }
      ghost var stored;
      ok, stored := StoreReceipts(f.value.receipts);
      ghost var whole := Complete(stored, f.value.receipts);
      served := Fetched(f.value.block, whole);
      part := [SetBlock(f.value.block)] + ReceiptWrites(stored);
      assert log == old(log) + part;
      ReceiptsPrefix(served, stored);
      if !ok {
        return false, served, part;
      }
      ok := Put(SetLatest(height));
      if ok {
        part := part + [SetLatest(height)];
      }
    }

    /** Receipts of a large block go through the parallel pool, others are stored in order. */
    method StoreReceipts(receipts: seq<Receipt>) returns (ok: bool, ghost stored: seq<Receipt>)
      requires Valid()
      modifies this`store, this`log, this`faults
      ensures Valid() && log == old(log) + ReceiptWrites(stored)
      ensures multiset(stored) <= multiset(receipts)
      ensures ok ==> multiset(stored) == multiset(receipts)
      ensures old(faults) <= faults && (ok <==> faults == old(faults))
    {
      hide Replay, Canonical, ReceiptWrites;
      var order := receipts;
      ok := true;
      if * {
        ghost var acts;
        ok, order, acts := LargeBlock.ProcessReceiptsParallel(receipts, 100, 10);
        if !LargeBlock.Faultless(acts) {
          faults := faults + 1;
        }
      }
      stored := [];
      NoReceiptWrites();
      var i := 0;
      while i < |order|
        invariant 0 <= i <= |order| && Valid()
        invariant old(faults) <= faults && (ok <==> faults == old(faults))
        invariant stored == order[..i] && log == old(log) + ReceiptWrites(stored)
      {
        assert order[..i + 1] == order[..i] + [order[i]];
        var done := Put(SetReceipt(order[i]));
        if !done {
          PrefixMultiset(order, i);
          return false, stored;
        }
        AppendReceipt(stored, order[i]);
        stored := stored + [order[i]];
        i := i + 1;
      }
      assert order[..i] == order;
    }

    /** FetchRange: every height of start .. end in turn, until one fails or the context is done. */
    method FetchRange(start: nat, end: nat) returns (ok: bool, ghost served: Chain, ghost part: seq<Write>)
      requires Valid() && end < MAX_HEIGHT
      modifies this
      ensures Valid() && log == old(log) + part && part <= RangeLog(served, start, end + 1)
      ensures Reordering(chain, served)
      ensures ok <==> part == RangeLog(served, start, end + 1)
      ensures ok ==> store == Replay(old(store), RangeLog(chain, start, end + 1))
      ensures old(faults) <= faults && (old(cancelled) ==> cancelled)
      ensures faults == old(faults) && !cancelled ==> ok
    {
      hide CommitLog, RangeLog, Replay, Canonical, Reordering;
      served, part := chain, [];
      RangeLogStart(chain, start, end);
      var height := start;
      while height <= end
        invariant start <= height && (height <= end + 1 || height == start)
        invariant Valid() && Reordering(chain, served)
        invariant part == RangeLog(served, start, height) && log == old(log) + part
        invariant faults == old(faults) && (old(cancelled) ==> cancelled)
      {
        RangeNotDone(served, start, height, end);
        var done := PollContext();
        if done {
          return false, served, part;
        }
        ghost var f, more;
        ok, f, more := FetchBlock(height);
        served, part := ExtendServed(chain, served, start, height, end, f, part, more);
        if !ok {
          return false, served, part;
        }
        height := height + 1;
      }
      RangeLogStart(served, start, end);
      ReplayConcat(EMPTY, old(log), part);
      RangeOrderIsIrrelevant(old(store), chain, served, start, end + 1);
      ok := true;
    }

    function Workers(): (n: nat)
      ensures n > 0
    {
      if numWorkers == 0 then DEFAULT_NUM_WORKERS else numWorkers
    }

    /** FetchRangeConcurrent under any schedule: it runs the pipeline of sender, workers and collector, and
        applies each write the collector issues.  acts is the schedule, empty when the call found the context
        already done; the call fails exactly when an action of it failed. */
    method FetchRangeConcurrent(start: nat, end: nat) 
      returns (ok: bool, ghost part: seq<Write>, ghost acts: seq<Pipeline.Action>)
      requires Valid() && end < MAX_HEIGHT
      modifies this
      ensures Valid() && log == old(log) + part && part <= RangeLog(chain, start, end + 1)
      ensures ok && !cancelled ==> part == RangeLog(chain, start, end + 1)
      ensures ok && !cancelled ==> store == Replay(old(store), RangeLog(chain, start, end + 1))
      ensures ok ==> exists sent :: start <= sent && part == RangeLog(chain, start, sent)
      ensures old(faults) <= faults && (old(cancelled) ==> cancelled)
      ensures faults == old(faults) && !cancelled ==> ok
      ensures if acts == [] then !ok && cancelled && part == [] else
        var call := Pipeline.Call(chain, start, end);
        && Pipeline.Reachable(call, Workers(), acts)
        && Pipeline.After(call, Workers(), acts).outcome == Pipeline.Returned(ok)
        && Pipeline.After(call, Workers(), acts).log == part
        && (ok <==> Pipeline.Faultless(acts))
    {
      hide CommitLog, Canonical, RangeLog, Replay;
      hide Pipeline.Inv, Pipeline.Measure, Pipeline.Step, Pipeline.Enabled, Pipeline.Init, Pipeline.Faultless;
      part, acts := [], [];
      var done := PollContext();
      if done {
        return false, part, acts;
      }
      var workers := Workers();
      var call := Pipeline.Call(chain, start, end);
      var pipe := Pipeline.Init(call, workers);
      Pipeline.InitInv(call, workers);
      while pipe.outcome.Running?
        invariant Pipeline.Inv(call, pipe) && Valid()
        invariant log == old(log) + pipe.log
        invariant !old(cancelled) && faults == old(faults)
        invariant Pipeline.Reachable(call, workers, acts) && pipe == Pipeline.After(call, workers, acts)
        invariant acts == [] ==> pipe.outcome.Running?
        decreases Pipeline.Measure(call, pipe)
      {
        Pipeline.SomeStepEnabled(call, pipe);
        Pipeline.MeasureNonNegative(call, pipe);
        var action := Pipeline.ChooseAction(call, pipe);
        Pipeline.StepInv(call, pipe, action);
        Pipeline.MeasureFalls(call, pipe, action);
        Pipeline.LogGrowth(call, pipe, action);
        Pipeline.RunSnoc(call, Pipeline.Init(call, workers), acts, action);
        pipe, acts := Pipeline.Step(call, pipe, action), acts + [action];
        if action.WriteOne? {
          Issue(pipe.log[|pipe.log| - 1]);
        }
      }
      cancelled := pipe.cancelled;
      Pipeline.ReturnedState(call, pipe);
      ReplayConcat(EMPTY, old(log), pipe.log);
      Pipeline.ErrorExactly(call, workers, acts);
      if !Pipeline.Faultless(acts) {
        faults := faults + 1;
      }
      return pipe.outcome.ok, pipe.log, acts;
    }

    /** DetectGaps scans start .. end; a failed lookup or a cancellation makes it fail. */
    method DetectGaps(start: nat, end: nat) returns (gaps: seq<GapRange>, ok: bool)
      requires end < MAX_HEIGHT
      modifies this`cancelled, this`faults
      ensures ok ==> ExactGaps(store.blocks, start, if start <= end then end + 1 else start, gaps)
      ensures old(faults) <= faults && (old(cancelled) ==> cancelled)
      ensures faults == old(faults) && !cancelled ==> ok
    {
      gaps := [];
      var gapStart, inGap := 0, false;
      var height := start;
      while height <= end
        invariant start <= height && (height <= end + 1 || height == start)
        invariant inGap ==> start <= gapStart < height && (gapStart == start || gapStart - 1 in store.blocks)
        invariant inGap ==> forall h :: gapStart <= h < height ==> h !in store.blocks
        invariant !inGap ==> height == start || height - 1 in store.blocks
        invariant ExactGaps(store.blocks, start, if inGap then gapStart else height, gaps)
        invariant faults == old(faults) && (old(cancelled) ==> cancelled)
      {
        hide ExactGaps;
        var done := PollContext();
        if done {
          return gaps, false;
        }
        if * {
          faults := faults + 1;
          return [], false;
        }
        var exists_ := height in store.blocks;
        if !exists_ {
          if !inGap {
            gapStart, inGap := height, true;
          }
        } else {
          if inGap {
            CloseGap(store.blocks, start, gaps, gapStart, height);
            gaps := gaps + [GapRange(gapStart, height - 1)];
            inGap := false;
          }
          SkipStored(store.blocks, start, height, gaps);
        }
        height := height + 1;
      }
      if inGap {
        CloseGap(store.blocks, start, gaps, gapStart, end + 1);
        gaps := gaps + [GapRange(gapStart, end)];
      }
      ok := true;
    }

    /** FillGap takes the concurrent path for more than ten blocks. */
    method FillGap(gap: GapRange) returns (ok: bool)
      requires Valid() && gap.start <= gap.end < MAX_HEIGHT
      modifies this
      ensures Valid() && old(log) <= log && OnlyFills(log, |old(log)|, [gap])
      ensures ok && !cancelled ==> store == Replay(old(store), RangeLog(chain, gap.start, gap.end + 1))
      ensures old(faults) <= faults && (old(cancelled) ==> cancelled)
      ensures faults == old(faults) && !cancelled ==> ok
    {
      hide Replay, RangeLog, Canonical, OnlyFills;
      ghost var part, served, acts := [], chain, [];
      if gap.Size() > 10 {
        ok, part, acts := FetchRangeConcurrent(gap.start, gap.end);
      } else {
        ok, served, part := FetchRange(gap.start, gap.end);
      }
      PartFills(chain, served, gap, old(log), part);
    }

    /** FillGaps fills the gaps one after the other and stops at the first failure. */
    method FillGaps(gaps: seq<GapRange>) returns (ok: bool)
      requires Valid() && forall i :: 0 <= i < |gaps| ==> gaps[i].start <= gaps[i].end < MAX_HEIGHT
      modifies this
      ensures Valid() && old(log) <= log && OnlyFills(log, |old(log)|, gaps)
      ensures old(store).blocks.Keys <= store.blocks.Keys
      ensures ok && !cancelled ==> forall h :: InGaps(gaps, h) ==> h in store.blocks && ReceiptsStored(store, chain, h)
      ensures gaps == [] ==> log == old(log)
      ensures old(faults) <= faults && (old(cancelled) ==> cancelled)
      ensures faults == old(faults) && !cancelled ==> ok
    {
      hide Replay, RangeLog, Canonical;
      var i := 0;
      while i < |gaps|
        invariant 0 <= i <= |gaps| && Valid()
        invariant old(log) <= log && OnlyFills(log, |old(log)|, gaps)
        invariant i == 0 ==> log == old(log)
        invariant !cancelled ==> forall h :: InGaps(gaps[..i], h) ==> h in store.blocks && ReceiptsStored(store, chain, h)
        invariant old(store).blocks.Keys <= store.blocks.Keys
        invariant old(faults) <= faults && (old(cancelled) ==> cancelled)
      {
        ghost var before, from := store, log;
        ok := FillGap(gaps[i]);
        FillsMore(from, log, |old(log)|, gaps, i);
        LogKeepsBlocks(from, log);
        if !ok {
          return false;
        }
        if !cancelled {
          forall h | InGaps(gaps[..i + 1], h) ensures h in store.blocks && ReceiptsStored(store, chain, h) {
            GapFilled(before, chain, gaps, i, h);
          }
        }
        i := i + 1;
      }
      assert gaps[..i] == gaps;
      ok := true;
    }

    /** GetNextHeight; the read of the latest height may fail. */
    method GetNextHeight(readFails: bool) returns (next: nat)
      ensures !readFails && store.latest.Some? && startHeight <= store.latest.value ==> next == store.latest.value + 1
      ensures readFails || store.latest.None? || startHeight > store.latest.value ==> next == startHeight
      ensures next == NextHeight(startHeight, store, readFails)
    {
      if readFails || store.latest.None? {
        return startHeight;
      }
      if startHeight > store.latest.value {
        return startHeight;
      }
      next := store.latest.value + 1;
    }

    /** Run polls the node, heads being what it answers, and fetches batches until the context is done; a failed batch
        is retried from the same height.  No write concerns a height below the first.  quiet, which
        holds unless something failed or was cancelled, says that everything from the first height to the last one
        reached is stored, and that each poll made progress towards what the node offered. */
    method Run(heads: seq<Option<nat>>, readFails: bool) returns (first: nat, next: nat, quiet: bool)
      requires Valid() && forall i :: 0 <= i < |heads| && heads[i].Some? ==> heads[i].value + batchSize < MAX_HEIGHT
      modifies this
      ensures Valid() && old(log) <= log && old(store).blocks.Keys <= store.blocks.Keys
      ensures AllSound(chain, startHeight, old(log)) ==> AllSound(chain, startHeight, log)
      ensures !readFails && old(store).latest.Some? && startHeight <= old(store).latest.value ==>
        first == old(store).latest.value + 1
      ensures readFails || old(store).latest.None? || startHeight > old(store).latest.value ==> first == startHeight
      ensures OnlyFrom(chain, log, |old(log)|, first)
      ensures old(faults) <= faults && (old(cancelled) ==> cancelled)
      ensures faults == old(faults) && !cancelled ==> quiet
      ensures quiet ==> Indexed(store, chain, first, next)
      ensures quiet ==> forall target: nat :: Offers(heads, target) ==> next > target || next >= first + |heads| * batchSize
    {
      hide Replay, RangeLog, Canonical, NextHeight, Indexed, Offers;
      next := GetNextHeight(readFails);
      first, quiet := next, true;
      if AllSound(chain, startHeight, log) {
        RestartSound(chain, startHeight, log, readFails);
      }
      NothingIndexed(store, chain, first);
      NotAdvanced(heads, first, batchSize);
      for poll := 0 to |heads|
        invariant Valid() && old(log) <= log && old(store).blocks.Keys <= store.blocks.Keys
        invariant AllSound(chain, startHeight, old(log)) ==> SoundSafe(chain, startHeight, State(log, next))
        invariant OnlyFrom(chain, log, |old(log)|, first)
        invariant old(faults) <= faults && (old(cancelled) ==> cancelled)
        invariant faults == old(faults) && !cancelled ==> quiet
        invariant first <= next && (quiet ==> Indexed(store, chain, first, next))
        invariant quiet ==> Advanced(heads, poll, first, next, batchSize)
      {
        hide SoundSafe, AllSound, Advanced, OnlyFrom;
        var done := PollContext();
        if done {
          quiet := false;
          break;
        }
        var head := heads[poll];
        if head.None? || next > head.value {
          if quiet {
            Advances(heads, poll, first, next, next, batchSize);
          }
          continue;
        }
        var batchEnd := next + batchSize - 1;
        if batchEnd > head.value {
          batchEnd := head.value;
        }
        ghost var from, before := log, store;
        var ok, served, part := FetchRange(next, batchEnd);
        LogKeepsBlocks(from, log);
        StillFrom(chain, from, |old(log)|, first, next, batchEnd, served, part);
        if AllSound(chain, startHeight, old(log)) {
          BatchSound(chain, startHeight, from, next, batchEnd, served, part);
        }
        if ok {
          if quiet {
            IndexedMore(before, chain, first, next, batchEnd + 1);
            Advances(heads, poll, first, next, batchEnd + 1, batchSize);
          }
          next := batchEnd + 1;
        } else {
          quiet := false;
        }
      }
      assert heads[..|heads|] == heads;
      assert quiet ==> Advanced(heads, |heads|, first, next, batchSize);
    }

    /** GetMissingReceipts: the transactions of a stored block that have no receipt, None when a lookup fails. */
    method GetMissingReceipts(height: nat) returns (missing: Option<seq<Hash>>)
      modifies this`faults
      ensures missing.Some? ==>
        height in store.blocks && missing.value == Missing(store.receipts, store.blocks[height].txs)
      ensures old(faults) <= faults
      ensures missing.Some? <==> height in store.blocks && faults == old(faults)
    {
      if height !in store.blocks {
        return None;
      }
      var txs, found := store.blocks[height].txs, [];
      for i := 0 to |txs|
        invariant faults == old(faults) && found == Missing(store.receipts, txs[..i])
      {
        assert txs[..i + 1][..i] == txs[..i];
        if * {
          faults := faults + 1;
          return None;
        }
        if txs[i] !in store.receipts {
          found := found + [txs[i]];
        }
      }
      assert txs[..|txs|] == txs;
      return Some(found);
    }

    /** DetectReceiptGaps passes over blocks whose lookup fails: complete says that there was none. */
    method DetectReceiptGaps(start: nat, end: nat) returns (gaps: seq<ReceiptGap>, ok: bool, complete: bool)
      requires end < MAX_HEIGHT && start <= end + 1
      modifies this`cancelled, this`faults
      ensures ok ==> GapsFound(store, start, end + 1, gaps) && (complete ==> AllFound(store, start, end + 1, gaps))
      ensures old(faults) <= faults && (old(cancelled) ==> cancelled)
      ensures faults == old(faults) && !cancelled ==> ok && complete
    {
      hide GapsFound, AllFound, Missing;
      gaps, complete := [], true;
      NoneFound(store, start);
      for height := start to end + 1
        invariant GapsFound(store, start, height, gaps) && (complete ==> AllFound(store, start, height, gaps))
        invariant old(faults) <= faults && (old(cancelled) ==> cancelled)
        invariant faults == old(faults) ==> complete
      {
        NextFound(store, start, height, gaps);
        var done := PollContext();
        if done {
          return gaps, false, complete;
        }
        if * {
          faults := faults + 1;
          return [], false, complete;
        }
        if height in store.blocks {
          var missing := GetMissingReceipts(height);
          if missing.None? {
            complete := false;
          } else if |missing.value| > 0 {
            gaps := gaps + [ReceiptGap(height, missing.value)];
          }
        }
      }
      ok := true;
    }

    /** FillReceiptGap asks the node once for the receipts of the block and stores those that are missing. */
    method FillReceiptGap(gap: ReceiptGap) returns (ok: bool)
      requires Valid()
      modifies this`store, this`log, this`faults
      ensures Valid() && old(log) <= log && OnlyReceipts(chain, old(store), store)
      ensures ok ==> Filled(store, chain, gap)
      ensures old(faults) <= faults && (ok <==> faults == old(faults))
      ensures AllSound(chain, startHeight, old(log)) ==> AllSound(chain, startHeight, log)
    {
      if * {
        faults := faults + 1;
        return false;
      }
      var receipts := chain(gap.height).receipts;
      hide Replay, Canonical, AllSound;
      var receiptMap: map<Hash, Receipt> := map[];
      for i := 0 to |receipts|
        invariant forall t :: t in receiptMap ==> receiptMap[t] in receipts[..i] && receiptMap[t].txHash == t
        invariant forall r :: r in receipts[..i] ==> r.txHash in receiptMap
      {
        assert receipts[..i + 1] == receipts[..i] + [receipts[i]];
        receiptMap := receiptMap[receipts[i].txHash := receipts[i]];
      }
      assert receipts[..|receipts|] == receipts;
      OnlyReceiptsNone(chain, store);
      hide OnlyReceipts, FilledUpTo;
      NoneFilled(store, receipts, gap.missing);
      for i := 0 to |gap.missing|
        invariant Valid() && old(log) <= log && OnlyReceipts(chain, old(store), store)
        invariant AllSound(chain, startHeight, old(log)) ==> AllSound(chain, startHeight, log)
        invariant faults == old(faults) && FilledUpTo(store, receipts, gap.missing[..i])
      {
        var t := gap.missing[i];
        assert gap.missing[..i + 1] == gap.missing[..i] + [t];
        if t in receiptMap {
          ghost var s := store;
          var done := StoreServed(gap.height, receiptMap[t]);
          OnlyReceiptsTwice(chain, old(store), s, store);
          if !done {
            return false;
          }
          FilledNext(s, chain, gap.height, gap.missing[..i], receiptMap[t]);
        } else {
          NothingServed(store, receipts, gap.missing[..i], t);
        }
      }
      assert gap.missing[..|gap.missing|] == gap.missing;
      AllFilled(store, chain, gap);
      ok := true;
    }

    /** A receipt that the node serves. */
    method StoreServed(height: nat, r: Receipt) returns (done: bool)
      requires Valid() && r in chain(height).receipts
      modifies this`store, this`log, this`faults
      ensures Valid() && old(log) <= log
      ensures store == if done then Apply(old(store), SetReceipt(r)) else old(store)
      ensures faults == if done then old(faults) else old(faults) + 1
      ensures OnlyReceipts(chain, old(store), store)
      ensures AllSound(chain, startHeight, old(log)) ==> AllSound(chain, startHeight, log)
    {
      hide Replay, Canonical, AllSound;
      ghost var before, s := log, store;
      OnlyReceiptsNone(chain, store);
      done := Put(SetReceipt(r));
      if done {
        ReplayConcat(EMPTY, before, [SetReceipt(r)]);
        ReplayOne(s, SetReceipt(r));
        ReceiptAdded(chain, height, s, r);
        ReceiptSound(chain, startHeight, before, height, r);
      }
    }

    method FillReceiptGaps(gaps: seq<ReceiptGap>) returns (ok: bool)
      requires Valid()
      modifies this
      ensures Valid() && old(log) <= log && OnlyReceipts(chain, old(store), store)
      ensures ok ==> forall i :: 0 <= i < |gaps| ==> Filled(store, chain, gaps[i])
      ensures old(faults) <= faults && (old(cancelled) ==> cancelled)
      ensures faults == old(faults) && !cancelled ==> ok
      ensures AllSound(chain, startHeight, old(log)) ==> AllSound(chain, startHeight, log)
    {
      hide Replay, Canonical, AllSound, OnlyReceipts, Filled;
      OnlyReceiptsNone(chain, store);
      for i := 0 to |gaps|
        invariant Valid() && old(log) <= log && OnlyReceipts(chain, old(store), store)
        invariant forall j :: 0 <= j < i ==> Filled(store, chain, gaps[j])
        invariant old(faults) <= faults && (old(cancelled) ==> cancelled)
        invariant AllSound(chain, startHeight, old(log)) ==> AllSound(chain, startHeight, log)
      {
        var done := PollContext();
        if done {
          return false;
        }
        ghost var s, before := store, log;
        ok := FillReceiptGap(gaps[i]);
        OnlyReceiptsTwice(chain, old(store), s, store);
        KeyedReceipts(log);
        forall j | 0 <= j < i ensures Filled(store, chain, gaps[j]) {
          StillFilled(s, store, chain, gaps[j]);
        }
        if !ok {
          return false;
        }
      }
      ok := true;
    }

    /** What RunWithGapRecovery does before it runs: nothing at all unless the latest height is above the start height;
        otherwise it fills the block gaps and then the receipt gaps, carrying on after a failure. */
    method RepairGaps() returns (blocksFilled: bool, receiptsFilled: bool)
      requires Valid() && (store.latest.Some? ==> store.latest.value < MAX_HEIGHT)
      modifies this
      ensures Valid() && old(log) <= log && old(store).blocks.Keys <= store.blocks.Keys
      ensures AllSound(chain, startHeight, old(log)) ==> AllSound(chain, startHeight, log)
      ensures old(faults) <= faults && (old(cancelled) ==> cancelled)
      ensures faults == old(faults) && !cancelled ==> blocksFilled && receiptsFilled
      ensures !(old(store).latest.Some? && old(store).latest.value > startHeight) ==> log == old(log)
      ensures blocksFilled && old(store).latest.Some? && old(store).latest.value > startHeight ==>
        forall h :: startHeight <= h <= old(store).latest.value ==> h in store.blocks
      ensures receiptsFilled && Described(chain) && old(store).latest.Some? && old(store).latest.value > startHeight ==>
        forall h :: startHeight <= h <= old(store).latest.value && h in store.blocks && store.blocks[h] == chain(h).block ==>
          Missing(store.receipts, store.blocks[h].txs) == []
    {
      hide Replay, RangeLog, Canonical, AllSound, OnlyFills;
      blocksFilled, receiptsFilled := true, true;
      if store.latest.Some? && store.latest.value > startHeight {
        var latest := store.latest.value;
        blocksFilled := RepairBlocks(latest);
        ghost var s, before := store, log;
        var gaps, ok, complete := DetectReceiptGaps(startHeight, latest);
        receiptsFilled := ok && complete;
        if ok {
          hide GapsFound, AllFound, OnlyReceipts, Filled, Missing, Described;
          ok := FillReceiptGaps(gaps);
          LogKeepsBlocks(before, log);
          receiptsFilled := receiptsFilled && ok;
          if receiptsFilled && Described(chain) {
            forall h | startHeight <= h <= latest && h in store.blocks && store.blocks[h] == chain(h).block
              ensures Missing(store.receipts, store.blocks[h].txs) == []
            {
              NoneMissing(s, store, chain, startHeight, latest + 1, gaps, h);
            }
          }
        }
      }
    }

    method RepairBlocks(latest: nat) returns (filled: bool)
      requires Valid() && startHeight < latest < MAX_HEIGHT && store.latest == Some(latest)
      modifies this
      ensures Valid() && old(log) <= log && old(store).blocks.Keys <= store.blocks.Keys
      ensures AllSound(chain, startHeight, old(log)) ==> AllSound(chain, startHeight, log)
      ensures old(faults) <= faults && (old(cancelled) ==> cancelled)
      ensures faults == old(faults) && !cancelled ==> filled
      ensures filled ==> forall h :: startHeight <= h <= latest ==> h in store.blocks
    {
      hide Replay, RangeLog, Canonical, AllSound, OnlyFills;
      var gaps, ok := DetectGaps(startHeight, latest);
      if !ok {
        return false;
      }
      ghost var found := store.blocks;
      if AllSound(chain, startHeight, log) {
        SoundHasNoGaps(chain, startHeight, log, latest, gaps);
      }
      ok := FillGaps(gaps);
      filled := ok && !cancelled;
      if filled {
        forall h | startHeight <= h <= latest ensures h in store.blocks {
          assert h !in found ==> InGaps(gaps, h);
        }
      }
    }

    /** RunWithGapRecovery repairs start height .. latest height, and then runs whatever came of it. */
    method RunWithGapRecovery(heads: seq<Option<nat>>, readFails: bool)
      returns (blocksFilled: bool, receiptsFilled: bool, first: nat, next: nat, quiet: bool)
      requires Valid() && (store.latest.Some? ==> store.latest.value < MAX_HEIGHT)
      requires forall i :: 0 <= i < |heads| && heads[i].Some? ==> heads[i].value + batchSize < MAX_HEIGHT
      modifies this
      ensures Valid() && old(log) <= log && old(store).blocks.Keys <= store.blocks.Keys
      ensures blocksFilled && old(store).latest.Some? && old(store).latest.value > startHeight ==>
        forall h :: startHeight <= h <= old(store).latest.value ==> h in store.blocks
      ensures faults == old(faults) && !cancelled ==> blocksFilled && receiptsFilled && quiet
      ensures quiet ==> Indexed(store, chain, first, next)
      ensures AllSound(chain, startHeight, old(log)) ==> AllSound(chain, startHeight, log)
    {
      hide AllSound, Missing, Described, Indexed;
      blocksFilled, receiptsFilled := RepairGaps();
      first, next, quiet := Run(heads, readFails);
    }

    /** The process dies and only the first kept writes are still there when it starts again. */
    method Crash(ghost kept: nat, durable: Storage.Store)
      requires Valid() && kept <= |log| && durable == Replay(EMPTY, log[..kept])
      modifies this
      ensures Valid() && log == old(log)[..kept] && !cancelled
      ensures AllSound(chain, startHeight, old(log)) ==> AllSound(chain, startHeight, log)
    {
      store, log, cancelled := durable, log[..kept], false;
      assert forall k :: 0 <= k <= kept ==> log[..k] == old(log)[..k];
    }

    /** A storage write that succeeds. */
    method Issue(w: Write)
      requires Valid()
      modifies this`store, this`log
      ensures Valid() && log == old(log) + [w]
    {
      ghost var before := log;
      store := Apply(store, w);
      log := log + [w];
      ReplayConcat(EMPTY, before, [w]);
      ReplayOne(Replay(EMPTY, before), w);
    }
  }

  lemma {:induction false} RangeLogCongruent(d: Chain, e: Chain, a: nat, b: nat)
    requires forall h: nat :: a <= h < b ==> d(h) == e(h)
    ensures RangeLog(d, a, b) == RangeLog(e, a, b)
    decreases b
  {
    if a < b {
      RangeLogCongruent(d, e, a, b - 1);
    }
  }

  lemma RangeLogStart(c: Chain, start: nat, end: nat)
    ensures RangeLog(c, start, start) == [] && Reordering(c, c)
    ensures end < start ==> RangeLog(c, start, end + 1) == []
  {
  }

  lemma RangeNotDone(d: Chain, start: nat, height: nat, end: nat)
    requires start <= height <= end
    ensures RangeLog(d, start, height) < RangeLog(d, start, end + 1)
  {
    RangeLogGrows(d, start, height, end + 1);
  }

  /** The chain served so far, with what was served at height, and the writes so far with those of height. */
  lemma ExtendServed(c: Chain, d: Chain, start: nat, height: nat, end: nat, f: Fetched, part: seq<Write>, more: seq<Write>)
    returns (served: Chain, whole: seq<Write>)
    requires start <= height <= end && part == RangeLog(d, start, height) && more <= CommitLog(f)
    requires f.block == c(height).block && multiset(f.receipts) == multiset(c(height).receipts)
    requires Reordering(c, d)
    ensures Reordering(c, served) && whole == part + more && whole <= RangeLog(served, start, end + 1)
    ensures more == CommitLog(f) <==> whole == RangeLog(served, start, height + 1)
    ensures more != CommitLog(f) ==> whole != RangeLog(served, start, end + 1)
  {
    served := (h: nat) => if h == height then f else d(h);
    whole := part + more;
    RangeLogCongruent(d, served, start, height);
    RangeLogGrows(served, start, height, end + 1);
    assert RangeLog(served, start, height + 1) == part + CommitLog(f);
    assert part + more <= part + CommitLog(f);
    if more != CommitLog(f) {
      assert |more| < |CommitLog(f)|;
    }
  }

  lemma {:induction false} ReplayKeepsBlocks(s: Storage.Store, log: seq<Write>)
    ensures s.blocks.Keys <= Replay(s, log).blocks.Keys
  {
    if log != [] {
      ReplayKeepsBlocks(s, log[..|log| - 1]);
    }
  }

  lemma LogKeepsBlocks(before: seq<Write>, after: seq<Write>)
    requires before <= after
    ensures Replay(EMPTY, before).blocks.Keys <= Replay(EMPTY, after).blocks.Keys
  {
    assert after == before + after[|before|..];
    ReplayConcat(EMPTY, before, after[|before|..]);
    ReplayKeepsBlocks(Replay(EMPTY, before), after[|before|..]);
  }

  /** Part of a range's writes stores only blocks of that range. */
  lemma PartFills(c: Chain, d: Chain, gap: GapRange, before: seq<Write>, part: seq<Write>)
    requires Canonical(c) && Reordering(c, d) && part <= RangeLog(d, gap.start, gap.end + 1)
    ensures OnlyFills(before + part, |before|, [gap])
  {
    var log := before + part;
    forall i | |before| <= i < |log| && log[i].SetBlock? ensures InGaps([gap], log[i].block.number) {
      RangeLogHeights(d, gap.start, gap.end + 1, i - |before|);
      assert [gap][0].Contains(log[i].block.number);
    }
  }

  lemma FillsMore(before: seq<Write>, after: seq<Write>, k: nat, gaps: seq<GapRange>, i: nat)
    requires k <= |before| && before <= after && i < |gaps|
    requires OnlyFills(before, k, gaps) && OnlyFills(after, |before|, [gaps[i]])
    ensures OnlyFills(after, k, gaps)
  {
    forall j | k <= j < |after| && after[j].SetBlock? ensures InGaps(gaps, after[j].block.number) {
      if j < |before| {
        assert after[j] == before[j];
      } else {
        assert gaps[i].Contains(after[j].block.number);
      }
    }
  }

  /** Filling gap i keeps what the earlier ones filled. */
  lemma GapFilled(before: Storage.Store, c: Chain, gaps: seq<GapRange>, i: nat, h: nat)
    requires Canonical(c) && i < |gaps| && gaps[i].start <= gaps[i].end && InGaps(gaps[..i + 1], h)
    requires InGaps(gaps[..i], h) ==> h in before.blocks && ReceiptsStored(before, c, h)
    ensures var t := Replay(before, RangeLog(c, gaps[i].start, gaps[i].end + 1));
            h in t.blocks && ReceiptsStored(t, c, h)
  {
    hide RangeLog, Replay, Canonical;
    RangeEffect(before, c, gaps[i].start, gaps[i].end + 1);
    var j :| 0 <= j < i + 1 && gaps[..i + 1][j].Contains(h);
    if j < i {
      assert gaps[..i][j].Contains(h);
    }
    RangeKeepsReceipts(before, c, gaps[i].start, gaps[i].end + 1, h);
  }

  lemma RestartSound(c: Chain, first: nat, log: seq<Write>, readFails: bool)
    requires AllSound(c, first, log)
    ensures SoundSafe(c, first, State(log, NextHeight(first, Replay(EMPTY, log), readFails)))
  {
    assert log[..|log|] == log;
    assert LeavesSound(c, first, log);
    var top :| Sound(c, first, Replay(EMPTY, log), top);
    NextHeightReady(c, first, Replay(EMPTY, log), top, readFails);
  }

  lemma BatchSound(c: Chain, first: nat, log: seq<Write>, next: nat, end: nat, served: Chain, part: seq<Write>)
    requires Canonical(c) && Reordering(c, served) && SoundSafe(c, first, State(log, next))
    requires next <= end && part <= RangeLog(served, next, end + 1)
    ensures SoundSafe(c, first, State(log + part, if part == RangeLog(served, next, end + 1) then end + 1 else next))
  {
    hide Canonical, RangeLog, SoundSafe;
    var e := Batch(served, end, |part|);
    var full := RangeLog(served, next, end + 1);
    assert part == full[..|part|];
    assert |part| == |full| ==> part == full;
    StillNumbered(c, served);
    SoundStep(c, first, State(log, next), e);
  }

  lemma StillNumbered(c: Chain, d: Chain)
    requires Canonical(c) && Reordering(c, d)
    ensures Numbered(d)
  {
  }

  lemma SoundHasNoGaps(c: Chain, first: nat, log: seq<Write>, latest: nat, gaps: seq<GapRange>)
    requires AllSound(c, first, log) && Replay(EMPTY, log).latest == Some(latest) && first <= latest
    requires ExactGaps(Replay(EMPTY, log).blocks, first, latest + 1, gaps)
    ensures gaps == []
  {
    assert log[..|log|] == log;
    assert LeavesSound(c, first, log);
    var top :| Sound(c, first, Replay(EMPTY, log), top);
    StartInGaps(gaps);
  }

  lemma NumberedAt(c: Chain, h: nat)
    requires Canonical(c)
    ensures c(h).block.number == h
  {
  }

  lemma PrefixMultiset<T>(s: seq<T>, i: nat)
    requires i <= |s|
    ensures multiset(s[..i]) <= multiset(s)
  {
    assert s == s[..i] + s[i..];
  }

  lemma NoReceiptWrites()
    ensures ReceiptWrites([]) == []
  {
  }

  lemma AppendReceipt(rs: seq<Receipt>, r: Receipt)
    ensures ReceiptWrites(rs + [r]) == ReceiptWrites(rs) + [SetReceipt(r)]
  {
  }

  /** A block write and some first receipts are a strict prefix of the block's log. */
  lemma ReceiptsPrefix(f: Fetched, rs: seq<Receipt>)
    requires rs <= f.receipts
    ensures [SetBlock(f.block)] + ReceiptWrites(rs) < CommitLog(f)
    ensures rs == f.receipts ==> [SetBlock(f.block)] + ReceiptWrites(rs) + [SetLatest(f.block.number)] == CommitLog(f)
  {
  }

  // ---- progress of Run --------------------------------------------------------------------------

  /** The heights first .. next - 1 are stored as the chain serves them, with their receipts. */
  ghost predicate Indexed(s: Storage.Store, c: Chain, first: nat, next: nat) {
    forall h :: first <= h < next ==> h in s.blocks && s.blocks[h] == c(h).block && ReceiptsStored(s, c, h)
  }

  /** Every poll finds the chain at the target or beyond. */
  ghost predicate Offers(heads: seq<Option<nat>>, target: nat) {
    forall i :: 0 <= i < |heads| ==> heads[i].Some? && heads[i].value >= target
  }

  lemma NothingIndexed(s: Storage.Store, c: Chain, first: nat)
    ensures Indexed(s, c, first, first)
  {
  }

  lemma IndexedMore(s: Storage.Store, c: Chain, first: nat, next: nat, end: nat)
    requires Canonical(c) && Indexed(s, c, first, next) && first <= next < end
    ensures Indexed(Replay(s, RangeLog(c, next, end)), c, first, end)
  {
    RangeEffect(s, c, next, end);
    var t := Replay(s, RangeLog(c, next, end));
    forall h | first <= h < end ensures h in t.blocks && t.blocks[h] == c(h).block && ReceiptsStored(t, c, h) {
      RangeKeepsReceipts(s, c, next, end, h);
    }
  }

  /** After the first polls the loop has passed the target, or gained a batch with each of them. */
  ghost predicate Advanced(heads: seq<Option<nat>>, poll: nat, first: nat, next: nat, batchSize: nat)
    requires poll <= |heads|
  {
    forall target: nat :: Offers(heads[..poll], target) ==> next > target || next >= first + poll * batchSize
  }

  lemma NotAdvanced(heads: seq<Option<nat>>, first: nat, batchSize: nat)
    ensures Advanced(heads, 0, first, first, batchSize)
  {
  }

  /** One more poll, without a head, past the head, or a batch further. */
  lemma Advances(heads: seq<Option<nat>>, poll: nat, first: nat, next: nat, more: nat, batchSize: nat)
    requires poll < |heads| && Advanced(heads, poll, first, next, batchSize) && more >= next
    requires heads[poll].None? || more > heads[poll].value || more >= next + batchSize
    ensures Advanced(heads, poll + 1, first, more, batchSize)
  {
    assert (poll + 1) * batchSize == poll * batchSize + batchSize;
    var later := heads[..poll + 1];
    forall target: nat | Offers(later, target) ensures more > target || more >= first + (poll + 1) * batchSize {
      assert later[poll] == heads[poll];
      assert forall i :: 0 <= i < poll ==> later[i] == heads[..poll][i];
      assert Offers(heads[..poll], target);
    }
  }

  // ---- receipts ---------------------------------------------------------------------------------

  lemma NoneFound(s: Storage.Store, start: nat)
    ensures GapsFound(s, start, start, []) && AllFound(s, start, start, [])
  {
  }

  lemma OnlyReceiptsNone(c: Chain, s: Storage.Store)
    ensures OnlyReceipts(c, s, s)
  {
  }

  /** The receipts of the given transactions, as far as there are any, are stored. */
  ghost predicate FilledUpTo(s: Storage.Store, receipts: seq<Receipt>, txs: seq<Hash>) {
    forall r :: r in receipts && r.txHash in txs ==> r.txHash in s.receipts && s.receipts[r.txHash] == r
  }

  lemma NoneFilled(s: Storage.Store, receipts: seq<Receipt>, txs: seq<Hash>)
    ensures FilledUpTo(s, receipts, txs[..0])
  {
  }

  lemma FilledNext(s: Storage.Store, c: Chain, h: nat, txs: seq<Hash>, r: Receipt)
    requires Canonical(c) && r in c(h).receipts && FilledUpTo(s, c(h).receipts, txs)
    ensures FilledUpTo(Apply(s, SetReceipt(r)), c(h).receipts, txs + [r.txHash])
  {
  }

  lemma NothingServed(s: Storage.Store, receipts: seq<Receipt>, txs: seq<Hash>, t: Hash)
    requires FilledUpTo(s, receipts, txs) && forall r :: r in receipts ==> r.txHash != t
    ensures FilledUpTo(s, receipts, txs + [t])
  {
  }

  lemma AllFilled(s: Storage.Store, c: Chain, gap: ReceiptGap)
    requires FilledUpTo(s, c(gap.height).receipts, gap.missing)
    ensures Filled(s, c, gap)
  {
  }

  lemma ReceiptAdded(c: Chain, h: nat, s: Storage.Store, r: Receipt)
    requires r in c(h).receipts
    ensures OnlyReceipts(c, s, Apply(s, SetReceipt(r)))
  {
  }

  /** Every stored receipt is under its own transaction. */
  lemma {:induction false} KeyedReceipts(log: seq<Write>)
    ensures forall k :: k in Replay(EMPTY, log).receipts ==> Replay(EMPTY, log).receipts[k].txHash == k
  {
    if log != [] {
      KeyedReceipts(log[..|log| - 1]);
    }
  }

  lemma ReceiptSound(c: Chain, first: nat, log: seq<Write>, h: nat, r: Receipt)
    requires Canonical(c) && r in c(h).receipts
    ensures AllSound(c, first, log) ==> AllSound(c, first, log + [SetReceipt(r)])
  {
    if AllSound(c, first, log) {
      var more := log + [SetReceipt(r)];
      forall k | 0 <= k <= |more| ensures LeavesSound(c, first, more[..k]) {
        if k <= |log| {
          assert more[..k] == log[..k];
        } else {
          assert more[..k] == more && log[..|log|] == log;
          assert LeavesSound(c, first, log);
          var top :| Sound(c, first, Replay(EMPTY, log), top);
          ReplayConcat(EMPTY, log, [SetReceipt(r)]);
          ReplayOne(Replay(EMPTY, log), SetReceipt(r));
          WriteReceipt(c, first, Replay(EMPTY, log), top, r, h);
        }
      }
    }
  }
}
