/** What survives a crash: the stored blocks stay one contiguous interval, the latest height lies
    inside it, and nothing at or below the latest height is incomplete. */
module Durability {
  import opened Storage

  /** The blocks stored are those of heights first .. top - 1, as the chain serves them; the latest
      height is one of them, and the receipts of every height up to it are stored. */
  ghost predicate Sound(c: Chain, first: nat, s: Store, top: nat) {
    && first <= top
    && (forall h :: h in s.blocks <==> first <= h < top)
    && (forall h :: h in s.blocks ==> s.blocks[h] == c(h).block)
    && (s.latest.Some? ==> first <= s.latest.value < top && CompleteBelow(c, first, s, s.latest.value + 1))
  }

  ghost predicate CompleteBelow(c: Chain, first: nat, s: Store, h: nat) {
    forall g :: first <= g < h ==> ReceiptsStored(s, c, g)
  }

  /** Fetching may start or continue at height h. */
  ghost predicate Ready(c: Chain, first: nat, s: Store, top: nat, h: nat) {
    Sound(c, first, s, top) && first <= h <= top && CompleteBelow(c, first, s, h)
  }

  /** GetNextHeight: a failed read of the latest height counts as an empty store. */
  function NextHeight(first: nat, s: Store, readFails: bool): nat {
    if readFails || s.latest.None? then first
    else if first > s.latest.value then first
    else s.latest.value + 1
  }

  lemma NextHeightReady(c: Chain, first: nat, s: Store, top: nat, readFails: bool)
    requires Sound(c, first, s, top)
    ensures Ready(c, first, s, top, NextHeight(first, s, readFails))
  {
  }

  // ---- one write at a time ----

  lemma WriteBlock(c: Chain, first: nat, s: Store, top: nat, h: nat)
    requires Numbered(c) && Sound(c, first, s, top) && first <= h <= top
    ensures var t := Apply(s, SetBlock(c(h).block));
            Sound(c, first, t, if h == top then top + 1 else top)
  {
    var t := Apply(s, SetBlock(c(h).block));
    if t.latest.Some? {
      SameReceipts(c, first, s, t, t.latest.value + 1);
    }
  }

  lemma SameReceipts(c: Chain, first: nat, s: Store, t: Store, h: nat)
    requires s.receipts == t.receipts && CompleteBelow(c, first, s, h)
    ensures CompleteBelow(c, first, t, h)
  {
    forall g | first <= g < h ensures ReceiptsStored(t, c, g) {
      assert ReceiptsStored(s, c, g);
    }
  }

  lemma ReceiptKept(c: Chain, s: Store, r: Receipt, h: nat, g: nat)
    requires Canonical(c) && r in c(h).receipts && ReceiptsStored(s, c, g)
    ensures ReceiptsStored(Apply(s, SetReceipt(r)), c, g)
  {
  }

  lemma WriteReceipt(c: Chain, first: nat, s: Store, top: nat, r: Receipt, h: nat)
    requires Canonical(c) && Sound(c, first, s, top) && r in c(h).receipts
    ensures Sound(c, first, Apply(s, SetReceipt(r)), top)
  {
    var t := Apply(s, SetReceipt(r));
    if t.latest.Some? {
      forall g | first <= g < t.latest.value + 1 ensures ReceiptsStored(t, c, g) {
        ReceiptKept(c, s, r, h, g);
      }
    }
  }

  // ---- the writes of one height ----

  /** The state after the first k writes of height h, as far as the crash invariant is concerned. */
  ghost predicate MidCommit(c: Chain, first: nat, s: Store, top: nat, h: nat, rs: seq<Receipt>, k: nat) {
    && Sound(c, first, s, top) && first <= h <= top && CompleteBelow(c, first, s, h)
    && (k > 0 ==> h < top)
    && (forall i :: 0 <= i < |rs| && i + 1 < k ==> rs[i].txHash in s.receipts && s.receipts[rs[i].txHash] == rs[i])
  }

  lemma {:induction false} CommitPrefix(c: Chain, first: nat, s: Store, top: nat, f: Fetched, h: nat, k: nat) returns (after: nat)
    requires Canonical(c) && Ready(c, first, s, top, h)
    requires f.block == c(h).block && multiset(f.receipts) == multiset(c(h).receipts)
    requires k < |CommitLog(f)|
    ensures after >= top && MidCommit(c, first, Replay(s, CommitLog(f)[..k]), after, h, f.receipts, k)
  {
    if k == 0 {
      after := top;
    } else {
      after := CommitPrefix(c, first, s, top, f, h, k - 1);
      var before := Replay(s, CommitLog(f)[..k - 1]);
      var w := CommitLog(f)[k - 1];
      assert CommitLog(f)[..k] == CommitLog(f)[..k - 1] + [w];
      ReplayConcat(s, CommitLog(f)[..k - 1], [w]);
      ReplayOne(before, w);
      if k == 1 {
        WriteBlock(c, first, before, after, h);
        SameReceipts(c, first, before, Apply(before, w), h);
        after := if h == after then after + 1 else after;
      } else {
        var r := f.receipts[k - 2];
        assert w == SetReceipt(r);
        MidReceipt(c, first, before, after, f, h, k);
      }
    }
  }

  lemma ReplayOne(s: Store, w: Write)
    ensures Replay(s, [w]) == Apply(s, w)
  {
    assert [w][..0] == [];
  }

  lemma MidReceipt(c: Chain, first: nat, s: Store, top: nat, f: Fetched, h: nat, k: nat)
    requires Canonical(c) && 2 <= k <= |f.receipts| + 1
    requires multiset(f.receipts) == multiset(c(h).receipts)
    requires MidCommit(c, first, s, top, h, f.receipts, k - 1)
    ensures MidCommit(c, first, Apply(s, SetReceipt(f.receipts[k - 2])), top, h, f.receipts, k)
  {
    var r := f.receipts[k - 2];
    ServedReceipt(c, f, h, r);
    WriteReceipt(c, first, s, top, r, h);
    forall g | first <= g < h ensures ReceiptsStored(Apply(s, SetReceipt(r)), c, g) {
      ReceiptKept(c, s, r, h, g);
    }
    forall i | 0 <= i < |f.receipts| && i + 1 < k && f.receipts[i].txHash == r.txHash ensures f.receipts[i] == r {
      ServedReceipt(c, f, h, f.receipts[i]);
    }
  }

  lemma ServedReceipt(c: Chain, f: Fetched, h: nat, r: Receipt)
    requires multiset(f.receipts) == multiset(c(h).receipts)
    ensures r in f.receipts <==> r in c(h).receipts
  {
    assert r in multiset(f.receipts) <==> r in multiset(c(h).receipts);
  }

  /** A whole commit makes the next height ready. */
  lemma WholeCommit(c: Chain, first: nat, s: Store, top: nat, f: Fetched, h: nat) returns (after: nat)
    requires Canonical(c) && Ready(c, first, s, top, h)
    requires f.block == c(h).block && multiset(f.receipts) == multiset(c(h).receipts)
    ensures after >= top && Ready(c, first, Replay(s, CommitLog(f)), after, h + 1)
  {
    var k := |CommitLog(f)| - 1;
    after := CommitPrefix(c, first, s, top, f, h, k);
    var before := Replay(s, CommitLog(f)[..k]);
    var w := CommitLog(f)[k];
    assert CommitLog(f) == CommitLog(f)[..k] + [w] && w == SetLatest(h);
    ReplayConcat(s, CommitLog(f)[..k], [w]);
    ReplayOne(before, w);
    LatestWritten(c, first, before, after, f, h);
  }

  lemma LatestWritten(c: Chain, first: nat, s: Store, top: nat, f: Fetched, h: nat)
    requires multiset(f.receipts) == multiset(c(h).receipts)
    requires MidCommit(c, first, s, top, h, f.receipts, |f.receipts| + 1)
    ensures Ready(c, first, Apply(s, SetLatest(h)), top, h + 1)
  {
    var t := Apply(s, SetLatest(h));
    forall g | first <= g < h + 1 ensures ReceiptsStored(t, c, g) {
      if g == h {
        forall r | r in c(h).receipts ensures r.txHash in t.receipts && t.receipts[r.txHash] == r {
          ServedReceipt(c, f, h, r);
          var i :| 0 <= i < |f.receipts| && f.receipts[i] == r;
        }
      } else {
        assert ReceiptsStored(s, c, g);
      }
    }
  }

  // ---- the writes of a range ----

  /** Any prefix of the writes of a range, fetched from a height that was ready, leaves a sound store
      in which that height is still ready; all of them make the end of the range ready. */
  lemma {:induction false} RangePrefix(c: Chain, d: Chain, first: nat, s: Store, top: nat, a: nat, b: nat, part: seq<Write>)
    returns (after: nat)
    requires Canonical(c) && Reordering(c, d) && Ready(c, first, s, top, a)
    requires a <= b && part <= RangeLog(d, a, b)
    ensures after >= top && Ready(c, first, Replay(s, part), after, a)
    ensures part == RangeLog(d, a, b) ==> Ready(c, first, Replay(s, part), after, b)
    decreases b
  {
    hide Replay, CommitLog;
    if a == b {
      after := top;
      ReplayNothing(s);
    } else {
      var shorter, f := RangeLog(d, a, b - 1), d(b - 1);
      if |part| < |shorter| {
        assert part <= shorter;
        after := RangePrefix(c, d, first, s, top, a, b - 1, part);
      } else {
        var k := |part| - |shorter|;
        assert part == shorter + CommitLog(f)[..k];
        after := RangePrefix(c, d, first, s, top, a, b - 1, shorter);
        ReplayConcat(s, shorter, CommitLog(f)[..k]);
        var mid := Replay(s, shorter);
        if k < |CommitLog(f)| {
          after := CommitPrefix(c, first, mid, after, f, b - 1, k);
        } else {
          assert CommitLog(f)[..k] == CommitLog(f);
          after := WholeCommit(c, first, mid, after, f, b - 1);
        }
        Lower(c, first, Replay(mid, CommitLog(f)[..k]), after, a, if k < |CommitLog(f)| then b - 1 else b);
      }
    }
  }

  lemma Lower(c: Chain, first: nat, s: Store, top: nat, a: nat, b: nat)
    requires Ready(c, first, s, top, b) && first <= a <= b
    ensures Ready(c, first, s, top, a)
  {
  }

  // ---- contiguity alone, whatever content the node serves ----

  /** The stored heights are first .. top - 1 and the latest height is one of them. */
  ghost predicate Interval(first: nat, s: Store, top: nat) {
    && first <= top
    && (forall h :: h in s.blocks <==> first <= h < top)
    && (s.latest.Some? ==> first <= s.latest.value < top)
  }

  lemma {:induction false} CommitInterval(first: nat, s: Store, top: nat, f: Fetched, k: nat) returns (after: nat)
    requires Interval(first, s, top) && first <= f.block.number <= top && k <= |CommitLog(f)|
    ensures after >= top && Interval(first, Replay(s, CommitLog(f)[..k]), after) && (k > 0 ==> f.block.number < after)
  {
    if k == 0 {
      after := top;
    } else {
      after := CommitInterval(first, s, top, f, k - 1);
      var w := CommitLog(f)[k - 1];
      assert CommitLog(f)[..k] == CommitLog(f)[..k - 1] + [w];
      ReplayConcat(s, CommitLog(f)[..k - 1], [w]);
      ReplayOne(Replay(s, CommitLog(f)[..k - 1]), w);
      if k == 1 && f.block.number == after {
        after := after + 1;
      }
    }
  }

  lemma {:induction false} RangeInterval(d: Chain, first: nat, s: Store, top: nat, a: nat, b: nat, part: seq<Write>)
    returns (after: nat)
    requires Numbered(d) && Interval(first, s, top) && first <= a <= top
    requires a <= b && part <= RangeLog(d, a, b)
    ensures after >= top && Interval(first, Replay(s, part), after)
    ensures part == RangeLog(d, a, b) ==> b <= after
    decreases b
  {
    hide Replay, CommitLog;
    if a == b {
      after := top;
      ReplayNothing(s);
    } else {
      var shorter, f := RangeLog(d, a, b - 1), d(b - 1);
      if |part| < |shorter| {
        assert part <= shorter;
        after := RangeInterval(d, first, s, top, a, b - 1, part);
      } else {
        var k := |part| - |shorter|;
        assert part == shorter + CommitLog(f)[..k];
        after := RangeInterval(d, first, s, top, a, b - 1, shorter);
        ReplayConcat(s, shorter, CommitLog(f)[..k]);
        after := CommitInterval(first, Replay(s, shorter), after, f, k);
      }
    }
  }

  // ---- whole histories ----

  /** What can happen to a fetcher.  Batch: the loop fetches from its next height to end and issues the
      first written writes; fewer than all of them means that the batch failed and will be retried.
      Crash: the process stops, the first kept writes of the log survive, and it starts again. */
  datatype Event =
    | Batch(served: Chain, end: nat, written: nat)
    | Crash(kept: nat, readFails: bool)

  datatype State = State(log: seq<Write>, next: nat)

  ghost function Start(first: nat): State {
    State([], first)
  }

  ghost function BatchLog(r: State, e: Event): seq<Write>
    requires e.Batch?
  {
    RangeLog(e.served, r.next, e.end + 1)
  }

  ghost predicate Possible(r: State, e: Event) {
    match e
    case Batch(d, end, written) => Numbered(d) && r.next <= end && written <= |BatchLog(r, e)|
    case Crash(kept, _) => kept <= |r.log|
  }

  ghost function Happen(first: nat, r: State, e: Event): State
    requires Possible(r, e)
  {
    match e
    case Batch(d, end, written) =>
      State(r.log + BatchLog(r, e)[..written], if written == |BatchLog(r, e)| then end + 1 else r.next)
    case Crash(kept, readFails) =>
      State(r.log[..kept], NextHeight(first, Replay(EMPTY, r.log[..kept]), readFails))
  }

  ghost predicate History(first: nat, r: State, events: seq<Event>)
    decreases |events|
  {
    events != [] ==> Possible(r, events[0]) && History(first, Happen(first, r, events[0]), events[1..])
  }

  ghost function Final(first: nat, r: State, events: seq<Event>): State
    requires History(first, r, events)
    decreases |events|
  {
    if events == [] then r else Final(first, Happen(first, r, events[0]), events[1..])
  }

  ghost predicate LeavesInterval(first: nat, log: seq<Write>) {
    exists top :: Interval(first, Replay(EMPTY, log), top)
  }

  ghost predicate LeavesSound(c: Chain, first: nat, log: seq<Write>) {
    exists top :: Sound(c, first, Replay(EMPTY, log), top)
  }

  /** Every store a crash could leave is an interval, and the next height extends it. */
  ghost predicate IntervalSafe(first: nat, r: State) {
    && (forall k :: 0 <= k <= |r.log| ==> LeavesInterval(first, r.log[..k]))
    && (exists top :: Interval(first, Replay(EMPTY, r.log), top) && first <= r.next <= top)
  }

  ghost predicate SoundSafe(c: Chain, first: nat, r: State) {
    && (forall k :: 0 <= k <= |r.log| ==> LeavesSound(c, first, r.log[..k]))
    && (exists top :: Ready(c, first, Replay(EMPTY, r.log), top, r.next))
  }

  lemma ReplayExtended(log: seq<Write>, more: seq<Write>, k: nat)
    requires |log| <= k <= |log| + |more|
    ensures Replay(EMPTY, (log + more)[..k]) == Replay(Replay(EMPTY, log), more[..k - |log|])
  {
    assert (log + more)[..k] == log + more[..k - |log|];
    ReplayConcat(EMPTY, log, more[..k - |log|]);
  }

  lemma IntervalBatch(first: nat, r: State, e: Event)
    requires IntervalSafe(first, r) && Possible(r, e) && e.Batch?
    ensures IntervalSafe(first, Happen(first, r, e))
  {
    hide Replay, RangeLog, Interval;
    var q := Happen(first, r, e);
    var full, more := BatchLog(r, e), BatchLog(r, e)[..e.written];
    var top :| Interval(first, Replay(EMPTY, r.log), top) && first <= r.next <= top;
    forall k | 0 <= k <= |q.log| ensures LeavesInterval(first, q.log[..k]) {
      if k < |r.log| {
        assert q.log[..k] == r.log[..k];
      } else {
        ReplayExtended(r.log, more, k);
        assert more[..k - |r.log|] == full[..k - |r.log|];
        var t := RangeInterval(e.served, first, Replay(EMPTY, r.log), top, r.next, e.end + 1, full[..k - |r.log|]);
      }
    }
    ReplayConcat(EMPTY, r.log, more);
    var t := RangeInterval(e.served, first, Replay(EMPTY, r.log), top, r.next, e.end + 1, more);
    assert e.written == |full| ==> more == full;
    assert Interval(first, Replay(EMPTY, q.log), t) && first <= q.next <= t;
  }

  lemma IntervalStep(first: nat, r: State, e: Event)
    requires IntervalSafe(first, r) && Possible(r, e)
    ensures IntervalSafe(first, Happen(first, r, e))
  {
    hide Replay, RangeLog, Interval, NextHeight;
    if e.Batch? {
      IntervalBatch(first, r, e);
    } else {
      var q := Happen(first, r, e);
      forall k | 0 <= k <= |q.log| ensures LeavesInterval(first, q.log[..k]) {
        assert q.log[..k] == r.log[..k];
      }
      assert LeavesInterval(first, r.log[..e.kept]);
      var t :| Interval(first, Replay(EMPTY, r.log[..e.kept]), t);
      NextHeightInside(first, Replay(EMPTY, q.log), t, e.readFails);
    }
  }

  lemma NextHeightInside(first: nat, s: Store, top: nat, readFails: bool)
    requires Interval(first, s, top)
    ensures first <= NextHeight(first, s, readFails) <= top
  {
  }

  lemma SoundBatch(c: Chain, first: nat, r: State, e: Event)
    requires Canonical(c) && SoundSafe(c, first, r) && Possible(r, e) && e.Batch? && Reordering(c, e.served)
    ensures SoundSafe(c, first, Happen(first, r, e))
  {
    hide Replay, RangeLog, Ready, Sound, Canonical;
    var q := Happen(first, r, e);
    var full, more := BatchLog(r, e), BatchLog(r, e)[..e.written];
    var top :| Ready(c, first, Replay(EMPTY, r.log), top, r.next);
    NextAboveFirst(c, first, Replay(EMPTY, r.log), top, r.next);
    forall k | 0 <= k <= |q.log| ensures LeavesSound(c, first, q.log[..k]) {
      if k < |r.log| {
        assert q.log[..k] == r.log[..k];
      } else {
        ReplayExtended(r.log, more, k);
        assert more[..k - |r.log|] == full[..k - |r.log|];
        var t := RangePrefix(c, e.served, first, Replay(EMPTY, r.log), top, r.next, e.end + 1, full[..k - |r.log|]);
        NextAboveFirst(c, first, Replay(EMPTY, q.log[..k]), t, r.next);
      }
    }
    ReplayConcat(EMPTY, r.log, more);
    var t := RangePrefix(c, e.served, first, Replay(EMPTY, r.log), top, r.next, e.end + 1, more);
    assert e.written == |full| ==> more == full;
    assert Ready(c, first, Replay(EMPTY, q.log), t, q.next);
  }

  lemma NextAboveFirst(c: Chain, first: nat, s: Store, top: nat, h: nat)
    requires Ready(c, first, s, top, h)
    ensures first <= h && Sound(c, first, s, top)
  {
  }

  lemma SoundStep(c: Chain, first: nat, r: State, e: Event)
    requires Canonical(c) && SoundSafe(c, first, r) && Possible(r, e)
    requires e.Batch? ==> Reordering(c, e.served)
    ensures SoundSafe(c, first, Happen(first, r, e))
  {
    hide Replay, RangeLog, Ready, Sound, Canonical, NextHeight;
    if e.Batch? {
      SoundBatch(c, first, r, e);
    } else {
      var q := Happen(first, r, e);
      forall k | 0 <= k <= |q.log| ensures LeavesSound(c, first, q.log[..k]) {
        assert q.log[..k] == r.log[..k];
      }
      assert LeavesSound(c, first, r.log[..e.kept]);
      var t :| Sound(c, first, Replay(EMPTY, r.log[..e.kept]), t);
      NextHeightReady(c, first, Replay(EMPTY, q.log), t, e.readFails);
    }
  }

  lemma StartSafe(c: Chain, first: nat)
    ensures IntervalSafe(first, Start(first)) && SoundSafe(c, first, Start(first))
  {
    assert Interval(first, EMPTY, first);
    assert LeavesInterval(first, []) && LeavesSound(c, first, []) by {
      ReplayNothing(EMPTY);
      assert Sound(c, first, EMPTY, first);
    }
    assert Ready(c, first, EMPTY, first, first);
    ReplayNothing(EMPTY);
    assert Start(first).log[..0] == [];
    assert Sound(c, first, EMPTY, first);
  }

  /** From an empty store, across any failures, retries and crashes and whatever the node serves from one
      request to the next, the stored blocks are one interval from the start height with the latest
      height inside it, and so is every state a further crash could leave. */
  lemma {:induction false} BlocksStayContiguous(first: nat, r: State, events: seq<Event>)
    requires IntervalSafe(first, r) && History(first, r, events)
    ensures IntervalSafe(first, Final(first, r, events))
    decreases |events|
  {
    if events != [] {
      IntervalStep(first, r, events[0]);
      BlocksStayContiguous(first, Happen(first, r, events[0]), events[1..]);
    }
  }

  ghost predicate Stable(c: Chain, events: seq<Event>) {
    forall i :: 0 <= i < |events| && events[i].Batch? ==> Reordering(c, events[i].served)
  }

  /** If moreover the node keeps serving the same chain, every block at or below the latest height has all
      its receipts, after every history and every crash. */
  lemma {:induction false} NothingBelowLatestIsIncomplete(c: Chain, first: nat, r: State, events: seq<Event>)
    requires Canonical(c) && SoundSafe(c, first, r) && History(first, r, events) && Stable(c, events)
    ensures SoundSafe(c, first, Final(first, r, events))
    decreases |events|
  {
    if events != [] {
      SoundStep(c, first, r, events[0]);
      assert Stable(c, events[1..]) by {
        assert forall i :: 0 <= i < |events[1..]| ==> events[1..][i] == events[i + 1];
      }
      NothingBelowLatestIsIncomplete(c, first, Happen(first, r, events[0]), events[1..]);
    }
  }

  /** The same chain is needed: when the block at a height is replaced between a failed batch and its retry,
      a crash can leave the new block without its receipts, below the height at which fetching resumes. */
  lemma ReorganizationCanLoseReceipts()
    ensures exists c: Chain, d: Chain, events: seq<Event> ::
              && Canonical(c) && Canonical(d) && History(0, Start(0), events)
              && (forall i :: 0 <= i < |events| && events[i].Batch? ==> events[i].served == c || events[i].served == d)
              && (var r := Final(0, Start(0), events);
                  var s := Replay(EMPTY, r.log);
                  r.next == 1 && 0 in s.blocks && s.blocks[0] == d(0).block && !ReceiptsStored(s, d, 0))
  {
    var c: Chain := (h: nat) => Fetched(Block(h, 1, []), []);
    var d: Chain := (h: nat) => Fetched(Block(h, 2, if h == 0 then [7] else []), if h == 0 then [Receipt(7, 7)] else []);
    var events := ReorganizedRun(c, d);
    ReplayedBlock(c, d);
    LoneReceipt(c);
    LoneReceipt(d);
  }

  /** Heights 0 and 1 are asked for and only 0 is committed; the retry writes the new block 0, and the process dies. */
  lemma ReorganizedRun(c: Chain, d: Chain) returns (events: seq<Event>)
    requires Numbered(c) && Numbered(d) && |CommitLog(c(0))| == 2
    ensures History(0, Start(0), events)
    ensures forall i :: 0 <= i < |events| && events[i].Batch? ==> events[i].served == c || events[i].served == d
    ensures var log := CommitLog(c(0)) + [SetBlock(d(0).block)];
            Final(0, Start(0), events) == State(log, NextHeight(0, Replay(EMPTY, log), false))
  {
    var e0, e1, e2 := Batch(c, 1, 2), Batch(d, 1, 1), Crash(3, false);
    TwoHeights(c);
    TwoHeights(d);
    hide RangeLog;
    var s1 := Happen(0, Start(0), e0);
    assert s1 == State(CommitLog(c(0)), 0);
    var s2 := Happen(0, s1, e1);
    assert s2 == State(CommitLog(c(0)) + [SetBlock(d(0).block)], 0);
    var s3 := Happen(0, s2, e2);
    assert s2.log[..3] == s2.log;
    hide CommitLog, Possible, Happen;
    assert History(0, s3, []) && Final(0, s3, []) == s3;
    HistoryCons(0, s2, e2, []);
    HistoryCons(0, s1, e1, [e2] + []);
    HistoryCons(0, Start(0), e0, [e1] + ([e2] + []));
    events := [e0] + ([e1] + ([e2] + []));
  }

  lemma HistoryCons(first: nat, r: State, e: Event, rest: seq<Event>)
    requires Possible(r, e) && History(first, Happen(first, r, e), rest)
    ensures History(first, r, [e] + rest)
    ensures Final(first, r, [e] + rest) == Final(first, Happen(first, r, e), rest)
  {
    assert ([e] + rest)[1..] == rest;
  }

  lemma TwoHeights(c: Chain)
    ensures RangeLog(c, 0, 2) == CommitLog(c(0)) + CommitLog(c(1))
  {
    assert RangeLog(c, 0, 0) == [];
    assert RangeLog(c, 0, 1) == CommitLog(c(0));
  }

  lemma LoneReceipt(c: Chain)
    requires Numbered(c) && forall h: nat, r :: r in c(h).receipts ==> r == Receipt(7, 7)
    ensures Canonical(c)
  {
  }

  lemma ReplayedBlock(c: Chain, d: Chain)
    requires c(0) == Fetched(Block(0, 1, []), []) && d(0) == Fetched(Block(0, 2, [7]), [Receipt(7, 7)])
    ensures var s := Replay(EMPTY, CommitLog(c(0)) + [SetBlock(d(0).block)]);
            && s.latest == Some(0) && 0 in s.blocks && s.blocks[0] == d(0).block && !ReceiptsStored(s, d, 0)
  {
    CommitEffect(EMPTY, c(0));
    ReplayConcat(EMPTY, CommitLog(c(0)), [SetBlock(d(0).block)]);
    ReplayOne(Replay(EMPTY, CommitLog(c(0))), SetBlock(d(0).block));
    assert Receipt(7, 7) in d(0).receipts;
  }
}
