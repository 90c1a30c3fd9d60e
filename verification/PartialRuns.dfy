/** What a failed FetchRangeConcurrent can have written: every proper prefix of the sequential log, and nothing else. */
module PartialRuns {
  import opened Storage
  import opened Pipeline

  // ---- no more than a proper prefix ----

  /** A call that has failed has not committed the whole range. */
  ghost predicate Short(c: Call, p: Pipe) {
    p.outcome == Returned(false) ==> p.next <= c.end
  }

  lemma ShortStep(c: Call, p: Pipe, a: Action)
    requires Inv(c, p) && Enabled(c, p, a) && Short(c, p) && c.start <= c.end
    ensures Short(c, Step(c, p, a))
  {
    var w :| Located(p, w);
    hide CommitLog;
    assert p.results != [] ==> At(p, w, p.results[0].height, InSlot(w.received + 0));
    assert p.next in p.resultMap ==> At(p, w, p.next, InMap);
  }

  lemma {:induction false} ShortRun(c: Call, p: Pipe, acts: seq<Action>)
    requires Inv(c, p) && Schedule(c, p, acts) && Short(c, p) && c.start <= c.end
    ensures Inv(c, Run(c, p, acts)) && Short(c, Run(c, p, acts))
    decreases |acts|
  {
    if acts != [] {
      hide Inv, Short, Enabled, Step;
      StepInv(c, p, acts[0]);
      ShortStep(c, p, acts[0]);
      ShortRun(c, Step(c, p, acts[0]), acts[1..]);
    }
  }

  lemma ShortLog(c: Call, p: Pipe)
    requires Inv(c, p) && p.next <= c.end
    ensures p.log < RangeLog(c.chain, c.start, c.end + 1)
  {
    LogIsPrefix(c, p);
    RangeLogGrows(c.chain, c.start, p.next, c.end + 1);
    hide RangeLog, CommitLog;
    assert |RangeLog(c.chain, c.start, p.next)| + |CommitLog(c.chain(p.next))| <= |RangeLog(c.chain, c.start, c.end + 1)|;
  }

  // ---- every proper prefix ----

  /** All up to height h is committed and nothing else has begun. */
  ghost predicate Between(c: Call, p: Pipe, h: nat) {
    && p.unsent == p.next == h && p.jobs == [] && p.results == [] && p.resultMap == map[] && p.written == 0
    && !p.jobsClosed && !p.cancelled && p.outcome.Running?
    && p.workers != [] && p.workers[0].Idle?
    && p.log == RangeLog(c.chain, c.start, h)
  }

  /** The collector has height h and has issued the first n of its writes. */
  ghost predicate Writing(c: Call, p: Pipe, h: nat, n: nat) {
    && p.unsent == h + 1 && p.next == h && p.jobs == [] && p.results == [] && p.resultMap == map[h := c.chain(h)]
    && !p.jobsClosed && !p.cancelled && p.outcome.Running?
    && p.workers != [] && p.workers[0].Idle?
    && p.written == n < |CommitLog(c.chain(h))|
    && p.log == RangeLog(c.chain, c.start, h) + CommitLog(c.chain(h))[..n]
  }

  /** A schedule and where it leads. */
  ghost predicate Leads(c: Call, workers: nat, acts: seq<Action>, p: Pipe) {
    Reachable(c, workers, acts) && After(c, workers, acts) == p
  }

  lemma OneMore(c: Call, workers: nat, acts: seq<Action>, p: Pipe, a: Action)
    requires Leads(c, workers, acts, p) && Enabled(c, p, a)
    ensures Leads(c, workers, acts + [a], Step(c, p, a))
  {
    hide Enabled, Step, Init;
    RunSnoc(c, Init(c, workers), acts, a);
  }

  /** The sender, worker 0 and the collector pass on the next height. */
  lemma FetchNext(c: Call, workers: nat, acts: seq<Action>, p: Pipe, h: nat) returns (more: seq<Action>, q: Pipe)
    requires Leads(c, workers, acts, p) && Between(c, p, h) && h <= c.end && Faultless(acts)
    ensures Leads(c, workers, more, q) && Writing(c, q, h, 0) && Faultless(more)
  {
    hide Leads, CommitLog, RangeLog;
    var p1 := Step(c, p, Send);
    var p2 := Step(c, p1, Take(0));
    var p3 := Step(c, p2, FetchOk(0));
    var p4 := Step(c, p3, Deliver(0));
    q := Step(c, p4, Receive);
    more := acts + [Send] + [Take(0)] + [FetchOk(0)] + [Deliver(0)] + [Receive];
    OneMore(c, workers, acts, p, Send);
    OneMore(c, workers, acts + [Send], p1, Take(0));
    OneMore(c, workers, acts + [Send] + [Take(0)], p2, FetchOk(0));
    OneMore(c, workers, acts + [Send] + [Take(0)] + [FetchOk(0)], p3, Deliver(0));
    OneMore(c, workers, acts + [Send] + [Take(0)] + [FetchOk(0)] + [Deliver(0)], p4, Receive);
  }

  lemma {:induction false} WriteFirst(c: Call, workers: nat, acts: seq<Action>, p: Pipe, h: nat, n: nat)
    returns (more: seq<Action>, q: Pipe)
    requires Leads(c, workers, acts, p) && Writing(c, p, h, 0) && n < |CommitLog(c.chain(h))| && Faultless(acts)
    ensures Leads(c, workers, more, q) && Writing(c, q, h, n) && Faultless(more)
    decreases n
  {
    if n == 0 {
      more, q := acts, p;
    } else {
      var before, r := WriteFirst(c, workers, acts, p, h, n - 1);
      hide Leads, RangeLog;
      more, q := before + [WriteOne], Step(c, r, WriteOne);
      OneMore(c, workers, before, r, WriteOne);
      var ws := CommitLog(c.chain(h));
      assert ws[..n] == ws[..n - 1] + [ws[n - 1]];
    }
  }

  lemma WriteAll(c: Call, workers: nat, acts: seq<Action>, p: Pipe, h: nat) returns (more: seq<Action>, q: Pipe)
    requires Leads(c, workers, acts, p) && Writing(c, p, h, 0) && c.start <= h && Faultless(acts)
    ensures Leads(c, workers, more, q) && Between(c, q, h + 1) && Faultless(more)
  {
    var ws := CommitLog(c.chain(h));
    var n := |ws| - 1;
    var before, r := WriteFirst(c, workers, acts, p, h, n);
    hide Leads;
    more, q := before + [WriteOne], Step(c, r, WriteOne);
    OneMore(c, workers, before, r, WriteOne);
    assert ws == ws[..n] + [ws[n]];
    assert RangeLog(c.chain, c.start, h + 1) == RangeLog(c.chain, c.start, h) + ws;
  }

  lemma {:induction false} Reach(c: Call, workers: nat, h: nat) returns (acts: seq<Action>, p: Pipe)
    requires workers > 0 && c.start <= h <= c.end + 1
    ensures Leads(c, workers, acts, p) && Between(c, p, h) && Faultless(acts)
    decreases h
  {
    if h == c.start {
      acts, p := [], Init(c, workers);
    } else {
      acts, p := Reach(c, workers, h - 1);
      hide *;
      acts, p := FetchNext(c, workers, acts, p, h - 1);
      acts, p := WriteAll(c, workers, acts, p, h - 1);
    }
  }

  /** Which write of which height comes at position k. */
  lemma {:induction false} Position(chain: Chain, start: nat, end: nat, k: nat) returns (h: nat, n: nat)
    requires k < |RangeLog(chain, start, end)|
    ensures start <= h < end && n < |CommitLog(chain(h))|
    ensures RangeLog(chain, start, end)[..k] == RangeLog(chain, start, h) + CommitLog(chain(h))[..n]
    decreases end
  {
    var shorter := RangeLog(chain, start, end - 1);
    if k < |shorter| {
      h, n := Position(chain, start, end - 1, k);
    } else {
      h, n := end - 1, k - |shorter|;
    }
  }

  /** A write that fails leaves exactly the writes before it, wherever it comes. */
  lemma AnyWriteMayFail(c: Call, workers: nat, k: nat) returns (acts: seq<Action>)
    requires workers > 0 && k < |RangeLog(c.chain, c.start, c.end + 1)|
    ensures Reachable(c, workers, acts) && Cancel !in acts
    ensures forall i :: 0 <= i < |acts| ==> !acts[i].FetchFail? && !acts[i].SeeCancel?
    ensures After(c, workers, acts).outcome == Returned(false)
    ensures After(c, workers, acts).log == RangeLog(c.chain, c.start, c.end + 1)[..k]
  {
    hide RangeLog, CommitLog;
    var h, n := Position(c.chain, c.start, c.end + 1, k);
    var before, p := Reach(c, workers, h);
    before, p := FetchNext(c, workers, before, p, h);
    before, p := WriteFirst(c, workers, before, p, h, n);
    acts := before + [WriteFail];
    OneMore(c, workers, before, p, WriteFail);
    NotCancelled(c, workers, before, p);
  }

  lemma NotCancelled(c: Call, workers: nat, acts: seq<Action>, p: Pipe)
    requires Leads(c, workers, acts, p) && !p.cancelled
    ensures Cancel !in acts
  {
    CancelledBy(c, Init(c, workers), acts);
  }

  /** A worker that sees the cancellation, or whose fetch fails, at any height leaves all heights below it. */
  lemma AnyFetchMayFail(c: Call, workers: nat, h: nat, cancel: bool) returns (acts: seq<Action>)
    requires workers > 0 && c.start <= h <= c.end
    ensures Reachable(c, workers, acts)
    ensures forall i :: 0 <= i < |acts| ==> !acts[i].WriteFail? && (if cancel then !acts[i].FetchFail? else !acts[i].SeeCancel?)
    ensures After(c, workers, acts).outcome == Returned(false)
    ensures After(c, workers, acts).log == RangeLog(c.chain, c.start, h)
  {
    hide RangeLog, CommitLog;
    var before, p := Reach(c, workers, h);
    hide Leads;
    var p1 := Step(c, p, Send);
    var p2 := Step(c, p1, Take(0));
    OneMore(c, workers, before, p, Send);
    OneMore(c, workers, before + [Send], p1, Take(0));
    var taken := before + [Send] + [Take(0)];
    if cancel {
      OneMore(c, workers, taken, p2, Cancel);
      var p3 := Step(c, p2, Cancel);
      OneMore(c, workers, taken + [Cancel], p3, SeeCancel(0));
      acts := Fails(c, workers, taken + [Cancel] + [SeeCancel(0)], Step(c, p3, SeeCancel(0)));
    } else {
      OneMore(c, workers, taken, p2, FetchFail(0));
      acts := Fails(c, workers, taken + [FetchFail(0)], Step(c, p2, FetchFail(0)));
    }
  }

  /** Worker 0 delivers a failure and the collector, waiting, receives it. */
  lemma Fails(c: Call, workers: nat, before: seq<Action>, p: Pipe) returns (acts: seq<Action>)
    requires Leads(c, workers, before, p)
    requires p.workers != [] && p.workers[0].Sending? && p.workers[0].result.Failed? && p.results == [] && Waiting(p)
    ensures acts == before + [Deliver(0)] + [Receive]
    ensures Reachable(c, workers, acts) && After(c, workers, acts).outcome == Returned(false)
    ensures After(c, workers, acts).log == p.log
  {
    acts := before + [Deliver(0)] + [Receive];
    var q := Step(c, p, Deliver(0));
    assert Leads(c, workers, acts, Step(c, q, Receive)) by {
      hide Leads;
      OneMore(c, workers, before, p, Deliver(0));
      OneMore(c, workers, before + [Deliver(0)], q, Receive);
    }
  }

  /** Some call that fails, cancelled or not, leaves exactly these writes. */
  ghost predicate LeftByFailure(c: Call, workers: nat, log: seq<Write>) {
    exists acts :: Reachable(c, workers, acts)
      && After(c, workers, acts).outcome == Returned(false) && After(c, workers, acts).log == log
  }

  /** The writes of failed calls are the proper prefixes of the sequential log, all of them and nothing else. */
  lemma PartialExactly(c: Call, workers: nat, log: seq<Write>)
    requires workers > 0 && c.start <= c.end
    ensures LeftByFailure(c, workers, log) <==> log < RangeLog(c.chain, c.start, c.end + 1)
  {
    var all := RangeLog(c.chain, c.start, c.end + 1);
    hide RangeLog, Step, Enabled, Inv;
    if LeftByFailure(c, workers, log) {
      var acts :| Reachable(c, workers, acts)
        && After(c, workers, acts).outcome == Returned(false) && After(c, workers, acts).log == log;
      InitInv(c, workers);
      ShortRun(c, Init(c, workers), acts);
      ShortLog(c, After(c, workers, acts));
    }
    if log < all {
      var acts := AnyWriteMayFail(c, workers, |log|);
      assert all[..|log|] == log;
    }
  }
}
