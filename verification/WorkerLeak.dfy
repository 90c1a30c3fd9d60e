/** What an error return of FetchRangeConcurrent leaves running: nothing receives from the results channel any
    more, and each height still on its way needs a slot there. */
module WorkerLeak {
  import opened Common
  import opened Storage
  import opened Pipeline

  /** How many workers hold a height. */
  function Busy(ws: seq<Worker>): nat {
    if ws == [] then 0 else One(Holds(ws[0])) + Busy(ws[1..])
  }

  lemma {:induction false} BusyUpdate(ws: seq<Worker>, i: nat, w: Worker)
    requires i < |ws|
    ensures Busy(ws[i := w]) == Busy(ws) - One(Holds(ws[i])) + One(Holds(w))
    ensures Busy(ws) >= One(Holds(ws[i]))
  {
    if i == 0 {
      assert ws[0 := w][1..] == ws[1..];
    } else {
      assert ws[i := w][1..] == ws[1..][i - 1 := w];
      BusyUpdate(ws[1..], i - 1, w);
    }
  }

  lemma {:induction false} NobodyBusy(ws: seq<Worker>)
    requires forall i :: 0 <= i < |ws| ==> !Holds(ws[i])
    ensures Busy(ws) == 0
  {
    if ws != [] {
      NobodyBusy(ws[1..]);
    }
  }

  function Unsent(c: Call, p: Pipe): nat {
    if p.unsent > c.end then 0 else c.end + 1 - p.unsent
  }

  /** The heights not received yet: each of them takes a slot of the results channel. */
  function Pending(c: Call, p: Pipe): nat {
    |p.results| + Busy(p.workers) + |p.jobs| + Unsent(c, p)
  }

  function Heights(c: Call): nat {
    if c.start <= c.end then c.end + 1 - c.start else 0
  }

  /** No action but a receive changes it. */
  lemma PendingStep(c: Call, p: Pipe, a: Action)
    requires Enabled(c, p, a)
    ensures Pending(c, Step(c, p, a)) + One(a.Receive?) == Pending(c, p)
  {
    hide CommitLog, Busy;
    if ByWorker(a) {
      var q := Step(c, p, a);
      BusyUpdate(p.workers, a.i, q.workers[a.i]);
      assert q.workers == p.workers[a.i := q.workers[a.i]];
    }
  }

  /** Without a cancellation no worker gives up early. */
  ghost predicate Uncancelled(p: Pipe) {
    && !p.cancelled
    && (forall i :: 0 <= i < |p.workers| ==>
          p.workers[i] != Exited(true) && (p.workers[i].Sending? ==> !p.workers[i].last))
  }

  lemma {:induction false} PendingRun(c: Call, p: Pipe, acts: seq<Action>)
    requires Schedule(c, p, acts)
    requires p.cancelled || Uncancelled(p)
    ensures Pending(c, Run(c, p, acts)) <= Pending(c, p)
    ensures p.outcome.Returned? ==> Run(c, p, acts).outcome == p.outcome && Pending(c, Run(c, p, acts)) == Pending(c, p)
    ensures p.cancelled || Cancel in acts ==> Run(c, p, acts).cancelled
    ensures !p.cancelled && Cancel !in acts ==> Uncancelled(Run(c, p, acts))
    ensures |Run(c, p, acts).workers| == |p.workers|
    decreases |acts|
  {
    if acts != [] {
      PendingStep(c, p, acts[0]);
      OneStep(c, p, acts[0]);
      hide Pending, Uncancelled, Enabled, Step;
      PendingRun(c, Step(c, p, acts[0]), acts[1..]);
    }
  }

  lemma OneStep(c: Call, p: Pipe, a: Action)
    requires Enabled(c, p, a)
    ensures var q := Step(c, p, a);
            && |q.workers| == |p.workers| && q.cancelled == (p.cancelled || a == Cancel)
            && (p.outcome.Returned? ==> q.outcome == p.outcome && a != Receive)
            && (Uncancelled(p) && a != Cancel ==> Uncancelled(q))
  {
    hide CommitLog;
  }

  ghost predicate AllExited(p: Pipe) {
    forall i :: 0 <= i < |p.workers| ==> p.workers[i].Exited?
  }

  /** Once all have exited, every pending height sits in the results channel. */
  lemma ExitedPending(c: Call, p: Pipe)
    requires InOrder(c, p) && Closing(c, p) && Uncancelled(p) && AllExited(p)
    ensures Pending(c, p) == |p.results| <= |p.workers|
  {
    NobodyBusy(p.workers);
    assert p.workers[0] == Exited(false);
  }

  /** As long as every pending height has a slot, some goroutine can move until all workers have exited. */
  lemma SomeoneMoves(c: Call, p: Pipe)
    requires InOrder(c, p) && Uncancelled(p) && Closing(c, p) && !AllExited(p) && Pending(c, p) <= |p.workers|
    ensures exists a :: a != Cancel && a != Receive && Enabled(c, p, a)
  {
    var i :| 0 <= i < |p.workers| && !p.workers[i].Exited?;
    BusyUpdate(p.workers, i, p.workers[i]);
    match p.workers[i]
    case Fetching(_) => assert Enabled(c, p, FetchOk(i));
    case Sending(_, _) => assert Enabled(c, p, Deliver(i));
    case Idle =>
      if p.jobs != [] {
        assert Enabled(c, p, Take(i));
      } else if p.jobsClosed {
        assert Enabled(c, p, Exit(i));
      } else if HeightsSent(c, p) {
        assert Enabled(c, p, CloseJobs);
      } else {
        assert Enabled(c, p, Send);
      }
  }

  lemma {:induction false} AllCanExit(c: Call, p: Pipe)
    requires Inv(c, p) && Uncancelled(p) && p.outcome.Returned? && Pending(c, p) <= |p.workers|
    ensures exists more :: CanExit(c, p, more)
    decreases Measure(c, p)
  {
    if AllExited(p) {
      assert CanExit(c, p, []);
    } else {
      hide Measure, Step, Enabled, CanExit;
      SomeoneMoves(c, p);
      var a :| a != Cancel && a != Receive && Enabled(c, p, a);
      StepInv(c, p, a);
      OneStep(c, p, a);
      PendingStep(c, p, a);
      MeasureFalls(c, p, a);
      MeasureNonNegative(c, p);
      AllCanExit(c, Step(c, p, a));
      var rest :| CanExit(c, Step(c, p, a), rest);
      CanExitCons(c, p, a, rest);
    }
  }

  /** A continuation without a cancellation in which all workers exit. */
  ghost predicate CanExit(c: Call, p: Pipe, more: seq<Action>) {
    Cancel !in more && Schedule(c, p, more) && AllExited(Run(c, p, more))
  }

  lemma CanExitCons(c: Call, p: Pipe, a: Action, rest: seq<Action>)
    requires a != Cancel && Enabled(c, p, a) && CanExit(c, Step(c, p, a), rest)
    ensures CanExit(c, p, [a] + rest)
  {
    RunCons(c, p, a, rest, Run(c, Step(c, p, a), rest));
  }

  lemma CannotExit(c: Call, p: Pipe, more: seq<Action>)
    requires Inv(c, p) && Uncancelled(p) && p.outcome.Returned? && CanExit(c, p, more)
    ensures Pending(c, p) <= |p.workers|
  {
    RunInv(c, p, more);
    PendingRun(c, p, more);
    ExitedPending(c, Run(c, p, more));
  }

  // ---- main results ---------------------------------------------------------------------------

  /** An error return of a call that was not cancelled. */
  ghost predicate FailedReturn(c: Call, numWorkers: nat, acts: seq<Action>) {
    && Reachable(c, numWorkers, acts)
    && After(c, numWorkers, acts).outcome == Returned(false) && !After(c, numWorkers, acts).cancelled
  }

  /** What holds of a call when it has returned. */
  lemma ReturnFacts(c: Call, numWorkers: nat, acts: seq<Action>)
    requires Reachable(c, numWorkers, acts) && !After(c, numWorkers, acts).cancelled
    ensures var p := After(c, numWorkers, acts);
            Inv(c, p) && Uncancelled(p) && |p.workers| == numWorkers && Pending(c, p) <= Heights(c)
  {
    var p0 := Init(c, numWorkers);
    InitInv(c, numWorkers);
    RunInv(c, p0, acts);
    NobodyBusy(p0.workers);
    PendingRun(c, p0, acts);
  }

  /** After an error return all workers can exit if and only if the heights still on their way, wherever they are,
      are no more than the results channel holds. */
  lemma WorkersExitExactly(c: Call, numWorkers: nat, acts: seq<Action>)
    requires FailedReturn(c, numWorkers, acts)
    ensures var p := After(c, numWorkers, acts);
            (exists more :: CanExit(c, p, more)) <==> Pending(c, p) <= numWorkers
  {
    var p := After(c, numWorkers, acts);
    ReturnFacts(c, numWorkers, acts);
    if Pending(c, p) <= numWorkers {
      AllCanExit(c, p);
    } else {
      forall more | CanExit(c, p, more) ensures false {
        CannotExit(c, p, more);
      }
    }
  }

  /** And then they do exit, whatever the schedule: it cannot get stuck before. */
  lemma NoneStuck(c: Call, numWorkers: nat, acts: seq<Action>, more: seq<Action>)
    requires FailedReturn(c, numWorkers, acts) && Pending(c, After(c, numWorkers, acts)) <= numWorkers
    requires Cancel !in more && Schedule(c, After(c, numWorkers, acts), more)
    ensures var q := Run(c, After(c, numWorkers, acts), more);
            AllExited(q) || exists a :: a != Cancel && Enabled(c, q, a)
  {
    var p := After(c, numWorkers, acts);
    ReturnFacts(c, numWorkers, acts);
    RunInv(c, p, more);
    PendingRun(c, p, more);
    var q := Run(c, p, more);
    if !AllExited(q) {
      SomeoneMoves(c, q);
    }
  }

  ghost predicate Untouched(p: Pipe) {
    p.resultMap == map[] && p.outcome != Returned(false)
  }

  /** A call fails no earlier than it has received a result. */
  lemma {:induction false} FailsAfterReceive(c: Call, p: Pipe, acts: seq<Action>)
    requires Schedule(c, p, acts) && Untouched(p)
    ensures Untouched(Run(c, p, acts)) || Pending(c, Run(c, p, acts)) < Pending(c, p)
    decreases |acts|
  {
    if acts != [] {
      var q := Step(c, p, acts[0]);
      PendingStep(c, p, acts[0]);
      if acts[0].Receive? {
        PendingFalls(c, q, acts[1..]);
      } else {
        assert Untouched(q);
        FailsAfterReceive(c, q, acts[1..]);
      }
    }
  }

  lemma {:induction false} PendingFalls(c: Call, p: Pipe, acts: seq<Action>)
    requires Schedule(c, p, acts)
    ensures Pending(c, Run(c, p, acts)) <= Pending(c, p)
    decreases |acts|
  {
    if acts != [] {
      PendingStep(c, p, acts[0]);
      PendingFalls(c, Step(c, p, acts[0]), acts[1..]);
    }
  }

  /** The first height fails before a second one is fetched. */
  lemma FirstFails(c: Call, numWorkers: nat) returns (acts: seq<Action>)
    requires numWorkers > 0 && c.start <= c.end
    ensures FailedReturn(c, numWorkers, acts)
    ensures Pending(c, After(c, numWorkers, acts)) == Heights(c) - 1
  {
    var p0 := Init(c, numWorkers);
    var p1 := Step(c, p0, Send);
    var p2 := Step(c, p1, Take(0));
    var p3 := Step(c, p2, FetchFail(0));
    var p4 := Step(c, p3, Deliver(0));
    var p5 := Step(c, p4, Receive);
    NobodyBusy(p0.workers);
    PendingStep(c, p0, Send);
    PendingStep(c, p1, Take(0));
    PendingStep(c, p2, FetchFail(0));
    PendingStep(c, p3, Deliver(0));
    PendingStep(c, p4, Receive);
    assert Pending(c, p0) == Heights(c);
    assert p5.outcome == Returned(false) && !p5.cancelled;
    assert Run(c, p5, []) == p5;
    hide Enabled, Step, Pending;
    RunCons(c, p4, Receive, [], p5);
    RunCons(c, p3, Deliver(0), [Receive] + [], p5);
    RunCons(c, p2, FetchFail(0), [Deliver(0)] + ([Receive] + []), p5);
    RunCons(c, p1, Take(0), [FetchFail(0)] + ([Deliver(0)] + ([Receive] + [])), p5);
    RunCons(c, p0, Send, [Take(0)] + ([FetchFail(0)] + ([Deliver(0)] + ([Receive] + []))), p5);
    acts := [Send] + ([Take(0)] + ([FetchFail(0)] + ([Deliver(0)] + ([Receive] + []))));
  }

  ghost predicate Leaks(c: Call, numWorkers: nat, acts: seq<Action>) {
    FailedReturn(c, numWorkers, acts) && forall more :: !CanExit(c, After(c, numWorkers, acts), more)
  }

  /** A call can leave workers behind for ever if and only if it asks for at least two heights more than it has
      workers; in particular a range of at most numWorkers heights never does. */
  lemma LeakExactly(c: Call, numWorkers: nat)
    requires numWorkers > 0
    ensures (exists acts :: Leaks(c, numWorkers, acts)) <==> Heights(c) >= numWorkers + 2
  {
    forall acts | Leaks(c, numWorkers, acts) ensures Heights(c) >= numWorkers + 2 {
      WorkersExitExactly(c, numWorkers, acts);
      NobodyBusy(Init(c, numWorkers).workers);
      FailsAfterReceive(c, Init(c, numWorkers), acts);
    }
    if Heights(c) >= numWorkers + 2 {
      var acts := FirstFails(c, numWorkers);
      WorkersExitExactly(c, numWorkers, acts);
      assert Leaks(c, numWorkers, acts);
    }
  }

  /** One worker, with the given results in the channel, after an error return. */
  function Failed(unsent: nat, worker: Worker, results: seq<JobResult>, next: nat): Pipe {
    Pipe(unsent, [], false, [worker], results, false, map[], next, 0, [], false, Returned(false))
  }

  /** The worker fetches one more height. */
  lemma FetchNext(c: Call, h: nat, results: seq<JobResult>, rest: seq<Action>, q: Pipe) returns (acts: seq<Action>)
    requires h <= c.end
    requires var p := Failed(h + 1, Sending(Fine(h, c.chain(h)), false), results, c.start);
             Schedule(c, p, rest) && Run(c, p, rest) == q
    ensures Cancel !in rest ==> Cancel !in acts
    ensures Schedule(c, Failed(h, Idle, results, c.start), acts) && Run(c, Failed(h, Idle, results, c.start), acts) == q
  {
    var p0 := Failed(h, Idle, results, c.start);
    var p1 := Step(c, p0, Send);
    var p2 := Step(c, p1, Take(0));
    assert Step(c, p2, FetchOk(0)) == Failed(h + 1, Sending(Fine(h, c.chain(h)), false), results, c.start);
    hide Enabled, Step;
    RunCons(c, p2, FetchOk(0), rest, q);
    RunCons(c, p1, Take(0), [FetchOk(0)] + rest, q);
    RunCons(c, p0, Send, [Take(0)] + ([FetchOk(0)] + rest), q);
    acts := [Send] + ([Take(0)] + ([FetchOk(0)] + rest));
  }

  lemma FailFirst(c: Call, rest: seq<Action>, q: Pipe) returns (acts: seq<Action>)
    requires c.start <= c.end
    requires Schedule(c, Failed(c.start + 1, Idle, [], c.start), rest) && Run(c, Failed(c.start + 1, Idle, [], c.start), rest) == q
    ensures Reachable(c, 1, acts) && After(c, 1, acts) == q
  {
    var p0 := Init(c, 1);
    var p1 := Step(c, p0, Send);
    var p2 := Step(c, p1, Take(0));
    var p3 := Step(c, p2, FetchFail(0));
    var p4 := Step(c, p3, Deliver(0));
    assert Step(c, p4, Receive) == Failed(c.start + 1, Idle, [], c.start);
    hide Enabled, Step;
    RunCons(c, p4, Receive, rest, q);
    RunCons(c, p3, Deliver(0), [Receive] + rest, q);
    RunCons(c, p2, FetchFail(0), [Deliver(0)] + ([Receive] + rest), q);
    RunCons(c, p1, Take(0), [FetchFail(0)] + ([Deliver(0)] + ([Receive] + rest)), q);
    RunCons(c, p0, Send, [Take(0)] + ([FetchFail(0)] + ([Deliver(0)] + ([Receive] + rest))), q);
    acts := [Send] + ([Take(0)] + ([FetchFail(0)] + ([Deliver(0)] + ([Receive] + rest))));
  }

  /** One worker, three heights: the first fails, the second fills the results channel, and the worker can never
      hand over the third. */
  lemma BlockedRun(c: Call) returns (acts: seq<Action>)
    requires c.start + 2 <= c.end
    ensures FailedReturn(c, 1, acts)
    ensures var p := After(c, 1, acts); |p.results| == |p.workers| == 1 && p.workers[0].Sending?
    ensures forall more :: Schedule(c, After(c, 1, acts), more) ==>
              Run(c, After(c, 1, acts), more).workers == After(c, 1, acts).workers
  {
    var h, g := c.start + 1, c.start + 2;
    var r := Fine(h, c.chain(h));
    var stuck := Failed(g + 1, Sending(Fine(g, c.chain(g)), false), [r], c.start);
    var second := FetchNext(c, g, [r], [], stuck);
    var sending := Failed(g, Sending(r, false), [], c.start);
    assert Step(c, sending, Deliver(0)) == Failed(g, Idle, [r], c.start);
    RunCons(c, sending, Deliver(0), second, stuck);
    var first := FetchNext(c, h, [], [Deliver(0)] + second, stuck);
    acts := FailFirst(c, first, stuck);
    hide Enabled, Step;
    forall more | Schedule(c, stuck, more) ensures Run(c, stuck, more).workers == stuck.workers {
      BlockedForever(c, stuck, more, 0);
      WorkersKept(c, stuck, more);
    }
  }

  lemma {:induction false} WorkersKept(c: Call, p: Pipe, acts: seq<Action>)
    requires Schedule(c, p, acts)
    ensures |Run(c, p, acts).workers| == |p.workers|
    decreases |acts|
  {
    if acts != [] {
      OneStep(c, p, acts[0]);
      WorkersKept(c, Step(c, p, acts[0]), acts[1..]);
    }
  }
}
