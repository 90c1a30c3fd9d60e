/** FetchRangeConcurrent as a state machine: a sender, W workers and a reordering collector
    joined by two channels of capacity W.  A schedule is any sequence of enabled actions. */
module Pipeline {
  import opened Storage

  /** What a worker hands to the collector. */
  datatype JobResult =
    | Fine(height: nat, fetched: Fetched)
    | Failed(height: nat)

  /** A worker that saw the context cancelled delivers the failure and then exits. */
  datatype Worker =
    | Idle
    | Fetching(height: nat)
    | Sending(result: JobResult, last: bool)
    | Exited(cancelled: bool)

  datatype Outcome = Running | Returned(ok: bool)

  datatype Pipe = Pipe(
    unsent: nat,                  // next height the sender offers
    jobs: seq<nat>, jobsClosed: bool,
    workers: seq<Worker>,
    results: seq<JobResult>, resultsClosed: bool,
    resultMap: map<nat, Fetched>,
    next: nat,                    // nextHeight of the collector
    written: nat,                 // writes already issued for nextHeight
    log: seq<Write>,              // every write issued so far
    cancelled: bool,
    outcome: Outcome)

  datatype Action =
    | Send | CloseJobs
    | Take(i: nat) | SeeCancel(i: nat) | FetchOk(i: nat) | FetchFail(i: nat) | Deliver(i: nat) | Exit(i: nat)
    | CloseResults
    | Receive | WriteOne | WriteFail | Finish
    | Cancel

  /** The fixed arguments of one call: the served chain and the inclusive range. */
  datatype Call = Call(chain: Chain, start: nat, end: nat)

  function Init(c: Call, numWorkers: nat): Pipe {
    Pipe(c.start, [], false, seq(numWorkers, _ => Idle), [], false, map[], c.start, 0, [], false, Running)
  }

  function HeightsSent(c: Call, p: Pipe): bool {
    p.unsent > c.end
  }

  /** The collector is between two receives: nextHeight is not in resultMap. */
  predicate Waiting(p: Pipe) {
    p.outcome.Running? && p.next !in p.resultMap
  }

  predicate Enabled(c: Call, p: Pipe, a: Action) {
    match a
    case Send => !p.jobsClosed && !HeightsSent(c, p) && |p.jobs| < |p.workers|
    case CloseJobs => !p.jobsClosed && (HeightsSent(c, p) || p.cancelled)
    case Take(i) => i < |p.workers| && p.workers[i].Idle? && p.jobs != []
    case SeeCancel(i) => i < |p.workers| && p.workers[i].Fetching? && p.cancelled
    case FetchOk(i) => i < |p.workers| && p.workers[i].Fetching?
    case FetchFail(i) => i < |p.workers| && p.workers[i].Fetching?
    case Deliver(i) => i < |p.workers| && p.workers[i].Sending? && |p.results| < |p.workers|
    case Exit(i) => i < |p.workers| && p.workers[i].Idle? && p.jobs == [] && p.jobsClosed
    case CloseResults => !p.resultsClosed && forall i :: 0 <= i < |p.workers| ==> p.workers[i].Exited?
    case Receive => Waiting(p) && p.results != []
    case WriteOne => p.outcome.Running? && p.next in p.resultMap && p.written < |CommitLog(p.resultMap[p.next])|
    case WriteFail => p.outcome.Running? && p.next in p.resultMap
    case Finish => Waiting(p) && p.results == [] && p.resultsClosed
    case Cancel => !p.cancelled
  }

  function SetWorker(p: Pipe, i: nat, w: Worker): Pipe
    requires i < |p.workers|
  {
    p.(workers := p.workers[i := w])
  }

  function Step(c: Call, p: Pipe, a: Action): Pipe
    requires Enabled(c, p, a)
  {
    match a
    case Send => p.(jobs := p.jobs + [p.unsent], unsent := p.unsent + 1)
    case CloseJobs => p.(jobsClosed := true)
    case Take(i) => SetWorker(p, i, Fetching(p.jobs[0])).(jobs := p.jobs[1..])
    case SeeCancel(i) => SetWorker(p, i, Sending(Failed(p.workers[i].height), true))
    case FetchOk(i) =>
      var h := p.workers[i].height;
      SetWorker(p, i, Sending(Fine(h, c.chain(h)), false))
    case FetchFail(i) => SetWorker(p, i, Sending(Failed(p.workers[i].height), false))
    case Deliver(i) =>
      var w := p.workers[i];
      SetWorker(p, i, if w.last then Exited(true) else Idle).(results := p.results + [w.result])
    case Exit(i) => SetWorker(p, i, Exited(false))
    case CloseResults => p.(resultsClosed := true)
    case Receive =>
      var r := p.results[0];
      if r.Failed? then p.(results := p.results[1..], outcome := Returned(false))
      else p.(results := p.results[1..], resultMap := p.resultMap[r.height := r.fetched])
    case WriteOne =>
      var ws := CommitLog(p.resultMap[p.next]);
      var q := p.(log := p.log + [ws[p.written]]);
      if p.written + 1 < |ws| then q.(written := p.written + 1)
      else q.(written := 0, next := p.next + 1, resultMap := p.resultMap - {p.next})
    case WriteFail => p.(outcome := Returned(false))
    case Finish => p.(outcome := Returned(true))
    case Cancel => p.(cancelled := true)
  }

  // ---- the invariant of every interleaving ----

  /** The next height a worker will take off the jobs channel. */
  function Taken(p: Pipe): int {
    p.unsent - |p.jobs|
  }

  predicate Holds(w: Worker) {
    w.Fetching? || w.Sending?
  }

  function Held(w: Worker): nat
    requires Holds(w)
  {
    if w.Fetching? then w.height else w.result.height
  }

  /** The jobs channel holds consecutive heights; every counter stays in the range. */
  ghost predicate InOrder(c: Call, p: Pipe) {
    && |p.workers| > 0
    && |p.jobs| <= |p.workers| && |p.results| <= |p.workers|
    && c.start <= p.next <= Taken(p) <= p.unsent
    && p.unsent <= (if c.start <= c.end then c.end + 1 else c.start)
    && (forall k :: 0 <= k < |p.jobs| ==> p.jobs[k] == Taken(p) + k)
  }

  /** Where a height is.  A slot is counted from the first result ever delivered. */
  datatype Place = Unsent | Queued(k: nat) | WithWorker(i: nat) | InSlot(k: nat) | InMap | Committed | Lost

  /** The place of each height taken but not committed, and the number of results received so far. */
  datatype Whereabouts = Whereabouts(at: map<nat, Place>, received: nat)

  /** Workers, result slots and resultMap hold only heights that are recorded to be there. */
  ghost predicate Recorded(p: Pipe, w: Whereabouts) {
    && (forall i :: 0 <= i < |p.workers| && Holds(p.workers[i]) ==> At(p, w, Held(p.workers[i]), WithWorker(i)))
    && (forall k :: 0 <= k < |p.results| ==> At(p, w, p.results[k].height, InSlot(w.received + k)))
    && (forall h :: h in p.resultMap ==> At(p, w, h, InMap))
  }

  ghost predicate At(p: Pipe, w: Whereabouts, h: nat, place: Place) {
    p.next <= h < Taken(p) && h in w.at && w.at[h] == place
  }

  /** A recorded height is found where the record says. */
  ghost predicate Found(p: Pipe, w: Whereabouts, h: nat) {
    h in w.at &&
    match w.at[h]
    case WithWorker(i) => i < |p.workers| && Holds(p.workers[i]) && Held(p.workers[i]) == h
    case InSlot(k) => w.received <= k < w.received + |p.results| && p.results[k - w.received].height == h
    case InMap => h in p.resultMap
    case Lost => p.outcome == Returned(false)
    case _ => false
  }

  ghost predicate Located(p: Pipe, w: Whereabouts) {
    && Recorded(p, w)
    && (forall h: nat :: p.next <= h < Taken(p) ==> Found(p, w, h))
  }

  /** Every result carries what the chain serves at its height. */
  ghost predicate Genuine(c: Call, p: Pipe) {
    && (forall h :: h in p.resultMap ==> p.resultMap[h] == c.chain(h))
    && (forall k :: 0 <= k < |p.results| && p.results[k].Fine? ==> p.results[k].fetched == c.chain(p.results[k].height))
    && (forall i :: 0 <= i < |p.workers| && p.workers[i].Sending? && p.workers[i].result.Fine? ==>
          p.workers[i].result.fetched == c.chain(p.workers[i].result.height))
  }

  /** The writes so far: the sequential log up to nextHeight, then the current block's first writes. */
  ghost predicate LogInOrder(c: Call, p: Pipe) {
    && (p.next !in p.resultMap ==> p.written == 0)
    && (p.next in p.resultMap ==> p.written < |CommitLog(p.resultMap[p.next])|)
    && p.log == RangeLog(c.chain, c.start, p.next)
                + (if p.next in p.resultMap then CommitLog(p.resultMap[p.next])[..p.written] else [])
  }

  /** Who may have closed what. */
  ghost predicate Closing(c: Call, p: Pipe) {
    && (p.jobsClosed ==> HeightsSent(c, p) || p.cancelled)
    && (p.resultsClosed ==> forall i :: 0 <= i < |p.workers| ==> p.workers[i].Exited?)
    && (forall i :: 0 <= i < |p.workers| && p.workers[i] == Exited(false) ==> p.jobsClosed && p.jobs == [])
    && (forall i :: 0 <= i < |p.workers| && p.workers[i] == Exited(true) && p.outcome != Returned(false) ==>
          exists k :: 0 <= k < |p.results| && p.results[k].Failed?)
    && (forall i :: 0 <= i < |p.workers| && p.workers[i].Sending? && p.workers[i].last ==> p.workers[i].result.Failed?)
  }

  ghost predicate Inv(c: Call, p: Pipe) {
    && InOrder(c, p) && Genuine(c, p) && LogInOrder(c, p) && Closing(c, p)
    && (exists w :: Located(p, w))
    && (p.outcome == Returned(true) ==>
          p.resultsClosed && p.results == [] && p.next !in p.resultMap)
  }

  lemma InitInv(c: Call, numWorkers: nat)
    requires numWorkers > 0
    ensures Inv(c, Init(c, numWorkers)) && Init(c, numWorkers).outcome.Running? && Init(c, numWorkers).log == []
  {
    assert Located(Init(c, numWorkers), Whereabouts(map[], 0));
  }

  lemma OrderStep(c: Call, p: Pipe, a: Action)
    requires InOrder(c, p) && Enabled(c, p, a)
    requires forall h :: h in p.resultMap ==> h < Taken(p)
    ensures InOrder(c, Step(c, p, a))
  {
    hide CommitLog;
    var q := Step(c, p, a);
    if a.Take? {
      assert forall k :: 0 <= k < |q.jobs| ==> q.jobs[k] == p.jobs[k + 1];
    } else if a.Send? {
      assert forall k :: 0 <= k < |p.jobs| ==> q.jobs[k] == p.jobs[k];
    } else {
      assert q.jobs == p.jobs && q.unsent == p.unsent;
    }
  }

  lemma GenuineMap(c: Call, p: Pipe, a: Action, h: nat)
    requires Genuine(c, p) && Enabled(c, p, a) && h in Step(c, p, a).resultMap
    ensures Step(c, p, a).resultMap[h] == c.chain(h)
  {
    hide CommitLog;
  }

  lemma GenuineResult(c: Call, p: Pipe, a: Action, k: nat)
    requires Genuine(c, p) && Enabled(c, p, a) && k < |Step(c, p, a).results| && Step(c, p, a).results[k].Fine?
    ensures var r := Step(c, p, a).results[k]; r.fetched == c.chain(r.height)
  {
    hide CommitLog;
    if a.Receive? {
      assert Step(c, p, a).results[k] == p.results[k + 1];
    } else {
      assert k < |p.results| ==> Step(c, p, a).results[k] == p.results[k];
    }
  }

  lemma GenuineWorker(c: Call, p: Pipe, a: Action, i: nat)
    requires Genuine(c, p) && Enabled(c, p, a) && i < |Step(c, p, a).workers|
    requires Step(c, p, a).workers[i].Sending? && Step(c, p, a).workers[i].result.Fine?
    ensures var r := Step(c, p, a).workers[i].result; r.fetched == c.chain(r.height)
  {
    hide CommitLog;
    if !ByWorker(a) || i != a.i {
      assert Step(c, p, a).workers[i] == p.workers[i];
    }
  }

  lemma GenuineStep(c: Call, p: Pipe, a: Action)
    requires Genuine(c, p) && Enabled(c, p, a)
    ensures Genuine(c, Step(c, p, a))
  {
    var q := Step(c, p, a);
    hide Step, Enabled;
    forall h | h in q.resultMap ensures q.resultMap[h] == c.chain(h) {
      GenuineMap(c, p, a, h);
    }
    forall k | 0 <= k < |q.results| && q.results[k].Fine? ensures q.results[k].fetched == c.chain(q.results[k].height) {
      GenuineResult(c, p, a, k);
    }
    forall i | 0 <= i < |q.workers| && q.workers[i].Sending? && q.workers[i].result.Fine?
      ensures q.workers[i].result.fetched == c.chain(q.workers[i].result.height)
    {
      GenuineWorker(c, p, a, i);
    }
  }

  /** How an action moves a height. */
  ghost function Move(c: Call, p: Pipe, w: Whereabouts, a: Action): Whereabouts
    requires Enabled(c, p, a)
  {
    match a
    case Take(i) => w.(at := w.at[p.jobs[0] := WithWorker(i)])
    case Deliver(i) => w.(at := w.at[p.workers[i].result.height := InSlot(w.received + |p.results|)])
    case Receive =>
      var r := p.results[0];
      Whereabouts(w.at[r.height := if r.Failed? then Lost else InMap], w.received + 1)
    case _ => w
  }

  lemma RecordedWorker(c: Call, p: Pipe, w: Whereabouts, a: Action, i: nat)
    requires InOrder(c, p) && Located(p, w) && Enabled(c, p, a)
    requires var q := Step(c, p, a); i < |q.workers| && Holds(q.workers[i])
    ensures var q := Step(c, p, a); At(q, Move(c, p, w, a), Held(q.workers[i]), WithWorker(i))
  {
    hide CommitLog;
    if a != Take(i) {
      var h := Held(Step(c, p, a).workers[i]);
      assert i < |p.workers| && Holds(p.workers[i]) && Held(p.workers[i]) == h;
      StillWithWorker(c, p, w, a, i);
    }
  }

  /** A height that a worker holds and does not hand over stays with it. */
  lemma StillWithWorker(c: Call, p: Pipe, w: Whereabouts, a: Action, i: nat)
    requires InOrder(c, p) && Located(p, w) && Enabled(c, p, a) && a != Deliver(i)
    requires i < |p.workers| && Holds(p.workers[i])
    ensures At(Step(c, p, a), Move(c, p, w, a), Held(p.workers[i]), WithWorker(i))
  {
    hide CommitLog;
    var h := Held(p.workers[i]);
    assert At(p, w, h, WithWorker(i));
    if a.WriteOne? {
      assert At(p, w, p.next, InMap);
    } else if a.Receive? {
      assert At(p, w, p.results[0].height, InSlot(w.received));
    } else if a.Deliver? {
      assert At(p, w, Held(p.workers[a.i]), WithWorker(a.i));
    }
    assert h != p.next || Step(c, p, a).next == p.next;
    hide Located, InOrder, Holds;
  }

  /** A receive moves every slot up by one. */
  lemma SlotOnReceive(c: Call, p: Pipe, w: Whereabouts, k: nat)
    requires InOrder(c, p) && Located(p, w) && Enabled(c, p, Receive) && k + 1 < |p.results|
    ensures var q, v := Step(c, p, Receive), Move(c, p, w, Receive);
            k < |q.results| && At(q, v, q.results[k].height, InSlot(v.received + k))
  {
    assert At(p, w, p.results[k + 1].height, InSlot(w.received + k + 1));
    assert At(p, w, p.results[0].height, InSlot(w.received));
  }

  /** A delivery takes the next slot. */
  lemma SlotOnDeliver(c: Call, p: Pipe, w: Whereabouts, i: nat, k: nat)
    requires InOrder(c, p) && Located(p, w) && Enabled(c, p, Deliver(i)) && k <= |p.results|
    ensures var q, v := Step(c, p, Deliver(i)), Move(c, p, w, Deliver(i));
            k < |q.results| && At(q, v, q.results[k].height, InSlot(v.received + k))
  {
    assert At(p, w, Held(p.workers[i]), WithWorker(i));
    if k < |p.results| {
      assert At(p, w, p.results[k].height, InSlot(w.received + k));
    }
  }

  lemma SlotOtherwise(c: Call, p: Pipe, w: Whereabouts, a: Action, k: nat)
    requires InOrder(c, p) && Located(p, w) && Enabled(c, p, a) && !a.Receive? && !a.Deliver? && k < |p.results|
    ensures var q, v := Step(c, p, a), Move(c, p, w, a);
            q.results == p.results && At(q, v, q.results[k].height, InSlot(v.received + k))
  {
    hide CommitLog;
    assert At(p, w, p.results[k].height, InSlot(w.received + k));
    if a.WriteOne? {
      assert At(p, w, p.next, InMap);
    }
  }

  lemma RecordedSlot(c: Call, p: Pipe, w: Whereabouts, a: Action, k: nat)
    requires InOrder(c, p) && Located(p, w) && Enabled(c, p, a)
    requires k < |Step(c, p, a).results|
    ensures var q := Step(c, p, a); var v := Move(c, p, w, a);
            At(q, v, q.results[k].height, InSlot(v.received + k))
  {
    hide CommitLog, InOrder, Located, At, Move;
    if a.Receive? {
      SlotOnReceive(c, p, w, k);
    } else if a.Deliver? {
      SlotOnDeliver(c, p, w, a.i, k);
    } else {
      SlotOtherwise(c, p, w, a, k);
    }
  }

  lemma RecordedMap(c: Call, p: Pipe, w: Whereabouts, a: Action, h: nat)
    requires InOrder(c, p) && Located(p, w) && Enabled(c, p, a)
    requires h in Step(c, p, a).resultMap
    ensures At(Step(c, p, a), Move(c, p, w, a), h, InMap)
  {
    hide CommitLog;
    if a.Receive? && h == p.results[0].height {
      assert At(p, w, h, InSlot(w.received));
    } else {
      assert At(p, w, h, InMap);
      if a.Deliver? {
        assert At(p, w, Held(p.workers[a.i]), WithWorker(a.i));
      } else if a.Receive? {
        assert At(p, w, p.results[0].height, InSlot(w.received));
      }
    }
  }

  lemma FoundWithWorker(c: Call, p: Pipe, w: Whereabouts, a: Action, i: nat)
    requires InOrder(c, p) && Located(p, w) && Enabled(c, p, a)
    requires i < |p.workers| && Holds(p.workers[i])
    ensures Found(Step(c, p, a), Move(c, p, w, a), Held(p.workers[i]))
  {
    hide CommitLog;
    var q, h := Step(c, p, a), Held(p.workers[i]);
    assert At(p, w, h, WithWorker(i));
    if a == Deliver(i) {
      assert q.results[|p.results|].height == h;
    } else {
      assert Held(q.workers[i]) == h;
      if a.Receive? {
        assert At(p, w, p.results[0].height, InSlot(w.received));
      } else if a.Deliver? {
        assert At(p, w, Held(p.workers[a.i]), WithWorker(a.i));
      }
    }
  }

  lemma FoundInSlot(c: Call, p: Pipe, w: Whereabouts, a: Action, k: nat)
    requires InOrder(c, p) && Located(p, w) && Enabled(c, p, a) && k < |p.results|
    ensures Found(Step(c, p, a), Move(c, p, w, a), p.results[k].height)
  {
    hide CommitLog;
    var q, h := Step(c, p, a), p.results[k].height;
    assert At(p, w, h, InSlot(w.received + k));
    if a.Receive? {
      if k > 0 {
        assert q.results[k - 1].height == h;
        assert At(p, w, p.results[0].height, InSlot(w.received));
      }
    } else {
      assert q.results[k].height == h;
      if a.Deliver? {
        assert At(p, w, Held(p.workers[a.i]), WithWorker(a.i));
      }
    }
  }

  /** The heights taken but not committed after an action were so before, but for the one just taken. */
  lemma StepRange(c: Call, p: Pipe, a: Action, h: nat)
    requires InOrder(c, p) && Enabled(c, p, a)
    requires var q := Step(c, p, a); q.next <= h < Taken(q)
    ensures p.next <= h && (h < Taken(p) || (a.Take? && h == p.jobs[0]))
    ensures a.WriteOne? && Step(c, p, a).next != p.next ==> h != p.next
  {
    hide CommitLog;
  }

  lemma FoundTaken(c: Call, p: Pipe, w: Whereabouts, a: Action)
    requires Enabled(c, p, a) && a.Take?
    ensures Found(Step(c, p, a), Move(c, p, w, a), p.jobs[0])
  {
    assert Held(Step(c, p, a).workers[a.i]) == p.jobs[0];
  }

  /** A height in resultMap, or lost, stays there. */
  lemma FoundElsewhere(c: Call, p: Pipe, w: Whereabouts, a: Action, h: nat)
    requires InOrder(c, p) && Located(p, w) && Enabled(c, p, a) && Found(p, w, h)
    requires !w.at[h].WithWorker? && !w.at[h].InSlot?
    requires a.WriteOne? && Step(c, p, a).next != p.next ==> h != p.next
    ensures Found(Step(c, p, a), Move(c, p, w, a), h)
  {
    hide CommitLog;
    if a.Deliver? {
      assert At(p, w, Held(p.workers[a.i]), WithWorker(a.i));
    } else if a.Receive? {
      assert At(p, w, p.results[0].height, InSlot(w.received));
    }
  }

  lemma FoundStep(c: Call, p: Pipe, w: Whereabouts, a: Action, h: nat)
    requires InOrder(c, p) && Located(p, w) && Enabled(c, p, a)
    requires var q := Step(c, p, a); q.next <= h < Taken(q)
    ensures Found(Step(c, p, a), Move(c, p, w, a), h)
  {
    StepRange(c, p, a, h);
    hide Step, Enabled, Move, InOrder;
    if h >= Taken(p) {
      FoundTaken(c, p, w, a);
    } else {
      assert Found(p, w, h);
      if w.at[h].WithWorker? {
        FoundWithWorker(c, p, w, a, w.at[h].i);
      } else if w.at[h].InSlot? {
        FoundInSlot(c, p, w, a, w.at[h].k - w.received);
      } else {
        FoundElsewhere(c, p, w, a, h);
      }
    }
  }

  lemma LocatedStep(c: Call, p: Pipe, w: Whereabouts, a: Action)
    requires InOrder(c, p) && Located(p, w) && Enabled(c, p, a)
    ensures Located(Step(c, p, a), Move(c, p, w, a))
  {
    var q, v := Step(c, p, a), Move(c, p, w, a);
    hide Step, Move, Enabled, InOrder, Found, At;
    forall i | 0 <= i < |q.workers| && Holds(q.workers[i]) ensures At(q, v, Held(q.workers[i]), WithWorker(i)) {
      RecordedWorker(c, p, w, a, i);
    }
    forall k | 0 <= k < |q.results| ensures At(q, v, q.results[k].height, InSlot(v.received + k)) {
      RecordedSlot(c, p, w, a, k);
    }
    forall h | h in q.resultMap ensures At(q, v, h, InMap) {
      RecordedMap(c, p, w, a, h);
    }
    forall h: nat | q.next <= h < Taken(q) ensures Found(q, v, h) {
      FoundStep(c, p, w, a, h);
    }
  }

  lemma LogStep(c: Call, p: Pipe, a: Action)
    requires c.start <= p.next && LogInOrder(c, p) && Enabled(c, p, a)
    requires forall h :: h in p.resultMap ==> p.resultMap[h] == c.chain(h)
    ensures LogInOrder(c, Step(c, p, a))
  {
    hide CommitLog, RangeLog;
    if a.WriteOne? {
      var ws := CommitLog(p.resultMap[p.next]);
      assert ws[..p.written] + [ws[p.written]] == ws[..p.written + 1];
      if p.written + 1 == |ws| {
        assert ws[..p.written + 1] == ws;
        LogNextHeight(c, p);
      }
    }
  }

  lemma LogNextHeight(c: Call, p: Pipe)
    requires c.start <= p.next
    ensures RangeLog(c.chain, c.start, p.next + 1) == RangeLog(c.chain, c.start, p.next) + CommitLog(c.chain(p.next))
  {
  }

  lemma ClosingStep(c: Call, p: Pipe, a: Action)
    requires Closing(c, p) && Enabled(c, p, a)
    ensures Closing(c, Step(c, p, a))
  {
    hide CommitLog;
    if ByWorker(a) {
      WorkerCloses(c, p, a);
    } else {
      var q := Step(c, p, a);
      assert q.workers == p.workers;
      if a.Receive? {
        assert forall k :: 0 < k < |p.results| ==> q.results[k - 1] == p.results[k];
      }
    }
  }

  lemma WorkerCloses(c: Call, p: Pipe, a: Action)
    requires Closing(c, p) && Enabled(c, p, a) && ByWorker(a)
    ensures Closing(c, Step(c, p, a))
  {
    var q := Step(c, p, a);
    assert forall i :: 0 <= i < |p.workers| && i != a.i ==> q.workers[i] == p.workers[i];
    assert forall k :: 0 <= k < |p.results| ==> q.results[k] == p.results[k];
    if a.Deliver? {
      assert q.results[|p.results|] == p.workers[a.i].result;
    }
  }

  lemma OutcomeStep(c: Call, p: Pipe, a: Action)
    requires Inv(c, p) && Enabled(c, p, a)
    ensures var q := Step(c, p, a);
            q.outcome == Returned(true) ==> q.resultsClosed && q.results == [] && q.next !in q.resultMap
  {
    hide Genuine, LogInOrder, Located, InOrder;
  }

  lemma MapTaken(p: Pipe, w: Whereabouts)
    requires Located(p, w)
    ensures forall h :: h in p.resultMap ==> h < Taken(p)
  {
  }

  lemma StepInv(c: Call, p: Pipe, a: Action)
    requires Inv(c, p) && Enabled(c, p, a)
    ensures Inv(c, Step(c, p, a))
  {
    OutcomeStep(c, p, a);
    hide InOrder, Genuine, LogInOrder, Closing, Located, Step, Enabled, Move;
    var w :| Located(p, w);
    MapTaken(p, w);
    OrderStep(c, p, a);
    GenuineStep(c, p, a);
    LocatedStep(c, p, w, a);
    LogStep(c, p, a);
    ClosingStep(c, p, a);
    assert Located(Step(c, p, a), Move(c, p, w, a));
  }

  // ---- schedules ----

  ghost predicate Schedule(c: Call, p: Pipe, acts: seq<Action>)
    decreases |acts|
  {
    acts != [] ==> Enabled(c, p, acts[0]) && Schedule(c, Step(c, p, acts[0]), acts[1..])
  }

  ghost function Run(c: Call, p: Pipe, acts: seq<Action>): Pipe
    requires Schedule(c, p, acts)
    decreases |acts|
  {
    if acts == [] then p else Run(c, Step(c, p, acts[0]), acts[1..])
  }

  /** The invariant holds after every schedule, and no schedule is longer than the measure of its start. */
  lemma {:induction false} RunInv(c: Call, p: Pipe, acts: seq<Action>)
    requires Inv(c, p) && Schedule(c, p, acts)
    ensures Inv(c, Run(c, p, acts))
    ensures |acts| + Measure(c, Run(c, p, acts)) <= Measure(c, p)
    decreases |acts|
  {
    if acts != [] {
      StepInv(c, p, acts[0]);
      MeasureFalls(c, p, acts[0]);
      RunInv(c, Step(c, p, acts[0]), acts[1..]);
    }
  }

  // ---- progress ----

  /** Work left with one worker. */
  function Load(w: Worker): nat {
    match w
    case Idle => 1
    case Fetching(_) => 6
    case Sending(_, _) => 5
    case Exited(_) => 0
  }

  function TotalLoad(ws: seq<Worker>): nat {
    if ws == [] then 0 else Load(ws[0]) + TotalLoad(ws[1..])
  }

  lemma {:induction false} LoadUpdate(ws: seq<Worker>, i: nat, w: Worker)
    requires i < |ws|
    ensures TotalLoad(ws[i := w]) == TotalLoad(ws) - Load(ws[i]) + Load(w)
    ensures TotalLoad(ws) >= Load(ws[i])
  {
    if i == 0 {
      assert ws[0 := w][1..] == ws[1..];
    } else {
      assert ws[i := w][1..] == ws[1..][i - 1 := w];
      LoadUpdate(ws[1..], i - 1, w);
    }
  }

  /** Steps still to come: heights weigh less the further they have moved, and writes are counted one by one. */
  ghost function Measure(c: Call, p: Pipe): int {
    7 * ((if c.start <= c.end then c.end + 1 else c.start) - p.unsent) + 6 * |p.jobs| + TotalLoad(p.workers)
    + 3 * |p.results| + 2 * |p.resultMap|
    + (|RangeLog(c.chain, c.start, c.end + 1)| - |p.log|)
    + (if p.jobsClosed then 0 else 1) + (if p.resultsClosed then 0 else 1)
    + (if p.cancelled then 0 else 1) + (if p.outcome.Running? then 1 else 0)
  }

  predicate ByWorker(a: Action) {
    a.Take? || a.SeeCancel? || a.FetchOk? || a.FetchFail? || a.Deliver? || a.Exit?
  }

  lemma WorkerMeasureFalls(c: Call, p: Pipe, a: Action)
    requires ByWorker(a) && Enabled(c, p, a)
    ensures Measure(c, Step(c, p, a)) < Measure(c, p)
  {
    hide RangeLog, TotalLoad;
    var q := Step(c, p, a);
    LoadUpdate(p.workers, a.i, q.workers[a.i]);
    assert q.workers == p.workers[a.i := q.workers[a.i]];
  }

  lemma WriteMeasureFalls(c: Call, p: Pipe)
    requires Enabled(c, p, WriteOne)
    ensures Measure(c, Step(c, p, WriteOne)) < Measure(c, p)
  {
    hide RangeLog, CommitLog, TotalLoad;
    SmallerMap(Step(c, p, WriteOne).resultMap, p.resultMap);
  }

  lemma MeasureFalls(c: Call, p: Pipe, a: Action)
    requires Enabled(c, p, a)
    ensures Measure(c, Step(c, p, a)) < Measure(c, p)
  {
    hide RangeLog, CommitLog, TotalLoad;
    if ByWorker(a) {
      WorkerMeasureFalls(c, p, a);
    } else if a.WriteOne? {
      WriteMeasureFalls(c, p);
    } else {
      RestMeasureFalls(c, p, a);
    }
  }

  lemma RestMeasureFalls(c: Call, p: Pipe, a: Action)
    requires !ByWorker(a) && a != WriteOne && Enabled(c, p, a)
    ensures Measure(c, Step(c, p, a)) < Measure(c, p)
  {
    hide RangeLog, CommitLog, TotalLoad;
  }

  lemma {:induction false} SmallerMap<K, V>(a: map<K, V>, b: map<K, V>)
    requires a.Keys <= b.Keys
    ensures |a| <= |b|
  {
    assert |b.Keys - a.Keys| == |b.Keys| - |a.Keys|;
    assert |a| == |a.Keys| && |b| == |b.Keys|;
  }

  /** In every reachable state the writes issued are a prefix of those of the sequential fetch. */
  lemma LogIsPrefix(c: Call, p: Pipe)
    requires Inv(c, p)
    ensures p.log <= RangeLog(c.chain, c.start, c.end + 1)
  {
    var w :| Located(p, w);
    if p.next in p.resultMap {
      assert At(p, w, p.next, InMap);
      LogMidCommit(c, p);
    } else if c.start <= c.end {
      RangeLogSplit(c.chain, c.start, p.next, c.end + 1);
    }
  }

  lemma LogMidCommit(c: Call, p: Pipe)
    requires LogInOrder(c, p) && p.next in p.resultMap && c.start <= p.next <= c.end
    requires p.resultMap[p.next] == c.chain(p.next)
    ensures p.log <= RangeLog(c.chain, c.start, c.end + 1)
  {
    hide RangeLog, CommitLog;
    var before, ws := RangeLog(c.chain, c.start, p.next), CommitLog(c.chain(p.next));
    RangeLogGrows(c.chain, c.start, p.next, c.end + 1);
    assert before + ws[..p.written] <= before + ws;
  }

  /** While the call is running some action other than a cancellation is enabled. */
  lemma SomeStepEnabled(c: Call, p: Pipe)
    requires Inv(c, p) && p.outcome.Running?
    ensures exists a :: a != Cancel && Enabled(c, p, a)
  {
    if p.next in p.resultMap {
      assert Enabled(c, p, WriteOne);
    } else if p.results != [] {
      assert Enabled(c, p, Receive);
    } else if i :| 0 <= i < |p.workers| && !p.workers[i].Exited? {
      match p.workers[i]
      case Fetching(_) => assert Enabled(c, p, FetchOk(i));
      case Sending(_, _) => assert Enabled(c, p, Deliver(i));
      case Idle =>
        if p.jobs != [] {
          assert Enabled(c, p, Take(i));
        } else if p.jobsClosed {
          assert Enabled(c, p, Exit(i));
        } else if HeightsSent(c, p) {
          assert Enabled(c, p, CloseJobs);
        } else {
          assert Enabled(c, p, Send);
        }
    } else if p.resultsClosed {
      assert Enabled(c, p, Finish);
    } else {
      assert Enabled(c, p, CloseResults);
    }
  }

  lemma MeasureNonNegative(c: Call, p: Pipe)
    requires Inv(c, p)
    ensures Measure(c, p) >= 0
  {
    LogIsPrefix(c, p);
  }

  // ---- main results, for every schedule of every call ----

  ghost predicate Reachable(c: Call, numWorkers: nat, acts: seq<Action>) {
    numWorkers > 0 && Schedule(c, Init(c, numWorkers), acts)
  }

  ghost function After(c: Call, numWorkers: nat, acts: seq<Action>): Pipe
    requires Reachable(c, numWorkers, acts)
  {
    Run(c, Init(c, numWorkers), acts)
  }

  /** The writes of every interleaving are those of committing start, start + 1, ... one after the
      other, up to nextHeight and possibly part of it: a prefix of what FetchRange writes. */
  lemma WritesAreSequential(c: Call, numWorkers: nat, acts: seq<Action>)
    requires Reachable(c, numWorkers, acts)
    ensures var p := After(c, numWorkers, acts);
            && p.written < |CommitLog(c.chain(p.next))|
            && p.log == RangeLog(c.chain, c.start, p.next) + CommitLog(c.chain(p.next))[..p.written]
            && p.log <= RangeLog(c.chain, c.start, c.end + 1)
  {
    var p := After(c, numWorkers, acts);
    InitInv(c, numWorkers);
    RunInv(c, Init(c, numWorkers), acts);
    LogIsPrefix(c, p);
    assert CommitLog(c.chain(p.next))[..0] == [];
  }

  /** Where height h is in state p. */
  ghost predicate Occupies(c: Call, p: Pipe, h: nat, place: Place) {
    match place
    case Unsent => p.unsent <= h <= c.end
    case Queued(k) => k < |p.jobs| && p.jobs[k] == h
    case WithWorker(i) => i < |p.workers| && Holds(p.workers[i]) && Held(p.workers[i]) == h
    case InSlot(k) => k < |p.results| && p.results[k].height == h
    case InMap => h in p.resultMap
    case Committed => c.start <= h < p.next
    case Lost => false
  }

  /** In every reachable state of a call that has not failed, each height of the range is in exactly one
      place: not yet sent, queued, with one worker, in one result slot, in resultMap, or committed. */
  lemma EachHeightInOnePlace(c: Call, numWorkers: nat, acts: seq<Action>, h: nat)
    requires Reachable(c, numWorkers, acts) && After(c, numWorkers, acts).outcome != Returned(false)
    ensures var p := After(c, numWorkers, acts);
            && (c.start <= h <= c.end <==> exists place :: Occupies(c, p, h, place))
            && (forall a, b :: Occupies(c, p, h, a) && Occupies(c, p, h, b) ==> a == b)
  {
    InitInv(c, numWorkers);
    RunInv(c, Init(c, numWorkers), acts);
    PlaceExists(c, After(c, numWorkers, acts), h);
    PlaceUnique(c, After(c, numWorkers, acts), h);
  }

  lemma PlaceExists(c: Call, p: Pipe, h: nat)
    requires Inv(c, p) && p.outcome != Returned(false)
    ensures c.start <= h <= c.end ==> exists place :: Occupies(c, p, h, place)
  {
    if c.start <= h <= c.end {
      var w :| Located(p, w);
      if h < p.next {
        assert Occupies(c, p, h, Committed);
      } else if h < Taken(p) {
        assert Found(p, w, h);
        if w.at[h].InSlot? {
          assert Occupies(c, p, h, InSlot(w.at[h].k - w.received));
        } else {
          assert Occupies(c, p, h, w.at[h]);
        }
      } else if h < p.unsent {
        assert Occupies(c, p, h, Queued(h - Taken(p)));
      } else {
        assert Occupies(c, p, h, Unsent);
      }
    }
  }

  /** The record w of a place that is neither the sender, the jobs channel nor the log. */
  lemma PlaceRecorded(c: Call, p: Pipe, w: Whereabouts, h: nat, place: Place)
    requires InOrder(c, p) && Located(p, w) && Occupies(c, p, h, place)
    ensures c.start <= h <= c.end
    ensures match place
            case Unsent => h >= p.unsent
            case Queued(k) => h == Taken(p) + k && h < p.unsent
            case Committed => h < p.next
            case InSlot(k) => At(p, w, h, InSlot(w.received + k))
            case _ => At(p, w, h, place)
  {
    match place
    case WithWorker(i) => assert At(p, w, Held(p.workers[i]), WithWorker(i));
    case InSlot(k) => assert At(p, w, p.results[k].height, InSlot(w.received + k));
    case InMap => assert At(p, w, h, InMap);
    case _ =>
  }

  lemma PlaceUnique(c: Call, p: Pipe, h: nat)
    requires Inv(c, p)
    ensures (exists place :: Occupies(c, p, h, place)) ==> c.start <= h <= c.end
    ensures forall a, b :: Occupies(c, p, h, a) && Occupies(c, p, h, b) ==> a == b
  {
    var w :| Located(p, w);
    forall a | Occupies(c, p, h, a) ensures c.start <= h <= c.end {
      PlaceRecorded(c, p, w, h, a);
    }
    forall a, b | Occupies(c, p, h, a) && Occupies(c, p, h, b) ensures a == b {
      PlaceRecorded(c, p, w, h, a);
      PlaceRecorded(c, p, w, h, b);
    }
  }

  /** No schedule deadlocks or runs for ever: a running call always has an enabled action besides being
      cancelled, and a schedule has at most Measure(Init) actions. */
  lemma EveryScheduleEnds(c: Call, numWorkers: nat, acts: seq<Action>)
    requires Reachable(c, numWorkers, acts)
    ensures var p := After(c, numWorkers, acts);
            p.outcome.Running? ==> exists a :: a != Cancel && Enabled(c, p, a)
    ensures |acts| <= Measure(c, Init(c, numWorkers))
  {
    var p := After(c, numWorkers, acts);
    InitInv(c, numWorkers);
    RunInv(c, Init(c, numWorkers), acts);
    MeasureNonNegative(c, p);
    if p.outcome.Running? {
      SomeStepEnabled(c, p);
    }
  }

  // ---- what a return means ----

  lemma NilReturnState(c: Call, p: Pipe)
    requires Inv(c, p) && p.outcome == Returned(true)
    ensures p.next == p.unsent && p.resultMap == map[] && p.jobs == []
    ensures p.log == RangeLog(c.chain, c.start, p.unsent)
    ensures !p.cancelled ==> HeightsSent(c, p)
  {
    var w :| Located(p, w);
    assert p.next < Taken(p) ==> Found(p, w, p.next);
    assert p.next == Taken(p);
    assert forall h :: h in p.resultMap ==> At(p, w, h, InMap);
    assert p.resultMap.Keys == {};
    assert p.workers[0] == Exited(false);
  }

  lemma SentAll(c: Call, p: Pipe)
    requires InOrder(c, p)
    ensures RangeLog(c.chain, c.start, p.unsent) == RangeLog(c.chain, c.start, c.end + 1) <==> p.unsent > c.end
  {
    if p.unsent <= c.end {
      RangeLogGrows(c.chain, c.start, p.unsent, c.end + 1);
    }
  }

  /** The log of a state that has returned, as the caller sees it. */
  lemma ReturnedState(c: Call, p: Pipe)
    requires Inv(c, p) && p.outcome.Returned?
    ensures p.log <= RangeLog(c.chain, c.start, c.end + 1)
    ensures c.start <= p.unsent && (p.outcome.ok ==> p.log == RangeLog(c.chain, c.start, p.unsent))
    ensures p.outcome.ok && !p.cancelled ==> p.log == RangeLog(c.chain, c.start, c.end + 1)
  {
    LogIsPrefix(c, p);
    if p.outcome.ok {
      NilReturnState(c, p);
      SentAll(c, p);
    }
  }

  /** What an error return can come from: a fetch that failed, a worker that saw the cancellation, a write that failed. */
  predicate Faulty(a: Action) {
    a.FetchFail? || a.SeeCancel? || a.WriteFail?
  }

  ghost predicate Faultless(acts: seq<Action>) {
    forall i :: 0 <= i < |acts| ==> !Faulty(acts[i])
  }

  /** No failure is on its way to the collector. */
  ghost predicate Clean(p: Pipe) {
    && p.outcome != Returned(false)
    && (forall i :: 0 <= i < |p.workers| && p.workers[i].Sending? ==> p.workers[i].result.Fine?)
    && (forall k :: 0 <= k < |p.results| ==> p.results[k].Fine?)
  }

  lemma CleanStep(c: Call, p: Pipe, a: Action)
    requires Clean(p) && Enabled(c, p, a) && !Faulty(a)
    ensures Clean(Step(c, p, a))
  {
    hide CommitLog;
    var q := Step(c, p, a);
    if ByWorker(a) {
      assert forall i :: 0 <= i < |p.workers| && i != a.i ==> q.workers[i] == p.workers[i];
    } else {
      assert q.workers == p.workers;
    }
  }

  /** A failure stays on its way until the collector has it. */
  lemma FailureStep(c: Call, p: Pipe, a: Action)
    requires Enabled(c, p, a) && (!Clean(p) || Faulty(a))
    ensures !Clean(Step(c, p, a)) || Step(c, p, a).outcome == Returned(false)
  {
    hide CommitLog;
    var q := Step(c, p, a);
    if a.FetchFail? || a.SeeCancel? {
      assert q.workers[a.i].Sending? && !q.workers[a.i].result.Fine?;
    } else if i :| 0 <= i < |p.workers| && p.workers[i].Sending? && !p.workers[i].result.Fine? {
      if a == Deliver(i) {
        assert !q.results[|p.results|].Fine?;
      } else {
        assert q.workers[i] == p.workers[i];
      }
    } else if k :| 0 <= k < |p.results| && !p.results[k].Fine? {
      if !a.Receive? {
        assert q.results[k] == p.results[k];
      } else if k > 0 {
        assert q.results[k - 1] == p.results[k];
      }
    }
  }

  lemma {:induction false} CleanRun(c: Call, p: Pipe, acts: seq<Action>)
    requires Schedule(c, p, acts)
    ensures Clean(Run(c, p, acts)) <==> Clean(p) && Faultless(acts)
    decreases |acts|
  {
    if acts != [] {
      var q := Step(c, p, acts[0]);
      if Clean(p) && !Faulty(acts[0]) {
        CleanStep(c, p, acts[0]);
      } else {
        FailureStep(c, p, acts[0]);
      }
      CleanRun(c, q, acts[1..]);
      assert forall i :: 0 < i < |acts| ==> acts[i] == acts[1..][i - 1];
      assert Faultless(acts[1..]) ==> forall i :: 0 < i < |acts| ==> !Faulty(acts[i]);
      assert Faultless(acts) ==> forall i :: 0 <= i < |acts[1..]| ==> !Faulty(acts[1..][i]);
    }
  }

  /** A call that has returned has failed if and only if a fetch failed, a worker saw a cancellation or a write failed. */
  lemma ErrorExactly(c: Call, numWorkers: nat, acts: seq<Action>)
    requires Reachable(c, numWorkers, acts) && After(c, numWorkers, acts).outcome.Returned?
    ensures After(c, numWorkers, acts).outcome == Returned(false) <==> !Faultless(acts)
  {
    var p := After(c, numWorkers, acts);
    InitInv(c, numWorkers);
    RunInv(c, Init(c, numWorkers), acts);
    CleanRun(c, Init(c, numWorkers), acts);
    if p.outcome == Returned(true) {
      assert forall i :: 0 <= i < |p.workers| ==> p.workers[i].Exited?;
    }
  }

  lemma {:induction false} CancelledBy(c: Call, p: Pipe, acts: seq<Action>)
    requires Schedule(c, p, acts)
    ensures Run(c, p, acts).cancelled <==> p.cancelled || Cancel in acts
    decreases |acts|
  {
    if acts != [] {
      CancelledBy(c, Step(c, p, acts[0]), acts[1..]);
      assert acts == [acts[0]] + acts[1..];
    }
  }

  /** When nothing fails and nothing is cancelled the call returns nil with the whole range written. */
  lemma UneventfulCall(c: Call, numWorkers: nat, acts: seq<Action>)
    requires Reachable(c, numWorkers, acts) && After(c, numWorkers, acts).outcome.Returned?
    requires Faultless(acts) && Cancel !in acts
    ensures var p := After(c, numWorkers, acts);
            p.outcome == Returned(true) && p.log == RangeLog(c.chain, c.start, c.end + 1)
  {
    ErrorExactly(c, numWorkers, acts);
    CancelledBy(c, Init(c, numWorkers), acts);
    NilReturn(c, numWorkers, acts);
  }

  /** One more action at the end of a schedule. */
  lemma {:induction false} RunSnoc(c: Call, p: Pipe, acts: seq<Action>, a: Action)
    requires Schedule(c, p, acts) && Enabled(c, Run(c, p, acts), a)
    ensures Schedule(c, p, acts + [a]) && Run(c, p, acts + [a]) == Step(c, Run(c, p, acts), a)
    decreases |acts|
  {
    if acts == [] {
      assert acts + [a] == [a] && [a][1..] == [];
      RunCons(c, p, a, [], Step(c, p, a));
    } else {
      RunSnoc(c, Step(c, p, acts[0]), acts[1..], a);
      assert (acts + [a])[1..] == acts[1..] + [a];
    }
  }

  /** A nil return has committed exactly the heights the sender handed out.  It is complete if and only
      if the sender handed out the whole range, which it always has when the call was not cancelled. */
  lemma NilReturn(c: Call, numWorkers: nat, acts: seq<Action>)
    requires Reachable(c, numWorkers, acts) && After(c, numWorkers, acts).outcome == Returned(true)
    ensures var p := After(c, numWorkers, acts);
            && p.resultMap == map[]
            && p.log == RangeLog(c.chain, c.start, p.unsent)
            && (p.log == RangeLog(c.chain, c.start, c.end + 1) <==> p.unsent > c.end)
            && (!p.cancelled ==> p.unsent > c.end)
  {
    var p := After(c, numWorkers, acts);
    InitInv(c, numWorkers);
    RunInv(c, Init(c, numWorkers), acts);
    NilReturnState(c, p);
    SentAll(c, p);
  }

  /** Cancelling before the first height is sent makes the call return nil with nothing stored. */
  lemma CancelledNilReturnStoresNothing(c: Call)
    requires c.start <= c.end
    ensures exists acts :: Reachable(c, 1, acts)
                           && After(c, 1, acts).outcome == Returned(true) && After(c, 1, acts).log == []
  {
    var p0 := Init(c, 1);
    var p1 := Step(c, p0, Cancel);
    var p2 := Step(c, p1, CloseJobs);
    var p3 := Step(c, p2, Exit(0));
    var p4 := Step(c, p3, CloseResults);
    var p5 := Step(c, p4, Finish);
    var exit, results := [Finish], [CloseResults, Finish];
    assert Run(c, p4, exit) == p5;
    assert results[1..] == exit && Run(c, p3, results) == p5;
    hide Enabled, Step;
    RunCons(c, p2, Exit(0), results, p5);
    RunCons(c, p1, CloseJobs, [Exit(0)] + results, p5);
    RunCons(c, p0, Cancel, [CloseJobs] + ([Exit(0)] + results), p5);
    var acts := [Cancel] + ([CloseJobs] + ([Exit(0)] + results));
    assert Reachable(c, 1, acts) && After(c, 1, acts) == p5;
  }

  lemma RunCons(c: Call, p: Pipe, a: Action, rest: seq<Action>, q: Pipe)
    requires Enabled(c, p, a) && Schedule(c, Step(c, p, a), rest) && Run(c, Step(c, p, a), rest) == q
    ensures Schedule(c, p, [a] + rest) && Run(c, p, [a] + rest) == q
  {
    assert ([a] + rest)[1..] == rest;
  }

  /** After an error return nothing drains the results channel: a worker that finds it full stays blocked. */
  lemma {:induction false} BlockedForever(c: Call, p: Pipe, acts: seq<Action>, i: nat)
    requires Schedule(c, p, acts) && p.outcome.Returned? && |p.results| == |p.workers|
    requires i < |p.workers| && p.workers[i].Sending?
    ensures i < |Run(c, p, acts).workers| && Run(c, p, acts).workers[i] == p.workers[i]
    decreases |acts|
  {
    if acts != [] {
      BlockedForever(c, Step(c, p, acts[0]), acts[1..], i);
    }
  }

  /** Only the collector's writes show in the log, one at a time. */
  lemma LogGrowth(c: Call, p: Pipe, a: Action)
    requires Enabled(c, p, a)
    ensures var q := Step(c, p, a);
            if a.WriteOne? then q.log != [] && q.log == p.log + [q.log[|q.log| - 1]] else q.log == p.log
  {
  }

  /** The runtime picks any enabled action of any goroutine. */
  method ChooseAction(c: Call, p: Pipe) returns (a: Action)
    requires exists b :: b != Cancel && Enabled(c, p, b)
    ensures Enabled(c, p, a)
  {
    if
    case Enabled(c, p, Send) => a := Send;
    case Enabled(c, p, CloseJobs) => a := CloseJobs;
    case i: nat :| i < |p.workers| && Enabled(c, p, Take(i)) => a := Take(i);
    case i: nat :| i < |p.workers| && Enabled(c, p, SeeCancel(i)) => a := SeeCancel(i);
    case i: nat :| i < |p.workers| && Enabled(c, p, FetchOk(i)) => a := FetchOk(i);
    case i: nat :| i < |p.workers| && Enabled(c, p, FetchFail(i)) => a := FetchFail(i);
    case i: nat :| i < |p.workers| && Enabled(c, p, Deliver(i)) => a := Deliver(i);
    case i: nat :| i < |p.workers| && Enabled(c, p, Exit(i)) => a := Exit(i);
    case Enabled(c, p, CloseResults) => a := CloseResults;
    case Enabled(c, p, Receive) => a := Receive;
    case Enabled(c, p, WriteOne) => a := WriteOne;
    case Enabled(c, p, WriteFail) => a := WriteFail;
    case Enabled(c, p, Finish) => a := Finish;
    case Enabled(c, p, Cancel) => a := Cancel;
  }
}
