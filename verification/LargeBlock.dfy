/** The receipt pool of the large-block processor: one producer pushes batches into a buffered
    channel, W workers process them, and errors go to a second buffered channel. */
module LargeBlock {
  import opened Common

  datatype Batch = Batch(start: nat, end: nat)

  datatype Worker =
    | Idle
    | Working(batch: Batch, at: nat)   // receipts batch.start .. at - 1 are done
    | Erring                           // about to send an error
    | Exited(failed: bool)

  datatype Pool = Pool(
    sent: nat, pushes: nat, closed: bool,   // receipts offered, batches offered
    jobs: seq<Batch>,
    workers: seq<Worker>,
    errors: nat,                            // length of the errors channel
    processed: seq<nat>,                    // indices of the receipts stored, in order
    cancelled: bool)

  /** Receipts in the block, receipts per batch, and the cap on workers. */
  datatype AnySizes = Sizes(n: nat, batchSize: nat, maxWorkers: nat)

  type Sizes = z: AnySizes | z.n > 0 && z.batchSize > 0 && z.maxWorkers > 0 witness Sizes(1, 1, 1)

  function NumBatches(z: Sizes): nat {
    (z.n + z.batchSize - 1) / z.batchSize
  }

  function NumWorkers(z: Sizes): nat {
    if NumBatches(z) < z.maxWorkers then NumBatches(z) else z.maxWorkers
  }

  datatype Action =
    | Push | CloseJobs
    | Take(i: nat) | SeeCancel(i: nat) | Process(i: nat) | Fail(i: nat) | EndBatch(i: nat) | SendError(i: nat) | Exit(i: nat)
    | Cancel

  function Init(z: Sizes): Pool {
    Pool(0, 0, false, [], seq(NumWorkers(z), _ => Idle), 0, [], false)
  }

  function NextEnd(z: Sizes, p: Pool): nat {
    if p.sent + z.batchSize > z.n then z.n else p.sent + z.batchSize
  }

  predicate Enabled(z: Sizes, p: Pool, a: Action) {
    match a
    case Push => !p.closed && p.sent < z.n && |p.jobs| < NumBatches(z)
    case CloseJobs => !p.closed && p.sent >= z.n
    case Take(i) => i < |p.workers| && p.workers[i].Idle? && p.jobs != []
    case SeeCancel(i) => i < |p.workers| && p.workers[i].Working? && p.cancelled
    case Process(i) => i < |p.workers| && p.workers[i].Working? && p.workers[i].at < p.workers[i].batch.end
    case Fail(i) => i < |p.workers| && p.workers[i].Working? && p.workers[i].at < p.workers[i].batch.end
    case EndBatch(i) => i < |p.workers| && p.workers[i].Working? && p.workers[i].at >= p.workers[i].batch.end
    case SendError(i) => i < |p.workers| && p.workers[i].Erring? && p.errors < NumBatches(z)
    case Exit(i) => i < |p.workers| && p.workers[i].Idle? && p.jobs == [] && p.closed
    case Cancel => !p.cancelled
  }

  function Step(z: Sizes, p: Pool, a: Action): Pool
    requires Enabled(z, p, a)
  {
    match a
    case Push => p.(jobs := p.jobs + [Batch(p.sent, NextEnd(z, p))], sent := NextEnd(z, p), pushes := p.pushes + 1)
    case CloseJobs => p.(closed := true)
    case Take(i) => p.(jobs := p.jobs[1..], workers := p.workers[i := Working(p.jobs[0], p.jobs[0].start)])
    case SeeCancel(i) => p.(workers := p.workers[i := Erring])
    case Process(i) =>
      var w := p.workers[i];
      p.(workers := p.workers[i := w.(at := w.at + 1)], processed := p.processed + [w.at])
    case Fail(i) => p.(workers := p.workers[i := Erring])
    case EndBatch(i) => p.(workers := p.workers[i := Idle])
    case SendError(i) => p.(workers := p.workers[i := Exited(true)], errors := p.errors + 1)
    case Exit(i) => p.(workers := p.workers[i := Exited(false)])
    case Cancel => p.(cancelled := true)
  }

  /** wg.Wait has returned. */
  predicate Done(p: Pool) {
    p.closed && forall i :: 0 <= i < |p.workers| ==> p.workers[i].Exited?
  }

  // ---- invariants ----

  /** The first receipt no worker has taken yet. */
  function Taken(p: Pool): nat {
    if p.jobs == [] then p.sent else p.jobs[0].start
  }

  ghost predicate InOrder(z: Sizes, p: Pool) {
    && |p.workers| == NumWorkers(z)
    && |p.jobs| <= p.pushes
    && p.sent == Offered(z, p.pushes)
    && (p.closed ==> p.sent >= z.n)
    && Taken(p) <= p.sent <= z.n
    && Chained(p.jobs, p.sent)
  }

  /** How many receipts the first k batches hold. */
  function Offered(z: Sizes, k: nat): nat {
    if k * z.batchSize > z.n then z.n else k * z.batchSize
  }

  lemma OfferedNext(z: Sizes, k: nat)
    requires Offered(z, k) < z.n
    ensures Offered(z, k + 1) == if Offered(z, k) + z.batchSize > z.n then z.n else Offered(z, k) + z.batchSize
  {
    assert (k + 1) * z.batchSize == k * z.batchSize + z.batchSize;
  }

  /** Where the batch after k starts, or sent after the last one. */
  function NextStart(jobs: seq<Batch>, k: nat, sent: nat): nat {
    if k + 1 < |jobs| then jobs[k + 1].start else sent
  }

  /** Each batch ends where the next one starts, and the last one at sent. */
  ghost predicate Chained(jobs: seq<Batch>, sent: nat) {
    forall k :: 0 <= k < |jobs| ==> jobs[k].start < jobs[k].end <= sent && jobs[k].end == NextStart(jobs, k, sent)
  }

  lemma ChainedPush(jobs: seq<Batch>, sent: nat, end: nat)
    requires Chained(jobs, sent) && sent < end
    ensures Chained(jobs + [Batch(sent, end)], end)
  {
    var more := jobs + [Batch(sent, end)];
    forall k | 0 <= k < |jobs| ensures NextStart(more, k, end) == NextStart(jobs, k, sent) {
    }
    assert forall k :: 0 <= k < |jobs| ==> more[k] == jobs[k];
  }

  lemma ChainedPop(jobs: seq<Batch>, sent: nat)
    requires Chained(jobs, sent) && jobs != []
    ensures Chained(jobs[1..], sent)
    ensures jobs[0].start < jobs[0].end == (if jobs[1..] == [] then sent else jobs[1..][0].start)
    ensures jobs[0].end <= sent
  {
    var rest := jobs[1..];
    assert jobs[0].end == NextStart(jobs, 0, sent);
    forall k | 0 <= k < |rest| ensures NextStart(rest, k, sent) == NextStart(jobs, k + 1, sent) {
    }
    assert forall k :: 0 <= k < |rest| ==> rest[k] == jobs[k + 1];
  }

  function Failures(ws: seq<Worker>): nat {
    if ws == [] then 0 else (if ws[0] == Exited(true) then 1 else 0) + Failures(ws[1..])
  }

  /** Where a receipt taken off the channel is. */
  datatype Place = WithWorker(i: nat) | Stored(k: nat) | Lost

  /** The worker holds receipt x and has not stored it yet. */
  ghost predicate Owns(w: Worker, x: nat) {
    w.Working? && w.at <= x < w.batch.end
  }

  ghost predicate IsAt(p: Pool, at: map<nat, Place>, x: nat, place: Place) {
    x < Taken(p) && x in at && at[x] == place
  }

  ghost predicate Recorded(p: Pool, at: map<nat, Place>) {
    && (forall i, x :: 0 <= i < |p.workers| && Owns(p.workers[i], x) ==> IsAt(p, at, x, WithWorker(i)))
    && (forall k :: 0 <= k < |p.processed| ==> IsAt(p, at, p.processed[k], Stored(k)))
  }

  ghost predicate SomeFailure(p: Pool) {
    exists i :: 0 <= i < |p.workers| && (p.workers[i].Erring? || p.workers[i] == Exited(true))
  }

  ghost predicate Found(p: Pool, at: map<nat, Place>, x: nat) {
    x in at &&
    match at[x]
    case WithWorker(i) => i < |p.workers| && Owns(p.workers[i], x)
    case Stored(k) => k < |p.processed| && p.processed[k] == x
    case Lost => SomeFailure(p)
  }

  ghost predicate Located(p: Pool, at: map<nat, Place>) {
    Recorded(p, at) && forall x: nat :: x < Taken(p) ==> Found(p, at, x)
  }

  ghost predicate Exits(p: Pool) {
    && (forall i :: 0 <= i < |p.workers| && p.workers[i] == Exited(false) ==> p.closed && p.jobs == [])
    && (forall i :: 0 <= i < |p.workers| && p.workers[i].Working? ==> p.workers[i].at <= p.workers[i].batch.end)
    && p.errors == Failures(p.workers)
  }

  ghost predicate Inv(z: Sizes, p: Pool) {
    InOrder(z, p) && Exits(p) && exists at :: Located(p, at)
  }

  lemma MulMonotone(a: nat, b: nat, m: nat)
    requires a <= b
    ensures a * m <= b * m
  {
  }

  lemma BatchesSuffice(k: nat, z: Sizes)
    ensures k * z.batchSize < z.n ==> k < NumBatches(z)
  {
    if k * z.batchSize < z.n {
      var x := z.n + z.batchSize - 1;
      assert x >= (k + 1) * z.batchSize;
      assert x == NumBatches(z) * z.batchSize + x % z.batchSize;
      if NumBatches(z) <= k {
        MulMonotone(NumBatches(z), k, z.batchSize);
      }
    }
  }

  lemma {:induction false} FailuresUpdate(ws: seq<Worker>, i: nat, w: Worker)
    requires i < |ws|
    ensures Failures(ws[i := w]) + (if ws[i] == Exited(true) then 1 else 0)
            == Failures(ws) + (if w == Exited(true) then 1 else 0)
    ensures Failures(ws) <= |ws|
    ensures ws[i] != Exited(true) ==> Failures(ws) < |ws|
  {
    if i == 0 {
      assert ws[0 := w][1..] == ws[1..];
      if |ws| > 1 {
        FailuresUpdate(ws[1..], 0, w);
      }
    } else {
      assert ws[i := w][1..] == ws[1..][i - 1 := w];
      FailuresUpdate(ws[1..], i - 1, w);
    }
  }

  lemma {:induction false} NoFailuresAtStart(n: nat)
    ensures Failures(seq(n, _ => Idle)) == 0
  {
    if n > 0 {
      assert seq(n, _ => Idle)[1..] == seq(n - 1, _ => Idle);
      NoFailuresAtStart(n - 1);
    }
  }

  lemma InitInv(z: Sizes)
    ensures Inv(z, Init(z))
  {
    NoFailuresAtStart(NumWorkers(z));
    assert Located(Init(z), map[]);
  }

  lemma TakeHead(z: Sizes, p: Pool, i: nat)
    requires InOrder(z, p) && Enabled(z, p, Take(i))
    ensures var q := Step(z, p, Take(i));
            && InOrder(z, q)
            && Taken(p) < Taken(q) == p.jobs[0].end
  {
    hide Offered;
    ChainedPop(p.jobs, p.sent);
    hide Chained;
  }

  lemma PushTail(z: Sizes, p: Pool)
    requires InOrder(z, p) && Enabled(z, p, Push)
    ensures var q := Step(z, p, Push); InOrder(z, q) && Taken(p) == Taken(q)
  {
    OfferedNext(z, p.pushes);
    ChainedPush(p.jobs, p.sent, NextEnd(z, p));
    hide Offered, Chained;
  }

  lemma OrderStep(z: Sizes, p: Pool, a: Action)
    requires InOrder(z, p) && Enabled(z, p, a)
    ensures InOrder(z, Step(z, p, a))
    ensures Taken(p) <= Taken(Step(z, p, a))
  {
    if a.Push? {
      PushTail(z, p);
    } else if a.Take? {
      TakeHead(z, p, a.i);
    } else {
      hide Offered, Chained;
    }
  }

  lemma ExitsStep(z: Sizes, p: Pool, a: Action)
    requires Exits(p) && InOrder(z, p) && Enabled(z, p, a)
    ensures Exits(Step(z, p, a))
  {
    var q := Step(z, p, a);
    if !a.Push? && !a.CloseJobs? && !a.Cancel? {
      FailuresUpdate(p.workers, a.i, q.workers[a.i]);
      assert q.workers == p.workers[a.i := q.workers[a.i]];
    }
  }

  /** The same place for every receipt from lo to hi - 1. */
  ghost function Spread(lo: nat, hi: nat, place: Place): (m: map<nat, Place>)
    ensures forall x :: x in m <==> lo <= x < hi
    ensures forall x :: x in m ==> m[x] == place
    decreases hi
  {
    if hi <= lo then map[] else Spread(lo, hi - 1, place)[hi - 1 := place]
  }

  ghost function Move(z: Sizes, p: Pool, at: map<nat, Place>, a: Action): map<nat, Place>
    requires Enabled(z, p, a)
  {
    match a
    case Take(i) => at + Spread(p.jobs[0].start, p.jobs[0].end, WithWorker(i))
    case Process(i) => at[p.workers[i].at := Stored(|p.processed|)]
    case Fail(i) => at + Spread(p.workers[i].at, p.workers[i].batch.end, Lost)
    case SeeCancel(i) => at + Spread(p.workers[i].at, p.workers[i].batch.end, Lost)
    case _ => at
  }

  lemma OwnedStep(z: Sizes, p: Pool, at: map<nat, Place>, a: Action, i: nat, x: nat)
    requires InOrder(z, p) && Located(p, at) && Enabled(z, p, a)
    requires i < |p.workers| && Owns(Step(z, p, a).workers[i], x)
    ensures IsAt(Step(z, p, a), Move(z, p, at, a), x, WithWorker(i))
  {
    OrderStep(z, p, a);
    if a == Take(i) {
      TakeHead(z, p, i);
    } else {
      assert Owns(p.workers[i], x) && IsAt(p, at, x, WithWorker(i));
      if a.Process? {
        assert Owns(p.workers[a.i], p.workers[a.i].at);
      } else if a.Fail? || a.SeeCancel? {
        assert Owns(p.workers[a.i], x) ==> IsAt(p, at, x, WithWorker(a.i));
      }
    }
  }

  lemma StoredStep(z: Sizes, p: Pool, at: map<nat, Place>, a: Action, k: nat)
    requires InOrder(z, p) && Located(p, at) && Enabled(z, p, a)
    requires k < |Step(z, p, a).processed|
    ensures IsAt(Step(z, p, a), Move(z, p, at, a), Step(z, p, a).processed[k], Stored(k))
  {
    OrderStep(z, p, a);
    if a.Process? && k == |p.processed| {
      var x := p.workers[a.i].at;
      assert Owns(p.workers[a.i], x) && IsAt(p, at, x, WithWorker(a.i));
    } else {
      var x := p.processed[k];
      assert IsAt(p, at, x, Stored(k));
      if a.Process? {
        var y := p.workers[a.i].at;
        assert Owns(p.workers[a.i], y) && IsAt(p, at, y, WithWorker(a.i));
      } else if a.Fail? || a.SeeCancel? {
        assert Owns(p.workers[a.i], x) ==> IsAt(p, at, x, WithWorker(a.i));
      }
    }
  }

  lemma FoundStep(z: Sizes, p: Pool, at: map<nat, Place>, a: Action, x: nat)
    requires InOrder(z, p) && Located(p, at) && Enabled(z, p, a)
    requires x < Taken(Step(z, p, a))
    ensures Found(Step(z, p, a), Move(z, p, at, a), x)
  {
    hide Offered, Failures;
    var q := Step(z, p, a);
    if a.Take? && x >= Taken(p) {
      TakeHead(z, p, a.i);
      assert Owns(q.workers[a.i], x);
    } else {
      assert x < Taken(p);
      assert Found(p, at, x);
      if a.Fail? || a.SeeCancel? {
        assert q.workers[a.i].Erring?;
        assert SomeFailure(q);
      } else if at[x].Lost? {
        var i :| 0 <= i < |p.workers| && (p.workers[i].Erring? || p.workers[i] == Exited(true));
        assert q.workers[i].Erring? || q.workers[i] == Exited(true);
      }
    }
  }

  lemma LocatedStep(z: Sizes, p: Pool, at: map<nat, Place>, a: Action)
    requires InOrder(z, p) && Located(p, at) && Enabled(z, p, a)
    ensures Located(Step(z, p, a), Move(z, p, at, a))
  {
    var q, v := Step(z, p, a), Move(z, p, at, a);
    assert |q.workers| == |p.workers|;
    hide Step, Move, Enabled, InOrder, Owns, IsAt, Found;
    forall i, x | 0 <= i < |q.workers| && Owns(q.workers[i], x) ensures IsAt(q, v, x, WithWorker(i)) {
      OwnedStep(z, p, at, a, i, x);
    }
    forall k | 0 <= k < |q.processed| ensures IsAt(q, v, q.processed[k], Stored(k)) {
      StoredStep(z, p, at, a, k);
    }
    forall x: nat | x < Taken(q) ensures Found(q, v, x) {
      FoundStep(z, p, at, a, x);
    }
  }

  lemma StepInv(z: Sizes, p: Pool, a: Action)
    requires Inv(z, p) && Enabled(z, p, a)
    ensures Inv(z, Step(z, p, a))
  {
    var at :| Located(p, at);
    OrderStep(z, p, a);
    ExitsStep(z, p, a);
    LocatedStep(z, p, at, a);
  }

  // ---- schedules ----

  ghost predicate Schedule(z: Sizes, p: Pool, acts: seq<Action>)
    decreases |acts|
  {
    acts != [] ==> Enabled(z, p, acts[0]) && Schedule(z, Step(z, p, acts[0]), acts[1..])
  }

  ghost function Run(z: Sizes, p: Pool, acts: seq<Action>): Pool
    requires Schedule(z, p, acts)
    decreases |acts|
  {
    if acts == [] then p else Run(z, Step(z, p, acts[0]), acts[1..])
  }

  /** Work left with one worker. */
  function Load(w: Worker): nat {
    match w
    case Idle => 1
    case Working(b, at) => if at < b.end then 3 + 2 * (b.end - at) else 3
    case Erring => 2
    case Exited(_) => 0
  }

  function TotalLoad(ws: seq<Worker>): nat {
    if ws == [] then 0 else Load(ws[0]) + TotalLoad(ws[1..])
  }

  lemma {:induction false} LoadUpdate(ws: seq<Worker>, i: nat, w: Worker)
    requires i < |ws|
    ensures TotalLoad(ws[i := w]) == TotalLoad(ws) - Load(ws[i]) + Load(w)
  {
    if i == 0 {
      assert ws[0 := w][1..] == ws[1..];
    } else {
      assert ws[i := w][1..] == ws[1..][i - 1 := w];
      LoadUpdate(ws[1..], i - 1, w);
    }
  }

  /** Steps still to come: each receipt not yet taken weighs six, a taken one two. */
  ghost function Measure(z: Sizes, p: Pool): int {
    6 * (z.n - Taken(p)) + (z.n - p.sent) + TotalLoad(p.workers)
    + (if p.closed then 0 else 1) + (if p.cancelled then 0 else 1)
  }

  lemma MeasureFalls(z: Sizes, p: Pool, a: Action)
    requires InOrder(z, p) && Enabled(z, p, a)
    ensures Measure(z, Step(z, p, a)) < Measure(z, p)
  {
    var q := Step(z, p, a);
    if a.Push? || a.CloseJobs? || a.Cancel? {
      assert a.Push? && p.jobs != [] ==> q.jobs[0] == p.jobs[0];
    } else {
      hide TotalLoad;
      LoadUpdate(p.workers, a.i, q.workers[a.i]);
      assert q.workers == p.workers[a.i := q.workers[a.i]];
      if a.Take? {
        TakeHead(z, p, a.i);
      }
    }
  }

  lemma {:induction false} RunInv(z: Sizes, p: Pool, acts: seq<Action>)
    requires Inv(z, p) && Schedule(z, p, acts)
    ensures Inv(z, Run(z, p, acts))
    ensures |acts| + Measure(z, Run(z, p, acts)) <= Measure(z, p)
    decreases |acts|
  {
    if acts != [] {
      StepInv(z, p, acts[0]);
      MeasureFalls(z, p, acts[0]);
      RunInv(z, Step(z, p, acts[0]), acts[1..]);
    }
  }

  // ---- main results ----

  ghost predicate Reachable(z: Sizes, acts: seq<Action>) {
    Schedule(z, Init(z), acts)
  }

  /** No send blocks: there is always room for the next batch, and for the error of every worker that has one. */
  lemma RoomForEverySend(z: Sizes, p: Pool)
    requires Inv(z, p)
    ensures !p.closed && p.sent < z.n ==> Enabled(z, p, Push)
    ensures forall i :: 0 <= i < |p.workers| && p.workers[i].Erring? ==> Enabled(z, p, SendError(i))
  {
    if p.sent < z.n {
      BatchesSuffice(p.pushes, z);
    }
    forall i | 0 <= i < |p.workers| && p.workers[i].Erring? ensures Enabled(z, p, SendError(i)) {
      FailuresUpdate(p.workers, i, Idle);
    }
  }

  lemma NoSendBlocks(z: Sizes, acts: seq<Action>)
    requires Reachable(z, acts)
    ensures var p := Run(z, Init(z), acts);
            && (!p.closed && p.sent < z.n ==> Enabled(z, p, Push))
            && (forall i :: 0 <= i < |p.workers| && p.workers[i].Erring? ==> Enabled(z, p, SendError(i)))
  {
    InitInv(z);
    RunInv(z, Init(z), acts);
    RoomForEverySend(z, Run(z, Init(z), acts));
  }

  lemma SomeStepEnabled(z: Sizes, p: Pool)
    requires Inv(z, p) && !Done(p)
    ensures exists a :: a != Cancel && Enabled(z, p, a)
  {
    RoomForEverySend(z, p);
    if !p.closed {
      assert Enabled(z, p, Push) || Enabled(z, p, CloseJobs);
    } else {
      var i :| 0 <= i < |p.workers| && !p.workers[i].Exited?;
      if p.workers[i].Idle? {
        assert Enabled(z, p, Take(i)) || Enabled(z, p, Exit(i));
      } else if p.workers[i].Working? {
        assert Enabled(z, p, Process(i)) || Enabled(z, p, EndBatch(i));
      } else {
        assert Enabled(z, p, SendError(i));
      }
    }
  }

  /** wg.Wait returns in every schedule: some action is enabled until all workers have exited, and no
      schedule is longer than the measure of the start. */
  lemma AllWorkersTerminate(z: Sizes, acts: seq<Action>)
    requires Reachable(z, acts)
    ensures var p := Run(z, Init(z), acts); !Done(p) ==> exists a :: a != Cancel && Enabled(z, p, a)
    ensures |acts| <= Measure(z, Init(z))
  {
    var p := Run(z, Init(z), acts);
    InitInv(z);
    RunInv(z, Init(z), acts);
    if !Done(p) {
      SomeStepEnabled(z, p);
    }
  }

  /** No receipt is stored twice, whatever the schedule; and when no error was sent, every receipt was stored. */
  lemma ProcessedState(z: Sizes, p: Pool)
    requires Inv(z, p)
    ensures Distinct(p.processed) && forall k :: 0 <= k < |p.processed| ==> p.processed[k] < z.n
    ensures Done(p) && p.errors == 0 ==> forall x: nat :: x < z.n ==> x in p.processed
  {
    var at :| Located(p, at);
    assert forall k :: 0 <= k < |p.processed| ==> IsAt(p, at, p.processed[k], Stored(k));
    if Done(p) && p.errors == 0 {
      NoFailures(p.workers);
      assert p.workers[0] == Exited(false);
      forall x: nat | x < z.n ensures x in p.processed {
        assert Found(p, at, x);
      }
    }
  }

  lemma {:induction false} NoFailures(ws: seq<Worker>)
    requires Failures(ws) == 0
    ensures forall i :: 0 <= i < |ws| ==> ws[i] != Exited(true)
  {
    if ws != [] {
      NoFailures(ws[1..]);
      assert forall i :: 0 < i < |ws| ==> ws[i] == ws[1..][i - 1];
    }
  }

  lemma ExactlyOnce(z: Sizes, acts: seq<Action>)
    requires Reachable(z, acts)
    ensures var p := Run(z, Init(z), acts);
            && Distinct(p.processed)
            && (forall k :: 0 <= k < |p.processed| ==> p.processed[k] < z.n)
            && (Done(p) && p.errors == 0 ==> forall x: nat :: x < z.n ==> x in p.processed)
  {
    InitInv(z);
    RunInv(z, Init(z), acts);
    ProcessedState(z, Run(z, Init(z), acts));
  }

  // ---- where an error comes from ----

  predicate Faulty(a: Action) {
    a.Fail? || a.SeeCancel?
  }

  ghost predicate Faultless(acts: seq<Action>) {
    forall i :: 0 <= i < |acts| ==> !Faulty(acts[i])
  }

  predicate Unclean(w: Worker) {
    w.Erring? || w == Exited(true)
  }

  ghost predicate Clean(p: Pool) {
    forall i :: 0 <= i < |p.workers| ==> !Unclean(p.workers[i])
  }

  lemma CleanStep(z: Sizes, p: Pool, a: Action)
    requires Enabled(z, p, a)
    ensures Clean(Step(z, p, a)) <==> Clean(p) && !Faulty(a)
  {
    var q := Step(z, p, a);
    if a.Push? || a.CloseJobs? || a.Cancel? {
      assert q.workers == p.workers;
    } else {
      assert q.workers == p.workers[a.i := q.workers[a.i]];
      assert Unclean(q.workers[a.i]) <==> Unclean(p.workers[a.i]) || Faulty(a);
      hide Step, Enabled, Unclean;
      forall j | 0 <= j < |p.workers| && Unclean(p.workers[j]) ensures Unclean(q.workers[j]) {
      }
      forall j | 0 <= j < |q.workers| && Unclean(q.workers[j]) ensures Unclean(p.workers[j]) || Faulty(a) {
      }
    }
  }

  lemma {:induction false} CleanRun(z: Sizes, p: Pool, acts: seq<Action>)
    requires Schedule(z, p, acts)
    ensures Clean(Run(z, p, acts)) <==> Clean(p) && Faultless(acts)
    decreases |acts|
  {
    if acts != [] {
      CleanStep(z, p, acts[0]);
      CleanRun(z, Step(z, p, acts[0]), acts[1..]);
      assert forall i :: 0 < i < |acts| ==> acts[i] == acts[1..][i - 1];
      assert Faultless(acts[1..]) ==> forall i :: 0 < i < |acts| ==> !Faulty(acts[i]);
      assert Faultless(acts) ==> forall i :: 0 <= i < |acts[1..]| ==> !Faulty(acts[1..][i]);
    }
  }

  lemma {:induction false} SomeFailures(ws: seq<Worker>)
    ensures (forall i :: 0 <= i < |ws| ==> ws[i] != Exited(true)) ==> Failures(ws) == 0
  {
    if ws != [] {
      SomeFailures(ws[1..]);
      assert forall i :: 0 < i < |ws| ==> ws[i] == ws[1..][i - 1];
    }
  }

  /** When all workers have exited, an error was sent if and only if a receipt failed or a worker saw a cancellation. */
  lemma ErrorExactly(z: Sizes, acts: seq<Action>)
    requires Reachable(z, acts) && Done(Run(z, Init(z), acts))
    ensures Run(z, Init(z), acts).errors == 0 <==> Faultless(acts)
  {
    var p := Run(z, Init(z), acts);
    InitInv(z);
    RunInv(z, Init(z), acts);
    CleanRun(z, Init(z), acts);
    SomeFailures(p.workers);
    if p.errors == 0 {
      NoFailures(p.workers);
    }
  }

  lemma {:induction false} RunSnoc(z: Sizes, p: Pool, acts: seq<Action>, a: Action)
    requires Schedule(z, p, acts) && Enabled(z, Run(z, p, acts), a)
    ensures Schedule(z, p, acts + [a]) && Run(z, p, acts + [a]) == Step(z, Run(z, p, acts), a)
    decreases |acts|
  {
    if acts == [] {
      assert acts + [a] == [a] && [a][1..] == [];
    } else {
      RunSnoc(z, Step(z, p, acts[0]), acts[1..], a);
      assert (acts + [a])[1..] == acts[1..] + [a];
    }
  }

  /** Either cause alone can make the pool fail: the first receipt, or a cancellation that its worker sees. */
  lemma FailureHappens(z: Sizes, cancel: bool) returns (acts: seq<Action>)
    ensures Reachable(z, acts) && Run(z, Init(z), acts).errors == 1 && Run(z, Init(z), acts).processed == []
    ensures forall i :: 0 <= i < |acts| ==> if cancel then !acts[i].Fail? else !acts[i].SeeCancel?
  {
    BatchesSuffice(0, z);
    var p0 := Init(z);
    var p1 := Step(z, p0, Push);
    var p2 := Step(z, p1, Take(0));
    acts := [Push] + [Take(0)];
    hide NumBatches;
    RunSnoc(z, p0, [], Push);
    RunSnoc(z, p0, [Push], Take(0));
    var p3 := p2;
    if cancel {
      RunSnoc(z, p0, acts, Cancel);
      p3 := Step(z, p2, Cancel);
      RunSnoc(z, p0, acts + [Cancel], SeeCancel(0));
      acts, p3 := acts + [Cancel] + [SeeCancel(0)], Step(z, p3, SeeCancel(0));
    } else {
      RunSnoc(z, p0, acts, Fail(0));
      acts, p3 := acts + [Fail(0)], Step(z, p2, Fail(0));
    }
    RunSnoc(z, p0, acts, SendError(0));
    acts := acts + [SendError(0)];
  }

  // ---- the call ----

  function Pick<R>(rs: seq<R>, idx: seq<nat>): (out: seq<R>)
    requires forall k :: 0 <= k < |idx| ==> idx[k] < |rs|
    ensures |out| == |idx| && forall k :: 0 <= k < |idx| ==> out[k] == rs[idx[k]]
  {
    seq(|idx|, k requires 0 <= k < |idx| => rs[idx[k]])
  }

  lemma DropMultiset<T>(s: seq<T>, p: nat)
    requires p < |s|
    ensures multiset(s) == multiset(Drop(s, p)) + multiset{s[p]}
  {
    assert s == s[..p] + [s[p]] + s[p + 1..];
  }

  ghost predicate Covers(idx: seq<nat>, n: nat) {
    forall x: nat :: x < n ==> x in idx
  }

  /** Dropping the index of the last element leaves distinct indices of the others. */
  lemma DropLast(idx: seq<nat>, p: nat, last: nat)
    requires Distinct(idx) && p < |idx| && idx[p] == last && forall k :: 0 <= k < |idx| ==> idx[k] <= last
    ensures var rest := Drop(idx, p);
            && Distinct(rest) && (forall k :: 0 <= k < |rest| ==> rest[k] < last)
            && (Covers(idx, last + 1) ==> Covers(rest, last))
  {
    var rest := Drop(idx, p);
    if Covers(idx, last + 1) {
      forall x: nat | x < last ensures x in rest {
        assert x in idx;
        var k :| 0 <= k < |idx| && idx[k] == x;
        assert rest[if k < p then k else k - 1] == x;
      }
    }
  }

  /** What the indices pick with the last element at position p. */
  lemma PickLast<R>(rs: seq<R>, idx: seq<nat>, p: nat, rest: seq<nat>)
    requires rs != [] && p < |idx| && idx[p] == |rs| - 1 && forall k :: 0 <= k < |idx| ==> idx[k] < |rs|
    requires rest == Drop(idx, p) && forall k :: 0 <= k < |rest| ==> rest[k] < |rs| - 1
    ensures multiset(Pick(rs, idx)) == multiset(Pick(rs[..|rs| - 1], rest)) + multiset{rs[|rs| - 1]}
  {
    DropMultiset(Pick(rs, idx), p);
    assert Pick(rs[..|rs| - 1], rest) == Drop(Pick(rs, idx), p);
  }

  lemma FrontAndLast<R>(rs: seq<R>)
    requires rs != []
    ensures multiset(rs) == multiset(rs[..|rs| - 1]) + multiset{rs[|rs| - 1]}
  {
    assert rs == rs[..|rs| - 1] + [rs[|rs| - 1]];
  }

  /** Distinct indices pick a sub-multiset, and all of them pick the whole multiset. */
  lemma {:induction false} PickMultiset<R>(rs: seq<R>, idx: seq<nat>)
    requires Distinct(idx) && forall k :: 0 <= k < |idx| ==> idx[k] < |rs|
    ensures multiset(Pick(rs, idx)) <= multiset(rs)
    ensures Covers(idx, |rs|) ==> multiset(Pick(rs, idx)) == multiset(rs)
    decreases |rs|
  {
    if rs != [] {
      var last := |rs| - 1;
      FrontAndLast(rs);
      if p :| 0 <= p < |idx| && idx[p] == last {
        DropLast(idx, p, last);
        hide Distinct, Covers;
        PickLast(rs, idx, p, Drop(idx, p));
        PickMultiset(rs[..last], Drop(idx, p));
        hide Drop, Pick;
      } else {
        assert forall k :: 0 <= k < |idx| ==> idx[k] != last;
        assert last !in idx;
        hide Distinct;
        PickMultiset(rs[..last], idx);
        assert Pick(rs[..last], idx) == Pick(rs, idx);
        hide Pick;
      }
    }
  }

  /** Every schedule of the producer and the workers, up to the nil or error return; acts is the schedule.  The return is
      nil exactly when no receipt failed and no worker saw a cancellation. */
  method ProcessReceiptsParallel<R>(receipts: seq<R>, batchSize: nat, maxWorkers: nat)
    returns (ok: bool, stored: seq<R>, ghost acts: seq<Action>)
    requires batchSize > 0 && maxWorkers > 0
    ensures multiset(stored) <= multiset(receipts)
    ensures ok ==> multiset(stored) == multiset(receipts)
    ensures ok <==> Faultless(acts)
    ensures if receipts == [] then acts == [] else
      var z := Sizes(|receipts|, batchSize, maxWorkers); Reachable(z, acts) && Done(Run(z, Init(z), acts))
  {
    acts := [];
    if receipts == [] {
      return true, [], acts;
    }
    var z: Sizes := Sizes(|receipts|, batchSize, maxWorkers);
    var p := Init(z);
    InitInv(z);
    hide Enabled, Step, Init, Measure, Inv;
    while !Done(p)
      invariant Inv(z, p) && Reachable(z, acts) && p == Run(z, Init(z), acts)
      decreases Measure(z, p)
    {
      SomeStepEnabled(z, p);
      var a := ChooseAction(z, p);
      StepInv(z, p, a);
      MeasureFalls(z, p, a);
      RunSnoc(z, Init(z), acts, a);
      p := Step(z, p, a);
      acts := acts + [a];
    }
    ErrorExactly(z, acts);
    ProcessedState(z, p);
    PickMultiset(receipts, p.processed);
    return p.errors == 0, Pick(receipts, p.processed), acts;
  }

  /** The runtime picks any enabled action. */
  method ChooseAction(z: Sizes, p: Pool) returns (a: Action)
    requires exists b :: b != Cancel && Enabled(z, p, b)
    ensures Enabled(z, p, a)
  {
    if
    case Enabled(z, p, Push) => a := Push;
    case Enabled(z, p, CloseJobs) => a := CloseJobs;
    case i: nat :| i < |p.workers| && Enabled(z, p, Take(i)) => a := Take(i);
    case i: nat :| i < |p.workers| && Enabled(z, p, SeeCancel(i)) => a := SeeCancel(i);
    case i: nat :| i < |p.workers| && Enabled(z, p, Process(i)) => a := Process(i);
    case i: nat :| i < |p.workers| && Enabled(z, p, Fail(i)) => a := Fail(i);
    case i: nat :| i < |p.workers| && Enabled(z, p, EndBatch(i)) => a := EndBatch(i);
    case i: nat :| i < |p.workers| && Enabled(z, p, SendError(i)) => a := SendError(i);
    case i: nat :| i < |p.workers| && Enabled(z, p, Exit(i)) => a := Exit(i);
    case Enabled(z, p, Cancel) => a := Cancel;
  }
}
