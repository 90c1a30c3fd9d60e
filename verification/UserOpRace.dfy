/** Updates of the statistics by receipt workers at the same time: each reads a statistic, adds to it and writes it
    back, and no lock holds the two steps together. */
module UserOpRace {
  import opened Common
  import opened Sums
  import opened UserOpTally

  /** One read-modify-write of the statistic of an address. */
  datatype Update = Update(address: Address, added: nat)

  datatype Phase =
    | Waiting
    | Holding(value: nat, at: nat)             // has read this value at this moment
    | Finished(readAt: nat, wroteAt: nat)

  /** table is the stored statistic; inside says which updates its values include, seen which the value read did. */
  datatype Race = Race(
    table: map<Address, nat>, phases: seq<Phase>, clock: nat,
    inside: map<Address, set<nat>>, seen: map<nat, set<nat>>)

  datatype Step = Read(i: nat) | Write(i: nat)

  function Inside(s: Race, a: Address): set<nat> {
    if a in s.inside then s.inside[a] else {}
  }

  function Init(table: map<Address, nat>, updates: seq<Update>): Race {
    Race(table, seq(|updates|, _ => Waiting), 0, map[], map[])
  }

  predicate Enabled(updates: seq<Update>, s: Race, step: Step) {
    step.i < |updates| == |s.phases| &&
    match step
    case Read(i) => s.phases[i].Waiting?
    case Write(i) => s.phases[i].Holding? && i in s.seen
  }

  function Do(updates: seq<Update>, s: Race, step: Step): Race
    requires Enabled(updates, s, step)
  {
    var i := step.i;
    var a := updates[i].address;
    match step
    case Read(_) =>
      s.(phases := s.phases[i := Holding(Get(s.table, a), s.clock)], clock := s.clock + 1,
         seen := s.seen[i := Inside(s, a)])
    case Write(_) =>
      s.(table := s.table[a := s.phases[i].value + updates[i].added],
         phases := s.phases[i := Finished(s.phases[i].at, s.clock)], clock := s.clock + 1,
         inside := s.inside[a := s.seen[i] + {i}])
  }

  // ---- Sums -----------------------------------------------------------------------------------

  /** What the first n updates add, counting only those in the set. */
  function Part(updates: seq<Update>, some: set<nat>, n: nat): nat
    requires n <= |updates|
  {
    if n == 0 then 0 else Part(updates, some, n - 1) + if n - 1 in some then updates[n - 1].added else 0
  }

  function Of(updates: seq<Update>, a: Address): set<nat> {
    set i | 0 <= i < |updates| && updates[i].address == a
  }

  lemma {:induction false} PartOne(updates: seq<Update>, some: set<nat>, i: nat, n: nat)
    requires i < |updates| && i !in some && n <= |updates|
    ensures Part(updates, some + {i}, n) == Part(updates, some, n) + if i < n then updates[i].added else 0
  {
    if n > 0 {
      PartOne(updates, some, i, n - 1);
    }
  }

  lemma {:induction false} PartLess(updates: seq<Update>, some: set<nat>, all: set<nat>, n: nat)
    requires n <= |updates| && some <= all
    ensures Part(updates, some, n) <= Part(updates, all, n)
    ensures (exists i :: i in all && i !in some && i < n && updates[i].added > 0) ==>
      Part(updates, some, n) < Part(updates, all, n)
  {
    if n > 0 {
      PartLess(updates, some, all, n - 1);
    }
  }

  // ---- The invariant --------------------------------------------------------------------------

  /** Two finished updates of one address each read before the other wrote. */
  predicate Overlap(updates: seq<Update>, s: Race, i: nat, j: nat) {
    && i < |updates| && j < |updates| && |updates| == |s.phases| && i != j
    && updates[i].address == updates[j].address
    && s.phases[i].Finished? && s.phases[j].Finished?
    && s.phases[i].readAt < s.phases[j].wroteAt && s.phases[j].readAt < s.phases[i].wroteAt
  }

  ghost predicate OverlapOn(updates: seq<Update>, s: Race, a: Address) {
    exists i: nat, j: nat :: Overlap(updates, s, i, j) && updates[i].address == a
  }

  /** Finished updates of a, no two of which overlap, all written before the given moment. */
  ghost predicate Chain(updates: seq<Update>, s: Race, a: Address, some: set<nat>, before: nat) {
    && |updates| == |s.phases|
    && (forall i :: i in some ==>
          i < |updates| && updates[i].address == a && s.phases[i].Finished? && s.phases[i].wroteAt < before)
    && (forall i, j :: i in some && j in some ==> !Overlap(updates, s, i, j))
  }

  ghost predicate Timed(s: Race) {
    forall i :: 0 <= i < |s.phases| ==>
      && (s.phases[i].Holding? ==> s.phases[i].at < s.clock)
      && (s.phases[i].Finished? ==> s.phases[i].readAt < s.phases[i].wroteAt < s.clock)
  }

  /** A finished update that a value does not include was overtaken. */
  ghost predicate Missing(updates: seq<Update>, s: Race, a: Address, some: set<nat>, before: nat) {
    forall j :: 0 <= j < |updates| == |s.phases| && updates[j].address == a && s.phases[j].Finished? && j !in some ==>
      s.phases[j].wroteAt > before || OverlapOn(updates, s, a)
  }

  ghost predicate Stored(start: map<Address, nat>, updates: seq<Update>, s: Race, a: Address) {
    && Get(s.table, a) == Get(start, a) + Part(updates, Inside(s, a), |updates|)
    && Chain(updates, s, a, Inside(s, a), s.clock)
    && Missing(updates, s, a, Inside(s, a), s.clock)
  }

  ghost predicate Held(start: map<Address, nat>, updates: seq<Update>, s: Race, i: nat)
    requires i < |updates| == |s.phases|
  {
    s.phases[i].Holding? ==>
      var a := updates[i].address;
      && i in s.seen && s.phases[i].value == Get(start, a) + Part(updates, s.seen[i], |updates|)
      && Chain(updates, s, a, s.seen[i], s.phases[i].at)
      && Missing(updates, s, a, s.seen[i], s.phases[i].at)
  }

  ghost predicate Inv(start: map<Address, nat>, updates: seq<Update>, s: Race) {
    && |updates| == |s.phases| && Timed(s)
    && (forall a :: Stored(start, updates, s, a))
    && (forall i :: 0 <= i < |updates| ==> Held(start, updates, s, i))
  }

  lemma InitInv(start: map<Address, nat>, updates: seq<Update>)
    ensures Inv(start, updates, Init(start, updates))
  {
    forall a: Address ensures Stored(start, updates, Init(start, updates), a) {
      PartNothing(updates, |updates|);
    }
  }

  lemma {:induction false} PartNothing(updates: seq<Update>, n: nat)
    requires n <= |updates|
    ensures Part(updates, {}, n) == 0
  {
    if n > 0 {
      PartNothing(updates, n - 1);
    }
  }

  /** Finished updates stay as they are. */
  ghost predicate Later(s: Race, t: Race) {
    && |t.phases| == |s.phases| && t.clock > s.clock
    && forall i :: 0 <= i < |s.phases| && s.phases[i].Finished? ==> t.phases[i] == s.phases[i]
  }

  lemma ChainLater(updates: seq<Update>, s: Race, t: Race, a: Address, some: set<nat>, before: nat)
    requires Chain(updates, s, a, some, before) && Later(s, t)
    ensures Chain(updates, t, a, some, before)
  {
    forall i, j | i in some && j in some ensures !Overlap(updates, t, i, j) {
      assert !Overlap(updates, s, i, j);
    }
  }

  lemma OverlapLater(updates: seq<Update>, s: Race, t: Race, a: Address)
    requires OverlapOn(updates, s, a) && Later(s, t)
    ensures OverlapOn(updates, t, a)
  {
    var i: nat, j: nat :| Overlap(updates, s, i, j) && updates[i].address == a;
    assert Overlap(updates, t, i, j);
  }

  lemma ChainBefore(updates: seq<Update>, s: Race, a: Address, some: set<nat>, before: nat, later: nat)
    requires Chain(updates, s, a, some, before) && before <= later
    ensures Chain(updates, s, a, some, later)
  {
  }

  /** Later a value includes no fewer: what has been written since was written after the moment. */
  lemma MissingLater(updates: seq<Update>, s: Race, t: Race, a: Address, some: set<nat>, before: nat)
    requires Missing(updates, s, a, some, before) && Later(s, t) && |updates| == |s.phases|
    requires forall j :: 0 <= j < |updates| && updates[j].address == a && t.phases[j].Finished? && !s.phases[j].Finished? ==>
      j in some || t.phases[j].wroteAt > before
    ensures Missing(updates, t, a, some, before)
  {
    if OverlapOn(updates, s, a) {
      OverlapLater(updates, s, t, a);
    }
  }

  /** A stored value that an action does not touch. */
  lemma StoredLater(start: map<Address, nat>, updates: seq<Update>, s: Race, t: Race, a: Address)
    requires Stored(start, updates, s, a) && Timed(s) && Later(s, t) && |updates| == |s.phases|
    requires Get(t.table, a) == Get(s.table, a) && Inside(t, a) == Inside(s, a)
    requires forall j :: 0 <= j < |updates| && updates[j].address == a && t.phases[j].Finished? ==> s.phases[j].Finished?
    ensures Stored(start, updates, t, a)
  {
    hide OverlapOn, Part;
    ChainLater(updates, s, t, a, Inside(s, a), s.clock);
    ChainBefore(updates, t, a, Inside(s, a), s.clock, t.clock);
    var inside := Inside(s, a);
    forall j | 0 <= j < |updates| && updates[j].address == a && t.phases[j].Finished? && j !in inside
      ensures OverlapOn(updates, t, a)
    {
      assert s.phases[j].wroteAt < s.clock;
      OverlapLater(updates, s, t, a);
    }
  }

  lemma HeldLater(start: map<Address, nat>, updates: seq<Update>, s: Race, t: Race, i: nat)
    requires i < |updates| == |s.phases| && Held(start, updates, s, i) && Later(s, t) && t.phases[i] == s.phases[i]
    requires i in s.seen ==> i in t.seen && t.seen[i] == s.seen[i]
    requires Timed(s)
    requires forall j :: 0 <= j < |updates| && t.phases[j].Finished? && !s.phases[j].Finished? ==> t.phases[j].wroteAt >= s.clock
    ensures Held(start, updates, t, i)
  {
    if s.phases[i].Holding? {
      var a, at := updates[i].address, s.phases[i].at;
      ChainLater(updates, s, t, a, s.seen[i], at);
      MissingLater(updates, s, t, a, s.seen[i], at);
    }
  }

  lemma ReadStep(start: map<Address, nat>, updates: seq<Update>, s: Race, i: nat)
    requires Inv(start, updates, s) && Enabled(updates, s, Read(i))
    ensures Inv(start, updates, Do(updates, s, Read(i)))
  {
    var t, a := Do(updates, s, Read(i)), updates[i].address;
    assert Later(s, t);
    hide OverlapOn, Part, Later;
    forall b: Address ensures Stored(start, updates, t, b) {
      assert Stored(start, updates, s, b);
      StoredLater(start, updates, s, t, b);
    }
    forall j | 0 <= j < |updates| ensures Held(start, updates, t, j) {
      if j == i {
        assert Stored(start, updates, s, a);
        ChainLater(updates, s, t, a, Inside(s, a), s.clock);
        MissingLater(updates, s, t, a, Inside(s, a), s.clock);
      } else {
        assert Held(start, updates, s, j);
        HeldLater(start, updates, s, t, j);
      }
    }
  }

  /** The value written includes the update and all that the value read did. */
  lemma WrittenStored(start: map<Address, nat>, updates: seq<Update>, s: Race, i: nat)
    requires Inv(start, updates, s) && Enabled(updates, s, Write(i))
    ensures Stored(start, updates, Do(updates, s, Write(i)), updates[i].address)
  {
    var t, a := Do(updates, s, Write(i)), updates[i].address;
    assert Held(start, updates, s, i);
    var seen := s.seen[i];
    assert Later(s, t);
    PartOne(updates, seen, i, |updates|);
    ChainLater(updates, s, t, a, seen, s.phases[i].at);
    hide Part;
    forall j | j in seen ensures !Overlap(updates, t, i, j) && !Overlap(updates, t, j, i) {
      assert s.phases[j].wroteAt < s.phases[i].at;
    }
    assert Inside(t, a) == seen + {i};
    forall j | 0 <= j < |updates| && updates[j].address == a && t.phases[j].Finished? && j !in seen + {i}
      ensures OverlapOn(updates, t, a)
    {
      if s.phases[j].wroteAt > s.phases[i].at {
        assert Overlap(updates, t, i, j);
      } else {
        OverlapLater(updates, s, t, a);
      }
    }
  }

  lemma WriteStep(start: map<Address, nat>, updates: seq<Update>, s: Race, i: nat)
    requires Inv(start, updates, s) && Enabled(updates, s, Write(i))
    ensures Inv(start, updates, Do(updates, s, Write(i)))
  {
    var t, a := Do(updates, s, Write(i)), updates[i].address;
    assert Later(s, t);
    WrittenStored(start, updates, s, i);
    hide OverlapOn, Part, Later;
    forall b: Address | b != a ensures Stored(start, updates, t, b) {
      assert Stored(start, updates, s, b);
      StoredLater(start, updates, s, t, b);
    }
    forall j | 0 <= j < |updates| ensures Held(start, updates, t, j) {
      if j != i {
        assert Held(start, updates, s, j);
        HeldLater(start, updates, s, t, j);
      }
    }
  }

  // ---- Runs -----------------------------------------------------------------------------------

  ghost predicate Schedule(updates: seq<Update>, s: Race, steps: seq<Step>)
    decreases |steps|
  {
    steps != [] ==> Enabled(updates, s, steps[0]) && Schedule(updates, Do(updates, s, steps[0]), steps[1..])
  }

  ghost function Run(updates: seq<Update>, s: Race, steps: seq<Step>): Race
    requires Schedule(updates, s, steps)
    decreases |steps|
  {
    if steps == [] then s else Run(updates, Do(updates, s, steps[0]), steps[1..])
  }

  lemma {:induction false} RunInv(start: map<Address, nat>, updates: seq<Update>, s: Race, steps: seq<Step>)
    requires Inv(start, updates, s) && Schedule(updates, s, steps)
    ensures Inv(start, updates, Run(updates, s, steps))
    decreases |steps|
  {
    if steps != [] {
      if steps[0].Read? {
        ReadStep(start, updates, s, steps[0].i);
      } else {
        WriteStep(start, updates, s, steps[0].i);
      }
      RunInv(start, updates, Do(updates, s, steps[0]), steps[1..]);
    }
  }

  /** A run in which every update has been read and written. */
  ghost predicate Complete(start: map<Address, nat>, updates: seq<Update>, steps: seq<Step>) {
    Schedule(updates, Init(start, updates), steps) && AllFinished(updates, Run(updates, Init(start, updates), steps))
  }

  ghost predicate AllFinished(updates: seq<Update>, s: Race) {
    |s.phases| == |updates| && forall i :: 0 <= i < |updates| ==> s.phases[i].Finished?
  }

  ghost function Result(start: map<Address, nat>, updates: seq<Update>, steps: seq<Step>): Race
    requires Complete(start, updates, steps)
  {
    Run(updates, Init(start, updates), steps)
  }

  // ---- Main results ---------------------------------------------------------------------------

  /** The statistic of an address is exact if and only if no two updates of it overlapped; otherwise it is too small. */
  lemma StatisticExactly(start: map<Address, nat>, updates: seq<Update>, steps: seq<Step>, a: Address)
    requires Complete(start, updates, steps)
    requires forall i :: 0 <= i < |updates| ==> updates[i].added > 0
    ensures var s := Result(start, updates, steps);
            var exact := Get(start, a) + Part(updates, Of(updates, a), |updates|);
            Get(s.table, a) <= exact && (Get(s.table, a) == exact <==> !OverlapOn(updates, s, a))
  {
    var s, all := Result(start, updates, steps), Of(updates, a);
    InitInv(start, updates);
    RunInv(start, updates, Init(start, updates), steps);
    assert Stored(start, updates, s, a);
    var inside := Inside(s, a);
    assert inside <= all;
    PartLess(updates, inside, all, |updates|);
    if OverlapOn(updates, s, a) {
      var i: nat, j: nat :| Overlap(updates, s, i, j) && updates[i].address == a;
      assert i !in inside || j !in inside;
      assert exists k :: k in all && k !in inside && k < |updates| && updates[k].added > 0;
    } else {
      forall j | j in all ensures j in inside {
        assert s.phases[j].wroteAt < s.clock;
      }
      assert inside == all;
    }
  }

  lemma {:induction false} SumDominated(x: map<Address, nat>, y: map<Address, nat>)
    requires forall a :: Get(x, a) <= Get(y, a)
    ensures Sum(x) <= Sum(y)
    ensures Sum(x) == Sum(y) <==> forall a :: Get(x, a) == Get(y, a)
    decreases |x| + |y|
  {
    if x == map[] && y == map[] {
    } else {
      var a :| a in x || a in y;
      SumSplit(x, a);
      SumSplit(y, a);
      forall b: Address ensures Get(x - {a}, b) == (if b == a then 0 else Get(x, b))
                              && Get(y - {a}, b) == (if b == a then 0 else Get(y, b)) {
      }
      SumDominated(x - {a}, y - {a});
      if Sum(x) == Sum(y) {
        forall b: Address ensures Get(x, b) == Get(y, b) {
          assert Get(x - {a}, b) == Get(y - {a}, b);
        }
      }
    }
  }

  lemma SumSplit(x: map<Address, nat>, a: Address)
    ensures Sum(x) == Get(x, a) + Sum(x - {a})
    ensures |x - {a}| <= |x| && (a in x ==> |x - {a}| < |x|)
  {
    if a in x {
      SumWithout(x, a);
      assert |x| == |x.Keys| && |x - {a}| == |(x - {a}).Keys| && (x - {a}).Keys == x.Keys - {a};
    } else {
      assert x - {a} == x;
    }
  }

  /** The statistics after the first n updates, made one after the other. */
  function InTurn(start: map<Address, nat>, updates: seq<Update>, n: nat): map<Address, nat>
    requires n <= |updates|
  {
    if n == 0 then start
    else
      var t, u := InTurn(start, updates, n - 1), updates[n - 1];
      t[u.address := Get(t, u.address) + u.added]
  }

  function Added(updates: seq<Update>, n: nat): nat
    requires n <= |updates|
  {
    if n == 0 then 0 else Added(updates, n - 1) + updates[n - 1].added
  }

  lemma {:induction false} InTurnSum(start: map<Address, nat>, updates: seq<Update>, n: nat)
    requires n <= |updates|
    ensures Sum(InTurn(start, updates, n)) == Sum(start) + Added(updates, n)
  {
    if n > 0 {
      InTurnSum(start, updates, n - 1);
      var t, u := InTurn(start, updates, n - 1), updates[n - 1];
      var more := t[u.address := Get(t, u.address) + u.added];
      SumSplit(t, u.address);
      SumSplit(more, u.address);
      assert t - {u.address} == more - {u.address};
    }
  }

  lemma {:induction false} InTurnAt(start: map<Address, nat>, updates: seq<Update>, a: Address, n: nat)
    requires n <= |updates|
    ensures Get(InTurn(start, updates, n), a) == Get(start, a) + Part(updates, Of(updates, a), n)
  {
    if n > 0 {
      InTurnAt(start, updates, a, n - 1);
    }
  }

  /** The total of the statistics is exact if and only if no overlapping updates share an address; otherwise it is too
      small. */
  lemma TotalExactly(start: map<Address, nat>, updates: seq<Update>, steps: seq<Step>)
    requires Complete(start, updates, steps)
    requires forall i :: 0 <= i < |updates| ==> updates[i].added > 0
    ensures var s := Result(start, updates, steps);
            var exact := Sum(start) + Added(updates, |updates|);
            Sum(s.table) <= exact && (Sum(s.table) == exact <==> forall a: Address :: !OverlapOn(updates, s, a))
  {
    var s, turn := Result(start, updates, steps), InTurn(start, updates, |updates|);
    InTurnSum(start, updates, |updates|);
    forall a: Address ensures Get(s.table, a) <= Get(turn, a)
      && (Get(s.table, a) == Get(turn, a) <==> !OverlapOn(updates, s, a)) {
      StatisticExactly(start, updates, steps, a);
      InTurnAt(start, updates, a, |updates|);
    }
    hide OverlapOn, Complete, Result;
    SumDominated(s.table, turn);
  }

  /** Two workers add one each to the same statistic: both read, then both write, and one is lost. */
  lemma LostUpdate(start: map<Address, nat>, a: Address)
    ensures var updates, steps := [Update(a, 1), Update(a, 1)], [Read(0), Read(1), Write(0), Write(1)];
            Complete(start, updates, steps) && Get(Result(start, updates, steps).table, a) == Get(start, a) + 1
  {
    var updates := [Update(a, 1), Update(a, 1)];
    var s0 := Init(start, updates);
    var s1 := Do(updates, s0, Read(0));
    var s2 := Do(updates, s1, Read(1));
    var s3 := Do(updates, s2, Write(0));
    var s4 := Do(updates, s3, Write(1));
    var steps := [Read(0), Read(1), Write(0), Write(1)];
    assert steps[1..] == [Read(1), Write(0), Write(1)] && steps[1..][1..] == [Write(0), Write(1)];
    assert steps[1..][1..][1..] == [Write(1)] && steps[1..][1..][1..][1..] == [];
    assert s4.table[a] == Get(start, a) + 1 && AllFinished(updates, s4);
    hide Do, Enabled;
    assert Run(updates, s3, [Write(1)]) == s4;
    assert Run(updates, s2, [Write(0), Write(1)]) == s4;
    assert Run(updates, s1, [Read(1), Write(0), Write(1)]) == s4;
    assert Run(updates, s0, steps) == s4;
  }
}
