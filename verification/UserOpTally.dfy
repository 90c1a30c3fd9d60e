/** Counting ERC-4337 user operations by role, and the sums of tables that hold such counts. */
module UserOpTally {
  import opened Common
  import opened Storage
  import opened Sums

  type Address = nat   // 0 is the zero address

  datatype Op = Op(
    hash: Hash, sender: Address, bundler: Address, factory: Option<Address>, paymaster: Option<Address>,
    tx: Hash, bundleIndex: nat)

  datatype Role = Bundler | Sender | Paymaster

  /** The address an operation counts for. */
  function Party(op: Op, role: Role): Option<Address> {
    match role
    case Bundler => Some(op.bundler)
    case Sender => Some(op.sender)
    case Paymaster => op.paymaster
  }

  /** How many operations count for a. */
  function Tally(ops: seq<Op>, role: Role, a: Address): nat {
    if ops == [] then 0
    else Tally(ops[..|ops| - 1], role, a) + One(Party(ops[|ops| - 1], role) == Some(a))
  }

  /** How many operations count for anyone. */
  function Total(ops: seq<Op>, role: Role): nat {
    if ops == [] then 0 else Total(ops[..|ops| - 1], role) + One(Party(ops[|ops| - 1], role).Some?)
  }

  lemma {:induction false} TallyAppend(ops: seq<Op>, more: seq<Op>, role: Role, a: Address)
    ensures Tally(ops + more, role, a) == Tally(ops, role, a) + Tally(more, role, a)
  {
    if more == [] {
      assert ops + more == ops;
    } else {
      TallyAppend(ops, more[..|more| - 1], role, a);
      assert (ops + more)[..|ops + more| - 1] == ops + more[..|more| - 1];
    }
  }

  lemma {:induction false} TotalOfAll(ops: seq<Op>, role: Role)
    requires role != Paymaster
    ensures Total(ops, role) == |ops|
  {
    if ops != [] {
      TotalOfAll(ops[..|ops| - 1], role);
    }
  }

  // ---- Tables ---------------------------------------------------------------------------------

  /** The table counts the operations: every address has the number of operations that count for it. */
  ghost predicate Counts(table: map<Address, nat>, ops: seq<Op>, role: Role) {
    forall a :: Get(table, a) == Tally(ops, role, a)
  }

  /** A table that counts operations by role sums to the number that have the role: nothing lost, nothing counted twice. */
  lemma {:induction false} Conservation(table: map<Address, nat>, ops: seq<Op>, role: Role)
    requires Counts(table, ops, role)
    ensures Sum(table) == Total(ops, role)
  {
    if ops == [] {
      forall a | a in table ensures table[a] == 0 {
        assert Get(table, a) == Tally(ops, role, a);
      }
      ZeroSum(table);
    } else {
      var front, party := ops[..|ops| - 1], Party(ops[|ops| - 1], role);
      if party.Some? {
        var a := party.value;
        assert Get(table, a) == Tally(ops, role, a);
        var less := table[a := table[a] - 1];
        forall b ensures Get(less, b) == Tally(front, role, b) {
          assert Get(table, b) == Tally(ops, role, b);
        }
        Conservation(less, front, role);
        SumLess(table, a);
      } else {
        forall b ensures Get(table, b) == Tally(front, role, b) {
          assert Get(table, b) == Tally(ops, role, b);
        }
        Conservation(table, front, role);
      }
    }
  }

  // ---- Saving again ---------------------------------------------------------------------------

  function Hashes(ops: seq<Op>): set<Hash> {
    set op | op in ops :: op.hash
  }

  /** The operations kept under their hashes are as many as were saved exactly when none was saved twice. */
  lemma {:induction false} SavedOnce(ops: seq<Op>)
    ensures |Hashes(ops)| <= |ops|
    ensures |Hashes(ops)| == |ops| <==> NoneTwice(ops)
  {
    if ops == [] {
      assert Hashes(ops) == {};
    } else {
      var front, last := ops[..|ops| - 1], ops[|ops| - 1];
      SavedOnce(front);
      assert ops == front + [last];
      assert Hashes(ops) == Hashes(front) + {last.hash};
      LastTwice(front, last);
      hide Hashes, NoneTwice;
    }
  }

  ghost predicate NoneTwice(ops: seq<Op>) {
    forall i, j :: 0 <= i < j < |ops| ==> ops[i].hash != ops[j].hash
  }

  // ---- what is kept under a hash ----

  ghost predicate IsLast(saved: seq<Op>, i: nat)
    requires i < |saved|
  {
    forall j :: i < j < |saved| ==> saved[j].hash != saved[i].hash
  }

  /** op is the last operation saved with the hash h. */
  ghost predicate LastSaved(saved: seq<Op>, h: Hash, op: Op) {
    exists i :: 0 <= i < |saved| && IsLast(saved, i) && saved[i] == op && op.hash == h
  }

  /** Under every hash that was saved there is the last operation saved with it, and nothing else is kept. */
  ghost predicate Kept(ops: map<Hash, Op>, saved: seq<Op>) {
    ops.Keys == Hashes(saved) && forall h :: h in ops ==> LastSaved(saved, h, ops[h])
  }

  lemma KeptNext(ops: map<Hash, Op>, saved: seq<Op>, op: Op)
    requires Kept(ops, saved)
    ensures Kept(ops[op.hash := op], saved + [op])
  {
    var more, after := saved + [op], ops[op.hash := op];
    assert Hashes(more) == Hashes(saved) + {op.hash};
    forall h | h in after ensures LastSaved(more, h, after[h]) {
      if h == op.hash {
        assert more[|saved|] == op && IsLast(more, |saved|);
      } else {
        assert LastSaved(saved, h, ops[h]);
        var i :| 0 <= i < |saved| && IsLast(saved, i) && saved[i] == ops[h] && ops[h].hash == h;
        assert more[i] == ops[h] && IsLast(more, i);
      }
    }
  }

  /** A saved operation is found as it was. */
  ghost predicate FoundUnchanged(ops: map<Hash, Op>, op: Op) {
    op.hash in ops && ops[op.hash] == op
  }

  /** Every saved operation is found unchanged under its hash exactly when no two different ones share a hash. */
  lemma FoundExactly(ops: map<Hash, Op>, saved: seq<Op>)
    requires Kept(ops, saved)
    ensures (forall i :: 0 <= i < |saved| ==> FoundUnchanged(ops, saved[i])) <==>
      forall i, j :: 0 <= i < j < |saved| && saved[i].hash == saved[j].hash ==> saved[i] == saved[j]
    ensures NoneTwice(saved) ==> forall i :: 0 <= i < |saved| ==> FoundUnchanged(ops, saved[i])
  {
    if forall i, j :: 0 <= i < j < |saved| && saved[i].hash == saved[j].hash ==> saved[i] == saved[j] {
      forall i | 0 <= i < |saved| ensures FoundUnchanged(ops, saved[i]) {
        assert saved[i].hash in Hashes(saved);
        assert saved[i].hash in ops.Keys;
        assert LastSaved(saved, saved[i].hash, ops[saved[i].hash]);
      }
    }
    if forall i :: 0 <= i < |saved| ==> FoundUnchanged(ops, saved[i]) {
      forall i, j | 0 <= i < j < |saved| && saved[i].hash == saved[j].hash ensures saved[i] == saved[j] {
        assert FoundUnchanged(ops, saved[i]) && FoundUnchanged(ops, saved[j]);
      }
    }
  }

  lemma LastTwice(front: seq<Op>, last: Op)
    ensures NoneTwice(front + [last]) <==> NoneTwice(front) && last.hash !in Hashes(front)
  {
    var ops := front + [last];
    assert forall i :: 0 <= i < |front| ==> ops[i] == front[i] && front[i] in front;
    if last.hash in Hashes(front) {
      var i :| 0 <= i < |front| && front[i].hash == last.hash;
      assert ops[i].hash == ops[|front|].hash;
    }
  }

  // ---- The index by block ---------------------------------------------------------------------

  function Flatten(bundles: seq<seq<Op>>): seq<Op> {
    if bundles == [] then [] else Flatten(bundles[..|bundles| - 1]) + bundles[|bundles| - 1]
  }

  /** Operations are numbered within their bundle. */
  ghost predicate NumberedWithin(bundle: seq<Op>) {
    forall i :: 0 <= i < |bundle| ==> bundle[i].bundleIndex == i
  }

  ghost predicate Collide(ops: seq<Op>) {
    exists i, j :: 0 <= i < j < |ops| && ops[i].bundleIndex == ops[j].bundleIndex
  }

  lemma {:induction false} FlattenHolds(bundles: seq<seq<Op>>, b: nat)
    requires b < |bundles| && bundles[b] != []
    ensures exists i :: 0 <= i < |Flatten(bundles)| && Flatten(bundles)[i] == bundles[b][0]
  {
    var n := |bundles| - 1;
    if b < n {
      FlattenHolds(bundles[..n], b);
      var i :| 0 <= i < |Flatten(bundles[..n])| && Flatten(bundles[..n])[i] == bundles[b][0];
      assert Flatten(bundles)[i] == bundles[b][0];
    } else {
      assert Flatten(bundles)[|Flatten(bundles[..n])|] == bundles[b][0];
    }
  }

  lemma {:induction false} FlattenEmpty(bundles: seq<seq<Op>>)
    requires forall b :: 0 <= b < |bundles| ==> bundles[b] == []
    ensures Flatten(bundles) == []
  {
    if bundles != [] {
      FlattenEmpty(bundles[..|bundles| - 1]);
    }
  }

  ghost predicate TwoFilled(bundles: seq<seq<Op>>) {
    exists a, b :: 0 <= a < b < |bundles| && bundles[a] != [] && bundles[b] != []
  }

  ghost predicate OneFilled(bundles: seq<seq<Op>>) {
    exists a :: 0 <= a < |bundles| && bundles[a] != []
  }

  lemma FilledSnoc(front: seq<seq<Op>>, last: seq<Op>)
    ensures TwoFilled(front + [last]) <==> TwoFilled(front) || (last != [] && OneFilled(front))
  {
    var all := front + [last];
    if TwoFilled(front) {
      var a, b :| 0 <= a < b < |front| && front[a] != [] && front[b] != [];
      assert all[a] != [] && all[b] != [];
    }
    if last != [] && OneFilled(front) {
      var a :| 0 <= a < |front| && front[a] != [];
      assert all[a] != [] && all[|front|] != [];
    }
  }

  lemma NumberedIsApart(bundle: seq<Op>)
    requires NumberedWithin(bundle)
    ensures !Collide(bundle)
  {
  }

  /** Both bundles have an operation numbered 0. */
  lemma SecondBundleCollides(front: seq<seq<Op>>, last: seq<Op>)
    requires OneFilled(front) && last != [] && NumberedWithin(last)
    requires forall b :: 0 <= b < |front| ==> NumberedWithin(front[b])
    ensures Collide(Flatten(front) + last)
  {
    var a :| 0 <= a < |front| && front[a] != [];
    FlattenHolds(front, a);
    var i :| 0 <= i < |Flatten(front)| && Flatten(front)[i] == front[a][0];
    var ops := Flatten(front) + last;
    assert ops[i].bundleIndex == 0 == ops[|Flatten(front)|].bundleIndex;
  }

  /** Operations of one block overwrite each other in the index by block exactly when two of its transactions hold any. */
  lemma {:induction false} BlockIndexCollides(bundles: seq<seq<Op>>)
    requires forall b :: 0 <= b < |bundles| ==> NumberedWithin(bundles[b])
    ensures Collide(Flatten(bundles)) <==> TwoFilled(bundles)
  {
    if bundles != [] {
      var front, last := bundles[..|bundles| - 1], bundles[|bundles| - 1];
      assert bundles == front + [last];
      assert NumberedWithin(last);
      BlockIndexCollides(front);
      FilledSnoc(front, last);
      if !OneFilled(front) {
        FlattenEmpty(front);
        assert Flatten(bundles) == last;
        NumberedIsApart(last);
        NoneFilled(front);
      } else if last == [] {
        assert Flatten(bundles) == Flatten(front);
      } else {
        SecondBundleCollides(front, last);
      }
    }
  }

  lemma NoneFilled(bundles: seq<seq<Op>>)
    requires !OneFilled(bundles)
    ensures !TwoFilled(bundles)
  {
  }
}
