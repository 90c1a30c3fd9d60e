/** Indexing the user operations of a block and keeping statistics for bundlers, accounts and paymasters. */
module UserOpStats {
  import opened Common
  import opened Storage
  import opened Sums
  import opened UserOpTally

  datatype Kind = UserOperationEvent | AccountDeployed | OtherEvent

  /** A log of a receipt; complete when it has the topics and the data its kind needs. */
  datatype Log = Log(
    address: Address, kind: Kind, complete: bool, opHash: Hash,
    sender: Address, paymaster: Address, factory: Address)

  datatype Transaction = Transaction(hash: Hash, sender: Address)
  datatype OpReceipt = OpReceipt(tx: Hash, logs: seq<Log>)

  datatype BundlerStats = BundlerStats(totalBundles: nat, totalOps: nat)
  datatype Account = Account(
    totalOps: nat, creation: Option<Hash>, creationTx: Option<Hash>, factory: Option<Address>)

  function NonZero(a: Address): Option<Address> {
    if a == 0 then None else Some(a)
  }

  // ---- What the logs of a receipt say -----------------------------------------------------------

  /** The log is a user operation event of a known entry point. */
  predicate Names(log: Log, known: set<Address>) {
    log.kind == UserOperationEvent && log.address in known
  }

  /** The log holds an operation of the entry point. */
  predicate IsOp(log: Log, entry: Address) {
    log.address == entry && log.kind == UserOperationEvent && log.complete
  }

  /** The log reports the deployment of an operation of the entry point. */
  predicate IsDeployment(log: Log, entry: Address) {
    log.address == entry && log.kind == AccountDeployed && log.complete
  }

  /** How many of the first n logs hold an operation. */
  function OpsBefore(logs: seq<Log>, entry: Address, n: nat): nat
    requires n <= |logs|
  {
    if n == 0 then 0 else OpsBefore(logs, entry, n - 1) + One(IsOp(logs[n - 1], entry))
  }

  /** The entry point that the first user operation event of a known entry point names; 0 if there is none. */
  function EntryPoint(logs: seq<Log>, known: set<Address>): Address {
    if logs == [] then 0
    else if Names(logs[0], known) then logs[0].address
    else EntryPoint(logs[1..], known)
  }

  /** The factory of every deployment the entry point reports; the last report of an operation counts. */
  function Deployments(logs: seq<Log>, entry: Address): map<Hash, Option<Address>> {
    if logs == [] then map[]
    else
      var front, log := Deployments(logs[..|logs| - 1], entry), logs[|logs| - 1];
      if IsDeployment(log, entry)
      then front[log.opHash := NonZero(log.factory)] else front
  }

  function Bundle(
    logs: seq<Log>, deployed: map<Hash, Option<Address>>, entry: Address, bundler: Address, tx: Hash): seq<Op>
  {
    if logs == [] then []
    else
      var front, log := Bundle(logs[..|logs| - 1], deployed, entry, bundler, tx), logs[|logs| - 1];
      if IsOp(log, entry)
      then front + [OpOf(log, deployed, bundler, tx, |front|)] else front
  }

  function OpOf(log: Log, deployed: map<Hash, Option<Address>>, bundler: Address, tx: Hash, index: nat): Op {
    Op(log.opHash, log.sender, bundler, if log.opHash in deployed then deployed[log.opHash] else None,
      NonZero(log.paymaster), tx, index)
  }

  lemma {:induction false} EntryPointIsFirst(logs: seq<Log>, known: set<Address>, i: nat)
    requires i <= |logs| && forall j :: 0 <= j < i ==> !Names(logs[j], known)
    ensures i < |logs| && Names(logs[i], known) ==> EntryPoint(logs, known) == logs[i].address
    ensures i == |logs| ==> EntryPoint(logs, known) == 0
  {
    if i > 0 {
      assert forall j :: 0 <= j < i - 1 ==> logs[1..][j] == logs[j + 1];
      EntryPointIsFirst(logs[1..], known, i - 1);
    }
  }

  /** What is known of an operation's factory is what the last report of its deployment says. */
  lemma {:induction false} DeploymentIsLast(logs: seq<Log>, entry: Address, h: Hash)
    ensures forall j :: 0 <= j < |logs| && LastReport(logs, entry, h, j) ==>
      h in Deployments(logs, entry) && Deployments(logs, entry)[h] == NonZero(logs[j].factory)
    ensures h in Deployments(logs, entry) ==> exists j :: 0 <= j < |logs| && LastReport(logs, entry, h, j)
  {
    if logs != [] {
      var n := |logs| - 1;
      DeploymentIsLast(logs[..n], entry, h);
      if IsDeployment(logs[n], entry) && logs[n].opHash == h {
        assert LastReport(logs, entry, h, n);
      } else {
        forall j | 0 <= j < n ensures LastReport(logs, entry, h, j) <==> LastReport(logs[..n], entry, h, j) {
          assert logs[..n][j] == logs[j];
        }
      }
    }
  }

  ghost predicate LastReport(logs: seq<Log>, entry: Address, h: Hash, j: nat)
    requires j < |logs|
  {
    && IsDeployment(logs[j], entry) && logs[j].opHash == h
    && forall k :: j < k < |logs| ==> !(IsDeployment(logs[k], entry) && logs[k].opHash == h)
  }

  /** One operation per complete event, in the order of the events. */
  lemma {:induction false} OnePerEvent(
    logs: seq<Log>, n: nat, deployed: map<Hash, Option<Address>>, entry: Address, bundler: Address, tx: Hash)
    requires n <= |logs|
    ensures |Bundle(logs[..n], deployed, entry, bundler, tx)| == OpsBefore(logs, entry, n)
    ensures forall i :: 0 <= i < n && IsOp(logs[i], entry) ==>
      && OpsBefore(logs, entry, i) < OpsBefore(logs, entry, n)
      && Bundle(logs[..n], deployed, entry, bundler, tx)[OpsBefore(logs, entry, i)]
           == OpOf(logs[i], deployed, bundler, tx, OpsBefore(logs, entry, i))
  {
    if n > 0 {
      OnePerEvent(logs, n - 1, deployed, entry, bundler, tx);
      assert logs[..n][..n - 1] == logs[..n - 1];
    }
  }

  lemma {:induction false} BundleIsNumbered(
    logs: seq<Log>, deployed: map<Hash, Option<Address>>, entry: Address, bundler: Address, tx: Hash)
    ensures NumberedWithin(Bundle(logs, deployed, entry, bundler, tx))
    ensures forall op :: op in Bundle(logs, deployed, entry, bundler, tx) ==> op.bundler == bundler && op.paymaster != Some(0)
  {
    if logs != [] {
      BundleIsNumbered(logs[..|logs| - 1], deployed, entry, bundler, tx);
    }
  }

  /** detectEntryPointTx */
  method DetectEntryPoint(receipt: OpReceipt, known: set<Address>) returns (entry: Address)
    ensures forall i :: 0 <= i < |receipt.logs| && Names(receipt.logs[i], known) ==>
      (exists j :: 0 <= j <= i && Names(receipt.logs[j], known)
        && (forall k :: 0 <= k < j ==> !Names(receipt.logs[k], known)) && entry == receipt.logs[j].address)
    ensures (forall i :: 0 <= i < |receipt.logs| ==> !Names(receipt.logs[i], known)) ==> entry == 0
    ensures 0 !in known && entry == 0 ==> forall i :: 0 <= i < |receipt.logs| ==> !Names(receipt.logs[i], known)
    ensures entry == EntryPoint(receipt.logs, known)
  {
    var logs := receipt.logs;
    for i := 0 to |logs|
      invariant forall j :: 0 <= j < i ==> !Names(logs[j], known)
    {
      EntryPointIsFirst(logs, known, i);
      if logs[i].kind == UserOperationEvent && logs[i].address in known {
        return logs[i].address;
      }
    }
    EntryPointIsFirst(logs, known, |logs|);
    return 0;
  }

  /** The operation is that of event i: its fields, its place among the operations, and the factory that the last
      report of its deployment names, if there is a report and it names one. */
  ghost predicate Describes(op: Op, receipt: OpReceipt, entry: Address, i: nat, bundler: Address)
    requires i < |receipt.logs|
  {
    var log := receipt.logs[i];
    && op.hash == log.opHash && op.sender == log.sender && op.bundler == bundler && op.tx == receipt.tx
    && op.paymaster == (if log.paymaster == 0 then None else Some(log.paymaster)) && op.bundleIndex == OpsBefore(receipt.logs, entry, i)
    && (forall j :: 0 <= j < |receipt.logs| && LastReport(receipt.logs, entry, log.opHash, j) ==>
          op.factory == if receipt.logs[j].factory == 0 then None else Some(receipt.logs[j].factory))
    && (op.factory.Some? ==> exists j :: 0 <= j < |receipt.logs| && LastReport(receipt.logs, entry, log.opHash, j))
  }

  /** parseUserOpsFromReceipt */
  method ParseUserOps(receipt: OpReceipt, entry: Address, bundler: Address) returns (ops: seq<Op>)
    ensures |ops| == OpsBefore(receipt.logs, entry, |receipt.logs|)
    ensures forall i :: 0 <= i < |receipt.logs| && IsOp(receipt.logs[i], entry) ==>
      && OpsBefore(receipt.logs, entry, i) < |ops|
      && Describes(ops[OpsBefore(receipt.logs, entry, i)], receipt, entry, i, bundler)
    ensures ops == Bundle(receipt.logs, Deployments(receipt.logs, entry), entry, bundler, receipt.tx)
  {
    var logs := receipt.logs;
    var deployed: map<Hash, Option<Address>> := map[];
    for i := 0 to |logs|
      invariant deployed == Deployments(logs[..i], entry)
    {
      assert logs[..i + 1][..i] == logs[..i];
      if logs[i].address == entry && logs[i].kind == AccountDeployed && logs[i].complete {
        deployed := deployed[logs[i].opHash := NonZero(logs[i].factory)];
      }
    }
    assert logs[..|logs|] == logs;
    ops := [];
    var bundleIndex := 0;
    for i := 0 to |logs|
      invariant ops == Bundle(logs[..i], deployed, entry, bundler, receipt.tx) && bundleIndex == |ops|
    {
      assert logs[..i + 1][..i] == logs[..i];
      if logs[i].address == entry && logs[i].kind == UserOperationEvent && logs[i].complete {
        ops := ops + [OpOf(logs[i], deployed, bundler, receipt.tx, bundleIndex)];
        bundleIndex := bundleIndex + 1;
      }
    }
    OnePerEvent(logs, |logs|, deployed, entry, bundler, receipt.tx);
    forall i | 0 <= i < |logs| && IsOp(logs[i], entry)
      ensures OpsBefore(logs, entry, i) < |ops| && Describes(ops[OpsBefore(logs, entry, i)], receipt, entry, i, bundler)
    {
      DeploymentIsLast(logs, entry, logs[i].opHash);
    }
  }

  // ---- A block --------------------------------------------------------------------------------

  /** The receipt of a transaction; the last one given for it counts. */
  function ReceiptFor(receipts: seq<Option<OpReceipt>>, tx: Hash): Option<OpReceipt> {
    if receipts == [] then None
    else
      var last := receipts[|receipts| - 1];
      if last.Some? && last.value.tx == tx then last else ReceiptFor(receipts[..|receipts| - 1], tx)
  }

  /** The operations of one transaction, None if it holds no event of a known entry point. */
  function BundleFor(tx: Transaction, receipts: seq<Option<OpReceipt>>, known: set<Address>): Option<seq<Op>> {
    var receipt := ReceiptFor(receipts, tx.hash);
    if receipt.None? then None
    else
      var entry := EntryPoint(receipt.value.logs, known);
      if entry == 0 then None
      else Some(Bundle(receipt.value.logs, Deployments(receipt.value.logs, entry), entry, tx.sender, receipt.value.tx))
  }

  function Bundles(txs: seq<Transaction>, receipts: seq<Option<OpReceipt>>, known: set<Address>): seq<seq<Op>> {
    if txs == [] then []
    else
      var front := Bundles(txs[..|txs| - 1], receipts, known);
      var bundle := BundleFor(txs[|txs| - 1], receipts, known);
      if bundle.Some? then front + [bundle.value] else front
  }

  function OpsOf(txs: seq<Transaction>, receipts: seq<Option<OpReceipt>>, known: set<Address>): seq<Op> {
    Flatten(Bundles(txs, receipts, known))
  }

  /** How many bundles each bundler submitted. */
  function BundleCounts(txs: seq<Transaction>, receipts: seq<Option<OpReceipt>>, known: set<Address>): map<Address, nat> {
    if txs == [] then map[]
    else
      var front, tx := BundleCounts(txs[..|txs| - 1], receipts, known), txs[|txs| - 1];
      if BundleFor(tx, receipts, known).Some? then front[tx.sender := Get(front, tx.sender) + 1] else front
  }

  lemma {:induction false} EveryBundlerCounted(txs: seq<Transaction>, receipts: seq<Option<OpReceipt>>, known: set<Address>)
    ensures forall op :: op in OpsOf(txs, receipts, known) ==> op.bundler in BundleCounts(txs, receipts, known) && op.paymaster != Some(0)
    ensures forall bundle :: bundle in Bundles(txs, receipts, known) ==> NumberedWithin(bundle)
  {
    if txs != [] {
      EveryBundlerCounted(txs[..|txs| - 1], receipts, known);
      var tx := txs[|txs| - 1];
      var receipt := ReceiptFor(receipts, tx.hash);
      if receipt.Some? {
        var logs, entry := receipt.value.logs, EntryPoint(receipt.value.logs, known);
        BundleIsNumbered(logs, Deployments(logs, entry), entry, tx.sender, receipt.value.tx);
      }
      var front := Bundles(txs[..|txs| - 1], receipts, known);
      var all := Bundles(txs, receipts, known);
      if all != front {
        assert all[..|all| - 1] == front;
      }
    }
  }

  /** The operation that created an account: the first of its operations to name a factory. */
  ghost predicate IsCreation(ops: seq<Op>, a: Address, i: nat)
    requires i < |ops|
  {
    ops[i].sender == a && ops[i].factory.Some? && forall j :: 0 <= j < i && ops[j].sender == a ==> ops[j].factory.None?
  }

  ghost predicate NamesCreation(account: Account, op: Op) {
    account.creation == Some(op.hash) && account.creationTx == Some(op.tx) && account.factory == op.factory
  }

  /** The account names the operation that created it, with its transaction and its factory, if there is one. */
  ghost predicate CreatedBy(account: Account, ops: seq<Op>, a: Address) {
    if account.creation.None?
    then
      && account.creationTx.None? && account.factory.None?
      && forall i :: 0 <= i < |ops| && ops[i].sender == a ==> ops[i].factory.None?
    else exists i :: 0 <= i < |ops| && IsCreation(ops, a, i) && NamesCreation(account, ops[i])
  }

  // ---- The statistics -------------------------------------------------------------------------

  function BundlerOps(bundlers: map<Address, BundlerStats>): map<Address, nat> {
    map a | a in bundlers :: bundlers[a].totalOps
  }

  function AccountOps(accounts: map<Address, Account>): map<Address, nat> {
    map a | a in accounts :: accounts[a].totalOps
  }

  ghost predicate Created(accounts: map<Address, Account>, ops: seq<Op>) {
    forall a :: CreatedBy(AccountOf(accounts, a), ops, a)
  }

  function StatsOf(bundlers: map<Address, BundlerStats>, a: Address): BundlerStats {
    if a in bundlers then bundlers[a] else BundlerStats(0, 0)
  }

  function AccountOf(accounts: map<Address, Account>, a: Address): Account {
    if a in accounts then accounts[a] else Account(0, None, None, None)
  }

  /** A bundler's statistics after the batch. */
  function Added(stats: BundlerStats, counts: map<Address, nat>, batch: seq<Op>, a: Address): BundlerStats {
    BundlerStats(stats.totalBundles + Get(counts, a), stats.totalOps + Tally(batch, Bundler, a))
  }

  /** The bundlers' statistics once those of done have been brought up to date. */
  function AddBundles(
    bundlers: map<Address, BundlerStats>, done: set<Address>, counts: map<Address, nat>, batch: seq<Op>)
    : map<Address, BundlerStats>
  {
    map a | a in bundlers.Keys + done ::
      if a in done then Added(StatsOf(bundlers, a), counts, batch, a) else StatsOf(bundlers, a)
  }

  /** In fields: each bundler of the batch gains its bundles and its operations, and nobody else changes. */
  ghost predicate Gained(
    before: map<Address, BundlerStats>, after: map<Address, BundlerStats>, counts: map<Address, nat>, batch: seq<Op>)
  {
    && after.Keys == before.Keys + counts.Keys
    && (forall a :: a in counts ==>
          && after[a].totalBundles == (if a in before then before[a].totalBundles else 0) + counts[a]
          && after[a].totalOps == (if a in before then before[a].totalOps else 0) + Tally(batch, Bundler, a))
    && (forall a :: a in before && a !in counts ==> after[a] == before[a])
  }

  lemma AddedIsGained(bundlers: map<Address, BundlerStats>, counts: map<Address, nat>, batch: seq<Op>)
    ensures Gained(bundlers, AddBundles(bundlers, counts.Keys, counts, batch), counts, batch)
  {
  }

  lemma TallyNothing()
    ensures forall a :: Tally([], Bundler, a) == 0
  {
  }

  lemma TallyNext(batch: seq<Op>, i: nat, a: Address)
    requires i < |batch|
    ensures Tally(batch[..i + 1], Bundler, a) == Tally(batch[..i], Bundler, a) + One(batch[i].bundler == a)
  {
    assert batch[..i + 1][..i] == batch[..i];
  }

  lemma AddNobody(bundlers: map<Address, BundlerStats>, counts: map<Address, nat>, batch: seq<Op>)
    ensures AddBundles(bundlers, {}, counts, batch) == bundlers
  {
  }

  lemma AddOne(
    bundlers: map<Address, BundlerStats>, done: set<Address>, counts: map<Address, nat>, batch: seq<Op>, a: Address)
    requires a !in done
    ensures StatsOf(AddBundles(bundlers, done, counts, batch), a) == StatsOf(bundlers, a)
    ensures AddBundles(bundlers, done + {a}, counts, batch) ==
      AddBundles(bundlers, done, counts, batch)[a := Added(StatsOf(bundlers, a), counts, batch, a)]
  {
    hide Added;
  }

  /** Adding one for the party of op keeps a table in step. */
  lemma CountNext(table: map<Address, nat>, front: seq<Op>, op: Op, role: Role)
    requires Counts(table, front, role)
    ensures Party(op, role).None? ==> Counts(table, front + [op], role)
    ensures Party(op, role).Some? ==>
      Counts(table[Party(op, role).value := Get(table, Party(op, role).value) + 1], front + [op], role)
  {
    assert (front + [op])[..|front|] == front;
    forall a: Address ensures Tally(front + [op], role, a) == Get(table, a) + One(Party(op, role) == Some(a)) {
      assert Get(table, a) == Tally(front, role, a);
    }
  }

  function Members(sets: map<Address, set<Address>>, f: Address): set<Address> {
    if f in sets then sets[f] else {}
  }

  /** The accounts that operations deploy through a factory. */
  function SendersOf(ops: seq<Op>, f: Address): set<Address> {
    set op | op in ops && op.factory == Some(f) :: op.sender
  }

  lemma NoSenders(batch: seq<Op>)
    ensures forall f :: Members(map[], f) == SendersOf(batch[..0], f)
  {
  }

  lemma SendersNext(sets: map<Address, set<Address>>, front: seq<Op>, op: Op)
    requires forall f :: f != 0 ==> Members(sets, f) == SendersOf(front, f)
    ensures forall f: Address :: SendersOf(front + [op], f) == if op.factory == Some(f) then SendersOf(front, f) + {op.sender} else SendersOf(front, f)
    ensures op.factory.Some? && op.factory.value != 0 ==>
      var f := op.factory.value;
      forall g :: g != 0 ==> Members(sets[f := Members(sets, f) + {op.sender}], g) == SendersOf(front + [op], g)
    ensures !(op.factory.Some? && op.factory.value != 0) ==>
      forall g :: g != 0 ==> Members(sets, g) == SendersOf(front + [op], g)
  {
    forall f: Address ensures SendersOf(front + [op], f) == if op.factory == Some(f) then SendersOf(front, f) + {op.sender} else SendersOf(front, f) {
    }
    hide SendersOf;
  }

  lemma CreationNext(accounts: map<Address, Account>, front: seq<Op>, op: Op, account: Account)
    requires Created(accounts, front)
    requires var was := AccountOf(accounts, op.sender);
      if op.factory.Some? && was.creation.None?
      then NamesCreation(account, op)
      else account.creation == was.creation && account.creationTx == was.creationTx && account.factory == was.factory
    ensures Created(accounts[op.sender := account], front + [op])
  {
    var ops, after := front + [op], accounts[op.sender := account];
    forall a: Address ensures CreatedBy(AccountOf(after, a), ops, a) {
      var was, now := AccountOf(accounts, a), AccountOf(after, a);
      assert CreatedBy(was, front, a);
      if was.creation.Some? {
        var i :| 0 <= i < |front| && IsCreation(front, a, i) && NamesCreation(was, front[i]);
        assert ops[i] == front[i] && IsCreation(ops, a, i);
      } else if op.sender == a && op.factory.Some? {
        assert ops[|front|] == op && IsCreation(ops, a, |front|);
      }
    }
  }

  lemma AccountOpsNext(accounts: map<Address, Account>, a: Address, account: Account)
    ensures AccountOps(accounts[a := account]) == AccountOps(accounts)[a := account.totalOps]
    ensures Get(AccountOps(accounts), a) == AccountOf(accounts, a).totalOps
  {
  }

  lemma {:induction false} NoneOf(batch: seq<Op>, a: Address)
    requires forall op :: op in batch ==> op.bundler != a
    ensures Tally(batch, Bundler, a) == 0
  {
    if batch != [] {
      NoneOf(batch[..|batch| - 1], a);
      assert batch[|batch| - 1] in batch;
    }
  }

  lemma BundlersCount(bundlers: map<Address, BundlerStats>, counts: map<Address, nat>, front: seq<Op>, batch: seq<Op>)
    requires Counts(BundlerOps(bundlers), front, Bundler)
    requires forall op :: op in batch ==> op.bundler in counts
    ensures Counts(BundlerOps(AddBundles(bundlers, counts.Keys, counts, batch)), front + batch, Bundler)
  {
    var after := BundlerOps(AddBundles(bundlers, counts.Keys, counts, batch));
    forall a: Address ensures Get(after, a) == Tally(front + batch, Bundler, a) {
      TallyAppend(front, batch, Bundler, a);
      assert Get(BundlerOps(bundlers), a) == Tally(front, Bundler, a) == StatsOf(bundlers, a).totalOps;
      if a !in counts {
        NoneOf(batch, a);
      }
    }
  }

  lemma PaymastersCount(
    was: map<Address, nat>, more: map<Address, nat>, now: map<Address, nat>, front: seq<Op>, batch: seq<Op>)
    requires Counts(was, front, Paymaster) && Counts(more, batch, Paymaster)
    requires forall a :: Get(now, a) == Get(was, a) + Get(more, a)
    ensures Counts(now, front + batch, Paymaster)
  {
    forall a: Address ensures Get(now, a) == Tally(front + batch, Paymaster, a) {
      TallyAppend(front, batch, Paymaster, a);
      assert Get(was, a) == Tally(front, Paymaster, a) && Get(more, a) == Tally(batch, Paymaster, a);
    }
  }

  lemma NoTransactions(txs: seq<Transaction>, receipts: seq<Option<OpReceipt>>, known: set<Address>)
    ensures OpsOf(txs[..0], receipts, known) == [] && BundleCounts(txs[..0], receipts, known) == map[]
  {
  }

  lemma BundlesNext(front: seq<Transaction>, tx: Transaction, receipts: seq<Option<OpReceipt>>, known: set<Address>)
    ensures var bundle := BundleFor(tx, receipts, known);
      && OpsOf(front + [tx], receipts, known) ==
           (if bundle.Some? then OpsOf(front, receipts, known) + bundle.value else OpsOf(front, receipts, known))
      && BundleCounts(front + [tx], receipts, known) ==
           (if bundle.Some?
            then BundleCounts(front, receipts, known)[tx.sender := Get(BundleCounts(front, receipts, known), tx.sender) + 1]
            else BundleCounts(front, receipts, known))
  {
    var all := front + [tx];
    assert all[..|all| - 1] == front;
    var bundles, bundle := Bundles(front, receipts, known), BundleFor(tx, receipts, known);
    if bundle.Some? {
      assert (bundles + [bundle.value])[..|bundles|] == bundles;
    }
  }

  // ---- Large blocks -----------------------------------------------------------------------------

  /** The receipts of the block: its batches one after the other. */
  function Joined(batches: seq<seq<Option<OpReceipt>>>): seq<Option<OpReceipt>> {
    if batches == [] then [] else Joined(batches[..|batches| - 1]) + batches[|batches| - 1]
  }

  /** The operations the batches find. */
  function BatchOps(txs: seq<Transaction>, batches: seq<seq<Option<OpReceipt>>>, known: set<Address>): seq<Op> {
    if batches == [] then []
    else BatchOps(txs, batches[..|batches| - 1], known) + OpsOf(txs, batches[|batches| - 1], known)
  }

  /** No two receipts are for one transaction. */
  ghost predicate OnePerTx(receipts: seq<Option<OpReceipt>>) {
    forall i, j :: 0 <= i < j < |receipts| && receipts[i].Some? && receipts[j].Some? ==>
      receipts[i].value.tx != receipts[j].value.tx
  }

  lemma {:induction false} ReceiptJoin(a: seq<Option<OpReceipt>>, b: seq<Option<OpReceipt>>, h: Hash)
    ensures ReceiptFor(a + b, h) == if ReceiptFor(b, h).Some? then ReceiptFor(b, h) else ReceiptFor(a, h)
    decreases |b|
  {
    if b == [] {
      assert a + b == a;
    } else {
      ReceiptJoin(a, b[..|b| - 1], h);
      assert (a + b)[..|a + b| - 1] == a + b[..|b| - 1];
    }
  }

  lemma {:induction false} ReceiptIsThere(receipts: seq<Option<OpReceipt>>, h: Hash)
    ensures ReceiptFor(receipts, h).Some? ==>
      exists i :: 0 <= i < |receipts| && receipts[i] == ReceiptFor(receipts, h) && receipts[i].value.tx == h
  {
    if receipts != [] {
      ReceiptIsThere(receipts[..|receipts| - 1], h);
      var front := receipts[..|receipts| - 1];
      if ReceiptFor(front, h).Some? {
        var i :| 0 <= i < |front| && front[i] == ReceiptFor(front, h) && front[i].value.tx == h;
        assert receipts[i] == front[i];
      }
    }
  }

  /** A transaction has its receipt on one side only. */
  lemma OneSide(a: seq<Option<OpReceipt>>, b: seq<Option<OpReceipt>>, h: Hash)
    requires OnePerTx(a + b)
    ensures ReceiptFor(a, h).None? || ReceiptFor(b, h).None?
  {
    ReceiptIsThere(a, h);
    ReceiptIsThere(b, h);
    forall i, j | 0 <= i < |a| && 0 <= j < |b| && a[i].Some? && b[j].Some? ensures a[i].value.tx != b[j].value.tx {
      assert (a + b)[i] == a[i] && (a + b)[|a| + j] == b[j];
    }
  }

  lemma BundleOnOneSide(tx: Transaction, a: seq<Option<OpReceipt>>, b: seq<Option<OpReceipt>>, known: set<Address>)
    requires OnePerTx(a + b)
    ensures BundleFor(tx, b, known).Some? ==> BundleFor(tx, a, known) == None && BundleFor(tx, a + b, known) == BundleFor(tx, b, known)
    ensures BundleFor(tx, b, known).None? ==> BundleFor(tx, a + b, known) == BundleFor(tx, a, known)
  {
    ReceiptJoin(a, b, tx.hash);
    OneSide(a, b, tx.hash);
  }

  /** Two parts of the receipts find together what all of them find. */
  lemma {:induction false} PartsFindAll(
    txs: seq<Transaction>, a: seq<Option<OpReceipt>>, b: seq<Option<OpReceipt>>, known: set<Address>)
    requires OnePerTx(a + b)
    ensures multiset(OpsOf(txs, a + b, known)) == multiset(OpsOf(txs, a, known)) + multiset(OpsOf(txs, b, known))
    decreases |txs|
  {
    if txs != [] {
      var front, tx := txs[..|txs| - 1], txs[|txs| - 1];
      assert txs == front + [tx];
      PartsFindAll(front, a, b, known);
      BundleOnOneSide(tx, a, b, known);
      BundlesNext(front, tx, a + b, known);
      BundlesNext(front, tx, a, known);
      BundlesNext(front, tx, b, known);
      hide OpsOf, BundleFor, BundleCounts, OnePerTx;
      Extended(OpsOf(front, a + b, known), OpsOf(front, a, known), OpsOf(front, b, known),
        if BundleFor(tx, a + b, known).Some? then BundleFor(tx, a + b, known).value else []);
    }
  }

  lemma Extended(x: seq<Op>, y: seq<Op>, z: seq<Op>, more: seq<Op>)
    requires multiset(x) == multiset(y) + multiset(z)
    ensures multiset(x + more) == multiset(y + more) + multiset(z) == multiset(y) + multiset(z + more)
  {
  }

  /** A tally does not depend on the order. */
  lemma {:induction false} TallyOfMultiset(x: seq<Op>, y: seq<Op>, role: Role, who: Address)
    requires multiset(x) == multiset(y)
    ensures Tally(x, role, who) == Tally(y, role, who)
    decreases |x|
  {
    assert |multiset(x)| == |x| && |multiset(y)| == |y|;
    if x != [] {
      var front, op := x[..|x| - 1], x[|x| - 1];
      assert x == front + [op];
      assert op in multiset(y);
      var j :| 0 <= j < |y| && y[j] == op;
      TallyWithout(y, j, role, who);
      TallyWithout(x, |x| - 1, role, who);
      assert Drop(x, |x| - 1) == front;
      hide Tally, Drop;
      TallyOfMultiset(front, Drop(y, j), role, who);
    }
  }

  lemma TallyWithout(y: seq<Op>, j: nat, role: Role, who: Address)
    requires j < |y|
    ensures multiset(Drop(y, j)) == multiset(y) - multiset{y[j]}
    ensures Tally(y, role, who) == Tally(Drop(y, j), role, who) + One(Party(y[j], role) == Some(who))
  {
    var op := y[j];
    assert y == y[..j] + [op] + y[j + 1..];
    TallyAppend(y[..j], y[j + 1..], role, who);
    TallyAppend(y[..j] + [op], y[j + 1..], role, who);
    TallyAppend(y[..j], [op], role, who);
    assert [op][..0] == [];
  }

  lemma {:induction false} NoReceipts(txs: seq<Transaction>, known: set<Address>)
    ensures OpsOf(txs, [], known) == []
  {
    if txs != [] {
      NoReceipts(txs[..|txs| - 1], known);
    }
  }

  lemma OnePerTxFront(a: seq<Option<OpReceipt>>, b: seq<Option<OpReceipt>>)
    requires OnePerTx(a + b)
    ensures OnePerTx(a)
  {
    forall i, j | 0 <= i < j < |a| && a[i].Some? && a[j].Some? ensures a[i].value.tx != a[j].value.tx {
      assert (a + b)[i] == a[i] && (a + b)[j] == a[j];
    }
  }

  /** The batches find every operation of the block once more: a large block counts each of them twice, for every
      bundler, account and paymaster, and stores each once. */
  lemma LargeBlockCountsTwice(
    txs: seq<Transaction>, batches: seq<seq<Option<OpReceipt>>>, known: set<Address>, role: Role, who: Address)
    requires OnePerTx(Joined(batches))
    ensures Tally(BatchOps(txs, batches, known), role, who) == Tally(OpsOf(txs, Joined(batches), known), role, who)
  {
    BatchesFindAll(txs, batches, known);
    TallyOfMultiset(BatchOps(txs, batches, known), OpsOf(txs, Joined(batches), known), role, who);
  }

  lemma {:induction false} BatchesFindAll(txs: seq<Transaction>, batches: seq<seq<Option<OpReceipt>>>, known: set<Address>)
    requires OnePerTx(Joined(batches))
    ensures multiset(BatchOps(txs, batches, known)) == multiset(OpsOf(txs, Joined(batches), known))
  {
    hide OpsOf;
    if batches == [] {
      NoReceipts(txs, known);
    } else {
      var front, last := batches[..|batches| - 1], batches[|batches| - 1];
      OnePerTxFront(Joined(front), last);
      BatchesFindAll(txs, front, known);
      PartsFindAll(txs, Joined(front), last, known);
    }
  }

  lemma NoBatchOps(txs: seq<Transaction>, batches: seq<seq<Option<OpReceipt>>>, known: set<Address>)
    ensures BatchOps(txs, batches[..0], known) == []
  {
  }

  lemma BatchOpsNext(txs: seq<Transaction>, batches: seq<seq<Option<OpReceipt>>>, i: nat, known: set<Address>)
    requires i < |batches|
    ensures BatchOps(txs, batches[..i + 1], known) == BatchOps(txs, batches[..i], known) + OpsOf(txs, batches[i], known)
  {
    assert batches[..i + 1][..i] == batches[..i];
  }

  lemma TwiceSaved(front: seq<Op>, once: seq<Op>, again: seq<Op>)
    requires once != [] && multiset(again) == multiset(once)
    ensures !NoneTwice(front + once + again)
  {
    var all := front + once + again;
    assert once[0] in multiset(again);
    var j :| 0 <= j < |again| && again[j] == once[0];
    assert all[|front|] == once[0] && all[|front| + |once| + j] == again[j];
  }

  class UserOpProcessor {
    var ops: map<Hash, Op>
    var bundlers: map<Address, BundlerStats>
    var accounts: map<Address, Account>
    var paymasters: map<Address, nat>
    var factories: map<Address, nat>    // accounts deployed
    ghost var saved: seq<Op>     // every operation saved, in order

    ghost predicate Valid()
      reads this
    {
      && Kept(ops, saved)
      && Counts(BundlerOps(bundlers), saved, Bundler)
      && Counts(AccountOps(accounts), saved, Sender)
      && Counts(paymasters, saved, Paymaster)
      && Created(accounts, saved)
    }

    constructor ()
      ensures Valid() && saved == []
    {
      ops, bundlers, accounts, paymasters, factories, saved := map[], map[], map[], map[], map[], [];
    }

    /** updateStats, the loop over the bundlers: each gets the bundles and the operations of the batch. */
    method UpdateBundlers(batch: seq<Op>, counts: map<Address, nat>)
      modifies this`bundlers
      ensures bundlers == AddBundles(old(bundlers), counts.Keys, counts, batch)
      ensures Gained(old(bundlers), bundlers, counts, batch)
    {
      AddedIsGained(bundlers, counts, batch);
      hide Gained, AddBundles, StatsOf, Tally;
      var todo := counts.Keys;
      ghost var done: set<Address> := {};
      TallyNothing();
      AddNobody(bundlers, counts, batch);
      while todo != {}
        invariant todo <= counts.Keys
        invariant done == counts.Keys - todo && bundlers == AddBundles(old(bundlers), done, counts, batch)
      {
        var bundler :| bundler in todo;
        var stats := StatsOf(bundlers, bundler);
        stats := stats.(totalBundles := stats.totalBundles + counts[bundler]);
        ghost var before, table := stats, bundlers;
        for i := 0 to |batch|
          invariant bundlers == table
          invariant stats == before.(totalOps := before.totalOps + Tally(batch[..i], Bundler, bundler))
        {
          TallyNext(batch, i, bundler);
          if batch[i].bundler == bundler {
            stats := stats.(totalOps := stats.totalOps + 1);
          }
        }
        assert batch[..|batch|] == batch;
        AddOne(old(bundlers), done, counts, batch, bundler);
        bundlers := bundlers[bundler := stats];
        todo, done := todo - {bundler}, done + {bundler};
      }
      assert done == counts.Keys;
    }

    method UpdateAccounts(batch: seq<Op>, ghost base: seq<Op>)
      returns (paymasterOps: map<Address, nat>, factoryAccounts: map<Address, set<Address>>)
      requires forall op :: op in batch ==> op.paymaster != Some(0)
      requires Counts(AccountOps(accounts), base, Sender) && Created(accounts, base)
      modifies this`accounts
      ensures Counts(AccountOps(accounts), base + batch, Sender) && Created(accounts, base + batch)
      ensures Counts(paymasterOps, batch, Paymaster)
      ensures forall f :: f != 0 ==> Members(factoryAccounts, f) == SendersOf(batch, f)
    {
      hide SendersOf, Members;
      paymasterOps, factoryAccounts := map[], map[];
      NoSenders(batch);
      assert base + batch[..0] == base;
      for i := 0 to |batch|
        invariant Counts(AccountOps(accounts), base + batch[..i], Sender)
        invariant Created(accounts, base + batch[..i])
        invariant Counts(paymasterOps, batch[..i], Paymaster)
        invariant forall f :: f != 0 ==> Members(factoryAccounts, f) == SendersOf(batch[..i], f)
      {
        var op := batch[i];
        SendersNext(factoryAccounts, batch[..i], op);
        assert batch[..i + 1] == batch[..i] + [op];
        assert base + batch[..i + 1] == (base + batch[..i]) + [op];
        CountNext(paymasterOps, batch[..i], op, Paymaster);
        CountNext(AccountOps(accounts), base + batch[..i], op, Sender);
        if op.paymaster.Some? && op.paymaster.value != 0 {
          paymasterOps := paymasterOps[op.paymaster.value := Get(paymasterOps, op.paymaster.value) + 1];
        }
        if op.factory.Some? && op.factory.value != 0 {
          var f := op.factory.value;
          factoryAccounts := factoryAccounts[f := Members(factoryAccounts, f) + {op.sender}];
        }
        var account := AccountOf(accounts, op.sender);
        account := account.(totalOps := account.totalOps + 1);
        if op.factory.Some? && account.creation.None? {
          account := account.(creation := Some(op.hash), creationTx := Some(op.tx), factory := op.factory);
        }
        CreationNext(accounts, base + batch[..i], op, account);
        AccountOpsNext(accounts, op.sender, account);
        accounts := accounts[op.sender := account];
      }
      assert batch[..|batch|] == batch;
    }

    method UpdateFactories(factoryAccounts: map<Address, set<Address>>)
      modifies this`factories
      ensures forall f :: Get(factories, f) == Get(old(factories), f) + |Members(factoryAccounts, f)|
    {
      var todo := factoryAccounts.Keys;
      while todo != {}
        invariant todo <= factoryAccounts.Keys
        invariant forall f ::
          Get(factories, f) == Get(old(factories), f) + if f in todo then 0 else |Members(factoryAccounts, f)|
      {
        var factory :| factory in todo;
        factories := factories[factory := Get(factories, factory) + |factoryAccounts[factory]|];
        todo := todo - {factory};
      }
    }

    method UpdatePaymasters(paymasterOps: map<Address, nat>)
      modifies this`paymasters
      ensures forall a :: Get(paymasters, a) == Get(old(paymasters), a) + Get(paymasterOps, a)
    {
      var todo := paymasterOps.Keys;
      while todo != {}
        invariant todo <= paymasterOps.Keys
        invariant forall a ::
          Get(paymasters, a) == Get(old(paymasters), a) + if a in todo then 0 else Get(paymasterOps, a)
      {
        var pm :| pm in todo;
        paymasters := paymasters[pm := Get(paymasters, pm) + paymasterOps[pm]];
        todo := todo - {pm};
      }
    }

    /** SaveUserOps keeps each operation under its hash, in place of an earlier one with that hash. */
    method SaveUserOps(batch: seq<Op>)
      requires Kept(ops, saved)
      modifies this`ops, this`saved
      ensures saved == old(saved) + batch && Kept(ops, saved)
      ensures forall h :: h !in Hashes(batch) ==> (h in ops <==> h in old(ops))
      ensures forall h :: h !in Hashes(batch) && h in ops ==> ops[h] == old(ops)[h]
      ensures NoneTwice(batch) ==> forall i :: 0 <= i < |batch| ==> FoundUnchanged(ops, batch[i])
    {
      hide Kept;
      ghost var was, table := saved, ops;
      assert was + batch[..0] == was;
      for i := 0 to |batch|
        invariant saved == was && Kept(ops, was + batch[..i])
        invariant forall h :: h !in Hashes(batch) ==> (h in ops <==> h in table)
        invariant forall h :: h !in Hashes(batch) && h in ops ==> ops[h] == table[h]
        invariant NoneTwice(batch) ==> forall j :: 0 <= j < i ==> FoundUnchanged(ops, batch[j])
      {
        assert was + batch[..i + 1] == was + batch[..i] + [batch[i]];
        assert batch[i].hash in Hashes(batch);
        KeptNext(ops, was + batch[..i], batch[i]);
        ops := ops[batch[i].hash := batch[i]];
      }
      saved := saved + batch;
      assert batch[..|batch|] == batch;
    }

    method ProcessUserOpsFromBlock(
      txs: seq<Transaction>, receipts: seq<Option<OpReceipt>>, known: set<Address>, saveSucceeds: bool)
      returns (ok: bool)
      requires Valid()
      modifies this
      ensures Valid()
      ensures ok <==> saveSucceeds || OpsOf(txs, receipts, known) == []
      ensures saved == if ok then old(saved) + OpsOf(txs, receipts, known) else old(saved)
      ensures Kept(ops, saved) && (!ok ==> ops == old(ops))
      ensures if ok && OpsOf(txs, receipts, known) != []
        then Gained(old(bundlers), bundlers, BundleCounts(txs, receipts, known), OpsOf(txs, receipts, known))
        else bundlers == old(bundlers)
      ensures ok && OpsOf(txs, receipts, known) != [] ==>
        forall f :: f != 0 ==> Get(factories, f) == Get(old(factories), f) + |SendersOf(OpsOf(txs, receipts, known), f)|
    {
      var allOps, counts := Collect(txs, receipts, known);
      EveryBundlerCounted(txs, receipts, known);
      hide OpsOf, BundleCounts, Counts, Created, Kept, Gained, BundlerOps, AccountOps, SendersOf;
      if |allOps| == 0 {
        assert saved + allOps == saved;
        return true;
      }
      if !saveSucceeds {
        return false;
      }
      ghost var base := saved;
      SaveUserOps(allOps);
      UpdateStats(allOps, counts, base);
      return true;
    }

    /** updateStats. */
    method UpdateStats(batch: seq<Op>, counts: map<Address, nat>, ghost base: seq<Op>)
      requires forall op :: op in batch ==> op.bundler in counts && op.paymaster != Some(0)
      requires Counts(BundlerOps(bundlers), base, Bundler) && Counts(AccountOps(accounts), base, Sender)
      requires Counts(paymasters, base, Paymaster) && Created(accounts, base)
      modifies this`bundlers, this`accounts, this`paymasters, this`factories
      ensures Counts(BundlerOps(bundlers), base + batch, Bundler) && Counts(AccountOps(accounts), base + batch, Sender)
      ensures Counts(paymasters, base + batch, Paymaster) && Created(accounts, base + batch)
      ensures Gained(old(bundlers), bundlers, counts, batch)
      ensures forall f :: f != 0 ==> Get(factories, f) == Get(old(factories), f) + |SendersOf(batch, f)|
    {
      hide SendersOf, Members;
      BundlersCount(bundlers, counts, base, batch);
      UpdateBundlers(batch, counts);
      var paymasterOps, factoryAccounts := UpdateAccounts(batch, base);
      ghost var was := paymasters;
      UpdatePaymasters(paymasterOps);
      PaymastersCount(was, paymasterOps, paymasters, base, batch);
      UpdateFactories(factoryAccounts);
    }

    /** The receipts by transaction. */
    method MapReceipts(receipts: seq<Option<OpReceipt>>) returns (receiptMap: map<Hash, OpReceipt>)
      ensures forall h: Hash :: ReceiptFor(receipts, h) == if h in receiptMap then Some(receiptMap[h]) else None
    {
      receiptMap := map[];
      for i := 0 to |receipts|
        invariant forall h: Hash ::
          ReceiptFor(receipts[..i], h) == if h in receiptMap then Some(receiptMap[h]) else None
      {
        assert receipts[..i + 1][..i] == receipts[..i];
        if receipts[i].Some? {
          receiptMap := receiptMap[receipts[i].value.tx := receipts[i].value];
        }
      }
      assert receipts[..|receipts|] == receipts;
    }

    /** The loop over the transactions. */
    method Collect(txs: seq<Transaction>, receipts: seq<Option<OpReceipt>>, known: set<Address>)
      returns (allOps: seq<Op>, bundlerTxCounts: map<Address, nat>)
      ensures allOps == OpsOf(txs, receipts, known) && bundlerTxCounts == BundleCounts(txs, receipts, known)
    {
      var receiptMap := MapReceipts(receipts);
      allOps, bundlerTxCounts := [], map[];
      NoTransactions(txs, receipts, known);
      hide OpsOf, BundleCounts, ReceiptFor, EntryPoint, Bundle, Deployments, OpsBefore, Describes, Names, IsOp;
      for i := 0 to |txs|
        invariant allOps == OpsOf(txs[..i], receipts, known)
        invariant bundlerTxCounts == BundleCounts(txs[..i], receipts, known)
      {
        BundlesNext(txs[..i], txs[i], receipts, known);
        assert txs[..i + 1] == txs[..i] + [txs[i]];
        var tx := txs[i];
        if tx.hash in receiptMap {
          var receipt := receiptMap[tx.hash];
          var entry := DetectEntryPoint(receipt, known);
          if entry != 0 {
            bundlerTxCounts := bundlerTxCounts[tx.sender := Get(bundlerTxCounts, tx.sender) + 1];
            var ops := ParseUserOps(receipt, entry, tx.sender);
            allOps := allOps + ops;
          }
        }
      }
      assert txs[..|txs|] == txs;
    }

    /** What the statistics add up to, and when it is also the number of operations kept. */
    lemma TotalsAgree()
      requires Valid()
      ensures Sum(BundlerOps(bundlers)) == Sum(AccountOps(accounts)) == |saved|
      ensures Sum(paymasters) == Total(saved, Paymaster)
      ensures |ops| == |saved| <==> NoneTwice(saved)
    {
      Conservation(BundlerOps(bundlers), saved, Bundler);
      Conservation(AccountOps(accounts), saved, Sender);
      Conservation(paymasters, saved, Paymaster);
      TotalOfAll(saved, Bundler);
      TotalOfAll(saved, Sender);
      SavedOnce(saved);
      assert |ops| == |ops.Keys|;
    }

    /** Every operation ever saved is found unchanged under its hash exactly when no two different ones share a hash. */
    lemma SavedIsFound()
      requires Valid()
      ensures (forall i :: 0 <= i < |saved| ==> FoundUnchanged(ops, saved[i])) <==>
        forall i, j :: 0 <= i < j < |saved| && saved[i].hash == saved[j].hash ==> saved[i] == saved[j]
      ensures NoneTwice(saved) ==> forall i :: 0 <= i < |saved| ==> FoundUnchanged(ops, saved[i])
    {
      FoundExactly(ops, saved);
    }

    /** A large block: the indexing of the block processes all receipts, and then each batch of the receipt pool its own
        once more.  One call at a time. */
    method ProcessLargeBlock(txs: seq<Transaction>, batches: seq<seq<Option<OpReceipt>>>, known: set<Address>)
      requires Valid()
      modifies this
      ensures Valid()
      ensures saved == old(saved) + OpsOf(txs, Joined(batches), known) + BatchOps(txs, batches, known)
      ensures OnePerTx(Joined(batches)) && OpsOf(txs, Joined(batches), known) != [] ==> |ops| < |saved|
    {
      hide *;
      ghost var all, again := OpsOf(txs, Joined(batches), known), BatchOps(txs, batches, known);
      var ok := ProcessUserOpsFromBlock(txs, Joined(batches), known, true);
      ghost var once := saved;
      NoBatchOps(txs, batches, known);
      for i := 0 to |batches|
        invariant Valid() && saved == once + BatchOps(txs, batches[..i], known)
      {
        BatchOpsNext(txs, batches, i, known);
        ok := ProcessUserOpsFromBlock(txs, batches[i], known, true);
      }
      assert batches[..|batches|] == batches;
      if OnePerTx(Joined(batches)) && all != [] {
        BatchesFindAll(txs, batches, known);
        TwiceSaved(old(saved), all, again);
        TwiceStored();
      }
    }

    lemma TwiceStored()
      requires Valid() && !NoneTwice(saved)
      ensures |ops| < |saved|
    {
      TotalsAgree();
      StoredNoMore();
    }

    lemma StoredNoMore()
      requires Valid()
      ensures |ops| <= |saved|
    {
      SavedOnce(saved);
      assert |ops| == |ops.Keys|;
    }
  }
}
