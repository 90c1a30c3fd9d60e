/** The replay cache: event records and their time index in one ordered store. */
module ReplayCache {
  import opened Common
  import opened Storage
  import opened OrderedKeys

  type Text = string

  datatype Event = Event(id: Text, session: Text, timestamp: nat, payload: nat, delivered: bool)

  /** What a key holds: an event, or for an index entry the id of one. */
  datatype Value = Record(event: Event) | Pointer(id: Text)

  datatype Name = Name(session: Text, id: Text)

  type Table = map<Name, Event>
  type KV = map<Key, Value>

  // ---- Keys -----------------------------------------------------------------------------------

  const CACHE := "/rs/cache/"
  const INDEX := "/rs/cache/idx/"

  function RecordKey(n: Name): Key {
    CACHE + n.session + "/" + n.id
  }

  function SessionPrefix(session: Text): Key {
    CACHE + session + "/"
  }

  function IndexKey(n: Name, timestamp: nat): Key {
    INDEX + n.session + "/" + Padded(timestamp) + "/" + n.id
  }

  function IndexPrefix(session: Text): Key {
    INDEX + session + "/"
  }

  /** The session identifiers that keep the two kinds of key apart. Generated ones all begin with "sess_". */
  predicate Plain(session: Text) {
    '/' !in session && session != "idx"
  }

  lemma SameSegment(s: Text, t: Text, x: Text)
    requires '/' !in s && '/' !in t && IsPrefix(s + "/", t + "/" + x)
    ensures s == t
  {
    var k := t + "/" + x;
    assert forall i :: 0 <= i < |s| ==> k[i] == k[..|s| + 1][i] == s[i] && k[i] in s;
    assert k[|s|] == k[..|s| + 1][|s|] == '/';
    assert forall i :: 0 <= i < |t| ==> k[i] == t[i] && k[i] in t;
    assert k[|t|] == '/' && |s| == |t|;
  }

  lemma Segmented(p: Key, s: Text, t: Text, x: Text)
    requires '/' !in s && '/' !in t
    ensures IsPrefix(p + s + "/", p + t + "/" + x) <==> s == t
  {
    var k, q := p + t + "/" + x, p + s + "/";
    assert k == p + (t + "/" + x) && q == p + (s + "/");
    if IsPrefix(q, k) {
      assert k[..|q|][|p|..] == s + "/";
      assert (t + "/" + x)[..|s| + 1] == s + "/";
      SameSegment(s, t, x);
    }
    assert s == t ==> k == q + x;
  }

  /** What the prefixes select: the records of a session, and the index entries of a session. */
  lemma PrefixesSelect(session: Text, n: Name, timestamp: nat)
    requires Plain(session) && Plain(n.session)
    ensures IsPrefix(SessionPrefix(session), RecordKey(n)) <==> session == n.session
    ensures IsPrefix(IndexPrefix(session), IndexKey(n, timestamp)) <==> session == n.session
    ensures !IsPrefix(SessionPrefix(session), IndexKey(n, timestamp))
    ensures !IsPrefix(IndexPrefix(session), RecordKey(n))
    ensures IsPrefix(INDEX, IndexKey(n, timestamp)) && !IsPrefix(INDEX, RecordKey(n))
  {
    Segmented(CACHE, session, n.session, n.id);
    Segmented(INDEX, session, n.session, Padded(timestamp) + "/" + n.id);
    assert IndexKey(n, timestamp) == INDEX + n.session + "/" + (Padded(timestamp) + "/" + n.id);
    var rest := n.session + "/" + Padded(timestamp) + "/" + n.id;
    Segmented(CACHE, session, "idx", rest);
    assert IndexKey(n, timestamp) == CACHE + "idx" + "/" + rest;
    Segmented(CACHE, "idx", n.session, n.id);
    assert INDEX == CACHE + "idx" + "/";
    assert IsPrefix(IndexPrefix(session), RecordKey(n)) ==> IsPrefix(INDEX, RecordKey(n)) by {
      assert IndexPrefix(session)[..|INDEX|] == INDEX;
    }
  }

  lemma RecordKeyIsUnique(n: Name, m: Name)
    requires Plain(n.session) && Plain(m.session) && RecordKey(n) == RecordKey(m)
    ensures n == m
  {
    PrefixesSelect(n.session, m, 0);
    PrefixesSelect(n.session, n, 0);
    assert RecordKey(n)[|SessionPrefix(n.session)|..] == n.id;
    assert RecordKey(m)[|SessionPrefix(m.session)|..] == m.id;
  }

  lemma IndexKeyIsUnique(n: Name, t: nat, m: Name, u: nat)
    requires Plain(n.session) && Plain(m.session) && t < UINT64 && u < UINT64 && IndexKey(n, t) == IndexKey(m, u)
    ensures n == m && t == u
  {
    PrefixesSelect(n.session, m, u);
    PrefixesSelect(n.session, n, t);
    var at := |IndexPrefix(n.session)|;
    assert IndexKey(n, t)[at..at + WIDTH] == Padded(t) && IndexKey(m, u)[at..at + WIDTH] == Padded(u);
    assert IndexKey(n, t)[at + WIDTH + 1..] == n.id && IndexKey(m, u)[at + WIDTH + 1..] == m.id;
    PaddedOrder(t, u);
  }

  lemma RecordIsNoIndex(n: Name, m: Name, u: nat)
    requires Plain(n.session) && Plain(m.session)
    ensures RecordKey(n) != IndexKey(m, u)
  {
    PrefixesSelect(n.session, n, u);
    PrefixesSelect(n.session, m, u);
  }

  /** The index of a session is in the order of time. */
  lemma IndexInOrderOfTime(n: Name, t: nat, m: Name, u: nat)
    requires n.session == m.session && t < UINT64 && u < UINT64 && Before(IndexKey(n, t), IndexKey(m, u))
    ensures t <= u
  {
    if u < t {
      PaddedOrder(u, t);
      FieldDecides(Padded(u), Padded(t), "/" + m.id, "/" + n.id);
      var p := IndexPrefix(n.session);
      CommonPrefix(p, Padded(u) + ("/" + m.id), Padded(t) + ("/" + n.id));
      assert IndexKey(m, u) == p + (Padded(u) + ("/" + m.id));
      assert IndexKey(n, t) == p + (Padded(t) + ("/" + n.id));
      BeforeIsTotal(IndexKey(n, t), IndexKey(m, u));
    }
  }

  /** A session named "idx" owns, by its prefix, the index of every session. */
  lemma SessionNamedIdx(n: Name, timestamp: nat)
    ensures IsPrefix(SessionPrefix("idx"), IndexKey(n, timestamp))
  {
    assert IndexKey(n, timestamp)[..|INDEX|] == INDEX == SessionPrefix("idx");
  }

  // ---- What the store says about the cached events ----------------------------------------------

  function NameOf(e: Event): Name {
    Name(e.session, e.id)
  }

  function EntryKey(e: Event): Key {
    IndexKey(NameOf(e), e.timestamp)
  }

  predicate Proper(e: Event) {
    Plain(e.session) && e.timestamp < UINT64
  }

  ghost predicate WellNamed(table: Table) {
    forall n :: n in table ==> NameOf(table[n]) == n && Proper(table[n])
  }

  ghost predicate Holds(kv: KV, e: Event) {
    && RecordKey(NameOf(e)) in kv && kv[RecordKey(NameOf(e))] == Record(e)
    && EntryKey(e) in kv && kv[EntryKey(e)] == Pointer(e.id)
  }

  ghost predicate Accounted(k: Key, table: Table) {
    exists n :: n in table && (k == RecordKey(n) || k == EntryKey(table[n]))
  }

  /** One record and one index entry for every event of the table, and nothing else of the cache. */
  ghost predicate Represents(kv: KV, table: Table) {
    && WellNamed(table)
    && (forall n :: n in table ==> Holds(kv, table[n]))
    && (forall k :: k in kv && IsPrefix(CACHE, k) ==> Accounted(k, table))
  }

  /** Records and index entries are in bijection. */
  lemma KeysInBijection(kv: KV, table: Table, n: Name, m: Name)
    requires Represents(kv, table) && n in table && m in table
    ensures RecordKey(n) != EntryKey(table[m])
    ensures RecordKey(n) == RecordKey(m) <==> n == m
    ensures EntryKey(table[n]) == EntryKey(table[m]) <==> n == m
  {
    RecordIsNoIndex(n, m, table[m].timestamp);
    if RecordKey(n) == RecordKey(m) {
      RecordKeyIsUnique(n, m);
    }
    if EntryKey(table[n]) == EntryKey(table[m]) {
      IndexKeyIsUnique(n, table[n].timestamp, m, table[m].timestamp);
    }
  }

  function Put(kv: KV, e: Event): KV {
    kv[RecordKey(NameOf(e)) := Record(e)][EntryKey(e) := Pointer(e.id)]
  }

  lemma OthersHold(kv: KV, table: Table, e: Event, n: Name)
    requires Represents(kv, table) && Proper(e) && n in table && n != NameOf(e)
    ensures Holds(Put(kv, e), table[n])
  {
    var m := NameOf(e);
    RecordIsNoIndex(n, m, e.timestamp);
    RecordIsNoIndex(m, n, table[n].timestamp);
    if RecordKey(n) == RecordKey(m) {
      RecordKeyIsUnique(n, m);
    }
    if EntryKey(table[n]) == EntryKey(e) {
      IndexKeyIsUnique(n, table[n].timestamp, m, e.timestamp);
    }
  }

  lemma CacheKeys(n: Name, t: nat)
    ensures IsPrefix(CACHE, RecordKey(n)) && IsPrefix(CACHE, IndexKey(n, t))
  {
    assert RecordKey(n) == CACHE + (n.session + "/" + n.id);
    assert IndexKey(n, t) == CACHE + ("idx/" + n.session + "/" + Padded(t) + "/" + n.id);
  }

  /** Storing an event again keeps the bijection exactly when it keeps the time of the event. */
  lemma PutKeepsBijection(kv: KV, table: Table, e: Event)
    requires Represents(kv, table) && Proper(e)
    ensures Represents(Put(kv, e), table[NameOf(e) := e]) <==>
      (NameOf(e) in table ==> table[NameOf(e)].timestamp == e.timestamp)
  {
    var n := NameOf(e);
    var after, events := Put(kv, e), table[n := e];
    RecordIsNoIndex(n, n, e.timestamp);
    if n in table && table[n].timestamp != e.timestamp {
      var stale := EntryKey(table[n]);
      CacheKeys(n, table[n].timestamp);
      RecordIsNoIndex(n, n, table[n].timestamp);
      assert stale in after;
      forall m | m in events && Represents(after, events) ensures stale != RecordKey(m) && stale != EntryKey(events[m]) {
        RecordIsNoIndex(m, n, table[n].timestamp);
        if stale == EntryKey(events[m]) {
          IndexKeyIsUnique(n, table[n].timestamp, m, events[m].timestamp);
        }
      }
    } else {
      forall m | m in events ensures Holds(after, events[m]) {
        if m != n {
          OthersHold(kv, table, e, m);
        }
      }
      forall k | k in after && IsPrefix(CACHE, k) ensures Accounted(k, events) {
        if k == RecordKey(n) || k == EntryKey(e) {
          assert n in events && events[n] == e;
        } else {
          var m :| m in table && (k == RecordKey(m) || k == EntryKey(table[m]));
          assert m in events;
        }
      }
    }
  }

  function Forget(kv: KV, e: Event): KV {
    kv - {RecordKey(NameOf(e))} - {EntryKey(e)}
  }

  lemma OthersStay(kv: KV, table: Table, n: Name, m: Name)
    requires Represents(kv, table) && n in table && m in table && m != n
    ensures Holds(Forget(kv, table[n]), table[m])
  {
    hide RecordKey, IndexKey, Padded;
    KeysInBijection(kv, table, n, m);
    KeysInBijection(kv, table, m, n);
    assert Holds(kv, table[m]);
  }

  lemma OthersAccounted(kv: KV, table: Table, n: Name, k: Key)
    requires Represents(kv, table) && n in table && k in Forget(kv, table[n]) && IsPrefix(CACHE, k)
    ensures Accounted(k, table - {n})
  {
    assert Accounted(k, table);
    hide RecordKey, EntryKey;
    var m :| m in table && (k == RecordKey(m) || k == EntryKey(table[m]));
    assert m in table - {n} && (table - {n})[m] == table[m];
  }

  lemma ForgetKeepsBijection(kv: KV, table: Table, n: Name)
    requires Represents(kv, table) && n in table
    ensures Represents(Forget(kv, table[n]), table - {n})
  {
    var after, events := Forget(kv, table[n]), table - {n};
    forall m | m in events ensures Holds(after, events[m]) {
      OthersStay(kv, table, n, m);
    }
    forall k | k in after && IsPrefix(CACHE, k) ensures Accounted(k, events) {
      OthersAccounted(kv, table, n, k);
    }
    hide Holds, Accounted, IsPrefix, Forget;
  }

  // ---- Iteration ------------------------------------------------------------------------------

  ghost predicate Ascending(keys: seq<Key>) {
    forall i, j :: 0 <= i < j < |keys| ==> Before(keys[i], keys[j])
  }

  function Insert(keys: seq<Key>, k: Key): (more: seq<Key>)
    ensures forall x :: x in more <==> x in keys || x == k
  {
    if keys == [] || Before(k, keys[0]) then [k] + keys else [keys[0]] + Insert(keys[1..], k)
  }

  lemma {:induction false} InsertAscends(keys: seq<Key>, k: Key)
    requires Ascending(keys) && k !in keys
    ensures Ascending(Insert(keys, k))
  {
    if keys != [] {
      BeforeIsTotal(k, keys[0]);
      if Before(k, keys[0]) {
        forall j | 0 < j < |keys| ensures Before(k, keys[j]) {
          BeforeIsTransitive(k, keys[0], keys[j]);
        }
      } else {
        InsertAscends(keys[1..], k);
        var rest := Insert(keys[1..], k);
        forall j | 0 <= j < |rest| ensures Before(keys[0], rest[j]) {
          assert rest[j] in keys[1..] || rest[j] == k;
        }
      }
    }
  }

  function Recent(table: Table, cutoff: int): Table {
    map n | n in table && table[n].timestamp >= cutoff :: table[n]
  }

  // ---- What a reader is owed ------------------------------------------------------------------

  /** e is a cached event of the session later than the event after, if that one is still cached. */
  ghost predicate Due(table: Table, session: Text, after: Text, e: Event) {
    && e.session == session && NameOf(e) in table && table[NameOf(e)] == e && e.id != after
    && (after != "" && Name(session, after) in table ==> e.timestamp > table[Name(session, after)].timestamp)
  }

  /** events are the first of those due, in the order of the index. */
  ghost predicate FirstInIndex(events: seq<Event>, table: Table, session: Text, after: Text, limit: nat) {
    && |events| <= limit
    && (forall i :: 0 <= i < |events| ==> Due(table, session, after, events[i]))
    && (forall i, j :: 0 <= i < j < |events| ==> Before(EntryKey(events[i]), EntryKey(events[j])))
    && Remaining(events, table, session, after, limit)
  }

  /** Nothing due is left out but for the limit, and then it stands behind everything returned. */
  ghost predicate Remaining(events: seq<Event>, table: Table, session: Text, after: Text, limit: nat) {
    forall e :: Due(table, session, after, e) && e !in events ==>
      |events| == limit && forall x :: x in events ==> Before(EntryKey(x), EntryKey(e))
  }

  ghost predicate InTime(events: seq<Event>) {
    forall i, j :: 0 <= i < j < |events| ==> events[i].timestamp <= events[j].timestamp
  }

  /** events are the first of those due by the index, each once, in the order of time. */
  ghost predicate FirstDue(events: seq<Event>, table: Table, session: Text, after: Text, limit: nat) {
    && |events| <= limit && Distinct(events) && InTime(events)
    && (forall i :: 0 <= i < |events| ==> Due(table, session, after, events[i]))
    && Remaining(events, table, session, after, limit)
  }

  /** Any sort by time of the first in the index will do, whatever it does with equal times. */
  lemma SortedFirstDue(first: seq<Event>, events: seq<Event>, table: Table, session: Text, after: Text, limit: nat)
    requires FirstInIndex(first, table, session, after, limit)
    requires multiset(events) == multiset(first) && InTime(events)
    ensures FirstDue(events, table, session, after, limit)
  {
    forall i, j | 0 <= i < j < |first| ensures first[i] != first[j] {
      BeforeIsTotal(EntryKey(first[i]), EntryKey(first[j]));
    }
    SameElements(first, events);
    hide Due, EntryKey, InTime;
    forall i | 0 <= i < |events| ensures Due(table, session, after, events[i]) {
      assert events[i] in first;
    }
  }

  lemma SameElements(a: seq<Event>, b: seq<Event>)
    requires Distinct(a) && multiset(a) == multiset(b)
    ensures Distinct(b) && |a| == |b| && forall x :: x in a <==> x in b
  {
    assert |multiset(a)| == |a| && |multiset(b)| == |b|;
    forall x ensures x in a <==> x in b {
      assert x in multiset(a) <==> x in multiset(b);
    }
    forall i, j | 0 <= i < j < |b| ensures b[i] != b[j] {
      OnceOnly(a, b[i]);
      TwiceIn(b, i, j);
    }
  }

  lemma {:induction false} OnceOnly(a: seq<Event>, x: Event)
    requires Distinct(a)
    ensures multiset(a)[x] <= 1
  {
    if a != [] {
      OnceOnly(a[1..], x);
      assert a == [a[0]] + a[1..];
    }
  }

  lemma TwiceIn(b: seq<Event>, i: nat, j: nat)
    requires i < j < |b|
    ensures b[i] == b[j] ==> multiset(b)[b[i]] >= 2
  {
    assert b == b[..i] + [b[i]] + b[i + 1..j] + [b[j]] + b[j + 1..];
  }

  /** Nothing left out is earlier than anything returned; below the limit nothing is left out. */
  lemma FirstDueByTime(events: seq<Event>, table: Table, session: Text, after: Text, limit: nat)
    requires WellNamed(table) && FirstDue(events, table, session, after, limit)
    ensures forall i, j :: 0 <= i < j < |events| ==> events[i].timestamp <= events[j].timestamp && events[i].id != events[j].id
    ensures forall e, i :: Due(table, session, after, e) && e !in events && 0 <= i < |events| ==> events[i].timestamp <= e.timestamp
    ensures |events| < limit ==> forall e :: e in events <==> Due(table, session, after, e)
  {
    forall i, j | 0 <= i < j < |events|
      ensures events[i].timestamp <= events[j].timestamp && events[i].id != events[j].id
    {
      assert Due(table, session, after, events[i]) && Due(table, session, after, events[j]);
    }
    forall e, i | Due(table, session, after, e) && e !in events && 0 <= i < |events|
      ensures events[i].timestamp <= e.timestamp
    {
      assert Due(table, session, after, events[i]) && events[i] in events;
      IndexInOrderOfTime(NameOf(events[i]), events[i].timestamp, NameOf(e), e.timestamp);
    }
  }

  /** A reader below its limit misses nothing exactly when no other event has the time of the last one it saw. */
  lemma NothingMissed(events: seq<Event>, table: Table, session: Text, after: Text, limit: nat)
    requires WellNamed(table) && FirstDue(events, table, session, after, limit) && |events| < limit
    requires after != "" && Name(session, after) in table
    ensures var last := table[Name(session, after)].timestamp;
      (forall n :: n in table && n.session == session && n.id != after && table[n].timestamp >= last ==> table[n] in events) <==>
      (forall n :: n in table && n.session == session && n.id != after ==> table[n].timestamp != last)
  {
    FirstDueByTime(events, table, session, after, limit);
    var last := table[Name(session, after)].timestamp;
    forall n | n in table && n.session == session && n.id != after
      ensures table[n] in events <==> table[n].timestamp > last
    {
      assert table[n] in events <==> Due(table, session, after, table[n]);
    }
    hide FirstDue, Due;
  }

  /** events are those due among the entries with the given keys, in the order of the keys. */
  ghost predicate Gathered(events: seq<Event>, table: Table, session: Text, after: Text, keys: seq<Key>) {
    && (forall j :: 0 <= j < |events| ==> Due(table, session, after, events[j]) && EntryKey(events[j]) in keys)
    && (forall j, k :: 0 <= j < k < |events| ==> Before(EntryKey(events[j]), EntryKey(events[k])))
    && (forall e :: Due(table, session, after, e) && EntryKey(e) in keys ==> e in events)
  }

  /** The entries up to i are those before it and e. */
  lemma EntryNext(table: Table, keys: seq<Key>, i: nat, e: Event, x: Event)
    requires i < |keys| && Ascending(keys) && EntryKey(e) == keys[i] && Proper(e) && Proper(x)
    ensures EntryKey(x) in keys[..i + 1] <==> EntryKey(x) in keys[..i] || x.(payload := e.payload, delivered := e.delivered) == e
    ensures EntryKey(x) in keys[..i] ==> Before(EntryKey(x), EntryKey(e))
  {
    KeyOnce(keys, i, EntryKey(x));
    if EntryKey(x) == keys[i] {
      IndexKeyIsUnique(NameOf(x), x.timestamp, NameOf(e), e.timestamp);
    }
    if EntryKey(x) in keys[..i] {
      var at :| 0 <= at < i && keys[..i][at] == EntryKey(x);
    }
  }

  lemma GatherNext(events: seq<Event>, table: Table, session: Text, after: Text, keys: seq<Key>, i: nat, e: Event)
    requires i < |keys| && Ascending(keys) && Gathered(events, table, session, after, keys[..i])
    requires WellNamed(table) && NameOf(e) in table && table[NameOf(e)] == e && e.session == session && EntryKey(e) == keys[i]
    ensures Gathered(if Due(table, session, after, e) then events + [e] else events, table, session, after, keys[..i + 1])
  {
    forall x | Due(table, session, after, x)
      ensures EntryKey(x) in keys[..i + 1] <==> EntryKey(x) in keys[..i] || x == e
      ensures EntryKey(x) in keys[..i] ==> Before(EntryKey(x), EntryKey(e))
    {
      EntryNext(table, keys, i, e, x);
    }
    hide Due, EntryKey, WellNamed, Ascending, NameOf;
  }

  lemma GatheredEnough(events: seq<Event>, table: Table, session: Text, after: Text, limit: nat, keys: seq<Key>, i: nat)
    requires i <= |keys| && Ascending(keys) && Gathered(events, table, session, after, keys[..i])
    requires |events| == limit || (|events| < limit && i == |keys|)
    requires forall e :: Due(table, session, after, e) ==> EntryKey(e) in keys
    ensures FirstInIndex(events, table, session, after, limit)
  {
    hide Due, EntryKey;
    forall a | 0 <= a < i ensures keys[a] in keys[..i] {
      assert keys[..i][a] == keys[a];
    }
    forall e, j | Due(table, session, after, e) && e !in events && 0 <= j < |events|
      ensures Before(EntryKey(events[j]), EntryKey(e))
    {
      var at :| 0 <= at < |keys| && keys[at] == EntryKey(e);
      var before :| 0 <= before < i && keys[..i][before] == EntryKey(events[j]);
    }
    if |events| < limit {
      assert keys[..i] == keys;
    }
  }

  // ---- What a clean-up removes ------------------------------------------------------------------

  /** stale holds, once each, the events before the cutoff whose records are among the keys. */
  ghost predicate Collected(stale: seq<Event>, table: Table, keys: seq<Key>, cutoff: int) {
    && (forall j :: 0 <= j < |stale| ==> IsStale(stale[j], table, keys, cutoff))
    && (forall j, k :: 0 <= j < k < |stale| ==> NameOf(stale[j]) != NameOf(stale[k]))
    && (forall n :: n in table && IsStale(table[n], table, keys, cutoff) ==> table[n] in stale)
  }

  ghost predicate IsStale(e: Event, table: Table, keys: seq<Key>, cutoff: int) {
    NameOf(e) in table && table[NameOf(e)] == e && e.timestamp < cutoff && RecordKey(NameOf(e)) in keys
  }

  lemma CollectedNothing(table: Table, keys: seq<Key>, cutoff: int)
    ensures Collected([], table, keys[..0], cutoff)
  {
  }

  lemma KeyOnce(keys: seq<Key>, i: nat, k: Key)
    requires i < |keys| && Ascending(keys)
    ensures k in keys[..i + 1] <==> k in keys[..i] || k == keys[i]
    ensures k in keys[..i] ==> k != keys[i]
  {
    assert keys[..i + 1] == keys[..i] + [keys[i]];
    if k in keys[..i] {
      var at :| 0 <= at < i && keys[..i][at] == k;
      BeforeIsTotal(keys[at], keys[i]);
    }
  }

  /** The events whose records are among the keys up to i, when key i is the record of n. */
  lemma StaleNext(table: Table, keys: seq<Key>, i: nat, cutoff: int, n: Name, e: Event)
    requires i < |keys| && Ascending(keys) && WellNamed(table) && n in table && keys[i] == RecordKey(n)
    ensures IsStale(e, table, keys[..i + 1], cutoff) <==>
      IsStale(e, table, keys[..i], cutoff) || (e == table[n] && e.timestamp < cutoff)
    ensures IsStale(e, table, keys[..i], cutoff) ==> NameOf(e) != n
  {
    KeyOnce(keys, i, RecordKey(NameOf(e)));
    if NameOf(e) in table && table[NameOf(e)] == e && RecordKey(NameOf(e)) == keys[i] {
      RecordKeyIsUnique(NameOf(e), n);
    }
    hide Ascending;
  }

  /** The key is the record of n. */
  lemma CollectRecord(stale: seq<Event>, table: Table, keys: seq<Key>, i: nat, cutoff: int, n: Name)
    requires i < |keys| && Ascending(keys) && Collected(stale, table, keys[..i], cutoff) && WellNamed(table)
    requires n in table && keys[i] == RecordKey(n)
    ensures Collected(if table[n].timestamp < cutoff then stale + [table[n]] else stale, table, keys[..i + 1], cutoff)
  {
    var before, after := keys[..i], keys[..i + 1];
    forall e ensures IsStale(e, table, after, cutoff) <==>
      IsStale(e, table, before, cutoff) || (e == table[n] && e.timestamp < cutoff)
    {
      StaleNext(table, keys, i, cutoff, n, e);
    }
    forall j | 0 <= j < |stale| ensures NameOf(stale[j]) != n && IsStale(stale[j], table, after, cutoff) {
      StaleNext(table, keys, i, cutoff, n, stale[j]);
    }
    assert NameOf(table[n]) == n;
    hide IsStale, RecordKey, Ascending, NameOf, WellNamed;
    if table[n].timestamp >= cutoff {
      assert Collected(stale, table, after, cutoff);
    } else {
      assert Collected(stale + [table[n]], table, after, cutoff);
    }
  }

  /** The key is no record. */
  lemma SkipEntry(stale: seq<Event>, table: Table, keys: seq<Key>, i: nat, cutoff: int)
    requires i < |keys| && Ascending(keys) && Collected(stale, table, keys[..i], cutoff)
    requires forall m :: m in table ==> RecordKey(m) != keys[i]
    ensures Collected(stale, table, keys[..i + 1], cutoff)
  {
    forall m | m in table ensures RecordKey(m) in keys[..i + 1] <==> RecordKey(m) in keys[..i] {
      KeyOnce(keys, i, RecordKey(m));
    }
    hide RecordKey, Ascending;
  }

  function NamesOf(events: seq<Event>): set<Name> {
    set e | e in events :: NameOf(e)
  }

  lemma NamesOfNothing(events: seq<Event>, table: Table)
    ensures table - NamesOf(events[..0]) == table
  {
  }

  lemma NamesOfNext(stale: seq<Event>, table: Table, keys: seq<Key>, i: nat, cutoff: int)
    requires i < |stale| && Collected(stale, table, keys, cutoff)
    ensures NamesOf(stale[..i + 1]) == NamesOf(stale[..i]) + {NameOf(stale[i])}
    ensures NameOf(stale[i]) in table - NamesOf(stale[..i]) && table[NameOf(stale[i])] == stale[i]
    ensures table - NamesOf(stale[..i + 1]) == (table - NamesOf(stale[..i])) - {NameOf(stale[i])}
  {
    assert stale[..i + 1] == stale[..i] + [stale[i]];
  }

  lemma NamesOfStale(stale: seq<Event>, table: Table, keys: seq<Key>, cutoff: int)
    requires Collected(stale, table, keys, cutoff) && WellNamed(table)
    requires forall n :: n in table ==> RecordKey(n) in keys
    ensures table - NamesOf(stale) == Recent(table, cutoff)
  {
    forall n | n in table ensures n in NamesOf(stale) <==> table[n].timestamp < cutoff {
      assert IsStale(table[n], table, keys, cutoff) <==> table[n].timestamp < cutoff;
    }
  }

  // ---- What the deletion of a session leaves ----------------------------------------------------

  function Others(table: Table, session: Text): Table {
    map n | n in table && n.session != session :: table[n]
  }

  lemma OtherSessionHolds(kv: KV, table: Table, session: Text, left: KV, n: Name)
    requires Represents(kv, table) && Plain(session) && n in Others(table, session)
    requires forall k :: k in left <==> k in kv && !IsPrefix(SessionPrefix(session), k) && !IsPrefix(IndexPrefix(session), k)
    requires forall k :: k in left ==> left[k] == kv[k]
    ensures Holds(left, table[n])
  {
    assert Holds(kv, table[n]);
    PrefixesSelect(session, n, table[n].timestamp);
  }

  lemma OtherSessionAccounted(kv: KV, table: Table, session: Text, k: Key)
    requires Represents(kv, table) && Plain(session) && k in kv && IsPrefix(CACHE, k)
    requires !IsPrefix(SessionPrefix(session), k) && !IsPrefix(IndexPrefix(session), k)
    ensures Accounted(k, Others(table, session))
  {
    assert Accounted(k, table);
    var n :| n in table && (k == RecordKey(n) || k == EntryKey(table[n]));
    PrefixesSelect(n.session, n, table[n].timestamp);
    assert n in Others(table, session);
  }

  /** The index entries go with the prefix of a session named "idx", and the records of the others stay. */
  lemma IndexGone(kv: KV, table: Table, left: KV)
    requires Represents(kv, table) && table != map[]
    requires forall k :: k in left ==> !IsPrefix(SessionPrefix("idx"), k)
    ensures !Represents(left, Others(table, "idx"))
  {
    var n :| n in table;
    assert n in Others(table, "idx");
    SessionNamedIdx(n, table[n].timestamp);
    assert !Holds(left, Others(table, "idx")[n]);
  }

  lemma SessionLeft(kv: KV, table: Table, session: Text, left: KV)
    requires Represents(kv, table) && '/' !in session
    requires forall k :: k in left <==> k in kv && !IsPrefix(SessionPrefix(session), k) && !IsPrefix(IndexPrefix(session), k)
    requires forall k :: k in left ==> left[k] == kv[k]
    ensures Represents(left, Others(table, session)) <==> session != "idx" || table == map[]
  {
    hide Holds, Accounted, IsPrefix, RecordKey, EntryKey;
    if session != "idx" {
      forall n | n in Others(table, session) ensures Holds(left, table[n]) {
        OtherSessionHolds(kv, table, session, left, n);
      }
      forall k | k in left && IsPrefix(CACHE, k) ensures Accounted(k, Others(table, session)) {
        OtherSessionAccounted(kv, table, session, k);
      }
    } else if table == map[] {
      assert Others(table, session) == table;
    } else {
      IndexGone(kv, table, left);
    }
  }

  /** The event at i is among the earliest. */
  predicate EarliestAt(events: seq<Event>, i: nat) {
    i < |events| && forall j :: 0 <= j < |events| ==> events[i].timestamp <= events[j].timestamp
  }

  lemma {:induction false} SomeEarliest(events: seq<Event>)
    requires events != []
    ensures exists i: nat :: EarliestAt(events, i)
  {
    if |events| == 1 {
      assert EarliestAt(events, 0);
    } else {
      SomeEarliest(events[1..]);
      var i: nat :| EarliestAt(events[1..], i);
      assert forall j :: 1 <= j < |events| ==> events[j] == events[1..][j - 1];
      assert EarliestAt(events, if events[0].timestamp <= events[i + 1].timestamp then 0 else i + 1);
    }
  }

  /** sort.Slice by time: equal times may come out in any order. */
  method SortByTime(events: seq<Event>) returns (sorted: seq<Event>)
    ensures multiset(sorted) == multiset(events) && InTime(sorted)
  {
    sorted := [];
    var rest := events;
    while rest != []
      invariant multiset(sorted) + multiset(rest) == multiset(events)
      invariant InTime(sorted)
      invariant forall i, j :: 0 <= i < |sorted| && 0 <= j < |rest| ==> sorted[i].timestamp <= rest[j].timestamp
      decreases |rest|
    {
      SomeEarliest(rest);
      var i: nat :| EarliestAt(rest, i);
      TakeOut(rest, i);
      ghost var before := rest;
      sorted := sorted + [rest[i]];
      rest := Drop(rest, i);
      assert forall j :: 0 <= j < |rest| ==> rest[j] == before[if j < i then j else j + 1];
    }
  }

  lemma TakeOut(events: seq<Event>, i: nat)
    requires i < |events|
    ensures multiset(Drop(events, i)) + multiset{events[i]} == multiset(events)
  {
    assert events == events[..i] + [events[i]] + events[i + 1..];
  }

  class EventCache {
    var kv: KV
    ghost var table: Table

    ghost predicate Valid()
      reads this
    {
      Represents(kv, table)
    }

    constructor ()
      ensures Valid() && table == map[]
    {
      kv, table := map[], map[];
    }

    /** Iterate: the keys under a prefix, in byte order. */
    method Scan(prefix: Key) returns (keys: seq<Key>)
      ensures Ascending(keys) && forall k :: k in keys <==> k in kv && IsPrefix(prefix, k)
    {
      keys := [];
      var todo := set k | k in kv && IsPrefix(prefix, k);
      ghost var all := todo;
      while todo != {}
        invariant todo <= all && Ascending(keys) && forall k :: k in keys <==> k in all && k !in todo
      {
        var k :| k in todo;
        InsertAscends(keys, k);
        keys := Insert(keys, k);
        todo := todo - {k};
      }
    }

    method Store(e: Event)
      requires Valid() && Proper(e)
      modifies this
      ensures kv == Put(old(kv), e) && table == old(table)[NameOf(e) := e]
      ensures Valid() <==> (NameOf(e) in old(table) ==> old(table)[NameOf(e)].timestamp == e.timestamp)
    {
      PutKeepsBijection(kv, table, e);
      kv := kv[RecordKey(NameOf(e)) := Record(e)];
      kv := kv[EntryKey(e) := Pointer(e.id)];
      table := table[NameOf(e) := e];
    }

    method GetAfter(session: Text, after: Text, limit: int) returns (events: seq<Event>)
      requires Valid() && Plain(session)
      ensures FirstDue(events, table, session, after, if limit <= 0 then 100 else limit)
    {
      var atMost: nat := if limit <= 0 then 100 else limit;
      var afterTime: Option<nat> := None;
      if after != "" && RecordKey(Name(session, after)) in kv {
        var value := kv[RecordKey(Name(session, after))];
        if value.Record? {
          afterTime := Some(value.event.timestamp);
        }
      }
      LookupFound(session, after);
      var keys := Scan(IndexPrefix(session));
      AllIndexed(session, after);
      hide Represents, Plain, FirstDue, FirstInIndex, Gathered, Ascending, RecordKey, IndexPrefix, EntryKey;
      GatherNothing(session, after, keys);
      var found: seq<Event> := [];
      ghost var seen := 0;
      for i := 0 to |keys|
        invariant |found| <= atMost && Gathered(found, table, session, after, keys[..i]) && seen == i
      {
        if |found| >= atMost {
          break;
        }
        ghost var entry := EntryAt(session, keys[i]);
        GatherNext(found, table, session, after, keys, i, entry);
        var value := kv[keys[i]];
        if value.Pointer? && RecordKey(Name(session, value.id)) in kv {
          var record := kv[RecordKey(Name(session, value.id))];
          if record.Record? {
            var e := record.event;
            if !(afterTime.Some? && e.timestamp <= afterTime.value) && e.id != after {
              found := found + [e];
            }
          }
        }
        seen := i + 1;
      }
      GatheredEnough(found, table, session, after, atMost, keys, seen);
      events := SortByTime(found);
      SortedFirstDue(found, events, table, session, after, atMost);
    }

    lemma GatherNothing(session: Text, after: Text, keys: seq<Key>)
      ensures Gathered([], table, session, after, keys[..0])
    {
    }

    lemma AllIndexed(session: Text, after: Text)
      requires Valid() && Plain(session)
      ensures WellNamed(table)
      ensures forall e :: Due(table, session, after, e) ==> EntryKey(e) in kv && IsPrefix(IndexPrefix(session), EntryKey(e))
    {
      forall e | Due(table, session, after, e) ensures EntryKey(e) in kv && IsPrefix(IndexPrefix(session), EntryKey(e)) {
        assert Holds(kv, e);
        PrefixesSelect(session, NameOf(e), e.timestamp);
      }
    }

    /** The event behind an index entry of the session. */
    lemma EntryAt(session: Text, k: Key) returns (e: Event)
      requires Valid() && Plain(session) && k in kv && IsPrefix(IndexPrefix(session), k)
      ensures NameOf(e) in table && table[NameOf(e)] == e && e.session == session && EntryKey(e) == k
      ensures kv[k] == Pointer(e.id)
      ensures RecordKey(Name(session, e.id)) in kv && kv[RecordKey(Name(session, e.id))] == Record(e)
    {
      assert IsPrefix(CACHE, k) by {
        assert k[..|CACHE|] == IndexPrefix(session)[..|CACHE|] == CACHE;
      }
      var n :| n in table && (k == RecordKey(n) || k == EntryKey(table[n]));
      e := table[n];
      PrefixesSelect(session, n, e.timestamp);
      assert Holds(kv, e);
    }

    lemma LookupFound(session: Text, id: Text)
      requires Valid() && Plain(session)
      ensures RecordKey(Name(session, id)) in kv <==> Name(session, id) in table
      ensures Name(session, id) in table ==> kv[RecordKey(Name(session, id))] == Record(table[Name(session, id)])
    {
      var n := Name(session, id);
      if RecordKey(n) in kv {
        CacheKeys(n, 0);
        var m :| m in table && (RecordKey(n) == RecordKey(m) || RecordKey(n) == EntryKey(table[m]));
        RecordIsNoIndex(n, m, table[m].timestamp);
        RecordKeyIsUnique(n, m);
      }
    }

    /** Cleanup removes what is older than the cutoff and says how many events that were. */
    method Cleanup(cutoff: int) returns (deleted: nat)
      requires Valid()
      modifies this
      ensures Valid()
      ensures table == Recent(old(table), cutoff)
      ensures deleted == |old(table)| - |table|
    {
      hide *;
      var toDelete, keys := CollectStale(cutoff);
      deleted := 0;
      NamesOfNothing(toDelete, table);
      ghost var was := table;
      for i := 0 to |toDelete|
        invariant Valid() && deleted == i == |was| - |table|
        invariant table == was - NamesOf(toDelete[..i])
      {
        var e := toDelete[i];
        NamesOfNext(toDelete, was, keys, i, cutoff);
        Remove(e);
        deleted := deleted + 1;
      }
      assert toDelete[..|toDelete|] == toDelete;
      NamesOfStale(toDelete, was, keys, cutoff);
    }

    /** The two deletes of Cleanup. */
    method Remove(e: Event)
      requires Valid() && NameOf(e) in table && table[NameOf(e)] == e
      modifies this
      ensures Valid() && table == old(table) - {NameOf(e)} && |table| == |old(table)| - 1
    {
      ForgetKeepsBijection(kv, table, NameOf(e));
      hide Represents, RecordKey, EntryKey;
      kv := kv - {RecordKey(NameOf(e))};
      kv := kv - {EntryKey(e)};
      table := table - {NameOf(e)};
    }

    /** The scan of Cleanup. */
    method CollectStale(cutoff: int) returns (toDelete: seq<Event>, ghost keys: seq<Key>)
      requires Valid()
      ensures Collected(toDelete, table, keys, cutoff) && WellNamed(table)
      ensures forall n :: n in table ==> RecordKey(n) in keys
    {
      var scanned := Scan(CACHE);
      keys := scanned;
      AllRecorded();
      hide Represents, Collected, Ascending;
      CollectedNothing(table, keys, cutoff);
      toDelete := [];
      for i := 0 to |scanned|
        invariant Collected(toDelete, table, keys[..i], cutoff)
      {
        var key := scanned[i];
        ghost var n := Behind(key);
        if IsPrefix(INDEX, key) {
          SkipEntry(toDelete, table, keys, i, cutoff);
        } else {
          CollectRecord(toDelete, table, keys, i, cutoff, n);
        }
        if !(|key| > |INDEX| && key[..|INDEX|] == INDEX) {
          var value := kv[key];
          if value.Record? && value.event.timestamp < cutoff {
            toDelete := toDelete + [value.event];
          }
        }
      }
      assert keys[..|keys|] == keys;
    }

    lemma AllRecorded()
      requires Valid()
      ensures WellNamed(table)
      ensures forall n :: n in table ==> RecordKey(n) in kv && IsPrefix(CACHE, RecordKey(n))
    {
      forall n | n in table ensures RecordKey(n) in kv && IsPrefix(CACHE, RecordKey(n)) {
        assert Holds(kv, table[n]);
        CacheKeys(n, 0);
      }
    }

    /** The event behind a key of the cache: the index prefix tells entries from records. */
    lemma Behind(k: Key) returns (n: Name)
      requires Valid() && k in kv && IsPrefix(CACHE, k)
      ensures IsPrefix(INDEX, k) ==> |k| > |INDEX| && forall m :: m in table ==> RecordKey(m) != k
      ensures !IsPrefix(INDEX, k) ==> n in table && k == RecordKey(n) && kv[k] == Record(table[n])
    {
      n :| n in table && (k == RecordKey(n) || k == EntryKey(table[n]));
      assert Holds(kv, table[n]);
      PrefixesSelect(n.session, n, table[n].timestamp);
      forall m | m in table ensures RecordKey(m) != EntryKey(table[n]) {
        RecordIsNoIndex(m, n, table[n].timestamp);
      }
      assert |EntryKey(table[n])| > |INDEX|;
    }

    /** DeleteBySession. For a session named "idx" the prefix of its records covers the index of all sessions. */
    method DeleteBySession(session: Text)
      requires Valid() && '/' !in session
      modifies this
      ensures table == Others(old(table), session)
      ensures Valid() <==> session != "idx" || old(table) == map[]
    {
      var records := Scan(SessionPrefix(session));
      var entries := Scan(IndexPrefix(session));
      var toDelete := records + entries;
      ghost var was := kv;
      for i := 0 to |toDelete|
        invariant table == old(table)
        invariant forall k :: k in kv <==> k in was && k !in toDelete[..i]
        invariant forall k :: k in kv ==> kv[k] == was[k]
      {
        kv := kv - {toDelete[i]};
      }
      assert toDelete[..|toDelete|] == toDelete;
      table := Others(table, session);
      SessionLeft(was, old(table), session, kv);
    }
  }

  /** What the source calls an active session: a connection and the channel to its client. */
  datatype Active = Active(connected: bool, channel: seq<Event>, lastEvent: Text)

  class ConnectionManager {
    const cache: EventCache
    const capacity: nat
    var active: map<Text, Active>

    constructor (cache: EventCache, capacity: nat)
      ensures this.cache == cache && this.capacity == capacity && active == map[]
    {
      this.cache, this.capacity, active := cache, capacity, map[];
    }

    predicate HasRoom(session: Text)
      reads this
    {
      session in active && active[session].connected && |active[session].channel| < capacity
    }

    /** DeliverEvent: the event is cached whether or not the client can take it now, goes on the channel exactly when the
        client is connected and the channel has room, and counts as the last one even when it is dropped. */
    method DeliverEvent(session: Text, id: Text, payload: nat, now: nat)
      requires cache.Valid() && Plain(session) && now < UINT64 && Name(session, id) !in cache.table
      modifies this, cache
      ensures cache.Valid()
      ensures cache.table ==
        old(cache.table)[Name(session, id) := Event(id, session, now, payload, old(HasRoom(session)))]
      ensures !(session in old(active) && old(active)[session].connected) ==> active == old(active)
      ensures active.Keys == old(active).Keys && forall other :: other in active && other != session ==>
        active[other] == old(active)[other]
      ensures session in old(active) && old(active)[session].connected ==>
        && active[session].connected && active[session].lastEvent == id
        && active[session].channel == old(active)[session].channel +
             if |old(active)[session].channel| < capacity then [Event(id, session, now, payload, false)] else []
    {
      hide Represents, Put, Plain;
      var e := Event(id, session, now, payload, false);
      cache.Store(e);
      if session !in active || !active[session].connected {
        return;
      }
      if |active[session].channel| < capacity {
        active := active[session := active[session].(channel := active[session].channel + [e])];
        cache.Store(e.(delivered := true));
      }
      active := active[session := active[session].(lastEvent := id)];
    }

    /** HandleReconnect.  stored is the last event of the session in the session store, None if it does not know the
        session; the request names the last event the client has seen. */
    method HandleReconnect(session: Text, stored: Option<Text>, saveSucceeds: bool, lastEvent: Text, maxEvents: int)
      returns (ok: bool, missed: seq<Event>)
      requires cache.Valid() && Plain(session)
      modifies this`active
      ensures ok <==> stored.Some? && saveSucceeds
      ensures active == if ok then old(active)[session := Active(true, [], stored.value)] else old(active)
      ensures if ok then FirstDue(missed, cache.table, session, lastEvent, if maxEvents <= 0 then 100 else maxEvents)
              else missed == []
    {
      if stored.None? || !saveSucceeds {
        return false, [];
      }
      active := active[session := Active(true, [], stored.value)];
      missed := cache.GetAfter(session, lastEvent, maxEvents);
      ok := true;
    }
  }
}
