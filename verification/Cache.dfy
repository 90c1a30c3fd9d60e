/** The LRU cache with TTL: an index that agrees with a recency list. */
module Cache {
  import opened Common
  import opened Storage
  import opened RecencyList

  type Value = nat

  datatype Entry = Entry(value: Value, expiresAt: int, element: Element)

  /** What the cache holds for a key: the value and the last moment it may be returned. */
  datatype Timed = Timed(value: Value, expiresAt: int)

  type Contents = map<Key, Timed>

  ghost predicate Live(c: Contents, k: Key, now: int) {
    k in c && now <= c[k].expiresAt
  }

  ghost function Unexpired(c: Contents, now: int): Contents {
    map k | k in c && now <= c[k].expiresAt :: c[k]
  }

  // ---- Orders of keys -------------------------------------------------------------------------

  ghost function Keys(elems: seq<Element>): (keys: seq<Key>)
    ensures |keys| == |elems| && forall i :: 0 <= i < |elems| ==> keys[i] == elems[i].key
  {
    seq(|elems|, i requires 0 <= i < |elems| => elems[i].key)
  }

  /** The keys of order that are in keys, in the same order. */
  function Only(order: seq<Key>, keys: set<Key>): seq<Key>
  {
    if order == [] then []
    else Only(order[..|order| - 1], keys) + if order[|order| - 1] in keys then [order[|order| - 1]] else []
  }

  /** The keys other than k, in the same order. */
  function Without(order: seq<Key>, k: Key): seq<Key>
  {
    if order == [] then []
    else Without(order[..|order| - 1], k) + if order[|order| - 1] == k then [] else [order[|order| - 1]]
  }

  lemma {:induction false} WithoutMembers(order: seq<Key>, k: Key)
    ensures forall x :: x in Without(order, k) <==> x in order && x != k
  {
    if order != [] {
      WithoutMembers(order[..|order| - 1], k);
      assert order == order[..|order| - 1] + [order[|order| - 1]];
    }
  }

  lemma {:induction false} WithoutIsDrop(order: seq<Key>, i: nat)
    requires i < |order| && Distinct(order)
    ensures Without(order, order[i]) == Drop(order, i)
  {
    var n := |order| - 1;
    if i == n {
      WithoutAbsent(order[..n], order[n]);
      assert Drop(order, n) == order[..n];
    } else {
      assert order[..n][i] == order[i];
      WithoutIsDrop(order[..n], i);
      assert Drop(order, i) == Drop(order[..n], i) + [order[n]];
    }
  }

  lemma {:induction false} WithoutAbsent(order: seq<Key>, k: Key)
    requires k !in order
    ensures Without(order, k) == order
  {
    if order != [] {
      WithoutAbsent(order[..|order| - 1], k);
      assert order == order[..|order| - 1] + [order[|order| - 1]];
    }
  }

  lemma {:induction false} OnlyAll(order: seq<Key>, keys: set<Key>)
    requires forall i :: 0 <= i < |order| ==> order[i] in keys
    ensures Only(order, keys) == order
  {
    if order != [] {
      var n := |order| - 1;
      OnlyAll(order[..n], keys);
      assert order == order[..n] + [order[n]];
    }
  }

  lemma WithoutLast(front: seq<Key>, last: Key, k: Key)
    ensures Without(front + [last], k) == Without(front, k) + if last == k then [] else [last]
  {
    assert (front + [last])[..|front|] == front;
  }

  lemma {:induction false} OnlyWithout(order: seq<Key>, keys: set<Key>, k: Key)
    ensures Only(order, keys - {k}) == Without(Only(order, keys), k)
  {
    if order != [] {
      var front, last := order[..|order| - 1], order[|order| - 1];
      OnlyWithout(front, keys, k);
      if last in keys {
        WithoutLast(Only(front, keys), last, k);
      } else {
        assert Only(order, keys) == Only(front, keys);
      }
    }
  }

  ghost function Take(order: seq<Key>, n: int): seq<Key>
  {
    if n <= 0 then [] else if n < |order| then order[..n] else order
  }

  /** k becomes the most recently used key; at most capacity keys remain. */
  ghost function Touch(order: seq<Key>, k: Key, capacity: nat): seq<Key> {
    [k] + Take(Without(order, k), capacity - 1)
  }

  // ---- What the operations do to the contents -----------------------------------------------------

  /** The keys, most recently used first, and what is held for them. */
  datatype View = View(order: seq<Key>, held: Contents)

  /** An operation of some caller. */
  datatype Call =
    | GetCall(key: Key, now: int)
    | SetCall(key: Key, value: Value, ttl: int, now: int)
    | DeleteCall(key: Key)
    | ClearCall
    | CleanupCall(now: int)

  ghost function AfterGet(v: View, k: Key, now: int): View {
    if Live(v.held, k, now) then View([k] + Without(v.order, k), v.held)
    else View(Without(v.order, k), v.held - {k})
  }

  ghost function AfterSet(v: View, k: Key, t: Timed, capacity: nat): View {
    var order := Touch(v.order, k, capacity);
    View(order, Restrict(v.held, order)[k := t])
  }

  ghost function AfterCall(v: View, call: Call, capacity: nat): View {
    match call
    case GetCall(k, now) => AfterGet(v, k, now)
    case SetCall(k, value, ttl, now) => AfterSet(v, k, Timed(value, now + ttl), capacity)
    case DeleteCall(k) => View(Without(v.order, k), v.held - {k})
    case ClearCall => View([], map[])
    case CleanupCall(now) => var held := Unexpired(v.held, now); View(Only(v.order, held.Keys), held)
  }

  ghost function AfterCalls(v: View, calls: seq<Call>, capacity: nat): View {
    if calls == [] then v
    else AfterCall(AfterCalls(v, calls[..|calls| - 1], capacity), calls[|calls| - 1], capacity)
  }

  /** What GetOrSet gives and leaves when nobody runs between its halves: value, hit, contents. */
  ghost function AtOnce(v: View, k: Key, now: int, ttl: int, x: Value, capacity: nat): (Value, bool, View) {
    if Live(v.held, k, now) then (v.held[k].value, true, AfterGet(v, k, now))
    else (x, false, AfterSet(AfterGet(v, k, now), k, Timed(x, now + ttl), capacity))
  }

  /** v is what the second half of GetOrSet finds, after a miss and whatever others did since.  The call is as good as
      one made in one piece at that moment if and only if the key is not live then; if it is, a value that a single
      piece would have returned is overwritten. */
  lemma SecondHalfAtOnce(v: View, k: Key, now: int, ttl: int, x: Value, capacity: nat)
    ensures (x, false, AfterSet(v, k, Timed(x, now + ttl), capacity)) == AtOnce(v, k, now, ttl, x, capacity)
      <==> !Live(v.held, k, now)
    ensures k in AfterSet(v, k, Timed(x, now + ttl), capacity).held
    ensures AfterSet(v, k, Timed(x, now + ttl), capacity).held[k].value == x
    ensures Live(v.held, k, now) ==> AtOnce(v, k, now, ttl, x, capacity).2.held == v.held
  {
    if !Live(v.held, k, now) {
      TouchTwice(v.order, k, capacity);
      var order := Touch(v.order, k, capacity);
      assert Restrict(v.held - {k}, order)[k := Timed(x, now + ttl)] == Restrict(v.held, order)[k := Timed(x, now + ttl)];
    }
  }

  /** Two callers miss the same key, one inside the other: both compute, the one that returns y first sees its value
      replaced by x, and the cache has been given two values for one key. */
  lemma TwoCallersCompute(v: View, k: Key, now: int, ttl: int, x: Value, y: Value, capacity: nat)
    requires !Live(v.held, k, now) && ttl >= 0
    ensures var between := AfterCalls(AfterGet(v, k, now), [GetCall(k, now), SetCall(k, y, ttl, now)], capacity);
            && !Live(AfterGet(v, k, now).held, k, now)                       // the second caller misses too
            && Live(between.held, k, now) && between.held[k].value == y
            && AfterSet(between, k, Timed(x, now + ttl), capacity).held[k].value == x
  {
    var first := AfterGet(v, k, now);
    var calls := [GetCall(k, now), SetCall(k, y, ttl, now)];
    assert calls[..1] == [GetCall(k, now)] && calls[..1][..0] == [];
    assert AfterCalls(first, calls[..1], capacity) == AfterGet(first, k, now);
    hide Touch, Restrict, Without;
  }

  // ---- Inclusion: a smaller cache holds the front of a larger one -------------------------------

  /** The order after a trace of uses in a cache where nothing expires, is deleted or is cleared. */
  ghost function Recency(trace: seq<Key>, capacity: nat): seq<Key> {
    if trace == [] then [] else Touch(Recency(trace[..|trace| - 1], capacity), trace[|trace| - 1], capacity)
  }

  ghost function Hits(trace: seq<Key>, capacity: nat): nat {
    if trace == [] then 0
    else
      var front, k := trace[..|trace| - 1], trace[|trace| - 1];
      Hits(front, capacity) + if k in Recency(front, capacity) then 1 else 0
  }

  lemma DropDistinct(order: seq<Key>, i: nat)
    requires Distinct(order) && i < |order|
    ensures Distinct(Drop(order, i)) && order[i] !in Drop(order, i)
  {
  }

  lemma WithoutDistinct(order: seq<Key>, k: Key)
    requires Distinct(order)
    ensures Distinct(Without(order, k)) && k !in Without(order, k)
  {
    if k in order {
      var i :| 0 <= i < |order| && order[i] == k;
      WithoutIsDrop(order, i);
      hide Without, Distinct, Drop;
      DropDistinct(order, i);
    } else {
      WithoutAbsent(order, k);
    }
  }

  lemma TouchDistinct(order: seq<Key>, k: Key, capacity: nat)
    requires Distinct(order)
    ensures Distinct(Touch(order, k, capacity))
  {
    WithoutDistinct(order, k);
    hide Without;
  }

  lemma TakeTake(order: seq<Key>, n: int, m: int)
    requires n <= m
    ensures Take(Take(order, m), n) == Take(order, n)
  {
  }

  lemma TakeCons(k: Key, order: seq<Key>, n: nat)
    requires n >= 1
    ensures Take([k] + order, n) == [k] + Take(order, n - 1)
  {
  }

  lemma TakeDrop(order: seq<Key>, i: nat, n: nat)
    requires i < n && i < |order|
    ensures Take(order, n)[i] == order[i]
    ensures Take(Drop(Take(order, n), i), n - 1) == Take(Drop(order, i), n - 1)
  {
  }

  lemma TakeBefore(order: seq<Key>, i: nat, n: nat)
    requires 1 <= n <= i < |order|
    ensures Take(order, n - 1) == Take(Drop(order, i), n - 1)
  {
  }

  lemma TakeWithout(order: seq<Key>, k: Key, n: nat)
    requires Distinct(order) && n >= 1
    ensures Take(Without(Take(order, n), k), n - 1) == Take(Without(order, k), n - 1)
  {
    if k in order {
      var i :| 0 <= i < |order| && order[i] == k;
      WithoutIsDrop(order, i);
      assert Distinct(Take(order, n)) && (i >= n ==> k !in Take(order, n));
      hide Distinct, Without;
      if i < n {
        TakeDrop(order, i, n);
        WithoutIsDrop(Take(order, n), i);
      } else {
        WithoutAbsent(Take(order, n), k);
        TakeBefore(order, i, n);
        TakeTake(order, n - 1, n);
      }
    } else {
      assert k !in Take(order, n);
      hide Distinct, Without;
      WithoutAbsent(order, k);
      WithoutAbsent(Take(order, n), k);
      TakeTake(order, n - 1, n);
    }
  }

  /** A use keeps the smaller cache the front of the larger one. */
  lemma TouchPrefix(order: seq<Key>, k: Key, small: nat, large: nat)
    requires Distinct(order) && 1 <= small <= large
    ensures Touch(Take(order, small), k, small) == Take(Touch(order, k, large), small)
  {
    var rest := Without(order, k);
    TakeWithout(order, k, small);
    TakeTake(rest, small - 1, large - 1);
    TakeCons(k, Take(rest, large - 1), small);
    hide Take, Without, Distinct;
  }

  lemma {:induction false} SmallerIsPrefix(trace: seq<Key>, small: nat, large: nat)
    requires 1 <= small <= large
    ensures Distinct(Recency(trace, large))
    ensures Recency(trace, small) == Take(Recency(trace, large), small)
  {
    if trace != [] {
      var front, k := trace[..|trace| - 1], trace[|trace| - 1];
      SmallerIsPrefix(front, small, large);
      TouchDistinct(Recency(front, large), k, large);
      TouchPrefix(Recency(front, large), k, small, large);
    }
  }

  lemma {:induction false} LargerHitsMore(trace: seq<Key>, small: nat, large: nat)
    requires 1 <= small <= large
    ensures Hits(trace, small) <= Hits(trace, large)
    ensures forall i :: 0 <= i < |trace| ==>
      trace[i] in Recency(trace[..i], small) ==> trace[i] in Recency(trace[..i], large)
  {
    forall i | 0 <= i < |trace| && trace[i] in Recency(trace[..i], small)
      ensures trace[i] in Recency(trace[..i], large)
    {
      SmallerIsPrefix(trace[..i], small, large);
    }
    if trace != [] {
      LargerHitsMore(trace[..|trace| - 1], small, large);
    }
  }

  // ---- The index ------------------------------------------------------------------------------

  /** Every element of the list is the one recorded for its key. */
  ghost predicate Recorded(items: map<Key, Entry>, elems: seq<Element>) {
    forall i :: 0 <= i < |elems| ==> elems[i].key in items && items[elems[i].key].element == elems[i]
  }

  /** Every recorded key is the key of an element of the list. */
  ghost predicate Listed(items: map<Key, Entry>, order: seq<Key>) {
    forall k :: k in items ==> k in order
  }

  ghost predicate Indexed(items: map<Key, Entry>, elems: seq<Element>) {
    Recorded(items, elems) && Listed(items, Keys(elems))
  }

  ghost function Values(items: map<Key, Entry>): Contents {
    map k | k in items :: Timed(items[k].value, items[k].expiresAt)
  }

  lemma ValuesWithout(items: map<Key, Entry>, k: Key)
    ensures Values(items - {k}) == Values(items) - {k}
  {
  }

  /** What is held is what was written last. */
  ghost predicate Faithful(held: Contents, written: Contents) {
    forall k :: k in held ==> k in written && written[k] == held[k]
  }

  lemma FaithfulWithout(held: Contents, written: Contents, k: Key)
    requires Faithful(held, written)
    ensures Faithful(held - {k}, written)
  {
  }

  ghost function Restrict(c: Contents, order: seq<Key>): Contents {
    map k | k in c && k in order :: c[k]
  }

  lemma RestrictAll(items: map<Key, Entry>, order: seq<Key>)
    requires Listed(items, order)
    ensures Restrict(Values(items), order) == Values(items)
  {
  }

  /** What is left while todo has still to be looked at. */
  ghost function Surviving(held: Contents, todo: set<Key>, now: int): Contents {
    map k | k in held && (k in todo || now <= held[k].expiresAt) :: held[k]
  }

  lemma SurvivingEnds(held: Contents, todo: set<Key>, now: int)
    ensures todo == held.Keys ==> Surviving(held, todo, now) == held
    ensures todo == {} ==> Surviving(held, todo, now) == Unexpired(held, now)
  {
  }

  lemma SurvivingStep(held: Contents, todo: set<Key>, k: Key, now: int)
    requires k in todo && k in Surviving(held, todo, now)
    ensures var before, after := Surviving(held, todo, now), Surviving(held, todo - {k}, now);
            after == if now > before[k].expiresAt then before - {k} else before
  {
  }

  /** Forgetting the last of n keys leaves what the first n - 1 keys hold. */
  lemma RestrictFewer(held: Contents, order: seq<Key>, n: nat)
    requires Distinct(order) && 0 < n <= |order|
    ensures Take(order, n)[..n - 1] == Take(order, n - 1) && |Take(order, n)| == n
    ensures Restrict(held, Take(order, n)) - {Take(order, n)[n - 1]} == Restrict(held, Take(order, n - 1))
  {
    var longer, shorter := Take(order, n), Take(order, n - 1);
    assert longer == shorter + [order[n - 1]] && order[n - 1] !in shorter;
  }

  lemma TouchTwice(order: seq<Key>, k: Key, capacity: nat)
    ensures Touch(Without(order, k), k, capacity) == Touch(order, k, capacity)
  {
    WithoutMembers(order, k);
    WithoutAbsent(Without(order, k), k);
  }

  lemma TouchNew(held: Contents, order: seq<Key>, k: Key, capacity: nat, n: nat)
    requires k !in order && k !in held && capacity >= 1 && n == Min(|order|, capacity - 1)
    ensures Touch(order, k, capacity) == [k] + Take(order, n)
    ensures Restrict(held, Touch(order, k, capacity)) == Restrict(held, Take(order, n))
  {
    WithoutAbsent(order, k);
  }

  lemma TouchHeld(held: Contents, order: seq<Key>, k: Key, capacity: nat, t: Timed)
    requires Distinct(order) && k in order && |order| <= capacity && Restrict(held, order) == held
    ensures Touch(order, k, capacity) == [k] + Without(order, k)
    ensures Restrict(held, Touch(order, k, capacity))[k := t] == held[k := t]
  {
    TouchAll(order, k, capacity);
    WithoutMembers(order, k);
    hide Without, Distinct, Touch;
    forall x | x in held && x != k ensures x in [k] + Without(order, k) {
      assert x in Restrict(held, order);
      assert x in Without(order, k);
    }
  }

  lemma TouchAll(order: seq<Key>, k: Key, capacity: nat)
    requires Distinct(order) && k in order && |order| <= capacity
    ensures Touch(order, k, capacity) == [k] + Without(order, k)
  {
    var i :| 0 <= i < |order| && order[i] == k;
    WithoutIsDrop(order, i);
    hide Without, Drop, Distinct;
  }

  /** Each key was last used before the one in front of it. */
  ghost predicate ByLastUse(order: seq<Key>, lastUse: map<Key, nat>, clock: nat) {
    && (forall i :: 0 <= i < |order| ==> order[i] in lastUse && lastUse[order[i]] < clock)
    && (forall i, j :: 0 <= i < j < |order| ==> lastUse[order[i]] > lastUse[order[j]])
  }

  lemma RecordedDistinct(items: map<Key, Entry>, elems: seq<Element>)
    requires Recorded(items, elems) && Distinct(elems)
    ensures Distinct(Keys(elems))
  {
  }

  lemma PlaceOf(items: map<Key, Entry>, elems: seq<Element>, k: Key) returns (i: nat)
    requires Indexed(items, elems) && k in items
    ensures i < |elems| && elems[i].key == k && elems[i] == items[k].element
  {
    i :| 0 <= i < |elems| && Keys(elems)[i] == k;
  }

  lemma DropRecorded(items: map<Key, Entry>, elems: seq<Element>, i: nat)
    requires Recorded(items, elems) && Distinct(elems) && i < |elems|
    ensures Recorded(items - {elems[i].key}, Drop(elems, i))
  {
  }

  lemma KeysDrop(elems: seq<Element>, i: nat)
    requires i < |elems|
    ensures Keys(Drop(elems, i)) == Drop(Keys(elems), i)
  {
  }

  lemma WithoutListed(items: map<Key, Entry>, order: seq<Key>, k: Key)
    requires Listed(items, order)
    ensures Listed(items - {k}, Without(order, k))
  {
    WithoutMembers(order, k);
  }

  /** The key of an element leaves the index with it. */
  lemma DropIndexed(items: map<Key, Entry>, elems: seq<Element>, i: nat)
    requires Indexed(items, elems) && Distinct(elems) && i < |elems|
    ensures Indexed(items - {elems[i].key}, Drop(elems, i))
    ensures Keys(Drop(elems, i)) == Without(Keys(elems), elems[i].key)
  {
    hide Drop, Listed, Recorded, Distinct, Without;
    DropRecorded(items, elems, i);
    RecordedDistinct(items, elems);
    WithoutIsDrop(Keys(elems), i);
    KeysDrop(elems, i);
    WithoutListed(items, Keys(elems), elems[i].key);
  }

  lemma MovedRecorded(items: map<Key, Entry>, elems: seq<Element>, i: nat)
    requires Recorded(items, elems) && i < |elems|
    ensures Recorded(items, [elems[i]] + Drop(elems, i))
  {
  }

  lemma MovedListed(items: map<Key, Entry>, order: seq<Key>, k: Key)
    requires Listed(items, order)
    ensures Listed(items, [k] + Without(order, k))
  {
    WithoutMembers(order, k);
    forall x | x in items ensures x in [k] + Without(order, k) {
      assert x != k ==> x in Without(order, k);
    }
  }

  lemma MovedIndexed(items: map<Key, Entry>, elems: seq<Element>, i: nat)
    requires Indexed(items, elems) && Distinct(elems) && i < |elems|
    ensures Indexed(items, [elems[i]] + Drop(elems, i))
    ensures Keys([elems[i]] + Drop(elems, i)) == [elems[i].key] + Without(Keys(elems), elems[i].key)
  {
    hide Drop, Listed, Recorded, Distinct, Without;
    var k, rest := elems[i].key, Drop(elems, i);
    MovedRecorded(items, elems, i);
    RecordedDistinct(items, elems);
    WithoutIsDrop(Keys(elems), i);
    KeysDrop(elems, i);
    assert Keys([elems[i]] + rest) == [k] + Keys(rest);
    MovedListed(items, Keys(elems), k);
  }

  lemma AddedIndexed(items: map<Key, Entry>, elems: seq<Element>, entry: Entry)
    requires Indexed(items, elems) && entry.element.key !in items
    ensures Indexed(items[entry.element.key := entry], [entry.element] + elems)
    ensures Keys([entry.element] + elems) == [entry.element.key] + Keys(elems)
  {
    var k, added := entry.element.key, [entry.element] + elems;
    forall i | 0 <= i < |added|
      ensures added[i].key in items[k := entry] && items[k := entry][added[i].key].element == added[i]
    {
      assert i > 0 ==> added[i] == elems[i - 1];
    }
    assert Keys(added) == [k] + Keys(elems);
  }

  lemma UpdatedIndexed(items: map<Key, Entry>, elems: seq<Element>, k: Key, entry: Entry)
    requires Indexed(items, elems) && k in items && entry.element == items[k].element
    ensures Indexed(items[k := entry], elems)
  {
  }

  lemma ValuesUpdated(items: map<Key, Entry>, k: Key, entry: Entry)
    ensures Values(items[k := entry]) == Values(items)[k := Timed(entry.value, entry.expiresAt)]
  {
  }

  lemma FaithfulUpdated(held: Contents, written: Contents, k: Key, t: Timed)
    requires Faithful(held, written)
    ensures Faithful(held[k := t], written[k := t])
  {
  }

  lemma {:induction false} WithoutByLastUse(order: seq<Key>, k: Key, lastUse: map<Key, nat>, clock: nat)
    requires ByLastUse(order, lastUse, clock)
    ensures ByLastUse(Without(order, k), lastUse, clock)
  {
    if order != [] {
      var front, last := order[..|order| - 1], order[|order| - 1];
      WithoutByLastUse(front, k, lastUse, clock);
      WithoutMembers(front, k);
      assert forall x :: x in front ==> lastUse[x] > lastUse[last];
    }
  }

  lemma UsedNow(order: seq<Key>, k: Key, lastUse: map<Key, nat>, clock: nat)
    requires ByLastUse(order, lastUse, clock)
    ensures ByLastUse([k] + Without(order, k), lastUse[k := clock], clock + 1)
  {
    WithoutByLastUse(order, k, lastUse, clock);
    WithoutMembers(order, k);
    var rest := Without(order, k);
    forall i | 0 <= i < |rest| ensures rest[i] != k {
      assert rest[i] in rest;
    }
  }

  // ---- The cache ------------------------------------------------------------------------------

  class Cache {
    const maxSize: nat
    const lru: RecencyList
    var items: map<Key, Entry>
    var hits: nat
    var misses: nat
    var evictions: nat
    ghost var gets: nat
    ghost var written: Contents          // the latest Set of each key not deleted or cleared since
    ghost var clock: nat                 // uses so far
    ghost var lastUse: map<Key, nat>

    /** The keys, most recently used first. */
    ghost function Order(): seq<Key>
      reads lru
    {
      Keys(lru.elems)
    }

    ghost function Held(): Contents
      reads this`items
    {
      Values(items)
    }

    /** Every Get is a hit or a miss. */
    ghost predicate Counted()
      reads this`hits, this`misses, this`gets
    {
      hits + misses == gets
    }

    ghost predicate Valid()
      reads this`items, this`written, this`clock, this`lastUse, lru, lru.repr
    {
      && maxSize >= 1 && lru.Valid() && this !in lru.repr
      && Indexed(items, lru.elems)
      && ByLastUse(Order(), lastUse, clock)
      && Faithful(Held(), written)
      && |Order()| <= maxSize
    }

    /** A maximum size below one makes the eviction loop of Set spin, so the configuration must exclude it. */
    constructor (maxSize: nat)
      requires maxSize >= 1
      ensures Valid() && items == map[] && written == map[] && this.maxSize == maxSize
      ensures fresh(lru.repr) && Counted()
    {
      this.maxSize := maxSize;
      lru := new RecencyList();
      items, hits, misses, evictions := map[], 0, 0, 0;
      gets, written, clock, lastUse := 0, map[], 0, map[];
    }

    /** removeEntry */
    method RemoveEntry(k: Key)
      requires Valid() && k in items
      modifies this`items, lru.repr
      ensures Valid() && Order() == Without(old(Order()), k) && |Order()| == old(|Order()|) - 1
      ensures Held() == old(Held()) - {k}
      ensures lru.repr == old(lru.repr)
    {
      assert Distinct(lru.elems);
      hide Recorded, Listed, ByLastUse, RecencyList.Valid, Distinct, Drop, Without, Values, Faithful, Keys;
      var e := items[k].element;
      ghost var i := PlaceOf(items, lru.elems, k);
      DropIndexed(items, lru.elems, i);
      WithoutByLastUse(Order(), k, lastUse, clock);
      ValuesWithout(items, k);
      FaithfulWithout(Held(), written, k);
      lru.Remove(e, i);
      items := items - {k};
    }

    /** Moves the element of a held key to the front. */
    method Use(k: Key)
      requires Valid() && k in items
      modifies this`clock, this`lastUse, lru.repr
      ensures Valid() && Order() == [k] + Without(old(Order()), k)
      ensures clock == old(clock) + 1 && lastUse == old(lastUse)[k := old(clock)]
      ensures lru.repr == old(lru.repr)
    {
      assert Distinct(lru.elems);
      hide Recorded, Listed, Indexed, ByLastUse, RecencyList.Valid, Distinct, Drop, Without, Values, Faithful, Keys;
      ghost var i := PlaceOf(items, lru.elems, k);
      var e := items[k].element;
      MovedIndexed(items, lru.elems, i);
      UsedNow(Order(), k, lastUse, clock);
      lastUse, clock := lastUse[k := clock], clock + 1;
      lru.MoveToFront(e, i);
    }

    method EvictOldest()
      requires Valid() && lru.len > 0
      modifies this`items, this`evictions, lru.repr
      ensures Valid() && evictions == old(evictions) + 1
      ensures Order() == old(Order()[..|Order()| - 1])
      ensures Held() == old(Held()) - {old(Order()[|Order()| - 1])}
      ensures lru.repr == old(lru.repr)
    {
      Basics();
      LastListed();
      WithoutIsDrop(Order(), |Order()| - 1);
      hide Valid, Order, Held, Distinct, Without, RecencyList.Valid;
      var oldest := lru.Back();
      if oldest != null {
        RemoveEntry(oldest.key);
        evictions := evictions + 1;
      }
    }

    lemma LastListed()
      requires Valid() && lru.len > 0
      ensures Order()[|Order()| - 1] == lru.elems[|lru.elems| - 1].key
      ensures Order()[|Order()| - 1] in items && lru.Valid()
    {
    }

    /** Get: a hit is the value of the latest Set that has not expired, been deleted or been cleared. */
    method Get(k: Key, now: int) returns (value: Option<Value>)
      requires Valid() && Counted()
      modifies this`items, this`hits, this`misses, this`gets, this`clock, this`lastUse, lru.repr
      ensures Valid() && Counted()
      ensures value == if Live(old(Held()), k, now) then Some(old(Held())[k].value) else None
      ensures value.Some? ==> Live(written, k, now) && value == Some(written[k].value)
      ensures Held() == if value.Some? then old(Held()) else old(Held()) - {k}
      ensures Order() == (if value.Some? then [k] else []) + Without(old(Order()), k)
      ensures gets == old(gets) + 1 && hits == old(hits) + if value.Some? then 1 else 0
      ensures lru.repr == old(lru.repr)
    {
      hide Valid, Order, Held, Without, Live;
      FaithfulAt(k, now);
      Basics();
      if k !in items {
        AbsentOrder(k);
      }
      gets := gets + 1;
      if k !in items {
        misses := misses + 1;
        return None;
      }
      var entry := items[k];
      if now > entry.expiresAt {
        misses := misses + 1;
        RemoveEntry(k);
        return None;
      }
      hits := hits + 1;
      Use(k);
      return Some(entry.value);
    }

    lemma KeyHeld(k: Key)
      requires Valid()
      ensures (k in items <==> k in Held()) && (k in items <==> k in Order())
    {
      RecordedDistinct(items, lru.elems);
    }

    lemma FaithfulAt(k: Key, now: int)
      requires Valid()
      ensures k in items <==> k in Held()
      ensures k in items ==> Held()[k] == Timed(items[k].value, items[k].expiresAt)
      ensures Live(Held(), k, now) <==> k in items && now <= items[k].expiresAt
      ensures Live(Held(), k, now) ==> Live(written, k, now) && written[k].value == items[k].value
    {
    }

    lemma AbsentOrder(k: Key)
      requires Valid() && k !in items
      ensures k !in Order() && Without(Order(), k) == Order() && Held() - {k} == Held()
    {
      WithoutAbsent(Order(), k);
    }

    /** Set of a key that is held. */
    method Update(k: Key, value: Value, expiresAt: int)
      requires Valid() && k in items
      modifies this`items, this`written, this`clock, this`lastUse, lru.repr
      ensures Valid() && Order() == [k] + Without(old(Order()), k)
      ensures Held() == old(Held())[k := Timed(value, expiresAt)] && written == old(written)[k := Timed(value, expiresAt)]
      ensures lru.repr == old(lru.repr)
    {
      hide RecencyList.Valid, Indexed, ByLastUse, Values, Faithful, Keys, Without;
      var entry := Entry(value, expiresAt, items[k].element);
      UpdatedIndexed(items, lru.elems, k, entry);
      ValuesUpdated(items, k, entry);
      FaithfulUpdated(Held(), written, k, Timed(value, expiresAt));
      items, written := items[k := entry], written[k := Timed(value, expiresAt)];
      Use(k);
    }

    /** Set of a new key, once there is room for it. */
    method Insert(k: Key, value: Value, expiresAt: int)
      requires Valid() && k !in items && |Order()| < maxSize
      modifies this`items, this`written, this`clock, this`lastUse, lru.repr
      ensures Valid() && Order() == [k] + old(Order())
      ensures Held() == old(Held())[k := Timed(value, expiresAt)] && written == old(written)[k := Timed(value, expiresAt)]
      ensures old(lru.repr) <= lru.repr && fresh(lru.repr - old(lru.repr))
    {
      hide RecencyList.Valid, Indexed, ByLastUse, Values, Faithful, Keys, Without, Distinct, Linked;
      AbsentOrder(k);
      UsedNow(Order(), k, lastUse, clock);
      lastUse, clock := lastUse[k := clock], clock + 1;
      FaithfulUpdated(Held(), written, k, Timed(value, expiresAt));
      var e := lru.PushFront(k);
      var entry := Entry(value, expiresAt, e);
      AddedIndexed(items, old(lru.elems), entry);
      ValuesUpdated(items, k, entry);
      items, written := items[k := entry], written[k := Timed(value, expiresAt)];
    }

    /** The eviction loop of Set. */
    method MakeRoom()
      requires Valid()
      modifies this`items, this`evictions, lru.repr
      ensures Valid() && |Order()| == Min(old(|Order()|), maxSize - 1)
      ensures Order() == Take(old(Order()), |Order()|) && Held() == Restrict(old(Held()), Order())
      ensures evictions == old(evictions) + old(|Order()|) - |Order()|
      ensures lru.repr == old(lru.repr)
    {
      ghost var order, held := Order(), Held();
      Basics();
      assert Take(order, |order|) == order;
      hide Valid, Order, Held, Distinct, Restrict, Take;
      while lru.len >= maxSize
        invariant Valid() && lru.len == |Order()| <= |order| && |Order()| >= Min(|order|, maxSize - 1)
        invariant Order() == Take(order, |Order()|) && Held() == Restrict(held, Order())
        invariant evictions == old(evictions) + |order| - |Order()|
        invariant lru.repr == old(lru.repr)
      {
        RestrictFewer(held, order, |Order()|);
        EvictOldest();
        Basics();
      }
    }

    lemma Basics()
      requires Valid()
      ensures lru.len == |Order()| <= maxSize && maxSize >= 1 && this !in lru.repr
      ensures Distinct(Order()) && Held() == Restrict(Held(), Order())
    {
      RecordedDistinct(items, lru.elems);
      RestrictAll(items, Order());
    }

    method Add(k: Key, value: Value, expiresAt: int)
      requires Valid() && k !in items
      modifies this`items, this`evictions, this`written, this`clock, this`lastUse, lru.repr
      ensures Valid()
      ensures Order() == Touch(old(Order()), k, maxSize)
      ensures Held() == Restrict(old(Held()), Order())[k := Timed(value, expiresAt)]
      ensures written == old(written)[k := Timed(value, expiresAt)]
      ensures evictions == old(evictions) + if old(|Order()|) == maxSize then 1 else 0
      ensures old(lru.repr) <= lru.repr && fresh(lru.repr - old(lru.repr))
    {
      hide Valid, Order, Held, Distinct, Without, Touch, Restrict, Take;
      ghost var order, held := Order(), Held();
      Basics();
      KeyHeld(k);
      TouchNew(held, order, k, maxSize, Min(|order|, maxSize - 1));
      MakeRoom();
      AbsentAfter(held, k);
      Insert(k, value, expiresAt);
    }

    lemma AbsentAfter(held: Contents, k: Key)
      requires k !in held && Held() == Restrict(held, Order())
      ensures k !in items
    {
      assert k in items ==> k in Held();
    }

    /** Set. */
    method Set(k: Key, value: Value, ttl: int, now: int)
      requires Valid()
      modifies this`items, this`evictions, this`written, this`clock, this`lastUse, lru.repr
      ensures Valid()
      ensures Order() == Touch(old(Order()), k, maxSize)
      ensures Held() == Restrict(old(Held()), Order())[k := Timed(value, now + ttl)]
      ensures written == old(written)[k := Timed(value, now + ttl)]
      ensures evictions == old(evictions) + if k !in old(items) && old(|Order()|) == maxSize then 1 else 0
      ensures old(lru.repr) <= lru.repr && fresh(lru.repr - old(lru.repr))
    {
      hide Valid, Order, Held, Distinct, Without, Touch, Restrict, Take;
      Basics();
      if k in items {
        KeyHeld(k);
        TouchHeld(Held(), Order(), k, maxSize, Timed(value, now + ttl));
        Update(k, value, now + ttl);
      } else {
        Add(k, value, now + ttl);
      }
    }

    method Delete(k: Key)
      requires Valid()
      modifies this`items, this`written, lru.repr
      ensures Valid() && lru.repr == old(lru.repr)
      ensures Order() == Without(old(Order()), k) && Held() == old(Held()) - {k} && written == old(written) - {k}
    {
      hide Valid, Order, Held, Without;
      Basics();
      if k in items {
        RemoveEntry(k);
      } else {
        AbsentOrder(k);
      }
      KeyHeld(k);
      Forget(k);
    }

    ghost method Forget(k: Key)
      requires Valid() && k !in items
      modifies this`written
      ensures Valid() && written == old(written) - {k}
    {
      ForgottenWritten(k);
      hide RecencyList.Valid, Indexed, ByLastUse, Values, Faithful, Keys;
      written := written - {k};
    }

    lemma ForgottenWritten(k: Key)
      requires Valid() && k !in items
      ensures Faithful(Held(), written - {k})
    {
    }

    method Clear()
      requires Valid()
      modifies this`items, this`written, lru.repr
      ensures Valid() && lru.repr == old(lru.repr)
      ensures Order() == [] && Held() == map[] && written == map[]
    {
      items, written := map[], map[];
      lru.Init();
    }

    /** cleanup: whatever the order in which the map is walked, the unexpired entries remain, in the order they had. */
    method Cleanup(now: int)
      requires Valid()
      modifies this`items, lru.repr
      ensures Valid() && lru.repr == old(lru.repr)
      ensures Held() == Unexpired(old(Held()), now)
      ensures Order() == Only(old(Order()), Held().Keys)
    {
      hide Valid, Order, Held, Only, Surviving, Without, Unexpired;
      ghost var order, held := Order(), Held();
      Basics();
      AllListed();
      var todo := items.Keys;
      SurvivingEnds(held, todo, now);
      while todo != {}
        invariant Valid() && this !in lru.repr && lru.repr == old(lru.repr)
        invariant todo <= Held().Keys
        invariant Held() == Surviving(held, todo, now)
        invariant Order() == Only(order, Held().Keys)
      {
        var k :| k in todo;
        FaithfulAt(k, now);
        SurvivingStep(held, todo, k, now);
        OnlyWithout(order, Held().Keys, k);
        if now > items[k].expiresAt {
          RemoveEntry(k);
        }
        todo := todo - {k};
      }
      SurvivingEnds(held, todo, now);
    }

    lemma AllListed()
      requires Valid()
      ensures Only(Order(), Held().Keys) == Order() && items.Keys == Held().Keys
    {
      RecordedDistinct(items, lru.elems);
      OnlyAll(Order(), Held().Keys);
    }

    ghost function State(): View
      reads this`items, lru
    {
      View(Order(), Held())
    }

    /** Operations of other callers. */
    method Perform(calls: seq<Call>)
      requires Valid() && Counted()
      modifies this`items, this`hits, this`misses, this`evictions, this`gets, this`written, this`clock, this`lastUse, lru.repr
      ensures Valid() && Counted()
      ensures old(lru.repr) <= lru.repr && fresh(lru.repr - old(lru.repr))
      ensures State() == AfterCalls(old(State()), calls, maxSize)
      ensures calls == [] ==> hits == old(hits)
    {
      hide Valid, Order, Held, AfterCall;
      for i := 0 to |calls|
        invariant i == 0 ==> hits == old(hits)
        invariant Valid() && Counted()
        invariant old(lru.repr) <= lru.repr && fresh(lru.repr - old(lru.repr))
        invariant State() == AfterCalls(old(State()), calls[..i], maxSize)
      {
        assert calls[..i + 1][..i] == calls[..i];
        Do(calls[i]);
      }
      assert calls[..|calls|] == calls;
    }

    method Do(call: Call)
      requires Valid() && Counted()
      modifies this`items, this`hits, this`misses, this`evictions, this`gets, this`written, this`clock, this`lastUse, lru.repr
      ensures Valid() && Counted()
      ensures old(lru.repr) <= lru.repr && fresh(lru.repr - old(lru.repr))
      ensures State() == AfterCall(old(State()), call, maxSize)
    {
      hide Valid, Order, Held, Touch, Restrict, Without, Only, Live, Unexpired;
      Basics();
      match call
      case GetCall(k, now) =>
        var value := Get(k, now);
        assert [] + Without(old(Order()), k) == Without(old(Order()), k);
      case SetCall(k, value, ttl, now) => Set(k, value, ttl, now);
      case DeleteCall(k) => Delete(k);
      case ClearCall => Clear();
      case CleanupCall(now) => Cleanup(now);
    }

    /** GetOrSet; computed is what fn returns, None for an error.  The lock is free while fn runs: others is what other
        callers do in that time. */
    method GetOrSet(k: Key, ttl: int, now: int, later: int, computed: Option<Value>, others: seq<Call>)
      returns (value: Option<Value>, hit: bool)
      requires Valid() && Counted()
      modifies this`items, this`hits, this`misses, this`evictions, this`gets, this`written, this`clock, this`lastUse, lru.repr
      ensures Valid() && Counted()
      ensures old(lru.repr) <= lru.repr && fresh(lru.repr - old(lru.repr))
      ensures hit <==> Live(old(Held()), k, now)
      ensures value == if hit then Some(old(Held())[k].value) else computed
      ensures hit ==> Live(old(written), k, now) && value == Some(old(written)[k].value)
      ensures State() ==
        if hit then AfterGet(old(State()), k, now)
        else
          var between := AfterCalls(AfterGet(old(State()), k, now), others, maxSize);
          if computed.None? then between else AfterSet(between, k, Timed(computed.value, later + ttl), maxSize)
      ensures hit || others == [] ==> hits == old(hits) + if hit then 1 else 0
    {
      hide Valid, Order, Held, Without, Touch, Restrict, Live, AfterCalls;
      Basics();
      value := Get(k, now);
      assert [] + Without(old(Order()), k) == Without(old(Order()), k);
      assert State() == AfterGet(old(State()), k, now);
      if value.Some? {
        return value, true;
      }
      Perform(others);
      if computed.None? {
        return None, false;
      }
      Basics();
      Set(k, computed.value, ttl, later);
      return computed, false;
    }

    /** A caller alone: every success is one use of the key. */
    lemma AloneIsOneUse(k: Key, now: int, t: Timed)
      requires Valid()
      ensures (if Live(Held(), k, now) then AfterGet(State(), k, now)
               else AfterSet(AfterGet(State(), k, now), k, t, maxSize)).order == Touch(Order(), k, maxSize)
    {
      TouchOwn(k, now);
    }

    lemma TouchOwn(k: Key, now: int)
      requires Valid()
      ensures k in Order() ==> Touch(Order(), k, maxSize) == [k] + Without(Order(), k)
      ensures Touch(Without(Order(), k), k, maxSize) == Touch(Order(), k, maxSize)
      ensures Live(Held(), k, now) ==> k in Order()
    {
      hide Valid, Order, Held, Touch, Restrict;
      Basics();
      FaithfulAt(k, now);
      KeyHeld(k);
      if k in Order() {
        TouchHeld(Held(), Order(), k, maxSize, Timed(0, 0));
      }
      TouchTwice(Order(), k, maxSize);
    }
  }

  // ---- Two caches on one trace -----------------------------------------------------------------

  ghost predicate Lasting(held: Contents, horizon: int) {
    forall k :: k in held ==> horizon <= held[k].expiresAt
  }

  /** The calls of a trace: a key, what fn would return, and a time after which ttl reaches beyond the horizon. */
  datatype Use = Use(key: Key, computed: Value, now: int)

  function KeysOf(uses: seq<Use>): (trace: seq<Key>)
    ensures |trace| == |uses| && forall i :: 0 <= i < |uses| ==> trace[i] == uses[i].key
  {
    seq(|uses|, i requires 0 <= i < |uses| => uses[i].key)
  }

  lemma LastingUse(v: View, u: Use, ttl: int, horizon: int, capacity: nat)
    requires Lasting(v.held, horizon) && u.now <= horizon <= u.now + ttl
    ensures Lasting(AfterGet(v, u.key, u.now).held, horizon)
    ensures Lasting(AfterSet(AfterGet(v, u.key, u.now), u.key, Timed(u.computed, u.now + ttl), capacity).held, horizon)
    ensures Live(v.held, u.key, u.now) <==> u.key in v.held
  {
  }

  lemma RecencyNext(trace: seq<Key>, i: nat, capacity: nat)
    requires i < |trace|
    ensures Recency(trace[..i + 1], capacity) == Touch(Recency(trace[..i], capacity), trace[i], capacity)
    ensures Hits(trace[..i + 1], capacity) ==
      Hits(trace[..i], capacity) + if trace[i] in Recency(trace[..i], capacity) then 1 else 0
  {
    assert trace[..i + 1][..i] == trace[..i];
  }

  /** One caller follows a trace of GetOrSet on an empty cache while nothing expires: the list is the recency list of
      the trace, and the hits are its members. */
  method Follow(c: Cache, uses: seq<Use>, ttl: int, horizon: int) returns (hits: seq<bool>)
    requires c.Valid() && c.Counted() && c.State() == View([], map[])
    requires forall i :: 0 <= i < |uses| ==> uses[i].now <= horizon <= uses[i].now + ttl
    modifies c, c.lru.repr
    ensures c.Valid() && c.Counted()
    ensures c.Order() == Recency(KeysOf(uses), c.maxSize)
    ensures c.hits == old(c.hits) + Hits(KeysOf(uses), c.maxSize)
    ensures |hits| == |uses|
    ensures forall i :: 0 <= i < |uses| ==> (hits[i] <==> KeysOf(uses)[i] in Recency(KeysOf(uses)[..i], c.maxSize))
    ensures old(c.lru.repr) <= c.lru.repr && fresh(c.lru.repr - old(c.lru.repr))
  {
    hide Cache.Valid, Cache.Order, Cache.Held, Cache.Counted, Live, Recency, Hits, AfterGet, AfterSet, Lasting;
    var trace := KeysOf(uses);
    NothingYet(trace, c.maxSize, horizon);
    hits := [];
    for i := 0 to |uses|
      invariant c.Valid() && c.Counted() && Lasting(c.Held(), horizon)
      invariant c.Order() == Recency(trace[..i], c.maxSize)
      invariant c.hits == old(c.hits) + Hits(trace[..i], c.maxSize)
      invariant |hits| == i
      invariant forall j :: 0 <= j < i ==> (hits[j] <==> trace[j] in Recency(trace[..j], c.maxSize))
      invariant old(c.lru.repr) <= c.lru.repr && fresh(c.lru.repr - old(c.lru.repr))
    {
      var u := uses[i];
      c.KeyHeld(u.key);
      LastingUse(c.State(), u, ttl, horizon, c.maxSize);
      c.AloneIsOneUse(u.key, u.now, Timed(u.computed, u.now + ttl));
      RecencyNext(trace, i, c.maxSize);
      ghost var before := c.State();
      NoCalls(AfterGet(before, u.key, u.now), c.maxSize);
      var value, hit := c.GetOrSet(u.key, ttl, u.now, u.now, Some(u.computed), []);
      hits := hits + [hit];
    }
    assert trace[..|uses|] == trace;
  }

  lemma NothingYet(trace: seq<Key>, capacity: nat, horizon: int)
    ensures Recency(trace[..0], capacity) == [] && Hits(trace[..0], capacity) == 0 && Lasting(map[], horizon)
  {
  }

  lemma NoCalls(v: View, capacity: nat)
    ensures AfterCalls(v, [], capacity) == v
  {
  }

  /** The larger cache hits whenever the smaller does, and the smaller holds the front of the larger. */
  method Compare(small: Cache, large: Cache, uses: seq<Use>, ttl: int, horizon: int)
    returns (smallHits: seq<bool>, largeHits: seq<bool>)
    requires small.Valid() && small.Counted() && small.State() == View([], map[])
    requires large.Valid() && large.Counted() && large.State() == View([], map[])
    requires small.maxSize <= large.maxSize
    requires {small} + small.lru.repr !! {large} + large.lru.repr
    requires forall i :: 0 <= i < |uses| ==> uses[i].now <= horizon <= uses[i].now + ttl
    modifies small, small.lru.repr, large, large.lru.repr
    ensures |smallHits| == |largeHits| == |uses|
    ensures forall i :: 0 <= i < |uses| && smallHits[i] ==> largeHits[i]
    ensures small.hits - old(small.hits) <= large.hits - old(large.hits)
    ensures small.Order() == Take(large.Order(), small.maxSize)
  {
    smallHits := Follow(small, uses, ttl, horizon);
    largeHits := Follow(large, uses, ttl, horizon);
    SmallerIsPrefix(KeysOf(uses), small.maxSize, large.maxSize);
    LargerHitsMore(KeysOf(uses), small.maxSize, large.maxSize);
  }
}
