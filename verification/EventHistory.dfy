/** The ring buffer of recent events kept for replay. */
module EventHistory {
  import opened Storage

  datatype Event = Event(kind: nat, body: nat)

  /** Which events a subscriber wants: a set of event types and an optional filter. */
  datatype Interest = Interest(kinds: set<nat>, filter: Option<Event -> bool>) {
    predicate Wants(e: Event) {
      e.kind in kinds && (filter.Some? ==> filter.value(e))
    }
  }

  function Matching(s: seq<Event>, want: Interest): seq<Event> {
    if s == [] then []
    else Matching(s[..|s| - 1], want) + if want.Wants(s[|s| - 1]) then [s[|s| - 1]] else []
  }

  lemma MatchingNone(want: Interest)
    ensures Matching([], want) == []
  {
  }

  lemma MatchingAppend(s: seq<Event>, e: Event, want: Interest)
    ensures Matching(s + [e], want) == Matching(s, want) + if want.Wants(e) then [e] else []
  {
    assert (s + [e])[..|s|] == s;
  }

  function LastN(s: seq<Event>, n: nat): seq<Event> {
    if |s| > n then s[|s| - n..] else s
  }

  function Floor(x: int): nat {
    if x < 0 then 0 else x
  }

  /** The events still in a ring of the given size after storing s. */
  function Window(s: seq<Event>, size: nat): seq<Event> {
    LastN(s, size)
  }

  // ---- slots of a ring of n ----

  /** The slot of the event stored as number j. */
  function SlotOf(j: nat, n: nat): (k: nat)
    requires n > 0
    ensures k < n
  {
    j % n
  }

  lemma MulBound(d: int, n: nat)
    ensures d >= 1 ==> d * n >= n
    ensures d <= -1 ==> d * n + n <= 0
  {
  }

  lemma SlotUnique(x: nat, q: nat, r: nat, n: nat)
    requires n > 0 && r < n && x == q * n + r
    ensures SlotOf(x, n) == r
  {
    var d: int := x / n - q;
    assert d * n == r - x % n;
    MulBound(d, n);
  }

  lemma SlotOnce(x: nat, n: nat)
    requires n > 0
    ensures SlotOf(x + n, n) == SlotOf(x, n)
  {
    var q, r := x / n, x % n;
    assert x == q * n + r;
    assert x + n == (q + 1) * n + r;
    SlotUnique(x + n, q + 1, r, n);
  }

  /** Advancing by i < n slots from the slot of a. */
  lemma SlotAdvance(a: nat, i: nat, n: nat)
    requires i <= n && n > 0
    ensures (SlotOf(a, n) + i) % n == SlotOf(a + i, n)
  {
    var q, r := a / n, a % n;
    assert a == q * n + r;
    if r + i < n {
      SlotUnique(a + i, q, r + i, n);
      SlotUnique(r + i, 0, r + i, n);
    } else {
      assert a + i == (q + 1) * n + (r + i - n);
      SlotUnique(a + i, q + 1, r + i - n, n);
      SlotUnique(r + i, 1, r + i - n, n);
    }
  }

  lemma SlotSmall(x: nat, n: nat)
    requires x < n
    ensures SlotOf(x, n) == x
  {
  }

  /** Events stored less than n apart fall into different slots. */
  lemma SlotsDistinct(a: nat, b: nat, n: nat)
    requires a < b < a + n
    ensures SlotOf(a, n) != SlotOf(b, n)
  {
    var d: int := b / n - a / n;
    assert b - a == d * n + (b % n - a % n);
    MulBound(d, n);
  }

  /** With count events stored, the slot i after the oldest one is that of event count + i - n, or
      still unused. */
  lemma SlotOfEntry(count: nat, i: nat, n: nat)
    requires i < n
    ensures (SlotOf(count, n) + i) % n == if count + i >= n then SlotOf(count + i - n, n) else count + i
  {
    SlotAdvance(count, i, n);
    if count + i >= n {
      SlotOnce(count + i - n, n);
    } else {
      SlotSmall(count + i, n);
    }
  }

  class EventHistory {
    const ring: array<Option<Event>>
    var index: nat
    ghost var stored: seq<Event>   // every event ever stored

    ghost predicate Valid()
      reads this, ring
    {
      && ring.Length > 0
      && index == SlotOf(|stored|, ring.Length)
      && (forall j :: 0 <= j < |stored| && |stored| <= j + ring.Length ==> ring[SlotOf(j, ring.Length)] == Some(stored[j]))
      && (forall j :: |stored| <= j < ring.Length ==> ring[j] == None)
    }

    constructor (size: nat)
      ensures Valid() && fresh(ring) && stored == [] && ring.Length == if size == 0 then 100 else size
    {
      var n := if size == 0 then 100 else size;
      ring := new Option<Event>[n](_ => None);
      index, stored := 0, [];
    }

    /** storeEventInHistory */
    method StoreEvent(e: Event)
      requires Valid()
      modifies this, ring
      ensures Valid() && stored == old(stored) + [e]
    {
      hide SlotOf;
      ghost var n := |stored|;
      SlotAdvance(n, 1, ring.Length);
      ring[index] := Some(e);
      index := (index + 1) % ring.Length;
      stored := stored + [e];
      forall j | 0 <= j < n && |stored| <= j + ring.Length ensures SlotOf(j, ring.Length) != SlotOf(n, ring.Length) {
        SlotsDistinct(j, n, ring.Length);
      }
      if n < ring.Length {
        SlotSmall(n, ring.Length);
      }
    }

    /** Slot i after the oldest one holds the event i places after the start of a full window. */
    function Entry(i: nat): (entry: Option<Event>)
      requires Valid() && i < ring.Length
      reads this, ring
      ensures entry == if |stored| + i >= ring.Length then Some(stored[|stored| + i - ring.Length]) else None
    {
      SlotOfEntry(|stored|, i, ring.Length);
      ring[(index + i) % ring.Length]
    }

    /** getRecentEvents: the last n events that match, among those still in the ring, oldest first;
        a count of zero or less, or above the size of the ring, means all of them. */
    method GetRecentEvents(count: int, want: Interest) returns (recent: seq<Event>)
      requires Valid()
      ensures recent == LastN(Matching(Window(stored, ring.Length), want),
                              if count <= 0 || count > ring.Length then ring.Length else count)
    {
      hide SlotOf, Matching, Valid;
      var size := ring.Length;
      var n := count;
      if n <= 0 || n > size {
        n := size;
      }
      var matched := [];
      ghost var skipped := Floor(|stored| - size);
      MatchingNone(want);
      assert stored[skipped..skipped] == [];
      var i := 0;
      while i < size
        invariant 0 <= i <= size
        invariant matched == Matching(stored[skipped..Floor(|stored| - size + i)], want)
      {
        var entry := Entry(i);
        if entry.Some? {
          ghost var j := |stored| - size + i;
          assert stored[skipped..j + 1] == stored[skipped..j] + [stored[j]];
          MatchingAppend(stored[skipped..j], stored[j], want);
          var event := entry.value;
          if event.kind in want.kinds && (want.filter.None? || want.filter.value(event)) {
            matched := matched + [event];
          }
        }
        i := i + 1;
      }
      assert stored[skipped..|stored|] == Window(stored, size);
      if |matched| > n {
        matched := matched[|matched| - n..];
      }
      recent := matched;
    }
  }
}
