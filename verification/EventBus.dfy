/** The in-process event bus: a bounded publish queue, subscriptions with bounded channels, and the
    accounting of deliveries and drops. */
module EventBus {
  import opened Storage
  import opened EventHistory
  import opened Streams
  import opened Sums

  type SubscriptionId = nat

  /** A subscription and what has gone through its channel.  The registry maps ids to subscriptions by
      number, because a second subscription under the same id replaces the first one in the registry
      only: its holder keeps the channel. */
  datatype Subscription = Subscription(
    want: Interest,
    capacity: nat,
    channel: seq<Event>, closed: bool,
    taken: seq<Event>,              // received by the subscriber
    received: nat, dropped: nat,    // Stats
    lost: nat,                      // of the dropped, those that were broadcast
    since: nat,                     // events broadcast before it was registered
    live: seq<Event>,               // what it was sent by broadcasts
    replayed: seq<Event>,           // and by the replay
    replays: seq<Event>)            // what the replay has offered

  function Sent(s: Subscription): seq<Event> {
    s.taken + s.channel
  }

  /** A non-blocking send with its accounting. */
  function Offer(s: Subscription, e: Event): Subscription {
    if |s.channel| < s.capacity then s.(channel := s.channel + [e], received := s.received + 1, live := s.live + [e])
    else s.(dropped := s.dropped + 1, lost := s.lost + 1)
  }

  /** What a broadcast does to a registered subscription: an event it wants goes to the end of a channel that has room and
      counts as received, and counts as dropped when the channel is full; nothing else changes. */
  ghost predicate Reached(was: Subscription, now: Subscription, e: Event) {
    && now.want == was.want && now.capacity == was.capacity && now.closed == was.closed && now.taken == was.taken
    && now.since == was.since && now.replays == was.replays && now.replayed == was.replayed
    && (was.want.Wants(e) && |was.channel| < was.capacity ==>
          now.channel == was.channel + [e] && now.received == was.received + 1 && now.dropped == was.dropped
          && now.live == was.live + [e] && now.lost == was.lost)
    && (was.want.Wants(e) && |was.channel| >= was.capacity ==>
          now.channel == was.channel && now.received == was.received && now.dropped == was.dropped + 1
          && now.live == was.live && now.lost == was.lost + 1)
    && (!was.want.Wants(e) ==> now == was)
  }

  /** The subscriber has taken the first event off the channel; what has been sent to it does not change. */
  function Taken(s: Subscription): Subscription
    requires s.channel != []
  {
    s.(channel := s.channel[1..], taken := s.taken + [s.channel[0]])
  }

  lemma TakenSent(s: Subscription)
    requires s.channel != []
    ensures Sent(Taken(s)) == Sent(s)
  {
  }

  /** The same by the replay. */
  function OfferReplay(s: Subscription, e: Event): Subscription {
    var t := s.(replays := s.replays + [e]);
    if |s.channel| < s.capacity
    then t.(channel := s.channel + [e], received := s.received + 1, replayed := s.replayed + [e])
    else t.(dropped := s.dropped + 1)
  }

  lemma TakenAccounted(s: Subscription, broadcast: seq<Event>)
    requires s.channel != []
    ensures Accounted(s, broadcast) ==> Accounted(Taken(s), broadcast)
    ensures UpToDate(s, broadcast) ==> UpToDate(Taken(s), broadcast)
  {
    TakenSent(s);
  }

  /** What a send of the replay does, in the same way. */
  ghost predicate ReplayReached(was: Subscription, now: Subscription, e: Event) {
    && now.want == was.want && now.capacity == was.capacity && now.closed == was.closed && now.taken == was.taken
    && now.since == was.since && now.live == was.live && now.lost == was.lost && now.replays == was.replays + [e]
    && (|was.channel| < was.capacity ==>
          now.channel == was.channel + [e] && now.received == was.received + 1 && now.dropped == was.dropped
          && now.replayed == was.replayed + [e])
    && (|was.channel| >= was.capacity ==>
          now.channel == was.channel && now.received == was.received && now.dropped == was.dropped + 1
          && now.replayed == was.replayed)
  }

  lemma ReplayReaches(s: Subscription, e: Event)
    ensures ReplayReached(s, OfferReplay(s, e), e) && OfferReplay(s, e).live == s.live && OfferReplay(s, e).lost == s.lost
  {
  }

  type Registry = map<SubscriptionId, nat>
  type Table = map<nat, Subscription>

  /** The ids whose subscriptions want an event. */
  ghost function Interested(registry: Registry, subs: Table, e: Event): set<SubscriptionId>
    requires registry.Values <= subs.Keys
  {
    set id | id in registry && subs[registry[id]].want.Wants(e)
  }

  /** Those among them whose channel has room. */
  ghost function Roomy(registry: Registry, subs: Table, e: Event): set<SubscriptionId>
    requires registry.Values <= subs.Keys
  {
    set id | id in registry && subs[registry[id]].want.Wants(e) && |subs[registry[id]].channel| < subs[registry[id]].capacity
  }

  ghost predicate Injective(registry: Registry) {
    forall a, b :: a in registry && b in registry && registry[a] == registry[b] ==> a == b
  }

  /** What one subscription has been sent, against the events broadcast so far. */
  ghost predicate Accounted(s: Subscription, broadcast: seq<Event>) {
    && |s.channel| <= s.capacity
    && s.since <= |broadcast|
    && s.received == |Sent(s)| && s.dropped + |s.replayed| == s.lost + |s.replays|
    && Merged(Sent(s), s.live, s.replayed)
    && Subsequence(s.live, Matching(broadcast[s.since..], s.want))
    && Subsequence(s.replayed, s.replays)
  }

  /** A registered subscription has been offered every event it wants since it was registered. */
  ghost predicate UpToDate(s: Subscription, broadcast: seq<Event>) {
    && !s.closed
    && (s.since <= |broadcast| ==>
          s.received + s.dropped == |Matching(broadcast[s.since..], s.want)| + |s.replays|)
  }

  lemma OfferAccounted(s: Subscription, broadcast: seq<Event>, e: Event)
    requires Accounted(s, broadcast) && s.want.Wants(e)
    ensures Accounted(Offer(s, e), broadcast + [e])
    ensures UpToDate(s, broadcast) ==> UpToDate(Offer(s, e), broadcast + [e])
  {
    WantedGrows(s, broadcast, e);
    var wanted := Matching(broadcast[s.since..], s.want);
    SubsequenceTake(s.live, wanted, e);
    SubsequenceSkip(s.live, wanted, e);
    OfferMerged(s, e);
    hide Matching, Merged, Subsequence, Sent;
  }

  lemma OfferMerged(s: Subscription, e: Event)
    requires Merged(Sent(s), s.live, s.replayed)
    ensures Merged(Sent(Offer(s, e)), Offer(s, e).live, s.replayed)
    ensures |Sent(Offer(s, e))| - |Sent(s)| == Offer(s, e).received - s.received
  {
    if |s.channel| < s.capacity {
      assert Sent(Offer(s, e)) == Sent(s) + [e];
      MergedGrows(Sent(s), s.live, s.replayed, e);
    }
  }

  lemma WantedGrows(s: Subscription, broadcast: seq<Event>, e: Event)
    requires s.since <= |broadcast| && s.want.Wants(e)
    ensures Matching((broadcast + [e])[s.since..], s.want) == Matching(broadcast[s.since..], s.want) + [e]
  {
    assert (broadcast + [e])[s.since..] == broadcast[s.since..] + [e];
    MatchingAppend(broadcast[s.since..], e, s.want);
  }

  lemma OfferReplayAccounted(s: Subscription, broadcast: seq<Event>, e: Event)
    requires Accounted(s, broadcast)
    ensures Accounted(OfferReplay(s, e), broadcast)
    ensures UpToDate(s, broadcast) ==> UpToDate(OfferReplay(s, e), broadcast)
  {
    if |s.channel| < s.capacity {
      assert Sent(OfferReplay(s, e)) == Sent(s) + [e];
      MergedGrows(Sent(s), s.live, s.replayed, e);
      SubsequenceTake(s.replayed, s.replays, e);
    } else {
      SubsequenceSkip(s.replayed, s.replays, e);
    }
  }

  /** An event that is not offered, to a subscription that does not want it or is no longer registered. */
  lemma PassedAccounted(s: Subscription, broadcast: seq<Event>, e: Event)
    requires Accounted(s, broadcast)
    ensures Accounted(s, broadcast + [e])
    ensures UpToDate(s, broadcast) && !s.want.Wants(e) ==> UpToDate(s, broadcast + [e])
  {
    assert (broadcast + [e])[s.since..] == broadcast[s.since..] + [e];
    MatchingAppend(broadcast[s.since..], e, s.want);
    assert Matching(broadcast[s.since..], s.want) + [] == Matching(broadcast[s.since..], s.want);
    if s.want.Wants(e) {
      SubsequenceSkip(s.live, Matching(broadcast[s.since..], s.want), e);
    }
  }

  /** How many events broadcasts gave to each subscription. */
  ghost function LiveCounts(subs: Table): map<nat, nat> {
    map h | h in subs :: |subs[h].live|
  }

  /** And how many each lost. */
  ghost function LostCounts(subs: Table): map<nat, nat> {
    map h | h in subs :: subs[h].lost
  }

  lemma CountsChange(subs: Table, h: nat, s: Subscription)
    requires h in subs && |s.live| >= |subs[h].live| && s.lost >= subs[h].lost
    ensures Sum(LiveCounts(subs[h := s])) == Sum(LiveCounts(subs)) + |s.live| - |subs[h].live|
    ensures Sum(LostCounts(subs[h := s])) == Sum(LostCounts(subs)) + s.lost - subs[h].lost
  {
    assert LiveCounts(subs[h := s]) == LiveCounts(subs)[h := |s.live|];
    assert LostCounts(subs[h := s]) == LostCounts(subs)[h := s.lost];
    SumMore(LiveCounts(subs), h, |s.live| - |subs[h].live|);
    SumMore(LostCounts(subs), h, s.lost - subs[h].lost);
  }

  lemma CountsNew(subs: Table, h: nat, s: Subscription)
    requires h !in subs && s.live == [] && s.lost == 0
    ensures Sum(LiveCounts(subs[h := s])) == Sum(LiveCounts(subs))
    ensures Sum(LostCounts(subs[h := s])) == Sum(LostCounts(subs))
  {
    assert LiveCounts(subs[h := s]) == LiveCounts(subs)[h := 0];
    assert LostCounts(subs[h := s]) == LostCounts(subs)[h := 0];
    SumMore(LiveCounts(subs), h, 0);
    SumMore(LostCounts(subs), h, 0);
  }

  ghost predicate Totaled(subs: Table, deliveries: nat, drops: nat) {
    deliveries == Sum(LiveCounts(subs)) && drops == Sum(LostCounts(subs))
  }

  /** Every subscription is accounted for, and every registered one is open and up to date. */
  ghost predicate Kept(registry: Registry, subs: Table, bound: nat, broadcast: seq<Event>) {
    && registry.Values <= subs.Keys && Injective(registry)
    && (forall h :: h in subs ==> h < bound && Accounted(subs[h], broadcast))
    && (forall id :: id in registry ==> UpToDate(subs[registry[id]], broadcast))
  }

  lemma RegisteredKept(registry: Registry, subs: Table, bound: nat, broadcast: seq<Event>)
    requires Kept(registry, subs, bound, broadcast)
    ensures registry.Values <= subs.Keys && Injective(registry)
    ensures forall id :: id in registry ==> registry[id] in registry.Values
    ensures forall id :: id in registry ==> registry[id] in subs && !subs[registry[id]].closed
  {
    assert forall id :: id in registry ==> registry[id] in registry.Values;
  }

  /** A new subscription under a new number. */
  lemma SubscribeKeeps(registry: Registry, subs: Table, h: nat, broadcast: seq<Event>, id: SubscriptionId, s: Subscription,
                       deliveries: nat, drops: nat)
    requires Kept(registry, subs, h, broadcast) && Totaled(subs, deliveries, drops)
    requires s == Subscription(s.want, s.capacity, [], false, [], 0, 0, 0, |broadcast|, [], [], [])
    ensures h !in subs && Kept(registry[id := h], subs[h := s], h + 1, broadcast) && Totaled(subs[h := s], deliveries, drops)
  {
    assert broadcast[|broadcast|..] == [];
    assert UpToDate(s, broadcast) && Accounted(s, broadcast);
    RegisteredKept(registry, subs, h, broadcast);
    CountsNew(subs, h, s);
    hide UpToDate, Accounted;
    var more, after := registry[id := h], subs[h := s];
    forall i | i in more ensures UpToDate(after[more[i]], broadcast) {
      assert i != id ==> more[i] == registry[i];
    }
  }

  /** A change to one subscription that leaves it accounted for. */
  lemma ChangeKeeps(registry: Registry, subs: Table, bound: nat, broadcast: seq<Event>, h: nat, s: Subscription,
                    deliveries: nat, drops: nat)
    requires Kept(registry, subs, bound, broadcast) && Totaled(subs, deliveries, drops) && h in subs
    requires Accounted(s, broadcast) && (UpToDate(subs[h], broadcast) ==> UpToDate(s, broadcast))
    requires s.live == subs[h].live && s.lost == subs[h].lost
    ensures Kept(registry, subs[h := s], bound, broadcast) && Totaled(subs[h := s], deliveries, drops)
  {
    RegisteredKept(registry, subs, bound, broadcast);
    CountsChange(subs, h, s);
    hide UpToDate, Accounted;
  }

  lemma TakeKeeps(registry: Registry, subs: Table, bound: nat, broadcast: seq<Event>, h: nat, deliveries: nat, drops: nat)
    requires Kept(registry, subs, bound, broadcast) && Totaled(subs, deliveries, drops)
    requires h in subs && subs[h].channel != []
    ensures Kept(registry, subs[h := Taken(subs[h])], bound, broadcast)
    ensures Totaled(subs[h := Taken(subs[h])], deliveries, drops)
  {
    TakenAccounted(subs[h], broadcast);
    ChangeKeeps(registry, subs, bound, broadcast, h, Taken(subs[h]), deliveries, drops);
  }

  lemma ReplayKeeps(registry: Registry, subs: Table, bound: nat, broadcast: seq<Event>, h: nat, e: Event, deliveries: nat, drops: nat)
    requires Kept(registry, subs, bound, broadcast) && Totaled(subs, deliveries, drops) && h in subs
    ensures Kept(registry, subs[h := OfferReplay(subs[h], e)], bound, broadcast)
    ensures Totaled(subs[h := OfferReplay(subs[h], e)], deliveries, drops)
  {
    OfferReplayAccounted(subs[h], broadcast, e);
    ChangeKeeps(registry, subs, bound, broadcast, h, OfferReplay(subs[h], e), deliveries, drops);
  }

  /** The subscription under id is closed and no longer registered. */
  lemma LeaveKeeps(registry: Registry, subs: Table, bound: nat, broadcast: seq<Event>, id: SubscriptionId,
                   deliveries: nat, drops: nat)
    requires Kept(registry, subs, bound, broadcast) && Totaled(subs, deliveries, drops) && id in registry
    ensures registry[id] in subs && !subs[registry[id]].closed
    ensures var h := registry[id]; var after := subs[h := subs[h].(closed := true)];
            Kept(registry - {id}, after, bound, broadcast) && Totaled(after, deliveries, drops)
  {
    RegisteredKept(registry, subs, bound, broadcast);
    var h := registry[id];
    var s := subs[h].(closed := true);
    assert Accounted(subs[h], broadcast) && Sent(s) == Sent(subs[h]);
    assert Accounted(s, broadcast);
    CountsChange(subs, h, s);
    hide UpToDate, Accounted;
    var less, after := registry - {id}, subs[h := s];
    forall i | i in less ensures UpToDate(after[less[i]], broadcast) {
      assert registry[i] != h;
    }
  }

  /** The table after a broadcast has reached the ids in done. */
  ghost function Offered(registry: Registry, subs: Table, e: Event, done: set<SubscriptionId>): Table
    requires registry.Values <= subs.Keys
  {
    map h | h in subs :: if exists id :: id in done && id in registry && registry[id] == h && subs[h].want.Wants(e)
                         then Offer(subs[h], e) else subs[h]
  }

  /** Every registered subscription has been reached, and no other one touched. */
  ghost predicate Broadcasted(registry: Registry, subs: Table, after: Table, e: Event) {
    && after.Keys == subs.Keys
    && (forall id :: id in registry && registry[id] in subs && registry[id] in after ==>
          Reached(subs[registry[id]], after[registry[id]], e))
    && (forall h :: h in subs && h in after && h !in registry.Values ==> after[h] == subs[h])
  }

  lemma OfferedReaches(registry: Registry, subs: Table, e: Event)
    requires registry.Values <= subs.Keys
    ensures Broadcasted(registry, subs, Offered(registry, subs, e, registry.Keys), e)
  {
    var after := Offered(registry, subs, e, registry.Keys);
    forall h | h in subs && h !in registry.Values ensures after[h] == subs[h] {
      assert forall id :: id in registry ==> registry[id] in registry.Values;
    }
  }

  lemma OfferedNone(registry: Registry, subs: Table, e: Event)
    requires registry.Values <= subs.Keys
    ensures Offered(registry, subs, e, {}) == subs
  {
  }

  lemma InterestedRegistered(registry: Registry, subs: Table, e: Event)
    requires registry.Values <= subs.Keys
    ensures Roomy(registry, subs, e) <= Interested(registry, subs, e) <= registry.Keys
  {
  }

  /** The broadcast reaches one more id. */
  lemma OfferedStep(registry: Registry, subs: Table, e: Event, done: set<SubscriptionId>, id: SubscriptionId)
    requires registry.Values <= subs.Keys && Injective(registry) && id in registry && id !in done
    ensures var h := registry[id]; var now := Offered(registry, subs, e, done);
            && h in subs && h in now && now[h] == subs[h]
            && (id in Interested(registry, subs, e) <==> subs[h].want.Wants(e))
            && (id in Roomy(registry, subs, e) <==> subs[h].want.Wants(e) && |subs[h].channel| < subs[h].capacity)
            && Offered(registry, subs, e, done + {id})
               == if subs[h].want.Wants(e) then now[h := Offer(subs[h], e)] else now
  {
    var h, now := registry[id], Offered(registry, subs, e, done);
    assert h in registry.Values;
    var next := Offered(registry, subs, e, done + {id});
    assert next.Keys == now.Keys;
    forall g | g in now && g != h ensures next[g] == now[g] {
    }
  }

  ghost function Count(done: set<SubscriptionId>, some: set<SubscriptionId>): nat {
    |done * some|
  }

  lemma CountAll(done: set<SubscriptionId>, some: set<SubscriptionId>)
    requires some <= done
    ensures Count(done, some) == |some|
    ensures Count({}, some) == 0
  {
    assert done * some == some && {} * some == {};
  }

  lemma CountOneMore(done: set<SubscriptionId>, some: set<SubscriptionId>, id: SubscriptionId)
    requires id !in done
    ensures Count(done + {id}, some) == Count(done, some) + if id in some then 1 else 0
  {
    if id in some {
      assert (done + {id}) * some == done * some + {id};
    } else {
      assert (done + {id}) * some == done * some;
    }
  }

  // ---- What other goroutines do during a replay ---------------------------------------------------

  datatype BusCall =
    | PublishCall(event: Event)
    | HandleCall                       // Run takes an event off the queue
    | SubscribeCall(id: SubscriptionId, want: Interest, channelSize: int)
    | UnsubscribeCall(id: SubscriptionId)
    | ReceiveCall(handle: nat)
    | StopCall                         // the context is cancelled and Run closes all subscriptions

  /** Where a subscription stands: registered under its id, no longer registered but open since another took its
      place, or closed. */
  datatype Standing = Current | Replaced | Gone

  function AfterCall(st: Standing, call: BusCall, id: SubscriptionId, running: bool): Standing {
    if st != Current then st
    else if call.SubscribeCall? && call.id == id then Replaced
    else if call.UnsubscribeCall? && call.id == id then Gone
    else if call.StopCall? && running then Gone
    else Current
  }

  /** The standing of the subscription registered under id after the calls, on a bus that runs or does not. */
  function AfterCalls(calls: seq<BusCall>, id: SubscriptionId, running: bool): Standing {
    if calls == [] then Current
    else AfterCall(AfterCalls(calls[..|calls| - 1], id, running), calls[|calls| - 1], id, running)
  }

  lemma AfterOneMore(calls: seq<BusCall>, call: BusCall, id: SubscriptionId, running: bool)
    ensures AfterCalls(calls + [call], id, running) == AfterCall(AfterCalls(calls, id, running), call, id, running)
  {
    assert (calls + [call])[..|calls|] == calls;
  }

  lemma {:induction false} GoneStaysGone(calls: seq<BusCall>, more: seq<BusCall>, id: SubscriptionId, running: bool)
    ensures AfterCalls(calls, id, running) == Gone ==> AfterCalls(calls + more, id, running) == Gone
    decreases |more|
  {
    if more == [] {
      assert calls + more == calls;
    } else {
      var front, last := more[..|more| - 1], more[|more| - 1];
      GoneStaysGone(calls, front, id, running);
      assert calls + more == (calls + front) + [last];
      AfterOneMore(calls + front, last, id, running);
    }
  }

  /** The calls made before send i of a replay: those before the history was read, and others[j] before send j. */
  function CallsBefore(before: seq<BusCall>, others: seq<seq<BusCall>>, i: int): seq<BusCall>
    decreases i
  {
    if i < 0 then before else CallsBefore(before, others, i - 1) + if i < |others| then others[i] else []
  }

  class EventBus {
    const history: EventHistory
    const publishCapacity: nat
    var queue: seq<Event>              // publishCh
    var registry: Registry             // subscribers
    var subs: Table
    var nextHandle: nat
    var cancelled: bool                // ctx is done
    var stopped: bool                  // Run has returned
    var totalEvents: nat
    var totalDeliveries: nat
    var droppedEvents: nat
    ghost var published: seq<Event>    // accepted by Publish
    ghost var broadcast: seq<Event>    // handled by Run
    ghost var owed: nat                // interested subscribers, summed over the broadcasts

    ghost predicate Valid()
      reads this, history, history.ring
    {
      && history.Valid() && history.stored == broadcast
      && |queue| <= publishCapacity
      && published == broadcast + queue
      && totalEvents == |broadcast|
      && totalDeliveries + droppedEvents == owed
      && Subscribers() && Totals()
    }

    /** The totals of the bus are what its broadcasts gave to all subscriptions there have been, and what they lost. */
    ghost predicate Totals()
      reads this`subs, this`totalDeliveries, this`droppedEvents
    {
      Totaled(subs, totalDeliveries, droppedEvents)
    }

    ghost predicate Subscribers()
      reads this`registry, this`subs, this`nextHandle, this`broadcast
    {
      Kept(registry, subs, nextHandle, broadcast)
    }

    constructor (publishCapacity: nat, historySize: nat)
      ensures Valid() && published == [] && registry == map[] && fresh(history) && fresh(history.ring)
    {
      history := new EventHistory(historySize);
      this.publishCapacity := publishCapacity;
      queue, registry, subs, nextHandle := [], map[], map[], 0;
      cancelled, stopped := false, false;
      totalEvents, totalDeliveries, droppedEvents := 0, 0, 0;
      published, broadcast, owed := [], [], 0;
    }

    /** Publish never blocks: it refuses when the bus is stopping or the queue is full. */
    method Publish(e: Event) returns (ok: bool)
      requires Valid()
      modifies this`queue, this`published
      ensures Valid()
      ensures ok == (!cancelled && |old(queue)| < publishCapacity)
      ensures queue == old(queue) + (if ok then [e] else []) && published == old(published) + (if ok then [e] else [])
    {
      if cancelled || |queue| >= publishCapacity {
        return false;
      }
      queue, published := queue + [e], published + [e];
      return true;
    }

    /** One turn of Run on an event: count it, store it in the history, broadcast it. */
    method HandleEvent()
      requires Valid() && !stopped && queue != []
      modifies this, history, history.ring
      ensures Valid() && published == old(published) && queue == old(queue)[1..]
      ensures broadcast == old(broadcast) + [old(queue)[0]]
      ensures registry == old(registry) && stopped == old(stopped)
      ensures var e := old(queue)[0];
              && subs == Offered(old(registry), old(subs), e, old(registry).Keys)
              && Broadcasted(old(registry), old(subs), subs, e)
              && totalDeliveries == old(totalDeliveries) + |Roomy(old(registry), old(subs), e)|
              && totalDeliveries + droppedEvents
                 == old(totalDeliveries + droppedEvents) + |Interested(old(registry), old(subs), e)|
    {
      hide Offered, Broadcasted, Totaled, Interested, Roomy, Kept, EventHistory.Valid;
      SubscribersOpen();
      var e := queue[0];
      queue := queue[1..];
      totalEvents := totalEvents + 1;
      history.StoreEvent(e);
      ghost var before, was := subs, broadcast;
      BroadcastEvent(e);
      broadcast := broadcast + [e];
      owed := owed + |Interested(registry, before, e)|;
      BroadcastKeeps(registry, before, was, e, nextHandle);
    }

    lemma SubscribersOpen()
      requires Subscribers()
      ensures registry.Values <= subs.Keys && Injective(registry)
      ensures forall id :: id in registry ==> registry[id] in subs && !subs[registry[id]].closed
    {
      RegisteredKept(registry, subs, nextHandle, broadcast);
    }

    /** broadcastEvent offers the event to each registered subscription, in any order. */
    method BroadcastEvent(e: Event)
      requires Subscribers() && Totals()
      modifies this`subs, this`totalDeliveries, this`droppedEvents
      ensures subs == Offered(registry, old(subs), e, registry.Keys) && Totals()
      ensures Broadcasted(registry, old(subs), subs, e)
      ensures totalDeliveries == old(totalDeliveries) + |Roomy(registry, old(subs), e)|
      ensures totalDeliveries + droppedEvents == old(totalDeliveries + droppedEvents) + |Interested(registry, old(subs), e)|
    {
      hide *;
      SubscribersOpen();
      OfferedReaches(registry, subs, e);
      OfferedNone(registry, subs, e);
      InterestedRegistered(registry, subs, e);
      ghost var before, interested, roomy := subs, Interested(registry, subs, e), Roomy(registry, subs, e);
      CountAll(registry.Keys, interested);
      CountAll(registry.Keys, roomy);
      ghost var done: set<SubscriptionId> := {};
      var todo := registry.Keys;
      while todo != {}
        invariant todo == registry.Keys - done && done <= registry.Keys
        invariant subs == Offered(registry, before, e, done) && Totals()
        invariant totalDeliveries == old(totalDeliveries) + Count(done, roomy)
        invariant totalDeliveries + droppedEvents == old(totalDeliveries + droppedEvents) + Count(done, interested)
      {
        var id :| id in todo;
        var h := registry[id];
        OfferedStep(registry, before, e, done, id);
        CountOneMore(done, interested, id);
        CountOneMore(done, roomy, id);
        assert !subs[h].closed;   // no send on a closed channel
        OfferOne(h, e);
        todo, done := todo - {id}, done + {id};
      }
      assert done == registry.Keys;
    }

    /** The body of the loop: the type and the filter are looked at, and then the send is tried. */
    method OfferOne(h: nat, e: Event)
      requires h in subs && Totals()
      modifies this`subs, this`totalDeliveries, this`droppedEvents
      ensures Totals()
      ensures subs == if old(subs)[h].want.Wants(e) then old(subs)[h := Offer(old(subs)[h], e)] else old(subs)
      ensures totalDeliveries == old(totalDeliveries)
        + if old(subs)[h].want.Wants(e) && |old(subs)[h].channel| < old(subs)[h].capacity then 1 else 0
      ensures totalDeliveries + droppedEvents
        == old(totalDeliveries + droppedEvents) + if old(subs)[h].want.Wants(e) then 1 else 0
    {
      hide Sum, LiveCounts, LostCounts, Matching;
      var s := subs[h];
      CountsChange(subs, h, Offer(s, e));
      if e.kind in s.want.kinds && (s.want.filter.None? || s.want.filter.value(e)) {
        if |s.channel| < s.capacity {
          subs := subs[h := s.(channel := s.channel + [e], received := s.received + 1, live := s.live + [e])];
          totalDeliveries := totalDeliveries + 1;
        } else {
          subs := subs[h := s.(dropped := s.dropped + 1, lost := s.lost + 1)];
          droppedEvents := droppedEvents + 1;
        }
      }
    }

    /** Over any run the bus counts as deliveries and drops what broadcasts gave to all its subscriptions and what these
        lost, and every subscription counts these and what its replay added. */
    lemma TotalsAreSums()
      requires Valid()
      ensures totalDeliveries == Sum(LiveCounts(subs)) && droppedEvents == Sum(LostCounts(subs))
      ensures totalDeliveries + droppedEvents == owed
      ensures forall h :: h in subs ==>
        && subs[h].received == |subs[h].live| + |subs[h].replayed|
        && subs[h].dropped == subs[h].lost + |subs[h].replays| - |subs[h].replayed|
    {
      forall h | h in subs
        ensures subs[h].received == |subs[h].live| + |subs[h].replayed|
        ensures subs[h].dropped == subs[h].lost + |subs[h].replays| - |subs[h].replayed|
      {
        MergedParts(Sent(subs[h]), subs[h].live, subs[h].replayed);
      }
    }

    /** Whatever happened so far, a subscriber has been sent an interleaving of two streams: wanted events in the order
        in which they were published, each at most once, and a part of what its replay offered, in that order. */
    lemma ReceivedInOrder(h: nat)
      requires Valid() && h in subs
      ensures var s := subs[h];
        && Merged(Sent(s), s.live, s.replayed) && Subsequence(s.replayed, s.replays)
        && Subsequence(s.live, published) && Subsequence(s.live, Matching(published[s.since..], s.want))
        && (s.replays == [] ==> Sent(s) == s.live)
    {
      var s := subs[h];
      var later := broadcast[s.since..];
      assert published[s.since..] == later + queue;
      MatchingIsSubsequence(later, s.want);
      SuffixIsSubsequence(broadcast, s.since, queue);
      SubsequenceTransitive(s.live, Matching(later, s.want), later);
      SubsequenceTransitive(s.live, later, published);
      MatchingGrows(later, queue, s.want);
      SubsequenceTransitive(s.live, Matching(later, s.want), Matching(later + queue, s.want));
      MergedParts(Sent(s), s.live, s.replayed);
    }

    /** SubscribeWithOptions up to the replay: a stopping bus or an invalid filter gives nothing.  The check
        and the registration are not one step, so the bus may start stopping in between: seesCancel says whether the
        check came after. */
    method Subscribe(id: SubscriptionId, want: Interest, filterIsValid: bool, channelSize: int, seesCancel: bool)
      returns (handle: Option<nat>)
      requires Valid()
      modifies this`registry, this`subs, this`nextHandle
      ensures Valid()
      ensures handle.Some? <==> filterIsValid && !(cancelled && seesCancel)
      ensures handle.None? ==> registry == old(registry) && subs == old(subs)
      ensures handle.Some? ==> registry == old(registry)[id := handle.value] && handle.value !in old(subs)
      ensures handle.Some? ==> subs == old(subs)[handle.value :=
                Subscription(want, if channelSize <= 0 then 100 else channelSize, [], false, [], 0, 0, 0, totalEvents, [], [], [])]
    {
      hide Kept, Totaled, EventHistory.Valid;
      if cancelled && seesCancel {
        return None;
      }
      if !filterIsValid {
        return None;
      }
      var capacity := if channelSize <= 0 then 100 else channelSize;
      var s := Subscription(want, capacity, [], false, [], 0, 0, 0, totalEvents, [], [], []);
      var h := nextHandle;
      SubscribeKeeps(registry, subs, h, broadcast, id, s, totalDeliveries, droppedEvents);
      subs, registry, nextHandle := subs[h := s], registry[id := h], nextHandle + 1;
      return Some(h);
    }

    /** The subscriber takes the next event off its channel. */
    method Receive(h: nat) returns (e: Option<Event>)
      requires Valid() && h in subs
      modifies this`subs
      ensures Valid() && (e.None? <==> old(subs)[h].channel == [])
      ensures e.None? ==> subs == old(subs)
      ensures e.Some? ==> e.value == old(subs)[h].channel[0] && subs == old(subs)[h := Taken(old(subs)[h])]
      ensures e.Some? ==> [e.value] + subs[h].channel == old(subs)[h].channel && subs[h].taken == old(subs)[h].taken + [e.value]
    {
      hide Kept, Totaled, EventHistory.Valid;
      var s := subs[h];
      if s.channel == [] {
        return None;
      }
      TakeKeeps(registry, subs, nextHandle, broadcast, h, totalDeliveries, droppedEvents);
      subs := subs[h := s.(channel := s.channel[1..], taken := s.taken + [s.channel[0]])];
      return Some(s.channel[0]);
    }

    /** Unsubscribe closes the channel of the subscription registered under id, which is still open. */
    method Unsubscribe(id: SubscriptionId)
      requires Valid()
      modifies this`registry, this`subs
      ensures Valid() && registry == old(registry) - {id}
      ensures subs == Left(old(registry), old(subs), id)
      ensures id in old(registry) ==> old(registry)[id] in old(subs)
      ensures OneClosed(old(registry), old(subs), subs, id)
    {
      hide Kept, Totaled, EventHistory.Valid;
      if id in registry {
        var h := registry[id];
        LeaveKeeps(registry, subs, nextHandle, broadcast, id, totalDeliveries, droppedEvents);
        assert !subs[h].closed;   // no channel is closed twice
        subs := subs[h := subs[h].(closed := true)];
        registry := registry - {id};
      }
    }

    method Cancel()
      requires Valid()
      modifies this`cancelled
      ensures Valid() && cancelled
    {
      cancelled := true;
    }

    /** The last turn of Run: every registered channel is closed once, and nothing stays registered. */
    method CloseAllSubscriptions()
      requires Valid() && cancelled && !stopped
      modifies this`registry, this`subs, this`stopped
      ensures Valid() && stopped && registry == map[]
      ensures subs == Closed(old(subs), old(registry).Values)
    {
      hide Closed, Subscribers;
      ghost var before, gone := subs, {};
      CloseNone(before);
      while registry != map[]
        invariant Valid() && stopped == old(stopped)
        invariant gone !! registry.Values && gone + registry.Values == old(registry).Values
        invariant subs == Closed(before, gone)
        decreases registry.Keys
      {
        hide Valid;
        assert registry.Keys != {};
        var id :| id in registry;
        ghost var h := registry[id];
        ValuesWithout(id);
        CloseOneMore(before, gone, h);
        Unsubscribe(id);
        gone := gone + {h};
      }
      assert registry.Values == {} && gone == old(registry).Values;
      stopped := true;
    }

    lemma ValuesWithout(id: SubscriptionId)
      requires Valid() && id in registry
      ensures registry[id] in registry.Values && (registry - {id}).Values == registry.Values - {registry[id]}
    {
      var rest := registry - {id};
      forall h ensures h in rest.Values <==> h in registry.Values && h != registry[id] {
        if h in registry.Values && h != registry[id] {
          var a :| a in registry && registry[a] == h;
          assert a in rest && rest[a] == h;
        }
        if h in rest.Values {
          var a :| a in rest && rest[a] == h;
          assert a in registry && registry[a] == h;
        }
      }
    }

    /** One send of a replay.  It holds no lock: a subscription closed since it was registered makes it
        panic, and the totals of the bus do not count it. */
    method ReplaySend(h: nat, e: Event) returns (panics: bool)
      requires Valid() && h in subs
      modifies this`subs
      ensures Valid() && panics == old(subs)[h].closed
      ensures subs == if panics then old(subs) else old(subs)[h := OfferReplay(old(subs)[h], e)]
      ensures !panics ==> ReplayReached(old(subs)[h], subs[h], e)
    {
      hide Kept, Totaled, OfferReplay, ReplayReached, EventHistory.Valid;
      if subs[h].closed {
        return true;
      }
      ReplayReaches(subs[h], e);
      ReplayKeeps(registry, subs, nextHandle, broadcast, h, e, totalDeliveries, droppedEvents);
      subs := subs[h := OfferReplay(subs[h], e)];
      return false;
    }

    /** Whether h is in the given standing under id. */
    ghost predicate Stands(h: nat, id: SubscriptionId, st: Standing, running: bool)
      reads this`registry, this`subs, this`stopped
    {
      StandsIn(registry, subs, h, id, st) && (st == Current ==> stopped == !running)
    }

    /** What no call of another goroutine changes. */
    twostate predicate Untouched(h: nat)
      reads this`subs
    {
      h in old(subs) && h in subs && subs[h].replays == old(subs[h].replays) && subs[h].want == old(subs[h].want)
    }

    lemma StandingFacts(h: nat, id: SubscriptionId)
      requires Valid()
      ensures Injective(registry) && registry.Values <= subs.Keys
      ensures forall i :: i in registry ==> registry[i] in registry.Values
      ensures id in registry && registry[id] == h ==> !subs[h].closed
      ensures forall i :: i in registry && registry[i] == h && id in registry && registry[id] == h ==> i == id
    {
      RegisteredKept(registry, subs, nextHandle, broadcast);
    }

    /** Run takes an event off the queue. */
    method DoHandle(h: nat, id: SubscriptionId, ghost st: Standing, ghost running: bool)
      requires Valid() && Stands(h, id, st, running)
      modifies this, history, history.ring
      ensures Valid() && Stands(h, id, st, running) && Untouched(h) && old(broadcast) <= broadcast
    {
      if !stopped && queue != [] {
        OfferedSame(h);
        hide Valid, Offered, Subscribers;
        HandleEvent();
      }
    }

    lemma OfferedSame(h: nat)
      requires registry.Values <= subs.Keys && h in subs && queue != []
      ensures var after := Offered(registry, subs, queue[0], registry.Keys);
              h in after && after[h].closed == subs[h].closed && after[h].replays == subs[h].replays && after[h].want == subs[h].want
    {
    }

    method DoSubscribe(i: SubscriptionId, want: Interest, size: int, h: nat, id: SubscriptionId, ghost st: Standing, ghost running: bool)
      requires Valid() && Stands(h, id, st, running)
      modifies this`registry, this`subs, this`nextHandle
      ensures Valid() && Stands(h, id, AfterCall(st, SubscribeCall(i, want, size), id, running), running) && Untouched(h)
    {
      hide Valid, Subscribers, StandsIn, Injective, Left, OneClosed;
      StandingFacts(h, id);
      IsThere(h, id, st, running);
      var other := Subscribe(i, want, true, size, false);
      SubscribedStands(old(registry), old(subs), h, id, st, i, other.value, subs[other.value]);
    }

    method DoUnsubscribe(i: SubscriptionId, h: nat, id: SubscriptionId, ghost st: Standing, ghost running: bool)
      requires Valid() && Stands(h, id, st, running)
      modifies this`registry, this`subs
      ensures Valid() && Stands(h, id, AfterCall(st, UnsubscribeCall(i), id, running), running) && Untouched(h)
    {
      hide Valid, Subscribers, StandsIn, Injective, Left, OneClosed;
      StandingFacts(h, id);
      IsThere(h, id, st, running);
      UnsubscribedStands(registry, subs, h, id, st, i);
      Unsubscribe(i);
    }

    method DoReceive(g: nat, h: nat, id: SubscriptionId, ghost st: Standing, ghost running: bool)
      requires Valid() && Stands(h, id, st, running)
      modifies this`subs
      ensures Valid() && Stands(h, id, st, running) && Untouched(h)
    {
      hide Valid, Subscribers;
      if g in subs {
        var e := Receive(g);
      }
    }

    method DoStop(h: nat, id: SubscriptionId, ghost st: Standing, ghost running: bool)
      requires Valid() && Stands(h, id, st, running)
      modifies this`cancelled, this`registry, this`subs, this`stopped
      ensures Valid() && Stands(h, id, AfterCall(st, StopCall, id, running), running) && Untouched(h)
    {
      hide Valid, StandsIn, Closed;
      StoppedStands(registry, subs, h, id, st);
      if !stopped {
        Cancel();
        CloseAllSubscriptions();
      }
    }

    method DoPublish(e: Event, h: nat)
      requires Valid() && h in subs
      modifies this`queue, this`published
      ensures Valid() && Untouched(h)
    {
      hide Valid;
      var ok := Publish(e);
    }

    /** A call of another goroutine. */
    method Do(call: BusCall, h: nat, id: SubscriptionId, ghost st: Standing, ghost running: bool)
      requires Valid() && Stands(h, id, st, running)
      modifies this, history, history.ring
      ensures Valid() && Stands(h, id, AfterCall(st, call, id, running), running)
      ensures Untouched(h) && old(broadcast) <= broadcast
    {
      assert h in subs;
      assert call.PublishCall? || call.HandleCall? || call.ReceiveCall? ==> AfterCall(st, call, id, running) == st;
      hide *;
      match call
      case PublishCall(e) => DoPublish(e, h);
      case HandleCall => DoHandle(h, id, st, running);
      case SubscribeCall(i, want, size) => DoSubscribe(i, want, size, h, id, st, running);
      case UnsubscribeCall(i) => DoUnsubscribe(i, h, id, st, running);
      case ReceiveCall(g) => DoReceive(g, h, id, st, running);
      case StopCall => DoStop(h, id, st, running);
    }

    method Perform(calls: seq<BusCall>, h: nat, id: SubscriptionId, ghost past: seq<BusCall>, ghost running: bool)
      requires Valid() && Stands(h, id, AfterCalls(past, id, running), running)
      modifies this, history, history.ring
      ensures Valid() && Stands(h, id, AfterCalls(past + calls, id, running), running)
      ensures Untouched(h) && old(broadcast) <= broadcast
      ensures calls == [] ==> broadcast == old(broadcast)
    {
      hide Valid, Stands, AfterCalls;
      assert past + calls[..0] == past;
      IsThere(h, id, AfterCalls(past, id, running), running);
      for i := 0 to |calls|
        invariant Valid() && Stands(h, id, AfterCalls(past + calls[..i], id, running), running)
        invariant Untouched(h) && old(broadcast) <= broadcast
        invariant i == 0 ==> broadcast == old(broadcast)
      {
        Do(calls[i], h, id, AfterCalls(past + calls[..i], id, running), running);
        AfterOneMore(past + calls[..i], calls[i], id, running);
        assert past + calls[..i + 1] == past + calls[..i] + [calls[i]];
      }
      assert calls[..|calls|] == calls;
    }

    lemma IsThere(h: nat, id: SubscriptionId, st: Standing, running: bool)
      requires Stands(h, id, st, running)
      ensures h in subs && (st == Gone <==> subs[h].closed)
    {
    }

    lemma HistoryHolds()
      requires Valid()
      ensures history.Valid() && history.stored == broadcast
    {
    }

    /** The other goroutines' calls before a send, and the send. */
    method CallsAndSend(h: nat, id: SubscriptionId, e: Event, calls: seq<BusCall>, ghost past: seq<BusCall>, ghost running: bool)
      returns (panics: bool)
      requires Valid() && h in subs && Stands(h, id, AfterCalls(past, id, running), running)
      modifies this, history, history.ring
      ensures Valid() && h in subs && Stands(h, id, AfterCalls(past + calls, id, running), running)
      ensures panics <==> AfterCalls(past + calls, id, running) == Gone
      ensures subs[h].replays == old(subs[h].replays) + if panics then [] else [e]
      ensures old(broadcast) <= broadcast
    {
      hide Valid, StandsIn, AfterCalls, OfferReplay;
      Perform(calls, h, id, past, running);
      ghost var st := AfterCalls(past + calls, id, running);
      IsThere(h, id, st, running);
      ReplayedStands(registry, subs, h, id, st, e);
      panics := ReplaySend(h, e);
    }

    /** replayEventsToSubscriber, for the subscription h registered under id, with other goroutines at work: before is
        what they do before the history is read, others[i] what they do before send i.  seen is what had been broadcast
        when the history was read. */
    method ReplayEvents(h: nat, id: SubscriptionId, want: Interest, count: int,
                        before: seq<BusCall>, others: seq<seq<BusCall>>, ghost running: bool)
      returns (recent: seq<Event>, panics: bool, ghost seen: seq<Event>)
      requires Valid() && Stands(h, id, Current, running)
      requires h in subs && subs[h].replays == [] && subs[h].want == want
      modifies this, history, history.ring
      ensures Valid() && h in subs && old(broadcast) <= seen <= broadcast
      ensures before == [] ==> seen == old(broadcast)
      ensures recent == RecentOf(seen, history.ring.Length, want, count)
      ensures panics <==> ClosedBySend(before, others, id, running, |recent|)
      ensures subs[h].replays == if panics then OpenSends(recent, before, others, id, running) else recent
    {
      hide *;
      assert [] + before == before;
      NothingCalled(id, running);
      Perform(before, h, id, [], running);
      IsThere(h, id, AfterCalls(before, id, running), running);
      ghost var past := before;
      HistoryHolds();
      recent := history.GetRecentEvents(count, want);
      RecentIs(broadcast, history.ring.Length, want, count);
      seen := broadcast;
      KeptReplays(h);
      panics := false;
      CallsBeforeAll(before, others);
      for i := 0 to |recent|
        invariant Valid() && past == CallsBefore(before, others, i - 1)
        invariant h in subs && Stands(h, id, AfterCalls(past, id, running), running)
        invariant subs[h].replays == recent[..i] && seen <= broadcast
        invariant OpenUntil(before, others, id, running, i)
      {
        var calls := if i < |others| then others[i] else [];
        CallsBeforeNext(before, others, i);
        panics := CallsAndSend(h, id, recent[i], calls, past, running);
        past := past + calls;
        if panics {
          FirstClosed(recent, before, others, id, running, i);
          return;
        }
        OneMoreOpen(before, others, id, running, i);
      }
      assert recent[..|recent|] == recent;
      NeverClosed(before, others, id, running, |recent|);
    }

    /** SubscribeWithOptions with its replay, under the same interference. */
    method SubscribeWithOptions(id: SubscriptionId, want: Interest, filterIsValid: bool, channelSize: int, replayLast: int,
                                seesCancel: bool, before: seq<BusCall>, others: seq<seq<BusCall>>)
      returns (handle: Option<nat>, recent: seq<Event>, panics: bool, ghost seen: seq<Event>)
      requires Valid()
      modifies this, history, history.ring
      ensures Valid()
      ensures handle.Some? <==> filterIsValid && !(old(cancelled) && seesCancel)
      ensures handle.Some? && replayLast > 0 ==>
        && old(broadcast) <= seen <= broadcast && recent == RecentOf(seen, history.ring.Length, want, replayLast)
        && (panics <==> ClosedBySend(before, others, id, !old(stopped), |recent|))
        && handle.value in subs
        && subs[handle.value].replays == if panics then OpenSends(recent, before, others, id, !old(stopped)) else recent
      ensures handle.None? || replayLast <= 0 ==> !panics
    {
      hide Valid, RecentOf, OpenSends, ClosedBySend;
      recent, panics, seen := [], false, broadcast;
      handle := Subscribe(id, want, filterIsValid, channelSize, seesCancel);
      if handle.None? {
        return;
      }
      if replayLast > 0 {
        recent, panics, seen := ReplayEvents(handle.value, id, want, replayLast, before, others, !stopped);
      }
    }

    /** Subscribe, Unsubscribe, send: a subscriber that leaves before its replay has sent anything makes the replay panic
        exactly when there is an event to replay. */
    method LeaveBeforeReplay(id: SubscriptionId, want: Interest, channelSize: int, replayLast: int)
      returns (panics: bool)
      requires Valid() && !cancelled && replayLast > 0
      modifies this, history, history.ring
      ensures Valid()
      ensures panics <==> RecentOf(old(broadcast), history.ring.Length, want, replayLast) != []
    {
      hide Valid, RecentOf, OpenSends;
      var before, others := [], [[UnsubscribeCall(id)]];
      ghost var running, past := !stopped, broadcast;
      LeftBySend(id, running);
      var handle := Subscribe(id, want, true, channelSize, true);
      ghost var seen;
      var recent;
      recent, panics, seen := ReplayEvents(handle.value, id, want, replayLast, before, others, running);
    }

    twostate lemma KeptReplays(h: nat)
      requires Untouched(h)
      ensures h in old(subs) && h in subs && subs[h].replays == old(subs[h].replays)
    {
    }
  }

  lemma CallsBeforeAll(before: seq<BusCall>, others: seq<seq<BusCall>>)
    ensures CallsBefore(before, others, -1) == before
    ensures forall id, running :: OpenUntil(before, others, id, running, 0)
  {
  }

  lemma CallsBeforeNext(before: seq<BusCall>, others: seq<seq<BusCall>>, i: nat)
    ensures CallsBefore(before, others, i) == CallsBefore(before, others, i - 1) + if i < |others| then others[i] else []
  {
  }

  /** The subscription is open before each of the first n sends. */
  ghost predicate OpenUntil(before: seq<BusCall>, others: seq<seq<BusCall>>, id: SubscriptionId, running: bool, n: nat) {
    forall j :: 0 <= j < n ==> AfterCalls(CallsBefore(before, others, j), id, running) != Gone
  }

  lemma OneMoreOpen(before: seq<BusCall>, others: seq<seq<BusCall>>, id: SubscriptionId, running: bool, n: nat)
    requires OpenUntil(before, others, id, running, n)
    requires AfterCalls(CallsBefore(before, others, n), id, running) != Gone
    ensures OpenUntil(before, others, id, running, n + 1)
  {
    hide AfterCalls, CallsBefore;
  }

  lemma NeverClosed(before: seq<BusCall>, others: seq<seq<BusCall>>, id: SubscriptionId, running: bool, n: nat)
    requires OpenUntil(before, others, id, running, n)
    ensures !ClosedBySend(before, others, id, running, n)
  {
    hide AfterCalls, CallsBefore;
  }

  lemma LeftBySend(id: SubscriptionId, running: bool)
    ensures forall n: nat :: ClosedBySend([], [[UnsubscribeCall(id)]], id, running, n) <==> n > 0
  {
    var others := [[UnsubscribeCall(id)]];
    assert CallsBefore([], others, 0) == [UnsubscribeCall(id)];
    AfterOneMore([], UnsubscribeCall(id), id, running);
    assert [] + [UnsubscribeCall(id)] == [UnsubscribeCall(id)];
  }

  lemma NothingCalled(id: SubscriptionId, running: bool)
    ensures AfterCalls([], id, running) == Current
  {
  }

  /** Whether the subscription is closed before one of the first n sends of the replay. */
  ghost predicate ClosedBySend(before: seq<BusCall>, others: seq<seq<BusCall>>, id: SubscriptionId, running: bool, n: nat) {
    exists i :: 0 <= i < n && AfterCalls(CallsBefore(before, others, i), id, running) == Gone
  }

  /** The events whose sends come before the subscription is closed. */
  ghost function OpenSends(
    recent: seq<Event>, before: seq<BusCall>, others: seq<seq<BusCall>>, id: SubscriptionId, running: bool): seq<Event>
  {
    if recent == [] then []
    else
      var front := OpenSends(recent[..|recent| - 1], before, others, id, running);
      if AfterCalls(CallsBefore(before, others, |recent| - 1), id, running) == Gone then front
      else front + [recent[|recent| - 1]]
  }

  /** The first closed moment cuts the replay: all sends before it are open, and none after it. */
  lemma {:induction false} FirstClosed(
    recent: seq<Event>, before: seq<BusCall>, others: seq<seq<BusCall>>, id: SubscriptionId, running: bool, k: nat)
    requires k < |recent| && AfterCalls(CallsBefore(before, others, k), id, running) == Gone
    requires OpenUntil(before, others, id, running, k)
    ensures OpenSends(recent, before, others, id, running) == recent[..k]
    ensures ClosedBySend(before, others, id, running, |recent|)
    decreases |recent|
  {
    hide AfterCalls, CallsBefore;
    var n := |recent| - 1;
    if k < n {
      FirstClosed(recent[..n], before, others, id, running, k);
      assert recent[..n][..k] == recent[..k];
      GoneLater(before, others, id, running, k, n);
    } else {
      AllOpen(recent[..n], before, others, id, running);
    }
  }

  lemma {:induction false} AllOpen(
    recent: seq<Event>, before: seq<BusCall>, others: seq<seq<BusCall>>, id: SubscriptionId, running: bool)
    requires OpenUntil(before, others, id, running, |recent|)
    ensures OpenSends(recent, before, others, id, running) == recent
  {
    hide AfterCalls, CallsBefore;
    if recent != [] {
      AllOpen(recent[..|recent| - 1], before, others, id, running);
    }
  }

  lemma {:induction false} GoneLater(
    before: seq<BusCall>, others: seq<seq<BusCall>>, id: SubscriptionId, running: bool, k: nat, n: nat)
    requires k <= n && AfterCalls(CallsBefore(before, others, k), id, running) == Gone
    ensures AfterCalls(CallsBefore(before, others, n), id, running) == Gone
    decreases n
  {
    if k < n {
      GoneLater(before, others, id, running, k, n - 1);
      GoneStaysGone(CallsBefore(before, others, n - 1), if n < |others| then others[n] else [], id, running);
    }
  }

  /** What getRecentEvents gives when seen has been broadcast. */
  function RecentOf(seen: seq<Event>, size: nat, want: Interest, count: int): seq<Event> {
    LastN(Matching(Window(seen, size), want), if count <= 0 || count > size then size else count)
  }

  lemma RecentIs(seen: seq<Event>, size: nat, want: Interest, count: int)
    ensures RecentOf(seen, size, want, count)
         == LastN(Matching(Window(seen, size), want), if count <= 0 || count > size then size else count)
  {
  }

  /** The table with the channels of some subscriptions closed. */
  ghost function Closed(subs: Table, some: set<nat>): Table {
    map h | h in subs :: if h in some then subs[h].(closed := true) else subs[h]
  }

  ghost predicate StandsIn(registry: Registry, subs: Table, h: nat, id: SubscriptionId, st: Standing) {
    h in subs &&
    match st
    case Current => id in registry && registry[id] == h && !subs[h].closed
    case Replaced => h !in registry.Values && !subs[h].closed
    case Gone => h !in registry.Values && subs[h].closed
  }

  /** The table when the subscription registered under id, if there is one, has been closed. */
  function Left(registry: Registry, subs: Table, id: SubscriptionId): Table {
    if id in registry && registry[id] in subs then subs[registry[id] := subs[registry[id]].(closed := true)] else subs
  }

  /** The subscription registered under id is closed, and nothing else has changed. */
  ghost predicate OneClosed(registry: Registry, subs: Table, after: Table, id: SubscriptionId) {
    && after.Keys == subs.Keys
    && (forall h :: h in subs && h in after ==>
          if id in registry && registry[id] == h then after[h] == subs[h].(closed := true) else after[h] == subs[h])
  }

  lemma SubscribedStands(registry: Registry, subs: Table, h: nat, id: SubscriptionId, st: Standing,
                         i: SubscriptionId, other: nat, s: Subscription)
    requires Injective(registry) && StandsIn(registry, subs, h, id, st) && other !in subs
    ensures StandsIn(registry[i := other], subs[other := s], h, id, if st == Current && i == id then Replaced else st)
  {
    ValuesAfter(registry, i, other, h);
  }

  lemma UnsubscribedStands(registry: Registry, subs: Table, h: nat, id: SubscriptionId, st: Standing, i: SubscriptionId)
    requires Injective(registry) && StandsIn(registry, subs, h, id, st) && registry.Values <= subs.Keys
    ensures StandsIn(registry - {i}, Left(registry, subs, i), h, id, if st == Current && i == id then Gone else st)
    ensures h in Left(registry, subs, i) && Left(registry, subs, i)[h].replays == subs[h].replays
    ensures Left(registry, subs, i)[h].want == subs[h].want
  {
    if i in registry {
      assert registry[i] in registry.Values;
    }
    ValuesWithoutId(registry, i, h);
  }

  lemma StoppedStands(registry: Registry, subs: Table, h: nat, id: SubscriptionId, st: Standing)
    requires StandsIn(registry, subs, h, id, st)
    ensures var closed := Closed(subs, registry.Values);
            && StandsIn(map[], closed, h, id, if st == Current then Gone else st)
            && h in subs && h in closed && closed[h].replays == subs[h].replays && closed[h].want == subs[h].want
  {
    if st == Current {
      assert registry[id] in registry.Values;
    }
  }

  lemma ReplayedStands(registry: Registry, subs: Table, h: nat, id: SubscriptionId, st: Standing, e: Event)
    requires StandsIn(registry, subs, h, id, st)
    ensures h in subs && StandsIn(registry, subs[h := OfferReplay(subs[h], e)], h, id, st)
    ensures OfferReplay(subs[h], e).replays == subs[h].replays + [e]
  {
  }

  lemma ValuesAfter(registry: Registry, i: SubscriptionId, other: nat, h: nat)
    requires Injective(registry) && other != h
    ensures h in registry[i := other].Values <==> exists id :: id != i && id in registry && registry[id] == h
  {
    if id :| id != i && id in registry && registry[id] == h {
      assert id in registry[i := other] && registry[i := other][id] == h;
    }
  }

  lemma ValuesWithoutId(registry: Registry, i: SubscriptionId, h: nat)
    ensures h in (registry - {i}).Values <==> exists id :: id != i && id in registry && registry[id] == h
  {
    if id :| id != i && id in registry && registry[id] == h {
      assert id in registry - {i} && (registry - {i})[id] == h;
    }
  }

  lemma CloseNone(subs: Table)
    ensures Closed(subs, {}) == subs
  {
  }

  lemma CloseOneMore(subs: Table, some: set<nat>, h: nat)
    requires h !in some
    ensures Closed(subs, some).Keys == subs.Keys
    ensures h in subs ==> Closed(subs, some + {h}) == Closed(subs, some)[h := Closed(subs, some)[h].(closed := true)]
  {
  }

  lemma BroadcastKeeps(registry: Registry, subs: Table, broadcast: seq<Event>, e: Event, bound: nat)
    requires Kept(registry, subs, bound, broadcast)
    ensures Kept(registry, Offered(registry, subs, e, registry.Keys), bound, broadcast + [e])
  {
    RegisteredKept(registry, subs, bound, broadcast);
    var after := Offered(registry, subs, e, registry.Keys);
    forall h | h in after ensures Accounted(after[h], broadcast + [e]) {
      if subs[h].want.Wants(e) {
        OfferAccounted(subs[h], broadcast, e);
      }
      PassedAccounted(subs[h], broadcast, e);
    }
    forall id | id in registry ensures UpToDate(after[registry[id]], broadcast + [e]) {
      var s := subs[registry[id]];
      if s.want.Wants(e) {
        OfferAccounted(s, broadcast, e);
      } else {
        PassedAccounted(s, broadcast, e);
      }
    }
    hide UpToDate, Accounted;
  }
}
