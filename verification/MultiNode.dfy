/** The multi-node bus over Redis or Kafka: N nodes publish to their own local bus and to a shared
    carrier, and skip the messages that carry their own node id. */
module MultiNode {
  type NodeId = string

  /** One message on the carrier: the sender's id and the publish it stands for. */
  datatype Message = Message(nodeId: NodeId, publish: nat)

  /** How an event got into a local bus. */
  datatype Entry = Local(publish: nat) | Remote(message: nat)

  // ---- one node ----

  datatype Header = Header(key: string, value: string)

  /** The headers the producer puts on a Kafka message. */
  function KafkaHeaders(nodeId: NodeId, eventType: string, timestamp: string): seq<Header> {
    [Header("event_type", eventType), Header("node_id", nodeId), Header("timestamp", timestamp)]
  }

  /** The header scan of handleKafkaMessage. */
  method KafkaSkips(headers: seq<Header>, self: NodeId) returns (skip: bool)
    ensures skip <==> exists i :: 0 <= i < |headers| && headers[i] == Header("node_id", self)
  {
    for i := 0 to |headers|
      invariant forall j :: 0 <= j < i ==> headers[j] != Header("node_id", self)
    {
      if headers[i].key == "node_id" && headers[i].value == self {
        return true;
      }
    }
    return false;
  }

  /** Both carriers skip exactly the messages stamped with the node's own id. */
  lemma KafkaSkipsOwnMessages(sender: NodeId, eventType: string, timestamp: string, self: NodeId)
    ensures (exists i :: 0 <= i < 3 && KafkaHeaders(sender, eventType, timestamp)[i] == Header("node_id", self)) <==> sender == self
  {
    var hs := KafkaHeaders(sender, eventType, timestamp);
    assert "event_type"[0] != "node_id"[0] && "timestamp"[0] != "node_id"[0];
    if sender == self {
      assert hs[1] == Header("node_id", self);
    }
  }

  // ---- the network ----

  datatype Node = Node(
    id: NodeId,
    connected: bool,
    entered: seq<Entry>,      // what the local bus accepted, in order
    received: nat,            // receivedRemote
    refused: seq<nat>)        // messages whose event the local bus refused

  /** What Publish does to the node: an event its local bus refuses goes nowhere. */
  function Accept(node: Node, publish: nat, accepted: bool): Node {
    if accepted then node.(entered := node.entered + [Local(publish)]) else node
  }

  /** What handleRedisMessage and handleKafkaMessage do to the node: a message with its own id is skipped. */
  function Handle(node: Node, msg: Message, m: nat, accepted: bool): Node {
    if msg.nodeId == node.id then node
    else if accepted then node.(entered := node.entered + [Remote(m)], received := node.received + 1)
    else node.(received := node.received + 1, refused := node.refused + [m])
  }

  /** One node's bus, updated in place. */
  class NodeBus {
    const id: NodeId
    var connected: bool
    var entered: seq<Entry>
    var received: nat
    var refused: seq<nat>
    var sends: seq<nat>      // goroutines started to write to the carrier

    function State(): Node
      reads this
    {
      Node(id, connected, entered, received, refused)
    }

    constructor (id: NodeId)
      ensures State() == Node(id, false, [], 0, []) && sends == []
    {
      this.id, connected, entered, received, refused, sends := id, false, [], 0, [], [];
    }

    method Publish(publish: nat, accepted: bool) returns (ok: bool)
      modifies this
      ensures ok == accepted && State() == Accept(old(State()), publish, accepted)
      ensures entered == old(entered) + if accepted then [Local(publish)] else []
      ensures connected == old(connected) && received == old(received) && refused == old(refused)
      ensures sends == old(sends) + if accepted && connected then [publish] else []
    {
      if !accepted {
        return false;
      }
      entered := entered + [Local(publish)];
      if connected {
        sends := sends + [publish];
      }
      return true;
    }

    /** Neither branch writes to the carrier. */
    method HandleMessage(msg: Message, m: nat, accepted: bool)
      modifies this
      ensures State() == Handle(old(State()), msg, m, accepted)
      ensures sends == old(sends) && connected == old(connected)
      ensures received == old(received) + if msg.nodeId != id then 1 else 0
      ensures entered == old(entered) + if msg.nodeId != id && accepted then [Remote(m)] else []
      ensures refused == old(refused) + if msg.nodeId != id && !accepted then [m] else []
    {
      if msg.nodeId == id {
        return;
      }
      received := received + 1;
      if accepted {
        entered := entered + [Remote(m)];
      } else {
        refused := refused + [m];
      }
    }
  }

  datatype Network = Network(
    nodes: seq<Node>,
    origin: seq<nat>,              // the node of each accepted publish
    sending: set<nat>,             // publishes whose goroutine has not finished
    wire: seq<Message>,
    handled: set<(nat, nat)>)      // (node, message) pairs delivered

  datatype Step =
    | Publish(n: nat, accepted: bool)
    | WireOk(publish: nat) | WireFail(publish: nat)
    | Deliver(n: nat, m: nat, accepted: bool)
    | SetConnected(n: nat, up: bool)

  predicate Enabled(net: Network, s: Step) {
    match s
    case Publish(n, _) => n < |net.nodes|
    case WireOk(k) => k in net.sending
    case WireFail(k) => k in net.sending
    case Deliver(n, m, _) => n < |net.nodes| && m < |net.wire| && (n, m) !in net.handled
    case SetConnected(n, _) => n < |net.nodes|
  }

  function SetNode(net: Network, n: nat, node: Node): Network
    requires n < |net.nodes|
  {
    net.(nodes := net.nodes[n := node])
  }

  /** An accepted publish of a connected node starts a send. */
  function DoPublish(net: Network, n: nat, accepted: bool): Network
    requires n < |net.nodes|
  {
    var k, node := |net.origin|, net.nodes[n];
    var after := SetNode(net, n, Accept(node, k, accepted));
    if !accepted then after
    else after.(origin := net.origin + [n], sending := if node.connected then net.sending + {k} else net.sending)
  }

  function DoDeliver(net: Network, n: nat, m: nat, accepted: bool): Network
    requires n < |net.nodes| && m < |net.wire|
  {
    SetNode(net, n, Handle(net.nodes[n], net.wire[m], m, accepted)).(handled := net.handled + {(n, m)})
  }

  function Do(net: Network, s: Step): Network
    requires Enabled(net, s)
    requires forall k :: k in net.sending ==> k < |net.origin| && net.origin[k] < |net.nodes|
  {
    match s
    case Publish(n, accepted) => DoPublish(net, n, accepted)
    case WireOk(k) =>
      net.(sending := net.sending - {k}, wire := net.wire + [Message(net.nodes[net.origin[k]].id, k)])
    case WireFail(k) => net.(sending := net.sending - {k})
    case Deliver(n, m, accepted) => DoDeliver(net, n, m, accepted)
    case SetConnected(n, up) => SetNode(net, n, net.nodes[n].(connected := up))
  }

  /** The publish an entry stands for. */
  function PublishOf(net: Network, e: Entry): nat
    requires e.Remote? ==> e.message < |net.wire|
  {
    match e
    case Local(k) => k
    case Remote(m) => net.wire[m].publish
  }

  ghost predicate Sends(net: Network) {
    && (forall k :: k in net.sending ==> k < |net.origin|)
    && (forall k :: 0 <= k < |net.origin| ==> net.origin[k] < |net.nodes|)
    && (forall d :: d in net.handled ==> d.1 < |net.wire|)
    && (forall m :: 0 <= m < |net.wire| ==>
          var k := net.wire[m].publish;
          k < |net.origin| && k !in net.sending && net.wire[m].nodeId == net.nodes[net.origin[k]].id)
    && (forall l, m :: 0 <= l < m < |net.wire| ==> net.wire[l].publish != net.wire[m].publish)
    && |net.wire| + |net.sending| <= |net.origin|
  }

  /** An entry of node n: one of its own publishes, or a handled message of another id. */
  ghost predicate Legitimate(net: Network, n: nat, e: Entry)
    requires n < |net.nodes|
  {
    match e
    case Local(k) => k < |net.origin| && net.origin[k] == n
    case Remote(m) => m < |net.wire| && (n, m) in net.handled && net.wire[m].nodeId != net.nodes[n].id
  }

  ghost predicate EntriesOf(net: Network, n: nat)
    requires n < |net.nodes|
  {
    var es := net.nodes[n].entered;
    && (forall i :: 0 <= i < |es| ==> Legitimate(net, n, es[i]))
    && (forall i, j :: 0 <= i < j < |es| ==> es[i] != es[j])
    && (forall k :: 0 <= k < |net.origin| && net.origin[k] == n ==> Local(k) in es)
    && (forall m :: 0 <= m < |net.wire| && (n, m) in net.handled && net.wire[m].nodeId != net.nodes[n].id ==>
          (Remote(m) in es <==> m !in net.nodes[n].refused))
    && (forall m :: m in net.nodes[n].refused ==> (n, m) in net.handled)
  }

  ghost predicate Inv(net: Network) {
    Sends(net) && forall n :: 0 <= n < |net.nodes| ==> EntriesOf(net, n)
  }

  ghost predicate Fresh(net: Network) {
    && net.origin == [] && net.sending == {} && net.wire == [] && net.handled == {}
    && forall n :: 0 <= n < |net.nodes| ==> net.nodes[n].entered == [] && net.nodes[n].received == 0 && net.nodes[n].refused == []
  }

  lemma FreshInv(net: Network)
    requires Fresh(net)
    ensures Inv(net)
  {
  }

  lemma SendsStep(net: Network, s: Step)
    requires Sends(net) && Enabled(net, s)
    ensures Sends(Do(net, s)) && Extends(net, Do(net, s))
  {
    if s.Publish? {
      PublishStep(net, s.n, s.accepted);
    } else if s.WireOk? {
      WireStep(net, s.publish);
    } else if s.Deliver? {
      DeliverStep(net, s.n, s.m, s.accepted);
    }
  }

  /** Nodes keep their ids, and nothing sent or handled is forgotten. */
  ghost predicate Extends(net: Network, after: Network) {
    && |after.nodes| == |net.nodes|
    && (forall n :: 0 <= n < |net.nodes| ==> after.nodes[n].id == net.nodes[n].id)
    && net.wire <= after.wire && net.origin <= after.origin && net.handled <= after.handled
  }

  lemma PublishStep(net: Network, n: nat, accepted: bool)
    requires Sends(net) && n < |net.nodes|
    ensures Sends(DoPublish(net, n, accepted)) && Extends(net, DoPublish(net, n, accepted))
  {
  }

  lemma WireStep(net: Network, k: nat)
    requires Sends(net) && k in net.sending
    ensures Sends(Do(net, WireOk(k))) && Extends(net, Do(net, WireOk(k)))
  {
  }

  lemma DeliverStep(net: Network, n: nat, m: nat, accepted: bool)
    requires Sends(net) && n < |net.nodes| && m < |net.wire|
    ensures Sends(DoDeliver(net, n, m, accepted)) && Extends(net, DoDeliver(net, n, m, accepted))
  {
  }

  lemma EntriesPublish(net: Network, n: nat)
    requires Sends(net) && n < |net.nodes| && EntriesOf(net, n)
    ensures EntriesOf(DoPublish(net, n, true), n)
  {
    assert Local(|net.origin|) !in net.nodes[n].entered;
  }

  lemma EntriesDeliver(net: Network, n: nat, m: nat, accepted: bool)
    requires Sends(net) && n < |net.nodes| && EntriesOf(net, n) && m < |net.wire| && (n, m) !in net.handled
    ensures EntriesOf(DoDeliver(net, n, m, accepted), n)
  {
    assert Remote(m) !in net.nodes[n].entered;
  }

  /** A node that neither publishes nor handles a message keeps its entries legitimate. */
  lemma EntriesKept(net: Network, after: Network, n: nat)
    requires Sends(net) && n < |net.nodes| && EntriesOf(net, n) && Extends(net, after)
    requires after.nodes[n].entered == net.nodes[n].entered && after.nodes[n].refused == net.nodes[n].refused
    requires forall k :: |net.origin| <= k < |after.origin| ==> after.origin[k] != n
    requires forall m :: (n, m) in after.handled ==> (n, m) in net.handled
    ensures EntriesOf(after, n)
  {
    var es := net.nodes[n].entered;
    forall i | 0 <= i < |es| ensures Legitimate(after, n, es[i]) {
      assert Legitimate(net, n, es[i]);
    }
  }

  lemma EntriesStep(net: Network, s: Step, n: nat)
    requires Inv(net) && Enabled(net, s) && n < |net.nodes|
    ensures n < |Do(net, s).nodes| && EntriesOf(Do(net, s), n)
  {
    SendsStep(net, s);
    assert EntriesOf(net, n);
    if s.Publish? && s.n == n && s.accepted {
      EntriesPublish(net, n);
    } else if s.Deliver? && s.n == n {
      EntriesDeliver(net, n, s.m, s.accepted);
    } else {
      hide EntriesOf;
      EntriesKept(net, Do(net, s), n);
    }
  }

  lemma StepInv(net: Network, s: Step)
    requires Inv(net) && Enabled(net, s)
    ensures Inv(Do(net, s))
  {
    SendsStep(net, s);
    forall n | 0 <= n < |net.nodes| ensures EntriesOf(Do(net, s), n) {
      EntriesStep(net, s, n);
    }
  }

  // ---- every run ----

  ghost predicate Steps(net: Network, steps: seq<Step>)
    decreases |steps|
  {
    steps != [] ==> Sends(net) && Enabled(net, steps[0]) && Steps(Do(net, steps[0]), steps[1..])
  }

  ghost function Run(net: Network, steps: seq<Step>): Network
    requires Steps(net, steps)
    decreases |steps|
  {
    if steps == [] then net else Run(Do(net, steps[0]), steps[1..])
  }

  lemma {:induction false} RunInv(net: Network, steps: seq<Step>)
    requires Inv(net) && Steps(net, steps)
    ensures Inv(Run(net, steps))
    decreases |steps|
  {
    if steps != [] {
      StepInv(net, steps[0]);
      RunInv(Do(net, steps[0]), steps[1..]);
    }
  }

  /** No run is cut short by the bookkeeping: from a fresh network, enabled steps always lead on. */
  lemma EveryEnabledStepRuns(net: Network, steps: seq<Step>, s: Step)
    requires Fresh(net) && Steps(net, steps) && Enabled(Run(net, steps), s)
    ensures Steps(Run(net, steps), [s])
  {
    FreshInv(net);
    RunInv(net, steps);
    assert [s][1..] == [];
  }

  /** Entry i of node n stands for publish k. */
  ghost predicate Holds(net: Network, n: nat, i: nat, k: nat) {
    n < |net.nodes| && i < |net.nodes[n].entered| &&
    var e := net.nodes[n].entered[i];
    (e.Remote? ==> e.message < |net.wire|) && PublishOf(net, e) == k
  }

  /** In every run, each accepted publish enters the local bus of its origin exactly once and that of any
      other node at most once; it enters another node's only if the ids of the two nodes differ. */
  lemma EntersAtMostOnce(net: Network, steps: seq<Step>, n: nat, k: nat)
    requires Fresh(net) && Steps(net, steps)
    requires n < |Run(net, steps).nodes| && k < |Run(net, steps).origin|
    ensures var f := Run(net, steps);
            && (forall i, j :: Holds(f, n, i, k) && Holds(f, n, j, k) ==> i == j)
            && (f.origin[k] == n ==> exists i :: Holds(f, n, i, k))
            && (f.origin[k] != n && f.origin[k] < |f.nodes| && f.nodes[n].id == f.nodes[f.origin[k]].id ==>
                  forall i :: !Holds(f, n, i, k))
  {
    var f := Run(net, steps);
    FreshInv(net);
    RunInv(net, steps);
    assert EntriesOf(f, n);
    var es := f.nodes[n].entered;
    forall i: nat, j: nat | Holds(f, n, i, k) && Holds(f, n, j, k) ensures i == j {
      assert Legitimate(f, n, es[i]) && Legitimate(f, n, es[j]);
    }
    if f.origin[k] == n {
      assert Local(k) in es;
      var i :| 0 <= i < |es| && es[i] == Local(k);
      assert Holds(f, n, i, k);
    } else {
      forall i: nat | Holds(f, n, i, k) ensures f.nodes[n].id != f.nodes[f.origin[k]].id {
        assert Legitimate(f, n, es[i]);
      }
    }
  }

  /** A message of another node that has been handled was entered or refused, never both. */
  lemma EnteredOrRefused(net: Network, steps: seq<Step>, n: nat, m: nat)
    requires Fresh(net) && Steps(net, steps)
    requires n < |Run(net, steps).nodes| && m < |Run(net, steps).wire| && (n, m) in Run(net, steps).handled
    requires Run(net, steps).wire[m].nodeId != Run(net, steps).nodes[n].id
    ensures var node := Run(net, steps).nodes[n]; Remote(m) in node.entered <==> m !in node.refused
  {
    FreshInv(net);
    RunInv(net, steps);
    assert EntriesOf(Run(net, steps), n);
  }

  /** With distinct ids, a message that reaches another node is in its local bus, exactly once, unless that
      bus refused that very message. */
  lemma ReachesEveryOtherNode(net: Network, steps: seq<Step>, n: nat, m: nat)
    requires Fresh(net) && Steps(net, steps)
    requires n < |Run(net, steps).nodes| && m < |Run(net, steps).wire|
    requires (n, m) in Run(net, steps).handled && m !in Run(net, steps).nodes[n].refused
    requires forall a, b :: 0 <= a < b < |net.nodes| ==> net.nodes[a].id != net.nodes[b].id
    ensures var f := Run(net, steps);
            var k := f.wire[m].publish;
            && k < |f.origin| && (exists i :: Holds(f, n, i, k))
            && (forall i, j :: Holds(f, n, i, k) && Holds(f, n, j, k) ==> i == j)
  {
    var f := Run(net, steps);
    FreshInv(net);
    RunInv(net, steps);
    IdsKept(net, steps);
    var k := f.wire[m].publish;
    assert k < |f.origin|;
    EntersAtMostOnce(net, steps, n, k);
    if f.origin[k] != n {
      assert EntriesOf(f, n);
      var es := f.nodes[n].entered;
      assert Remote(m) in es;
      var i :| 0 <= i < |es| && es[i] == Remote(m);
      assert Holds(f, n, i, k);
    }
  }

  lemma {:induction false} IdsKept(net: Network, steps: seq<Step>)
    requires Inv(net) && Steps(net, steps)
    ensures |Run(net, steps).nodes| == |net.nodes|
    ensures forall n :: 0 <= n < |net.nodes| ==> Run(net, steps).nodes[n].id == net.nodes[n].id
    decreases |steps|
  {
    if steps != [] {
      StepInv(net, steps[0]);
      SendsStep(net, steps[0]);
      IdsKept(Do(net, steps[0]), steps[1..]);
    }
  }

  ghost function AcceptedPublishes(steps: seq<Step>): nat {
    if steps == [] then 0
    else AcceptedPublishes(steps[1..]) + if steps[0].Publish? && steps[0].accepted then 1 else 0
  }

  /** Messages on the carrier never exceed accepted publishes, and no two stand for the same one: handling a
      message creates none. */
  lemma {:induction false} WireIsBounded(net: Network, steps: seq<Step>)
    requires Inv(net) && Steps(net, steps)
    ensures var f := Run(net, steps);
            && |f.wire| + |f.sending| <= |f.origin| == |net.origin| + AcceptedPublishes(steps)
            && (forall l, m :: 0 <= l < m < |f.wire| ==> f.wire[l].publish != f.wire[m].publish)
    decreases |steps|
  {
    if steps != [] {
      StepInv(net, steps[0]);
      WireIsBounded(Do(net, steps[0]), steps[1..]);
    }
  }

  // ---- every accepted publish is sent ----

  /** Publish k waits for its goroutine or is on the carrier. */
  ghost predicate Underway(net: Network, k: nat) {
    k in net.sending || exists m :: 0 <= m < |net.wire| && net.wire[m].publish == k
  }

  lemma UnderwayStep(net: Network, s: Step, k: nat)
    requires Sends(net) && Enabled(net, s) && k < |net.origin|
    ensures Underway(net, k) <==> Underway(Do(net, s), k) || s == WireFail(k)
  {
    var after := Do(net, s);
    SendsStep(net, s);
    if s == WireOk(k) {
      assert after.wire[|net.wire|].publish == k;
    }
    if m :| 0 <= m < |net.wire| && net.wire[m].publish == k {
      assert after.wire[m].publish == k;
    }
  }

  lemma {:induction false} UnderwayRun(net: Network, steps: seq<Step>, k: nat)
    requires Inv(net) && Steps(net, steps) && k < |net.origin|
    ensures Underway(net, k) <==> Underway(Run(net, steps), k) || WireFail(k) in steps
    decreases |steps|
  {
    if steps != [] {
      hide Inv, Sends, Underway, Enabled;
      StepInv(net, steps[0]);
      InvSends(net);
      SendsStep(net, steps[0]);
      UnderwayStep(net, steps[0], k);
      UnderwayRun(Do(net, steps[0]), steps[1..], k);
      assert steps == [steps[0]] + steps[1..];
    }
  }

  lemma InvSends(net: Network)
    requires Inv(net)
    ensures Sends(net)
  {
  }

  /** An accepted publish, at any point of a run: after any further steps it waits to be sent, is on the carrier or was
      given up by a failed send, exactly when its node was connected as it published. */
  lemma SentExactly(net: Network, before: seq<Step>, n: nat, after: seq<Step>)
    requires Fresh(net) && Steps(net, before)
    requires Steps(Run(net, before), [Publish(n, true)] + after)
    ensures var mid, f := Run(net, before), Run(Run(net, before), [Publish(n, true)] + after);
            var k := |mid.origin|;
            && k < |f.origin| && f.origin[k] == n
            && (mid.nodes[n].connected <==>
                  k in f.sending || (exists m :: 0 <= m < |f.wire| && f.wire[m].publish == k) || WireFail(k) in after)
  {
    var mid, all := Run(net, before), [Publish(n, true)] + after;
    var k := |mid.origin|;
    FreshInv(net);
    RunInv(net, before);
    assert all[0] == Publish(n, true) && all[1..] == after;
    StepInv(mid, all[0]);
    var next := Do(mid, all[0]);
    assert Underway(next, k) <==> mid.nodes[n].connected;
    UnderwayRun(next, after, k);
    OriginsKept(next, after);
  }

  lemma {:induction false} OriginsKept(net: Network, steps: seq<Step>)
    requires Inv(net) && Steps(net, steps)
    ensures net.origin <= Run(net, steps).origin
    decreases |steps|
  {
    if steps != [] {
      StepInv(net, steps[0]);
      SendsStep(net, steps[0]);
      OriginsKept(Do(net, steps[0]), steps[1..]);
    }
  }
}
