/** What a client hears: the data packets of any run of its connection, with a sender that fits
    its channel at the other end, are a run of Delivery. */
module Downlink {
  import opened Bytes
  import opened Packet
  import opened Endpoint
  import opened C = Client
  import opened Conn = Connection
  import Data
  import Delivery
  import Fragments

  /** The client; the sender's counter and its encrypt calls; what decrypt returned at the client,
      under which packet numbers, and whether it raised there. */
  datatype State = State(
    client: ClientState, counter: nat, sent: seq<Delivery.Sent>, delivered: seq<bytes>, starts: seq<int>, raised: bool)

  /** Local: anything that happens at the client. PeerSends: an encrypt call at the other end. */
  datatype Event = Local(e: Conn.Event) | PeerSends(plain: bytes, nonces: nat -> Data.Nonce)

  ghost function Step(env: Env, tx: Data.Channel, x: State, e: Event): State {
    match e
    case PeerSends(plain, nonces) =>
      var (counter, wires) := Data.Encrypt(tx, x.counter, plain, nonces);
      x.(counter := counter,
         sent := if wires.Some? then x.sent + [Delivery.Sent(x.counter + 1, plain, wires.value)] else x.sent)
    case Local(Packet(raw, now)) =>
      var (client, _, outcome) := C.Receive(env, x.client, raw, now);
      x.(client := client,
         delivered := if outcome.Delivered? then x.delivered + [outcome.data] else x.delivered,
         starts := if outcome.Delivered? then x.starts + [HeardUnder(x.client, raw)] else x.starts,
         raised := x.raised || outcome.Raised?)
    case Local(other) => x.(client := Conn.Step(env, x.client, other))
  }

  /** The packet number under which the client returns a datagram. */
  function HeardUnder(c: ClientState, raw: bytes): int {
    if c.data.Some? then Data.UnderOf(c.data.value.channel, raw) else -1
  }

  ghost function Run(env: Env, o: Origin, tx: Data.Channel, events: seq<Event>): State {
    if events == [] then State(Conn.Run(env, o, []), 0, [], [], [], false)
    else Step(env, tx, Run(env, o, tx, events[..|events| - 1]), events[|events| - 1])
  }

  /** Datagrams are unambiguous; a data packet that the client can authenticate was sent. */
  ghost predicate Carried(x: State, e: Event) {
    match e
    case PeerSends(plain, _) => Fragments.Unambiguous(plain)
    case Local(Packet(raw, _)) =>
      x.client.data.Some? && raw != [] && raw[0] == 5 ==>
        Delivery.Deliverable(x.client.data.value.channel, x.sent, raw)
    case _ => true
  }

  ghost predicate Honest(env: Env, o: Origin, tx: Data.Channel, events: seq<Event>) {
    events != [] ==>
      var front := events[..|events| - 1];
      Honest(env, o, tx, front) && Carried(Run(env, o, tx, front), events[|events| - 1])
  }

  // ---- A run of Delivery ----

  ghost predicate BuiltOnce(c: ClientState) {
    c.handshakeDone <==> c.data.Some?
  }

  /** Before the channel is built, the receiving half is what it will be. */
  ghost function RxOf(c: ClientState): Data.Rx {
    if c.data.Some? then c.data.value.rx else Data.NewRx(64)
  }

  ghost predicate Mirrors(x: State, w: Delivery.World) {
    && BuiltOnce(x.client) && w.rx == RxOf(x.client)
    && w.counter == x.counter && w.sent == x.sent
    && w.outputs == x.delivered && w.starts == x.starts && w.raised == x.raised
  }

  ghost predicate Uses(c: ClientState, ch: Data.Channel) {
    c.data.Some? ==> c.data.value.channel == ch
  }

  /** What an event means for sender and receiver. */
  ghost function Flow(c: ClientState, e: Event): seq<Delivery.Event> {
    match e
    case PeerSends(plain, nonces) => [Delivery.Send(plain, nonces)]
    case Local(Packet(raw, now)) =>
      if raw != [] && raw[0] == 5 && c.data.Some? then [Delivery.Arrive(raw, now)] else []
    case Local(Turn(now)) => if c.data.Some? then [Delivery.Expire(now)] else []
    case _ => []
  }

  ghost function Flowed(tx: Data.Channel, ch: Data.Channel, w: Delivery.World,
                        flow: seq<Delivery.Event>): Delivery.World {
    if flow == [] then w else Delivery.Step(tx, ch, w, flow[0])
  }

  lemma ChannelStays(env: Env, tx: Data.Channel, x: State, e: Event, ch: Data.Channel)
    requires BuiltOnce(x.client) && Uses(Step(env, tx, x, e).client, ch)
    ensures Uses(x.client, ch)
  {
  }

  lemma PacketFlows(env: Env, tx: Data.Channel, x: State, raw: bytes, now: real, ch: Data.Channel, w: Delivery.World)
    requires Mirrors(x, w) && Uses(x.client, ch) && Carried(x, Local(Packet(raw, now)))
    ensures var e := Local(Packet(raw, now));
      Mirrors(Step(env, tx, x, e), Flowed(tx, ch, w, Flow(x.client, e)))
  {
    if raw != [] && raw[0] == 5 && x.client.data.Some? {
      Delivery.ArrivedDecrypts(ch, w, raw, now);
    }
  }

  lemma StepFlows(env: Env, tx: Data.Channel, x: State, e: Event, ch: Data.Channel, w: Delivery.World)
    requires Mirrors(x, w) && Uses(x.client, ch) && Carried(x, e)
    ensures Mirrors(Step(env, tx, x, e), Flowed(tx, ch, w, Flow(x.client, e)))
  {
    match e
    case Local(Packet(raw, now)) => PacketFlows(env, tx, x, raw, now, ch, w);
    case _ =>
  }

  lemma {:induction false} FlowAppends(tx: Data.Channel, ch: Data.Channel, traffic: seq<Delivery.Event>,
                                       e: Delivery.Event)
    requires Delivery.SendsUnambiguous(traffic) && (e.Send? ==> Fragments.Unambiguous(e.plain))
    ensures Delivery.SendsUnambiguous(traffic + [e])
    ensures Delivery.Run(tx, ch, 64, traffic + [e]) == Delivery.Step(tx, ch, Delivery.Run(tx, ch, 64, traffic), e)
  {
    assert (traffic + [e])[..|traffic|] == traffic;
  }

  lemma {:induction false} RunFlows(env: Env, o: Origin, tx: Data.Channel, events: seq<Event>, ch: Data.Channel)
    returns (traffic: seq<Delivery.Event>)
    requires Honest(env, o, tx, events) && Uses(Run(env, o, tx, events).client, ch)
    ensures Delivery.SendsUnambiguous(traffic)
    ensures Mirrors(Run(env, o, tx, events), Delivery.Run(tx, ch, 64, traffic))
  {
    traffic := [];
    if events != [] {
      var front, e := events[..|events| - 1], events[|events| - 1];
      var x := Run(env, o, tx, front);
      BuiltInRun(env, o, tx, front);
      ChannelStays(env, tx, x, e, ch);
      traffic := RunFlows(env, o, tx, front, ch);
      StepFlows(env, tx, x, e, ch, Delivery.Run(tx, ch, 64, traffic));
      var flow := Flow(x.client, e);
      if flow != [] {
        FlowAppends(tx, ch, traffic, flow[0]);
        traffic := traffic + [flow[0]];
      }
    }
  }

  lemma {:induction false} BuiltInRun(env: Env, o: Origin, tx: Data.Channel, events: seq<Event>)
    ensures BuiltOnce(Run(env, o, tx, events).client)
  {
    if events != [] {
      BuiltInRun(env, o, tx, events[..|events| - 1]);
    }
  }

  /** In every run of a connection, on any bytes, with any sender that fits the channel the client
      builds, over a network that cannot forge: every datagram that decrypt returns at the client
      is the plaintext of the encrypt call whose number it bears, no two have the same number, and
      decrypt never raises. */
  lemma ClientHearsTheSender(env: Env, o: Origin, tx: Data.Channel, events: seq<Event>)
    requires Honest(env, o, tx, events)
    requires var c := Run(env, o, tx, events).client; c.data.Some? && Fragments.Matched(tx, c.data.value.channel)
    ensures var x := Run(env, o, tx, events);
      && |x.delivered| == |x.starts| && !x.raised
      && (forall i, j :: 0 <= i < j < |x.starts| ==> x.starts[i] != x.starts[j])
      && (forall j :: 0 <= j < |x.starts| ==> Delivery.CallExists(x.sent, x.starts[j], x.delivered[j]))
  {
    var ch := Run(env, o, tx, events).client.data.value.channel;
    var traffic := RunFlows(env, o, tx, events, ch);
    Delivery.EndToEnd(tx, ch, 64, traffic);
  }
}
