/** From the client's TUN device to the server's: the data packets of a Tunnel run are a run
    of Delivery, whatever happens to the handshake, the timers and the other clients. */
module Uplink {
  import opened Bytes
  import opened Packet
  import opened Endpoint
  import opened Routing
  import opened C = Client
  import opened T = ServerTable
  import opened U = Tunnel
  import Data
  import Delivery
  import Fragments
  import H = Handshake

  /** The server's entry for the client has a data channel. */
  ghost predicate HasData(g: Setting, x: State) {
    g.addr in x.table.clients && x.table.clients[g.addr].data.Some?
  }

  /** A datagram is unambiguous; a data packet that the server can authenticate was sent. */
  ghost predicate Carried(g: Setting, x: State, e: U.Event) {
    match e
    case ClientSends(plain, _) => Fragments.Unambiguous(plain)
    case FromClient(raw, _, _) =>
      HasData(g, x) && raw != [] && raw[0] == OpcodeByte(Opcode.Data) ==>
        Delivery.Deliverable(x.table.clients[g.addr].data.value.channel, x.sent, raw)
    case _ => true
  }

  /** A legal run whose network carries only what was sent. */
  ghost predicate Honest(g: Setting, range: Option<(Ip, Ip)>, events: seq<U.Event>) {
    events != [] ==>
      var front := events[..|events| - 1];
      var x, e := U.Run(g, range, front), events[|events| - 1];
      Honest(g, range, front) && Allowed(g, x, e) && Carried(g, x, e)
  }

  lemma {:induction false} HonestIsLegal(g: Setting, range: Option<(Ip, Ip)>, events: seq<U.Event>)
    requires Honest(g, range, events)
    ensures Legal(g, range, events)
  {
    if events != [] {
      HonestIsLegal(g, range, events[..|events| - 1]);
    }
  }

  // ---- The data packets are a run of Delivery ----

  /** The server's entry for the client is established and has a data channel. */
  ghost predicate Listening(g: Setting, t: Table) {
    && g.addr in t.clients && t.clients[g.addr].data.Some?
    && t.clients[g.addr].session.state.Established?
  }

  /** What an event means for the sender and the receiver of data packets. */
  ghost function Flow(g: Setting, x: State, e: U.Event): seq<Delivery.Event> {
    match e
    case ClientSends(plain, nonces) =>
      if CanSend(x.client) && plain != [] then [Delivery.Send(plain, nonces)] else []
    case FromClient(raw, now, _) =>
      if raw != [] && raw[0] == OpcodeByte(Opcode.Data) && Listening(g, x.table)
      then [Delivery.Arrive(raw, now)] else []
    case Other(Tick(now)) => if HasData(g, x) then [Delivery.Expire(now)] else []
    case _ => []
  }

  /** The receiving half at the server; before it is built, what it will be. */
  ghost function RxAt(g: Setting, t: Table): Data.Rx {
    if g.addr in t.clients && t.clients[g.addr].data.Some? then t.clients[g.addr].data.value.rx
    else Data.NewRx(64)
  }

  /** The sender of w is the client, its receiver the server's entry for the client. */
  ghost predicate Mirrors(g: Setting, x: State, w: Delivery.World) {
    && w.counter == (if x.client.data.Some? then x.client.data.value.counter else 0)
    && w.rx == RxAt(g, x.table)
    && w.sent == x.sent && w.outputs == x.delivered && w.starts == x.starts && w.raised == x.raised
  }

  /** The data channels there are, are tx at the client and ch at the server. */
  ghost predicate Uses(g: Setting, x: State, tx: Data.Channel, ch: Data.Channel) {
    && (x.client.data.Some? ==> x.client.data.value.channel == tx)
    && (HasData(g, x) ==> x.table.clients[g.addr].data.value.channel == ch)
  }

  ghost predicate BuiltOnce(x: State) {
    x.client.handshakeDone <==> x.client.data.Some?
  }

  /** A data channel, once built, stays. */
  lemma ChannelsStay(g: Setting, x: State, e: U.Event, tx: Data.Channel, ch: Data.Channel)
    requires Allowed(g, x, e) && BuiltOnce(x) && Uses(g, U.Step(g, x, e), tx, ch)
    ensures Uses(g, x, tx, ch)
  {
  }

  /** A step of the receiver and the sender, or none. */
  ghost function Flowed(tx: Data.Channel, ch: Data.Channel, w: Delivery.World,
                        flow: seq<Delivery.Event>): Delivery.World {
    if flow == [] then w else Delivery.Step(tx, ch, w, flow[0])
  }

  lemma SendFlows(g: Setting, x: State, plain: bytes, nonces: nat -> Data.Nonce, tx: Data.Channel, ch: Data.Channel,
                  w: Delivery.World)
    requires BuiltOnce(x) && Uses(g, x, tx, ch) && Mirrors(g, x, w)
    ensures var e := ClientSends(plain, nonces);
      Mirrors(g, U.Step(g, x, e), Flowed(tx, ch, w, Flow(g, x, e)))
  {
  }

  /** A packet that is no data packet builds the receiver, or leaves it alone. */
  lemma BuiltOrKept(env: Env, c: T.Client, raw: bytes, now: real)
    requires raw != [] && raw[0] != OpcodeByte(Opcode.Data)
    ensures var c' := T.Receive(env, c, raw, now).0;
      c'.data == c.data || (c.data == None && c'.data.Some? && c'.data.value.rx == Data.NewRx(64))
  {
  }

  lemma ReceiverKept(g: Setting, t: Table, raw: bytes, now: real, draw: Draw)
    requires raw == [] || raw[0] != OpcodeByte(Opcode.Data)
    ensures RxAt(g, Handle(g.serverEnv, t, g.addr, raw, now, draw)) == RxAt(g, t)
    ensures Heard(g.serverEnv, t, g.addr, raw, now) == Data.Dropped
  {
    if raw != [] && g.addr in t.clients {
      BuiltOrKept(g.serverEnv, t.clients[g.addr], raw, now);
    }
  }

  /** A data packet is a call of decrypt, or is ignored. */
  lemma ReceiverHears(g: Setting, t: Table, raw: bytes, now: real, draw: Draw)
    requires raw != [] && raw[0] == OpcodeByte(Opcode.Data)
    ensures var t' := Handle(g.serverEnv, t, g.addr, raw, now, draw);
      (RxAt(g, t'), Heard(g.serverEnv, t, g.addr, raw, now)) ==
      if Listening(g, t)
      then Data.Decrypt(t.clients[g.addr].data.value.channel, RxAt(g, t), raw, now)
      else (RxAt(g, t), Data.Dropped)
  {
  }

  lemma ArriveStep(tx: Data.Channel, ch: Data.Channel, w: Delivery.World, raw: bytes, now: real)
    requires Delivery.Deliverable(ch, w.sent, raw)
    ensures var w' := Delivery.Step(tx, ch, w, Delivery.Arrive(raw, now));
      var (rx, outcome) := Data.Decrypt(ch, w.rx, raw, now);
      && w'.rx == rx && w'.sent == w.sent && w'.counter == w.counter
      && w'.outputs == (if outcome.Delivered? then w.outputs + [outcome.data] else w.outputs)
      && w'.starts == (if outcome.Delivered? then w.starts + [Data.UnderOf(ch, raw)] else w.starts)
      && w'.raised == (w.raised || outcome.Raised?)
  {
    Delivery.ArrivedDecrypts(ch, w, raw, now);
  }

  /** What a call of decrypt changes. */
  lemma HeardStep(g: Setting, x: State, raw: bytes, now: real, draw: Draw)
    requires raw != [] && raw[0] == OpcodeByte(Opcode.Data)
    requires Listening(g, x.table)
    ensures var ch := x.table.clients[g.addr].data.value.channel;
      var (rx, outcome) := Data.Decrypt(ch, RxAt(g, x.table), raw, now);
      var x' := U.Step(g, x, FromClient(raw, now, draw));
      && RxAt(g, x'.table) == rx && x'.client == x.client && x'.sent == x.sent
      && x'.delivered == (if outcome.Delivered? then x.delivered + [outcome.data] else x.delivered)
      && x'.starts == (if outcome.Delivered? then x.starts + [Data.UnderOf(ch, raw)] else x.starts)
      && x'.raised == (x.raised || outcome.Raised?)
  {
    ReceiverHears(g, x.table, raw, now, draw);
  }

  lemma HeardFlows(g: Setting, x: State, raw: bytes, now: real, draw: Draw, tx: Data.Channel, ch: Data.Channel,
                   w: Delivery.World)
    requires Uses(g, x, tx, ch) && Mirrors(g, x, w) && raw != [] && raw[0] == OpcodeByte(Opcode.Data)
    requires Listening(g, x.table)
    requires Delivery.Deliverable(ch, w.sent, raw)
    ensures Mirrors(g, U.Step(g, x, FromClient(raw, now, draw)), Delivery.Step(tx, ch, w, Delivery.Arrive(raw, now)))
  {
    HeardStep(g, x, raw, now, draw);
    ArriveStep(tx, ch, w, raw, now);
  }

  lemma IgnoredFlows(g: Setting, x: State, raw: bytes, now: real, draw: Draw, w: Delivery.World)
    requires Mirrors(g, x, w) && raw != [] && raw[0] == OpcodeByte(Opcode.Data)
    requires !Listening(g, x.table)
    ensures Mirrors(g, U.Step(g, x, FromClient(raw, now, draw)), w)
  {
    ReceiverHears(g, x.table, raw, now, draw);
  }

  lemma DataFlows(g: Setting, x: State, raw: bytes, now: real, draw: Draw, tx: Data.Channel, ch: Data.Channel,
                  w: Delivery.World)
    requires Uses(g, x, tx, ch) && Mirrors(g, x, w) && Carried(g, x, FromClient(raw, now, draw))
    requires raw != [] && raw[0] == OpcodeByte(Opcode.Data)
    ensures var e := FromClient(raw, now, draw);
      Mirrors(g, U.Step(g, x, e), Flowed(tx, ch, w, Flow(g, x, e)))
  {
    if Listening(g, x.table) {
      HeardFlows(g, x, raw, now, draw, tx, ch, w);
    } else {
      IgnoredFlows(g, x, raw, now, draw, w);
    }
  }

  lemma OtherFlows(g: Setting, x: State, e: T.Event, tx: Data.Channel, ch: Data.Channel, w: Delivery.World)
    requires Allowed(g, x, Other(e)) && Uses(g, x, tx, ch) && Mirrors(g, x, w)
    ensures Mirrors(g, U.Step(g, x, Other(e)), Flowed(tx, ch, w, Flow(g, x, Other(e))))
  {
  }

  lemma ClientFlows(g: Setting, x: State, e: U.Event, w: Delivery.World)
    requires BuiltOnce(x) && Mirrors(g, x, w) && (e.ClientStart? || e.FromServer? || e.ClientTurn?)
    ensures Mirrors(g, U.Step(g, x, e), w)
  {
  }

  lemma StepFlows(g: Setting, x: State, e: U.Event, tx: Data.Channel, ch: Data.Channel, w: Delivery.World)
    requires Allowed(g, x, e) && Carried(g, x, e) && BuiltOnce(x) && Uses(g, x, tx, ch) && Mirrors(g, x, w)
    ensures Mirrors(g, U.Step(g, x, e), Flowed(tx, ch, w, Flow(g, x, e)))
  {
    match e
    case ClientSends(plain, nonces) => SendFlows(g, x, plain, nonces, tx, ch, w);
    case FromClient(raw, now, draw) =>
      if raw != [] && raw[0] == OpcodeByte(Opcode.Data) {
        DataFlows(g, x, raw, now, draw, tx, ch, w);
      } else {
        ReceiverKept(g, x.table, raw, now, draw);
      }
    case Other(other) => OtherFlows(g, x, other, tx, ch, w);
    case _ => ClientFlows(g, x, e, w);
  }

  lemma {:induction false} FlowAppends(tx: Data.Channel, ch: Data.Channel, traffic: seq<Delivery.Event>,
                                       e: Delivery.Event)
    requires Delivery.SendsUnambiguous(traffic) && (e.Send? ==> Fragments.Unambiguous(e.plain))
    ensures Delivery.SendsUnambiguous(traffic + [e])
    ensures Delivery.Run(tx, ch, 64, traffic + [e])
      == Delivery.Step(tx, ch, Delivery.Run(tx, ch, 64, traffic), e)
  {
    assert (traffic + [e])[..|traffic|] == traffic;
  }

  lemma {:induction false} RunFlows(g: Setting, range: Option<(Ip, Ip)>, events: seq<U.Event>, tx: Data.Channel,
                                    ch: Data.Channel)
    returns (traffic: seq<Delivery.Event>)
    requires Fair(g) && Honest(g, range, events) && Uses(g, U.Run(g, range, events), tx, ch)
    ensures Delivery.SendsUnambiguous(traffic)
    ensures Mirrors(g, U.Run(g, range, events), Delivery.Run(tx, ch, 64, traffic))
  {
    if events == [] {
      traffic := [];
    } else {
      var front := events[..|events| - 1];
      var x, e := U.Run(g, range, front), events[|events| - 1];
      HonestIsLegal(g, range, front);
      RunSimulates(g, range, front);
      ChannelsStay(g, x, e, tx, ch);
      traffic := RunFlows(g, range, front, tx, ch);
      StepFlows(g, x, e, tx, ch, Delivery.Run(tx, ch, 64, traffic));
      var flow := Flow(g, x, e);
      if flow != [] {
        FlowAppends(tx, ch, traffic, flow[0]);
        traffic := traffic + [flow[0]];
      }
    }
  }

  // ---- Where the datagrams come from ----

  /** The positions of the events that sent something. */
  ghost function Sends(g: Setting, range: Option<(Ip, Ip)>, events: seq<U.Event>): seq<nat> {
    if events == [] then []
    else
      var front := events[..|events| - 1];
      Sends(g, range, front) +
      (if U.Run(g, range, events).sent != U.Run(g, range, front).sent then [|front|] else [])
  }

  /** The packet number that the client's next datagram gets; 0 without a data channel. */
  ghost function NextNumber(x: State): nat {
    if x.client.data.Some? then x.client.data.value.counter + 1 else 0
  }

  /** That number before each event. */
  ghost function NumbersBefore(g: Setting, range: Option<(Ip, Ip)>, events: seq<U.Event>): (numbers: seq<nat>)
    ensures |numbers| == |events|
  {
    if events == [] then []
    else
      var front := events[..|events| - 1];
      NumbersBefore(g, range, front) + [NextNumber(U.Run(g, range, front))]
  }

  /** An event sends at most one datagram: the one the client read, under the next number. */
  ghost predicate Grows(sent: seq<Delivery.Sent>, sent': seq<Delivery.Sent>, e: U.Event, number: nat) {
    || sent' == sent
    || (&& e.ClientSends? && |sent'| == |sent| + 1 && sent'[..|sent|] == sent
        && sent'[|sent|].plain == e.plain && sent'[|sent|].start == number)
  }

  lemma {:induction false} SentByLast(g: Setting, range: Option<(Ip, Ip)>, events: seq<U.Event>)
    requires events != []
    ensures var n := |events| - 1;
      var x := U.Run(g, range, events[..n]);
      Grows(x.sent, U.Run(g, range, events).sent, events[n], NextNumber(x))
  {
  }

  /** The client reads `plain` in event k, and sends it under the number `start`. */
  ghost predicate ReadIn(events: seq<U.Event>, numbers: seq<nat>, k: nat, plain: bytes, start: int)
    requires |numbers| == |events|
  {
    k < |events| && events[k].ClientSends? && events[k].plain == plain && numbers[k] == start
  }

  /** The i-th of them sent the i-th datagram. */
  ghost predicate SendsAre(events: seq<U.Event>, numbers: seq<nat>, sent: seq<Delivery.Sent>, sends: seq<nat>)
    requires |numbers| == |events|
  {
    && |sends| == |sent|
    && (forall i :: 0 <= i < |sends| ==> ReadIn(events, numbers, sends[i], sent[i].plain, sent[i].start))
    && (forall i, j :: 0 <= i < j < |sends| ==> sends[i] < sends[j])
  }

  lemma {:induction false} SendsLast(g: Setting, range: Option<(Ip, Ip)>, events: seq<U.Event>)
    requires events != []
    ensures var n := |events| - 1;
      Sends(g, range, events) == Sends(g, range, events[..n])
        + (if U.Run(g, range, events).sent != U.Run(g, range, events[..n]).sent then [n] else [])
  {
  }

  lemma SendsGrow(events: seq<U.Event>, numbers: seq<nat>, sent: seq<Delivery.Sent>, sent': seq<Delivery.Sent>,
                  sends: seq<nat>, sends': seq<nat>)
    requires events != [] && |numbers| == |events|
    requires SendsAre(events[..|events| - 1], numbers[..|events| - 1], sent, sends)
    requires Grows(sent, sent', events[|events| - 1], numbers[|events| - 1])
    requires sends' == sends + (if sent' != sent then [|events| - 1] else [])
    ensures SendsAre(events, numbers, sent', sends')
  {
    var n := |events| - 1;
    forall i | 0 <= i < |sends'|
      ensures ReadIn(events, numbers, sends'[i], sent'[i].plain, sent'[i].start)
    {
      if i < |sends| {
        assert ReadIn(events[..n], numbers[..n], sends[i], sent[i].plain, sent[i].start);
        assert sent'[i] == sent[i];
      }
    }
  }

  lemma {:induction false} SendsExact(g: Setting, range: Option<(Ip, Ip)>, events: seq<U.Event>)
    ensures SendsAre(events, NumbersBefore(g, range, events), U.Run(g, range, events).sent, Sends(g, range, events))
  {
    if events != [] {
      var n := |events| - 1;
      var numbers := NumbersBefore(g, range, events);
      SendsExact(g, range, events[..n]);
      SentByLast(g, range, events);
      SendsLast(g, range, events);
      NumbersLast(g, range, events);
      SendsGrow(events, numbers, U.Run(g, range, events[..n]).sent, U.Run(g, range, events).sent,
                Sends(g, range, events[..n]), Sends(g, range, events));
    }
  }

  lemma {:induction false} NumbersLast(g: Setting, range: Option<(Ip, Ip)>, events: seq<U.Event>)
    requires events != []
    ensures var n := |events| - 1;
      && NumbersBefore(g, range, events)[..n] == NumbersBefore(g, range, events[..n])
      && NumbersBefore(g, range, events)[n] == NextNumber(U.Run(g, range, events[..n]))
  {
  }

  // ---- The theorem ----

  /** Each datagram delivered is the one that the client read in the event that origin names
      for it, the event that sent under the number the datagram was delivered under; and no two
      have the same number or event. */
  ghost predicate FromTheClient(events: seq<U.Event>, numbers: seq<nat>, x: State, origin: seq<nat>)
    requires |numbers| == |events|
  {
    && |origin| == |x.delivered| == |x.starts|
    && (forall j :: 0 <= j < |origin| ==> ReadIn(events, numbers, origin[j], x.delivered[j], x.starts[j]))
    && (forall i, j :: 0 <= i < j < |origin| ==> origin[i] != origin[j] && x.starts[i] != x.starts[j])
  }

  ghost predicate SameLibraries(g: Setting) {
    && g.clientEnv.aead == g.serverEnv.aead && Data.Ideal(g.clientEnv.aead)
    && g.clientEnv.codec.compress == g.serverEnv.codec.compress
    && g.clientEnv.codec.decompress == g.serverEnv.codec.decompress
    && Data.Lossless(g.clientEnv.codec)
  }

  /** Whichever data channels exist, they belong to a fitting pair. */
  lemma FittingPair(g: Setting, range: Option<(Ip, Ip)>, events: seq<U.Event>)
    returns (tx: Data.Channel, ch: Data.Channel)
    requires Fair(g) && SameLibraries(g) && Legal(g, range, events)
    ensures Fragments.Matched(tx, ch) && Uses(g, U.Run(g, range, events), tx, ch)
  {
    var x := U.Run(g, range, events);
    var cr, seen := g.clientEnv.crypto, SeenAll(g, range, events);
    RunSimulates(g, range, events);
    H.RunKeeps(cr, g.c, g.s, seen);
    XorBytesCommutes(g.c.id, g.s.id);
    if x.client.data.Some? {
      tx := x.client.data.value.channel;
      ch := if HasData(g, x) then x.table.clients[g.addr].data.value.channel else tx;
    } else if HasData(g, x) {
      ch := x.table.clients[g.addr].data.value.channel;
      tx := ch;
    } else {
      tx := Data.Channel([], Some([]), g.clientEnv.aead, g.clientEnv.codec, false);
      ch := tx;
    }
  }

  /** In every run of the client against the whole server, over an honest network, and whatever
      the server's other clients do: every datagram that decrypt returns at the server for this
      client is one the client read from its TUN device, unchanged; each read is returned only
      once, also among reads of equal datagrams; and decrypt never raises. */
  lemma ServerHearsTheClient(g: Setting, range: Option<(Ip, Ip)>, events: seq<U.Event>)
    requires Fair(g) && SameLibraries(g) && Honest(g, range, events)
    ensures exists origin: seq<nat> ::
      FromTheClient(events, NumbersBefore(g, range, events), U.Run(g, range, events), origin)
    ensures !U.Run(g, range, events).raised
  {
    HonestIsLegal(g, range, events);
    var tx, ch := FittingPair(g, range, events);
    var traffic := RunFlows(g, range, events, tx, ch);
    Delivery.EndToEnd(tx, ch, 64, traffic);
    var w := Delivery.Run(tx, ch, 64, traffic);
    var origin: seq<nat> :| Delivery.Origins(w, origin);
    SendsExact(g, range, events);
    var numbers, sends := NumbersBefore(g, range, events), Sends(g, range, events);
    var o := Compose(events, numbers, U.Run(g, range, events), w, origin, sends);
  }

  lemma Compose(events: seq<U.Event>, numbers: seq<nat>, x: State, w: Delivery.World, origin: seq<nat>, sends: seq<nat>)
    returns (o: seq<nat>)
    requires |numbers| == |events| && SendsAre(events, numbers, w.sent, sends)
    requires Delivery.Origins(w, origin) && Delivery.OncePerCall(w)
    requires w.outputs == x.delivered && w.starts == x.starts
    ensures FromTheClient(events, numbers, x, o)
  {
    o := seq(|origin|, j requires 0 <= j < |origin| => sends[origin[j]]);
    forall i, j | 0 <= i < j < |origin|
      ensures o[i] != o[j]
    {
      assert origin[i] < origin[j] || origin[j] < origin[i];
    }
  }
}
