/** One honest client connected to the whole server, with any other clients doing anything:
    the pair runs the handshake of Handshake, so what is proved there holds of the client
    object and of the client's entry in the server's table. */
module Tunnel {
  import opened Bytes
  import opened Packet
  import opened Control
  import opened Endpoint
  import opened Routing
  import opened H = Handshake
  import opened C = Client
  import opened T = ServerTable
  import Agreement
  import Data
  import Delivery
  import Fragments

  /** Both programs' configuration, the client's address, and the ids and keys drawn. */
  datatype Setting = Setting(clientEnv: Env, serverEnv: Env, addr: Addr, c: Party, s: Party)

  ghost predicate Fair(g: Setting) {
    && g.clientEnv.crypto == g.serverEnv.crypto && Sound(g.clientEnv.crypto)
    && g.c.credentials == g.clientEnv.credentials && g.s.credentials == g.serverEnv.credentials
  }

  /** The client, the server's table, and every handshake packet ever sent either way; the
      datagrams the client sent, those that decrypt returned at the server for the client, under
      which packet numbers, and whether it raised there. */
  datatype State = State(
    client: ClientState, table: Table, toServer: set<bytes>, toClient: set<bytes>,
    sent: seq<Delivery.Sent>, delivered: seq<bytes>, starts: seq<int>, raised: bool)

  /** FromClient and FromServer: a packet arrives at the server from the client's address, or
      at the client. ClientSends: the client reads a datagram from its TUN device. Other:
      anything else that happens at the server. */
  datatype Event =
    | ClientStart
    | FromClient(raw: bytes, now: real, draw: Draw)
    | FromServer(raw: bytes, now: real)
    | ClientTurn(now: real)
    | ClientSends(plain: bytes, nonces: nat -> Data.Nonce)
    | Other(e: T.Event)

  ghost function Step(g: Setting, x: State, e: Event): State {
    match e
    case ClientStart =>
      var (session, packets) := ClientStartHandshake(x.client.session);
      x.(client := x.client.(session := session), toServer := x.toServer + AllOf(packets.value))
    case FromClient(raw, now, draw) =>
      if raw !in x.toServer && !Neutral(raw) then x
      else
        var heard := Heard(g.serverEnv, x.table, g.addr, raw, now);
        x.(table := Handle(g.serverEnv, x.table, g.addr, raw, now, draw),
           toClient := x.toClient + AllOf(Answers(g.serverEnv, x.table, g.addr, raw, now, draw)),
           delivered := if heard.Delivered? then x.delivered + [heard.data] else x.delivered,
           starts := if heard.Delivered? then x.starts + [HeardUnder(x.table, g.addr, raw)] else x.starts,
           raised := x.raised || heard.Raised?)
    case FromServer(raw, now) =>
      if raw !in x.toClient && !Neutral(raw) then x
      else
        var (client, packets, _) := C.Receive(g.clientEnv, x.client, raw, now);
        x.(client := client, toServer := x.toServer + AllOf(packets))
    case ClientTurn(now) => x.(client := C.Tick(g.clientEnv, x.client, now).0)
    case ClientSends(plain, nonces) =>
      var (client, wires) := C.Send(x.client, plain, nonces);
      x.(client := client,
         sent := if x.client.data.Some? && wires.Some? && wires.value != []
                 then x.sent + [Delivery.Sent(x.client.data.value.counter + 1, plain, wires.value)] else x.sent)
    case Other(e) => x.(table := T.Step(g.serverEnv, x.table, e))
  }

  /** The server's session for the client is drawn once: the client is neither disconnected
      nor swept away. Other clients and their packets are arbitrary. */
  ghost predicate Allowed(g: Setting, x: State, e: Event) {
    match e
    case FromClient(_, now, draw) => DrawnOnce(g, x, now, draw)
    case Other(Packet(addr, _, _, _)) => addr != g.addr
    case Other(Connect(addr, now, draw)) => addr == g.addr ==> DrawnOnce(g, x, now, draw)
    case Other(Disconnect(addr)) => addr != g.addr
    case Other(Sweep(now)) => g.addr !in StaleAddrs(x.table, now, g.serverEnv.keepaliveTimeout)
    case _ => true
  }

  ghost predicate DrawnOnce(g: Setting, x: State, now: real, draw: Draw) {
    g.addr !in x.table.clients ==> draw == Draw(g.s.id, g.s.privateKey) && now == g.s.createdAt
  }

  ghost function Run(g: Setting, range: Option<(Ip, Ip)>, events: seq<Event>): State {
    if events == [] then
      State(ClientState(SessionOf(g.c), None, false, None, g.c.createdAt), Empty(range), {}, {}, [], [], [], false)
    else Step(g, Run(g, range, events[..|events| - 1]), events[|events| - 1])
  }

  ghost predicate Legal(g: Setting, range: Option<(Ip, Ip)>, events: seq<Event>) {
    events != [] ==>
      var front := events[..|events| - 1];
      Legal(g, range, front) && Allowed(g, Run(g, range, front), events[|events| - 1])
  }

  // ---- The pair runs the handshake ----

  ghost predicate SameData(env: Env, data: Option<DataState>, args: Option<ChannelArgs>) {
    && (data.Some? <==> args.Some?)
    && (data.Some? ==> data.value.channel == ChannelOf(args.value, env.aead, env.codec, env.compLzo))
  }

  ghost predicate EntryIs(g: Setting, t: Table, session: SessionValue, args: Option<ChannelArgs>) {
    if g.addr in t.clients
    then t.clients[g.addr].session == session && SameData(g.serverEnv, t.clients[g.addr].data, args)
    else session == SessionOf(g.s) && args == None
  }

  ghost predicate Simulates(g: Setting, x: State, y: System) {
    && x.client.session == y.client
    && SameData(g.clientEnv, x.client.data, y.clientData)
    && (x.client.handshakeDone <==> x.client.data.Some?)
    && EntryIs(g, x.table, y.server, y.serverData)
    && x.toServer == y.toServer && x.toClient == y.toClient
  }

  /** The handshake's view of an event: none, or one of its own. */
  ghost function Seen(g: Setting, x: State, e: Event): seq<H.Event> {
    match e
    case ClientStart => [H.Event.ClientStart]
    case FromClient(raw, _, _) =>
      if g.addr !in x.table.clients && (raw == [] || raw[0] != OpcodeByte(HardResetClient)) then [] else [ToServer(raw)]
    case FromServer(raw, _) => [ToClient(raw)]
    case ClientTurn(_) => [ClientTick]
    case ClientSends(_, _) => []
    case Other(_) => []
  }

  ghost function DataAfter(server: SessionValue, handled: bool, args: Option<ChannelArgs>): Option<ChannelArgs> {
    if handled && server.state == Established && args == None then Some(ArgsOf(server)) else args
  }

  lemma EntryOnReset(g: Setting, t: Table, raw: bytes, now: real, draw: Draw, y: System)
    requires Fair(g) && EntryIs(g, t, y.server, y.serverData)
    requires raw != [] && raw[0] == OpcodeByte(HardResetClient)
    requires g.addr !in t.clients ==> draw == Draw(g.s.id, g.s.privateKey) && now == g.s.createdAt
    ensures var (server, packets, handled) := ServerDispatch(g.serverEnv.crypto, y.server, raw);
      && Answers(g.serverEnv, t, g.addr, raw, now, draw) == packets
      && EntryIs(g, Handle(g.serverEnv, t, g.addr, raw, now, draw), server, DataAfter(server, handled, y.serverData))
  {
  }

  lemma EntryOnControl(g: Setting, c: T.Client, raw: bytes, now: real, args: Option<ChannelArgs>)
    requires SameData(g.serverEnv, c.data, args) && raw != [] && raw[0] == OpcodeByte(Opcode.Control)
    ensures var (server, packets, handled) := ServerDispatch(g.serverEnv.crypto, c.session, raw);
      var c' := T.Receive(g.serverEnv, c, raw, now).0;
      c'.session == server && SameData(g.serverEnv, c'.data, DataAfter(server, handled, args))
  {
  }

  lemma EntryOnKnown(g: Setting, t: Table, raw: bytes, now: real, draw: Draw, y: System)
    requires Fair(g) && EntryIs(g, t, y.server, y.serverData) && g.addr in t.clients
    requires raw == [] || raw[0] != OpcodeByte(HardResetClient)
    ensures var (server, packets, handled) := ServerDispatch(g.serverEnv.crypto, y.server, raw);
      && Answers(g.serverEnv, t, g.addr, raw, now, draw) == packets
      && EntryIs(g, Handle(g.serverEnv, t, g.addr, raw, now, draw), server, DataAfter(server, handled, y.serverData))
  {
    if raw != [] && raw[0] == OpcodeByte(Opcode.Control) {
      EntryOnControl(g, t.clients[g.addr], raw, now, y.serverData);
    }
  }

  /** What the server does on a packet of the client. */
  lemma EntryOnPacket(g: Setting, t: Table, raw: bytes, now: real, draw: Draw, y: System)
    requires Fair(g) && EntryIs(g, t, y.server, y.serverData)
    requires g.addr !in t.clients ==>
      && draw == Draw(g.s.id, g.s.privateKey) && now == g.s.createdAt
      && raw != [] && raw[0] == OpcodeByte(HardResetClient)
    ensures var (server, packets, handled) := ServerDispatch(g.serverEnv.crypto, y.server, raw);
      && Answers(g.serverEnv, t, g.addr, raw, now, draw) == packets
      && EntryIs(g, Handle(g.serverEnv, t, g.addr, raw, now, draw), server, DataAfter(server, handled, y.serverData))
  {
    if raw != [] && raw[0] == OpcodeByte(HardResetClient) {
      EntryOnReset(g, t, raw, now, draw, y);
    } else {
      EntryOnKnown(g, t, raw, now, draw, y);
    }
  }

  /** Nothing else at the server touches the client's session or data channel. */
  lemma EntryOnOther(g: Setting, x: State, e: T.Event, session: SessionValue, args: Option<ChannelArgs>)
    requires Fair(g) && EntryIs(g, x.table, session, args) && Allowed(g, x, Other(e))
    ensures EntryIs(g, T.Step(g.serverEnv, x.table, e), session, args)
  {
  }

  /** What the client does on a packet. */
  lemma ClientOnPacket(g: Setting, c: ClientState, raw: bytes, now: real, args: Option<ChannelArgs>)
    requires SameData(g.clientEnv, c.data, args)
    ensures var (c', packets, _) := C.Receive(g.clientEnv, c, raw, now);
      && (c'.session, packets) == ClientDispatch(g.clientEnv.crypto, c.session, raw)
      && SameData(g.clientEnv, c'.data, args) && c'.handshakeDone == c.handshakeDone
  {
  }

  /** What it does in a turn of its loop. */
  lemma ClientOnTurn(g: Setting, c: ClientState, now: real, args: Option<ChannelArgs>)
    requires SameData(g.clientEnv, c.data, args) && (c.handshakeDone <==> c.data.Some?)
    ensures var c' := C.Tick(g.clientEnv, c, now).0;
      && c'.session == c.session && (c'.handshakeDone <==> c'.data.Some?)
      && SameData(g.clientEnv, c'.data,
                  if c.session.state == Established && args == None then Some(ArgsOf(c.session)) else args)
  {
  }

  lemma ClientStepSimulates(g: Setting, x: State, e: Event, y: System)
    requires Fair(g) && Simulates(g, x, y) && (e.ClientStart? || e.FromServer? || e.ClientTurn?)
    ensures Simulates(g, Step(g, x, e), H.Step(g.clientEnv.crypto, y, Seen(g, x, e)[0]))
  {
    match e
    case ClientStart =>
    case FromServer(raw, now) => ClientOnPacket(g, x.client, raw, now, y.clientData);
    case ClientTurn(now) => ClientOnTurn(g, x.client, now, y.clientData);
  }

  lemma ServerStepSimulates(g: Setting, x: State, raw: bytes, now: real, draw: Draw, y: System)
    requires Fair(g) && Simulates(g, x, y) && DrawnOnce(g, x, now, draw)
    requires g.addr !in x.table.clients ==> raw != [] && raw[0] == OpcodeByte(HardResetClient)
    ensures Simulates(g, Step(g, x, FromClient(raw, now, draw)), H.Step(g.clientEnv.crypto, y, ToServer(raw)))
  {
    EntryOnPacket(g, x.table, raw, now, draw, y);
  }

  lemma StepSimulates(g: Setting, x: State, e: Event, y: System)
    requires Fair(g) && Simulates(g, x, y) && Allowed(g, x, e)
    ensures Simulates(g, Step(g, x, e),
                      if Seen(g, x, e) == [] then y else H.Step(g.clientEnv.crypto, y, Seen(g, x, e)[0]))
  {
    match e
    case FromClient(raw, now, draw) =>
      if Seen(g, x, e) != [] {
        ServerStepSimulates(g, x, raw, now, draw, y);
      }
    case Other(other) => EntryOnOther(g, x, other, y.server, y.serverData);
    case ClientSends(_, _) =>
    case _ => ClientStepSimulates(g, x, e, y);
  }

  /** The handshake's view of a run. */
  ghost function SeenAll(g: Setting, range: Option<(Ip, Ip)>, events: seq<Event>): seq<H.Event> {
    if events == [] then []
    else
      var front := events[..|events| - 1];
      SeenAll(g, range, front) + Seen(g, Run(g, range, front), events[|events| - 1])
  }

  /** Refinement: every run of the client against the whole server is, for the two sessions,
      a run of the handshake. */
  lemma {:induction false} RunSimulates(g: Setting, range: Option<(Ip, Ip)>, events: seq<Event>)
    requires Fair(g) && Legal(g, range, events)
    ensures Simulates(g, Run(g, range, events), H.Run(g.clientEnv.crypto, g.c, g.s, SeenAll(g, range, events)))
  {
    if events != [] {
      var front := events[..|events| - 1];
      var x, e := Run(g, range, front), events[|events| - 1];
      var seen, more := SeenAll(g, range, front), Seen(g, x, e);
      RunSimulates(g, range, front);
      StepSimulates(g, x, e, H.Run(g.clientEnv.crypto, g.c, g.s, seen));
      if more == [] {
        assert seen + more == seen;
      } else {
        assert (seen + more)[..|seen|] == seen;
      }
    }
  }

  /** Both ends derive one key, whatever the server's other clients do, and are established
      only with it. */
  lemma TunnelKeys(g: Setting, range: Option<(Ip, Ip)>, events: seq<Event>)
    requires Fair(g) && Legal(g, range, events) && g.addr in Run(g, range, events).table.clients
    ensures var x := Run(g, range, events);
      var client, server := x.client.session, x.table.clients[g.addr].session;
      && (client.key.Some? && server.key.Some? ==> client.key == server.key)
      && (client.state == Established || server.state == Established ==> client.key.Some? && server.key.Some?)
  {
    var seen := SeenAll(g, range, events);
    RunSimulates(g, range, events);
    Agreement.KeyAgreement(g.clientEnv.crypto, g.c, g.s, seen);
  }

  /** End to end: once the client object and its entry in the server's table both have a data
      channel, the two channels fit each other, and in each direction every run of traffic
      between them is safe. */
  lemma TunnelEndToEnd(g: Setting, range: Option<(Ip, Ip)>, events: seq<Event>, traffic: seq<Delivery.Event>)
    requires Fair(g) && Legal(g, range, events)
    requires g.clientEnv.aead == g.serverEnv.aead && Data.Ideal(g.clientEnv.aead) && Data.Lossless(g.clientEnv.codec)
    requires g.clientEnv.codec.compress == g.serverEnv.codec.compress
    requires g.clientEnv.codec.decompress == g.serverEnv.codec.decompress
    requires var x := Run(g, range, events);
      x.client.data.Some? && g.addr in x.table.clients && x.table.clients[g.addr].data.Some?
    requires Delivery.SendsUnambiguous(traffic)
    ensures var x := Run(g, range, events);
      var client, server := x.client.data.value.channel, x.table.clients[g.addr].data.value.channel;
      && Fragments.Matched(client, server) && Fragments.Matched(server, client)
      && var up := Delivery.Run(client, server, 64, traffic);
         var down := Delivery.Run(server, client, 64, traffic);
      && Delivery.OncePerCall(up) && !up.raised
      && Delivery.OncePerCall(down) && !down.raised
  {
    var seen := SeenAll(g, range, events);
    RunSimulates(g, range, events);
    var x := Run(g, range, events);
    var client, server := x.client.data.value.channel, x.table.clients[g.addr].data.value.channel;
    Agreement.ChannelsMatch(g.clientEnv.crypto, g.c, g.s, seen, g.clientEnv.aead,
                            g.clientEnv.codec, g.serverEnv.codec, g.clientEnv.compLzo, g.serverEnv.compLzo);
    Delivery.EndToEnd(client, server, 64, traffic);
    Delivery.EndToEnd(server, client, 64, traffic);
  }

  // ---- Such a tunnel can be built ----

  function FromClientAt(g: Setting, raw: bytes): Event {
    FromClient(raw, g.s.createdAt, Draw(g.s.id, g.s.privateKey))
  }

  /** An undisturbed handshake, as events of the client and the server. */
  ghost function InOrder(g: Setting): seq<Event>
    requires Sayable(g.clientEnv.crypto, g.c, g.s)
  {
    var cr, now := g.clientEnv.crypto, g.s.createdAt;
    [Event.ClientStart,
     FromClientAt(g, ResetPacket(HardResetClient, g.c.id)), FromServer(ResetPacket(HardResetServer, g.s.id), now),
     FromClientAt(g, Agreement.ClientHelloPacket(cr, g.c)), FromServer(Agreement.ServerHelloPacket(cr, g.c, g.s), now),
     FromClientAt(g, Agreement.FinishedPacket(cr, g.c, g.s)), ClientTurn(now)]
  }

  lemma {:induction false} RunNext(g: Setting, range: Option<(Ip, Ip)>, events: seq<Event>, k: nat)
    requires k < |events|
    ensures Run(g, range, events[..k + 1]) == Step(g, Run(g, range, events[..k]), events[k])
  {
    assert events[..k + 1][..k] == events[..k];
  }

  /** Event e is allowed in x, and the handshake sees it as h. */
  ghost predicate SeenAs(g: Setting, x: State, e: Event, h: H.Event) {
    Allowed(g, x, e) && Seen(g, x, e) == [h]
  }

  lemma {:induction false} SeenNext(g: Setting, range: Option<(Ip, Ip)>, front: seq<Event>, e: Event,
                                    seen: seq<H.Event>, h: H.Event)
    requires Legal(g, range, front) && SeenAll(g, range, front) == seen && SeenAs(g, Run(g, range, front), e, h)
    ensures Legal(g, range, front + [e]) && SeenAll(g, range, front + [e]) == seen + [h]
  {
    assert (front + [e])[..|front|] == front;
  }

  lemma TakeOne<T>(s: seq<T>, k: nat)
    requires k < |s|
    ensures s[..k + 1] == s[..k] + [s[k]]
  {
  }

  lemma EntryMade(g: Setting, x: State, id: SessionId)
    requires ResetPacket(HardResetClient, id) in x.toServer
    ensures g.addr in Step(g, x, FromClientAt(g, ResetPacket(HardResetClient, id))).table.clients
  {
  }

  lemma EntryStays(g: Setting, x: State, e: Event)
    requires g.addr in x.table.clients && !e.Other?
    ensures g.addr in Step(g, x, e).table.clients
  {
  }

  ghost predicate Entered(g: Setting, range: Option<(Ip, Ip)>, events: seq<Event>) {
    g.addr in Run(g, range, events).table.clients
  }

  lemma EntryNext(g: Setting, range: Option<(Ip, Ip)>, events: seq<Event>, k: nat)
    requires k < |events| && !events[k].Other? && Entered(g, range, events[..k])
    ensures Entered(g, range, events[..k + 1])
  {
    RunNext(g, range, events, k);
    EntryStays(g, Run(g, range, events[..k]), events[k]);
  }

  lemma {:induction false} EntryLasts(g: Setting, range: Option<(Ip, Ip)>, events: seq<Event>, j: nat, k: nat)
    requires j <= k <= |events| && (forall i :: 0 <= i < |events| ==> !events[i].Other?)
    requires Entered(g, range, events[..j])
    ensures Entered(g, range, events[..k])
  {
    if j < k {
      EntryLasts(g, range, events, j, k - 1);
      EntryNext(g, range, events, k - 1);
    }
  }

  /** From the second packet on the server has an entry for the client. */
  lemma InOrderEntry(g: Setting, range: Option<(Ip, Ip)>, k: nat)
    requires Sayable(g.clientEnv.crypto, g.c, g.s) && 2 <= k <= 7
    ensures Entered(g, range, InOrder(g)[..k])
  {
    var events := InOrder(g);
    RunNext(g, range, events, 0);
    RunNext(g, range, events, 1);
    var x := Run(g, range, events[..1]);
    assert ResetPacket(HardResetClient, g.c.id) in x.toServer;
    EntryMade(g, x, g.c.id);
    EntryLasts(g, range, events, 2, k);
  }

  lemma OneSeen(g: Setting, x: State, k: nat)
    requires Sayable(g.clientEnv.crypto, g.c, g.s) && k < 7 && (k >= 2 ==> g.addr in x.table.clients)
    ensures SeenAs(g, x, InOrder(g)[k], Agreement.InOrder(g.clientEnv.crypto, g.c, g.s)[k])
  {
  }

  lemma {:induction false} InOrderSeen(g: Setting, range: Option<(Ip, Ip)>, k: nat)
    requires Sayable(g.clientEnv.crypto, g.c, g.s) && k <= 7
    ensures Legal(g, range, InOrder(g)[..k])
    ensures SeenAll(g, range, InOrder(g)[..k]) == Agreement.InOrder(g.clientEnv.crypto, g.c, g.s)[..k]
  {
    if k > 0 {
      InOrderSeen(g, range, k - 1);
      if k > 2 {
        InOrderEntry(g, range, k - 1);
      }
      var events, seen := InOrder(g), Agreement.InOrder(g.clientEnv.crypto, g.c, g.s);
      OneSeen(g, Run(g, range, events[..k - 1]), k - 1);
      SeenNext(g, range, events[..k - 1], events[k - 1], seen[..k - 1], seen[k - 1]);
      TakeOne(events, k - 1);
      TakeOne(seen, k - 1);
    }
  }

  lemma AllSeen(g: Setting, range: Option<(Ip, Ip)>)
    requires Sayable(g.clientEnv.crypto, g.c, g.s)
    ensures Legal(g, range, InOrder(g))
    ensures SeenAll(g, range, InOrder(g)) == Agreement.InOrder(g.clientEnv.crypto, g.c, g.s)
  {
    InOrderSeen(g, range, 7);
    assert InOrder(g)[..7] == InOrder(g);
    var seen := Agreement.InOrder(g.clientEnv.crypto, g.c, g.s);
    assert seen[..7] == seen;
  }

  /** Whenever certificates, signatures and keys are good, some run builds both channels. */
  lemma TunnelReachable(g: Setting, range: Option<(Ip, Ip)>)
    requires Fair(g) && Agreement.Completable(g.clientEnv.crypto, g.c, g.s)
    ensures Legal(g, range, InOrder(g))
    ensures var x := Run(g, range, InOrder(g));
      x.client.data.Some? && g.addr in x.table.clients && x.table.clients[g.addr].data.Some?
  {
    AllSeen(g, range);
    RunSimulates(g, range, InOrder(g));
    Agreement.InOrderCompletes(g.clientEnv.crypto, g.c, g.s);
  }
}
