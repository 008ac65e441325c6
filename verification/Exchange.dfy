/** A run that does deliver: the handshake, the address, one datagram. */
module Exchange {
  import opened Bytes
  import opened Packet
  import opened Control
  import opened Endpoint
  import opened Routing
  import opened C = Client
  import opened T = ServerTable
  import opened U = Tunnel
  import opened Uplink
  import Agreement
  import Data
  import Delivery
  import Fragments
  import H = Handshake

  // ---- Runs without data packets ----

  /** Nothing is sent, no data packet arrives, and nothing else happens at the server. */
  predicate Quiet(e: U.Event) {
    match e
    case FromClient(raw, _, _) => raw == [] || raw[0] != OpcodeByte(Opcode.Data)
    case ClientSends(_, _) => false
    case Other(_) => false
    case _ => true
  }

  ghost predicate AllQuiet(events: seq<U.Event>) {
    forall i :: 0 <= i < |events| ==> Quiet(events[i])
  }

  /** No data packet was sent or heard. */
  ghost predicate Untouched(g: Setting, x: State) {
    && RxAt(g, x.table) == Data.NewRx(64)
    && x.sent == [] && x.delivered == [] && x.starts == [] && !x.raised
    && (x.client.data.Some? ==> x.client.data.value.counter == 0)
  }

  lemma QuietStep(g: Setting, x: State, e: U.Event)
    requires Untouched(g, x) && Quiet(e)
    ensures Untouched(g, U.Step(g, x, e))
  {
    if e.FromClient? {
      ReceiverKept(g, x.table, e.raw, e.now, e.draw);
    }
  }

  lemma {:induction false} QuietRun(g: Setting, range: Option<(Ip, Ip)>, events: seq<U.Event>)
    requires AllQuiet(events)
    ensures Untouched(g, U.Run(g, range, events))
    ensures Legal(g, range, events) ==> Honest(g, range, events)
  {
    if events != [] {
      var front := events[..|events| - 1];
      QuietRun(g, range, front);
      QuietStep(g, U.Run(g, range, front), events[|events| - 1]);
    }
  }

  lemma HandshakeIsQuiet(g: Setting)
    requires H.Sayable(g.clientEnv.crypto, g.c, g.s)
    ensures AllQuiet(U.InOrder(g))
  {
  }

  // ---- One more event ----

  lemma {:induction false} RunAppends(g: Setting, range: Option<(Ip, Ip)>, events: seq<U.Event>, e: U.Event)
    requires Honest(g, range, events)
    requires Allowed(g, U.Run(g, range, events), e) && Carried(g, U.Run(g, range, events), e)
    ensures Honest(g, range, events + [e])
    ensures U.Run(g, range, events + [e]) == U.Step(g, U.Run(g, range, events), e)
  {
    assert (events + [e])[..|events|] == events;
  }

  /** Both ends are established with fitting channels, the client may send once it has an
      address, and the server has heard nothing yet. */
  ghost predicate Ready(g: Setting, x: State) {
    && Untouched(g, x)
    && x.client.handshakeDone && x.client.data.Some?
    && Listening(g, x.table)
    && Fragments.Matched(x.client.data.value.channel, x.table.clients[g.addr].data.value.channel)
    && x.client.data.value.channel.compLzo == (g.clientEnv.compLzo && g.clientEnv.codec.available)
    && x.client.data.value.channel.codec == g.clientEnv.codec
    && x.table.clients[g.addr].data.value.channel.codec == g.serverEnv.codec
  }

  lemma HandshakeReadies(g: Setting, range: Option<(Ip, Ip)>)
    requires Fair(g) && SameLibraries(g) && Agreement.Completable(g.clientEnv.crypto, g.c, g.s)
    ensures Honest(g, range, U.InOrder(g)) && Ready(g, U.Run(g, range, U.InOrder(g)))
  {
    var events := U.InOrder(g);
    TunnelReachable(g, range);
    HandshakeIsQuiet(g);
    QuietRun(g, range, events);
    TunnelEndToEnd(g, range, events, []);
    AllSeen(g, range);
    RunSimulates(g, range, events);
    Agreement.InOrderCompletes(g.clientEnv.crypto, g.c, g.s);
  }

  // ---- The client's address ----

  /** The server's entry follows the handshake: no data channel before the client's last packet,
      one after it. */
  lemma DataAt(g: Setting, range: Option<(Ip, Ip)>, k: nat)
    requires Fair(g) && Agreement.Completable(g.clientEnv.crypto, g.c, g.s) && k <= 6
    ensures HasData(g, U.Run(g, range, U.InOrder(g)[..k])) <==> k == 6
  {
    var cr := g.clientEnv.crypto;
    var seen := Agreement.InOrder(cr, g.c, g.s)[..k];
    InOrderSeen(g, range, k);
    RunSimulates(g, range, U.InOrder(g)[..k]);
    assert [] + seen == seen;
    if k <= 5 {
      Agreement.InOrderNoServerData(cr, g.c, g.s, k);
    } else {
      Agreement.InOrderStage(cr, g.c, g.s, [], 6);
    }
  }

  lemma PoolStep(g: Setting, x: State, e: U.Event)
    requires !e.Other? && !HasData(g, U.Step(g, x, e))
    ensures U.Step(g, x, e).table.pool == x.table.pool
  {
    if e.FromClient? {
      PoolKept(g.serverEnv, x.table, g.addr, e.raw, e.now, e.draw);
    }
  }

  lemma PoolNext(g: Setting, range: Option<(Ip, Ip)>, events: seq<U.Event>, k: nat)
    requires k < |events| && !events[k].Other? && !HasData(g, U.Run(g, range, events[..k + 1]))
    ensures U.Run(g, range, events[..k + 1]).table.pool == U.Run(g, range, events[..k]).table.pool
  {
    U.RunNext(g, range, events, k);
    PoolStep(g, U.Run(g, range, events[..k]), events[k]);
  }

  /** Neither another client's event nor the client's data channel in the first k events. */
  ghost predicate NoDataYet(g: Setting, range: Option<(Ip, Ip)>, events: seq<U.Event>, k: nat)
    requires k <= |events|
  {
    k > 0 ==>
      !events[k - 1].Other? && !HasData(g, U.Run(g, range, events[..k])) && NoDataYet(g, range, events, k - 1)
  }

  lemma {:induction false} PoolAt(g: Setting, range: Option<(Ip, Ip)>, events: seq<U.Event>, k: nat)
    requires k <= |events| && NoDataYet(g, range, events, k)
    ensures U.Run(g, range, events[..k]).table.pool == Empty(range).pool
  {
    if k > 0 {
      PoolAt(g, range, events, k - 1);
      PoolNext(g, range, events, k - 1);
    }
  }

  lemma {:induction false} NoDataInOrder(g: Setting, range: Option<(Ip, Ip)>, k: nat)
    requires Fair(g) && Agreement.Completable(g.clientEnv.crypto, g.c, g.s) && k <= 5
    ensures NoDataYet(g, range, U.InOrder(g), k)
  {
    if k > 0 {
      NoDataInOrder(g, range, k - 1);
      DataAt(g, range, k);
    }
  }

  /** What the server sends the client besides the handshake when the client's last packet
      arrives in x. */
  ghost function Told(g: Setting, x: State): seq<bytes>
    requires H.FinishedSayable(g.clientEnv.crypto, g.c, g.s)
  {
    Notices(g.serverEnv, x.table, g.addr, Agreement.FinishedPacket(g.clientEnv.crypto, g.c, g.s), g.s.createdAt)
  }

  lemma PacketTells(g: Setting, x: State, raw: bytes, now: real, draw: Draw, first: Ip, last: Ip)
    requires g.addr in x.table.clients && !HasData(g, x)
    requires first <= last && x.table.pool == Some(FullPool(first, last))
    requires HasData(g, U.Step(g, x, FromClient(raw, now, draw)))
    ensures var c := U.Step(g, x, FromClient(raw, now, draw)).table.clients[g.addr];
      && c.virtualIp == Some(first)
      && Notices(g.serverEnv, x.table, g.addr, raw, now) == [IpAssignPacket(c.session.id, Dotted(first))]
  {
    LeastOfRange(first, last);
    BuiltIsTold(g.serverEnv, x.table, g.addr, raw, now, draw);
  }

  lemma LastPacketTells(g: Setting, x: State, first: Ip, last: Ip)
    requires H.Sayable(g.clientEnv.crypto, g.c, g.s) && first <= last
    requires g.addr in x.table.clients && !HasData(g, x) && x.table.pool == Some(FullPool(first, last))
    requires HasData(g, U.Step(g, x, U.InOrder(g)[5]))
    ensures var c := U.Step(g, x, U.InOrder(g)[5]).table.clients[g.addr];
      c.virtualIp == Some(first) && Told(g, x) == [IpAssignPacket(c.session.id, Dotted(first))]
  {
    var raw := Agreement.FinishedPacket(g.clientEnv.crypto, g.c, g.s);
    PacketTells(g, x, raw, g.s.createdAt, Draw(g.s.id, g.s.privateKey), first, last);
  }

  /** The last event of the handshake is the client's alone. */
  lemma {:induction false} TableAtEnd(g: Setting, range: Option<(Ip, Ip)>)
    requires H.Sayable(g.clientEnv.crypto, g.c, g.s)
    ensures U.Run(g, range, U.InOrder(g)).table == U.Run(g, range, U.InOrder(g)[..6]).table
  {
    U.RunNext(g, range, U.InOrder(g), 6);
    assert U.InOrder(g)[..7] == U.InOrder(g);
  }

  /** The handshake ends with one address packet, and it names the address that the server has
      assigned: the first of its range. */
  lemma HandshakeTells(g: Setting, first: Ip, last: Ip)
    requires Fair(g) && Agreement.Completable(g.clientEnv.crypto, g.c, g.s) && first <= last
    ensures var range := Some((first, last));
      var x := U.Run(g, range, U.InOrder(g));
      && g.addr in x.table.clients && x.table.clients[g.addr].virtualIp == Some(first)
      && Told(g, U.Run(g, range, U.InOrder(g)[..5]))
          == [IpAssignPacket(x.table.clients[g.addr].session.id, Dotted(first))]
      && Tells(Told(g, U.Run(g, range, U.InOrder(g)[..5]))[0], x.table.clients[g.addr].session.id, first)
  {
    var range, events := Some((first, last)), U.InOrder(g);
    NoDataInOrder(g, range, 5);
    PoolAt(g, range, U.InOrder(g), 5);
    DataAt(g, range, 5);
    DataAt(g, range, 6);
    U.InOrderEntry(g, range, 5);
    U.RunNext(g, range, events, 5);
    TableAtEnd(g, range);
    LastPacketTells(g, U.Run(g, range, events[..5]), first, last);
    NoticeTells(U.Run(g, range, events).table.clients[g.addr].session.id, first);
  }

  /** Whatever has only digits and dots decodes as UTF-8. */
  ghost predicate ReadsDigits(env: Env) {
    forall text :: ReadText(text).Some? ==> env.isText(text)
  }

  lemma DottedIsText(env: Env, ip: Ip)
    requires ReadsDigits(env)
    ensures Dotted(ip) != [] && env.isText(Dotted(ip))
  {
    DottedReads(ip);
  }

  lemma AddressArrives(g: Setting, x: State, id: SessionId, text: bytes, now: real)
    requires Ready(g, x) && g.clientEnv.isText(text) && text != []
    ensures var x' := U.Step(g, x, FromServer(IpAssignPacket(id, text), now));
      && Ready(g, x') && CanSend(x'.client) && x'.client.assignedIp == Some(text) && x'.table == x.table
  {
    IpAssignRoundTrip(id, text);
  }

  // ---- The datagram ----

  /** The server has LZ4 if the client compresses the datagram. */
  predicate Readable(g: Setting, plain: bytes) {
    var compressed := g.clientEnv.compLzo && g.clientEnv.codec.available && |plain| > 32
                      && |g.clientEnv.codec.compress(plain)| < |plain|;
    compressed ==> g.serverEnv.codec.available
  }

  /** The one packet of the first datagram. */
  ghost function FirstWire(x: State, plain: bytes, nonces: nat -> Data.Nonce): bytes
    requires x.client.data.Some? && x.client.data.value.channel.key.Some?
  {
    Data.EncryptOne(x.client.data.value.channel, plain, 1, nonces(0))
  }

  lemma DatagramLeaves(g: Setting, x: State, plain: bytes, nonces: nat -> Data.Nonce)
    requires Ready(g, x) && CanSend(x.client) && plain != [] && |plain| <= Data.MAX_PAYLOAD
    ensures var x' := U.Step(g, x, ClientSends(plain, nonces));
      && x'.sent == [Delivery.Sent(1, plain, [FirstWire(x, plain, nonces)])]
      && x'.table == x.table && x'.delivered == [] && x'.client.assignedIp == x.client.assignedIp
  {
    var tx := x.client.data.value.channel;
    var wires := Data.Sealed(tx, plain, 1, nonces);
    assert Data.Encryptable(tx, 0, plain) && |wires| == 1;
    Fragments.SealedAt(tx, plain, 1, nonces, 0);
    assert wires == [FirstWire(x, plain, nonces)];
  }

  lemma DatagramArrives(g: Setting, x: State, before: State, plain: bytes, nonces: nat -> Data.Nonce, now: real,
                        draw: Draw)
    requires Ready(g, before) && x.table == before.table && x.delivered == []
    requires x.sent == [Delivery.Sent(1, plain, [FirstWire(before, plain, nonces)])]
    requires |plain| <= Data.MAX_PAYLOAD && Fragments.Unambiguous(plain)
    ensures var e := FromClient(FirstWire(before, plain, nonces), now, draw);
      && Allowed(g, x, e) && Carried(g, x, e)
      && U.Step(g, x, e).delivered == (if Readable(g, plain) then [plain] else [])
  {
    var tx, ch := before.client.data.value.channel, before.table.clients[g.addr].data.value.channel;
    var wire := FirstWire(before, plain, nonces);
    assert x.sent[0].wires[0] == wire;
    assert Delivery.Deliverable(ch, x.sent, wire);
    assert Readable(g, plain) <==> Fragments.CanRead(tx, ch, plain);
    Fragments.SinglePacketRoundTrip(tx, ch, RxAt(g, x.table), plain, 1, nonces(0), now);
    HeardStep(g, x, wire, now, draw);
  }

  /** A data packet leaves every address as it is. */
  lemma AddressesStay(g: Setting, x: State, raw: bytes, now: real, draw: Draw)
    requires HasData(g, x) && raw != [] && raw[0] == OpcodeByte(Opcode.Data)
    ensures var x' := U.Step(g, x, FromClient(raw, now, draw));
      && x'.client == x.client
      && g.addr in x'.table.clients && x'.table.clients[g.addr].virtualIp == x.table.clients[g.addr].virtualIp
  {
  }

  // ---- The run ----

  /** The client holds a text that reads as the address that the server holds for it. */
  ghost predicate Agreed(g: Setting, x: State, ip: Ip) {
    && x.client.assignedIp.Some? && (IsAddress(ip) ==> AddressIn(x.client.assignedIp.value) == Some(ip))
    && g.addr in x.table.clients && x.table.clients[g.addr].virtualIp == Some(ip)
  }

  /** The handshake, and then the packet with the client's address. */
  lemma RunReadies(g: Setting, first: Ip, last: Ip) returns (events: seq<U.Event>)
    requires Fair(g) && SameLibraries(g) && Agreement.Completable(g.clientEnv.crypto, g.c, g.s)
    requires first <= last && ReadsDigits(g.clientEnv)
    ensures var range := Some((first, last));
      var x := U.Run(g, range, events);
      Honest(g, range, events) && Ready(g, x) && CanSend(x.client) && Agreed(g, x, first)
  {
    var range, now := Some((first, last)), g.s.createdAt;
    HandshakeReadies(g, range);
    HandshakeTells(g, first, last);
    DottedIsText(g.clientEnv, first);
    DottedReads(first);
    var x := U.Run(g, range, U.InOrder(g));
    var e := FromServer(Told(g, U.Run(g, range, U.InOrder(g)[..5]))[0], now);
    AddressArrives(g, x, x.table.clients[g.addr].session.id, Dotted(first), now);
    RunAppends(g, range, U.InOrder(g), e);
    events := U.InOrder(g) + [e];
  }

  /** Whenever certificates, signatures and keys are good and the server has an address to give:
      in some honest run the client gets the address that the server assigned it, sends any one
      unambiguous datagram of one packet, and the server delivers it exactly if it can decompress
      it. */
  lemma SomeRunDelivers(g: Setting, first: Ip, last: Ip, plain: bytes, nonces: nat -> Data.Nonce)
    returns (events: seq<U.Event>)
    requires Fair(g) && SameLibraries(g) && Agreement.Completable(g.clientEnv.crypto, g.c, g.s)
    requires first <= last && ReadsDigits(g.clientEnv)
    requires plain != [] && |plain| <= Data.MAX_PAYLOAD && Fragments.Unambiguous(plain)
    ensures var range := Some((first, last));
      var x := U.Run(g, range, events);
      && Honest(g, range, events) && Agreed(g, x, first)
      && |x.sent| == 1 && x.sent[0].plain == plain
      && x.delivered == (if Readable(g, plain) then [plain] else [])
  {
    var range := Some((first, last));
    var front := RunReadies(g, first, last);
    var x := U.Run(g, range, front);
    var send := ClientSends(plain, nonces);
    DatagramLeaves(g, x, plain, nonces);
    RunAppends(g, range, front, send);
    var y := U.Run(g, range, front + [send]);
    var arrive := FromClient(FirstWire(x, plain, nonces), g.s.createdAt, Draw(g.s.id, g.s.privateKey));
    DatagramArrives(g, y, x, plain, nonces, arrive.now, arrive.draw);
    AddressesStay(g, y, arrive.raw, arrive.now, arrive.draw);
    RunAppends(g, range, front + [send], arrive);
    events := front + [send] + [arrive];
  }
}
