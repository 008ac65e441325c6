/** The handshake of one honest client session and one honest server session over a network
    that loses, duplicates and reorders, as a state machine. */
module Handshake {
  import opened Bytes
  import opened Packet
  import opened Control

  /** X25519 commutes, and public keys have 32 bytes. */
  ghost predicate Sound(cr: Crypto) {
    && (forall a: PrivateKey, b: PrivateKey ::
          cr.exchange(a, cr.publicOf(b)) == cr.exchange(b, cr.publicOf(a)))
    && (forall a: PrivateKey :: |cr.publicOf(a)| == 32)
  }

  /** The arguments a DataChannel is created with. */
  datatype ChannelArgs = ChannelArgs(ours: SessionId, peers: bytes, key: Option<Key>)

  function ArgsOf(s: SessionValue): ChannelArgs {
    ChannelArgs(s.id, if s.peerId.Some? then s.peerId.value else [], s.key)
  }

  /** Both sessions, every packet ever sent in either direction, and the data channels. */
  datatype System = System(
    client: SessionValue, server: SessionValue,
    toServer: set<bytes>, toClient: set<bytes>,
    clientData: Option<ChannelArgs>, serverData: Option<ChannelArgs>)

  /** ClientStart: the client sends its reset. ToServer, ToClient: a packet arrives.
      ClientTick: the client's connection loop looks at its session. */
  datatype Event = ClientStart | ToServer(raw: bytes) | ToClient(raw: bytes) | ClientTick

  /** Data, keepalive and address packets, and anything else the handlers never see. */
  predicate Neutral(raw: bytes) {
    || raw == []
    || OpcodeOf(raw[0]) in {None, Some(Ack), Some(Opcode.Data)}
    || (raw[0] == OpcodeByte(Opcode.Control) &&
        match DecodePacket(raw)
        case None => true
        case Some(d) =>
          d.payload == [] || MessageOf(d.payload[0]) in {None, Some(Keepalive), Some(Shutdown), Some(IpAssign)})
  }

  ghost function AllOf(packets: seq<bytes>): set<bytes> {
    set p | p in packets
  }

  /** One event; a handshake packet arrives only if it was sent. */
  ghost function Step(cr: Crypto, y: System, e: Event): System {
    match e
    case ClientStart =>
      var (client, packets) := ClientStartHandshake(y.client);
      y.(client := client, toServer := y.toServer + AllOf(packets.value))
    case ToServer(raw) =>
      if raw !in y.toServer && !Neutral(raw) then y
      else
        var (server, packets, handled) := ServerDispatch(cr, y.server, raw);
        y.(server := server, toClient := y.toClient + AllOf(packets),
           serverData := if handled && server.state == Established && y.serverData == None
                         then Some(ArgsOf(server)) else y.serverData)
    case ToClient(raw) =>
      if raw !in y.toClient && !Neutral(raw) then y
      else
        var (client, packets) := ClientDispatch(cr, y.client, raw);
        y.(client := client, toServer := y.toServer + AllOf(packets))
    case ClientTick =>
      if y.client.state == Established && y.clientData == None
      then y.(clientData := Some(ArgsOf(y.client))) else y
  }

  /** Who takes part: ids, keys and configuration of both ends. */
  datatype Party = Party(id: SessionId, privateKey: PrivateKey, credentials: Option<Credentials>, createdAt: real)

  function SessionOf(p: Party): SessionValue {
    NewSession(p.id, p.privateKey, p.credentials, p.createdAt)
  }

  ghost function Run(cr: Crypto, c: Party, s: Party, events: seq<Event>): System {
    if events == [] then System(SessionOf(c), SessionOf(s), {}, {}, None, None)
    else Step(cr, Run(cr, c, s, events[..|events| - 1]), events[|events| - 1])
  }

  // ---- What honest parties say ----

  /** The key both ends should agree on; None if the exchange itself fails. */
  function SharedKey(cr: Crypto, c: Party, s: Party): Option<Key> {
    match cr.exchange(c.privateKey, cr.publicOf(s.privateKey))
    case None => None
    case Some(shared) => Some(cr.kdf(shared, Salt(c.id, s.id)))
  }

  /** What both sides sign: client public key, then server public key. */
  function Transcript(cr: Crypto, c: Party, s: Party): bytes {
    cr.publicOf(c.privateKey) + cr.publicOf(s.privateKey)
  }

  ghost predicate IsClientHello(cr: Crypto, c: Party, raw: bytes) {
    var body := PackHello(CertBytes(c.credentials), cr.publicOf(c.privateKey));
    body.Some? && raw == EncodeHandshake(ClientHello, SessionNumberOf(c.id), body.value)
  }

  ghost predicate IsServerHello(cr: Crypto, c: Party, s: Party, raw: bytes) {
    var sig := Sign(cr, s.credentials, Transcript(cr, c, s));
    && sig.Some?
    && var body := PackServerHello(CertBytes(s.credentials), cr.publicOf(s.privateKey), sig.value);
    body.Some? && raw == EncodeHandshake(ServerHello, SessionNumberOf(s.id), body.value)
  }

  ghost predicate IsClientFinished(cr: Crypto, c: Party, s: Party, raw: bytes) {
    var sig := Sign(cr, c.credentials, Transcript(cr, c, s));
    && sig.Some? && PackField(sig.value).Some?
    && raw == EncodeHandshake(ClientFinished, SessionNumberOf(c.id), PackField(sig.value).value)
  }

  /** The fields of each of the three messages can be signed and packed. */
  ghost predicate HelloSayable(cr: Crypto, c: Party) {
    PackHello(CertBytes(c.credentials), cr.publicOf(c.privateKey)).Some?
  }

  ghost predicate ServerHelloSayable(cr: Crypto, c: Party, s: Party) {
    var sig := Sign(cr, s.credentials, Transcript(cr, c, s));
    sig.Some? && PackServerHello(CertBytes(s.credentials), cr.publicOf(s.privateKey), sig.value).Some?
  }

  ghost predicate FinishedSayable(cr: Crypto, c: Party, s: Party) {
    var sig := Sign(cr, c.credentials, Transcript(cr, c, s));
    sig.Some? && PackField(sig.value).Some?
  }

  ghost predicate Sayable(cr: Crypto, c: Party, s: Party) {
    HelloSayable(cr, c) && ServerHelloSayable(cr, c, s) && FinishedSayable(cr, c, s)
  }

  /** The certificate `peer` presents is one that `own` accepts. */
  ghost predicate CertVerified(cr: Crypto, own: Party, peer: Party) {
    var cert := LoadPeerCert(cr, CertBytes(peer.credentials));
    cert.Some? && PeerCertAccepted(cr, own.credentials, cert.value)
  }

  /** The signature of `peer` over the transcript is one that its certificate verifies. */
  ghost predicate SignatureVerified(cr: Crypto, c: Party, s: Party, peer: Party) {
    var cert := LoadPeerCert(cr, CertBytes(peer.credentials));
    var sig := Sign(cr, peer.credentials, Transcript(cr, c, s));
    cert.Some? && sig.Some? && SignatureAccepted(cr, cert.value, Transcript(cr, c, s), sig.value)
  }

  // ---- The invariant: which packets can exist, and what that implies ----

  /** The fixed part of a session, and what it can have learnt about its peer. */
  ghost predicate Own(cr: Crypto, x: SessionValue, own: Party, peer: Party, key: Option<Key>) {
    && x.id == own.id && x.privateKey == own.privateKey && x.credentials == own.credentials
    && (x.peerId == None || x.peerId == Some(peer.id))
    && (x.peerPublic == None || x.peerPublic == Some(cr.publicOf(peer.privateKey)))
    && (x.peerCert == None || Some(x.peerCert) == LoadPeerCert(cr, CertBytes(peer.credentials)))
    && (x.key == None || (x.key == key && x.peerId == Some(peer.id)))
  }

  /** x knows its peer, has accepted the peer's certificate, and has derived the key. */
  ghost predicate Keyed(cr: Crypto, x: SessionValue, own: Party, peer: Party, key: Option<Key>) {
    && x.peerId == Some(peer.id)
    && x.peerPublic == Some(cr.publicOf(peer.privateKey))
    && Some(x.peerCert) == LoadPeerCert(cr, CertBytes(peer.credentials))
    && CertVerified(cr, own, peer)
    && key.Some? && x.key == key
  }

  ghost predicate ArgsOk(args: Option<ChannelArgs>, own: Party, peer: Party, key: Option<Key>) {
    args.Some? ==> key.Some? && args.value == ChannelArgs(own.id, peer.id, key)
  }

  /** What the existence of a packet to the server implies about both sessions. */
  ghost predicate ToServerOk(cr: Crypto, c: Party, s: Party, client: SessionValue, server: SessionValue, raw: bytes) {
    var key := SharedKey(cr, c, s);
    || raw == ResetPacket(HardResetClient, c.id)
    || (IsClientHello(cr, c, raw) && client.peerId == Some(s.id) && server.peerId == Some(c.id))
    || (IsClientFinished(cr, c, s, raw) && Keyed(cr, client, c, s, key) && Keyed(cr, server, s, c, key)
        && SignatureVerified(cr, c, s, s) && Sayable(cr, c, s))
  }

  ghost predicate ToClientOk(cr: Crypto, c: Party, s: Party, client: SessionValue, server: SessionValue, raw: bytes) {
    || (raw == ResetPacket(HardResetServer, s.id) && server.peerId == Some(c.id))
    || (IsServerHello(cr, c, s, raw) && HelloSayable(cr, c)
        && client.peerId == Some(s.id) && Keyed(cr, server, s, c, SharedKey(cr, c, s)))
  }

  /** What being established implies. */
  ghost predicate EstablishedOk(cr: Crypto, c: Party, s: Party, client: SessionValue, server: SessionValue) {
    var key := SharedKey(cr, c, s);
    && (client.state == Established || server.state == Established ==>
          Keyed(cr, client, c, s, key) && Keyed(cr, server, s, c, key)
          && SignatureVerified(cr, c, s, s) && Sayable(cr, c, s))
    && (server.state == Established ==> SignatureVerified(cr, c, s, c))
  }

  ghost predicate Inv(cr: Crypto, c: Party, s: Party, y: System) {
    var key := SharedKey(cr, c, s);
    && Own(cr, y.client, c, s, key) && Own(cr, y.server, s, c, key)
    && (forall raw :: raw in y.toServer ==> ToServerOk(cr, c, s, y.client, y.server, raw))
    && (forall raw :: raw in y.toClient ==> ToClientOk(cr, c, s, y.client, y.server, raw))
    && EstablishedOk(cr, c, s, y.client, y.server)
    && ArgsOk(y.clientData, c, s, key) && ArgsOk(y.serverData, s, c, key)
  }

  // ---- What each packet does to a session ----

  lemma ServerOnReset(cr: Crypto, x: SessionValue, id: SessionId)
    ensures ServerDispatch(cr, x, ResetPacket(HardResetClient, id))
            == (x.(peerId := Some(id), state := ResetRcvd), [ResetPacket(HardResetServer, x.id)], false)
  {
    DecodeEncode(HardResetClient, SessionNumberOf(id), []);
    SessionBytesOfNumber(id);
  }

  lemma ClientOnReset(cr: Crypto, x: SessionValue, id: SessionId)
    ensures var (x', packets) := ClientDispatch(cr, x, ResetPacket(HardResetServer, id));
      && x' == x.(peerId := Some(id), state := ResetRcvd)
      && forall p :: p in packets ==>
           var body := PackHello(CertBytes(x.credentials), cr.publicOf(x.privateKey));
           body.Some? && p == EncodeHandshake(ClientHello, SessionNumberOf(x.id), body.value)
  {
    DecodeEncode(HardResetServer, SessionNumberOf(id), []);
    SessionBytesOfNumber(id);
  }

  lemma ServerOnHandshake(cr: Crypto, x: SessionValue, t: MessageType, id: SessionId, body: bytes)
    requires t == ClientHello || t == ClientFinished
    ensures var (x', packets) :=
        if t == ClientHello then ServerHandleClientHello(cr, x, body) else ServerHandleClientFinished(cr, x, body);
      ServerDispatch(cr, x, EncodeHandshake(t, SessionNumberOf(id), body))
      == (x', if packets.Some? then packets.value else [], true)
  {
    HandshakeRoundTrip(t, id, body);
  }

  lemma ClientOnHandshake(cr: Crypto, x: SessionValue, id: SessionId, body: bytes)
    ensures var (x', packets) := ClientHandleServerHello(cr, x, body);
      ClientDispatch(cr, x, EncodeHandshake(ServerHello, SessionNumberOf(id), body))
      == (x', if packets.Some? then packets.value else [])
  {
    HandshakeRoundTrip(ServerHello, id, body);
  }

  lemma NeutralIgnored(cr: Crypto, x: SessionValue, raw: bytes)
    requires Neutral(raw)
    ensures ServerDispatch(cr, x, raw) == (x, [], false)
    ensures ClientDispatch(cr, x, raw) == (x, [])
  {
  }

  /** The key as the owner of a session computes it. */
  function KeyFor(cr: Crypto, own: Party, peer: Party): Option<Key> {
    match cr.exchange(own.privateKey, cr.publicOf(peer.privateKey))
    case None => None
    case Some(shared) => Some(cr.kdf(shared, Salt(own.id, peer.id)))
  }

  lemma KeyForBoth(cr: Crypto, c: Party, s: Party)
    requires Sound(cr)
    ensures KeyFor(cr, c, s) == SharedKey(cr, c, s) == KeyFor(cr, s, c)
  {
    SaltSymmetric(c.id, s.id);
  }

  /** An honest peer's hello, arriving after its id is known, sets only what is expected. */
  lemma AcceptHonestHello(cr: Crypto, x: SessionValue, own: Party, peer: Party, hello: Hello)
    requires Own(cr, x, own, peer, KeyFor(cr, own, peer)) && x.peerId == Some(peer.id)
    requires hello.cert == CertBytes(peer.credentials) && hello.public == cr.publicOf(peer.privateKey)
    ensures var (x', ok) := AcceptHello(cr, x, hello);
      var key := KeyFor(cr, own, peer);
      && Own(cr, x', own, peer, key) && x'.peerId == x.peerId
      && (x.key.Some? ==> x'.key == x.key)
      && x'.peerPublic == Some(hello.public)
      && (ok ==> Keyed(cr, x', own, peer, key))
      && (Keyed(cr, x, own, peer, key) ==> Keyed(cr, x', own, peer, key))
  {
  }

  lemma ServerOnHello(cr: Crypto, x: SessionValue, c: Party, s: Party, raw: bytes)
    requires Sound(cr) && IsClientHello(cr, c, raw)
    requires Own(cr, x, s, c, SharedKey(cr, c, s)) && x.peerId == Some(c.id)
    ensures var (x', packets, _) := ServerDispatch(cr, x, raw);
      var key := SharedKey(cr, c, s);
      && Own(cr, x', s, c, key) && x'.peerId == x.peerId && x'.state != Established
      && (x.key.Some? ==> x'.key == x.key)
      && (Keyed(cr, x, s, c, key) ==> Keyed(cr, x', s, c, key))
      && (packets != [] <==> CertVerified(cr, s, c) && key.Some? && ServerHelloSayable(cr, c, s))
      && x'.state == (if packets == [] then Error else HelloSent)
      && forall p :: p in packets ==> IsServerHello(cr, c, s, p) && Keyed(cr, x', s, c, key)
  {
    KeyForBoth(cr, c, s);
    var cert, public := CertBytes(c.credentials), cr.publicOf(c.privateKey);
    var body := PackHello(cert, public).value;
    ServerOnHandshake(cr, x, ClientHello, c.id, body);
    UnpackPackedHello(cert, public, []);
    assert body + [] == body;
    AcceptHonestHello(cr, x, s, c, Hello(cert, public, []));
  }

  lemma ServerHelloParts(cr: Crypto, c: Party, s: Party, body: bytes)
    requires Sign(cr, s.credentials, Transcript(cr, c, s)).Some?
    requires var sig := Sign(cr, s.credentials, Transcript(cr, c, s)).value;
      PackServerHello(CertBytes(s.credentials), cr.publicOf(s.privateKey), sig) == Some(body)
    ensures UnpackHello(body).Some?
    ensures UnpackHello(body).value.cert == CertBytes(s.credentials)
    ensures UnpackHello(body).value.public == cr.publicOf(s.privateKey)
    ensures UnpackField(UnpackHello(body).value.rest) == Some((Sign(cr, s.credentials, Transcript(cr, c, s)).value, []))
  {
    var sig := Sign(cr, s.credentials, Transcript(cr, c, s)).value;
    var rest := PackField(sig).value;
    UnpackPackedHello(CertBytes(s.credentials), cr.publicOf(s.privateKey), rest);
    UnpackPackedField(sig, []);
    assert rest + [] == rest;
  }

  lemma ClientOnServerHello(cr: Crypto, x: SessionValue, c: Party, s: Party, raw: bytes)
    requires Sound(cr) && IsServerHello(cr, c, s, raw)
    requires Own(cr, x, c, s, SharedKey(cr, c, s)) && x.peerId == Some(s.id)
    ensures var (x', packets) := ClientDispatch(cr, x, raw);
      var key := SharedKey(cr, c, s);
      && Own(cr, x', c, s, key) && x'.peerId == x.peerId
      && (x.key.Some? ==> x'.key == x.key)
      && (Keyed(cr, x, c, s, key) ==> Keyed(cr, x', c, s, key))
      && (x'.state == Established ==>
            Keyed(cr, x', c, s, key) && SignatureVerified(cr, c, s, s) && FinishedSayable(cr, c, s))
      && (packets != [] <==>
            CertVerified(cr, c, s) && key.Some? && SignatureVerified(cr, c, s, s) && FinishedSayable(cr, c, s))
      && x'.state == (if packets == [] then Error else Established)
      && forall p :: p in packets ==> IsClientFinished(cr, c, s, p) && x'.state == Established
  {
    KeyForBoth(cr, c, s);
    var sig := Sign(cr, s.credentials, Transcript(cr, c, s)).value;
    var body := PackServerHello(CertBytes(s.credentials), cr.publicOf(s.privateKey), sig).value;
    ClientOnHandshake(cr, x, s.id, body);
    ServerHelloParts(cr, c, s, body);
    AcceptHonestHello(cr, x, c, s, UnpackHello(body).value);
  }

  lemma ServerOnFinished(cr: Crypto, x: SessionValue, c: Party, s: Party, raw: bytes)
    requires IsClientFinished(cr, c, s, raw)
    requires Own(cr, x, s, c, SharedKey(cr, c, s)) && Keyed(cr, x, s, c, SharedKey(cr, c, s))
    ensures var (x', packets, _) := ServerDispatch(cr, x, raw);
      && x' == x.(state := if SignatureVerified(cr, c, s, c) then Established else Error)
      && packets == []
  {
    var sig := Sign(cr, c.credentials, Transcript(cr, c, s)).value;
    var body := PackField(sig).value;
    ServerOnHandshake(cr, x, ClientFinished, c.id, body);
    UnpackPackedField(sig, []);
    assert body + [] == body;
  }

  // ---- One event keeps the invariant ----

  /** A session learns, and never unlearns, its peer's id and the key. */
  ghost predicate Learns(cr: Crypto, x: SessionValue, x': SessionValue, own: Party, peer: Party, key: Option<Key>) {
    && Own(cr, x', own, peer, key)
    && (x.peerId == Some(peer.id) ==> x'.peerId == Some(peer.id))
    && (x.key.Some? ==> x'.key == x.key)
    && (Keyed(cr, x, own, peer, key) ==> Keyed(cr, x', own, peer, key))
  }

  /** A server event: the session learns, its packets are in order, and it is established
      only with everything verified. */
  ghost predicate ServerEffect(cr: Crypto, c: Party, s: Party, y: System, server: SessionValue, packets: seq<bytes>) {
    && Learns(cr, y.server, server, s, c, SharedKey(cr, c, s))
    && (forall p :: p in packets ==> ToClientOk(cr, c, s, y.client, server, p))
    && EstablishedOk(cr, c, s, y.client, server)
  }

  ghost predicate ClientEffect(cr: Crypto, c: Party, s: Party, y: System, client: SessionValue, packets: seq<bytes>) {
    && Learns(cr, y.client, client, c, s, SharedKey(cr, c, s))
    && (forall p :: p in packets ==> ToServerOk(cr, c, s, client, y.server, p))
    && EstablishedOk(cr, c, s, client, y.server)
  }

  lemma ServerEvent(cr: Crypto, c: Party, s: Party, y: System, raw: bytes)
    requires Sound(cr) && Inv(cr, c, s, y) && (raw in y.toServer || Neutral(raw))
    ensures var (server, packets, _) := ServerDispatch(cr, y.server, raw); ServerEffect(cr, c, s, y, server, packets)
  {
    if raw !in y.toServer {
      NeutralIgnored(cr, y.server, raw);
    } else {
      assert ToServerOk(cr, c, s, y.client, y.server, raw);
      if raw == ResetPacket(HardResetClient, c.id) {
        ServerOnReset(cr, y.server, c.id);
      } else if IsClientHello(cr, c, raw) && y.server.peerId == Some(c.id) && y.client.peerId == Some(s.id) {
        ServerOnHello(cr, y.server, c, s, raw);
      } else {
        ServerOnFinished(cr, y.server, c, s, raw);
      }
    }
  }

  lemma ClientEvent(cr: Crypto, c: Party, s: Party, y: System, raw: bytes)
    requires Sound(cr) && Inv(cr, c, s, y) && (raw in y.toClient || Neutral(raw))
    ensures var (client, packets) := ClientDispatch(cr, y.client, raw); ClientEffect(cr, c, s, y, client, packets)
  {
    if raw !in y.toClient {
      NeutralIgnored(cr, y.client, raw);
    } else {
      assert ToClientOk(cr, c, s, y.client, y.server, raw);
      if raw == ResetPacket(HardResetServer, s.id) && y.server.peerId == Some(c.id) {
        ClientOnReset(cr, y.client, s.id);
      } else {
        ClientOnServerHello(cr, y.client, c, s, raw);
      }
    }
  }

  lemma ServerEffectKeeps(cr: Crypto, c: Party, s: Party, y: System, server: SessionValue, packets: seq<bytes>,
                          data: Option<ChannelArgs>)
    requires Inv(cr, c, s, y) && ServerEffect(cr, c, s, y, server, packets)
    requires data == y.serverData || (server.state == Established && data == Some(ArgsOf(server)))
    ensures Inv(cr, c, s, y.(server := server, toClient := y.toClient + AllOf(packets), serverData := data))
  {
    forall raw | raw in y.toServer
      ensures ToServerOk(cr, c, s, y.client, server, raw)
    {
      assert ToServerOk(cr, c, s, y.client, y.server, raw);
    }
    forall raw | raw in y.toClient
      ensures ToClientOk(cr, c, s, y.client, server, raw)
    {
      assert ToClientOk(cr, c, s, y.client, y.server, raw);
    }
  }

  lemma ClientEffectKeeps(cr: Crypto, c: Party, s: Party, y: System, client: SessionValue, packets: seq<bytes>)
    requires Inv(cr, c, s, y) && ClientEffect(cr, c, s, y, client, packets)
    ensures Inv(cr, c, s, y.(client := client, toServer := y.toServer + AllOf(packets)))
  {
    forall raw | raw in y.toServer
      ensures ToServerOk(cr, c, s, client, y.server, raw)
    {
      assert ToServerOk(cr, c, s, y.client, y.server, raw);
    }
    forall raw | raw in y.toClient
      ensures ToClientOk(cr, c, s, client, y.server, raw)
    {
      assert ToClientOk(cr, c, s, y.client, y.server, raw);
    }
  }

  lemma StepKeeps(cr: Crypto, c: Party, s: Party, y: System, e: Event)
    requires Sound(cr) && Inv(cr, c, s, y)
    ensures Inv(cr, c, s, Step(cr, y, e))
  {
    match e
    case ClientStart =>
      var (client, packets) := ClientStartHandshake(y.client);
      ClientEffectKeeps(cr, c, s, y, client, packets.value);
    case ToServer(raw) =>
      if raw in y.toServer || Neutral(raw) {
        ServerEvent(cr, c, s, y, raw);
        var (server, packets, _) := ServerDispatch(cr, y.server, raw);
        ServerEffectKeeps(cr, c, s, y, server, packets, Step(cr, y, e).serverData);
      }
    case ToClient(raw) =>
      if raw in y.toClient || Neutral(raw) {
        ClientEvent(cr, c, s, y, raw);
        var (client, packets) := ClientDispatch(cr, y.client, raw);
        ClientEffectKeeps(cr, c, s, y, client, packets);
      }
    case ClientTick =>
  }

  lemma {:induction false} RunKeeps(cr: Crypto, c: Party, s: Party, events: seq<Event>)
    requires Sound(cr)
    ensures Inv(cr, c, s, Run(cr, c, s, events))
  {
    if events != [] {
      RunKeeps(cr, c, s, events[..|events| - 1]);
      StepKeeps(cr, c, s, Run(cr, c, s, events[..|events| - 1]), events[|events| - 1]);
    }
  }
}
