/** What the handshake guarantees in every run, and the data channels it produces. */
module Agreement {
  import opened Bytes
  import opened Packet
  import opened Control
  import opened Handshake
  import opened Endpoint
  import Bits
  import Data
  import Fragments
  import Delivery
  import Replay

  /** What HKDF makes of the exchanged secret and the two session ids, the lesser first. */
  ghost predicate DerivedFrom(cr: Crypto, c: Party, s: Party, key: Key) {
    exists shared, lo, hi ::
      && cr.exchange(c.privateKey, cr.publicOf(s.privateKey)) == Some(shared)
      && LesserFirst(c.id, s.id, lo, hi) && key == cr.kdf(shared, lo + hi)
  }

  lemma SharedIsDerived(cr: Crypto, c: Party, s: Party)
    requires SharedKey(cr, c, s).Some?
    ensures DerivedFrom(cr, c, s, SharedKey(cr, c, s).value)
  {
    var lo, hi := IdsInOrder(c.id, s.id);
    SaltIsInOrder(c.id, s.id, lo, hi);
  }

  /** Every key ever derived on either side is the one key of the two sessions, derived with
      the true peer id; and a session is established only with that key in place. */
  lemma KeyAgreement(cr: Crypto, c: Party, s: Party, events: seq<Event>)
    requires Sound(cr)
    ensures var y := Run(cr, c, s, events);
      && (y.client.key.Some? ==> DerivedFrom(cr, c, s, y.client.key.value) && y.client.peerId == Some(s.id))
      && (y.server.key.Some? ==> DerivedFrom(cr, c, s, y.server.key.value) && y.server.peerId == Some(c.id))
      && (y.client.key.Some? && y.server.key.Some? ==> y.client.key == y.server.key)
      && (y.client.state == Established || y.server.state == Established ==>
            y.client.key.Some? && y.server.key == y.client.key)
  {
    RunKeeps(cr, c, s, events);
    if SharedKey(cr, c, s).Some? {
      SharedIsDerived(cr, c, s);
    }
  }

  lemma {:induction false} RunUnfolds(cr: Crypto, c: Party, s: Party, front: seq<Event>, e: Event)
    ensures Run(cr, c, s, front + [e]) == Step(cr, Run(cr, c, s, front), e)
  {
    assert (front + [e])[..|front|] == front;
  }

  lemma {:induction false} RunLast(cr: Crypto, c: Party, s: Party, events: seq<Event>, more: seq<Event>)
    requires more != []
    ensures var n := |more| - 1;
      Run(cr, c, s, events + more) == Step(cr, Run(cr, c, s, events + more[..n]), more[n])
  {
    var n := |more| - 1;
    RunUnfolds(cr, c, s, events + more[..n], more[n]);
    assert events + more[..n] + [more[n]] == events + more;
  }

  lemma StepKeepsKeys(cr: Crypto, c: Party, s: Party, y: System, e: Event)
    requires Sound(cr) && Inv(cr, c, s, y)
    ensures var y' := Step(cr, y, e);
      && (y.client.key.Some? ==> y'.client.key == y.client.key)
      && (y.server.key.Some? ==> y'.server.key == y.server.key)
      && (y.clientData.Some? ==> y'.clientData == y.clientData)
      && (y.serverData.Some? ==> y'.serverData == y.serverData)
  {
    if e.ToServer? && (e.raw in y.toServer || Neutral(e.raw)) {
      ServerEvent(cr, c, s, y, e.raw);
    }
    if e.ToClient? && (e.raw in y.toClient || Neutral(e.raw)) {
      ClientEvent(cr, c, s, y, e.raw);
    }
  }

  /** A key, once derived, and a data channel, once built, never change in the rest of the
      run, although the states can fall back. */
  lemma {:induction false} KeysNeverChange(cr: Crypto, c: Party, s: Party, events: seq<Event>, more: seq<Event>)
    requires Sound(cr)
    ensures var y, y' := Run(cr, c, s, events), Run(cr, c, s, events + more);
      && (y.client.key.Some? ==> y'.client.key == y.client.key)
      && (y.server.key.Some? ==> y'.server.key == y.server.key)
      && (y.clientData.Some? ==> y'.clientData == y.clientData)
      && (y.serverData.Some? ==> y'.serverData == y.serverData)
  {
    if more == [] {
      assert events + more == events;
    } else {
      var front := more[..|more| - 1];
      KeysNeverChange(cr, c, s, events, front);
      RunLast(cr, c, s, events, more);
      RunKeeps(cr, c, s, events + front);
      StepKeepsKeys(cr, c, s, Run(cr, c, s, events + front), more[|more| - 1]);
    }
  }

  // ---- Authentication ----

  /** own holds peer's certificate, issued by own's CA, and a signature of peer over client
      public key then server public key that the certificate verifies. */
  ghost predicate Authenticated(cr: Crypto, c: Party, s: Party, own: Party, peer: Party, x: SessionValue) {
    && own.credentials.Some? && peer.credentials.Some?
    && x.peerCert.Some? && cr.loadCert(peer.credentials.value.certBytes) == x.peerCert
    && cr.issued(x.peerCert.value, own.credentials.value.ca)
    && cr.sign(peer.credentials.value.key, Transcript(cr, c, s)).Some?
    && cr.verify(x.peerCert.value, Transcript(cr, c, s),
                 cr.sign(peer.credentials.value.key, Transcript(cr, c, s)).value)
  }

  /** If either side is ever established, both run with credentials or both without; with
      them, the server is authenticated to the client, the client's certificate to the server,
      and, once the server is established, the client itself. */
  lemma ModeAgreement(cr: Crypto, c: Party, s: Party, events: seq<Event>)
    requires Sound(cr)
    ensures var y := Run(cr, c, s, events);
      && (y.client.state == Established || y.server.state == Established ==>
            && (c.credentials.Some? <==> s.credentials.Some?)
            && (c.credentials.Some? ==>
                  && Authenticated(cr, c, s, c, s, y.client)
                  && y.server.peerCert.Some?
                  && cr.loadCert(c.credentials.value.certBytes) == y.server.peerCert
                  && cr.issued(y.server.peerCert.value, s.credentials.value.ca)))
      && (y.server.state == Established && s.credentials.Some? ==> Authenticated(cr, c, s, s, c, y.server))
  {
    RunKeeps(cr, c, s, events);
  }

  // ---- When a handshake can succeed ----

  /** Certificates and signatures are good both ways, the exchange yields a key, and all
      messages can be signed and packed. */
  ghost predicate Completable(cr: Crypto, c: Party, s: Party) {
    && SharedKey(cr, c, s).Some? && Sayable(cr, c, s)
    && CertVerified(cr, c, s) && CertVerified(cr, s, c)
    && SignatureVerified(cr, c, s, s) && SignatureVerified(cr, c, s, c)
  }

  /** own's CA issued peer's certificate, and that verifies peer's signature; certificate and
      signature fit their length fields. */
  ghost predicate Presentable(cr: Crypto, own: Credentials, peer: Credentials, transcript: bytes) {
    var cert, sig := cr.loadCert(peer.certBytes), cr.sign(peer.key, transcript);
    && 0 < |peer.certBytes| < 65536
    && cert.Some? && cr.issued(cert.value, own.ca)
    && sig.Some? && |sig.value| < 65536 && cr.verify(cert.value, transcript, sig.value)
  }

  /** The exchange works, and both have credentials that the other accepts, or neither has. */
  ghost predicate GoodParties(cr: Crypto, c: Party, s: Party) {
    var transcript := cr.publicOf(c.privateKey) + cr.publicOf(s.privateKey);
    && cr.exchange(c.privateKey, cr.publicOf(s.privateKey)).Some?
    && match (c.credentials, s.credentials)
       case (None, None) => true
       case (Some(a), Some(b)) => Presentable(cr, a, b, transcript) && Presentable(cr, b, a, transcript)
       case _ => false
  }

  lemma CompletableExact(cr: Crypto, c: Party, s: Party)
    requires Sound(cr)
    ensures Completable(cr, c, s) <==> GoodParties(cr, c, s)
  {
  }

  function ClientHelloPacket(cr: Crypto, c: Party): bytes
    requires HelloSayable(cr, c)
  {
    EncodeHandshake(ClientHello, SessionNumberOf(c.id),
                    PackHello(CertBytes(c.credentials), cr.publicOf(c.privateKey)).value)
  }

  function ServerHelloPacket(cr: Crypto, c: Party, s: Party): bytes
    requires ServerHelloSayable(cr, c, s)
  {
    var sig := Sign(cr, s.credentials, Transcript(cr, c, s)).value;
    EncodeHandshake(ServerHello, SessionNumberOf(s.id),
                    PackServerHello(CertBytes(s.credentials), cr.publicOf(s.privateKey), sig).value)
  }

  function FinishedPacket(cr: Crypto, c: Party, s: Party): bytes
    requires FinishedSayable(cr, c, s)
  {
    var sig := Sign(cr, c.credentials, Transcript(cr, c, s)).value;
    EncodeHandshake(ClientFinished, SessionNumberOf(c.id), PackField(sig).value)
  }

  lemma ClientAnswersReset(cr: Crypto, x: SessionValue, c: Party, id: SessionId)
    requires HelloSayable(cr, c) && x.id == c.id && x.privateKey == c.privateKey && x.credentials == c.credentials
    ensures ClientDispatch(cr, x, ResetPacket(HardResetServer, id))
            == (x.(peerId := Some(id), state := ResetRcvd), [ClientHelloPacket(cr, c)])
  {
    DecodeEncode(HardResetServer, SessionNumberOf(id), []);
    SessionBytesOfNumber(id);
  }

  lemma ServerAnswersHello(cr: Crypto, x: SessionValue, c: Party, s: Party)
    requires Sound(cr) && Completable(cr, c, s)
    requires Own(cr, x, s, c, SharedKey(cr, c, s)) && x.peerId == Some(c.id)
    ensures ServerDispatch(cr, x, ClientHelloPacket(cr, c)).1 == [ServerHelloPacket(cr, c, s)]
  {
    KeyForBoth(cr, c, s);
    var cert, public := CertBytes(c.credentials), cr.publicOf(c.privateKey);
    var body := PackHello(cert, public).value;
    ServerOnHandshake(cr, x, ClientHello, c.id, body);
    UnpackPackedHello(cert, public, []);
    assert body + [] == body;
  }

  lemma ClientAnswersHello(cr: Crypto, x: SessionValue, c: Party, s: Party)
    requires Sound(cr) && SharedKey(cr, c, s).Some? && Sayable(cr, c, s)
    requires CertVerified(cr, c, s) && SignatureVerified(cr, c, s, s)
    requires Own(cr, x, c, s, SharedKey(cr, c, s)) && x.peerId == Some(s.id)
    ensures var (x', packets) := ClientDispatch(cr, x, ServerHelloPacket(cr, c, s));
      packets == [FinishedPacket(cr, c, s)] && x'.state == Established
  {
    KeyForBoth(cr, c, s);
    var sig := Sign(cr, s.credentials, Transcript(cr, c, s)).value;
    var body := PackServerHello(CertBytes(s.credentials), cr.publicOf(s.privateKey), sig).value;
    ClientOnHandshake(cr, x, s.id, body);
    ServerHelloParts(cr, c, s, body);
  }

  /** The packets of an undisturbed handshake, each delivered once and in order. */
  ghost function InOrder(cr: Crypto, c: Party, s: Party): seq<Event>
    requires Sayable(cr, c, s)
  {
    [ClientStart, ToServer(ResetPacket(HardResetClient, c.id)), ToClient(ResetPacket(HardResetServer, s.id)),
     ToServer(ClientHelloPacket(cr, c)), ToClient(ServerHelloPacket(cr, c, s)),
     ToServer(FinishedPacket(cr, c, s)), ClientTick]
  }

  /** Where a handshake stands after its first k events, whatever happened before. */
  ghost predicate Stage(cr: Crypto, c: Party, s: Party, y: System, k: nat)
    requires Sayable(cr, c, s)
  {
    var met := y.client.peerId == Some(s.id) && y.server.peerId == Some(c.id);
    match k
    case 0 => true
    case 1 => ResetPacket(HardResetClient, c.id) in y.toServer
    case 2 => ResetPacket(HardResetServer, s.id) in y.toClient && y.server.peerId == Some(c.id)
    case 3 => met && ClientHelloPacket(cr, c) in y.toServer
    case 4 => met && ServerHelloPacket(cr, c, s) in y.toClient
    case 5 => y.client.state == Established && FinishedPacket(cr, c, s) in y.toServer
    case 6 => y.client.state == Established && y.server.state == Established && y.serverData.Some?
    case _ =>
      && y.client.state == Established && y.server.state == Established
      && y.clientData.Some? && y.serverData.Some?
  }

  lemma FinishedHandled(cr: Crypto, x: SessionValue, c: Party, s: Party)
    requires FinishedSayable(cr, c, s)
    ensures ServerDispatch(cr, x, FinishedPacket(cr, c, s)).2
  {
    var sig := Sign(cr, c.credentials, Transcript(cr, c, s)).value;
    ServerOnHandshake(cr, x, ClientFinished, c.id, PackField(sig).value);
  }

  lemma ResetsExchange(cr: Crypto, c: Party, s: Party, y: System, k: nat)
    requires Sound(cr) && Completable(cr, c, s) && Inv(cr, c, s, y) && Stage(cr, c, s, y, k) && k < 3
    ensures Stage(cr, c, s, Step(cr, y, InOrder(cr, c, s)[k]), k + 1)
  {
    ServerOnReset(cr, y.server, c.id);
    ClientAnswersReset(cr, y.client, c, s.id);
  }

  lemma ServerHelloFollows(cr: Crypto, c: Party, s: Party, y: System)
    requires Sound(cr) && Completable(cr, c, s) && Inv(cr, c, s, y) && Stage(cr, c, s, y, 3)
    ensures Stage(cr, c, s, Step(cr, y, ToServer(ClientHelloPacket(cr, c))), 4)
  {
    ServerAnswersHello(cr, y.server, c, s);
    ServerOnHello(cr, y.server, c, s, ClientHelloPacket(cr, c));
  }

  lemma ClientIsEstablished(cr: Crypto, c: Party, s: Party, y: System)
    requires Sound(cr) && Completable(cr, c, s) && Inv(cr, c, s, y) && Stage(cr, c, s, y, 4)
    ensures Stage(cr, c, s, Step(cr, y, ToClient(ServerHelloPacket(cr, c, s))), 5)
  {
    ClientAnswersHello(cr, y.client, c, s);
  }

  lemma ServerIsEstablished(cr: Crypto, c: Party, s: Party, y: System)
    requires Sound(cr) && Completable(cr, c, s) && Inv(cr, c, s, y) && Stage(cr, c, s, y, 5)
    ensures Stage(cr, c, s, Step(cr, y, ToServer(FinishedPacket(cr, c, s))), 6)
  {
    ServerOnFinished(cr, y.server, c, s, FinishedPacket(cr, c, s));
    FinishedHandled(cr, y.server, c, s);
  }

  lemma LastTick(cr: Crypto, c: Party, s: Party, y: System)
    requires Sayable(cr, c, s) && Stage(cr, c, s, y, 6)
    ensures Stage(cr, c, s, Step(cr, y, ClientTick), 7)
  {
  }

  lemma HellosExchange(cr: Crypto, c: Party, s: Party, y: System, k: nat)
    requires Sound(cr) && Completable(cr, c, s) && Inv(cr, c, s, y) && Stage(cr, c, s, y, k) && 3 <= k < 7
    ensures Stage(cr, c, s, Step(cr, y, InOrder(cr, c, s)[k]), k + 1)
  {
    if k == 3 {
      ServerHelloFollows(cr, c, s, y);
    } else if k == 4 {
      ClientIsEstablished(cr, c, s, y);
    } else if k == 5 {
      ServerIsEstablished(cr, c, s, y);
    } else {
      LastTick(cr, c, s, y);
    }
  }

  lemma StageNext(cr: Crypto, c: Party, s: Party, y: System, k: nat)
    requires Sound(cr) && Completable(cr, c, s) && Inv(cr, c, s, y) && Stage(cr, c, s, y, k) && k < 7
    ensures Stage(cr, c, s, Step(cr, y, InOrder(cr, c, s)[k]), k + 1)
  {
    if k < 3 {
      ResetsExchange(cr, c, s, y, k);
    } else {
      HellosExchange(cr, c, s, y, k);
    }
  }

  lemma TakeOne(events: seq<Event>, more: seq<Event>, k: nat)
    requires k < |more|
    ensures events + more[..k + 1] == events + more[..k] + [more[k]]
  {
  }

  lemma {:induction false} RunNext(cr: Crypto, c: Party, s: Party, events: seq<Event>, more: seq<Event>, k: nat)
    requires k < |more|
    ensures Run(cr, c, s, events + more[..k + 1]) == Step(cr, Run(cr, c, s, events + more[..k]), more[k])
  {
    TakeOne(events, more, k);
    RunUnfolds(cr, c, s, events + more[..k], more[k]);
  }

  lemma {:induction false} InOrderStage(cr: Crypto, c: Party, s: Party, events: seq<Event>, k: nat)
    requires Sound(cr) && Completable(cr, c, s) && k <= 7
    ensures Stage(cr, c, s, Run(cr, c, s, events + InOrder(cr, c, s)[..k]), k)
  {
    if k > 0 {
      InOrderStage(cr, c, s, events, k - 1);
      RunKeeps(cr, c, s, events + InOrder(cr, c, s)[..k - 1]);
      StageNext(cr, c, s, Run(cr, c, s, events + InOrder(cr, c, s)[..k - 1]), k - 1);
      RunNext(cr, c, s, events, InOrder(cr, c, s), k - 1);
    }
  }

  /** From every reachable state, whatever was lost, repeated or thrown back before, one
      undisturbed handshake establishes both sides, and both have data channels. */
  lemma CompletesFromAnywhere(cr: Crypto, c: Party, s: Party, events: seq<Event>)
    requires Sound(cr) && Completable(cr, c, s)
    ensures var y := Run(cr, c, s, events + InOrder(cr, c, s));
      && y.client.state == Established && y.server.state == Established
      && y.clientData.Some? && y.serverData.Some?
  {
    InOrderStage(cr, c, s, events, 7);
    assert InOrder(cr, c, s)[..7] == InOrder(cr, c, s);
  }

  lemma InOrderCompletes(cr: Crypto, c: Party, s: Party)
    requires Sound(cr) && Completable(cr, c, s)
    ensures var y := Run(cr, c, s, InOrder(cr, c, s));
      && y.client.state == Established && y.server.state == Established
      && y.clientData.Some? && y.serverData.Some?
  {
    CompletesFromAnywhere(cr, c, s, []);
    assert [] + InOrder(cr, c, s) == InOrder(cr, c, s);
  }

  lemma ClientBuildsNone(cr: Crypto, y: System, e: Event)
    requires !e.ToServer?
    ensures Step(cr, y, e).serverData == y.serverData
  {
  }

  lemma ResetBuildsNone(cr: Crypto, y: System, id: SessionId)
    ensures Step(cr, y, ToServer(ResetPacket(HardResetClient, id))).serverData == y.serverData
  {
    ServerOnReset(cr, y.server, id);
  }

  lemma HelloBuildsNone(cr: Crypto, c: Party, s: Party, y: System)
    requires Sound(cr) && Completable(cr, c, s) && Inv(cr, c, s, y) && y.server.peerId == Some(c.id)
    ensures Step(cr, y, ToServer(ClientHelloPacket(cr, c))).serverData == y.serverData
  {
    ServerOnHello(cr, y.server, c, s, ClientHelloPacket(cr, c));
  }

  /** The events of the handshake before the client's last packet arrives. */
  ghost predicate Early(cr: Crypto, c: Party, s: Party, y: System, e: Event)
    requires Sayable(cr, c, s)
  {
    || !e.ToServer?
    || e.raw == ResetPacket(HardResetClient, c.id)
    || (e.raw == ClientHelloPacket(cr, c) && y.server.peerId == Some(c.id))
  }

  /** The server builds its data channel only with that packet. */
  lemma EarlyBuildsNone(cr: Crypto, c: Party, s: Party, y: System, e: Event)
    requires Sound(cr) && Completable(cr, c, s) && Inv(cr, c, s, y) && Early(cr, c, s, y, e)
    ensures Step(cr, y, e).serverData == y.serverData
  {
    if !e.ToServer? {
      ClientBuildsNone(cr, y, e);
    } else if e.raw == ResetPacket(HardResetClient, c.id) {
      ResetBuildsNone(cr, y, c.id);
    } else {
      HelloBuildsNone(cr, c, s, y);
    }
  }

  lemma InOrderEarly(cr: Crypto, c: Party, s: Party, y: System, k: nat)
    requires Sayable(cr, c, s) && Stage(cr, c, s, y, k) && k < 5
    ensures Early(cr, c, s, y, InOrder(cr, c, s)[k])
  {
  }

  lemma {:induction false} InOrderNoServerData(cr: Crypto, c: Party, s: Party, k: nat)
    requires Sound(cr) && Completable(cr, c, s) && k <= 5
    ensures Run(cr, c, s, [] + InOrder(cr, c, s)[..k]).serverData == None
  {
    if k > 0 {
      InOrderNoServerData(cr, c, s, k - 1);
      InOrderStage(cr, c, s, [], k - 1);
      RunKeeps(cr, c, s, [] + InOrder(cr, c, s)[..k - 1]);
      var y := Run(cr, c, s, [] + InOrder(cr, c, s)[..k - 1]);
      InOrderEarly(cr, c, s, y, k - 1);
      EarlyBuildsNone(cr, c, s, y, InOrder(cr, c, s)[k - 1]);
      RunNext(cr, c, s, [], InOrder(cr, c, s), k - 1);
    }
  }

  /** Some run establishes the server, and some run builds both data channels, exactly when
      the certificates, signatures and keys of the two parties are good. */
  lemma EstablishmentExact(cr: Crypto, c: Party, s: Party)
    requires Sound(cr)
    ensures (exists events :: Run(cr, c, s, events).server.state == Established) <==> GoodParties(cr, c, s)
    ensures GoodParties(cr, c, s) ==>
      exists events :: Run(cr, c, s, events).clientData.Some? && Run(cr, c, s, events).serverData.Some?
  {
    CompletableExact(cr, c, s);
    if Completable(cr, c, s) {
      InOrderCompletes(cr, c, s);
    }
    forall events | Run(cr, c, s, events).server.state == Established
      ensures Completable(cr, c, s)
    {
      RunKeeps(cr, c, s, events);
    }
  }

  // ---- The data channels ----

  /** Bit by bit the exclusive or of the two ids, so either one and this give the other. */
  ghost predicate Combines(shared: bytes, a: SessionId, b: SessionId) {
    && |shared| == 8
    && (forall i: nat, j: nat {:trigger Bits.Bit(shared[i], j)} :: i < 8 ==>
          (Bits.Bit(shared[i], j) <==> Bits.Bit(a[i], j) != Bits.Bit(b[i], j)))
    && XorBytes(shared, a) == b && XorBytes(shared, b) == a
  }

  lemma SharedIdCombines(a: SessionId, b: SessionId)
    ensures Combines(Data.DeriveSessionId(a, b), a, b)
  {
    XorBytesCommutes(a, b);
    XorBytesCancels(a, b);
    XorBytesCancels(b, a);
    forall i: nat, j: nat | i < 8
      ensures Bits.Bit(XorBytes(a, b)[i], j) <==> Bits.Bit(a[i], j) != Bits.Bit(b[i], j)
    {
      XorBytesBit(a, b, i, j);
    }
  }

  /** In every run, if both ends have built a data channel, the two channels hold the same
      key and the same session id, the exclusive or of the two sessions' ids. */
  lemma ChannelsMatch(cr: Crypto, c: Party, s: Party, events: seq<Event>, aead: Data.Aead,
                      clientCodec: Data.Codec, serverCodec: Data.Codec, clientComp: bool, serverComp: bool)
    requires Sound(cr) && Data.Ideal(aead) && Data.Lossless(clientCodec)
    requires clientCodec.compress == serverCodec.compress && clientCodec.decompress == serverCodec.decompress
    requires Run(cr, c, s, events).clientData.Some? && Run(cr, c, s, events).serverData.Some?
    ensures var y := Run(cr, c, s, events);
      var client := ChannelOf(y.clientData.value, aead, clientCodec, clientComp);
      var server := ChannelOf(y.serverData.value, aead, serverCodec, serverComp);
      && client.key.Some? && client.key == server.key && client.sharedId == server.sharedId
      && Combines(client.sharedId, c.id, s.id) && DerivedFrom(cr, c, s, client.key.value)
      && Fragments.Matched(client, server) && Fragments.Matched(server, client)
  {
    RunKeeps(cr, c, s, events);
    XorBytesCommutes(c.id, s.id);
    SharedIdCombines(c.id, s.id);
    SharedIsDerived(cr, c, s);
  }

  /** Composition: whatever the network does to the handshake and then to the data packets,
      each direction between the channels that the handshake built is safe end to end. */
  lemma TunnelSafe(cr: Crypto, c: Party, s: Party, events: seq<Event>, aead: Data.Aead,
                   clientCodec: Data.Codec, serverCodec: Data.Codec, clientComp: bool, serverComp: bool,
                   window: nat, traffic: seq<Delivery.Event>)
    requires Sound(cr) && Data.Ideal(aead) && Data.Lossless(clientCodec)
    requires clientCodec.compress == serverCodec.compress && clientCodec.decompress == serverCodec.decompress
    requires Run(cr, c, s, events).clientData.Some? && Run(cr, c, s, events).serverData.Some?
    requires Replay.Sized(window) && Delivery.SendsUnambiguous(traffic)
    ensures var y := Run(cr, c, s, events);
      var client := ChannelOf(y.clientData.value, aead, clientCodec, clientComp);
      var server := ChannelOf(y.serverData.value, aead, serverCodec, serverComp);
      var up, down := Delivery.Run(client, server, window, traffic), Delivery.Run(server, client, window, traffic);
      && Delivery.OncePerCall(up) && !up.raised
      && Delivery.OncePerCall(down) && !down.raised
  {
    ChannelsMatch(cr, c, s, events, aead, clientCodec, serverCodec, clientComp, serverComp);
    var y := Run(cr, c, s, events);
    var client := ChannelOf(y.clientData.value, aead, clientCodec, clientComp);
    var server := ChannelOf(y.serverData.value, aead, serverCodec, serverComp);
    Delivery.EndToEnd(client, server, window, traffic);
    Delivery.EndToEnd(server, client, window, traffic);
  }
}
