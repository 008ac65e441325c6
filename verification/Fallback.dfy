/** ESTABLISHED is not absorbing: exactly which events take either side out of it, that such
    events are always possible, and what brings the server back. */
module Fallback {
  import opened Bytes
  import opened Packet
  import opened Control
  import opened Handshake
  import opened Agreement

  ghost predicate IsReset(op: Opcode, id: SessionId, raw: bytes) {
    raw == ResetPacket(op, id)
  }

  /** The kinds of packets that can exist are told apart by their bytes. */
  lemma KindOfReset(op: Opcode, id: SessionId)
    requires op == HardResetClient || op == HardResetServer
    ensures var raw := ResetPacket(op, id); raw != [] && raw[0] == OpcodeByte(op) && !Neutral(raw)
  {
  }

  lemma KindOfHandshake(t: MessageType, id: SessionId, body: bytes)
    requires t == ClientHello || t == ServerHello || t == ClientFinished
    ensures var raw := EncodeHandshake(t, SessionNumberOf(id), body);
      && raw != [] && raw[0] == OpcodeByte(Opcode.Control) && !Neutral(raw)
      && DecodePacket(raw).Some? && DecodePacket(raw).value.payload != []
      && MessageOf(DecodePacket(raw).value.payload[0]) == Some(t)
  {
    HandshakeRoundTrip(t, id, body);
  }

  lemma KindOfHello(cr: Crypto, c: Party, raw: bytes)
    requires IsClientHello(cr, c, raw)
    ensures raw == ClientHelloPacket(cr, c) && !Neutral(raw)
    ensures !IsReset(HardResetClient, c.id, raw)
  {
    KindOfHandshake(ClientHello, c.id, PackHello(CertBytes(c.credentials), cr.publicOf(c.privateKey)).value);
    KindOfReset(HardResetClient, c.id);
  }

  lemma KindOfFinished(cr: Crypto, c: Party, s: Party, raw: bytes)
    requires IsClientFinished(cr, c, s, raw)
    ensures raw == FinishedPacket(cr, c, s) && !Neutral(raw)
    ensures !IsReset(HardResetClient, c.id, raw) && !IsClientHello(cr, c, raw)
  {
    var sig := Sign(cr, c.credentials, Transcript(cr, c, s)).value;
    KindOfHandshake(ClientFinished, c.id, PackField(sig).value);
    KindOfReset(HardResetClient, c.id);
    if IsClientHello(cr, c, raw) {
      KindOfHandshake(ClientHello, c.id, PackHello(CertBytes(c.credentials), cr.publicOf(c.privateKey)).value);
    }
  }

  lemma KindOfServerHello(cr: Crypto, c: Party, s: Party, raw: bytes)
    requires IsServerHello(cr, c, s, raw)
    ensures raw == ServerHelloPacket(cr, c, s) && !Neutral(raw)
    ensures !IsReset(HardResetServer, s.id, raw)
  {
    var sig := Sign(cr, s.credentials, Transcript(cr, c, s)).value;
    KindOfHandshake(ServerHello, s.id, PackServerHello(CertBytes(s.credentials), cr.publicOf(s.privateKey), sig).value);
    KindOfReset(HardResetServer, s.id);
  }

  // ---- What was received still exists ----

  /** Whatever a session has learnt, the packet it learnt it from can arrive again. */
  ghost predicate Remembered(cr: Crypto, c: Party, s: Party, y: System) {
    && (y.server.peerId.Some? ==> ResetPacket(HardResetClient, c.id) in y.toServer)
    && (y.server.peerPublic.Some? ==> exists raw :: raw in y.toServer && IsClientHello(cr, c, raw))
    && (y.client.peerId.Some? ==> ResetPacket(HardResetServer, s.id) in y.toClient)
    && (y.server.state == Established || y.serverData.Some? ==>
          && SignatureVerified(cr, c, s, c)
          && exists raw :: raw in y.toServer && IsClientFinished(cr, c, s, raw))
  }

  ghost predicate ServerLearns(cr: Crypto, c: Party, s: Party, x: SessionValue, x': SessionValue, raw: bytes) {
    && (x'.peerId != x.peerId ==> IsReset(HardResetClient, c.id, raw))
    && (x'.peerPublic != x.peerPublic ==> IsClientHello(cr, c, raw))
    && (x'.state == Established && x.state != Established ==>
          IsClientFinished(cr, c, s, raw) && SignatureVerified(cr, c, s, c))
  }

  lemma ServerLearnsFrom(cr: Crypto, c: Party, s: Party, y: System, raw: bytes)
    requires Sound(cr) && Inv(cr, c, s, y) && (raw in y.toServer || Neutral(raw))
    ensures ServerLearns(cr, c, s, y.server, ServerDispatch(cr, y.server, raw).0, raw)
  {
    if raw !in y.toServer {
      NeutralIgnored(cr, y.server, raw);
    } else {
      assert ToServerOk(cr, c, s, y.client, y.server, raw);
      if IsReset(HardResetClient, c.id, raw) {
        ServerOnReset(cr, y.server, c.id);
      } else if IsClientHello(cr, c, raw) && y.server.peerId == Some(c.id) {
        ServerOnHello(cr, y.server, c, s, raw);
      } else {
        ServerOnFinished(cr, y.server, c, s, raw);
      }
    }
  }

  lemma ServerRemembers(cr: Crypto, c: Party, s: Party, y: System, raw: bytes)
    requires Sound(cr) && Inv(cr, c, s, y) && Remembered(cr, c, s, y)
    ensures Remembered(cr, c, s, Step(cr, y, ToServer(raw)))
  {
    if raw in y.toServer || Neutral(raw) {
      ServerLearnsFrom(cr, c, s, y, raw);
      if raw !in y.toServer {
        NeutralIgnored(cr, y.server, raw);
      }
    }
  }

  lemma ClientRemembers(cr: Crypto, c: Party, s: Party, y: System, raw: bytes)
    requires Sound(cr) && Inv(cr, c, s, y) && Remembered(cr, c, s, y)
    ensures Remembered(cr, c, s, Step(cr, y, ToClient(raw)))
  {
    if raw in y.toClient {
      assert ToClientOk(cr, c, s, y.client, y.server, raw);
      if IsReset(HardResetServer, s.id, raw) {
        ClientOnReset(cr, y.client, s.id);
      } else {
        ClientOnServerHello(cr, y.client, c, s, raw);
      }
    } else if Neutral(raw) {
      NeutralIgnored(cr, y.client, raw);
    }
  }

  lemma {:induction false} RunRemembers(cr: Crypto, c: Party, s: Party, events: seq<Event>)
    requires Sound(cr)
    ensures Remembered(cr, c, s, Run(cr, c, s, events))
  {
    if events != [] {
      var front, e := events[..|events| - 1], events[|events| - 1];
      RunRemembers(cr, c, s, front);
      RunKeeps(cr, c, s, front);
      match e
      case ToServer(raw) => ServerRemembers(cr, c, s, Run(cr, c, s, front), raw);
      case ToClient(raw) => ClientRemembers(cr, c, s, Run(cr, c, s, front), raw);
      case _ =>
    }
  }

  // ---- Leaving ESTABLISHED ----

  /** The packets that take an established server back. */
  ghost predicate Unsettles(cr: Crypto, c: Party, raw: bytes) {
    IsReset(HardResetClient, c.id, raw) || IsClientHello(cr, c, raw)
  }

  lemma ServerStays(cr: Crypto, c: Party, s: Party, y: System, raw: bytes)
    requires Sound(cr) && Inv(cr, c, s, y) && Remembered(cr, c, s, y) && y.server.state == Established
    ensures Step(cr, y, ToServer(raw)).server.state == Established <==> !Unsettles(cr, c, raw)
  {
    KindOfReset(HardResetClient, c.id);
    if IsReset(HardResetClient, c.id, raw) {
      ServerOnReset(cr, y.server, c.id);
    } else if IsClientHello(cr, c, raw) {
      KindOfHello(cr, c, raw);
      var hello :| hello in y.toServer && IsClientHello(cr, c, hello);
      ServerOnHello(cr, y.server, c, s, raw);
    } else if raw in y.toServer {
      assert ToServerOk(cr, c, s, y.client, y.server, raw);
      ServerOnFinished(cr, y.server, c, s, raw);
    } else if Neutral(raw) {
      NeutralIgnored(cr, y.server, raw);
    }
  }

  /** In every run, an established server stays established in an event exactly unless the
      event delivers the client's reset or its hello. */
  lemma ServerStaysExactly(cr: Crypto, c: Party, s: Party, events: seq<Event>, e: Event)
    requires Sound(cr) && Run(cr, c, s, events).server.state == Established
    ensures Step(cr, Run(cr, c, s, events), e).server.state == Established
            <==> !(e.ToServer? && Unsettles(cr, c, e.raw))
  {
    RunKeeps(cr, c, s, events);
    RunRemembers(cr, c, s, events);
    if e.ToServer? {
      ServerStays(cr, c, s, Run(cr, c, s, events), e.raw);
    }
  }

  lemma ClientStays(cr: Crypto, c: Party, s: Party, y: System, raw: bytes)
    requires Sound(cr) && Inv(cr, c, s, y) && Remembered(cr, c, s, y) && y.client.state == Established
    ensures Step(cr, y, ToClient(raw)).client.state == Established <==> !IsReset(HardResetServer, s.id, raw)
  {
    KindOfReset(HardResetServer, s.id);
    if IsReset(HardResetServer, s.id, raw) {
      ClientOnReset(cr, y.client, s.id);
    } else if raw in y.toClient {
      assert ToClientOk(cr, c, s, y.client, y.server, raw);
      KindOfServerHello(cr, c, s, raw);
      ClientAnswersHello(cr, y.client, c, s);
    } else if Neutral(raw) {
      NeutralIgnored(cr, y.client, raw);
    }
  }

  /** An established client stays established in an event exactly unless the event delivers
      the server's reset, or the client starts again; a repeated hello does not move it. */
  lemma ClientStaysExactly(cr: Crypto, c: Party, s: Party, events: seq<Event>, e: Event)
    requires Sound(cr) && Run(cr, c, s, events).client.state == Established
    ensures Step(cr, Run(cr, c, s, events), e).client.state == Established
            <==> !(e == ClientStart || (e.ToClient? && IsReset(HardResetServer, s.id, e.raw)))
  {
    RunKeeps(cr, c, s, events);
    RunRemembers(cr, c, s, events);
    if e.ToClient? {
      ClientStays(cr, c, s, Run(cr, c, s, events), e.raw);
    }
  }

  /** No established state is safe: the packets that undo it have been sent, to the server both
      and to the client its one, so the network may deliver them again at any time. */
  lemma EstablishedCanFallBack(cr: Crypto, c: Party, s: Party, events: seq<Event>)
    requires Sound(cr)
    ensures var y := Run(cr, c, s, events);
      && (y.server.state == Established ==>
            && ResetPacket(HardResetClient, c.id) in y.toServer
            && (exists raw :: raw in y.toServer && IsClientHello(cr, c, raw))
            && (forall raw :: raw in y.toServer && Unsettles(cr, c, raw) ==>
                  Step(cr, y, ToServer(raw)).server.state != Established))
      && (y.client.state == Established ==>
            && ResetPacket(HardResetServer, s.id) in y.toClient
            && Step(cr, y, ToClient(ResetPacket(HardResetServer, s.id))).client.state != Established)
  {
    RunKeeps(cr, c, s, events);
    RunRemembers(cr, c, s, events);
    var y := Run(cr, c, s, events);
    if y.server.state == Established {
      forall raw | raw in y.toServer && Unsettles(cr, c, raw)
        ensures Step(cr, y, ToServer(raw)).server.state != Established
      {
        ServerStays(cr, c, s, y, raw);
      }
    }
    if y.client.state == Established {
      ClientStays(cr, c, s, y, ResetPacket(HardResetServer, s.id));
    }
  }

  // ---- And returning to it ----

  /** A server that has built its data channel is established again, from any state, when the
      client's last packet arrives once more; and that packet exists. */
  lemma FinishedEstablishesAgain(cr: Crypto, c: Party, s: Party, events: seq<Event>)
    requires Sound(cr) && Run(cr, c, s, events).serverData.Some?
    ensures var y := Run(cr, c, s, events);
      && (exists raw :: raw in y.toServer && IsClientFinished(cr, c, s, raw))
      && (forall raw :: raw in y.toServer && IsClientFinished(cr, c, s, raw) ==>
            Step(cr, y, ToServer(raw)).server == y.server.(state := Established))
  {
    RunKeeps(cr, c, s, events);
    RunRemembers(cr, c, s, events);
    var y := Run(cr, c, s, events);
    forall raw | raw in y.toServer && IsClientFinished(cr, c, s, raw)
      ensures Step(cr, y, ToServer(raw)).server == y.server.(state := Established)
    {
      assert ToServerOk(cr, c, s, y.client, y.server, raw);
      KindOfFinished(cr, c, s, raw);
      ServerOnFinished(cr, y.server, c, s, raw);
    }
  }
}
