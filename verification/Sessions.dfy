/** The Session object and the handlers that assign its fields (src/protocol/control.py). */
module Sessions {
  import opened Bytes
  import opened Packet
  import opened C = Control

  class Session {
    const id: SessionId
    const privateKey: PrivateKey
    const credentials: Option<Credentials>
    const createdAt: real
    var state: HandshakeState
    var peerId: Option<SessionId>
    var peerPublic: Option<bytes>
    var peerCert: Option<Certificate>
    var key: Option<Key>

    function Value(): SessionValue
      reads this
    {
      SessionValue(id, privateKey, credentials, createdAt, state, peerId, peerPublic, peerCert, key)
    }

    constructor (id: SessionId, privateKey: PrivateKey, credentials: Option<Credentials>, now: real)
      ensures Value() == NewSession(id, privateKey, credentials, now)
    {
      this.id := id;
      this.privateKey := privateKey;
      this.credentials := credentials;
      this.createdAt := now;
      this.state := Idle;
      this.peerId := None;
      this.peerPublic := None;
      this.peerCert := None;
      this.key := None;
    }

    method ClientStartHandshake() returns (packets: Option<seq<bytes>>)
      modifies this
      ensures (Value(), packets) == C.ClientStartHandshake(old(Value()))
    {
      state := ResetSent;
      return Some([ResetPacket(HardResetClient, id)]);
    }

    method ServerHandleReset(raw: bytes) returns (packets: Option<seq<bytes>>)
      modifies this
      ensures (Value(), packets) == C.ServerHandleReset(old(Value()), raw)
    {
      var decoded := DecodePacket(raw);
      if decoded.None? {
        return None;
      }
      if decoded.value.opcode != HardResetClient {
        return Some([]);
      }
      peerId := Some(SessionBytes(decoded.value.session));
      state := ResetRcvd;
      return Some([ResetPacket(HardResetServer, id)]);
    }

    method ClientHandleResetAck(cr: Crypto, raw: bytes) returns (packets: Option<seq<bytes>>)
      modifies this
      ensures (Value(), packets) == C.ClientHandleResetAck(cr, old(Value()), raw)
    {
      var decoded := DecodePacket(raw);
      if decoded.None? {
        return None;
      }
      if decoded.value.opcode != HardResetServer {
        return Some([]);
      }
      peerId := Some(SessionBytes(decoded.value.session));
      state := ResetRcvd;
      var body := PackHello(CertBytes(credentials), cr.publicOf(privateKey));
      if body.None? {
        return None;
      }
      return Some([EncodeHandshake(MessageType.ClientHello, SessionNumberOf(id), body.value)]);
    }

    /** The part the two hello handlers share. */
    method AcceptHello(cr: Crypto, hello: Hello) returns (ok: bool)
      modifies this
      ensures (Value(), ok) == C.AcceptHello(cr, old(Value()), hello)
    {
      peerPublic := Some(hello.public);
      var cert := LoadPeerCert(cr, hello.cert);
      if cert.None? {
        return false;
      }
      peerCert := cert.value;
      if !PeerCertAccepted(cr, credentials, peerCert) {
        return false;
      }
      var derived := DeriveKey(cr, Value(), hello.public);
      if derived.None? {
        return false;
      }
      key := derived;
      return true;
    }

    method ServerHandleClientHello(cr: Crypto, payload: bytes) returns (packets: Option<seq<bytes>>)
      modifies this
      ensures (Value(), packets) == C.ServerHandleClientHello(cr, old(Value()), payload)
    {
      var hello := UnpackHello(payload);
      if hello.None? {
        state := Error;
        return Some([]);
      }
      var ok := AcceptHello(cr, hello.value);
      if !ok {
        state := Error;
        return Some([]);
      }
      var mine := cr.publicOf(privateKey);
      var sig := Sign(cr, credentials, hello.value.public + mine);
      if sig.None? {
        state := Error;
        return Some([]);
      }
      var body := PackServerHello(CertBytes(credentials), mine, sig.value);
      if body.None? {
        state := Error;
        return Some([]);
      }
      state := HelloSent;
      return Some([EncodeHandshake(MessageType.ServerHello, SessionNumberOf(id), body.value)]);
    }

    method ClientHandleServerHello(cr: Crypto, payload: bytes) returns (packets: Option<seq<bytes>>)
      modifies this
      ensures (Value(), packets) == C.ClientHandleServerHello(cr, old(Value()), payload)
    {
      var hello := UnpackHello(payload);
      if hello.None? {
        state := Error;
        return Some([]);
      }
      peerPublic := Some(hello.value.public);
      var sig := UnpackField(hello.value.rest);
      if sig.None? {
        state := Error;
        return Some([]);
      }
      var ok := AcceptHello(cr, hello.value);
      if !ok {
        state := Error;
        return Some([]);
      }
      var data := cr.publicOf(privateKey) + hello.value.public;
      if !SignatureAccepted(cr, peerCert, data, sig.value.0) {
        state := Error;
        return Some([]);
      }
      state := Established;
      var finish := Sign(cr, credentials, data);
      if finish.None? {
        state := Error;
        return Some([]);
      }
      var body := PackField(finish.value);
      if body.None? {
        state := Error;
        return Some([]);
      }
      return Some([EncodeHandshake(MessageType.ClientFinished, SessionNumberOf(id), body.value)]);
    }

    method ServerHandleClientFinished(cr: Crypto, payload: bytes) returns (packets: Option<seq<bytes>>)
      modifies this
      ensures (Value(), packets) == C.ServerHandleClientFinished(cr, old(Value()), payload)
    {
      var sig := UnpackField(payload);
      if sig.None? {
        state := Error;
        return Some([]);
      }
      var theirs := if peerPublic.Some? then peerPublic.value else [];
      if !SignatureAccepted(cr, peerCert, theirs + cr.publicOf(privateKey), sig.value.0) {
        state := Error;
        return Some([]);
      }
      state := Established;
      return Some([]);
    }
  }
}
