/** Sessions and the six handshake handlers (src/protocol/control.py). No handler looks at
    the state of its session. */
module Control {
  import opened Bytes
  import opened Packet

  const HANDSHAKE_TIMEOUT: real := 30.0

  // ---- The cryptography the handlers are given ----

  type PrivateKey = bytes
  type SigningKey = bytes
  datatype Certificate = Certificate(der: bytes)

  /** Where a function returns None the Python call raises an exception.
      exchange: X25519 of a private key with public key bytes. kdf: HKDF of shared secret and
      salt. loadCert: parsing PEM. issued: the certificate is signed by the CA's key. */
  datatype Crypto = Crypto(
    publicOf: PrivateKey -> bytes,
    exchange: (PrivateKey, bytes) -> Option<bytes>,
    kdf: (bytes, bytes) -> Key,
    loadCert: bytes -> Option<Certificate>,
    issued: (Certificate, Certificate) -> bool,
    sign: (SigningKey, bytes) -> Option<bytes>,
    verify: (Certificate, bytes, bytes) -> bool)

  /** Set when ca, cert and key are all configured; otherwise the session runs without. */
  datatype Credentials = Credentials(ca: Certificate, certBytes: bytes, key: SigningKey)

  // ---- Sessions ----

  datatype HandshakeState = Idle | ResetSent | ResetRcvd | HelloSent | Established | Error

  datatype SessionValue = SessionValue(
    id: SessionId,
    privateKey: PrivateKey,
    credentials: Option<Credentials>,
    createdAt: real,
    state: HandshakeState,
    peerId: Option<SessionId>,
    peerPublic: Option<bytes>,
    peerCert: Option<Certificate>,
    key: Option<Key>)

  function NewSession(id: SessionId, privateKey: PrivateKey, credentials: Option<Credentials>,
                      now: real): SessionValue {
    SessionValue(id, privateKey, credentials, now, Idle, None, None, None, None)
  }

  predicate IsExpired(s: SessionValue, now: real) {
    s.state != Established && s.state != Idle && now - s.createdAt > HANDSHAKE_TIMEOUT
  }

  /** The certificate bytes a session sends: none without credentials. */
  function CertBytes(credentials: Option<Credentials>): bytes {
    if credentials.Some? then credentials.value.certBytes else []
  }

  function Sign(cr: Crypto, credentials: Option<Credentials>, data: bytes): Option<bytes> {
    if credentials.Some? then cr.sign(credentials.value.key, data) else Some([])
  }

  /** Certificate data of a hello as a certificate; the outer None is a parse error. */
  function LoadPeerCert(cr: Crypto, certData: bytes): Option<Option<Certificate>> {
    if certData == [] then Some(None)
    else
      match cr.loadCert(certData)
      case None => None
      case Some(cert) => Some(Some(cert))
  }

  predicate PeerCertAccepted(cr: Crypto, credentials: Option<Credentials>, peerCert: Option<Certificate>) {
    credentials.Some? ==> peerCert.Some? && cr.issued(peerCert.value, credentials.value.ca)
  }

  /** A signature is checked only when the peer presented a certificate. */
  predicate SignatureAccepted(cr: Crypto, peerCert: Option<Certificate>, data: bytes, sig: bytes) {
    peerCert.Some? ==> cr.verify(peerCert.value, data, sig)
  }

  function Salt(a: bytes, b: bytes): bytes {
    if Less(a, b) then a + b else b + a
  }

  /** The salt does not depend on which side computes it. */
  lemma SaltSymmetric(a: bytes, b: bytes)
    ensures Salt(a, b) == Salt(b, a)
  {
    LessTotal(a, b);
  }

  /** lo and hi are the two ids, the lesser one first. */
  ghost predicate LesserFirst(a: bytes, b: bytes, lo: bytes, hi: bytes) {
    && ((lo == a && hi == b) || (lo == b && hi == a))
    && (lo == hi || Before(lo, hi))
  }

  lemma IdsInOrder(a: bytes, b: bytes) returns (lo: bytes, hi: bytes)
    ensures LesserFirst(a, b, lo, hi)
  {
    LessTotal(a, b);
    LessIsBefore(a, b);
    LessIsBefore(b, a);
    lo, hi := if Less(a, b) then a else b, if Less(a, b) then b else a;
  }

  /** The salt is the lesser id, then the greater. */
  lemma SaltIsInOrder(a: bytes, b: bytes, lo: bytes, hi: bytes)
    requires LesserFirst(a, b, lo, hi)
    ensures Salt(a, b) == lo + hi
  {
    LessTotal(a, b);
    LessIsBefore(lo, hi);
  }

  function HandshakeSalt(s: SessionValue): bytes {
    Salt(s.id, if s.peerId.Some? then s.peerId.value else [])
  }

  function DeriveKey(cr: Crypto, s: SessionValue, peerPublic: bytes): Option<Key> {
    match cr.exchange(s.privateKey, peerPublic)
    case None => None
    case Some(shared) => Some(cr.kdf(shared, HandshakeSalt(s)))
  }

  // ---- Message bodies ----

  /** A two-byte length and the field; None is struct.error. */
  function PackField(field: bytes): Option<bytes> {
    if |field| >= 0x1_0000 then None
    else
      Limits();
      Some(Pack(2, |field|) + field)
  }

  /** A length-prefixed field and the rest; a short field is cut, as Python slices are, and
      None is the struct.error of a short length. */
  function UnpackField(data: bytes): Option<(bytes, bytes)> {
    if |data| < 2 then None
    else
      var length := Unpack(data[..2]);
      var end := Min(2 + length, |data|);
      Some((data[2..end], data[end..]))
  }

  lemma UnpackPackedField(field: bytes, rest: bytes)
    requires |field| < 0x1_0000
    ensures UnpackField(PackField(field).value + rest) == Some((field, rest))
  {
    Limits();
    UnpackPack(2, |field|);
    var data := PackField(field).value + rest;
    assert data[..2] == Pack(2, |field|);
    assert data[2..2 + |field|] == field && data[2 + |field|..] == rest;
  }

  function TwoBytes(high: int, low: int): int {
    256 * high + low
  }

  /** The field is what the length says, or all there is; nothing is lost. */
  lemma UnpackFieldExact(data: bytes)
    ensures UnpackField(data) == None <==> |data| < 2
    ensures |data| >= 2 ==>
      var (field, rest) := UnpackField(data).value;
      field + rest == data[2..] && |field| == Min(TwoBytes(data[0], data[1]), |data| - 2)
  {
    if |data| >= 2 {
      Limits();
      UnpackFirst(data[..2]);
      UnpackFirst(data[..2][1..]);
    }
  }

  function PackHello(cert: bytes, public: bytes): Option<bytes> {
    match (PackField(cert), PackField(public))
    case (Some(c), Some(p)) => Some(c + p)
    case _ => None
  }

  datatype Hello = Hello(cert: bytes, public: bytes, rest: bytes)

  function UnpackHello(payload: bytes): Option<Hello> {
    match UnpackField(payload)
    case None => None
    case Some((cert, afterCert)) =>
      match UnpackField(afterCert)
      case None => None
      case Some((public, rest)) => Some(Hello(cert, public, rest))
  }

  lemma UnpackPackedHello(cert: bytes, public: bytes, rest: bytes)
    requires PackHello(cert, public).Some?
    ensures UnpackHello(PackHello(cert, public).value + rest) == Some(Hello(cert, public, rest))
  {
    var c, p := PackField(cert).value, PackField(public).value;
    assert (c + p) + rest == c + (p + rest);
    UnpackPackedField(cert, p + rest);
    UnpackPackedField(public, rest);
  }

  function PackServerHello(cert: bytes, public: bytes, sig: bytes): Option<bytes> {
    match (PackHello(cert, public), PackField(sig))
    case (Some(h), Some(s)) => Some(h + s)
    case _ => None
  }

  /** A control message body of the given type and session on the wire and back. */
  lemma HandshakeRoundTrip(t: MessageType, id: SessionId, body: bytes)
    ensures var d := DecodePacket(EncodeHandshake(t, SessionNumberOf(id), body));
      && d.Some? && d.value.opcode == Opcode.Control
      && SessionBytes(d.value.session) == id
      && d.value.payload != [] && MessageOf(d.value.payload[0]) == Some(t)
      && d.value.payload[1..] == body
  {
    DecodeEncode(Opcode.Control, SessionNumberOf(id), [MessageByte(t)] + body);
    SessionBytesOfNumber(id);
  }

  /** SERVER_HELLO survives packing, handshake header and packet header, for all field lengths. */
  lemma ServerHelloRoundTrip(id: SessionId, cert: bytes, public: bytes, sig: bytes)
    requires |cert| < 0x1_0000 && |public| < 0x1_0000 && |sig| < 0x1_0000
    ensures PackServerHello(cert, public, sig).Some?
    ensures var body := PackServerHello(cert, public, sig).value;
      var d := DecodePacket(EncodeHandshake(ServerHello, SessionNumberOf(id), body));
      && d.Some? && SessionBytes(d.value.session) == id
      && d.value.payload != [] && MessageOf(d.value.payload[0]) == Some(ServerHello)
      && exists rest :: UnpackHello(d.value.payload[1..]) == Some(Hello(cert, public, rest))
                        && UnpackField(rest) == Some((sig, []))
  {
    var body := PackServerHello(cert, public, sig).value;
    HandshakeRoundTrip(ServerHello, id, body);
    var rest := PackField(sig).value;
    UnpackPackedHello(cert, public, rest);
    assert rest + [] == rest;
    UnpackPackedField(sig, []);
  }

  /** So does CLIENT_HELLO. */
  lemma ClientHelloRoundTrip(id: SessionId, cert: bytes, public: bytes)
    requires |cert| < 0x1_0000 && |public| < 0x1_0000
    ensures PackHello(cert, public).Some?
    ensures var d := DecodePacket(EncodeHandshake(ClientHello, SessionNumberOf(id), PackHello(cert, public).value));
      && d.Some? && SessionBytes(d.value.session) == id
      && d.value.payload != [] && MessageOf(d.value.payload[0]) == Some(ClientHello)
      && UnpackHello(d.value.payload[1..]) == Some(Hello(cert, public, []))
  {
    var body := PackHello(cert, public).value;
    HandshakeRoundTrip(ClientHello, id, body);
    assert body + [] == body;
    UnpackPackedHello(cert, public, []);
  }

  /** So does CLIENT_FINISHED. */
  lemma FinishedRoundTrip(id: SessionId, sig: bytes)
    requires |sig| < 0x1_0000
    ensures PackField(sig).Some?
    ensures var d := DecodePacket(EncodeHandshake(ClientFinished, SessionNumberOf(id), PackField(sig).value));
      && d.Some? && SessionBytes(d.value.session) == id
      && d.value.payload != [] && MessageOf(d.value.payload[0]) == Some(ClientFinished)
      && UnpackField(d.value.payload[1..]) == Some((sig, []))
  {
    var body := PackField(sig).value;
    HandshakeRoundTrip(ClientFinished, id, body);
    assert body + [] == body;
    UnpackPackedField(sig, []);
  }

  // ---- The handlers ----

  /** The session after a handler, and the packets it returns; None if it raises. */
  type Handled = (SessionValue, Option<seq<bytes>>)

  function ResetPacket(op: Opcode, id: SessionId): bytes {
    EncodePacket(op, SessionNumberOf(id), [])
  }

  function Failed(s: SessionValue): Handled {
    (s.(state := Error), Some([]))
  }

  function ClientStartHandshake(s: SessionValue): Handled {
    (s.(state := ResetSent), Some([ResetPacket(HardResetClient, s.id)]))
  }

  function ServerHandleReset(s: SessionValue, raw: bytes): Handled {
    match DecodePacket(raw)
    case None => (s, None)
    case Some(d) =>
      if d.opcode != HardResetClient then (s, Some([]))
      else (s.(peerId := Some(SessionBytes(d.session)), state := ResetRcvd),
            Some([ResetPacket(HardResetServer, s.id)]))
  }

  function ClientHandleResetAck(cr: Crypto, s: SessionValue, raw: bytes): Handled {
    match DecodePacket(raw)
    case None => (s, None)
    case Some(d) =>
      if d.opcode != HardResetServer then (s, Some([]))
      else
        var s' := s.(peerId := Some(SessionBytes(d.session)), state := ResetRcvd);
        match PackHello(CertBytes(s.credentials), cr.publicOf(s.privateKey))
        case None => (s', None)
        case Some(body) => (s', Some([EncodeHandshake(ClientHello, SessionNumberOf(s.id), body)]))
  }

  /** Storing the peer's public key and certificate, checking the certificate, deriving the
      key. The flag says whether all of it went through. */
  function AcceptHello(cr: Crypto, s: SessionValue, hello: Hello): (SessionValue, bool) {
    var s1 := s.(peerPublic := Some(hello.public));
    match LoadPeerCert(cr, hello.cert)
    case None => (s1, false)
    case Some(peerCert) =>
      var s2 := s1.(peerCert := peerCert);
      if !PeerCertAccepted(cr, s2.credentials, s2.peerCert) then (s2, false)
      else
        match DeriveKey(cr, s2, hello.public)
        case None => (s2, false)
        case Some(key) => (s2.(key := Some(key)), true)
  }

  /** The peer's certificate parses and is issued by the session's CA; without credentials
      there need be none. */
  predicate CertFits(cr: Crypto, s: SessionValue, cert: bytes) {
    if cert == [] then s.credentials == None
    else
      match cr.loadCert(cert)
      case None => false
      case Some(c) => s.credentials.Some? ==> cr.issued(c, s.credentials.value.ca)
  }

  /** A hello is accepted exactly if its certificate fits and the key exchange works. The key is
      then derived with the two session ids, the lesser first; otherwise no key is touched. */
  lemma AcceptHelloExact(cr: Crypto, s: SessionValue, hello: Hello, lo: bytes, hi: bytes)
    requires LesserFirst(s.id, if s.peerId.Some? then s.peerId.value else [], lo, hi)
    ensures var (s', ok) := AcceptHello(cr, s, hello);
      var shared := cr.exchange(s.privateKey, hello.public);
      && (ok <==> CertFits(cr, s, hello.cert) && shared.Some?)
      && (ok ==> s'.key == Some(cr.kdf(shared.value, lo + hi))
                 && s'.peerCert == (if hello.cert == [] then None else cr.loadCert(hello.cert)))
      && (!ok ==> s'.key == s.key)
      && s' == s.(peerPublic := Some(hello.public), peerCert := s'.peerCert, key := s'.key)
  {
    SaltIsInOrder(s.id, if s.peerId.Some? then s.peerId.value else [], lo, hi);
  }

  function ServerHandleClientHello(cr: Crypto, s: SessionValue, payload: bytes): Handled {
    match UnpackHello(payload)
    case None => Failed(s)
    case Some(hello) =>
      var (s', ok) := AcceptHello(cr, s, hello);
      if !ok then Failed(s')
      else
        var mine := cr.publicOf(s'.privateKey);
        match Sign(cr, s'.credentials, hello.public + mine)
        case None => Failed(s')
        case Some(sig) =>
          match PackServerHello(CertBytes(s'.credentials), mine, sig)
          case None => Failed(s')
          case Some(body) =>
            (s'.(state := HelloSent), Some([EncodeHandshake(ServerHello, SessionNumberOf(s'.id), body)]))
  }

  function ClientHandleServerHello(cr: Crypto, s: SessionValue, payload: bytes): Handled {
    match UnpackHello(payload)
    case None => Failed(s)
    case Some(hello) =>
      match UnpackField(hello.rest)
      case None => Failed(s.(peerPublic := Some(hello.public)))
      case Some((sig, _)) =>
        var (s', ok) := AcceptHello(cr, s, hello);
        var data := cr.publicOf(s.privateKey) + hello.public;
        if !ok || !SignatureAccepted(cr, s'.peerCert, data, sig) then Failed(s')
        else
          match Sign(cr, s'.credentials, data)
          case None => Failed(s')
          case Some(finish) =>
            match PackField(finish)
            case None => Failed(s')
            case Some(body) =>
              (s'.(state := Established),
               Some([EncodeHandshake(ClientFinished, SessionNumberOf(s'.id), body)]))
  }

  function ServerHandleClientFinished(cr: Crypto, s: SessionValue, payload: bytes): Handled {
    match UnpackField(payload)
    case None => Failed(s)
    case Some((sig, _)) =>
      var theirs := if s.peerPublic.Some? then s.peerPublic.value else [];
      if !SignatureAccepted(cr, s.peerCert, theirs + cr.publicOf(s.privateKey), sig) then Failed(s)
      else (s.(state := Established), Some([]))
  }

  /** On any bytes at all, a handler answers with one packet, or fails and says nothing. */
  lemma AnswersOrFails(cr: Crypto, s: SessionValue, payload: bytes)
    ensures var (s', packets) := ServerHandleClientHello(cr, s, payload);
      && packets.Some? && |packets.value| <= 1
      && s'.state == (if packets.value == [] then Error else HelloSent)
    ensures var (s', packets) := ClientHandleServerHello(cr, s, payload);
      && packets.Some? && |packets.value| <= 1
      && s'.state == (if packets.value == [] then Error else Established)
  {
  }

  /** The client's last message establishes the server exactly if the peer presented no
      certificate, or one that verifies the signature of the client's key and then the server's. */
  lemma FinishedExact(cr: Crypto, s: SessionValue, payload: bytes, theirs: bytes)
    requires s.peerPublic == Some(theirs)
    ensures var (s', packets) := ServerHandleClientFinished(cr, s, payload);
      && packets == Some([]) && s' == s.(state := s'.state) && s'.state in {Established, Error}
      && (s'.state == Established <==>
            |payload| >= 2
            && (s.peerCert.Some? ==>
                  exists sig, rest :: sig + rest == payload[2..]
                                      && |sig| == Min(TwoBytes(payload[0], payload[1]), |payload| - 2)
                                      && cr.verify(s.peerCert.value, theirs + cr.publicOf(s.privateKey), sig)))
  {
    UnpackFieldExact(payload);
    if |payload| >= 2 {
      var (sig, rest) := UnpackField(payload).value;
      forall other: bytes, more: bytes | other + more == payload[2..] && |other| == |sig|
        ensures other == sig
      {
        assert other == payload[2..][..|sig|];
        assert sig == payload[2..][..|sig|];
      }
    }
  }

  // ---- Dispatch ----

  /** What the server's handle_udp_data does to a session on a datagram: the session, the
      packets sent back, and whether a control handler ran. */
  function ServerDispatch(cr: Crypto, s: SessionValue, raw: bytes): (SessionValue, seq<bytes>, bool) {
    if raw == [] then (s, [], false)
    else if raw[0] == OpcodeByte(HardResetClient) then
      var (s', packets) := ServerHandleReset(s, raw);
      (s', if packets.Some? then packets.value else [], false)
    else if raw[0] != OpcodeByte(Opcode.Control) then (s, [], false)
    else
      match DecodePacket(raw)
      case None => (s, [], false)
      case Some(d) =>
        if d.payload == [] then (s, [], false)
        else
          match MessageOf(d.payload[0])
          case Some(ClientHello) =>
            var (s', packets) := ServerHandleClientHello(cr, s, d.payload[1..]);
            (s', if packets.Some? then packets.value else [], true)
          case Some(ClientFinished) =>
            var (s', packets) := ServerHandleClientFinished(cr, s, d.payload[1..]);
            (s', if packets.Some? then packets.value else [], true)
          case _ => (s, [], false)
  }

  /** The same for the client. */
  function ClientDispatch(cr: Crypto, s: SessionValue, raw: bytes): (SessionValue, seq<bytes>) {
    if raw == [] then (s, [])
    else if raw[0] == OpcodeByte(HardResetServer) then
      var (s', packets) := ClientHandleResetAck(cr, s, raw);
      (s', if packets.Some? then packets.value else [])
    else if raw[0] != OpcodeByte(Opcode.Control) then (s, [])
    else
      match DecodePacket(raw)
      case None => (s, [])
      case Some(d) =>
        if d.payload == [] then (s, [])
        else if MessageOf(d.payload[0]) == Some(ServerHello) then
          var (s', packets) := ClientHandleServerHello(cr, s, d.payload[1..]);
          (s', if packets.Some? then packets.value else [])
        else (s, [])
  }

  // ---- Packets beside the handshake ----

  /** The packet that tells a client its address. */
  function IpAssignPacket(id: SessionId, text: bytes): bytes {
    EncodePacket(Opcode.Control, SessionNumberOf(id), [MessageByte(IpAssign)] + text)
  }

  function KeepalivePacket(id: SessionId): bytes {
    EncodePacket(Opcode.Control, SessionNumberOf(id), [MessageByte(Keepalive)])
  }

  /** The message of a control packet and what follows its type; the inner None is the
      ValueError of an unknown type. */
  function ControlMessage(raw: bytes): Option<(Option<MessageType>, bytes)> {
    if raw == [] || raw[0] != OpcodeByte(Opcode.Control) then None
    else
      match DecodePacket(raw)
      case None => None
      case Some(d) => if d.payload == [] then None else Some((MessageOf(d.payload[0]), d.payload[1..]))
  }

  lemma IpAssignRoundTrip(id: SessionId, text: bytes)
    ensures ControlMessage(IpAssignPacket(id, text)) == Some((Some(IpAssign), text))
    ensures ControlMessage(KeepalivePacket(id)) == Some((Some(Keepalive), []))
  {
    DecodeEncode(Opcode.Control, SessionNumberOf(id), [MessageByte(IpAssign)] + text);
    DecodeEncode(Opcode.Control, SessionNumberOf(id), [MessageByte(Keepalive)]);
    assert ([MessageByte(IpAssign)] + text)[1..] == text;
    assert [MessageByte(Keepalive)][1..] == [];
  }

  /** Whether the dispatch of a packet raises at the server: a reset too short to decode, or a
      control message of unknown type. */
  predicate ServerRaises(raw: bytes) {
    if raw != [] && raw[0] == OpcodeByte(HardResetClient) then |raw| < HEADER_SIZE
    else ControlMessage(raw).Some? && ControlMessage(raw).value.0 == None
  }

  /** The same at the client, whose answer to a reset may also be a hello too long to pack;
      isText says which bytes decode as UTF-8. */
  predicate ClientRaises(cr: Crypto, s: SessionValue, isText: bytes -> bool, raw: bytes) {
    if raw != [] && raw[0] == OpcodeByte(HardResetServer) then
      |raw| < HEADER_SIZE || PackHello(CertBytes(s.credentials), cr.publicOf(s.privateKey)) == None
    else
      match ControlMessage(raw)
      case Some((None, _)) => true
      case Some((Some(IpAssign), text)) => !isText(text)
      case _ => false
  }
}
