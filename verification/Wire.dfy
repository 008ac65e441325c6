/** The bytes on the wire, position by position, and which packets a receiver takes at all. */
module Wire {
  import opened Bytes
  import opened Packet
  import opened Control
  import opened Data
  import opened Fragments
  import Delivery

  function OpcodeNumber(op: Opcode): int {
    match op
    case HardResetClient => 1
    case HardResetServer => 2
    case Control => 3
    case Ack => 4
    case Data => 5
  }

  function MessageNumber(t: MessageType): int {
    match t
    case ClientHello => 1
    case ServerHello => 2
    case ClientFinished => 3
    case Keepalive => 4
    case Shutdown => 5
    case IpAssign => 6
  }

  /** One byte of opcode, eight of session number, the payload. */
  lemma PacketLayout(op: Opcode, session: SessionNumber, payload: bytes)
    ensures var r := EncodePacket(op, session, payload);
      && |r| == 9 + |payload|
      && r[0] == OpcodeNumber(op) && Unpack(r[1..9]) == session && r[9..] == payload
  {
    Limits();
    UnpackPack(8, session);
    assert EncodePacket(op, session, payload)[1..9] == Pack(8, session);
  }

  /** A packet decodes exactly if it has a header and one of the five opcodes. */
  lemma DecodeExact(raw: bytes)
    ensures DecodePacket(raw).Some? <==> |raw| >= 9 && 1 <= raw[0] <= 5
    ensures DecodePacket(raw).Some? ==>
      var d := DecodePacket(raw).value;
      OpcodeNumber(d.opcode) == raw[0] && d.session == Unpack(raw[1..9]) && d.payload == raw[9..]
  {
  }

  /** A control message has its type in the tenth byte. */
  lemma MessageLayout(t: MessageType, session: SessionNumber, body: bytes)
    ensures var r := EncodeHandshake(t, session, body);
      |r| == 10 + |body| && r[0] == 3 && Unpack(r[1..9]) == session && r[9] == MessageNumber(t) && r[10..] == body
  {
    var payload := [MessageByte(t)] + body;
    PacketLayout(Control, session, payload);
    var r := EncodePacket(Control, session, payload);
    assert r[9] == r[9..][0] && r[10..] == r[9..][1..];
  }

  lemma ControlMessageExact(raw: bytes)
    ensures ControlMessage(raw).Some? <==> |raw| >= 10 && raw[0] == 3
    ensures ControlMessage(raw).Some? ==>
      var (t, body) := ControlMessage(raw).value;
      && body == raw[10..]
      && (t.Some? <==> 1 <= raw[9] <= 6) && (t.Some? ==> MessageNumber(t.value) == raw[9])
  {
    DecodeExact(raw);
    if |raw| >= 10 {
      assert raw[9..][0] == raw[9] && raw[9..][1..] == raw[10..];
    }
  }

  /** A reset is its opcode and the sender's id. */
  lemma ResetLayout(op: Opcode, id: SessionId)
    ensures ResetPacket(op, id) == [OpcodeNumber(op)] + id
  {
    PackUnpack(id);
  }

  /** The client starts with its own reset; a reset from the client, at any time, makes its bytes
      1 to 8 the peer's id and is answered with the server's; any other packet is ignored, and one
      that does not decode raises. */
  lemma ResetsExact(s: SessionValue, raw: bytes)
    ensures ClientStartHandshake(s) == (s.(state := ResetSent), Some([[1] + s.id]))
    ensures ServerHandleReset(s, raw) ==
      if |raw| < 9 || raw[0] < 1 || raw[0] > 5 then (s, None)
      else if raw[0] != 1 then (s, Some([]))
      else (s.(peerId := Some(raw[1..9]), state := ResetRcvd), Some([[2] + s.id]))
  {
    ResetLayout(HardResetClient, s.id);
    ResetLayout(HardResetServer, s.id);
    DecodeExact(raw);
    if |raw| >= 9 {
      PackUnpack(raw[1..9]);
    }
  }

  /** A field with its length in two bytes before it. */
  function Prefixed(field: bytes): bytes
    requires |field| < 65536
  {
    [|field| / 256, |field| % 256] + field
  }

  lemma PackFieldExact(field: bytes)
    ensures PackField(field).Some? <==> |field| < 65536
    ensures |field| < 65536 ==> PackField(field) == Some(Prefixed(field))
  {
    if |field| < 65536 {
      Limits();
      var n := |field|;
      assert Pack(1, n / 256) == [] + [n / 256 % 256];
      assert Pack(2, n) == [n / 256, n % 256];
    }
  }

  /** The certificate a session shows: none without credentials. */
  function Shown(s: SessionValue): bytes {
    match s.credentials case None => [] case Some(c) => c.certBytes
  }

  /** sig is the session's signature of data: none without credentials. */
  ghost predicate Signs(cr: Crypto, s: SessionValue, data: bytes, sig: bytes) {
    match s.credentials case None => sig == [] case Some(c) => cr.sign(c.key, data) == Some(sig)
  }

  lemma HandshakeLayout(t: MessageType, id: SessionId, body: bytes)
    ensures EncodeHandshake(t, SessionNumberOf(id), body) == [3] + id + [MessageNumber(t)] + body
  {
    PackUnpack(id);
    assert [3] + id + ([MessageByte(t)] + body) == [3] + id + [MessageNumber(t)] + body;
  }

  /** The client's half: the server's reset is answered with the client's hello, its certificate
      and its public key, if both fit. */
  lemma ResetAckExact(cr: Crypto, s: SessionValue, raw: bytes)
    ensures var (s', packets) := ClientHandleResetAck(cr, s, raw);
      var public := cr.publicOf(s.privateKey);
      if |raw| < 9 || raw[0] < 1 || raw[0] > 5 then (s', packets) == (s, None)
      else if raw[0] != 2 then (s', packets) == (s, Some([]))
      else
        && s' == s.(peerId := Some(raw[1..9]), state := ResetRcvd)
        && packets == if |Shown(s)| < 65536 && |public| < 65536
                      then Some([[3] + s.id + [1] + (Prefixed(Shown(s)) + Prefixed(public))]) else None
  {
    DecodeExact(raw);
    PackFieldExact(Shown(s));
    PackFieldExact(cr.publicOf(s.privateKey));
    if |raw| >= 9 {
      PackUnpack(raw[1..9]);
      var body := PackHello(CertBytes(s.credentials), cr.publicOf(s.privateKey));
      if body.Some? {
        HandshakeLayout(ClientHello, s.id, body.value);
      }
    }
  }

  /** What the server answers to a hello, if it does: its certificate, its public key and its
      signature of the client's public key and then its own. */
  lemma ServerHelloExact(cr: Crypto, s: SessionValue, payload: bytes)
    requires var packets := ServerHandleClientHello(cr, s, payload).1; packets.Some? && packets.value != []
    ensures UnpackHello(payload).Some?
    ensures var mine := cr.publicOf(s.privateKey);
      exists sig ::
        && Signs(cr, s, UnpackHello(payload).value.public + mine, sig)
        && |Shown(s)| < 65536 && |mine| < 65536 && |sig| < 65536
        && ServerHandleClientHello(cr, s, payload).1
            == Some([[3] + s.id + [2] + (Prefixed(Shown(s)) + Prefixed(mine) + Prefixed(sig))])
  {
    var mine := cr.publicOf(s.privateKey);
    var sig := Sign(cr, s.credentials, UnpackHello(payload).value.public + mine).value;
    PackFieldExact(Shown(s));
    PackFieldExact(mine);
    PackFieldExact(sig);
    HandshakeLayout(ServerHello, s.id, PackServerHello(Shown(s), mine, sig).value);
    assert Signs(cr, s, UnpackHello(payload).value.public + mine, sig);
  }

  /** What the client answers to the server's hello, if it does: its signature of its own public
      key and then the server's. */
  lemma ClientFinishedExact(cr: Crypto, s: SessionValue, payload: bytes)
    requires var packets := ClientHandleServerHello(cr, s, payload).1; packets.Some? && packets.value != []
    ensures UnpackHello(payload).Some?
    ensures exists sig ::
      && Signs(cr, s, cr.publicOf(s.privateKey) + UnpackHello(payload).value.public, sig) && |sig| < 65536
      && ClientHandleServerHello(cr, s, payload).1 == Some([[3] + s.id + [3] + Prefixed(sig)])
  {
    var sig := Sign(cr, s.credentials, cr.publicOf(s.privateKey) + UnpackHello(payload).value.public).value;
    PackFieldExact(sig);
    HandshakeLayout(ClientFinished, s.id, Prefixed(sig));
    assert Signs(cr, s, cr.publicOf(s.privateKey) + UnpackHello(payload).value.public, sig);
  }

  /** The server's handlers raise exactly on a reset without a whole header and on a control
      message of unknown type. */
  lemma ServerRaisesExact(raw: bytes)
    ensures ServerRaises(raw) <==>
      raw != [] && ((raw[0] == 1 && |raw| < 9) || (raw[0] == 3 && |raw| >= 10 && !(1 <= raw[9] <= 6)))
  {
    ControlMessageExact(raw);
  }

  /** The client's also on an address that is no text, and if their hello is too long to pack. */
  lemma ClientRaisesExact(cr: Crypto, s: SessionValue, isText: bytes -> bool, raw: bytes)
    ensures ClientRaises(cr, s, isText, raw) <==>
      && raw != []
      && var tooLong := |CertBytes(s.credentials)| >= 65536 || |cr.publicOf(s.privateKey)| >= 65536;
         || (raw[0] == 2 && (|raw| < 9 || tooLong))
         || (raw[0] == 3 && |raw| >= 10 && (!(1 <= raw[9] <= 6) || (raw[9] == 6 && !isText(raw[10..]))))
  {
    ControlMessageExact(raw);
  }

  // ---- Data packets ----

  /** The marker byte and the bytes that follow it inside the seal. */
  ghost predicate Marked(tx: Channel, p: bytes, inner: bytes) {
    var compressed := tx.codec.compress(p);
    if tx.compLzo && |p| > 32 && |compressed| < |p| then inner == [1] + compressed else inner == [0] + p
  }

  /** After the header come four bytes of packet number, and what opens, with session id and
      number as associated data, to the marked plaintext. */
  lemma DataLayout(tx: Channel, p: bytes, counter: nat, nonce: Nonce)
    requires tx.key.Some? && CounterFits(counter) && Ideal(tx.aead)
    ensures var wire := EncryptOne(tx, p, counter, nonce);
      && |wire| >= 42 && wire[0] == 5 && Unpack(wire[1..9]) == Unpack(tx.sharedId) && Unpack(wire[9..13]) == counter
      && exists inner :: Marked(tx, p, inner)
                         && tx.aead.open(tx.key.value, wire[13..], tx.sharedId + wire[9..13]) == Some(inner)
  {
    var counterBytes, inner := CounterBytes(counter), Inner(tx, p);
    var body := tx.aead.seal(tx.key.value, nonce, inner, tx.sharedId + counterBytes);
    PacketLayout(Opcode.Data, SessionNumberOf(tx.sharedId), counterBytes + body);
    Limits();
    UnpackPack(4, counter);
    var wire := EncryptOne(tx, p, counter, nonce);
    assert wire[9..13] == wire[9..][..4] == counterBytes && wire[13..] == wire[9..][4..] == body;
    assert Marked(tx, p, inner);
  }

  /** What a packet says to a receiver, byte by byte. */
  ghost predicate Says(ch: Channel, wire: bytes, p: bytes)
    requires |wire| >= 42
  {
    && ch.key.Some?
    && match ch.aead.open(ch.key.value, wire[13..], ch.sharedId + wire[9..13])
       case None => false
       case Some(inner) =>
         if inner == [] then false
         else if inner[0] == 0 then p == inner[1..]
         else inner[0] == 1 && ch.codec.available && ch.codec.decompress(inner[1..]) == Some(p)
  }

  lemma ParseExact(wire: bytes)
    ensures ParseWire(wire).Some? <==> |wire| >= 42 && 1 <= wire[0] <= 5
    ensures ParseWire(wire).Some? ==> ParseWire(wire).value == (wire[9..13], wire[13..])
  {
    DecodeExact(wire);
    if |wire| >= 42 {
      assert wire[9..][..4] == wire[9..13] && wire[9..][4..] == wire[13..];
    }
  }

  /** A packet without an opcode, or too short to hold one sealed byte, is dropped and leaves the
      receiver untouched. Any other has the number in its bytes 9 to 12, and opens exactly to
      what it says: a byte 0 and the plaintext, or a byte 1 and something LZ4 makes it of. */
  lemma ReadExact(ch: Channel, wire: bytes, rx: Rx, now: real)
    ensures if |wire| < 42 || wire[0] < 1 || wire[0] > 5 then
              Read(ch, wire) == Unreadable && Decrypt(ch, rx, wire, now) == (rx, Dropped)
            else
              && Read(ch, wire).Reading? && Read(ch, wire).counter == Unpack(wire[9..13])
              && forall p :: Read(ch, wire).plain == Some(p) <==> Says(ch, wire, p)
  {
    ParseExact(wire);
  }

  /** A packet under another number than the one it was sealed with does not open. */
  lemma RenumberedDropped(tx: Channel, ch: Channel, p: bytes, counter: nat, nonce: Nonce, other: bytes)
    requires Matched(tx, ch) && CounterFits(counter) && |other| == 4 && other != CounterBytes(counter)
    ensures var wire := EncryptOne(tx, p, counter, nonce);
      var r := Read(ch, wire[..9] + other + wire[13..]);
      r == Reading(Unpack(other), None)
  {
    var counterBytes, inner := CounterBytes(counter), Inner(tx, p);
    var body := tx.aead.seal(tx.key.value, nonce, inner, tx.sharedId + counterBytes);
    var wire := EncryptOne(tx, p, counter, nonce);
    PacketLayout(Opcode.Data, SessionNumberOf(tx.sharedId), counterBytes + body);
    assert wire[13..] == wire[9..][4..] == body;
    var changed := wire[..9] + other + wire[13..];
    ParseExact(changed);
    assert changed[9..13] == other && changed[13..] == body && changed[0] == wire[0];
    OtherDataDropped(tx, nonce, inner, counterBytes, other);
  }

  lemma OtherDataDropped(tx: Channel, nonce: Nonce, inner: bytes, a: bytes, b: bytes)
    requires tx.key.Some? && Ideal(tx.aead) && |a| == |b| == 4 && a != b
    ensures tx.aead.open(tx.key.value, tx.aead.seal(tx.key.value, nonce, inner, tx.sharedId + a), tx.sharedId + b)
      == None
  {
    var n := |tx.sharedId|;
    assert (tx.sharedId + a)[n..] == a && (tx.sharedId + b)[n..] == b;
  }

  // ---- A fragment ----

  lemma FullExactly(fragments: map<nat, bytes>, n: nat)
    ensures |fragments| == |fragments.Keys|
    ensures |fragments| == n ==> (HasAll(fragments, n) <==> fragments.Keys == Below(n))
  {
    if |fragments| == n && HasAll(fragments, n) {
      SubsetOfSameSize(Below(n), fragments.Keys);
    }
  }

  /** Only the group id may differ. */
  ghost predicate OthersKept(before: map<int, Group>, after: map<int, Group>, id: int) {
    forall other :: other != id ==>
      (other in after <==> other in before) && (other in before && other in after ==> after[other] == before[other])
  }

  /** The group id has these fragments, and raw under the index. */
  ghost predicate Holding(groups: map<int, Group>, id: int, total: nat, before: map<nat, bytes>, index: nat,
                          raw: bytes) {
    && id in groups && groups[id].total == total
    && (forall i :: i in groups[id].fragments <==> i in before || i == index)
    && (forall i :: i in groups[id].fragments ==> groups[id].fragments[i] == if i == index then raw else before[i])
  }

  /** What becomes of any fragment, honest or not: under a group with another total it takes the
      group away; otherwise it is filed, and once there are as many as the total, the group is
      handed out if they are exactly those below the total, and stays as it is if not. */
  lemma FragmentExact(groups: map<int, Group>, id: int, total: nat, index: nat, raw: bytes, now: real)
    ensures var (after, outcome) := AddFragment(groups, id, total, index, raw, now);
      var before := Delivery.Collected(groups, id);
      var indices := before.Keys + {index};
      && OthersKept(groups, after, id)
      && if id in groups && groups[id].total != total then outcome == Dropped && id !in after
         else if |indices| == total && indices == Below(total) then outcome.Delivered? && id !in after
         else outcome == (if |indices| == total then Raised else Dropped)
              && Holding(after, id, total, before, index, raw)
  {
    var before := Delivery.Collected(groups, id);
    var filled := before[index := raw];
    FullExactly(filled, total);
    assert filled.Keys == before.Keys + {index};
  }
}
