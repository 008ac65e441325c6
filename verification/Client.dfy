/** The VpnClient object (src/client.py): one connection, from its first reset until it gives
    up. */
module Client {
  import opened Bytes
  import opened Packet
  import opened Control
  import opened Endpoint
  import opened Sessions
  import opened DataChannels
  import Data

  /** assignedIp is the text of the address, as the server sent it. */
  datatype ClientState = ClientState(
    session: SessionValue, data: Option<DataState>, handshakeDone: bool, assignedIp: Option<bytes>, lastSeen: real)

  /** handle_udp_data: the new state, the handshake packets sent, and what decrypt made of a
      data packet. */
  function Receive(env: Env, c: ClientState, raw: bytes, now: real): (ClientState, seq<bytes>, Data.Outcome) {
    if raw == [] then (c, [], Data.Dropped)
    else
      var seen := c.(lastSeen := now);
      if raw[0] == OpcodeByte(Opcode.Data) then
        if c.data.None? then (seen, [], Data.Dropped)
        else
          var (rx, outcome) := Data.Decrypt(c.data.value.channel, c.data.value.rx, raw, now);
          (seen.(data := Some(c.data.value.(rx := rx))), [], outcome)
      else
        var (session, packets) := ClientDispatch(env.crypto, c.session, raw);
        (seen.(session := session, assignedIp := Assigned(env, c, raw)), packets, Data.Dropped)
  }

  /** The client's address after a packet. */
  function Assigned(env: Env, c: ClientState, raw: bytes): Option<bytes> {
    match ControlMessage(raw)
    case Some((Some(IpAssign), text)) => if env.isText(text) then Some(text) else c.assignedIp
    case _ => c.assignedIp
  }

  /** The answer to a keepalive. */
  function Echo(c: ClientState, raw: bytes): seq<bytes> {
    match ControlMessage(raw)
    case Some((Some(Keepalive), _)) => [KeepalivePacket(c.session.id)]
    case _ => []
  }

  /** Whether handle_udp_data raises. */
  function Raises(env: Env, c: ClientState, raw: bytes, now: real): bool {
    ClientRaises(env.crypto, c.session, env.isText, raw) || Receive(env, c, raw, now).2.Raised?
  }

  /** A turn of the connection loop: fragments expire, the data channel is built once, and the
      flag says whether the client gives up. */
  function Tick(env: Env, c: ClientState, now: real): (ClientState, bool) {
    var expired := c.(data := ExpireData(c.data, now));
    var c' := if !c.handshakeDone && c.session.state == Established
              then expired.(handshakeDone := true, data := Some(NewData(env, c.session)))
              else expired;
    (c', c'.handshakeDone && now - c'.lastSeen > env.keepaliveTimeout)
  }

  /** The client has a data channel, and an address that is not the empty text. */
  predicate CanSend(c: ClientState) {
    c.handshakeDone && c.data.Some? && c.assignedIp.Some? && c.assignedIp.value != []
  }

  /** A packet read from the TUN device: the new state and the packets sent, None if encrypt
      raises. */
  function Send(c: ClientState, plain: bytes, nonces: nat -> Data.Nonce): (ClientState, Option<seq<bytes>>) {
    if !CanSend(c) || plain == [] then (c, Some([]))
    else
      var (counter, wires) := Data.Encrypt(c.data.value.channel, c.data.value.counter, plain, nonces);
      (c.(data := Some(c.data.value.(counter := counter))), wires)
  }

  class VpnClient {
    const env: Env
    const session: Session
    var data: DataChannel?
    var handshakeDone: bool
    var assignedIp: Option<bytes>
    var lastSeen: real
    ghost var Repr: set<object>

    ghost predicate Valid()
      reads this, Repr
    {
      && this in Repr && session in Repr
      && (data != null ==> data in Repr && data.replay in Repr && data.Valid())
    }

    ghost function Value(): ClientState
      requires Valid()
      reads this, Repr
    {
      ClientState(session.Value(),
                  if data == null then None else Some(DataState(data.params, data.packetCounter, data.State())),
                  handshakeDone, assignedIp, lastSeen)
    }

    constructor (env: Env, id: SessionId, privateKey: PrivateKey, now: real)
      ensures Valid() && fresh(Repr) && this.env == env
      ensures Value() == ClientState(NewSession(id, privateKey, env.credentials, now), None, false, None, now)
    {
      this.env := env;
      this.session := new Session(id, privateKey, env.credentials, now);
      this.data := null;
      this.handshakeDone := false;
      this.assignedIp := None;
      this.lastSeen := now;
      this.Repr := {this, session};
    }

    /** Everything but data packets: the handshake packets sent, the answer to a keepalive, and
        whether the call raises. */
    method RunHandler(raw: bytes) returns (packets: seq<bytes>, echo: seq<bytes>, raised: bool)
      requires Valid() && raw != [] && raw[0] != OpcodeByte(Opcode.Data)
      modifies session, this`assignedIp
      ensures Valid()
      ensures (session.Value(), packets) == ClientDispatch(env.crypto, old(session.Value()), raw)
      ensures assignedIp == Assigned(env, old(Value()), raw) && echo == Echo(old(Value()), raw)
      ensures raised == ClientRaises(env.crypto, old(session.Value()), env.isText, raw)
    {
      packets, echo, raised := [], [], false;
      if raw[0] == OpcodeByte(HardResetServer) {
        var sent := session.ClientHandleResetAck(env.crypto, raw);
        packets := if sent.Some? then sent.value else [];
        raised := sent.None?;
        return;
      }
      if raw[0] != OpcodeByte(Opcode.Control) {
        return;
      }
      var decoded := DecodePacket(raw);
      if decoded.None? || decoded.value.payload == [] {
        return;
      }
      var inner := decoded.value.payload[1..];
      match MessageOf(decoded.value.payload[0]) {
        case Some(ServerHello) =>
          var sent := session.ClientHandleServerHello(env.crypto, inner);
          packets := if sent.Some? then sent.value else [];
        case Some(IpAssign) =>
          if env.isText(inner) {
            assignedIp := Some(inner);
          } else {
            raised := true;
          }
        case Some(Keepalive) => echo := [KeepalivePacket(session.id)];
        case Some(_) =>
        case None => raised := true;
      }
    }

    method HandleUdpData(raw: bytes, now: real)
      returns (packets: seq<bytes>, echo: seq<bytes>, outcome: Data.Outcome, raised: bool)
      requires Valid()
      modifies Repr
      ensures Valid() && Repr == old(Repr)
      ensures (Value(), packets, outcome) == Receive(env, old(Value()), raw, now)
      ensures echo == Echo(old(Value()), raw) && raised == Raises(env, old(Value()), raw, now)
    {
      packets, echo, outcome, raised := [], [], Data.Dropped, false;
      if raw == [] {
        return;
      }
      lastSeen := now;
      if raw[0] == OpcodeByte(Opcode.Data) {
        if data != null {
          outcome := data.Decrypt(raw, now);
          raised := outcome.Raised?;
        }
      } else {
        packets, echo, raised := RunHandler(raw);
      }
    }

    /** The body of the connection loop. */
    method Turn(now: real) returns (givesUp: bool)
      requires Valid()
      modifies Repr
      ensures Valid() && fresh(Repr - old(Repr))
      ensures (Value(), givesUp) == Tick(env, old(Value()), now)
    {
      if data != null {
        data.CleanupFragments(now);
      }
      if !handshakeDone && session.state == Established {
        handshakeDone := true;
        var peers := if session.peerId.Some? then session.peerId.value else [];
        data := new DataChannel(session.id, peers, session.key, env.aead, env.codec, env.compLzo, REPLAY_WINDOW);
        Repr := Repr + {data, data.replay};
      }
      givesUp := handshakeDone && now - lastSeen > env.keepaliveTimeout;
    }

    /** _on_tun_readable */
    method OnTunReadable(plain: bytes, nonces: nat -> Data.Nonce) returns (wires: Option<seq<bytes>>)
      requires Valid()
      modifies Repr
      ensures Valid() && Repr == old(Repr)
      ensures (Value(), wires) == Send(old(Value()), plain, nonces)
    {
      if !handshakeDone || data == null || assignedIp == None || assignedIp == Some([]) || plain == [] {
        return Some([]);
      }
      wires := data.Encrypt(plain, nonces);
    }
  }
}
