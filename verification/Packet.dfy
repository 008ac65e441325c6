/** Packet headers and message types (src/protocol/packet.py, src/protocol/messages.py). */
module Packet {
  import opened Bytes

  datatype Opcode = HardResetClient | HardResetServer | Control | Ack | Data

  function OpcodeByte(op: Opcode): byte {
    match op
    case HardResetClient => 1
    case HardResetServer => 2
    case Control => 3
    case Ack => 4
    case Data => 5
  }

  function OpcodeOf(b: byte): Option<Opcode> {
    match b
    case 1 => Some(HardResetClient)
    case 2 => Some(HardResetServer)
    case 3 => Some(Control)
    case 4 => Some(Ack)
    case 5 => Some(Data)
    case _ => None
  }

  datatype MessageType = ClientHello | ServerHello | ClientFinished | Keepalive | Shutdown | IpAssign

  function MessageByte(t: MessageType): byte {
    match t
    case ClientHello => 1
    case ServerHello => 2
    case ClientFinished => 3
    case Keepalive => 4
    case Shutdown => 5
    case IpAssign => 6
  }

  function MessageOf(b: byte): Option<MessageType> {
    match b
    case 1 => Some(ClientHello)
    case 2 => Some(ServerHello)
    case 3 => Some(ClientFinished)
    case 4 => Some(Keepalive)
    case 5 => Some(Shutdown)
    case 6 => Some(IpAssign)
    case _ => None
  }

  type Key = bytes

  /** Every session draws an id of eight bytes. */
  type SessionId = b: bytes | |b| == 8 witness seq(8, i => 0)

  const HEADER_SIZE := 9

  /** A session id is packed as an unsigned 64-bit number. */
  type SessionNumber = x: int | 0 <= x < 0x1_0000_0000_0000_0000

  function EncodePacket(op: Opcode, session: SessionNumber, payload: bytes): (r: bytes)
    ensures |r| == HEADER_SIZE + |payload|
    ensures r[0] == OpcodeByte(op) && r[HEADER_SIZE..] == payload
  {
    Limits();
    [OpcodeByte(op)] + Pack(8, session) + payload
  }

  datatype Decoded = Decoded(opcode: Opcode, session: SessionNumber, payload: bytes)

  /** None stands for the ValueError of a short packet or an unknown opcode. */
  function DecodePacket(data: bytes): Option<Decoded> {
    if |data| < HEADER_SIZE then None
    else
      match OpcodeOf(data[0])
      case None => None
      case Some(op) =>
        Limits();
        Some(Decoded(op, Unpack(data[1..HEADER_SIZE]), data[HEADER_SIZE..]))
  }

  lemma DecodeEncode(op: Opcode, session: SessionNumber, payload: bytes)
    ensures DecodePacket(EncodePacket(op, session, payload)) == Some(Decoded(op, session, payload))
  {
    Limits();
    UnpackPack(8, session);
    var r := EncodePacket(op, session, payload);
    assert r[1..HEADER_SIZE] == Pack(8, session);
  }

  /** Decoding loses nothing: every packet that decodes is the encoding of what it decodes to. */
  lemma EncodeDecode(data: bytes)
    requires DecodePacket(data).Some?
    ensures var d := DecodePacket(data).value;
      EncodePacket(d.opcode, d.session, d.payload) == data
  {
    PackUnpack(data[1..HEADER_SIZE]);
    assert data == [data[0]] + data[1..HEADER_SIZE] + data[HEADER_SIZE..];
  }

  function EncodeHandshake(t: MessageType, session: SessionNumber, payload: bytes): (r: bytes)
    ensures |r| == HEADER_SIZE + 1 + |payload|
    ensures r[0] == OpcodeByte(Control)
  {
    EncodePacket(Control, session, [MessageByte(t)] + payload)
  }

  /** An 8-byte session id as the number in the header, and back. */
  function SessionNumberOf(id: bytes): SessionNumber
    requires |id| <= 8
  {
    Limits();
    LimitMonotone(|id|, 8);
    Unpack(id)
  }

  function SessionBytes(n: SessionNumber): (b: bytes)
    ensures |b| == 8
  {
    Limits();
    Pack(8, n)
  }

  lemma SessionBytesOfNumber(id: bytes)
    requires |id| == 8
    ensures SessionBytes(SessionNumberOf(id)) == id
  {
    PackUnpack(id);
  }
}
