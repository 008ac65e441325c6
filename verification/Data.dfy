/** The data channel (src/protocol/data.py): numbering, fragmentation, compression and
    sealing on one side; replay check, opening and reassembly on the other. */
module Data {
  import opened Bits
  import opened Bytes
  import opened Packet
  import opened Replay

  const COMP_NONE: byte := 0
  const COMP_LZO: byte := 1
  const FRAG_MASK: byte := 0x80
  const MAX_PAYLOAD := 1400
  const FRAG_TIMEOUT: real := 5.0
  const NONCE_SIZE := 12
  const TAG_SIZE := 16

  // ---- The cryptography and the codec the channel is given ----

  type Nonce = b: bytes | |b| == 12 witness seq(12, i => 0)

  /** AES-256-GCM as src/crypto/cipher.py uses it: `seal` takes key, nonce, plaintext and
      associated data, `open` takes key, nonce with ciphertext, and associated data, and
      None is the exception of a failed authentication. */
  datatype Aead = Aead(
    seal: (Key, Nonce, bytes, bytes) -> bytes,
    open: (Key, bytes, bytes) -> Option<bytes>)

  /** What the channel relies on: sizes, opening what was sealed, and refusing any other
      associated data of the same length. */
  ghost predicate Ideal(a: Aead) {
    && (forall k: Key, n: Nonce, x: bytes, aad: bytes {:trigger a.seal(k, n, x, aad)} ::
          && |a.seal(k, n, x, aad)| == NONCE_SIZE + |x| + TAG_SIZE
          && a.open(k, a.seal(k, n, x, aad), aad) == Some(x))
    && (forall k: Key, n: Nonce, x: bytes, aad: bytes, aad': bytes
          {:trigger a.open(k, a.seal(k, n, x, aad), aad')} ::
          |aad| == |aad'| <= TAG_SIZE && aad != aad' ==>
          a.open(k, a.seal(k, n, x, aad), aad') == None)
  }

  /** LZ4, and whether the library is installed. */
  datatype Codec = Codec(
    compress: bytes -> bytes,
    decompress: bytes -> Option<bytes>,
    available: bool)

  ghost predicate Lossless(c: Codec) {
    forall x: bytes {:trigger c.compress(x)} :: c.decompress(c.compress(x)) == Some(x)
  }

  type SharedId = b: bytes | |b| <= 8 witness []

  /** What one endpoint's channel is built with. A key of None is a session that reached
      ESTABLISHED without deriving a cipher: sealing raises and opening fails. */
  datatype Channel = Channel(sharedId: SharedId, key: Option<Key>, aead: Aead, codec: Codec, compLzo: bool)

  /** zip stops at the shorter id. */
  function DeriveSessionId(ours: SessionId, peers: bytes): SharedId {
    XorBytes(ours, peers)
  }

  function NewChannel(ours: SessionId, peers: bytes, key: Option<Key>, aead: Aead, codec: Codec,
                      compLzo: bool): Channel {
    Channel(DeriveSessionId(ours, peers), key, aead, codec, compLzo && codec.available)
  }

  // ---- Sending ----

  /** The number of packets one plaintext takes. */
  function PacketCount(plain: bytes): (n: nat)
    ensures n >= 1
  {
    if |plain| <= MAX_PAYLOAD then 1 else (|plain| + MAX_PAYLOAD - 1) / MAX_PAYLOAD
  }

  /** plaintext[offset:offset + MAX_PAYLOAD] with offset = i * MAX_PAYLOAD */
  function Chunk(plain: bytes, i: nat): bytes {
    plain[Min(i * MAX_PAYLOAD, |plain|)..Min((i + 1) * MAX_PAYLOAD, |plain|)]
  }

  /** The plaintext of packet i: the datagram itself, or a 3-byte header and a chunk. */
  function PacketPlain(plain: bytes, i: nat): bytes
    requires i < PacketCount(plain) <= 255
  {
    if |plain| <= MAX_PAYLOAD then plain
    else [FRAG_MASK, PacketCount(plain), i] + Chunk(plain, i)
  }

  /** The marker byte and the body that gets sealed. */
  function Inner(ch: Channel, p: bytes): bytes {
    if ch.compLzo && |p| > 32 then
      var compressed := ch.codec.compress(p);
      if |compressed| < |p| then [COMP_LZO] + compressed else [COMP_NONE] + p
    else [COMP_NONE] + p
  }

  predicate CounterFits(counter: nat) {
    counter < 0x1_0000_0000
  }

  function CounterBytes(counter: nat): (b: bytes)
    requires CounterFits(counter)
    ensures |b| == 4
  {
    Limits();
    Pack(4, counter)
  }

  function EncryptOne(ch: Channel, p: bytes, counter: nat, nonce: Nonce): (wire: bytes)
    requires ch.key.Some? && CounterFits(counter)
  {
    var counterBytes := CounterBytes(counter);
    var encrypted := ch.aead.seal(ch.key.value, nonce, Inner(ch, p), ch.sharedId + counterBytes);
    EncodePacket(Opcode.Data, SessionNumberOf(ch.sharedId), counterBytes + encrypted)
  }

  /** The packets of one plaintext whose first packet is numbered `start`. */
  function Sealed(ch: Channel, plain: bytes, start: nat, nonces: nat -> Nonce): (wires: seq<bytes>)
    requires ch.key.Some?
    requires PacketCount(plain) <= 255 && CounterFits(start + PacketCount(plain) - 1)
    ensures |wires| == PacketCount(plain)
  {
    seq(PacketCount(plain), i requires 0 <= i < PacketCount(plain) =>
      EncryptOne(ch, PacketPlain(plain, i), start + i, nonces(i)))
  }

  /** Whether encrypt can number and pack all packets. Otherwise it raises: struct.error when
      the packet total exceeds one byte or a counter four, AttributeError without a cipher. */
  predicate Encryptable(ch: Channel, counter: nat, plain: bytes) {
    ch.key.Some? && PacketCount(plain) <= 255 && CounterFits(counter + PacketCount(plain))
  }

  /** One encrypt call on a channel whose counter is `counter`: the new counter and the wire
      packets, None when the call raises (the counter has then moved by one). */
  function Encrypt(ch: Channel, counter: nat, plain: bytes, nonces: nat -> Nonce): (r: (nat, Option<seq<bytes>>))
  {
    if Encryptable(ch, counter, plain) then
      (counter + PacketCount(plain), Some(Sealed(ch, plain, counter + 1, nonces)))
    else (counter + 1, None)
  }

  // ---- Receiving ----

  /** A partly received datagram. */
  datatype Group = Group(total: nat, fragments: map<nat, bytes>, ts: real)

  /** The receiving half of a channel. */
  datatype Rx = Rx(window: Window, groups: map<int, Group>)

  function NewRx(size: nat): Rx {
    Rx(Fresh(size), map[])
  }

  /** What a decrypt call does: return None, return data, or raise KeyError. */
  datatype Outcome = Dropped | Delivered(data: bytes) | Raised

  function Decompress(codec: Codec, inner: bytes): Option<bytes>
    requires inner != []
  {
    if inner[0] == COMP_LZO then
      if !codec.available then None else codec.decompress(inner[1..])
    else if inner[0] == COMP_NONE then Some(inner[1..])
    else None
  }

  /** Counter bytes and sealed body of a wire packet; None if it does not decode or is too short. */
  function ParseWire(wire: bytes): (r: Option<(bytes, bytes)>)
    ensures r.Some? ==> |r.value.0| == 4
  {
    match DecodePacket(wire)
    case None => None
    case Some(d) =>
      if |d.payload| < 4 + NONCE_SIZE + TAG_SIZE + 1 then None
      else Some((d.payload[..4], d.payload[4..]))
  }

  /** Open and decompress the body of a packet that passed the replay check. */
  function OpenBody(ch: Channel, counterBytes: bytes, encrypted: bytes): Option<bytes> {
    if ch.key.None? then None
    else
      match ch.aead.open(ch.key.value, encrypted, ch.sharedId + counterBytes)
      case None => None
      case Some(inner) => if inner == [] then None else Decompress(ch.codec, inner)
  }

  predicate HasAll(fragments: map<nat, bytes>, n: nat) {
    forall i :: 0 <= i < n ==> i in fragments
  }

  /** b"".join of fragments 0 .. n-1. */
  function Join(fragments: map<nat, bytes>, n: nat): bytes
    requires HasAll(fragments, n)
  {
    if n == 0 then [] else Join(fragments, n - 1) + fragments[n - 1]
  }

  predicate IsFragment(plain: bytes) {
    plain != [] && And(plain[0], FRAG_MASK) != 0
  }

  /** File a fragment under the group of its first packet's number. */
  function AddFragment(groups: map<int, Group>, id: int, total: nat, index: nat, raw: bytes,
                       now: real): (map<int, Group>, Outcome) {
    var group := if id in groups then groups[id] else Group(total, map[], now);
    if group.total != total then (groups - {id}, Dropped)
    else
      var filled := group.(fragments := group.fragments[index := raw]);
      if |filled.fragments| != total then (groups[id := filled], Dropped)
      else if HasAll(filled.fragments, total) then
        (groups - {id}, Delivered(Join(filled.fragments, total)))
      else (groups[id := filled], Raised)
  }

  /** What is done with an opened plaintext. */
  function Absorb(groups: map<int, Group>, counter: nat, plain: bytes, now: real): (map<int, Group>, Outcome) {
    if !IsFragment(plain) then (groups, Delivered(plain))
    else if |plain| < 4 then (groups, Dropped)
    else AddFragment(groups, counter - plain[2], plain[1], plain[2], plain[3..], now)
  }

  /** What a wire packet says to a receiver: its number, and its plaintext if it opens. */
  datatype Reading = Unreadable | Reading(counter: nat, plain: Option<bytes>)

  function Read(ch: Channel, wire: bytes): Reading {
    match ParseWire(wire)
    case None => Unreadable
    case Some((counterBytes, encrypted)) =>
      Reading(Unpack(counterBytes), OpenBody(ch, counterBytes, encrypted))
  }

  /** The number under which an opened plaintext is handed out: that of the first packet of
      its datagram. */
  function Under(counter: nat, plain: bytes): int {
    if IsFragment(plain) && |plain| >= 4 then counter - plain[2] else counter
  }

  /** The same for a wire packet; -1 if it does not open. */
  function UnderOf(ch: Channel, wire: bytes): int {
    match Read(ch, wire)
    case Reading(counter, Some(plain)) => Under(counter, plain)
    case _ => -1
  }

  /** The window moves whether or not the packet opens. */
  function Admit(rx: Rx, counter: nat, plain: Option<bytes>, now: real): (Rx, Outcome) {
    var (window, ok) := Checked(rx.window, counter);
    if !ok || plain.None? then (rx.(window := window), Dropped)
    else
      var (groups, outcome) := Absorb(rx.groups, counter, plain.value, now);
      (Rx(window, groups), outcome)
  }

  /** One decrypt call. */
  function Decrypt(ch: Channel, rx: Rx, wire: bytes, now: real): (Rx, Outcome) {
    match Read(ch, wire)
    case Unreadable => (rx, Dropped)
    case Reading(counter, plain) => Admit(rx, counter, plain, now)
  }

  predicate Stale(g: Group, now: real) {
    now - g.ts > FRAG_TIMEOUT
  }

  /** The groups that cleanup_fragments leaves. */
  function Cleanup(groups: map<int, Group>, now: real): map<int, Group> {
    map id | id in groups && !Stale(groups[id], now) :: groups[id]
  }
}
