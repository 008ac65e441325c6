/** Arithmetic of fragmentation, and what the receiver makes of one honest packet. */
module Fragments {
  import opened Bits
  import opened Bytes
  import opened Packet
  import opened Replay
  import opened Data

  // ---- Chunks ----

  lemma CountBounds(plain: bytes)
    requires |plain| > MAX_PAYLOAD
    ensures 2 <= PacketCount(plain)
    ensures (PacketCount(plain) - 1) * MAX_PAYLOAD < |plain| <= PacketCount(plain) * MAX_PAYLOAD
  {
  }

  /** A datagram of at most 1400 bytes takes one packet, as it is. */
  lemma OnePacketExact(plain: bytes)
    ensures PacketCount(plain) == 1 <==> |plain| <= 1400
    ensures |plain| <= 1400 ==> PacketPlain(plain, 0) == plain
  {
  }

  /** Every chunk has 1400 bytes but the last, which has between 1 and 1400. */
  lemma ChunkSize(plain: bytes, i: nat)
    requires |plain| > 1400 && i < PacketCount(plain)
    ensures if i < PacketCount(plain) - 1 then |Chunk(plain, i)| == 1400 else 1 <= |Chunk(plain, i)| <= 1400
  {
    CountBounds(plain);
  }

  /** The plaintext of a fragment: the flag, how many there are, which one it is, and its chunk. */
  lemma FragmentLayout(plain: bytes, i: nat)
    requires |plain| > 1400 && i < PacketCount(plain) <= 255
    ensures var p := PacketPlain(plain, i);
      |p| > 3 && p[0] == 0x80 && p[1] == PacketCount(plain) && p[2] == i && p[3..] == Chunk(plain, i)
  {
    ChunkSize(plain, i);
  }

  /** Fragments 0 .. n-1 hold the corresponding chunks. */
  ghost predicate Chunks(plain: bytes, fragments: map<nat, bytes>, n: nat) {
    forall i: nat :: i < n ==>
      i in fragments && fragments[i] == Chunk(plain, i)
  }

  lemma {:induction false} JoinPrefix(plain: bytes, fragments: map<nat, bytes>, n: nat)
    requires Chunks(plain, fragments, n)
    ensures Join(fragments, n) == plain[..Min(n * MAX_PAYLOAD, |plain|)]
  {
    if n > 0 {
      JoinPrefix(plain, fragments, n - 1);
      assert n - 1 in fragments;
    }
  }

  /** Joining all chunks gives the plaintext back. */
  lemma JoinAll(plain: bytes, fragments: map<nat, bytes>)
    requires |plain| > MAX_PAYLOAD && Chunks(plain, fragments, PacketCount(plain))
    ensures Join(fragments, PacketCount(plain)) == plain
  {
    CountBounds(plain);
    JoinPrefix(plain, fragments, PacketCount(plain));
  }

  ghost function Below(n: nat): (s: set<nat>)
    ensures |s| == n
    ensures forall i :: i in s <==> 0 <= i < n
  {
    if n == 0 then {} else Below(n - 1) + {n - 1}
  }

  /** n distinct indices below n are all of them. */
  lemma AllBelow(fragments: map<nat, bytes>, n: nat)
    requires forall i :: i in fragments ==> i < n
    ensures |fragments| == n <==> forall i :: 0 <= i < n ==> i in fragments
  {
    var keys := fragments.Keys;
    assert keys <= Below(n);
    assert |fragments| == |keys|;
    if |fragments| == n {
      SubsetOfSameSize(keys, Below(n));
    }
    if forall i :: 0 <= i < n ==> i in fragments {
      assert keys == Below(n);
    }
  }

  lemma SubsetOfSameSize<T>(a: set<T>, b: set<T>)
    requires a <= b && |a| == |b|
    ensures a == b
  {
    assert |b - a| == |b| - |a|;
    assert b == a + (b - a);
  }

  lemma SubsetSize<T>(a: set<T>, b: set<T>)
    requires a <= b
    ensures |a| <= |b|
  {
    assert |b - a| == |b| - |a|;
  }

  // ---- The fragment flag ----

  lemma FlagBit(b: byte)
    ensures And(b, FRAG_MASK) != 0 <==> b >= 0x80
  {
    assert Shl(1, 7) == 0x80;
    AndShlOne(b, 7);
    TopBit(b, 7);
  }

  /** The datagrams the receiver does not mistake for a fragment: longer than one packet,
      empty, or with the top bit of the first byte clear (as in every IP packet). */
  predicate Unambiguous(plain: bytes) {
    |plain| > MAX_PAYLOAD || plain == [] || plain[0] < 0x80
  }

  // ---- One packet on the wire ----

  /** The receiver can open what the sender seals: same session id, same key, and LZ4
      installed where the sender uses it. */
  ghost predicate Matched(tx: Channel, rx: Channel) {
    && tx.sharedId == rx.sharedId
    && tx.key.Some? && tx.key == rx.key
    && tx.aead == rx.aead
    && tx.codec.compress == rx.codec.compress && tx.codec.decompress == rx.codec.decompress
    && Ideal(tx.aead) && Lossless(tx.codec)
  }

  /** Counter bytes and sealed body of the packet EncryptOne makes. */
  function Payload(ch: Channel, p: bytes, counter: nat, nonce: Nonce): bytes
    requires ch.key.Some? && CounterFits(counter)
  {
    CounterBytes(counter) + ch.aead.seal(ch.key.value, nonce, Inner(ch, p), ch.sharedId + CounterBytes(counter))
  }

  /** No packet exceeds its plaintext by more than header, counter, nonce, tag and marker. */
  lemma WireSize(ch: Channel, p: bytes, counter: nat, nonce: Nonce)
    requires ch.key.Some? && CounterFits(counter) && Ideal(ch.aead)
    ensures |EncryptOne(ch, p, counter, nonce)| <= HEADER_SIZE + 4 + NONCE_SIZE + TAG_SIZE + 1 + |p|
  {
    var aad := ch.sharedId + CounterBytes(counter);
    assert |ch.aead.seal(ch.key.value, nonce, Inner(ch, p), aad)| == NONCE_SIZE + |Inner(ch, p)| + TAG_SIZE;
  }

  lemma PacketPlainSize(plain: bytes, i: nat)
    requires i < PacketCount(plain) <= 255
    ensures |PacketPlain(plain, i)| <= 3 + MAX_PAYLOAD
  {
    if |plain| > MAX_PAYLOAD {
      ChunkSize(plain, i);
    }
  }

  lemma SealedAt(ch: Channel, plain: bytes, start: nat, nonces: nat -> Nonce, i: nat)
    requires ch.key.Some?
    requires PacketCount(plain) <= 255 && CounterFits(start + PacketCount(plain) - 1)
    requires i < PacketCount(plain)
    ensures Sealed(ch, plain, start, nonces)[i] == EncryptOne(ch, PacketPlain(plain, i), start + i, nonces(i))
  {
  }

  /** Every packet of every encrypt call has at most 1445 bytes, compressed or not. */
  lemma EveryWireFits(ch: Channel, plain: bytes, start: nat, nonces: nat -> Nonce, i: nat)
    requires ch.key.Some? && Ideal(ch.aead)
    requires PacketCount(plain) <= 255 && CounterFits(start + PacketCount(plain) - 1)
    requires i < PacketCount(plain)
    ensures |Sealed(ch, plain, start, nonces)[i]| <= 1445
  {
    PacketPlainSize(plain, i);
    WireSize(ch, PacketPlain(plain, i), start + i, nonces(i));
  }

  /** The sender compresses p. */
  predicate Compressed(tx: Channel, p: bytes) {
    tx.compLzo && |p| > 32 && |tx.codec.compress(p)| < |p|
  }

  /** The receiver has LZ4 if it needs it. */
  predicate CanRead(tx: Channel, rx: Channel, p: bytes) {
    Compressed(tx, p) ==> rx.codec.available
  }

  function IfReadable(tx: Channel, rx: Channel, p: bytes): Option<bytes> {
    if CanRead(tx, rx, p) then Some(p) else None
  }

  /** Opening the body of a packet gives its plaintext, or nothing if it is compressed and there
      is no LZ4. */
  lemma OpenSealed(tx: Channel, rx: Channel, p: bytes, counter: nat, nonce: Nonce)
    requires Matched(tx, rx) && CounterFits(counter)
    ensures var payload := Payload(tx, p, counter, nonce);
      && |payload| >= 4 + NONCE_SIZE + TAG_SIZE + 1
      && payload[..4] == CounterBytes(counter)
      && Unpack(payload[..4]) == counter
      && OpenBody(rx, payload[..4], payload[4..]) == IfReadable(tx, rx, p)
  {
    var cb := CounterBytes(counter);
    Limits();
    UnpackPack(4, counter);
    var aad := tx.sharedId + cb;
    var inner := Inner(tx, p);
    var body := tx.aead.seal(tx.key.value, nonce, inner, aad);
    assert |body| == NONCE_SIZE + |inner| + TAG_SIZE && tx.aead.open(tx.key.value, body, aad) == Some(inner);
    var payload := Payload(tx, p, counter, nonce);
    assert payload[..4] == cb && payload[4..] == body;
    var compressed := tx.codec.compress(p);
    assert tx.codec.decompress(compressed) == Some(p);
    if inner[0] == COMP_LZO {
      assert inner == [COMP_LZO] + compressed;
      assert inner[1..] == compressed;
    } else {
      assert inner == [COMP_NONE] + p;
      assert inner[1..] == p;
    }
  }

  /** The wire packet carries exactly that payload. */
  lemma WirePayload(ch: Channel, p: bytes, counter: nat, nonce: Nonce)
    requires ch.key.Some? && CounterFits(counter)
    ensures DecodePacket(EncryptOne(ch, p, counter, nonce)) ==
            Some(Decoded(Opcode.Data, SessionNumberOf(ch.sharedId), Payload(ch, p, counter, nonce)))
  {
    DecodeEncode(Opcode.Data, SessionNumberOf(ch.sharedId), Payload(ch, p, counter, nonce));
  }

  /** What a matching receiver reads from a wire packet: its number, and its plaintext or,
      without LZ4, nothing. */
  lemma ReadWire(tx: Channel, rx: Channel, p: bytes, counter: nat, nonce: Nonce)
    requires Matched(tx, rx) && CounterFits(counter)
    ensures Read(rx, EncryptOne(tx, p, counter, nonce)) == Reading(counter, IfReadable(tx, rx, p))
  {
    WirePayload(tx, p, counter, nonce);
    OpenSealed(tx, rx, p, counter, nonce);
  }

  /** A receiver of another session with the same key drops the packet, whatever it holds. */
  lemma WrongSessionDropped(tx: Channel, other: Channel, p: bytes, counter: nat, nonce: Nonce, rx: Rx, now: real)
    requires tx.key.Some? && CounterFits(counter) && Ideal(tx.aead)
    requires other.aead == tx.aead && other.key == tx.key
    requires |tx.sharedId| == |other.sharedId| && tx.sharedId != other.sharedId
    ensures var r := Decrypt(other, rx, EncryptOne(tx, p, counter, nonce), now);
      r.1 == Dropped && r.0.groups == rx.groups
  {
    WirePayload(tx, p, counter, nonce);
    var payload := Payload(tx, p, counter, nonce);
    var cb := CounterBytes(counter);
    var aad, aad' := tx.sharedId + cb, other.sharedId + cb;
    assert aad[..|tx.sharedId|] == tx.sharedId && aad'[..|tx.sharedId|] == other.sharedId;
    var body := tx.aead.seal(tx.key.value, nonce, Inner(tx, p), aad);
    assert tx.aead.open(tx.key.value, body, aad') == None;
    assert payload[..4] == cb && payload[4..] == body;
  }

  /** Every group is incomplete, and the number lies outside of it. */
  ghost predicate Unowned(groups: map<int, Group>, number: int) {
    forall id :: id in groups ==>
      && (forall i :: i in groups[id].fragments ==> i < groups[id].total)
      && |groups[id].fragments| < groups[id].total
      && !(id <= number < id + groups[id].total)
  }

  /** What becomes of a datagram of one packet that starts with a byte of 0x80 or more, when its
      number belongs to no group: its second byte is taken for a packet total, its third for an
      index. It is dropped, or its tail is handed out in its place, or decrypt raises KeyError. */
  function Misread(groups: map<int, Group>, number: int, plain: bytes): Outcome {
    if |plain| < 4 then Dropped
    else MisreadFragment(groups, number - plain[2], plain[1], plain[2], plain[3..])
  }

  function MisreadFragment(groups: map<int, Group>, id: int, total: nat, index: nat, raw: bytes): Outcome {
    if id !in groups then
      if total != 1 then Dropped else if index == 0 then Delivered(raw) else Raised
    else if total == groups[id].total == |groups[id].fragments| + 1 then Raised
    else Dropped
  }

  lemma FirstOfGroup(raw: bytes, index: nat)
    ensures var filled: map<nat, bytes> := map[][index := raw];
      && |filled| == 1 && (0 in filled <==> index == 0)
      && (index == 0 ==> Join(filled, 1) == raw)
  {
    var filled: map<nat, bytes> := map[][index := raw];
    if index == 0 {
      assert Join(filled, 1) == Join(filled, 0) + filled[0];
    }
  }

  /** An index beyond the total never completes a group. */
  lemma BeyondTotal(group: Group, index: nat, raw: bytes)
    requires (forall i :: i in group.fragments ==> i < group.total) && |group.fragments| < group.total <= index
    ensures var filled := group.fragments[index := raw];
      && |filled| == |group.fragments| + 1
      && exists i :: 0 <= i < group.total && i !in filled
  {
    var filled := group.fragments[index := raw];
    assert filled.Keys == group.fragments.Keys + {index};
    assert |filled.Keys| == |filled|;
    if forall i :: 0 <= i < group.total ==> i in filled {
      forall i | 0 <= i < group.total
        ensures i in group.fragments
      {
        assert i in filled;
      }
      AllBelow(group.fragments, group.total);
    }
  }

  lemma MisreadAlone(groups: map<int, Group>, id: int, total: nat, index: nat, raw: bytes, now: real)
    requires id !in groups
    ensures AddFragment(groups, id, total, index, raw, now).1
      == if total != 1 then Dropped else if index == 0 then Delivered(raw) else Raised
  {
    FirstOfGroup(raw, index);
  }

  lemma MisreadInGroup(groups: map<int, Group>, id: int, total: nat, index: nat, raw: bytes, now: real)
    requires id in groups && groups[id].total == total <= index
    requires (forall i :: i in groups[id].fragments ==> i < total) && |groups[id].fragments| < total
    ensures AddFragment(groups, id, total, index, raw, now).1
      == if |groups[id].fragments| + 1 == total then Raised else Dropped
  {
    BeyondTotal(groups[id], index, raw);
  }

  /** The index lies beyond the group, if there is one, and that is incomplete. */
  ghost predicate Beyond(groups: map<int, Group>, id: int, index: nat) {
    id in groups ==>
      && (forall i :: i in groups[id].fragments ==> i < groups[id].total)
      && |groups[id].fragments| < groups[id].total <= index
  }

  lemma MisreadFragmentExact(groups: map<int, Group>, id: int, total: nat, index: nat, raw: bytes, now: real)
    requires Beyond(groups, id, index)
    ensures AddFragment(groups, id, total, index, raw, now).1 == MisreadFragment(groups, id, total, index, raw)
  {
    if id !in groups {
      MisreadAlone(groups, id, total, index, raw, now);
    } else if groups[id].total == total {
      MisreadInGroup(groups, id, total, index, raw, now);
    }
  }

  lemma AbsorbFlagged(groups: map<int, Group>, counter: nat, plain: bytes, now: real)
    requires |plain| >= 4 && plain[0] >= 0x80
    ensures Absorb(groups, counter, plain, now)
      == AddFragment(groups, counter - plain[2], plain[1], plain[2], plain[3..], now)
  {
    FlagBit(plain[0]);
  }

  lemma MisreadExact(groups: map<int, Group>, number: nat, plain: bytes, now: real)
    requires plain != [] && plain[0] >= 0x80 && Unowned(groups, number)
    ensures Absorb(groups, number, plain, now).1 == Misread(groups, number, plain)
  {
    if |plain| < 4 {
      FlagBit(plain[0]);
    } else {
      assert Beyond(groups, number - plain[2], plain[2]);
      AbsorbFlagged(groups, number, plain, now);
      MisreadFragmentExact(groups, number - plain[2], plain[1], plain[2], plain[3..], now);
    }
  }

  /** An unambiguous datagram of one packet is delivered by any receiver that can read it and
      whose window accepts it. By a receiver with no group for its number it is delivered exactly
      if it is readable and unambiguous; an unreadable one is dropped, any other is misread. */
  lemma SinglePacketRoundTrip(tx: Channel, rx: Channel, state: Rx, plain: bytes, counter: nat, nonce: Nonce, now: real)
    requires Matched(tx, rx) && CounterFits(counter) && |plain| <= MAX_PAYLOAD
    requires Checked(state.window, counter).1
    ensures var outcome := Decrypt(rx, state, EncryptOne(tx, plain, counter, nonce), now).1;
      && (!CanRead(tx, rx, plain) ==> outcome == Dropped)
      && (CanRead(tx, rx, plain) && Unambiguous(plain) ==> outcome == Delivered(plain))
      && (Unowned(state.groups, counter) ==>
            && (outcome == Delivered(plain) <==> CanRead(tx, rx, plain) && Unambiguous(plain))
            && (CanRead(tx, rx, plain) && !Unambiguous(plain) ==>
                  outcome == Misread(state.groups, counter, plain)))
  {
    ReadWire(tx, rx, plain, counter, nonce);
    if plain != [] && CanRead(tx, rx, plain) {
      FlagBit(plain[0]);
      if plain[0] >= 0x80 && Unowned(state.groups, counter) {
        MisreadExact(state.groups, counter, plain, now);
        assert |plain| >= 4 ==> |plain[3..]| < |plain|;
      }
    }
  }

  // ---- The assumptions can be met ----

  /** A stand-in for the cipher: the tag is the associated data, padded. */
  function ToySeal(k: Key, n: Nonce, x: bytes, aad: bytes): bytes {
    var tag := if |aad| <= TAG_SIZE then aad + seq(TAG_SIZE - |aad|, i => 0 as byte) else aad[..TAG_SIZE];
    n + x + tag
  }

  function ToyOpen(k: Key, c: bytes, aad: bytes): Option<bytes> {
    var tag := if |aad| <= TAG_SIZE then aad + seq(TAG_SIZE - |aad|, i => 0 as byte) else aad[..TAG_SIZE];
    if |c| < NONCE_SIZE + TAG_SIZE || c[|c| - TAG_SIZE..] != tag then None
    else Some(c[NONCE_SIZE..|c| - TAG_SIZE])
  }

  /** Ideal ciphers exist, so nothing proved from Ideal is vacuous. */
  lemma IdealExists()
    ensures Ideal(Aead(ToySeal, ToyOpen))
  {
    forall k: Key, n: Nonce, x: bytes, aad: bytes
      ensures |ToySeal(k, n, x, aad)| == NONCE_SIZE + |x| + TAG_SIZE
      ensures ToyOpen(k, ToySeal(k, n, x, aad), aad) == Some(x)
    {
      var c := ToySeal(k, n, x, aad);
      assert c[NONCE_SIZE..|c| - TAG_SIZE] == x;
    }
    forall k: Key, n: Nonce, x: bytes, aad: bytes, aad': bytes | |aad| == |aad'| <= TAG_SIZE && aad != aad'
      ensures ToyOpen(k, ToySeal(k, n, x, aad), aad') == None
    {
      var c := ToySeal(k, n, x, aad);
      var pad := seq(TAG_SIZE - |aad|, i => 0 as byte);
      assert c[|c| - TAG_SIZE..] == aad + pad;
      assert (aad + pad)[..|aad|] == aad && (aad' + pad)[..|aad|] == aad';
    }
  }
}
