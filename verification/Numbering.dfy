/** How encrypt calls use up packet numbers. */
module Numbering {
  import opened Bytes
  import opened Data
  import opened Fragments

  datatype Call = Call(plain: bytes, nonces: nat -> Nonce)

  /** The counter, all packets in the order they were returned, and the number of calls that
      raised, after a sequence of encrypt calls. */
  datatype Emission = Emission(counter: nat, wires: seq<bytes>, raised: nat)

  /** One more encrypt call. */
  function Emit(ch: Channel, e: Emission, call: Call): Emission
  {
    match Encrypt(ch, e.counter, call.plain, call.nonces)
    case (counter, Some(wires)) => Emission(counter, e.wires + wires, e.raised)
    case (counter, None) => Emission(counter, e.wires, e.raised + 1)
  }

  function EncryptAll(ch: Channel, calls: seq<Call>): Emission
  {
    if calls == [] then Emission(0, [], 0)
    else Emit(ch, EncryptAll(ch, calls[..|calls| - 1]), calls[|calls| - 1])
  }

  /** The number on a packet, as a receiver reads it. */
  function NumberOn(wire: bytes): int {
    match ParseWire(wire)
    case None => -1
    case Some((counterBytes, _)) => Unpack(counterBytes)
  }

  lemma NumberOnSealed(ch: Channel, p: bytes, counter: nat, nonce: Nonce)
    requires ch.key.Some? && CounterFits(counter) && Ideal(ch.aead)
    ensures NumberOn(EncryptOne(ch, p, counter, nonce)) == counter
  {
    WirePayload(ch, p, counter, nonce);
    Limits();
    UnpackPack(4, counter);
    var payload := Payload(ch, p, counter, nonce);
    assert payload[..4] == CounterBytes(counter);
    var aad := ch.sharedId + CounterBytes(counter);
    assert |ch.aead.seal(ch.key.value, nonce, Inner(ch, p), aad)| == NONCE_SIZE + |Inner(ch, p)| + TAG_SIZE;
  }

  /** The numbers on packets, in order. */
  function Numbers(wires: seq<bytes>): (numbers: seq<int>)
    ensures |numbers| == |wires|
  {
    if wires == [] then [] else Numbers(wires[..|wires| - 1]) + [NumberOn(wires[|wires| - 1])]
  }

  lemma {:induction false} NumbersAppend(wires: seq<bytes>, more: seq<bytes>)
    ensures Numbers(wires + more) == Numbers(wires) + Numbers(more)
  {
    if more == [] {
      assert wires + more == wires;
    } else {
      var n := |more| - 1;
      assert (wires + more)[..|wires + more| - 1] == wires + more[..n];
      NumbersAppend(wires, more[..n]);
    }
  }

  function Consecutive(from: nat, count: nat): (numbers: seq<int>)
    ensures |numbers| == count
    ensures forall i :: 0 <= i < count ==> numbers[i] == from + i
  {
    if count == 0 then [] else Consecutive(from, count - 1) + [from + count - 1]
  }

  lemma {:induction false} NumbersOfConsecutive(wires: seq<bytes>, start: nat)
    requires forall i :: 0 <= i < |wires| ==> NumberOn(wires[i]) == start + i
    ensures Numbers(wires) == Consecutive(start, |wires|)
  {
    if wires != [] {
      NumbersOfConsecutive(wires[..|wires| - 1], start);
    }
  }

  /** The packets of one encrypt call are numbered consecutively. */
  lemma NumbersOnSealed(ch: Channel, plain: bytes, start: nat, nonces: nat -> Nonce)
    requires ch.key.Some? && Ideal(ch.aead)
    requires PacketCount(plain) <= 255 && CounterFits(start + PacketCount(plain) - 1)
    ensures Numbers(Sealed(ch, plain, start, nonces)) == Consecutive(start, PacketCount(plain))
  {
    var wires := Sealed(ch, plain, start, nonces);
    forall i | 0 <= i < |wires|
      ensures NumberOn(wires[i]) == start + i
    {
      NumberOnSealed(ch, PacketPlain(plain, i), start + i, nonces(i));
    }
    NumbersOfConsecutive(wires, start);
  }

  /** Rising numbers, from at least one up to the counter. */
  ghost predicate Rising(numbers: seq<int>, counter: nat) {
    && (forall i :: 0 <= i < |numbers| ==> i < numbers[i] <= counter)
    && (forall i, j :: 0 <= i < j < |numbers| ==> numbers[i] < numbers[j])
  }

  lemma RisingAppend(numbers: seq<int>, counter: nat, count: nat)
    requires Rising(numbers, counter) && |numbers| <= counter
    ensures Rising(numbers + Consecutive(counter + 1, count), counter + count)
  {
  }

  ghost predicate EmissionOk(e: Emission) {
    |e.wires| + e.raised == e.counter && Rising(Numbers(e.wires), e.counter)
  }

  lemma EmissionGrows(e: Emission, more: seq<bytes>)
    requires EmissionOk(e) && Numbers(more) == Consecutive(e.counter + 1, |more|)
    ensures EmissionOk(Emission(e.counter + |more|, e.wires + more, e.raised))
  {
    NumbersAppend(e.wires, more);
    RisingAppend(Numbers(e.wires), e.counter, |more|);
  }

  lemma EmitSealed(ch: Channel, e: Emission, call: Call)
    requires Encryptable(ch, e.counter, call.plain)
    ensures var wires := Sealed(ch, call.plain, e.counter + 1, call.nonces);
      Emit(ch, e, call) == Emission(e.counter + |wires|, e.wires + wires, e.raised)
  {
    var n := PacketCount(call.plain);
    var wires := Sealed(ch, call.plain, e.counter + 1, call.nonces);
    assert |wires| == n;
    assert Encrypt(ch, e.counter, call.plain, call.nonces) == (e.counter + n, Some(wires));
  }

  lemma NumbersOfCall(ch: Channel, counter: nat, call: Call)
    requires Ideal(ch.aead) && Encryptable(ch, counter, call.plain)
    ensures var wires := Sealed(ch, call.plain, counter + 1, call.nonces);
      Numbers(wires) == Consecutive(counter + 1, |wires|)
  {
    NumbersOnSealed(ch, call.plain, counter + 1, call.nonces);
  }

  lemma EmitKeeps(ch: Channel, e: Emission, call: Call)
    requires Ideal(ch.aead) && EmissionOk(e)
    ensures EmissionOk(Emit(ch, e, call))
  {
    if Encryptable(ch, e.counter, call.plain) {
      EmitSealed(ch, e, call);
      NumbersOfCall(ch, e.counter, call);
      EmissionGrows(e, Sealed(ch, call.plain, e.counter + 1, call.nonces));
    } else {
      assert Emit(ch, e, call) == Emission(e.counter + 1, e.wires, e.raised + 1);
    }
  }

  /** Packet numbers only rise, stay between 1 and the counter, and each is used for a packet
      or lost to a call that raised: packets and raised calls add up to the counter. */
  lemma {:induction false} NumbersRise(ch: Channel, calls: seq<Call>)
    requires Ideal(ch.aead)
    ensures var e := EncryptAll(ch, calls);
      |e.wires| + e.raised == e.counter && Rising(Numbers(e.wires), e.counter)
  {
    if calls != [] {
      NumbersRise(ch, calls[..|calls| - 1]);
      EmitKeeps(ch, EncryptAll(ch, calls[..|calls| - 1]), calls[|calls| - 1]);
    }
  }

  // ---- When no call raises ----

  /** The packets that the calls ask for. */
  function Demand(calls: seq<Call>): nat {
    if calls == [] then 0
    else Demand(calls[..|calls| - 1]) + PacketCount(calls[|calls| - 1].plain)
  }

  /** What a caller can check before: there is a cipher, no datagram takes more than 255
      packets, and all packets together can be numbered in four bytes. */
  predicate WithinLimits(ch: Channel, calls: seq<Call>) {
    calls == [] ||
    (&& ch.key.Some?
     && (forall i :: 0 <= i < |calls| ==> PacketCount(calls[i].plain) <= 255)
     && CounterFits(Demand(calls)))
  }

  lemma WithinLimitsLast(ch: Channel, calls: seq<Call>)
    requires calls != []
    ensures var front, call := calls[..|calls| - 1], calls[|calls| - 1];
      WithinLimits(ch, calls) <==> WithinLimits(ch, front) && Encryptable(ch, Demand(front), call.plain)
  {
    var front, call := calls[..|calls| - 1], calls[|calls| - 1];
    assert Demand(calls) == Demand(front) + PacketCount(call.plain);
    assert forall i :: 0 <= i < |calls| ==> calls[i] == if i < |front| then front[i] else call;
  }

  lemma EmitRaises(ch: Channel, e: Emission, call: Call)
    ensures var e' := Emit(ch, e, call);
      if Encryptable(ch, e.counter, call.plain)
      then e'.raised == e.raised && e'.counter == e.counter + PacketCount(call.plain)
      else e'.raised == e.raised + 1
  {
    if Encryptable(ch, e.counter, call.plain) {
      EmitSealed(ch, e, call);
    }
  }

  /** No call raises exactly within these limits, and the counter is then what was asked for. */
  lemma {:induction false} RaisesExactly(ch: Channel, calls: seq<Call>)
    ensures EncryptAll(ch, calls).raised == 0 <==> WithinLimits(ch, calls)
    ensures WithinLimits(ch, calls) ==> EncryptAll(ch, calls).counter == Demand(calls)
  {
    if calls != [] {
      var front, call := calls[..|calls| - 1], calls[|calls| - 1];
      RaisesExactly(ch, front);
      WithinLimitsLast(ch, calls);
      EmitRaises(ch, EncryptAll(ch, front), call);
    }
  }

  /** The packets are numbered exactly 1, 2, ..., counter if and only if the calls keep within
      the limits; otherwise some number is used up by a call that raises. */
  lemma NumbersExact(ch: Channel, calls: seq<Call>)
    requires Ideal(ch.aead)
    ensures var e := EncryptAll(ch, calls);
      Numbers(e.wires) == Consecutive(1, e.counter) <==> WithinLimits(ch, calls)
    ensures WithinLimits(ch, calls) ==> EncryptAll(ch, calls).counter == Demand(calls)
  {
    NumbersRise(ch, calls);
    RaisesExactly(ch, calls);
    var e := EncryptAll(ch, calls);
    if e.raised == 0 {
      RisingIsConsecutive(Numbers(e.wires), e.counter);
    }
  }

  lemma RisingIsConsecutive(numbers: seq<int>, counter: nat)
    requires Rising(numbers, counter) && |numbers| == counter
    ensures numbers == Consecutive(1, counter)
  {
    forall i | 0 <= i < |numbers|
      ensures numbers[i] == i + 1
    {
      RisingTail(numbers, counter, i);
    }
  }

  /** After position i there is room for the later, larger numbers. */
  lemma {:induction false} RisingTail(numbers: seq<int>, counter: nat, i: nat)
    requires Rising(numbers, counter) && i < |numbers|
    ensures numbers[i] + (|numbers| - 1 - i) <= counter
    decreases |numbers| - i
  {
    if i < |numbers| - 1 {
      RisingTail(numbers, counter, i + 1);
    }
  }
}
