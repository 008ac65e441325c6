/** The DataChannel object (src/protocol/data.py), with the loops and fields of the source. */
module DataChannels {
  import opened Bytes
  import opened Packet
  import opened Replay
  import opened D = Data

  /** The first packets of Sealed, with numbers that fit. */
  ghost predicate SealedPart(ch: Channel, plain: bytes, start: nat, nonces: nat -> Nonce, wires: seq<bytes>) {
    && ch.key.Some?
    && 0 < |wires| <= PacketCount(plain) <= 255 && CounterFits(start + |wires| - 1)
    && (forall i :: 0 <= i < |wires| ==>
          wires[i] == EncryptOne(ch, PacketPlain(plain, i), start + i, nonces(i)))
  }

  lemma SealedPartGrows(ch: Channel, plain: bytes, start: nat, nonces: nat -> Nonce, wires: seq<bytes>, wire: bytes)
    requires wires == [] || SealedPart(ch, plain, start, nonces, wires)
    requires ch.key.Some?
    requires |wires| < PacketCount(plain) <= 255 && CounterFits(start + |wires|)
    requires wire == EncryptOne(ch, PacketPlain(plain, |wires|), start + |wires|, nonces(|wires|))
    ensures SealedPart(ch, plain, start, nonces, wires + [wire])
  {
    var all := wires + [wire];
    forall i | 0 <= i < |all|
      ensures all[i] == EncryptOne(ch, PacketPlain(plain, i), start + i, nonces(i))
    {
      if i < |wires| {
        assert all[i] == wires[i];
      }
    }
  }

  lemma SealedWhole(ch: Channel, plain: bytes, start: nat, nonces: nat -> Nonce, wires: seq<bytes>)
    requires SealedPart(ch, plain, start, nonces, wires) && |wires| == PacketCount(plain)
    ensures wires == Sealed(ch, plain, start, nonces)
  {
  }

  lemma CleanupRemoves(groups: map<int, Group>, now: real, stale: set<int>)
    requires stale == set id | id in groups && Stale(groups[id], now)
    ensures groups - stale == Cleanup(groups, now)
  {
  }

  class DataChannel {
    const params: Channel
    var packetCounter: nat
    var fragments: map<int, Group>
    const replay: ReplayWindow

    ghost predicate Valid()
      reads this, replay
    {
      replay.Valid()
    }

    /** The receiving state. */
    function State(): Rx
      reads this, replay
    {
      Rx(replay.Value(), fragments)
    }

    constructor (ours: SessionId, peers: bytes, key: Option<Key>, aead: Aead, codec: Codec, compLzo: bool, window: nat)
      requires Sized(window)
      ensures Valid() && fresh(replay) && replay.accepted == {}
      ensures params == NewChannel(ours, peers, key, aead, codec, compLzo)
      ensures packetCounter == 0 && State() == NewRx(window)
    {
      params := NewChannel(ours, peers, key, aead, codec, compLzo);
      packetCounter := 0;
      fragments := map[];
      replay := new ReplayWindow(window);
    }

    /** DataChannel(..., replay_window); null is the ValueError of its window. */
    static method Make(ours: SessionId, peers: bytes, key: Option<Key>, aead: Aead, codec: Codec, compLzo: bool,
                       window: int)
      returns (channel: DataChannel?)
      ensures channel != null <==> 1 <= window <= 64
      ensures channel != null ==>
        && fresh(channel) && channel.Valid() && fresh(channel.replay) && channel.replay.accepted == {}
        && channel.params == NewChannel(ours, peers, key, aead, codec, compLzo)
        && channel.packetCounter == 0 && channel.State() == NewRx(window)
    {
      if window < 1 || window > MAX_WINDOW {
        return null;
      }
      channel := new DataChannel(ours, peers, key, aead, codec, compLzo, window);
    }

    /** None stands for the exception of a plaintext that cannot be numbered or sealed. */
    method Encrypt(plain: bytes, nonces: nat -> Nonce) returns (wires: Option<seq<bytes>>)
      requires Valid()
      modifies this`packetCounter
      ensures Valid() && State() == old(State())
      ensures (packetCounter, wires) == D.Encrypt(params, old(packetCounter), plain, nonces)
    {
      packetCounter := packetCounter + 1;
      if |plain| <= MAX_PAYLOAD {
        if params.key.None? || !CounterFits(packetCounter) {
          return None;
        }
        var wire := EncryptOne(params, plain, packetCounter, nonces(0));
        SealedPartGrows(params, plain, packetCounter, nonces, [], wire);
        SealedWhole(params, plain, packetCounter, nonces, [wire]);
        return Some([wire]);
      }
      var start := packetCounter;
      var total := (|plain| + MAX_PAYLOAD - 1) / MAX_PAYLOAD;
      wires := EncryptFragments(plain, start, total, nonces);
      if wires.Some? {
        packetCounter := start + total - 1;
      }
    }

    /** The loop of encrypt over the fragments. */
    method EncryptFragments(plain: bytes, start: nat, total: nat, nonces: nat -> Nonce)
      returns (wires: Option<seq<bytes>>)
      requires |plain| > MAX_PAYLOAD && total == PacketCount(plain)
      ensures wires == if params.key.Some? && total <= 255 && CounterFits(start + total - 1)
                       then Some(Sealed(params, plain, start, nonces)) else None
    {
      var result: seq<bytes> := [];
      for i := 0 to total
        invariant |result| == i
        invariant i > 0 ==> SealedPart(params, plain, start, nonces, result)
      {
        if total > 255 || params.key.None? || !CounterFits(start + i) {
          return None;
        }
        var payload := [FRAG_MASK, total, i] + Chunk(plain, i);
        var wire := EncryptOne(params, payload, start + i, nonces(i));
        SealedPartGrows(params, plain, start, nonces, result, wire);
        result := result + [wire];
      }
      SealedWhole(params, plain, start, nonces, result);
      return Some(result);
    }

    method Decrypt(wire: bytes, now: real) returns (outcome: Outcome)
      requires Valid()
      modifies this`fragments, replay
      ensures Valid()
      ensures (State(), outcome) == D.Decrypt(params, old(State()), wire, now)
    {
      var parsed := ParseWire(wire);
      if parsed.None? {
        return Dropped;
      }
      var (counterBytes, encrypted) := parsed.value;
      var counter := Unpack(counterBytes);
      var ok := replay.Check(counter);
      if !ok {
        return Dropped;
      }
      var body := OpenBody(params, counterBytes, encrypted);
      if body.None? {
        return Dropped;
      }
      outcome := Process(body.value, counter, now);
    }

    /** decrypt on a packet that opened. */
    method Process(plain: bytes, counter: nat, now: real) returns (outcome: Outcome)
      modifies this`fragments
      ensures (fragments, outcome) == Absorb(old(fragments), counter, plain, now)
    {
      if !IsFragment(plain) {
        return Delivered(plain);
      }
      if |plain| < 4 {
        return Dropped;
      }
      outcome := Reassemble(plain[1], plain[2], plain[3..], counter, now);
    }

    /** The fragment branch of decrypt. */
    method Reassemble(total: byte, index: byte, raw: bytes, counter: nat, now: real) returns (outcome: Outcome)
      modifies this`fragments
      ensures (fragments, outcome) == AddFragment(old(fragments), counter - index, total, index, raw, now)
    {
      var id := counter - index;
      if id !in fragments {
        fragments := fragments[id := Group(total, map[], now)];
      }
      if fragments[id].total != total {
        fragments := fragments - {id};
        return Dropped;
      }
      var group := fragments[id];
      fragments := fragments[id := group.(fragments := group.fragments[index as nat := raw])];
      var buf := fragments[id].fragments;
      assert fragments == old(fragments)[id := fragments[id]];
      if |buf| != total as int {
        return Dropped;
      }
      var data := JoinFragments(buf, total);
      if data.None? {
        return Raised;
      }
      fragments := fragments - {id};
      assert fragments == old(fragments) - {id};
      return Delivered(data.value);
    }

    /** b"".join over the indices below total; None is the KeyError of a missing one. */
    static method JoinFragments(buf: map<nat, bytes>, total: nat) returns (data: Option<bytes>)
      ensures data == if forall i :: 0 <= i < total ==> i in buf then Some(Join(buf, total)) else None
    {
      var joined: bytes := [];
      for i := 0 to total
        invariant forall j :: 0 <= j < i ==> j in buf
        invariant joined == Join(buf, i)
      {
        if i !in buf {
          return None;
        }
        joined := joined + buf[i];
      }
      return Some(joined);
    }

    /** The list of stale group ids that cleanup_fragments collects first. */
    static method StaleIds(groups: map<int, Group>, now: real) returns (stale: set<int>)
      ensures stale == set id | id in groups && Stale(groups[id], now)
    {
      stale := {};
      var ids := groups.Keys;
      while ids != {}
        invariant ids <= groups.Keys
        invariant stale == set id | id in groups && id !in ids && Stale(groups[id], now)
        decreases |ids|
      {
        ghost var some := AnElement(ids);
        var id :| id in ids;
        ids := ids - {id};
        if Stale(groups[id], now) {
          stale := stale + {id};
        }
      }
    }

    method CleanupFragments(now: real)
      requires Valid()
      modifies this`fragments
      ensures Valid() && replay.Value() == old(replay.Value())
      ensures fragments == Cleanup(old(fragments), now)
    {
      var stale := StaleIds(fragments, now);
      ghost var before, all := fragments, stale;
      while stale != {}
        invariant stale <= all && fragments == before - (all - stale)
        decreases |stale|
      {
        ghost var some := AnElement(stale);
        var id :| id in stale;
        assert all - (stale - {id}) == (all - stale) + {id};
        stale := stale - {id};
        fragments := fragments - {id};
      }
      assert all - stale == all;
      CleanupRemoves(before, now, all);
    }
  }
}
