/** Datagrams that the receiver takes for fragments: exactly which, in every run, and what it
    makes of them. */
module Ambiguity {
  import opened Bytes
  import opened Replay
  import opened Data
  import opened Fragments
  import opened Delivery

  // ---- In every run ----

  /** A number that belongs to no message sent so far lies in no group. */
  lemma UnownedNumber(sent: seq<Sent>, groups: map<int, Group>, accepted: set<int>, number: int)
    requires GroupsOk(sent, groups, accepted)
    requires forall i :: 0 <= i < |sent| ==>
      !(sent[i].start <= number < sent[i].start + PacketCount(sent[i].plain))
    ensures Unowned(groups, number)
  {
    forall id | id in groups
      ensures forall i :: i in groups[id].fragments ==> i < groups[id].total
      ensures |groups[id].fragments| < groups[id].total
      ensures !(id <= number < id + groups[id].total)
    {
      var i :| 0 <= i < |sent| && sent[i].start == id && GroupOk(sent[i], groups[id], accepted);
    }
  }

  /** In every run of unambiguous datagrams, also in the middle of reassembly: when the next
      datagram of one packet arrives and its number is accepted, it is delivered exactly if it
      can be decompressed and is unambiguous; otherwise decrypt drops it, hands out a tail that
      was never sent, or raises, as Misread says. */
  lemma NextDatagramExact(tx: Channel, ch: Channel, size: nat, events: seq<Event>, plain: bytes, nonce: Nonce,
                          now: real)
    requires Matched(tx, ch) && Sized(size) && SendsUnambiguous(events)
    requires |plain| <= MAX_PAYLOAD && CounterFits(Run(tx, ch, size, events).counter + 1)
    requires var w := Run(tx, ch, size, events); Checked(w.rx.window, w.counter + 1).1
    ensures var w := Run(tx, ch, size, events);
      var outcome := Decrypt(ch, w.rx, EncryptOne(tx, plain, w.counter + 1, nonce), now).1;
      && (!CanRead(tx, ch, plain) ==> outcome == Dropped)
      && (outcome == Delivered(plain) <==> CanRead(tx, ch, plain) && Unambiguous(plain))
      && (CanRead(tx, ch, plain) && !Unambiguous(plain) ==>
            outcome == Misread(w.rx.groups, w.counter + 1, plain))
  {
    var w := Run(tx, ch, size, events);
    var origin := RunKeeps(tx, ch, size, events);
    forall i | 0 <= i < |w.sent|
      ensures w.sent[i].start + PacketCount(w.sent[i].plain) <= w.counter + 1
    {
      assert EntryOk(tx, w.sent[i], w.counter);
    }
    UnownedNumber(w.sent, w.rx.groups, w.accepted, w.counter + 1);
    SinglePacketRoundTrip(tx, ch, w.rx, plain, w.counter + 1, nonce, now);
  }

  // ---- Two inputs for which the round trip fails ----

  lemma FirstDatagram(tx: Channel, ch: Channel, size: nat, plain: bytes, nonce: Nonce, now: real)
    requires Matched(tx, ch) && Sized(size) && 0 < |plain| <= 32 && plain[0] >= 0x80
    ensures Decrypt(ch, NewRx(size), EncryptOne(tx, plain, 1, nonce), now).1 == Misread(map[], 1, plain)
  {
    assert Run(tx, ch, size, []) == Start(size);
    assert Checked(Fresh(size), 1).1;
    NextDatagramExact(tx, ch, size, [], plain, nonce, now);
  }

  /** Sent as the first datagram, [0x80, 1, 0, 7] makes a new receiver hand out [7], which nobody
      sent. */
  lemma DeliversForeign(tx: Channel, ch: Channel, size: nat, nonce: Nonce, now: real)
    requires Matched(tx, ch) && Sized(size)
    ensures Decrypt(ch, NewRx(size), EncryptOne(tx, [0x80, 1, 0, 7], 1, nonce), now).1 == Delivered([7])
  {
    var plain: bytes := [0x80, 1, 0, 7];
    FirstDatagram(tx, ch, size, plain, nonce, now);
    assert plain[3..] == [7];
  }

  /** [0x80, 1, 5, 0] makes it raise KeyError. */
  lemma RaisesKeyError(tx: Channel, ch: Channel, size: nat, nonce: Nonce, now: real)
    requires Matched(tx, ch) && Sized(size)
    ensures Decrypt(ch, NewRx(size), EncryptOne(tx, [0x80, 1, 5, 0], 1, nonce), now).1 == Raised
  {
    FirstDatagram(tx, ch, size, [0x80, 1, 5, 0], nonce, now);
  }
}
