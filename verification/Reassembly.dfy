/** Reassembly of one fragmented message under every order of arrival, with duplicates. */
module Reassembly {
  import opened Bytes
  import opened Replay
  import opened Data
  import opened Fragments
  import opened Delivery

  /** Decrypt calls on packets order[0], order[1], ... of `wires`, at the given times. */
  function ReceiveAll(ch: Channel, rx: Rx, wires: seq<bytes>, order: seq<nat>,
                      times: seq<real>): (r: (Rx, seq<Outcome>))
    requires |times| == |order| && forall j :: 0 <= j < |order| ==> order[j] < |wires|
    ensures |r.1| == |order|
  {
    if order == [] then (rx, [])
    else
      var n := |order| - 1;
      var (rx0, outcomes) := ReceiveAll(ch, rx, wires, order[..n], times[..n]);
      var (rx1, outcome) := Decrypt(ch, rx0, wires[order[n]], times[n]);
      (rx1, outcomes + [outcome])
  }

  /** The packets among the arrivals. */
  ghost function Arrivals(order: seq<nat>): set<nat> {
    set j | 0 <= j < |order| :: order[j]
  }

  ghost predicate Covers(seen: set<nat>, count: nat) {
    forall i: nat :: i < count ==> i in seen
  }

  /** Arrival j brings the last packet that was missing, for the first time. */
  ghost predicate LastMissing(order: seq<nat>, j: nat, count: nat)
    requires j < |order|
  {
    Covers(Arrivals(order[..j + 1]), count) && !Covers(Arrivals(order[..j]), count)
  }

  ghost function Ids(start: nat, seen: set<nat>): set<int> {
    set i | i in seen :: start + i
  }

  /** The groups once the packets `seen` of s have been absorbed; `before` without any. */
  ghost predicate GroupsAt(s: Sent, before: map<int, Group>, groups: map<int, Group>, accepted: set<int>,
                           seen: set<nat>) {
    if seen == {} || Covers(seen, PacketCount(s.plain)) then groups == before
    else
      && s.start in groups && groups == before[s.start := groups[s.start]]
      && GroupOk(s, groups[s.start], accepted)
      && groups[s.start].fragments.Keys == seen
  }

  /** The receiver after the arrivals `seen` of message s, when it was in state `before`. */
  ghost predicate Progress(s: Sent, before: Rx, accepted: set<int>, seen: set<nat>, rx: Rx) {
    && rx.window.size == before.window.size
    && Tracks(rx.window, accepted + Ids(s.start, seen))
    && GroupsAt(s, before.groups, rx.groups, accepted + Ids(s.start, seen), seen)
  }

  /** A receiver that has seen nothing of s and no later packet. */
  ghost predicate Untouched(s: Sent, rx: Rx, accepted: set<int>) {
    && Tracks(rx.window, accepted)
    && (forall a :: a in accepted ==> a < s.start)
    && s.start !in rx.groups
  }

  /** The window accepts exactly the packets that have not arrived yet. */
  lemma AcceptsNewOnes(s: Sent, accepted: set<int>, seen: set<nat>, w: Window, i: nat)
    requires Tracks(w, accepted + Ids(s.start, seen)) && (forall a :: a in accepted ==> a < s.start)
    requires PacketCount(s.plain) <= w.size
    requires i < PacketCount(s.plain) && forall k :: k in seen ==> k < PacketCount(s.plain)
    ensures var (window, ok) := Checked(w, s.start + i);
      && (ok <==> i !in seen)
      && window.size == w.size
      && Tracks(window, accepted + Ids(s.start, seen + {i}))
    ensures accepted + Ids(s.start, seen + {i}) == accepted + Ids(s.start, seen) + {s.start + i}
  {
    var now := accepted + Ids(s.start, seen);
    CheckRefines(w, now, s.start + i);
    assert forall a :: a in now ==> a < s.start + PacketCount(s.plain);
    assert !TooOld(now, w.size, s.start + i);
    assert s.start + i in Ids(s.start, seen) <==> i in seen;
    assert now + {s.start + i} == accepted + Ids(s.start, seen + {i});
    if i in seen {
      assert now == accepted + Ids(s.start, seen + {i});
    }
  }

  lemma FiledLast(s: Sent, before: map<int, Group>, groups: map<int, Group>, accepted: set<int>, seen: set<nat>,
                  after: map<int, Group>)
    requires s.start !in before && GroupsAt(s, before, groups, accepted, seen)
    requires after == groups - {s.start}
    ensures after == before
  {
  }

  lemma FiledNotLast(before: map<int, Group>, groups: map<int, Group>, start: int, after: map<int, Group>)
    requires groups == before || (start in groups && groups == before[start := groups[start]])
    requires start in after && after == groups[start := after[start]]
    ensures after == before[start := after[start]]
  {
  }

  lemma FiledOne(s: Sent, before: map<int, Group>, groups: map<int, Group>, accepted: set<int>, seen: set<nat>,
                 i: nat, after: map<int, Group>, outcome: Outcome, accepted': set<int>)
    requires i < PacketCount(s.plain) && s.start !in before && Collected(groups, s.start).Keys == seen
    requires GroupsAt(s, before, groups, accepted, seen) && !Covers(seen + {i}, PacketCount(s.plain))
    requires FiledAs(s, groups, i, after, outcome, accepted') && !Completes(s, groups, i)
    ensures outcome == Dropped && GroupsAt(s, before, after, accepted', seen + {i})
  {
    FiledNotLast(before, groups, s.start, after);
    assert after[s.start].fragments.Keys == seen + {i};
  }

  lemma FiledProgress(s: Sent, before: map<int, Group>, groups: map<int, Group>, accepted: set<int>, seen: set<nat>,
                      i: nat, after: map<int, Group>, outcome: Outcome, accepted': set<int>)
    requires i < PacketCount(s.plain) && i !in seen && s.start !in before
    requires GroupsAt(s, before, groups, accepted, seen)
    requires FiledAs(s, groups, i, after, outcome, accepted')
    ensures outcome == (if Covers(seen + {i}, PacketCount(s.plain)) then Delivered(s.plain) else Dropped)
    ensures GroupsAt(s, before, after, accepted', seen + {i})
  {
    assert !Covers(seen, PacketCount(s.plain));
    assert Collected(groups, s.start).Keys == seen;
    CompletesWhenCovered(s, groups, seen, i);
    if Completes(s, groups, i) {
      FiledLast(s, before, groups, accepted, seen, after);
    } else {
      FiledOne(s, before, groups, accepted, seen, i, after, outcome, accepted');
    }
  }

  /** Filing a new fragment. */
  lemma NewFragment(s: Sent, before: map<int, Group>, groups: map<int, Group>, accepted: set<int>, seen: set<nat>,
                    i: nat, now: real)
    requires |s.plain| > MAX_PAYLOAD && i < PacketCount(s.plain) && i !in seen && s.start !in before
    requires GroupsAt(s, before, groups, accepted, seen)
    ensures var (after, outcome) := AddFragment(groups, s.start, PacketCount(s.plain), i, Chunk(s.plain, i), now);
      && outcome == (if Covers(seen + {i}, PacketCount(s.plain)) then Delivered(s.plain) else Dropped)
      && GroupsAt(s, before, after, accepted + {s.start + i}, seen + {i})
  {
    AddHonest(s, groups, accepted, i, now);
    var (after, outcome) := AddFragment(groups, s.start, PacketCount(s.plain), i, Chunk(s.plain, i), now);
    FiledProgress(s, before, groups, accepted, seen, i, after, outcome, accepted + {s.start + i});
  }

  lemma CompletesWhenCovered(s: Sent, groups: map<int, Group>, seen: set<nat>, i: nat)
    requires Collected(groups, s.start).Keys == seen && i !in seen
    ensures Completes(s, groups, i) <==> Covers(seen + {i}, PacketCount(s.plain))
  {
    assert forall k: nat :: k in Collected(groups, s.start) <==> k in seen;
  }

  /** A packet that arrived before changes nothing. */
  lemma RepeatedArrival(s: Sent, before: Rx, accepted: set<int>, seen: set<nat>, rx: Rx, i: nat, now: real)
    requires Untouched(s, before, accepted) && Progress(s, before, accepted, seen, rx) && i in seen
    requires PacketCount(s.plain) <= before.window.size && i < PacketCount(s.plain) <= 255
    requires forall k :: k in seen ==> k < PacketCount(s.plain)
    ensures var (rx', outcome) := Admit(rx, s.start + i, Some(PacketPlain(s.plain, i)), now);
      outcome == Dropped && Progress(s, before, accepted, seen, rx')
  {
    AcceptsNewOnes(s, accepted, seen, rx.window, i);
    assert seen + {i} == seen;
  }

  lemma NewArrival(s: Sent, before: Rx, accepted: set<int>, seen: set<nat>, rx: Rx, i: nat, now: real)
    requires Untouched(s, before, accepted) && Progress(s, before, accepted, seen, rx) && i !in seen
    requires |s.plain| > MAX_PAYLOAD && PacketCount(s.plain) <= before.window.size && i < PacketCount(s.plain) <= 255
    requires forall k :: k in seen ==> k < PacketCount(s.plain)
    ensures var (rx', outcome) := Admit(rx, s.start + i, Some(PacketPlain(s.plain, i)), now);
      && outcome == (if Covers(seen + {i}, PacketCount(s.plain)) then Delivered(s.plain) else Dropped)
      && Progress(s, before, accepted, seen + {i}, rx')
  {
    AcceptsNewOnes(s, accepted, seen, rx.window, i);
    AdmitFragment(s, rx, i, now);
    NewFragment(s, before.groups, rx.groups, accepted + Ids(s.start, seen), seen, i, now);
  }

  /** One more arrival, new or repeated. */
  lemma ArrivalProgress(s: Sent, before: Rx, accepted: set<int>, seen: set<nat>, rx: Rx, i: nat, now: real)
    requires Untouched(s, before, accepted) && Progress(s, before, accepted, seen, rx)
    requires |s.plain| > MAX_PAYLOAD && PacketCount(s.plain) <= before.window.size
    requires i < PacketCount(s.plain) <= 255 && forall k :: k in seen ==> k < PacketCount(s.plain)
    ensures var (rx', outcome) := Admit(rx, s.start + i, Some(PacketPlain(s.plain, i)), now);
      var last := Covers(seen + {i}, PacketCount(s.plain)) && !Covers(seen, PacketCount(s.plain));
      && outcome == (if last then Delivered(s.plain) else Dropped)
      && Progress(s, before, accepted, seen + {i}, rx')
  {
    if i in seen {
      RepeatedArrival(s, before, accepted, seen, rx, i, now);
      assert seen + {i} == seen;
    } else {
      NewArrival(s, before, accepted, seen, rx, i, now);
    }
  }

  /** The receiver can read every packet of s. */
  ghost predicate Readable(ch: Channel, s: Sent) {
    && |s.plain| > MAX_PAYLOAD && PacketCount(s.plain) <= 255 && |s.wires| == PacketCount(s.plain)
    && (forall i :: 0 <= i < |s.wires| ==>
          Read(ch, s.wires[i]) == Reading(s.start + i, Some(PacketPlain(s.plain, i))))
  }

  /** The receiver can read every packet of a datagram. */
  ghost predicate CanReadAll(tx: Channel, ch: Channel, plain: bytes)
    requires PacketCount(plain) <= 255
  {
    forall k: nat :: k < PacketCount(plain) ==> CanRead(tx, ch, PacketPlain(plain, k))
  }

  lemma SealedReadable(tx: Channel, ch: Channel, s: Sent, nonces: nat -> Nonce)
    requires Matched(tx, ch)
    requires |s.plain| > MAX_PAYLOAD && PacketCount(s.plain) <= 255 && CanReadAll(tx, ch, s.plain)
    requires CounterFits(s.start + PacketCount(s.plain) - 1)
    requires s.wires == Sealed(tx, s.plain, s.start, nonces)
    ensures Readable(ch, s)
  {
    forall i | 0 <= i < |s.wires|
      ensures Read(ch, s.wires[i]) == Reading(s.start + i, Some(PacketPlain(s.plain, i)))
    {
      SealedAt(tx, s.plain, s.start, nonces, i);
      ReadWire(tx, ch, PacketPlain(s.plain, i), s.start + i, nonces(i));
    }
  }

  /** The outcomes wanted of arrivals `order`. */
  ghost predicate Outcomes(s: Sent, order: seq<nat>, outcomes: seq<Outcome>) {
    && |outcomes| == |order|
    && (forall j :: 0 <= j < |order| ==>
          outcomes[j] == if LastMissing(order, j, PacketCount(s.plain)) then Delivered(s.plain) else Dropped)
  }

  lemma OutcomesGrow(s: Sent, order: seq<nat>, i: nat, outcomes: seq<Outcome>, outcome: Outcome)
    requires Outcomes(s, order, outcomes)
    requires var n := PacketCount(s.plain);
      var last := Covers(Arrivals(order) + {i}, n) && !Covers(Arrivals(order), n);
      outcome == (if last then Delivered(s.plain) else Dropped)
    ensures Outcomes(s, order + [i], outcomes + [outcome])
    ensures Arrivals(order + [i]) == Arrivals(order) + {i}
  {
    var more := order + [i];
    assert more[|order|] == i;
    assert forall j :: 0 <= j < |order| ==> more[j] == order[j];
    assert Arrivals(more) == Arrivals(order) + {i};
    assert more[..|order|] == order && more[..|order| + 1] == more;
    forall j | 0 <= j < |order|
      ensures LastMissing(order, j, PacketCount(s.plain)) <==> LastMissing(more, j, PacketCount(s.plain))
    {
      assert more[..j] == order[..j] && more[..j + 1] == order[..j + 1];
    }
  }

  /** Progress and outcomes after one more arrival. */
  lemma OneMore(ch: Channel, s: Sent, before: Rx, accepted: set<int>, order: seq<nat>, rx: Rx, outcomes: seq<Outcome>,
                i: nat, now: real)
    requires Readable(ch, s)
    requires Untouched(s, before, accepted) && PacketCount(s.plain) <= before.window.size
    requires i < |s.wires| && forall j :: 0 <= j < |order| ==> order[j] < |s.wires|
    requires Progress(s, before, accepted, Arrivals(order), rx) && Outcomes(s, order, outcomes)
    ensures var (rx', outcome) := Decrypt(ch, rx, s.wires[i], now);
      Progress(s, before, accepted, Arrivals(order + [i]), rx') && Outcomes(s, order + [i], outcomes + [outcome])
  {
    ArrivalProgress(s, before, accepted, Arrivals(order), rx, i, now);
    OutcomesGrow(s, order, i, outcomes, Admit(rx, s.start + i, Some(PacketPlain(s.plain, i)), now).1);
  }

  /** All arrivals in `order`. */
  lemma {:induction false} OrderProgress(ch: Channel, s: Sent, before: Rx, accepted: set<int>, order: seq<nat>,
                                         times: seq<real>)
    requires Readable(ch, s)
    requires Untouched(s, before, accepted) && PacketCount(s.plain) <= before.window.size
    requires |times| == |order| && forall j :: 0 <= j < |order| ==> order[j] < |s.wires|
    ensures var (rx, outcomes) := ReceiveAll(ch, before, s.wires, order, times);
      Progress(s, before, accepted, Arrivals(order), rx) && Outcomes(s, order, outcomes)
  {
    if order == [] {
      assert accepted + Ids(s.start, {}) == accepted;
    } else {
      var n := |order| - 1;
      OrderProgress(ch, s, before, accepted, order[..n], times[..n]);
      var (rx0, outcomes0) := ReceiveAll(ch, before, s.wires, order[..n], times[..n]);
      OneMore(ch, s, before, accepted, order[..n], rx0, outcomes0, order[n], times[n]);
      assert order == order[..n] + [order[n]];
    }
  }

  /** Reassembly under every permutation: with at most `size` packets, each a new number, the
      decrypt call that handles the last missing packet, and only that one, returns the whole
      message; when it has, nothing of it is left. */
  lemma AnyOrderReassembles(ch: Channel, s: Sent, before: Rx, accepted: set<int>, order: seq<nat>, times: seq<real>)
    requires Readable(ch, s)
    requires Untouched(s, before, accepted) && PacketCount(s.plain) <= before.window.size
    requires |times| == |order| && forall j :: 0 <= j < |order| ==> order[j] < |s.wires|
    requires Covers(Arrivals(order), PacketCount(s.plain))
    ensures var (rx, outcomes) := ReceiveAll(ch, before, s.wires, order, times);
      && rx.groups == before.groups
      && exists last ::
        && 0 <= last < |order| && LastMissing(order, last, PacketCount(s.plain))
        && outcomes[last] == Delivered(s.plain)
        && forall j :: 0 <= j < |order| && j != last ==> outcomes[j] == Dropped
  {
    OrderProgress(ch, s, before, accepted, order, times);
    var last := FindLast(order, PacketCount(s.plain));
    forall j | 0 <= j < |order| && j != last
      ensures !LastMissing(order, j, PacketCount(s.plain))
    {
      OnlyOneLast(order, PacketCount(s.plain), j, last);
    }
  }

  lemma ArrivalsGrow(order: seq<nat>, i: nat, j: nat, count: nat)
    requires i <= j <= |order| && Covers(Arrivals(order[..i]), count)
    ensures Covers(Arrivals(order[..j]), count)
  {
    forall k: nat | k < count
      ensures k in Arrivals(order[..j])
    {
      assert k in Arrivals(order[..i]);
      var l :| 0 <= l < i && order[..i][l] == k;
      assert order[..j][l] == k;
    }
  }

  lemma OnlyOneLast(order: seq<nat>, count: nat, i: nat, j: nat)
    requires i < |order| && j < |order| && i != j && LastMissing(order, j, count)
    ensures !LastMissing(order, i, count)
  {
    if i < j {
      if Covers(Arrivals(order[..i + 1]), count) {
        ArrivalsGrow(order, i + 1, j, count);
      }
    } else {
      ArrivalsGrow(order, j + 1, i, count);
    }
  }

  lemma {:induction false} FindLast(order: seq<nat>, count: nat) returns (last: nat)
    requires count > 0 && Covers(Arrivals(order), count)
    ensures last < |order| && LastMissing(order, last, count)
  {
    assert 0 in Arrivals(order);
    var n := |order| - 1;
    assert order[..n + 1] == order;
    if Covers(Arrivals(order[..n]), count) {
      last := FindLast(order[..n], count);
      assert order[..n][..last] == order[..last] && order[..n][..last + 1] == order[..last + 1];
    } else {
      last := n;
    }
  }

  // ---- Longer messages ----

  /** The last packet of s was accepted, the first was not and is too old by now. */
  ghost predicate Blocked(s: Sent, rx: Rx, accepted: set<int>) {
    && Tracks(rx.window, accepted) && rx.window.size < PacketCount(s.plain)
    && s.start + PacketCount(s.plain) - 1 in accepted && s.start !in accepted
    && 0 !in Collected(rx.groups, s.start)
    && GroupFits(s, rx.groups, accepted)
  }

  lemma BlockedFiling(s: Sent, groups: map<int, Group>, accepted: set<int>, i: nat, now: real)
    requires |s.plain| > MAX_PAYLOAD && 0 < i < PacketCount(s.plain)
    requires GroupFits(s, groups, accepted) && 0 !in Collected(groups, s.start)
    ensures var (after, outcome) := AddFragment(groups, s.start, PacketCount(s.plain), i, Chunk(s.plain, i), now);
      outcome == Dropped && 0 !in Collected(after, s.start) && GroupFits(s, after, accepted + {s.start + i})
  {
    AddHonest(s, groups, accepted, i, now);
    assert !Completes(s, groups, i);
  }

  /** Admitting packet i of s when the window accepts it. */
  lemma AdmitFragment(s: Sent, rx: Rx, i: nat, now: real)
    requires |s.plain| > MAX_PAYLOAD && i < PacketCount(s.plain) <= 255 && Checked(rx.window, s.start + i).1
    ensures var (after, outcome) := AddFragment(rx.groups, s.start, PacketCount(s.plain), i, Chunk(s.plain, i), now);
      Admit(rx, s.start + i, Some(PacketPlain(s.plain, i)), now)
      == (Rx(Checked(rx.window, s.start + i).0, after), outcome)
  {
    AbsorbHonest(s, rx.groups, i, now);
  }

  lemma BlockedAccepts(s: Sent, rx: Rx, accepted: set<int>, i: nat)
    requires Blocked(s, rx, accepted) && i < PacketCount(s.plain)
    ensures var (window, ok) := Checked(rx.window, s.start + i);
      && window.size == rx.window.size
      && Tracks(window, if ok then accepted + {s.start + i} else accepted)
      && (ok ==> i > 0)
  {
    CheckRefines(rx.window, accepted, s.start + i);
  }

  lemma BlockedStep(s: Sent, rx: Rx, accepted: set<int>, i: nat, now: real) returns (accepted': set<int>)
    requires |s.plain| > MAX_PAYLOAD && i < PacketCount(s.plain) <= 255
    requires Blocked(s, rx, accepted)
    ensures var (rx', outcome) := Admit(rx, s.start + i, Some(PacketPlain(s.plain, i)), now);
      outcome == Dropped && Blocked(s, rx', accepted')
  {
    BlockedAccepts(s, rx, accepted, i);
    accepted' := accepted;
    if Checked(rx.window, s.start + i).1 {
      accepted' := accepted + {s.start + i};
      AdmitFragment(s, rx, i, now);
      BlockedFiling(s, rx.groups, accepted, i, now);
    }
  }

  /** The first arrival is the last packet. */
  lemma BlockedFirst(s: Sent, rx: Rx, accepted: set<int>, i: nat, now: real)
    requires |s.plain| > MAX_PAYLOAD && PacketCount(s.plain) <= 255 && i == PacketCount(s.plain) - 1
    requires Untouched(s, rx, accepted) && rx.window.size < PacketCount(s.plain)
    ensures var (rx', outcome) := Admit(rx, s.start + i, Some(PacketPlain(s.plain, i)), now);
      outcome == Dropped && Blocked(s, rx', accepted + {s.start + i})
  {
    CheckRefines(rx.window, accepted, s.start + i);
    assert !TooOld(accepted, rx.window.size, s.start + i);
    AdmitFragment(s, rx, i, now);
    BlockedFiling(s, rx.groups, accepted, i, now);
  }

  /** The receiver is blocked and has delivered nothing. */
  ghost predicate BlockedRun(s: Sent, rx: Rx, outcomes: seq<Outcome>, accepted: set<int>) {
    Blocked(s, rx, accepted) && forall j :: 0 <= j < |outcomes| ==> outcomes[j] == Dropped
  }

  lemma BlockedMore(ch: Channel, s: Sent, rx: Rx, outcomes: seq<Outcome>, accepted: set<int>, i: nat, now: real)
    returns (accepted': set<int>)
    requires Readable(ch, s) && i < |s.wires| && BlockedRun(s, rx, outcomes, accepted)
    ensures var (rx', outcome) := Decrypt(ch, rx, s.wires[i], now); BlockedRun(s, rx', outcomes + [outcome], accepted')
  {
    accepted' := BlockedStep(s, rx, accepted, i, now);
  }

  /** Nothing is delivered when the last packet arrives first. */
  lemma {:induction false} NothingDelivered(ch: Channel, s: Sent, before: Rx, accepted: set<int>, order: seq<nat>,
                                            times: seq<real>)
    returns (accepted': set<int>)
    requires Readable(ch, s) && Untouched(s, before, accepted) && before.window.size < PacketCount(s.plain)
    requires |times| == |order| > 0 && order[0] == PacketCount(s.plain) - 1
    requires forall j :: 0 <= j < |order| ==> order[j] < |s.wires|
    ensures var (rx, outcomes) := ReceiveAll(ch, before, s.wires, order, times); BlockedRun(s, rx, outcomes, accepted')
  {
    var n := |order| - 1;
    var (rx0, outcomes0) := ReceiveAll(ch, before, s.wires, order[..n], times[..n]);
    if n == 0 {
      BlockedFirst(s, before, accepted, order[0], times[0]);
      accepted' := accepted + {s.start + order[0]};
    } else {
      var acc := NothingDelivered(ch, s, before, accepted, order[..n], times[..n]);
      accepted' := BlockedMore(ch, s, rx0, outcomes0, acc, order[n], times[n]);
    }
  }

  /** Every order in which all packets arrive delivers the message. */
  ghost predicate DeliveredInAnyOrder(ch: Channel, s: Sent, before: Rx) {
    forall order: seq<nat>, times: seq<real> ::
      && |times| == |order| && (forall j :: 0 <= j < |order| ==> order[j] < |s.wires|)
      && Covers(Arrivals(order), |s.wires|)
      ==> Delivered(s.plain) in ReceiveAll(ch, before, s.wires, order, times).1
  }

  lemma LongMessageCanFail(ch: Channel, s: Sent, before: Rx, accepted: set<int>)
    requires Readable(ch, s) && Untouched(s, before, accepted) && before.window.size < PacketCount(s.plain)
    ensures !DeliveredInAnyOrder(ch, s, before)
  {
    var order := LastFirst(PacketCount(s.plain));
    var times := seq(|order|, i => 0.0);
    var acc := NothingDelivered(ch, s, before, accepted, order, times);
    assert Delivered(s.plain) !in ReceiveAll(ch, before, s.wires, order, times).1;
  }

  /** The order of arrival never matters exactly when the message has no more packets than
      the window has places. */
  lemma AnyOrderIffWindowHolds(tx: Channel, ch: Channel, s: Sent, nonces: nat -> Nonce, before: Rx, accepted: set<int>)
    requires Matched(tx, ch)
    requires |s.plain| > MAX_PAYLOAD && PacketCount(s.plain) <= 255 && CanReadAll(tx, ch, s.plain)
    requires CounterFits(s.start + PacketCount(s.plain) - 1)
    requires s.wires == Sealed(tx, s.plain, s.start, nonces)
    requires Untouched(s, before, accepted)
    ensures DeliveredInAnyOrder(ch, s, before) <==> PacketCount(s.plain) <= before.window.size
  {
    SealedReadable(tx, ch, s, nonces);
    if PacketCount(s.plain) <= before.window.size {
      forall order: seq<nat>, times: seq<real> |
        && |times| == |order| && (forall j :: 0 <= j < |order| ==> order[j] < |s.wires|)
        && Covers(Arrivals(order), |s.wires|)
        ensures Delivered(s.plain) in ReceiveAll(ch, before, s.wires, order, times).1
      {
        AnyOrderReassembles(ch, s, before, accepted, order, times);
      }
    } else {
      LongMessageCanFail(ch, s, before, accepted);
    }
  }

  /** The last index, and then all of them. */
  lemma LastFirst(count: nat) returns (order: seq<nat>)
    requires count > 0
    ensures |order| > 0 && order[0] == count - 1
    ensures forall j :: 0 <= j < |order| ==> order[j] < count
    ensures Covers(Arrivals(order), count)
  {
    order := [count - 1] + seq(count, i => i);
    forall i: nat | i < count
      ensures i in Arrivals(order)
    {
      assert order[i + 1] == i;
    }
  }
}
