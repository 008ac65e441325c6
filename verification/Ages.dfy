/** How long the receiver keeps an incomplete datagram: five seconds, counted from the packet
    that opened its group. */
module Ages {
  import opened Bytes
  import opened Data
  import opened Delivery

  /** Event j of the run is the packet that opened the group id, which has been there since. */
  ghost predicate Opened(tx: Channel, ch: Channel, size: nat, events: seq<Event>, id: int, j: nat) {
    && j < |events| && events[j].Arrive?
    && id !in Run(tx, ch, size, events[..j]).rx.groups
    && forall k :: j < k <= |events| ==> id in Run(tx, ch, size, events[..k]).rx.groups
  }

  /** A group keeps the time it was opened at, whatever is filed. */
  ghost predicate Stamped(before: map<int, Group>, after: map<int, Group>, now: real) {
    forall id :: id in after ==> after[id].ts == if id in before then before[id].ts else now
  }

  lemma AbsorbStamps(groups: map<int, Group>, counter: nat, plain: bytes, now: real)
    ensures Stamped(groups, Absorb(groups, counter, plain, now).0, now)
  {
  }

  lemma ArriveStamps(ch: Channel, w: World, wire: bytes, now: real)
    ensures Stamped(w.rx.groups, Arrived(ch, w, wire, now).rx.groups, now)
  {
    match Read(ch, wire)
    case Reading(counter, Some(plain)) => AbsorbStamps(w.rx.groups, counter, plain, now);
    case _ =>
  }

  /** Only an arrival opens a group, and no event changes the time of one that stays. */
  lemma StepStamps(tx: Channel, ch: Channel, w: World, e: Event, id: int)
    requires id in Step(tx, ch, w, e).rx.groups
    ensures var ts := Step(tx, ch, w, e).rx.groups[id].ts;
      if id in w.rx.groups then ts == w.rx.groups[id].ts else e.Arrive? && ts == e.now
  {
    if e.Arrive? && Deliverable(ch, w.sent, e.wire) {
      ArriveStamps(ch, w, e.wire, e.now);
    }
  }

  lemma {:induction false} OneMore(tx: Channel, ch: Channel, size: nat, events: seq<Event>, e: Event)
    ensures Run(tx, ch, size, events + [e]) == Step(tx, ch, Run(tx, ch, size, events), e)
  {
    assert (events + [e])[..|events|] == events;
  }

  lemma OpenedBefore(tx: Channel, ch: Channel, size: nat, front: seq<Event>, e: Event, id: int, j: nat)
    requires j < |front|
    ensures Opened(tx, ch, size, front + [e], id, j)
      <==> Opened(tx, ch, size, front, id, j) && id in Run(tx, ch, size, front + [e]).rx.groups
  {
    var events := front + [e];
    assert events[..|events|] == events && events[..|front|] == front && events[..j] == front[..j];
    assert front[..|front|] == front;
    forall k | j < k <= |front|
      ensures events[..k] == front[..k]
    {
    }
  }

  /** Every group was opened by an arrival, and has its time. */
  lemma {:induction false} OpenedBy(tx: Channel, ch: Channel, size: nat, events: seq<Event>, id: int)
    returns (j: nat)
    requires id in Run(tx, ch, size, events).rx.groups
    ensures Opened(tx, ch, size, events, id, j)
    ensures Run(tx, ch, size, events).rx.groups[id].ts == events[j].now
  {
    var front, e := events[..|events| - 1], events[|events| - 1];
    assert events == front + [e];
    OneMore(tx, ch, size, front, e);
    StepStamps(tx, ch, Run(tx, ch, size, front), e, id);
    if id in Run(tx, ch, size, front).rx.groups {
      j := OpenedBy(tx, ch, size, front, id);
      OpenedBefore(tx, ch, size, front, e, id, j);
    } else {
      j := |front|;
      assert events[..j] == front && events[..j + 1] == events;
    }
  }

  /** There is only one such arrival. */
  lemma OpenedOnce(tx: Channel, ch: Channel, size: nat, events: seq<Event>, id: int, i: nat, j: nat)
    requires Opened(tx, ch, size, events, id, i) && Opened(tx, ch, size, events, id, j)
    ensures i == j
  {
  }

  /** In every run: a cleanup at time t leaves a group, unchanged, if and only if at most five
      seconds have passed since the packet arrived that opened it; it brings no other, and
      touches nothing else. */
  lemma KeptFiveSeconds(tx: Channel, ch: Channel, size: nat, events: seq<Event>, id: int, j: nat, t: real)
    requires Opened(tx, ch, size, events, id, j)
    ensures var w, w' := Run(tx, ch, size, events), Run(tx, ch, size, events + [Expire(t)]);
      && (id in w'.rx.groups <==> t - events[j].now <= 5.0)
      && (forall other :: other in w'.rx.groups ==>
            other in w.rx.groups && w'.rx.groups[other] == w.rx.groups[other])
      && w' == w.(rx := w.rx.(groups := w'.rx.groups))
  {
    OneMore(tx, ch, size, events, Expire(t));
    assert events[..|events|] == events;
    var i := OpenedBy(tx, ch, size, events, id);
    OpenedOnce(tx, ch, size, events, id, i, j);
  }
}
