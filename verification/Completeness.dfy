/** When a run does deliver: with no group expired and no unauthentic packet accepted, a message
    is handed out exactly when all its packets were accepted. */
module Completeness {
  import opened Bytes
  import opened Replay
  import opened Data
  import opened Fragments
  import opened Delivery
  import opened Ages
  import opened Expiry
  import opened Forgery

  /** A cleanup comes at most five seconds after any packet that opened a group still there, and
      a packet that the window accepts opens. */
  ghost predicate Calm(tx: Channel, ch: Channel, size: nat, events: seq<Event>, e: Event) {
    match e
    case Send(_, _) => true
    case Expire(now) =>
      forall id: int, j: nat :: Opened(tx, ch, size, events, id, j) ==> now - events[j].now <= 5.0
    case Arrive(wire, _) =>
      var r := Read(ch, wire);
      r.Reading? && Checked(Run(tx, ch, size, events).rx.window, r.counter).1 ==> r.plain.Some?
  }

  ghost predicate CalmRun(tx: Channel, ch: Channel, size: nat, events: seq<Event>) {
    events != [] ==>
      var front := events[..|events| - 1];
      CalmRun(tx, ch, size, front) && Calm(tx, ch, size, front, events[|events| - 1])
  }

  // ---- No accepted packet goes astray ----

  ghost predicate Took(w: World, i: nat, k: nat) {
    i < |w.sent| && k < PacketCount(w.sent[i].plain) && w.sent[i].start + k in w.accepted
  }

  ghost predicate Secured(w: World, i: nat, k: nat)
    requires i < |w.sent|
  {
    w.sent[i].start in w.starts || k in Collected(w.rx.groups, w.sent[i].start)
  }

  /** Only numbers in use were accepted, and every accepted packet is in its group, or its
      message was handed out. */
  ghost predicate Kept(w: World) {
    && (forall n :: n in w.accepted ==> n <= w.counter)
    && (forall i: nat, k: nat :: Took(w, i, k) ==> Secured(w, i, k))
  }

  lemma SendIsKept(tx: Channel, ch: Channel, w: World, e: Event)
    requires Kept(w) && e.Send?
    ensures Kept(Step(tx, ch, w, e))
  {
    var w' := Step(tx, ch, w, e);
    forall i: nat, k: nat | Took(w', i, k)
      ensures Secured(w', i, k)
    {
      if i < |w.sent| {
        assert Took(w, i, k);
      }
    }
  }

  lemma NothingExpires(tx: Channel, ch: Channel, size: nat, events: seq<Event>, e: Event)
    requires e.Expire? && Calm(tx, ch, size, events, e)
    ensures Step(tx, ch, Run(tx, ch, size, events), e) == Run(tx, ch, size, events)
  {
    var w := Run(tx, ch, size, events);
    OneMore(tx, ch, size, events, e);
    forall id | id in w.rx.groups
      ensures id in Step(tx, ch, w, e).rx.groups
    {
      var j := OpenedBy(tx, ch, size, events, id);
      KeptFiveSeconds(tx, ch, size, events, id, j, e.now);
    }
    assert Step(tx, ch, w, e).rx.groups == w.rx.groups;
  }

  /** Where packet l of s goes: to the output with its message, or into its group. */
  ghost predicate Placed(s: Sent, groups: map<int, Group>, l: nat, after: map<int, Group>, outcome: Outcome) {
    && (outcome.Delivered? || (l in Collected(after, s.start)))
    && (!outcome.Delivered? ==> forall k :: k in Collected(groups, s.start) ==> k in Collected(after, s.start))
    && (forall id :: id != s.start ==> Collected(after, id) == Collected(groups, id))
  }

  lemma HonestIsPlaced(s: Sent, groups: map<int, Group>, accepted: set<int>, l: nat, now: real)
    requires l < PacketCount(s.plain) <= 255 && Unambiguous(s.plain) && GroupFits(s, groups, accepted)
    ensures var (after, outcome) := Absorb(groups, s.start + l, PacketPlain(s.plain, l), now);
      Placed(s, groups, l, after, outcome)
  {
    AbsorbHonest(s, groups, l, now);
    if |s.plain| > MAX_PAYLOAD {
      FragmentIsPlaced(s, groups, accepted, l, now);
    }
  }

  lemma FragmentIsPlaced(s: Sent, groups: map<int, Group>, accepted: set<int>, l: nat, now: real)
    requires |s.plain| > MAX_PAYLOAD && l < PacketCount(s.plain) && GroupFits(s, groups, accepted)
    ensures var (after, outcome) :=
        AddFragment(groups, s.start, PacketCount(s.plain), l, Chunk(s.plain, l), now);
      Placed(s, groups, l, after, outcome)
  {
    AddHonest(s, groups, accepted, l, now);
    var (after, outcome) := AddFragment(groups, s.start, PacketCount(s.plain), l, Chunk(s.plain, l), now);
    FiledIsPlaced(s, groups, l, after, outcome, accepted + {s.start + l});
  }

  lemma FiledIsPlaced(s: Sent, groups: map<int, Group>, l: nat, after: map<int, Group>, outcome: Outcome,
                      accepted: set<int>)
    requires FiledAs(s, groups, l, after, outcome, accepted)
    ensures Placed(s, groups, l, after, outcome)
  {
  }

  /** Accepting packet l of message m loses no other. */
  lemma AcceptingIsKept(tx: Channel, w: World, w': World, m: nat, l: nat, groups: map<int, Group>, outcome: Outcome)
    requires tx.key.Some? && SentOk(tx, w.sent, w.counter) && Kept(w)
    requires m < |w.sent| && l < PacketCount(w.sent[m].plain)
    requires Accepting(w, w', w.sent[m].start + l, groups, outcome, w.sent[m].start)
    requires Placed(w.sent[m], w.rx.groups, l, groups, outcome)
    ensures Kept(w')
  {
    assert EntryOk(tx, w.sent[m], w.counter);
    var n := w.sent[m].start + l;
    forall i: nat, k: nat | Took(w', i, k)
      ensures Secured(w', i, k)
    {
      if w.sent[i].start + k == n {
        OneOwner(tx, w.sent, w.counter, i, k, m, l, n);
      } else {
        assert Took(w, i, k);
        if i != m {
          DistinctStarts(tx, w.sent, w.counter, i, m);
        }
      }
    }
  }

  lemma HonestIsKept(tx: Channel, w: World, origin: seq<nat>, m: nat, l: nat, now: real)
    requires tx.key.Some? && Inv(tx, w, origin) && Kept(w)
    requires m < |w.sent| && l < PacketCount(w.sent[m].plain) <= 255 && Unambiguous(w.sent[m].plain)
    requires OwnStart(w.sent, m) && Checked(w.rx.window, w.sent[m].start + l).1
    ensures Kept(Received(w, w.sent[m].start + l, Some(PacketPlain(w.sent[m].plain, l)), now))
  {
    var s := w.sent[m];
    var counter, plain := s.start + l, PacketPlain(s.plain, l);
    var (groups, outcome) := Absorb(w.rx.groups, counter, plain, now);
    FindGroup(w.sent, w.rx.groups, w.accepted, m);
    HonestIsPlaced(s, w.rx.groups, w.accepted, l, now);
    UnderHonest(s, l);
    ReceivedAccepting(w, counter, plain, now);
    AcceptingIsKept(tx, w, Received(w, counter, Some(plain), now), m, l, groups, outcome);
  }

  lemma ReadingIsKept(tx: Channel, w: World, origin: seq<nat>, r: Reading, now: real)
    requires tx.key.Some? && Inv(tx, w, origin) && Kept(w) && HonestReading(w.sent, r)
    requires r.Reading? && Checked(w.rx.window, r.counter).1 ==> r.plain.Some?
    ensures Kept(ReceivedReading(w, r, now))
  {
    if r.Reading? {
      if Checked(w.rx.window, r.counter).1 {
        var m: nat, l: nat :| ReadsAs(w.sent, r, m, l);
        HonestIsKept(tx, w, origin, m, l, now);
      } else {
        CheckRefines(w.rx.window, w.accepted, r.counter);
        RefusedChangesNothing(w, r.counter, r.plain, now);
      }
    }
  }

  lemma RefusedChangesNothing(w: World, counter: nat, plain: Option<bytes>, now: real)
    requires !Checked(w.rx.window, counter).1
    ensures Received(w, counter, plain, now) == w
  {
  }

  lemma {:induction false} RunIsKept(tx: Channel, ch: Channel, size: nat, events: seq<Event>)
    requires Matched(tx, ch) && Sized(size) && SendsUnambiguous(events) && CalmRun(tx, ch, size, events)
    ensures Kept(Run(tx, ch, size, events))
  {
    if events != [] {
      var front, e := events[..|events| - 1], events[|events| - 1];
      RunIsKept(tx, ch, size, front);
      var origin := RunKeeps(tx, ch, size, front);
      var w := Run(tx, ch, size, front);
      match e
      case Send(_, _) => SendIsKept(tx, ch, w, e);
      case Expire(_) => NothingExpires(tx, ch, size, front, e);
      case Arrive(wire, now) =>
        if Deliverable(ch, w.sent, wire) {
          Recognize(tx, ch, w.sent, w.counter, wire);
          ReadingIsKept(tx, w, origin, Read(ch, wire), now);
        }
    }
  }

  // ---- The theorem ----

  lemma FinishedIfHandedOut(tx: Channel, w: World, origin: seq<nat>, i: nat)
    requires tx.key.Some? && Inv(tx, w, origin) && i < |w.sent| && w.sent[i].start in w.starts
    ensures AllAccepted(w.sent[i], w.accepted)
  {
    var j :| 0 <= j < |w.starts| && w.starts[j] == w.sent[i].start;
    if origin[j] != i {
      DistinctStarts(tx, w.sent, w.counter, origin[j], i);
    }
    assert Finished(w.sent[origin[j]], w.rx.groups, w.accepted);
  }

  /** In every run, only a message all of whose packets were accepted is handed out. */
  lemma DeliveredWasAccepted(tx: Channel, ch: Channel, size: nat, events: seq<Event>, i: nat)
    requires Matched(tx, ch) && Sized(size) && SendsUnambiguous(events)
    requires i < |Run(tx, ch, size, events).sent|
    ensures var w := Run(tx, ch, size, events);
      w.sent[i].start in w.starts ==> AllAccepted(w.sent[i], w.accepted)
  {
    var origin := RunKeeps(tx, ch, size, events);
    var w := Run(tx, ch, size, events);
    if w.sent[i].start in w.starts {
      FinishedIfHandedOut(tx, w, origin, i);
    }
  }

  lemma AcceptedWasDelivered(tx: Channel, w: World, origin: seq<nat>, i: nat)
    requires tx.key.Some? && Inv(tx, w, origin) && Kept(w) && i < |w.sent|
    requires AllAccepted(w.sent[i], w.accepted)
    ensures w.sent[i].start in w.starts
  {
    var s := w.sent[i];
    if s.start !in w.starts {
      forall k: nat | k < PacketCount(s.plain)
        ensures k in Collected(w.rx.groups, s.start)
      {
        assert PacketAccepted(s, k, w.accepted) && Took(w, i, k);
      }
      CollectedIsIncomplete(w, i);
    }
  }

  lemma CollectedIsIncomplete(w: World, i: nat)
    requires GroupsOk(w.sent, w.rx.groups, w.accepted) && i < |w.sent| && OwnStart(w.sent, i)
    ensures exists k: nat :: k < PacketCount(w.sent[i].plain) && k !in Collected(w.rx.groups, w.sent[i].start)
  {
    var s := w.sent[i];
    FindGroup(w.sent, w.rx.groups, w.accepted, i);
    if s.start in w.rx.groups {
      var fragments := w.rx.groups[s.start].fragments;
      AllBelow(fragments, PacketCount(s.plain));
      var k :| 0 <= k < PacketCount(s.plain) && k !in fragments;
      assert k !in Collected(w.rx.groups, s.start);
    } else {
      assert PacketCount(s.plain) > 0 && 0 !in Collected(w.rx.groups, s.start);
    }
  }

  /** In every run in which no cleanup finds a stale group and every packet the window accepts
      opens, whatever else is sent, repeated, reordered or lost: a message is handed out exactly
      if the window accepted all its packets. */
  lemma DeliversExactly(tx: Channel, ch: Channel, size: nat, events: seq<Event>, i: nat)
    requires Matched(tx, ch) && Sized(size) && SendsUnambiguous(events) && CalmRun(tx, ch, size, events)
    requires i < |Run(tx, ch, size, events).sent|
    ensures var w := Run(tx, ch, size, events);
      AllAccepted(w.sent[i], w.accepted) <==> w.sent[i].start in w.starts
  {
    var origin := RunKeeps(tx, ch, size, events);
    RunIsKept(tx, ch, size, events);
    var w := Run(tx, ch, size, events);
    DeliveredWasAccepted(tx, ch, size, events, i);
    if AllAccepted(w.sent[i], w.accepted) {
      AcceptedWasDelivered(tx, w, origin, i);
    }
  }
}
