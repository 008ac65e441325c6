/** What cleanup_fragments costs: a message whose group expires is lost for good, because
    the window refuses the fragments that were already seen. */
module Expiry {
  import opened Bytes
  import opened Replay
  import opened Data
  import opened Fragments
  import opened Delivery
  import opened Ages

  /** The receiver will never accept the number. */
  ghost predicate Refused(w: World, number: int) {
    !Acceptable(w.accepted, w.rx.window.size, number)
  }

  lemma RefusedStays(w: World, w': World, number: int)
    requires Refused(w, number) && w.accepted <= w'.accepted && w'.rx.window.size == w.rx.window.size
    ensures Refused(w', number)
  {
  }

  /** Packet k of message i cannot be accepted any more, and its chunk is not there. */
  ghost predicate Lost(w: World, i: nat, k: nat) {
    && i < |w.sent| && k < PacketCount(w.sent[i].plain)
    && Refused(w, w.sent[i].start + k)
    && k !in Collected(w.rx.groups, w.sent[i].start)
  }

  lemma LostOwnFragment(s: Sent, groups: map<int, Group>, accepted: set<int>, l: nat, k: nat, now: real)
    requires |s.plain| > MAX_PAYLOAD && k < PacketCount(s.plain) && l < PacketCount(s.plain) && l != k
    requires GroupFits(s, groups, accepted) && k !in Collected(groups, s.start)
    ensures var (after, outcome) :=
        AddFragment(groups, s.start, PacketCount(s.plain), l, Chunk(s.plain, l), now);
      outcome == Dropped && k !in Collected(after, s.start)
  {
    assert !Completes(s, groups, l);
    AddHonest(s, groups, accepted, l, now);
  }

  /** A further packet of the message itself does not complete it. */
  lemma LostOwnPacket(s: Sent, groups: map<int, Group>, accepted: set<int>, l: nat, k: nat, now: real)
    requires k < PacketCount(s.plain) <= 255 && l < PacketCount(s.plain) && l != k
    requires GroupFits(s, groups, accepted) && k !in Collected(groups, s.start) && Unambiguous(s.plain)
    ensures var (after, outcome) := Absorb(groups, s.start + l, PacketPlain(s.plain, l), now);
      outcome == Dropped && k !in Collected(after, s.start)
  {
    AbsorbHonest(s, groups, l, now);
    LostOwnFragment(s, groups, accepted, l, k, now);
  }

  /** Nor does a packet of another one bring the chunk back. */
  lemma LostKept(w: World, w': World, m: nat, l: nat, i: nat, k: nat, groups: map<int, Group>, outcome: Outcome)
    requires Lost(w, i, k) && m < |w.sent| && OwnStart(w.sent, m)
    requires Accepting(w, w', w.sent[m].start + l, groups, outcome, w.sent[m].start)
    requires if m == i then k !in Collected(groups, w.sent[i].start)
             else Effect(w.sent[m], w.rx.groups, groups, outcome, w'.accepted)
    ensures Lost(w', i, k)
  {
    RefusedStays(w, w', w.sent[i].start + k);
  }

  lemma LostAccepting(w: World, w': World, origin: seq<nat>, m: nat, l: nat, i: nat, k: nat,
                      groups: map<int, Group>, outcome: Outcome)
    returns (origin': seq<nat>)
    requires RxInv(w, origin) && Lost(w, i, k)
    requires m < |w.sent| && l < PacketCount(w.sent[m].plain) && OwnStart(w.sent, m)
    requires Accepting(w, w', w.sent[m].start + l, groups, outcome, w.sent[m].start)
    requires Effect(w.sent[m], w.rx.groups, groups, outcome, w'.accepted)
    requires m == i ==> outcome == Dropped && k !in Collected(groups, w.sent[i].start)
    ensures RxInv(w', origin') && Lost(w', i, k)
    ensures i !in origin ==> i !in origin'
  {
    LostKept(w, w', m, l, i, k, groups, outcome);
    origin' := AcceptKeeps(w, w', origin, m, l, groups, outcome);
  }

  /** A number that is accepted is not one that is refused. */
  lemma NotTheLost(w: World, m: nat, l: nat, i: nat, k: nat)
    requires Tracks(w.rx.window, w.accepted) && Lost(w, i, k) && m < |w.sent|
    requires Checked(w.rx.window, w.sent[m].start + l).1
    ensures m == i ==> l != k
  {
    CheckRefines(w.rx.window, w.accepted, w.sent[m].start + l);
  }

  /** A packet of message m, accepted after packet k of message i was lost, does not complete i. */
  lemma LostArrival(w: World, origin: seq<nat>, now: real, m: nat, l: nat, i: nat, k: nat)
    returns (origin': seq<nat>)
    requires RxInv(w, origin) && Lost(w, i, k)
    requires m < |w.sent| && l < PacketCount(w.sent[m].plain) <= 255 && Unambiguous(w.sent[m].plain)
    requires GroupFits(w.sent[m], w.rx.groups, w.accepted) && OwnStart(w.sent, m)
    requires Checked(w.rx.window, w.sent[m].start + l).1
    ensures var w' := Received(w, w.sent[m].start + l, Some(PacketPlain(w.sent[m].plain, l)), now);
      RxInv(w', origin') && Lost(w', i, k)
    ensures i !in origin ==> i !in origin'
  {
    var s := w.sent[m];
    var counter, plain := s.start + l, PacketPlain(s.plain, l);
    var (groups, outcome) := Absorb(w.rx.groups, counter, plain, now);
    AcceptHonest(s, w.rx.groups, w.accepted, l, now);
    ReceivedAccepting(w, counter, plain, now);
    UnderHonest(s, l);
    NotTheLost(w, m, l, i, k);
    if m == i {
      LostOwnPacket(s, w.rx.groups, w.accepted, l, k, now);
    }
    origin' := LostAccepting(w, Received(w, counter, Some(plain), now), origin, m, l, i, k, groups, outcome);
  }

  lemma LostDropped(w: World, counter: nat, plain: Option<bytes>, now: real, i: nat, k: nat)
    requires Tracks(w.rx.window, w.accepted) && Lost(w, i, k)
    requires !Checked(w.rx.window, counter).1 || plain.None?
    ensures Lost(Received(w, counter, plain, now), i, k)
  {
    ReceivedDropped(w, counter, plain, now);
    RefusedStays(w, Received(w, counter, plain, now), w.sent[i].start + k);
  }

  /** No packet brings a lost message back. */
  lemma LostThroughReading(w: World, origin: seq<nat>, r: Reading, now: real, i: nat, k: nat)
    returns (origin': seq<nat>)
    requires RxInv(w, origin) && HonestReading(w.sent, r) && Lost(w, i, k)
    ensures RxInv(ReceivedReading(w, r, now), origin') && Lost(ReceivedReading(w, r, now), i, k)
    ensures i !in origin ==> i !in origin'
  {
    origin' := origin;
    match r
    case Unreadable =>
    case Reading(counter, plain) =>
      if !Checked(w.rx.window, counter).1 || plain.None? {
        DroppedArrival(w, origin, counter, plain, now);
        LostDropped(w, counter, plain, now, i, k);
      } else {
        var m, l :| ReadsAs(w.sent, r, m, l);
        FindGroup(w.sent, w.rx.groups, w.accepted, m);
        origin' := LostArrival(w, origin, now, m, l, i, k);
      }
  }

  lemma LostStep(tx: Channel, ch: Channel, w: World, origin: seq<nat>, e: Event, i: nat, k: nat)
    returns (origin': seq<nat>)
    requires Matched(tx, ch) && Inv(tx, w, origin) && Lost(w, i, k)
    requires e.Send? ==> Unambiguous(e.plain)
    ensures Inv(tx, Step(tx, ch, w, e), origin') && Lost(Step(tx, ch, w, e), i, k)
    ensures i !in origin ==> i !in origin'
  {
    origin' := origin;
    match e
    case Send(_, _) => SendKeeps(tx, ch, w, origin, e);
    case Expire(_) => ExpireKeeps(tx, ch, w, origin, e);
    case Arrive(wire, now) =>
      if Deliverable(ch, w.sent, wire) {
        Recognize(tx, ch, w.sent, w.counter, wire);
        origin' := LostThroughReading(w, origin, Read(ch, wire), now, i, k);
      }
  }

  lemma {:induction false} RunLast(tx: Channel, ch: Channel, size: nat, events: seq<Event>, more: seq<Event>)
    requires more != []
    ensures var n := |more| - 1;
      && Run(tx, ch, size, events + more) == Step(tx, ch, Run(tx, ch, size, events + more[..n]), more[n])
      && (SendsUnambiguous(events + more) ==>
            SendsUnambiguous(events + more[..n]) && (more[n].Send? ==> Unambiguous(more[n].plain)))
  {
    var n := |more| - 1;
    var all := events + more;
    assert all[..|all| - 1] == events + more[..n] && all[|all| - 1] == more[n];
    assert forall i :: 0 <= i < |events + more[..n]| ==> (events + more[..n])[i] == all[i];
  }

  lemma {:induction false} LostForever(tx: Channel, ch: Channel, size: nat, events: seq<Event>, more: seq<Event>,
                                       origin: seq<nat>, i: nat, k: nat)
    returns (origin': seq<nat>)
    requires Matched(tx, ch) && Sized(size) && SendsUnambiguous(events + more)
    requires Inv(tx, Run(tx, ch, size, events), origin) && Lost(Run(tx, ch, size, events), i, k)
    requires i !in origin
    ensures Inv(tx, Run(tx, ch, size, events + more), origin') && Lost(Run(tx, ch, size, events + more), i, k)
    ensures i !in origin'
  {
    if more == [] {
      assert events + more == events;
      origin' := origin;
    } else {
      var n := |more| - 1;
      RunLast(tx, ch, size, events, more);
      var o := LostForever(tx, ch, size, events, more[..n], origin, i, k);
      origin' := LostStep(tx, ch, Run(tx, ch, size, events + more[..n]), o, more[n], i, k);
    }
  }

  /** What was sent stays in the history. */
  lemma {:induction false} SentKept(tx: Channel, ch: Channel, size: nat, events: seq<Event>, more: seq<Event>, i: nat)
    requires i < |Run(tx, ch, size, events).sent|
    ensures i < |Run(tx, ch, size, events + more).sent|
    ensures Run(tx, ch, size, events + more).sent[i] == Run(tx, ch, size, events).sent[i]
  {
    if more == [] {
      assert events + more == events;
    } else {
      RunLast(tx, ch, size, events, more);
      SentKept(tx, ch, size, events, more[..|more| - 1], i);
    }
  }

  /** A message with a group was not handed out. */
  lemma GroupNotDelivered(w: World, origin: seq<nat>, i: nat)
    requires RxInv(w, origin) && i < |w.sent| && |w.sent[i].plain| > MAX_PAYLOAD
    requires w.sent[i].start in w.rx.groups
    ensures i !in origin
  {
    forall j | 0 <= j < |origin|
      ensures origin[j] != i
    {
      assert Finished(w.sent[origin[j]], w.rx.groups, w.accepted);
    }
  }

  lemma AFragment(g: Group) returns (k: nat)
    requires |g.fragments| > 0
    ensures k in g.fragments
  {
    assert |g.fragments| == |g.fragments.Keys|;
    k := AnElement(g.fragments.Keys);
  }

  lemma GroupOwner(sent: seq<Sent>, groups: map<int, Group>, accepted: set<int>, id: int) returns (i: nat)
    requires GroupsOk(sent, groups, accepted) && id in groups
    ensures i < |sent| && sent[i].start == id && GroupOk(sent[i], groups[id], accepted)
  {
    i :| 0 <= i < |sent| && sent[i].start == id && GroupOk(sent[i], groups[id], accepted);
  }

  lemma InGroup(s: Sent, g: Group, accepted: set<int>) returns (k: nat)
    requires GroupOk(s, g, accepted)
    ensures k < PacketCount(s.plain) && s.start + k in accepted
  {
    k := AFragment(g);
    assert PacketAccepted(s, k, accepted);
  }

  /** A group holds an accepted packet of its message. */
  lemma GroupMessage(w: World, id: int) returns (i: nat, k: nat)
    requires GroupsOk(w.sent, w.rx.groups, w.accepted) && id in w.rx.groups
    ensures i < |w.sent| && w.sent[i].start == id && |w.sent[i].plain| > MAX_PAYLOAD
    ensures k < PacketCount(w.sent[i].plain) && id + k in w.accepted
  {
    i := GroupOwner(w.sent, w.rx.groups, w.accepted, id);
    k := InGroup(w.sent[i], w.rx.groups[id], w.accepted);
  }

  /** Right after its group expired, a message is lost and was not handed out before. */
  lemma ExpiredIsLost(tx: Channel, ch: Channel, w: World, origin: seq<nat>, id: int, now: real)
    returns (i: nat, k: nat)
    requires RxInv(w, origin)
    requires id in w.rx.groups && id !in Step(tx, ch, w, Expire(now)).rx.groups
    ensures Lost(Step(tx, ch, w, Expire(now)), i, k) && w.sent[i].start == id && i !in origin
  {
    i, k := GroupMessage(w, id);
    GroupNotDelivered(w, origin, i);
  }

  /** Nothing was handed out under the number of message i in the run that ended in w. */
  ghost predicate NeverDelivered(w: World, i: nat) {
    i < |w.sent| && w.sent[i].start !in w.starts
  }

  lemma NotAmongOrigins(tx: Channel, w: World, origin: seq<nat>, i: nat)
    requires tx.key.Some? && SentOk(tx, w.sent, w.counter) && Origins(w, origin)
    requires i < |w.sent| && i !in origin
    ensures NeverDelivered(w, i)
  {
    forall j | 0 <= j < |w.starts|
      ensures w.starts[j] != w.sent[i].start
    {
      DistinctStarts(tx, w.sent, w.counter, origin[j], i);
    }
  }

  /** Right after a cleanup more than five seconds after the packet that opened a group. */
  lemma CleanedUp(tx: Channel, ch: Channel, size: nat, events: seq<Event>, id: int, opener: nat, now: real)
    returns (origin: seq<nat>, i: nat, k: nat)
    requires Matched(tx, ch) && Sized(size) && SendsUnambiguous(events)
    requires Opened(tx, ch, size, events, id, opener) && now - events[opener].now > 5.0
    ensures var w := Run(tx, ch, size, events + [Expire(now)]);
      Inv(tx, w, origin) && Lost(w, i, k) && w.sent[i].start == id && i !in origin
  {
    assert events[..|events|] == events;
    KeptFiveSeconds(tx, ch, size, events, id, opener, now);
    OneMore(tx, ch, size, events, Expire(now));
    origin := RunKeeps(tx, ch, size, events);
    var w := Run(tx, ch, size, events);
    i, k := ExpiredIsLost(tx, ch, w, origin, id, now);
    ExpireKeeps(tx, ch, w, origin, Expire(now));
  }

  /** If cleanup_fragments runs more than five seconds after the packet that opened a group, then,
      whatever happens afterwards, its message is never handed out. */
  lemma ExpiredNeverDelivered(tx: Channel, ch: Channel, size: nat, events: seq<Event>, id: int, opener: nat,
                              now: real, more: seq<Event>)
    requires Matched(tx, ch) && Sized(size) && SendsUnambiguous(events) && SendsUnambiguous(more)
    requires Opened(tx, ch, size, events, id, opener) && now - events[opener].now > 5.0
    ensures var w := Run(tx, ch, size, events + [Expire(now)] + more);
      exists i :: 0 <= i < |w.sent| && w.sent[i].start == id && NeverDelivered(w, i)
  {
    var until := events + [Expire(now)];
    var origin, i, k := CleanedUp(tx, ch, size, events, id, opener, now);
    var origin' := LostForever(tx, ch, size, until, more, origin, i, k);
    NotAmongOrigins(tx, Run(tx, ch, size, until + more), origin', i);
    SentKept(tx, ch, size, until, more, i);
  }
}
