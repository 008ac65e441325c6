/** What a packet that does not open does to the receiver, and what it costs the sender: the
    window moves before the packet is authenticated. */
module Forgery {
  import opened Bits
  import opened Bytes
  import opened Replay
  import opened Data
  import opened Fragments
  import opened Delivery
  import opened Expiry

  /** The numbers that accepting n makes the window refuse. */
  predicate Burned(size: nat, n: int, p: int) {
    p == n || p + size <= n
  }

  lemma AcceptBurns(accepted: set<int>, size: nat, n: int, p: int)
    requires Acceptable(accepted, size, n) && size > 0
    ensures Acceptable(accepted + {n}, size, p) <==> Acceptable(accepted, size, p) && !Burned(size, n, p)
  {
    assert n in accepted + {n};
  }

  lemma BitTells(w: Window, accepted: set<int>, n: nat)
    requires Tracks(w, accepted) && n <= w.highest < n + w.size
    ensures Bit(w.seen, w.highest - n) <==> n in accepted
  {
    var d := w.highest - n;
    assert Bit(w.seen, d) <==> w.highest - d in accepted;
  }

  lemma WindowMoves(w: Window, accepted: set<int>, n: nat)
    requires Tracks(w, accepted) && Acceptable(accepted, w.size, n)
    ensures Checked(w, n).0 != w
  {
    CheckRefines(w, accepted, n);
    if n <= w.highest {
      BitTells(w, accepted, n);
      BitTells(Checked(w, n).0, accepted + {n}, n);
    }
  }

  /** A packet numbered n that does not open leaves the receiver as it was exactly if the
      window would have refused n anyway. Otherwise it opens no group and delivers nothing, but
      the numbers refused from then on are, beyond those refused before, exactly n and all that
      are the window's size or more below n. */
  lemma UnopenedExact(rx: Rx, accepted: set<int>, n: nat, now: real)
    requires Tracks(rx.window, accepted)
    ensures var (rx', outcome) := Admit(rx, n, None, now);
      && outcome == Dropped && rx'.groups == rx.groups
      && (rx' == rx <==> !Acceptable(accepted, rx.window.size, n))
      && forall p :: Checked(rx'.window, p).1 <==>
           Checked(rx.window, p).1 && !(Acceptable(accepted, rx.window.size, n) && Burned(rx.window.size, n, p))
  {
    var rx' := Admit(rx, n, None, now).0;
    CheckRefines(rx.window, accepted, n);
    var accepted' := Accept(accepted, n, Checked(rx.window, n).1);
    if Acceptable(accepted, rx.window.size, n) {
      WindowMoves(rx.window, accepted, n);
    }
    forall p
      ensures Checked(rx'.window, p).1 <==>
        Checked(rx.window, p).1 && !(Acceptable(accepted, rx.window.size, n) && Burned(rx.window.size, n, p))
    {
      CheckRefines(rx.window, accepted, p);
      CheckRefines(rx'.window, accepted', p);
      if Acceptable(accepted, rx.window.size, n) {
        AcceptBurns(accepted, rx.window.size, n, p);
      }
    }
  }

  // ---- In a run ----

  lemma {:induction false} WindowKeepsSize(tx: Channel, ch: Channel, size: nat, events: seq<Event>)
    ensures Run(tx, ch, size, events).rx.window.size == size
  {
    if events != [] {
      WindowKeepsSize(tx, ch, size, events[..|events| - 1]);
    }
  }

  lemma {:induction false} RunAppends(tx: Channel, ch: Channel, size: nat, events: seq<Event>, e: Event)
    ensures Run(tx, ch, size, events + [e]) == Step(tx, ch, Run(tx, ch, size, events), e)
  {
    assert (events + [e])[..|events|] == events;
  }

  /** In every run: what the arrival of such a packet changes, and which numbers it burns. */
  lemma UnopenedInRun(tx: Channel, ch: Channel, size: nat, events: seq<Event>, wire: bytes, n: nat, now: real)
    requires Matched(tx, ch) && Sized(size) && SendsUnambiguous(events)
    requires Read(ch, wire) == Reading(n, None)
    ensures var w, w' := Run(tx, ch, size, events), Run(tx, ch, size, events + [Arrive(wire, now)]);
      && w' == w.(rx := w.rx.(window := w'.rx.window), accepted := w'.accepted)
      && (w' == w <==> !Acceptable(w.accepted, size, n))
      && forall p :: Refused(w', p) <==> Refused(w, p) || (Acceptable(w.accepted, size, n) && Burned(size, n, p))
  {
    var w := Run(tx, ch, size, events);
    var origin := RunKeeps(tx, ch, size, events);
    WindowKeepsSize(tx, ch, size, events);
    RunAppends(tx, ch, size, events, Arrive(wire, now));
    UnopenedExact(w.rx, w.accepted, n, now);
    CheckRefines(w.rx.window, w.accepted, n);
    if Acceptable(w.accepted, size, n) {
      forall p
        ensures Acceptable(w.accepted + {n}, size, p) <==> Acceptable(w.accepted, size, p) && !Burned(size, n, p)
      {
        AcceptBurns(w.accepted, size, n, p);
      }
    }
  }

  // ---- What it costs ----

  /** Packet k of message i has the number p. */
  ghost predicate Owns(sent: seq<Sent>, i: nat, k: nat, p: int) {
    i < |sent| && k < PacketCount(sent[i].plain) && sent[i].start + k == p
  }

  /** The number p is refused, and the message it belongs to, if one has it already, was not
      handed out and lacks that packet. */
  ghost predicate Dead(w: World, origin: seq<nat>, p: int) {
    && Refused(w, p)
    && forall i: nat, k: nat :: Owns(w.sent, i, k, p) ==> i !in origin && Lost(w, i, k)
  }

  /** A number belongs to one packet only. */
  lemma OneOwner(tx: Channel, sent: seq<Sent>, counter: nat, i: nat, k: nat, j: nat, l: nat, p: int)
    requires tx.key.Some? && SentOk(tx, sent, counter) && Owns(sent, i, k, p) && Owns(sent, j, l, p)
    ensures i == j && k == l
  {
  }

  /** No group is filed under a number that is still to come. */
  lemma GroupsAreOld(tx: Channel, w: World, origin: seq<nat>, id: int)
    requires tx.key.Some? && Inv(tx, w, origin) && id in w.rx.groups
    ensures id <= w.counter
  {
    var i, k := GroupMessage(w, id);
    assert EntryOk(tx, w.sent[i], w.counter);
  }

  lemma DeadAfterSend(tx: Channel, ch: Channel, w: World, origin: seq<nat>, e: Event, p: int)
    requires tx.key.Some? && Inv(tx, w, origin) && Dead(w, origin, p) && e.Send?
    ensures Dead(Step(tx, ch, w, e), origin, p)
  {
    var w' := Step(tx, ch, w, e);
    assert w'.sent == w.sent || (|w'.sent| == |w.sent| + 1 && w'.sent[..|w.sent|] == w.sent);
    forall i: nat, k: nat | Owns(w'.sent, i, k, p)
      ensures i !in origin && Lost(w', i, k)
    {
      if i < |w.sent| {
        assert w'.sent[i] == w.sent[i] && Owns(w.sent, i, k, p);
      } else if w'.sent[i].start in w.rx.groups {
        GroupsAreOld(tx, w, origin, w'.sent[i].start);
      }
    }
  }

  lemma RefusedAfter(ch: Channel, w: World, wire: bytes, now: real, p: int)
    requires Refused(w, p)
    ensures Refused(Arrived(ch, w, wire, now), p)
  {
    RefusedStays(w, Arrived(ch, w, wire, now), p);
  }

  lemma DeadAfterArrival(tx: Channel, ch: Channel, w: World, origin: seq<nat>, wire: bytes, now: real, p: int)
    returns (origin': seq<nat>)
    requires Matched(tx, ch) && Inv(tx, w, origin) && Dead(w, origin, p) && Deliverable(ch, w.sent, wire)
    ensures Inv(tx, Arrived(ch, w, wire, now), origin') && Dead(Arrived(ch, w, wire, now), origin', p)
  {
    RefusedAfter(ch, w, wire, now, p);
    if i: nat, k: nat :| Owns(w.sent, i, k, p) {
      origin' := LostStep(tx, ch, w, origin, Arrive(wire, now), i, k);
      forall j: nat, l: nat | Owns(w.sent, j, l, p)
        ensures i == j && k == l
      {
        OneOwner(tx, w.sent, w.counter, i, k, j, l, p);
      }
    } else {
      origin' := ArriveKeeps(tx, ch, w, origin, wire, now);
    }
  }

  lemma DeadStep(tx: Channel, ch: Channel, w: World, origin: seq<nat>, e: Event, p: int)
    returns (origin': seq<nat>)
    requires Matched(tx, ch) && Inv(tx, w, origin) && Dead(w, origin, p)
    requires e.Send? ==> Unambiguous(e.plain)
    ensures Inv(tx, Step(tx, ch, w, e), origin') && Dead(Step(tx, ch, w, e), origin', p)
  {
    origin' := origin;
    match e
    case Send(_, _) =>
      SendKeeps(tx, ch, w, origin, e);
      DeadAfterSend(tx, ch, w, origin, e, p);
    case Expire(_) =>
      ExpireKeeps(tx, ch, w, origin, e);
      forall i: nat, k: nat | Owns(w.sent, i, k, p)
        ensures Lost(Step(tx, ch, w, e), i, k)
      {
        assert Lost(w, i, k);
      }
    case Arrive(wire, now) =>
      if Deliverable(ch, w.sent, wire) {
        origin' := DeadAfterArrival(tx, ch, w, origin, wire, now, p);
      }
  }

  lemma {:induction false} DeadForever(tx: Channel, ch: Channel, size: nat, events: seq<Event>, more: seq<Event>,
                                       origin: seq<nat>, p: int)
    returns (origin': seq<nat>)
    requires Matched(tx, ch) && Sized(size) && SendsUnambiguous(events + more)
    requires Inv(tx, Run(tx, ch, size, events), origin) && Dead(Run(tx, ch, size, events), origin, p)
    ensures Inv(tx, Run(tx, ch, size, events + more), origin')
    ensures Dead(Run(tx, ch, size, events + more), origin', p)
  {
    if more == [] {
      assert events + more == events;
      origin' := origin;
    } else {
      var n := |more| - 1;
      RunLast(tx, ch, size, events, more);
      var o := DeadForever(tx, ch, size, events, more[..n], origin, p);
      origin' := DeadStep(tx, ch, Run(tx, ch, size, events + more[..n]), o, more[n], p);
    }
  }

  /** A packet that was not accepted is in no group, and its message was not handed out. */
  lemma UnacceptedIsMissing(tx: Channel, w: World, origin: seq<nat>, i: nat, k: nat)
    requires tx.key.Some? && Inv(tx, w, origin) && i < |w.sent| && k < PacketCount(w.sent[i].plain)
    requires w.sent[i].start + k !in w.accepted
    ensures i !in origin && k !in Collected(w.rx.groups, w.sent[i].start)
  {
    assert !PacketAccepted(w.sent[i], k, w.accepted);
    FindGroup(w.sent, w.rx.groups, w.accepted, i);
    forall j | 0 <= j < |origin|
      ensures origin[j] != i
    {
      assert Finished(w.sent[origin[j]], w.rx.groups, w.accepted);
    }
  }

  lemma BurnedIsDead(tx: Channel, w: World, w': World, origin: seq<nat>, p: int)
    requires tx.key.Some? && Inv(tx, w, origin) && p !in w.accepted && Refused(w', p)
    requires w'.sent == w.sent && w'.rx.groups == w.rx.groups
    ensures Dead(w', origin, p)
  {
    forall i: nat, k: nat | Owns(w.sent, i, k, p)
      ensures i !in origin && Lost(w', i, k)
    {
      UnacceptedIsMissing(tx, w, origin, i, k);
    }
  }

  lemma BurnedAtArrival(tx: Channel, ch: Channel, size: nat, events: seq<Event>, wire: bytes, n: nat, now: real, p: int)
    returns (origin: seq<nat>)
    requires Matched(tx, ch) && Sized(size) && SendsUnambiguous(events)
    requires Read(ch, wire) == Reading(n, None) && Acceptable(Run(tx, ch, size, events).accepted, size, n)
    requires Burned(size, n, p) && p !in Run(tx, ch, size, events).accepted
    ensures var w' := Run(tx, ch, size, events + [Arrive(wire, now)]);
      Inv(tx, w', origin) && Dead(w', origin, p)
  {
    var w, w' := Run(tx, ch, size, events), Run(tx, ch, size, events + [Arrive(wire, now)]);
    origin := RunKeeps(tx, ch, size, events);
    UnopenedInRun(tx, ch, size, events, wire, n, now);
    BurnedIsDead(tx, w, w', origin, p);
    RunAppends(tx, ch, size, events, Arrive(wire, now));
    DroppedArrival(w, origin, n, None, now);
  }

  /** The cost of one packet that does not open, in every run and every continuation: a
      message, sent before or after, with a burned number that was not accepted before is never
      handed out. */
  lemma BurnedNeverDelivered(tx: Channel, ch: Channel, size: nat, events: seq<Event>, wire: bytes, n: nat, now: real,
                             more: seq<Event>, i: nat, k: nat, p: int)
    requires Matched(tx, ch) && Sized(size) && SendsUnambiguous(events + [Arrive(wire, now)] + more)
    requires Read(ch, wire) == Reading(n, None) && Acceptable(Run(tx, ch, size, events).accepted, size, n)
    requires Burned(size, n, p) && p !in Run(tx, ch, size, events).accepted
    requires Owns(Run(tx, ch, size, events + [Arrive(wire, now)] + more).sent, i, k, p)
    ensures NeverDelivered(Run(tx, ch, size, events + [Arrive(wire, now)] + more), i)
  {
    var until := events + [Arrive(wire, now)];
    assert forall i :: 0 <= i < |events| ==> (until + more)[i] == events[i];
    var origin := BurnedAtArrival(tx, ch, size, events, wire, n, now, p);
    var origin' := DeadForever(tx, ch, size, until, more, origin, p);
    NotAmongOrigins(tx, Run(tx, ch, size, until + more), origin', i);
  }
}
