/** End-to-end safety of the data channel: one sender, one receiver, and a network that
    loses, duplicates, reorders and corrupts packets, over every run. */
module Delivery {
  import opened Bytes
  import opened Replay
  import opened Data
  import opened Fragments
  import Numbering

  /** One successful encrypt call: the number of its first packet, and its packets. */
  datatype Sent = Sent(start: nat, plain: bytes, wires: seq<bytes>)

  datatype Event =
    | Send(plain: bytes, nonces: nat -> Nonce)
    | Arrive(wire: bytes, now: real)
    | Expire(now: real)

  /** Sender counter and history of sends; receiver, the ids its window has accepted, what
      its decrypt calls returned and under which numbers, and whether one of them raised
      KeyError. */
  datatype World = World(
    counter: nat, sent: seq<Sent>,
    rx: Rx, accepted: set<int>, outputs: seq<bytes>, starts: seq<int>, raised: bool)

  ghost function Start(size: nat): World {
    World(0, [], NewRx(size), {}, [], [], false)
  }

  /** What the network may hand over: anything the receiver cannot parse or cannot
      authenticate, and otherwise only the number and body of a packet that was sent
      (under whatever header). */
  ghost predicate Deliverable(ch: Channel, sent: seq<Sent>, wire: bytes) {
    || Read(ch, wire).Unreadable?
    || Read(ch, wire).plain.None?
    || exists i, k :: 0 <= i < |sent| && 0 <= k < |sent[i].wires|
                      && ParseWire(sent[i].wires[k]) == ParseWire(wire)
  }

  /** The receiver's decrypt call on a packet with this number and plaintext. */
  ghost function Received(w: World, counter: nat, plain: Option<bytes>, now: real): (w': World)
    ensures w'.sent == w.sent && w'.counter == w.counter
  {
    var (rx, outcome) := Admit(w.rx, counter, plain, now);
    w.(rx := rx,
       accepted := Accept(w.accepted, counter, Checked(w.rx.window, counter).1),
       outputs := if outcome.Delivered? then w.outputs + [outcome.data] else w.outputs,
       starts := if outcome.Delivered? then w.starts + [Under(counter, plain.value)] else w.starts,
       raised := w.raised || outcome.Raised?)
  }

  ghost function ReceivedReading(w: World, r: Reading, now: real): (w': World)
    ensures w'.sent == w.sent && w'.counter == w.counter
  {
    match r
    case Unreadable => w
    case Reading(counter, plain) => Received(w, counter, plain, now)
  }

  ghost function Arrived(ch: Channel, w: World, wire: bytes, now: real): World {
    ReceivedReading(w, Read(ch, wire), now)
  }

  /** Arrived is one decrypt call on the receiver. */
  lemma ArrivedDecrypts(ch: Channel, w: World, wire: bytes, now: real)
    ensures var (rx, outcome) := Decrypt(ch, w.rx, wire, now);
      var w' := Arrived(ch, w, wire, now);
      && w'.rx == rx
      && w'.outputs == (if outcome.Delivered? then w.outputs + [outcome.data] else w.outputs)
      && w'.starts == (if outcome.Delivered? then w.starts + [UnderOf(ch, wire)] else w.starts)
      && w'.raised == (w.raised || outcome.Raised?)
      && w'.sent == w.sent && w'.counter == w.counter
  {
  }

  /** One event; a packet the network cannot produce does not arrive. */
  ghost function Step(tx: Channel, ch: Channel, w: World, e: Event): World
  {
    match e
    case Send(plain, nonces) =>
      var (counter, wires) := Encrypt(tx, w.counter, plain, nonces);
      w.(counter := counter,
         sent := if wires.Some? then w.sent + [Sent(w.counter + 1, plain, wires.value)] else w.sent)
    case Arrive(wire, now) =>
      if Deliverable(ch, w.sent, wire) then Arrived(ch, w, wire, now) else w
    case Expire(now) =>
      w.(rx := w.rx.(groups := Cleanup(w.rx.groups, now)))
  }

  ghost function Run(tx: Channel, ch: Channel, size: nat, events: seq<Event>): World
  {
    if events == [] then Start(size)
    else Step(tx, ch, Run(tx, ch, size, events[..|events| - 1]), events[|events| - 1])
  }

  ghost predicate SendsUnambiguous(events: seq<Event>) {
    forall i :: 0 <= i < |events| && events[i].Send? ==> Unambiguous(events[i].plain)
  }

  // ---- Invariant ----

  /** The packets of s are what Seal makes of it. */
  ghost predicate EntryOk(tx: Channel, s: Sent, counter: nat)
    requires tx.key.Some?
  {
    && 1 <= s.start && PacketCount(s.plain) <= 255
    && s.start + PacketCount(s.plain) - 1 <= counter
    && CounterFits(s.start + PacketCount(s.plain) - 1)
    && (exists nonces: nat -> Nonce :: s.wires == Sealed(tx, s.plain, s.start, nonces))
    && Unambiguous(s.plain)
  }

  /** Packet numbers are handed out in order, without overlap. */
  ghost predicate SentOk(tx: Channel, sent: seq<Sent>, counter: nat)
    requires tx.key.Some?
  {
    && (forall i :: 0 <= i < |sent| ==> EntryOk(tx, sent[i], counter))
    && (forall i, j :: 0 <= i < j < |sent| ==> sent[i].start + PacketCount(sent[i].plain) <= sent[j].start)
  }

  ghost predicate PacketAccepted(s: Sent, k: nat, accepted: set<int>) {
    s.start + k in accepted
  }

  /** A non-empty, incomplete part of the chunks of s, all of whose numbers were accepted. */
  ghost predicate GroupOk(s: Sent, g: Group, accepted: set<int>) {
    && |s.plain| > MAX_PAYLOAD
    && g.total == PacketCount(s.plain)
    && 0 < |g.fragments| < g.total
    && (forall k :: k in g.fragments ==>
          k < g.total && g.fragments[k] == Chunk(s.plain, k)
          && PacketAccepted(s, k, accepted))
  }

  ghost predicate GroupsOk(sent: seq<Sent>, groups: map<int, Group>, accepted: set<int>) {
    forall id :: id in groups ==>
      exists i :: 0 <= i < |sent| && sent[i].start == id && GroupOk(sent[i], groups[id], accepted)
  }

  /** All packets of s have been accepted. */
  ghost predicate AllAccepted(s: Sent, accepted: set<int>) {
    forall k: nat :: k < PacketCount(s.plain) ==> PacketAccepted(s, k, accepted)
  }

  /** Nothing of s can arrive again, and no group is left of it. */
  ghost predicate Finished(s: Sent, groups: map<int, Group>, accepted: set<int>) {
    AllAccepted(s, accepted) && (|s.plain| > MAX_PAYLOAD ==> s.start !in groups)
  }

  /** origin names, for every datagram handed out, the encrypt call it came from: the one with
      the number under which it was handed out. */
  ghost predicate Origins(w: World, origin: seq<nat>) {
    && |origin| == |w.outputs| == |w.starts|
    && (forall j :: 0 <= j < |origin| ==>
          && origin[j] < |w.sent| && w.outputs[j] == w.sent[origin[j]].plain
          && w.starts[j] == w.sent[origin[j]].start)
    && (forall i, j :: 0 <= i < j < |origin| ==> origin[i] != origin[j])
  }

  /** The receiver's half of the invariant. */
  ghost predicate RxInv(w: World, origin: seq<nat>) {
    && Tracks(w.rx.window, w.accepted)
    && GroupsOk(w.sent, w.rx.groups, w.accepted)
    && Origins(w, origin)
    && (forall j :: 0 <= j < |origin| ==> Finished(w.sent[origin[j]], w.rx.groups, w.accepted))
    && !w.raised
  }

  ghost predicate Inv(tx: Channel, w: World, origin: seq<nat>)
    requires tx.key.Some?
  {
    SentOk(tx, w.sent, w.counter) && RxInv(w, origin)
  }

  // ---- One event keeps it ----

  /** A further encrypt call keeps the numbering in order. */
  lemma SentGrows(tx: Channel, sent: seq<Sent>, counter: nat, counter': nat, s: Sent)
    requires tx.key.Some? && SentOk(tx, sent, counter)
    requires counter <= counter' && EntryOk(tx, s, counter') && s.start == counter + 1
    ensures SentOk(tx, sent + [s], counter')
  {
    var sent' := sent + [s];
    forall i | 0 <= i < |sent'|
      ensures EntryOk(tx, sent'[i], counter')
      ensures i < |sent| ==> sent'[i].start + PacketCount(sent'[i].plain) <= s.start
    {
      if i < |sent| {
        assert EntryOk(tx, sent[i], counter);
      }
    }
  }

  lemma SendKeeps(tx: Channel, ch: Channel, w: World, origin: seq<nat>, e: Event)
    requires tx.key.Some? && Inv(tx, w, origin)
    requires e.Send? && Unambiguous(e.plain)
    ensures Inv(tx, Step(tx, ch, w, e), origin)
  {
    var w' := Step(tx, ch, w, e);
    if Encryptable(tx, w.counter, e.plain) {
      var s := Sent(w.counter + 1, e.plain, Sealed(tx, e.plain, w.counter + 1, e.nonces));
      assert EntryOk(tx, s, w'.counter);
      SentGrows(tx, w.sent, w.counter, w'.counter, s);
      SentAppended(w, w', origin, s);
    } else {
      forall i | 0 <= i < |w.sent|
        ensures EntryOk(tx, w.sent[i], w'.counter)
      {
        assert EntryOk(tx, w.sent[i], w.counter);
      }
    }
  }

  lemma SentAppended(w: World, w': World, origin: seq<nat>, s: Sent)
    requires RxInv(w, origin) && w' == w.(counter := w'.counter, sent := w.sent + [s])
    ensures RxInv(w', origin)
  {
    forall id | id in w.rx.groups
      ensures exists i :: 0 <= i < |w'.sent| && w'.sent[i].start == id
                          && GroupOk(w'.sent[i], w.rx.groups[id], w.accepted)
    {
      var i :| 0 <= i < |w.sent| && w.sent[i].start == id && GroupOk(w.sent[i], w.rx.groups[id], w.accepted);
      assert w'.sent[i] == w.sent[i];
    }
  }

  lemma ExpireKeeps(tx: Channel, ch: Channel, w: World, origin: seq<nat>, e: Event)
    requires tx.key.Some? && Inv(tx, w, origin) && e.Expire?
    ensures Inv(tx, Step(tx, ch, w, e), origin)
  {
  }

  /** The fragments collected for the message starting at `start`. */
  function Collected(groups: map<int, Group>, start: int): map<nat, bytes> {
    if start in groups then groups[start].fragments else map[]
  }

  /** Packet k is the last one missing. */
  ghost predicate Completes(s: Sent, groups: map<int, Group>, k: nat) {
    forall i: nat :: i < PacketCount(s.plain) && i != k ==> i in Collected(groups, s.start)
  }

  ghost predicate GroupFits(s: Sent, groups: map<int, Group>, accepted: set<int>) {
    s.start in groups ==> GroupOk(s, groups[s.start], accepted)
  }

  /** Filing chunk k of s: the contents of the group afterwards. */
  lemma Filed(s: Sent, groups: map<int, Group>, accepted: set<int>, k: nat)
    requires |s.plain| > MAX_PAYLOAD && k < PacketCount(s.plain) && GroupFits(s, groups, accepted)
    ensures var filled := Collected(groups, s.start)[k := Chunk(s.plain, k)];
      forall i :: i in filled ==> i < PacketCount(s.plain) && filled[i] == Chunk(s.plain, i)
                                  && PacketAccepted(s, i, accepted + {s.start + k})
  {
    var filled := Collected(groups, s.start)[k := Chunk(s.plain, k)];
    forall i | i in filled
      ensures i < PacketCount(s.plain) && filled[i] == Chunk(s.plain, i)
      ensures PacketAccepted(s, i, accepted + {s.start + k})
    {
      if i != k {
        assert PacketAccepted(s, i, accepted);
      }
    }
  }

  /** It has as many fragments as the message has packets exactly when k was the last missing. */
  lemma FiledSize(s: Sent, groups: map<int, Group>, accepted: set<int>, k: nat)
    requires |s.plain| > MAX_PAYLOAD && k < PacketCount(s.plain) && GroupFits(s, groups, accepted)
    ensures var filled := Collected(groups, s.start)[k := Chunk(s.plain, k)];
      && 0 < |filled| <= PacketCount(s.plain)
      && (|filled| == PacketCount(s.plain) <==> Completes(s, groups, k))
  {
    Filed(s, groups, accepted, k);
    var n := PacketCount(s.plain);
    var filled := Collected(groups, s.start)[k := Chunk(s.plain, k)];
    assert k in filled;
    AllBelow(filled, n);
    SubsetSize(filled.Keys, Below(n));
    if |filled| == n {
      forall i: nat | i < n && i != k
        ensures i in Collected(groups, s.start)
      {
        assert i in filled;
      }
    }
  }

  /** Once nothing is missing, joining the fragments gives the message. */
  lemma FiledComplete(s: Sent, groups: map<int, Group>, accepted: set<int>, k: nat)
    requires |s.plain| > MAX_PAYLOAD && k < PacketCount(s.plain) && GroupFits(s, groups, accepted)
    requires Completes(s, groups, k)
    ensures var filled := Collected(groups, s.start)[k := Chunk(s.plain, k)];
      && (forall i :: 0 <= i < PacketCount(s.plain) ==> i in filled)
      && Join(filled, PacketCount(s.plain)) == s.plain
      && AllAccepted(s, accepted + {s.start + k})
  {
    Filed(s, groups, accepted, k);
    var filled := Collected(groups, s.start)[k := Chunk(s.plain, k)];
    forall i: nat | i < PacketCount(s.plain)
      ensures i in filled
    {
      assert i == k || i in Collected(groups, s.start);
    }
    var accepted' := accepted + {s.start + k};
    forall i: nat | i < PacketCount(s.plain)
      ensures PacketAccepted(s, i, accepted')
    {
      assert i in filled;
    }
    JoinAll(s.plain, filled);
  }

  /** The groups and outcome of filing packet k of s, after which `accepted` has its number. */
  ghost predicate FiledAs(s: Sent, groups: map<int, Group>, k: nat, after: map<int, Group>, outcome: Outcome,
                          accepted: set<int>) {
    if Completes(s, groups, k) then
      outcome == Delivered(s.plain) && after == groups - {s.start} && AllAccepted(s, accepted)
    else
      && outcome == Dropped
      && s.start in after && after == groups[s.start := after[s.start]]
      && after[s.start].fragments == Collected(groups, s.start)[k := Chunk(s.plain, k)]
      && GroupOk(s, after[s.start], accepted)
  }

  /** A fragment of s that was not seen before goes into its group, or completes it. */
  lemma AddHonest(s: Sent, groups: map<int, Group>, accepted: set<int>, k: nat, now: real)
    requires |s.plain| > MAX_PAYLOAD && k < PacketCount(s.plain) && GroupFits(s, groups, accepted)
    ensures var (after, outcome) := AddFragment(groups, s.start, PacketCount(s.plain), k, Chunk(s.plain, k), now);
      FiledAs(s, groups, k, after, outcome, accepted + {s.start + k})
  {
    Filed(s, groups, accepted, k);
    FiledSize(s, groups, accepted, k);
    var total := PacketCount(s.plain);
    var filled := Collected(groups, s.start)[k := Chunk(s.plain, k)];
    var ts := if s.start in groups then groups[s.start].ts else now;
    var (after, outcome) := AddFragment(groups, s.start, total, k, Chunk(s.plain, k), now);
    assert s.start in groups ==> groups[s.start].total == total;
    if Completes(s, groups, k) {
      FiledComplete(s, groups, accepted, k);
    } else {
      assert after == groups[s.start := Group(total, filled, ts)];
    }
  }

  lemma SentWire(tx: Channel, s: Sent, counter: nat, k: nat) returns (nonce: Nonce)
    requires tx.key.Some? && EntryOk(tx, s, counter) && k < |s.wires|
    ensures k < PacketCount(s.plain) && s.wires[k] == EncryptOne(tx, PacketPlain(s.plain, k), s.start + k, nonce)
  {
    var nonces: nat -> Nonce :| s.wires == Sealed(tx, s.plain, s.start, nonces);
    nonce := nonces(k);
    assert |s.wires| == PacketCount(s.plain);
    SealedAt(tx, s.plain, s.start, nonces, k);
  }

  /** What the receiver finds in a packet with the number and body of packet k of s. */
  lemma ReadSent(tx: Channel, ch: Channel, s: Sent, counter: nat, k: nat, wire: bytes)
    requires Matched(tx, ch) && EntryOk(tx, s, counter) && k < |s.wires|
    requires ParseWire(wire) == ParseWire(s.wires[k])
    ensures k < PacketCount(s.plain)
    ensures Read(ch, wire) == Reading(s.start + k, IfReadable(tx, ch, PacketPlain(s.plain, k)))
  {
    var nonce := SentWire(tx, s, counter, k);
    ReadWire(tx, ch, PacketPlain(s.plain, k), s.start + k, nonce);
    assert Read(ch, wire) == Read(ch, s.wires[k]);
  }

  /** Absorbing packet k of s. */
  lemma AbsorbHonest(s: Sent, groups: map<int, Group>, k: nat, now: real)
    requires k < PacketCount(s.plain) <= 255 && Unambiguous(s.plain)
    ensures var (after, outcome) := Absorb(groups, s.start + k, PacketPlain(s.plain, k), now);
      if |s.plain| <= MAX_PAYLOAD then after == groups && outcome == Delivered(s.plain)
      else
        (after, outcome) == AddFragment(groups, s.start, PacketCount(s.plain), k, Chunk(s.plain, k), now)
  {
    var p := PacketPlain(s.plain, k);
    if |s.plain| > MAX_PAYLOAD {
      FragmentLayout(s.plain, k);
      AbsorbFlagged(groups, s.start + k, p, now);
    } else if p != [] {
      FlagBit(p[0]);
    }
  }

  /** A packet of s hands out under the number of the first. */
  lemma UnderHonest(s: Sent, k: nat)
    requires k < PacketCount(s.plain) <= 255 && Unambiguous(s.plain)
    ensures Under(s.start + k, PacketPlain(s.plain, k)) == s.start
  {
    var p := PacketPlain(s.plain, k);
    if p != [] {
      FlagBit(p[0]);
    }
    if |s.plain| > MAX_PAYLOAD {
      ChunkSize(s.plain, k);
    }
  }

  lemma GroupsMonotone(sent: seq<Sent>, groups: map<int, Group>, accepted: set<int>, more: set<int>)
    requires GroupsOk(sent, groups, accepted) && accepted <= more
    ensures GroupsOk(sent, groups, more)
  {
    forall id | id in groups
      ensures exists i :: 0 <= i < |sent| && sent[i].start == id && GroupOk(sent[i], groups[id], more)
    {
      var i :| 0 <= i < |sent| && sent[i].start == id && GroupOk(sent[i], groups[id], accepted);
      assert GroupOk(sent[i], groups[id], more);
    }
  }

  /** Message i has its first packet's number to itself. */
  ghost predicate OwnStart(sent: seq<Sent>, i: nat)
    requires i < |sent|
  {
    forall j :: 0 <= j < |sent| && j != i ==> sent[j].start != sent[i].start
  }

  /** A group is found under the number of its own message only. */
  lemma FindGroup(sent: seq<Sent>, groups: map<int, Group>, accepted: set<int>, i: nat)
    requires GroupsOk(sent, groups, accepted) && i < |sent| && OwnStart(sent, i)
    ensures GroupFits(sent[i], groups, accepted)
  {
    if sent[i].start in groups {
      var j :| 0 <= j < |sent| && sent[j].start == sent[i].start
               && GroupOk(sent[j], groups[sent[i].start], accepted);
      assert i == j;
    }
  }

  /** What accepting a packet of s makes of the groups, and what the call returns. */
  ghost predicate Effect(s: Sent, before: map<int, Group>, after: map<int, Group>, outcome: Outcome,
                         accepted: set<int>) {
    && !outcome.Raised?
    && (outcome.Delivered? ==> outcome.data == s.plain && Finished(s, after, accepted))
    && (forall id :: id in after && id != s.start ==> id in before && after[id] == before[id])
    && (if |s.plain| > MAX_PAYLOAD then GroupFits(s, after, accepted) else after == before)
  }

  /** Accepting and reading packet k of s. */
  lemma AcceptHonest(s: Sent, groups: map<int, Group>, accepted: set<int>, k: nat, now: real)
    requires k < PacketCount(s.plain) <= 255 && Unambiguous(s.plain)
    requires GroupFits(s, groups, accepted)
    ensures var (after, outcome) := Absorb(groups, s.start + k, PacketPlain(s.plain, k), now);
      Effect(s, groups, after, outcome, accepted + {s.start + k})
  {
    AbsorbHonest(s, groups, k, now);
    if |s.plain| > MAX_PAYLOAD {
      AddHonest(s, groups, accepted, k, now);
    } else {
      var accepted' := accepted + {s.start + k};
      assert forall i: nat :: i < PacketCount(s.plain) ==> PacketAccepted(s, i, accepted');
    }
  }

  /** w' is w after the receiver accepted the number `counter`, with these groups and outcome,
      handed out, if anything was, under the number `start`. */
  ghost predicate Accepting(w: World, w': World, counter: nat, groups: map<int, Group>, outcome: Outcome, start: int) {
    && counter !in w.accepted && w'.accepted == w.accepted + {counter}
    && Tracks(w'.rx.window, w'.accepted) && w'.rx.groups == groups
    && w'.rx.window.size == w.rx.window.size
    && w'.outputs == (if outcome.Delivered? then w.outputs + [outcome.data] else w.outputs)
    && w'.starts == (if outcome.Delivered? then w.starts + [start] else w.starts)
    && w'.raised == (w.raised || outcome.Raised?)
    && w'.sent == w.sent && w'.counter == w.counter
  }

  /** A packet that passes the replay check and opens. */
  lemma ReceivedAccepting(w: World, counter: nat, plain: bytes, now: real)
    requires Tracks(w.rx.window, w.accepted) && Checked(w.rx.window, counter).1
    ensures var (groups, outcome) := Absorb(w.rx.groups, counter, plain, now);
      Accepting(w, Received(w, counter, Some(plain), now), counter, groups, outcome, Under(counter, plain))
  {
    CheckRefines(w.rx.window, w.accepted, counter);
  }

  /** A packet that does not get that far: only the window may move. */
  lemma ReceivedDropped(w: World, counter: nat, plain: Option<bytes>, now: real)
    requires Tracks(w.rx.window, w.accepted)
    requires !Checked(w.rx.window, counter).1 || plain.None?
    ensures var w' := Received(w, counter, plain, now);
      && w.accepted <= w'.accepted && Tracks(w'.rx.window, w'.accepted)
      && w'.rx.window.size == w.rx.window.size
      && w' == w.(rx := w'.rx, accepted := w'.accepted) && w'.rx.groups == w.rx.groups
  {
    CheckRefines(w.rx.window, w.accepted, counter);
  }

  /** What was handed out before was another message, and stays finished. */
  lemma OthersStay(w: World, w': World, origin: seq<nat>, i: nat, k: nat, groups: map<int, Group>, outcome: Outcome,
                   j: nat)
    requires RxInv(w, origin) && j < |origin|
    requires i < |w.sent| && k < PacketCount(w.sent[i].plain) && OwnStart(w.sent, i)
    requires Accepting(w, w', w.sent[i].start + k, groups, outcome, w.sent[i].start)
    requires Effect(w.sent[i], w.rx.groups, groups, outcome, w'.accepted)
    ensures origin[j] != i && Finished(w.sent[origin[j]], groups, w'.accepted)
  {
    assert !PacketAccepted(w.sent[i], k, w.accepted);
    FinishedStays(w.sent[origin[j]], w.rx.groups, groups, w.accepted, w'.accepted, w.sent[i].start);
  }

  lemma GroupsStay(w: World, w': World, i: nat, k: nat, groups: map<int, Group>, outcome: Outcome)
    requires GroupsOk(w.sent, w.rx.groups, w.accepted) && i < |w.sent|
    requires Accepting(w, w', w.sent[i].start + k, groups, outcome, w.sent[i].start)
    requires Effect(w.sent[i], w.rx.groups, groups, outcome, w'.accepted)
    ensures GroupsOk(w.sent, groups, w'.accepted)
  {
    GroupsMonotone(w.sent, w.rx.groups, w.accepted, w'.accepted);
    if |w.sent[i].plain| > MAX_PAYLOAD {
      GroupsAfter(w.sent, w.rx.groups, groups, w'.accepted, i);
    }
  }

  /** Accepting a packet of message i keeps the receiver's invariant. */
  lemma AcceptKeeps(w: World, w': World, origin: seq<nat>, i: nat, k: nat, groups: map<int, Group>, outcome: Outcome)
    returns (origin': seq<nat>)
    requires RxInv(w, origin)
    requires i < |w.sent| && k < PacketCount(w.sent[i].plain) && OwnStart(w.sent, i)
    requires Accepting(w, w', w.sent[i].start + k, groups, outcome, w.sent[i].start)
    requires Effect(w.sent[i], w.rx.groups, groups, outcome, w'.accepted)
    ensures RxInv(w', origin')
    ensures origin' == if outcome.Delivered? then origin + [i] else origin
  {
    GroupsStay(w, w', i, k, groups, outcome);
    forall j | 0 <= j < |origin|
      ensures origin[j] != i && Finished(w.sent[origin[j]], groups, w'.accepted)
    {
      OthersStay(w, w', origin, i, k, groups, outcome, j);
    }
    origin' := if outcome.Delivered? then origin + [i] else origin;
  }

  lemma FinishedStays(s: Sent, before: map<int, Group>, after: map<int, Group>, accepted: set<int>, more: set<int>,
                      start: int)
    requires Finished(s, before, accepted) && accepted <= more && s.start != start
    requires forall id :: id in after && id != start ==> id in before && after[id] == before[id]
    ensures Finished(s, after, more)
  {
    AllAcceptedMonotone(s, accepted, more);
  }

  lemma AllAcceptedMonotone(s: Sent, accepted: set<int>, more: set<int>)
    requires AllAccepted(s, accepted) && accepted <= more
    ensures AllAccepted(s, more)
  {
    forall k: nat | k < PacketCount(s.plain)
      ensures PacketAccepted(s, k, more)
    {
      assert PacketAccepted(s, k, accepted);
    }
  }

  /** Changing or removing only the group of message i keeps the group invariant. */
  lemma GroupsAfter(sent: seq<Sent>, before: map<int, Group>, after: map<int, Group>, accepted: set<int>, i: nat)
    requires GroupsOk(sent, before, accepted) && i < |sent|
    requires forall id :: id in after && id != sent[i].start ==> id in before && after[id] == before[id]
    requires sent[i].start in after ==> GroupOk(sent[i], after[sent[i].start], accepted)
    ensures GroupsOk(sent, after, accepted)
  {
    forall id | id in after
      ensures exists j :: 0 <= j < |sent| && sent[j].start == id && GroupOk(sent[j], after[id], accepted)
    {
      if id == sent[i].start {
        assert GroupOk(sent[i], after[id], accepted);
      } else {
        var j :| 0 <= j < |sent| && sent[j].start == id && GroupOk(sent[j], before[id], accepted);
        assert GroupOk(sent[j], after[id], accepted);
      }
    }
  }

  lemma HonestArrival(w: World, origin: seq<nat>, now: real, i: nat, k: nat)
    returns (origin': seq<nat>)
    requires RxInv(w, origin)
    requires i < |w.sent| && k < PacketCount(w.sent[i].plain) <= 255 && Unambiguous(w.sent[i].plain)
    requires GroupFits(w.sent[i], w.rx.groups, w.accepted) && OwnStart(w.sent, i)
    requires Checked(w.rx.window, w.sent[i].start + k).1
    ensures RxInv(Received(w, w.sent[i].start + k, Some(PacketPlain(w.sent[i].plain, k)), now), origin')
    ensures origin' == if Absorb(w.rx.groups, w.sent[i].start + k, PacketPlain(w.sent[i].plain, k), now).1.Delivered?
                       then origin + [i] else origin
  {
    var s := w.sent[i];
    var counter, plain := s.start + k, PacketPlain(s.plain, k);
    var (groups, outcome) := Absorb(w.rx.groups, counter, plain, now);
    AcceptHonest(s, w.rx.groups, w.accepted, k, now);
    ReceivedAccepting(w, counter, plain, now);
    UnderHonest(s, k);
    origin' := AcceptKeeps(w, Received(w, counter, Some(plain), now), origin, i, k, groups, outcome);
  }

  lemma DroppedArrival(w: World, origin: seq<nat>, counter: nat, plain: Option<bytes>, now: real)
    requires RxInv(w, origin)
    requires !Checked(w.rx.window, counter).1 || plain.None?
    ensures RxInv(Received(w, counter, plain, now), origin)
  {
    ReceivedDropped(w, counter, plain, now);
    var w' := Received(w, counter, plain, now);
    GroupsMonotone(w.sent, w.rx.groups, w.accepted, w'.accepted);
    forall j | 0 <= j < |origin|
      ensures Finished(w.sent[origin[j]], w'.rx.groups, w'.accepted)
    {
      assert Finished(w.sent[origin[j]], w.rx.groups, w.accepted);
      AllAcceptedMonotone(w.sent[origin[j]], w.accepted, w'.accepted);
    }
  }

  /** r reads as packet k of message i. */
  ghost predicate ReadsAs(sent: seq<Sent>, r: Reading, i: nat, k: nat) {
    && i < |sent| && OwnStart(sent, i)
    && k < PacketCount(sent[i].plain) <= 255 && Unambiguous(sent[i].plain)
    && r == Reading(sent[i].start + k, Some(PacketPlain(sent[i].plain, k)))
  }

  /** r can be read only if it is a packet that was sent. */
  ghost predicate HonestReading(sent: seq<Sent>, r: Reading) {
    r.Reading? && r.plain.Some? ==> exists i, k :: ReadsAs(sent, r, i, k)
  }

  lemma RecognizeAs(tx: Channel, ch: Channel, sent: seq<Sent>, counter: nat, wire: bytes, i: nat, k: nat)
    requires Matched(tx, ch) && SentOk(tx, sent, counter) && Read(ch, wire).Reading? && Read(ch, wire).plain.Some?
    requires i < |sent| && k < |sent[i].wires| && ParseWire(sent[i].wires[k]) == ParseWire(wire)
    ensures ReadsAs(sent, Read(ch, wire), i, k)
  {
    assert EntryOk(tx, sent[i], counter);
    ReadSent(tx, ch, sent[i], counter, k, wire);
  }

  /** All that the network can hand over reads honestly. */
  lemma Recognize(tx: Channel, ch: Channel, sent: seq<Sent>, counter: nat, wire: bytes)
    requires Matched(tx, ch) && SentOk(tx, sent, counter) && Deliverable(ch, sent, wire)
    ensures HonestReading(sent, Read(ch, wire))
  {
    if Read(ch, wire).Reading? && Read(ch, wire).plain.Some? {
      var i, k :| 0 <= i < |sent| && 0 <= k < |sent[i].wires|
                  && ParseWire(sent[i].wires[k]) == ParseWire(wire);
      RecognizeAs(tx, ch, sent, counter, wire, i, k);
    }
  }

  lemma ReadingKeeps(w: World, origin: seq<nat>, r: Reading, now: real)
    returns (origin': seq<nat>)
    requires RxInv(w, origin) && HonestReading(w.sent, r)
    ensures RxInv(ReceivedReading(w, r, now), origin')
  {
    origin' := origin;
    match r
    case Unreadable =>
    case Reading(counter, plain) =>
      if !Checked(w.rx.window, counter).1 || plain.None? {
        DroppedArrival(w, origin, counter, plain, now);
      } else {
        var i, k :| ReadsAs(w.sent, r, i, k);
        FindGroup(w.sent, w.rx.groups, w.accepted, i);
        origin' := HonestArrival(w, origin, now, i, k);
      }
  }

  lemma ArriveKeeps(tx: Channel, ch: Channel, w: World, origin: seq<nat>, wire: bytes, now: real)
    returns (origin': seq<nat>)
    requires Matched(tx, ch) && Inv(tx, w, origin) && Deliverable(ch, w.sent, wire)
    ensures Inv(tx, Arrived(ch, w, wire, now), origin')
  {
    Recognize(tx, ch, w.sent, w.counter, wire);
    origin' := ReadingKeeps(w, origin, Read(ch, wire), now);
  }

  // ---- Whole runs ----

  lemma {:induction false} RunKeeps(tx: Channel, ch: Channel, size: nat, events: seq<Event>)
    returns (origin: seq<nat>)
    requires Matched(tx, ch) && Sized(size) && SendsUnambiguous(events)
    ensures Inv(tx, Run(tx, ch, size, events), origin)
  {
    if events == [] {
      origin := [];
      FreshTracks(size);
    } else {
      var front, e := events[..|events| - 1], events[|events| - 1];
      origin := RunKeeps(tx, ch, size, front);
      var w := Run(tx, ch, size, front);
      match e
      case Send(_, _) => SendKeeps(tx, ch, w, origin, e);
      case Expire(_) => ExpireKeeps(tx, ch, w, origin, e);
      case Arrive(wire, now) =>
        if Deliverable(ch, w.sent, wire) {
          origin := ArriveKeeps(tx, ch, w, origin, wire, now);
        }
    }
  }

  /** An encrypt call on `plain` whose first packet has the number `start`. */
  ghost predicate CallExists(sent: seq<Sent>, start: int, plain: bytes) {
    exists i :: 0 <= i < |sent| && sent[i].start == start && sent[i].plain == plain
  }

  /** No number has two outputs, and each output is the plaintext of the call with its number. */
  ghost predicate OncePerCall(w: World) {
    && |w.outputs| == |w.starts|
    && (forall i, j :: 0 <= i < j < |w.starts| ==> w.starts[i] != w.starts[j])
    && (forall j :: 0 <= j < |w.starts| ==> CallExists(w.sent, w.starts[j], w.outputs[j]))
  }

  lemma OriginsOncePerCall(tx: Channel, w: World, origin: seq<nat>)
    requires tx.key.Some? && SentOk(tx, w.sent, w.counter) && Origins(w, origin)
    ensures OncePerCall(w)
  {
    forall j | 0 <= j < |w.starts|
      ensures CallExists(w.sent, w.starts[j], w.outputs[j])
    {
      assert w.sent[origin[j]].start == w.starts[j];
    }
    forall i, j | 0 <= i < j < |w.starts|
      ensures w.starts[i] != w.starts[j]
    {
      assert origin[i] != origin[j];
      DistinctStarts(tx, w.sent, w.counter, origin[i], origin[j]);
    }
  }

  lemma DistinctStarts(tx: Channel, sent: seq<Sent>, counter: nat, i: nat, j: nat)
    requires tx.key.Some? && SentOk(tx, sent, counter) && i < |sent| && j < |sent| && i != j
    ensures sent[i].start != sent[j].start
  {
  }

  /** End-to-end safety. In every run, every datagram the receiver hands out is the plaintext
      of the encrypt call whose number it bears, no encrypt call is handed out twice, also among
      equal ones, and no decrypt call raises. */
  lemma EndToEnd(tx: Channel, ch: Channel, size: nat, events: seq<Event>)
    requires Matched(tx, ch) && Sized(size) && SendsUnambiguous(events)
    ensures exists origin: seq<nat> :: Origins(Run(tx, ch, size, events), origin)
    ensures OncePerCall(Run(tx, ch, size, events))
    ensures !Run(tx, ch, size, events).raised
  {
    var origin := RunKeeps(tx, ch, size, events);
    OriginsOncePerCall(tx, Run(tx, ch, size, events), origin);
  }

  /** Between calls every group is a non-empty, incomplete part of the message whose first
      packet has the group's number. */
  lemma GroupsArePartial(tx: Channel, ch: Channel, size: nat, events: seq<Event>, id: int)
    requires Matched(tx, ch) && Sized(size) && SendsUnambiguous(events)
    requires id in Run(tx, ch, size, events).rx.groups
    ensures var w := Run(tx, ch, size, events);
      exists i :: 0 <= i < |w.sent| && w.sent[i].start == id && GroupOk(w.sent[i], w.rx.groups[id], w.accepted)
  {
    var origin := RunKeeps(tx, ch, size, events);
  }

  /** The group ids (counter - index) that the fragments of two encrypt calls of one run carry
      never collide. */
  lemma GroupIdsDistinct(tx: Channel, ch: Channel, size: nat, events: seq<Event>, i: nat, j: nat, k: nat, l: nat)
    requires Matched(tx, ch) && Sized(size) && SendsUnambiguous(events)
    requires var sent := Run(tx, ch, size, events).sent;
      i < |sent| && j < |sent| && k < |sent[i].wires| && l < |sent[j].wires|
    ensures var sent := Run(tx, ch, size, events).sent;
      && Numbering.NumberOn(sent[i].wires[k]) - k == sent[i].start
      && (i != j ==> sent[i].start != sent[j].start)
      && (Numbering.NumberOn(sent[i].wires[k]) == Numbering.NumberOn(sent[j].wires[l]) ==> i == j && k == l)
  {
    var origin := RunKeeps(tx, ch, size, events);
    var w := Run(tx, ch, size, events);
    SentNumber(tx, w.sent[i], w.counter, k);
    SentNumber(tx, w.sent[j], w.counter, l);
  }

  lemma SentNumber(tx: Channel, s: Sent, counter: nat, k: nat)
    requires tx.key.Some? && Ideal(tx.aead) && EntryOk(tx, s, counter) && k < |s.wires|
    ensures k < PacketCount(s.plain) && Numbering.NumberOn(s.wires[k]) == s.start + k
  {
    var nonce := SentWire(tx, s, counter, k);
    Numbering.NumberOnSealed(tx, PacketPlain(s.plain, k), s.start + k, nonce);
  }
}
