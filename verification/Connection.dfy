/** Runs of one client connection on any bytes: when it may send, when it gives up, and what
    its address is, counted from the events themselves. */
module Connection {
  import opened Bytes
  import opened Packet
  import opened Control
  import opened Endpoint
  import opened Client
  import Wire
  import Data

  /** Start: the first reset. Packet: anything arrives. Turn: a turn of the connection loop.
      Read: a datagram is read from the TUN device. */
  datatype Event =
    | Start
    | Packet(raw: bytes, now: real)
    | Turn(now: real)
    | Read(plain: bytes, nonces: nat -> Data.Nonce)

  function Step(env: Env, c: ClientState, e: Event): ClientState {
    match e
    case Start => c.(session := ClientStartHandshake(c.session).0)
    case Packet(raw, now) => Receive(env, c, raw, now).0
    case Turn(now) => Tick(env, c, now).0
    case Read(plain, nonces) => Send(c, plain, nonces).0
  }

  /** The connection as it is created. */
  datatype Origin = Origin(id: SessionId, privateKey: PrivateKey, now: real)

  function Run(env: Env, o: Origin, events: seq<Event>): ClientState {
    if events == [] then ClientState(NewSession(o.id, o.privateKey, env.credentials, o.now), None, false, None, o.now)
    else Step(env, Run(env, o, events[..|events| - 1]), events[|events| - 1])
  }

  // ---- What the events say ----

  /** The time of the last packet that was not empty, or of the creation. */
  function LastHeard(o: Origin, events: seq<Event>): real {
    if events == [] then o.now
    else
      var e := events[|events| - 1];
      if e.Packet? && e.raw != [] then e.now else LastHeard(o, events[..|events| - 1])
  }

  /** The text of the last address packet whose text decodes. */
  function LastTold(env: Env, events: seq<Event>): Option<bytes> {
    if events == [] then None
    else
      var e := events[|events| - 1];
      if e.Packet? && |e.raw| >= 10 && e.raw[0] == 3 && e.raw[9] == 6 && env.isText(e.raw[10..]) then Some(e.raw[10..])
      else LastTold(env, events[..|events| - 1])
  }

  /** Some turn of the loop found the session established. */
  ghost predicate FoundEstablished(env: Env, o: Origin, events: seq<Event>) {
    exists k :: 0 <= k < |events| && events[k].Turn? && Run(env, o, events[..k]).session.state == Established
  }

  // ---- One event ----

  lemma AssignedExact(env: Env, c: ClientState, raw: bytes)
    ensures Assigned(env, c, raw) ==
      if |raw| >= 10 && raw[0] == 3 && raw[9] == 6 && env.isText(raw[10..]) then Some(raw[10..]) else c.assignedIp
  {
    Wire.ControlMessageExact(raw);
  }

  /** A keepalive, and nothing else, is answered with one of the client's own. */
  lemma EchoExact(c: ClientState, raw: bytes)
    ensures if |raw| >= 10 && raw[0] == 3 && raw[9] == 4
            then |Echo(c, raw)| == 1 && ControlMessage(Echo(c, raw)[0]) == Some((Some(Keepalive), []))
                 && DecodePacket(Echo(c, raw)[0]).value.session == SessionNumberOf(c.session.id)
            else Echo(c, raw) == []
  {
    Wire.ControlMessageExact(raw);
    IpAssignRoundTrip(c.session.id, []);
    DecodeEncode(Opcode.Control, SessionNumberOf(c.session.id), [MessageByte(Keepalive)]);
  }

  /** A packet makes the client raise exactly if it is a reset too short to decode or whose hello
      cannot be packed, a control message of unknown type, an address that does not decode, or a
      data packet on which decrypt raises. */
  lemma RaisesExact(env: Env, c: ClientState, raw: bytes, now: real)
    ensures Raises(env, c, raw, now) <==>
      && raw != []
      && match raw[0]
         case 2 => |raw| < 9 || |CertBytes(c.session.credentials)| >= 65536
                   || |env.crypto.publicOf(c.session.privateKey)| >= 65536
         case 3 => |raw| >= 10 && (!(1 <= raw[9] <= 6) || (raw[9] == 6 && !env.isText(raw[10..])))
         case 5 => c.data.Some? && Data.Decrypt(c.data.value.channel, c.data.value.rx, raw, now).1 == Data.Raised
         case _ => false
  {
    Wire.ClientRaisesExact(env.crypto, c.session, env.isText, raw);
  }

  lemma StepHeard(env: Env, c: ClientState, e: Event)
    ensures Step(env, c, e).lastSeen == if e.Packet? && e.raw != [] then e.now else c.lastSeen
  {
  }

  lemma StepTold(env: Env, c: ClientState, e: Event)
    ensures Step(env, c, e).assignedIp ==
      if e.Packet? && |e.raw| >= 10 && e.raw[0] == 3 && e.raw[9] == 6 && env.isText(e.raw[10..]) then Some(e.raw[10..])
      else c.assignedIp
  {
    if e.Packet? {
      AssignedExact(env, c, e.raw);
    }
  }

  lemma StepBuilds(env: Env, c: ClientState, e: Event)
    requires c.handshakeDone <==> c.data.Some?
    ensures var c' := Step(env, c, e);
      && (c'.handshakeDone <==> c'.data.Some?)
      && (c'.handshakeDone <==> c.handshakeDone || (e.Turn? && c.session.state == Established))
  {
  }

  // ---- Every run ----

  lemma {:induction false} HeardExact(env: Env, o: Origin, events: seq<Event>)
    ensures Run(env, o, events).lastSeen == LastHeard(o, events)
  {
    if events != [] {
      var front, e := events[..|events| - 1], events[|events| - 1];
      HeardExact(env, o, front);
      StepHeard(env, Run(env, o, front), e);
    }
  }

  /** The client's address is the text of the last address packet whose text decodes. */
  lemma {:induction false} ToldExact(env: Env, o: Origin, events: seq<Event>)
    ensures Run(env, o, events).assignedIp == LastTold(env, events)
  {
    if events != [] {
      var front, e := events[..|events| - 1], events[|events| - 1];
      ToldExact(env, o, front);
      StepTold(env, Run(env, o, front), e);
    }
  }

  lemma FoundMore(env: Env, o: Origin, front: seq<Event>, e: Event)
    ensures FoundEstablished(env, o, front + [e]) <==>
      FoundEstablished(env, o, front) || (e.Turn? && Run(env, o, front).session.state == Established)
  {
    var events := front + [e];
    assert events[..|front|] == front && events[|front|] == e;
    forall k | 0 <= k < |front|
      ensures events[..k] == front[..k] && events[k] == front[k]
    {
    }
  }

  /** It has a data channel exactly if some turn found the session established. */
  lemma {:induction false} BuiltExact(env: Env, o: Origin, events: seq<Event>)
    ensures var c := Run(env, o, events);
      (c.handshakeDone <==> c.data.Some?) && (c.data.Some? <==> FoundEstablished(env, o, events))
  {
    if events != [] {
      var front, e := events[..|events| - 1], events[|events| - 1];
      BuiltExact(env, o, front);
      StepBuilds(env, Run(env, o, front), e);
      FoundMore(env, o, front, e);
      assert events == front + [e];
    }
  }

  /** In every run, a turn gives up exactly if this or an earlier turn found the session
      established and the last packet, or else the creation, is further back than the timeout. */
  lemma GivesUpExactly(env: Env, o: Origin, events: seq<Event>, now: real)
    ensures Tick(env, Run(env, o, events), now).1 <==>
      && (FoundEstablished(env, o, events) || Run(env, o, events).session.state == Established)
      && now - LastHeard(o, events) > env.keepaliveTimeout
  {
    HeardExact(env, o, events);
    BuiltExact(env, o, events);
  }

  /** In every run, a datagram is sent, or raises, exactly if it is not empty, some turn found the
      session established, and the last address packet told the client a text that is not empty;
      otherwise nothing happens at all. */
  lemma SendsExactly(env: Env, o: Origin, events: seq<Event>, plain: bytes, nonces: nat -> Data.Nonce)
    ensures var c := Run(env, o, events);
      var (c', wires) := Send(c, plain, nonces);
      var told := LastTold(env, events);
      && (wires != Some([]) <==>
            plain != [] && FoundEstablished(env, o, events) && told.Some? && told.value != [])
      && (wires == Some([]) ==> c' == c)
  {
    ToldExact(env, o, events);
    BuiltExact(env, o, events);
  }

  lemma StepWindow(env: Env, c: ClientState, e: Event)
    requires c.data.Some? ==> c.data.value.rx.window.size == 64
    ensures var c' := Step(env, c, e); c'.data.Some? ==> c'.data.value.rx.window.size == 64
  {
  }

  /** Its replay window has 64 places. */
  lemma {:induction false} WindowExact(env: Env, o: Origin, events: seq<Event>)
    ensures var c := Run(env, o, events); c.data.Some? ==> c.data.value.rx.window.size == 64
  {
    if events != [] {
      var front, e := events[..|events| - 1], events[|events| - 1];
      WindowExact(env, o, front);
      StepWindow(env, Run(env, o, front), e);
    }
  }

  /** In every run, a turn leaves exactly the groups that are not more than five seconds old. */
  lemma TurnExpires(env: Env, o: Origin, events: seq<Event>, now: real)
    requires Run(env, o, events).data.Some?
    ensures var d, d' := Run(env, o, events).data.value, Tick(env, Run(env, o, events), now).0.data;
      && d'.Some? && d'.value.channel == d.channel && d'.value.counter == d.counter
      && d'.value.rx.window == d.rx.window
      && (forall id :: id in d'.value.rx.groups <==> id in d.rx.groups && now - d.rx.groups[id].ts <= 5.0)
      && (forall id :: id in d'.value.rx.groups ==> d'.value.rx.groups[id] == d.rx.groups[id])
  {
    BuiltExact(env, o, events);
  }
}
