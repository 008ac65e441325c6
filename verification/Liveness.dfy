/** When the server last heard a client, and what a sweep makes of that: counted from the
    events themselves. */
module Liveness {
  import opened Bytes
  import opened Packet
  import opened Control
  import opened Endpoint
  import opened Routing
  import opened ServerTable

  /** A packet from addr that counts as a sign of life: not empty, and neither reset. */
  predicate Refreshes(e: Event, addr: Addr) {
    e.Packet? && e.addr == addr && e.raw != [] && e.raw[0] != 1 && e.raw[0] != 2
  }

  /** An event that makes an entry for addr if there is none: a connection, or the client's reset. */
  predicate Creates(e: Event, addr: Addr) {
    || (e.Connect? && e.addr == addr)
    || (e.Packet? && e.addr == addr && e.raw != [] && e.raw[0] == 1)
  }

  /** Event j made the entry of addr, which has been there since. */
  ghost predicate Born(env: Env, range: Option<(Ip, Ip)>, events: seq<Event>, addr: Addr, j: nat) {
    && j < |events| && Creates(events[j], addr)
    && addr !in Run(env, range, events[..j]).clients
    && forall k :: j < k <= |events| ==> addr in Run(env, range, events[..k]).clients
  }

  /** The time of the last sign of life after event j, or of event j. */
  function LastHeard(events: seq<Event>, addr: Addr, j: nat): real
    requires j < |events| && Creates(events[j], addr)
  {
    var n := |events| - 1;
    if n == j then events[j].now
    else if Refreshes(events[n], addr) then events[n].now
    else LastHeard(events[..n], addr, j)
  }

  lemma DispatchKeepsBirth(cr: Crypto, s: SessionValue, raw: bytes)
    ensures ServerDispatch(cr, s, raw).0.createdAt == s.createdAt
  {
  }

  lemma ReceiveRefreshes(env: Env, c: Client, raw: bytes, now: real)
    requires raw != []
    ensures var c' := Receive(env, c, raw, now).0; c'.lastSeen == now && c'.session.createdAt == c.session.createdAt
  {
    DispatchKeepsBirth(env.crypto, c.session, raw);
  }

  /** What a packet does to the times of the client at addr. */
  lemma HandleTimes(env: Env, t: Table, addr: Addr, raw: bytes, now: real, draw: Draw)
    requires addr in Handle(env, t, addr, raw, now, draw).clients
    ensures var c' := Handle(env, t, addr, raw, now, draw).clients[addr];
      if addr in t.clients then
        && c'.lastSeen == (if raw != [] && raw[0] != 1 && raw[0] != 2 then now else t.clients[addr].lastSeen)
        && c'.session.createdAt == t.clients[addr].session.createdAt
      else raw != [] && raw[0] == 1 && c'.lastSeen == now == c'.session.createdAt
  {
    if raw != [] && raw[0] == 1 {
      DispatchKeepsBirth(env.crypto, GetOrCreate(env, t, addr, now, draw).clients[addr].session, raw);
    } else if raw != [] && raw[0] != 2 && addr in t.clients {
      ReceiveRefreshes(env, t.clients[addr], raw, now);
    }
  }

  /** What an event does to the times of a client. */
  lemma StepTimes(env: Env, t: Table, e: Event, addr: Addr)
    requires addr in Step(env, t, e).clients
    ensures var c' := Step(env, t, e).clients[addr];
      if addr in t.clients then
        && c'.lastSeen == (if Refreshes(e, addr) then e.now else t.clients[addr].lastSeen)
        && c'.session.createdAt == t.clients[addr].session.createdAt
      else Creates(e, addr) && c'.lastSeen == e.now == c'.session.createdAt
  {
    if e.Packet? && e.addr == addr {
      HandleTimes(env, t, addr, e.raw, e.now, e.draw);
    }
  }

  lemma {:induction false} OneMore(env: Env, range: Option<(Ip, Ip)>, events: seq<Event>, e: Event)
    ensures Run(env, range, events + [e]) == Step(env, Run(env, range, events), e)
  {
    assert (events + [e])[..|events|] == events;
  }

  lemma BornBefore(env: Env, range: Option<(Ip, Ip)>, front: seq<Event>, e: Event, addr: Addr, j: nat)
    requires Born(env, range, front, addr, j) && addr in Run(env, range, front + [e]).clients
    ensures Born(env, range, front + [e], addr, j)
  {
    var events := front + [e];
    assert events[..|events|] == events && events[..j] == front[..j];
    forall k | j < k <= |front|
      ensures events[..k] == front[..k]
    {
    }
  }

  lemma HeardMore(front: seq<Event>, e: Event, addr: Addr, j: nat)
    requires j < |front| && Creates(front[j], addr)
    ensures LastHeard(front + [e], addr, j) == if Refreshes(e, addr) then e.now else LastHeard(front, addr, j)
  {
    assert (front + [e])[..|front|] == front;
  }

  /** Every entry was made by one event, its session is as old as that, and last_seen is the time
      of the last sign of life since. */
  lemma {:induction false} BornBy(env: Env, range: Option<(Ip, Ip)>, events: seq<Event>, addr: Addr)
    returns (j: nat)
    requires addr in Run(env, range, events).clients
    ensures Born(env, range, events, addr, j)
    ensures var c := Run(env, range, events).clients[addr];
      c.lastSeen == LastHeard(events, addr, j) && c.session.createdAt == events[j].now
  {
    var front, e := events[..|events| - 1], events[|events| - 1];
    assert events == front + [e];
    OneMore(env, range, front, e);
    StepTimes(env, Run(env, range, front), e, addr);
    if addr in Run(env, range, front).clients {
      j := BornBy(env, range, front, addr);
      BornBefore(env, range, front, e, addr, j);
      HeardMore(front, e, addr, j);
    } else {
      j := |front|;
      assert events[..j] == front && events[..j + 1] == events;
    }
  }

  lemma BornOnce(env: Env, range: Option<(Ip, Ip)>, events: seq<Event>, addr: Addr, i: nat, j: nat)
    requires Born(env, range, events, addr, i) && Born(env, range, events, addr, j)
    ensures i == j
  {
  }

  /** In every run, a sweep removes a client exactly if it is established and its last sign of
      life is further back than the timeout, or its handshake has begun, is not finished, and the
      event that made its entry is more than 30 seconds back. */
  lemma SweptByTheClock(env: Env, range: Option<(Ip, Ip)>, events: seq<Event>, addr: Addr, j: nat, later: real)
    requires Born(env, range, events, addr, j)
    ensures var t := Run(env, range, events);
      addr in t.clients
      && (addr !in Step(env, t, Sweep(later)).clients <==>
            match t.clients[addr].session.state
            case Established => later - LastHeard(events, addr, j) > env.keepaliveTimeout
            case Idle => false
            case _ => later - events[j].now > 30.0)
  {
    assert events[..|events|] == events;
    var i := BornBy(env, range, events, addr);
    BornOnce(env, range, events, addr, i, j);
  }

  /** The clock never goes back. */
  ghost predicate Chronological(events: seq<Event>) {
    forall i, k :: 0 <= i < k < |events| && !events[i].Disconnect? && !events[k].Disconnect? ==>
      events[i].now <= events[k].now
  }

  /** The last sign of life is then the latest. */
  lemma {:induction false} LastIsLatest(events: seq<Event>, addr: Addr, j: nat, k: nat)
    requires j <= k < |events| && Creates(events[j], addr) && Chronological(events)
    requires k == j || Refreshes(events[k], addr)
    ensures events[k].now <= LastHeard(events, addr, j)
  {
    var n := |events| - 1;
    if n > j && !Refreshes(events[n], addr) {
      LastIsLatest(events[..n], addr, j, k);
    }
  }

  lemma {:induction false} HeardAt(events: seq<Event>, addr: Addr, j: nat) returns (k: nat)
    requires j < |events| && Creates(events[j], addr)
    ensures j <= k < |events| && (k == j || Refreshes(events[k], addr)) && events[k].now == LastHeard(events, addr, j)
  {
    var n := |events| - 1;
    if n == j || Refreshes(events[n], addr) {
      k := n;
    } else {
      k := HeardAt(events[..n], addr, j);
    }
  }

  /** So, while the clock does not go back, a sweep removes an established client exactly if the
      event that made its entry and every sign of life since are further back than the timeout. */
  lemma SilentIsSwept(env: Env, range: Option<(Ip, Ip)>, events: seq<Event>, addr: Addr, j: nat, later: real)
    requires Born(env, range, events, addr, j) && Chronological(events)
    requires addr in Run(env, range, events).clients
    requires Run(env, range, events).clients[addr].session.state == Established
    ensures addr !in Step(env, Run(env, range, events), Sweep(later)).clients <==>
      forall k :: j <= k < |events| && (k == j || Refreshes(events[k], addr)) ==>
        later - events[k].now > env.keepaliveTimeout
  {
    SweptByTheClock(env, range, events, addr, j, later);
    var last := HeardAt(events, addr, j);
    forall k | j <= k < |events| && (k == j || Refreshes(events[k], addr))
      ensures events[k].now <= LastHeard(events, addr, j)
    {
      LastIsLatest(events, addr, j, k);
    }
  }
}
