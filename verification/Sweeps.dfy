/** Who is removed by a stale sweep once the server's clients have been established: a
    repeated reset puts a live client back under the handshake's 30 seconds. */
module Sweeps {
  import opened Bytes
  import opened Packet
  import opened Control
  import opened Endpoint
  import opened Routing
  import opened ServerTable

  // ---- A client that was established is never idle again ----

  ghost predicate NeverIdle(t: Table) {
    forall addr :: addr in t.clients && t.clients[addr].data.Some? ==> t.clients[addr].session.state != Idle
  }

  lemma DispatchLeavesIdle(cr: Crypto, s: SessionValue, raw: bytes)
    requires s.state != Idle
    ensures ServerDispatch(cr, s, raw).0.state != Idle
  {
  }

  lemma ReceiveNeverIdle(env: Env, c: Client, raw: bytes, now: real)
    requires raw != [] && (c.data.Some? ==> c.session.state != Idle)
    ensures var c' := Receive(env, c, raw, now).0; c'.data.Some? ==> c'.session.state != Idle
  {
    if c.session.state != Idle {
      DispatchLeavesIdle(env.crypto, c.session, raw);
    }
  }

  lemma HandleNeverIdle(env: Env, t: Table, addr: Addr, raw: bytes, now: real, draw: Draw)
    requires NeverIdle(t)
    ensures NeverIdle(Handle(env, t, addr, raw, now, draw))
  {
    if raw != [] && raw[0] == OpcodeByte(HardResetClient) {
      var s := GetOrCreate(env, t, addr, now, draw).clients[addr].session;
      if s.state != Idle {
        DispatchLeavesIdle(env.crypto, s, raw);
      }
    } else if raw != [] && raw[0] != OpcodeByte(HardResetServer) && addr in t.clients {
      ReceiveNeverIdle(env, t.clients[addr], raw, now);
    }
  }

  lemma {:induction false} RunNeverIdle(env: Env, range: Option<(Ip, Ip)>, events: seq<Event>)
    ensures NeverIdle(Run(env, range, events))
  {
    if events != [] {
      var front, e := events[..|events| - 1], events[|events| - 1];
      RunNeverIdle(env, range, front);
      if e.Packet? {
        HandleNeverIdle(env, Run(env, range, front), e.addr, e.raw, e.now, e.draw);
      }
    }
  }

  // ---- What a sweep does to it ----

  /** How long a client that was established has left: from when it was last heard while it is
      established, and otherwise from when its session was created, however live it is. */
  predicate Outlives(env: Env, c: Client, later: real) {
    if c.session.state == Established then later - c.lastSeen <= env.keepaliveTimeout
    else later - c.session.createdAt <= 30.0
  }

  /** In every run, a sweep keeps a client that has once been established, unchanged, exactly if
      that time has not run out; if it has, the client's address is free again. */
  lemma OnceEstablishedSwept(env: Env, range: Option<(Ip, Ip)>, events: seq<Event>, addr: Addr, later: real)
    requires var t := Run(env, range, events); addr in t.clients && t.clients[addr].data.Some?
    ensures var t := Run(env, range, events);
      var t' := Step(env, t, Sweep(later));
      var c := t.clients[addr];
      && (addr in t'.clients <==> Outlives(env, c, later))
      && (addr in t'.clients ==> t'.clients[addr] == c)
      && (addr !in t'.clients && c.virtualIp.Some? ==>
            c.virtualIp.value !in t'.ipToAddr && t'.pool.Some? && c.virtualIp.value in t'.pool.value.available)
  {
    RunNeverIdle(env, range, events);
    IndexesAgree(env, range, events);
    var t := Run(env, range, events);
    var c := t.clients[addr];
    if c.virtualIp.Some? {
      assert Holds(t, addr, c.virtualIp.value);
      FreedHeld(t, StaleAddrs(t, later, env.keepaliveTimeout), c.virtualIp.value);
    }
  }

  /** A packet that ServerHandleReset accepts. */
  predicate IsReset(raw: bytes) {
    |raw| >= 9 && raw[0] == 1
  }

  /** One more reset, a duplicate for instance, takes an established client out of the
      keepalive timeout: the next sweep removes it and frees its address exactly if its session
      is older than 30 seconds, even if it was heard a moment ago. */
  lemma ResetThenSwept(env: Env, range: Option<(Ip, Ip)>, events: seq<Event>, addr: Addr,
                       raw: bytes, now: real, draw: Draw, later: real)
    requires var t := Run(env, range, events); addr in t.clients && t.clients[addr].data.Some?
    requires IsReset(raw)
    ensures var t := Run(env, range, events);
      var t' := Run(env, range, events + [Event.Packet(addr, raw, now, draw)]);
      var t'' := Step(env, t', Sweep(later));
      var c := t.clients[addr];
      && addr in t'.clients && t'.clients[addr].session.state == ResetRcvd
      && t'.clients[addr].data == c.data && t'.clients[addr].lastSeen == c.lastSeen
      && (addr !in t''.clients <==> later - c.session.createdAt > 30.0)
      && (addr !in t''.clients && c.virtualIp.Some? ==> c.virtualIp.value !in t''.ipToAddr)
  {
    var e := Event.Packet(addr, raw, now, draw);
    var all := events + [e];
    assert all[..|all| - 1] == events && all[|all| - 1] == e;
    assert DecodePacket(raw).Some? && DecodePacket(raw).value.opcode == HardResetClient;
    OnceEstablishedSwept(env, range, all, addr, later);
  }
}
