/** The VpnServer object (src/server.py) with its ClientSession objects, proved against the
    table of ServerTable. */
module Server {
  import opened Bytes
  import opened Packet
  import opened Control
  import opened Endpoint
  import opened Routing
  import opened Sessions
  import opened DataChannels
  import opened ServerTable
  import Data

  class ClientSession {
    const addr: Addr
    const session: Session
    var data: DataChannel?
    var virtualIp: Option<Ip>
    var lastSeen: real
    ghost var Repr: set<object>

    ghost predicate Valid()
      reads this, Repr
    {
      && this in Repr && session in Repr
      && (data != null ==> data in Repr && data.replay in Repr && data.Valid())
    }

    ghost function Value(): Client
      requires Valid()
      reads this, Repr
    {
      Client(session.Value(),
             if data == null then None else Some(DataState(data.params, data.packetCounter, data.State())),
             virtualIp, lastSeen)
    }

    constructor (addr: Addr, session: Session, now: real)
      ensures this.addr == addr && this.session == session && data == null
      ensures Repr == {this, session}
      ensures Valid() && Value() == Client(session.Value(), None, None, now)
    {
      this.addr := addr;
      this.session := session;
      this.data := null;
      this.virtualIp := None;
      this.lastSeen := now;
      this.Repr := {this, session};
    }
  }

  class VpnServer {
    const env: Env
    const pool: IpPool?
    var clients: map<Addr, ClientSession>
    var ipToAddr: map<Ip, Addr>
    ghost var Repr: set<object>

    /** Every client is entered under its own address, and no two share an object. */
    ghost predicate Valid()
      reads this, Repr
    {
      && this in Repr && (pool != null ==> pool in Repr)
      && (forall a :: a in clients ==>
            && clients[a] in Repr && clients[a].Repr <= Repr
            && this !in clients[a].Repr && pool !in clients[a].Repr
            && clients[a].addr == a && clients[a].Valid())
      && (forall a, b :: a in clients && b in clients && a != b ==> clients[a].Repr !! clients[b].Repr)
    }

    ghost function Clients(): map<Addr, Client>
      requires Valid()
      reads this, Repr
    {
      map a | a in clients :: clients[a].Value()
    }

    ghost function Value(): Table
      requires Valid()
      reads this, Repr
    {
      Table(Clients(), ipToAddr, if pool == null then None else Some(pool.Value()))
    }

    /** The network to give addresses from, if there is one, and the configured range in it. */
    constructor (env: Env, subnet: Option<(Network, Option<(Ip, Ip)>)>)
      ensures Valid() && this.env == env && fresh(Repr)
      ensures Value() == Empty(match subnet case None => None case Some((net, range)) => Some(PoolRange(net, range)))
    {
      this.env := env;
      if subnet.Some? {
        this.pool := new IpPool(subnet.value.0, subnet.value.1);
      } else {
        this.pool := null;
      }
      this.clients := map[];
      this.ipToAddr := map[];
      new;
      this.Repr := {this} + (if pool == null then {} else {pool});
    }

    /** A client none of whose objects changed is as it was. */
    twostate lemma Kept(cs: ClientSession)
      requires old(cs.Valid()) && unchanged(old(cs.Repr))
      ensures cs.Valid() && cs.Value() == old(cs.Value()) && cs.Repr == old(cs.Repr)
    {
    }

    /** Only the objects of client cs have changed, or it was entered with new ones. */
    twostate predicate OnlyChanged(new cs: ClientSession)
      requires old(Valid())
      reads *
    {
      && clients == old(clients)[cs.addr := cs]
      && (forall a :: a in old(clients) && a != cs.addr ==> unchanged(old(clients[a].Repr)))
      && cs.Valid() && this !in cs.Repr && pool !in cs.Repr
      && var a := cs.addr;
         if a in old(clients) then cs == old(clients[a]) && fresh(cs.Repr - old(clients[a].Repr)) else fresh(cs.Repr)
    }

    twostate lemma OthersKept(new cs: ClientSession)
      requires old(Valid()) && OnlyChanged(cs)
      ensures forall a :: a in clients && a != cs.addr ==>
        && a in old(clients) && clients[a] == old(clients[a]) && clients[a].Valid()
        && clients[a].Repr == old(clients[a].Repr) && clients[a].Value() == old(clients[a].Value())
    {
      forall a | a in clients && a != cs.addr
        ensures clients[a].Valid() && clients[a].Repr == old(clients[a].Repr)
        ensures clients[a].Value() == old(clients[a].Value())
      {
        Kept(clients[a]);
      }
    }

    twostate lemma OneChangedValid(new cs: ClientSession)
      requires old(Valid()) && OnlyChanged(cs) && Repr == old(Repr) + cs.Repr
      ensures Valid()
    {
      OthersKept(cs);
      forall a | a in clients && a != cs.addr
        ensures clients[a].Repr !! cs.Repr
      {
        if cs.addr in old(clients) {
          assert old(clients[a].Repr) !! old(cs.Repr);
        }
      }
    }

    twostate lemma OneChangedClients(new cs: ClientSession)
      requires old(Valid()) && Valid() && clients == old(clients)[cs.addr := cs] && cs.Valid()
      requires forall a :: a in old(clients) && a != cs.addr ==> clients[a].Value() == old(clients[a].Value())
      ensures Clients() == old(Clients())[cs.addr := cs.Value()]
    {
      var all, was := Clients(), old(Clients());
      assert all.Keys == clients.Keys && was.Keys == old(clients).Keys;
    }

    twostate lemma OneChanged(new cs: ClientSession)
      requires old(Valid()) && OnlyChanged(cs) && Repr == old(Repr) + cs.Repr
      ensures Valid()
      ensures Clients() == old(Clients())[cs.addr := cs.Value()]
    {
      OneChangedValid(cs);
      OthersKept(cs);
      OneChangedClients(cs);
    }

    method GetOrCreateSession(addr: Addr, now: real, draw: Draw) returns (cs: ClientSession)
      requires Valid()
      modifies this
      ensures Valid() && addr in clients && cs == clients[addr]
      ensures Value() == GetOrCreate(env, old(Value()), addr, now, draw)
      ensures fresh(Repr - old(Repr))
    {
      if addr in clients {
        return clients[addr];
      }
      var session := new Session(draw.id, draw.privateKey, env.credentials, now);
      cs := new ClientSession(addr, session, now);
      clients := clients[addr := cs];
      Repr := Repr + cs.Repr;
      OneChanged(cs);
    }

    /** Of the objects of client cs only cs itself has changed, and it owns the same ones. */
    twostate lemma SelfChanged(cs: ClientSession)
      requires old(cs.Valid()) && unchanged(cs`data, cs`Repr)
      requires forall o :: o in old(cs.Repr) && o != cs ==> unchanged(o)
      ensures cs.Valid()
      ensures cs.Value() == old(cs.Value()).(virtualIp := cs.virtualIp, lastSeen := cs.lastSeen)
    {
    }

    twostate lemma Assigned(cs: ClientSession, new ip: Option<Ip>)
      requires old(Valid()) && cs.addr in old(clients) && cs == old(clients[cs.addr]) && pool != null
      requires clients == old(clients) && Repr == old(Repr)
      requires cs.data == old(cs.data) && cs.Repr == old(cs.Repr) && cs.lastSeen == old(cs.lastSeen)
      requires forall o :: o in old(Repr) && o != this && o != pool && o != cs ==> unchanged(o)
      requires (pool.Value(), ip) == AllocateIn(old(pool.Value()), cs.addr)
      requires ip.Some? ==> cs.virtualIp == ip && ipToAddr == old(ipToAddr)[ip.value := cs.addr]
      requires ip.None? ==> cs.virtualIp == old(cs.virtualIp) && ipToAddr == old(ipToAddr)
      ensures Valid()
      ensures Value() == AssignIp(old(Value()), cs.addr)
    {
      SelfChanged(cs);
      OneChanged(cs);
      assert ip.None? ==> Clients() == old(Clients());
    }

    /** The address, if one was free, and the packet that tells the client. */
    method AssignIpToClient(cs: ClientSession) returns (ip: Option<Ip>, packets: seq<bytes>)
      requires Valid() && cs.addr in clients && clients[cs.addr] == cs
      modifies this`ipToAddr, pool, cs`virtualIp
      ensures Valid() && clients == old(clients)
      ensures Value() == AssignIp(old(Value()), cs.addr)
      ensures ip.Some? ==> cs.virtualIp == ip
      ensures packets == Notice(old(Value()).pool, cs.session.id)
    {
      ip, packets := None, [];
      if pool != null {
        ip := pool.Allocate(cs.addr);
        if ip.Some? {
          cs.virtualIp := ip;
          ipToAddr := ipToAddr[ip.value := cs.addr];
          packets := [IpAssignPacket(cs.session.id, Dotted(ip.value))];
        }
        Assigned(cs, ip);
      }
    }

    /** The handlers of CONTROL_HANDLERS on the session of a client. */
    method RunHandler(session: Session, raw: bytes) returns (packets: seq<bytes>, handled: bool, raised: bool)
      requires raw != [] && raw[0] == OpcodeByte(Opcode.Control)
      modifies session
      ensures (session.Value(), packets, handled) == ServerDispatch(env.crypto, old(session.Value()), raw)
      ensures raised == ServerRaises(raw)
    {
      var decoded := DecodePacket(raw);
      if decoded.None? || decoded.value.payload == [] {
        return [], false, false;
      }
      var inner := decoded.value.payload[1..];
      var sent: Option<seq<bytes>>;
      match MessageOf(decoded.value.payload[0]) {
        case Some(ClientHello) => sent := session.ServerHandleClientHello(env.crypto, inner);
        case Some(ClientFinished) => sent := session.ServerHandleClientFinished(env.crypto, inner);
        case Some(_) => return [], false, false;
        case None => return [], false, true;
      }
      packets := if sent.Some? then sent.value else [];
      handled, raised := true, false;
    }

    /** The data channel of an established client. */
    method BuildData(cs: ClientSession)
      requires cs.Valid() && cs.data == null
      modifies cs`data, cs`Repr
      ensures cs.Valid() && cs.Value() == old(cs.Value()).(data := Some(NewData(env, old(cs.Value()).session)))
      ensures fresh(cs.Repr - old(cs.Repr))
    {
      var peers := if cs.session.peerId.Some? then cs.session.peerId.value else [];
      cs.data := new DataChannel(
        cs.session.id, peers, cs.session.key, env.aead, env.codec, env.compLzo, REPLAY_WINDOW);
      cs.Repr := cs.Repr + {cs.data, cs.data.replay};
    }

    /** The control branch before the address is assigned. */
    method HandleControl(cs: ClientSession, raw: bytes) returns (packets: seq<bytes>, built: bool, raised: bool)
      requires cs.Valid() && raw != [] && raw[0] == OpcodeByte(Opcode.Control)
      modifies cs`data, cs`Repr, cs.session
      ensures packets == ServerDispatch(env.crypto, old(cs.Value()).session, raw).1 && raised == ServerRaises(raw)
      ensures cs.Valid() && (cs.Value(), built) == ControlClient(env, old(cs.Value()), raw)
      ensures fresh(cs.Repr - old(cs.Repr))
    {
      var handled;
      packets, handled, raised := RunHandler(cs.session, raw);
      built := handled && cs.session.state == Established && cs.data == null;
      if built {
        BuildData(cs);
      }
    }

    /** The data branch. */
    method HandleData(cs: ClientSession, raw: bytes, now: real) returns (outcome: Data.Outcome)
      requires cs.Valid()
      modifies cs.Repr - {cs, cs.session}
      ensures cs.Valid() && (cs.Value(), outcome) == DataClient(env, old(cs.Value()), raw, now)
      ensures cs.Repr == old(cs.Repr)
    {
      if cs.session.state != Established || cs.data == null {
        return Data.Dropped;
      }
      outcome := cs.data.Decrypt(raw, now);
    }

    /** handle_udp_data on a client it knows, up to the assignment of an address. */
    method ReceiveFrom(cs: ClientSession, raw: bytes, now: real)
      returns (packets: seq<bytes>, outcome: Data.Outcome, built: bool, raised: bool)
      requires cs.Valid() && raw != [] && raw[0] != OpcodeByte(HardResetClient)
      modifies cs.Repr
      ensures cs.Valid() && (cs.Value(), built) == Receive(env, old(cs.Value()), raw, now)
      ensures packets == ServerDispatch(env.crypto, old(cs.session.Value()), raw).1
      ensures outcome == HeardFrom(env, old(cs.Value()), raw, now) && raised == (ServerRaises(raw) || outcome.Raised?)
      ensures fresh(cs.Repr - old(cs.Repr))
    {
      cs.lastSeen := now;
      packets, outcome, built, raised := [], Data.Dropped, false, false;
      if raw[0] == OpcodeByte(Opcode.Control) {
        packets, built, raised := HandleControl(cs, raw);
      } else if raw[0] == OpcodeByte(Opcode.Data) {
        outcome := HandleData(cs, raw, now);
        raised := outcome.Raised?;
      }
    }

    method ResetSession(cs: ClientSession, raw: bytes) returns (packets: seq<bytes>, raised: bool)
      requires Valid() && cs.addr in clients && clients[cs.addr] == cs
      requires raw != [] && raw[0] == OpcodeByte(HardResetClient)
      modifies cs.session
      ensures Valid() && clients == old(clients) && Repr == old(Repr)
      ensures packets == ServerDispatch(env.crypto, old(Value()).clients[cs.addr].session, raw).1
      ensures raised == ServerRaises(raw)
      ensures var t := old(Value());
        var c := t.clients[cs.addr];
        Value() == t.(clients := t.clients[cs.addr := c.(session := ServerHandleReset(c.session, raw).0)])
    {
      ghost var t, c := Value(), cs.Value();
      assert t.clients[cs.addr] == c && cs.session in cs.Repr;
      var sent := cs.session.ServerHandleReset(raw);
      packets := if sent.Some? then sent.value else [];
      raised := sent.None?;
      assert cs.Value() == c.(session := ServerHandleReset(c.session, raw).0);
      assert Repr == Repr + cs.Repr;
      Settled(cs);
    }

    /** The branch of HARD_RESET_CLIENT. */
    method HandleReset(raw: bytes, addr: Addr, now: real, draw: Draw) returns (packets: seq<bytes>, raised: bool)
      requires Valid() && raw != [] && raw[0] == OpcodeByte(HardResetClient)
      modifies Repr
      ensures Valid() && fresh(Repr - old(Repr))
      ensures Value() == Handle(env, old(Value()), addr, raw, now, draw)
      ensures packets == Answers(env, old(Value()), addr, raw, now, draw) && raised == ServerRaises(raw)
    {
      var cs := GetOrCreateSession(addr, now, draw);
      packets, raised := ResetSession(cs, raw);
    }

    /** Taking over what a change of client cs, and of nothing else, has brought. */
    twostate lemma Settled(cs: ClientSession)
      requires old(Valid()) && cs.addr in old(clients) && old(clients[cs.addr]) == cs
      requires clients == old(clients) && Repr == old(Repr) + cs.Repr && ipToAddr == old(ipToAddr)
      requires forall o :: o in old(Repr) && o != this && o !in old(cs.Repr) ==> unchanged(o)
      requires cs.Valid() && fresh(cs.Repr - old(cs.Repr))
      ensures Valid() && Value() == old(Value()).(clients := old(Clients())[cs.addr := cs.Value()])
    {
      OneChanged(cs);
    }

    method ReceiveKnown(cs: ClientSession, raw: bytes, now: real)
      returns (packets: seq<bytes>, outcome: Data.Outcome, built: bool, raised: bool)
      requires Valid() && cs.addr in clients && clients[cs.addr] == cs
      requires raw != [] && raw[0] != OpcodeByte(HardResetClient)
      modifies this`Repr, cs.Repr
      ensures Valid() && clients == old(clients) && fresh(Repr - old(Repr))
      ensures cs.Valid() && (cs.Value(), built) == Receive(env, old(cs.Value()), raw, now)
      ensures Value() == old(Value()).(clients := old(Clients())[cs.addr := cs.Value()])
      ensures packets == ServerDispatch(env.crypto, old(cs.Value()).session, raw).1
      ensures outcome == HeardFrom(env, old(cs.Value()), raw, now) && raised == (ServerRaises(raw) || outcome.Raised?)
    {
      packets, outcome, built, raised := ReceiveFrom(cs, raw, now);
      Repr := Repr + cs.Repr;
      Settled(cs);
    }

    /** An address for a client whose data channel was just built. */
    method Welcome(cs: ClientSession, built: bool) returns (notices: seq<bytes>)
      requires Valid() && cs.addr in clients && clients[cs.addr] == cs
      modifies this`ipToAddr, pool, cs`virtualIp
      ensures Valid() && clients == old(clients)
      ensures Value() == if built then AssignIp(old(Value()), cs.addr) else old(Value())
      ensures notices == if built then Notice(old(Value()).pool, cs.session.id) else []
    {
      notices := [];
      if built {
        var ip;
        ip, notices := AssignIpToClient(cs);
      }
    }

    /** The part of handle_udp_data after the reset branches. */
    method HandleKnown(cs: ClientSession, raw: bytes, now: real)
      returns (packets: seq<bytes>, notices: seq<bytes>, outcome: Data.Outcome, raised: bool)
      requires Valid() && cs.addr in clients && clients[cs.addr] == cs
      requires raw != [] && raw[0] != OpcodeByte(HardResetClient) && raw[0] != OpcodeByte(HardResetServer)
      modifies this`ipToAddr, this`Repr, pool, cs.Repr
      ensures Valid() && clients == old(clients) && fresh(Repr - old(Repr))
      ensures Value() == ServerTable.HandleKnown(env, old(Value()), cs.addr, raw, now)
      ensures packets == ServerDispatch(env.crypto, old(Value()).clients[cs.addr].session, raw).1
      ensures notices == Notices(env, old(Value()), cs.addr, raw, now)
      ensures outcome == Heard(env, old(Value()), cs.addr, raw, now)
      ensures raised == (ServerRaises(raw) || outcome.Raised?)
    {
      ghost var t, c := Value(), cs.Value();
      assert t.clients[cs.addr] == c;
      var built;
      packets, outcome, built, raised := ReceiveKnown(cs, raw, now);
      KnownParts(env, t, cs.addr, raw, now, cs.Value(), built);
      notices := Welcome(cs, built);
    }

    /** HandleKnown and Notices, from what Receive returns. */
    static lemma KnownParts(env: Env, t: Table, addr: Addr, raw: bytes, now: real, c: Client, built: bool)
      requires raw != [] && raw[0] != OpcodeByte(HardResetClient) && raw[0] != OpcodeByte(HardResetServer)
      requires addr in t.clients && (c, built) == Receive(env, t.clients[addr], raw, now)
      ensures var t' := t.(clients := t.clients[addr := c]);
        && ServerTable.HandleKnown(env, t, addr, raw, now) == (if built then AssignIp(t', addr) else t')
        && Notices(env, t, addr, raw, now) == (if built then Notice(t.pool, c.session.id) else [])
    {
    }

    /** The handshake packets sent back to addr and the IP_ASSIGN packet after them, what
        decrypt made of a data packet, and whether the call raises. */
    method HandleUdpData(raw: bytes, addr: Addr, now: real, draw: Draw)
      returns (packets: seq<bytes>, notices: seq<bytes>, outcome: Data.Outcome, raised: bool)
      requires Valid()
      modifies Repr
      ensures Valid() && fresh(Repr - old(Repr))
      ensures Value() == Handle(env, old(Value()), addr, raw, now, draw)
      ensures packets == Answers(env, old(Value()), addr, raw, now, draw)
      ensures notices == Notices(env, old(Value()), addr, raw, now)
      ensures outcome == Heard(env, old(Value()), addr, raw, now)
      ensures raised == Raises(env, old(Value()), addr, raw, now)
    {
      packets, notices, outcome, raised := [], [], Data.Dropped, false;
      assert Value().clients.Keys == clients.Keys;
      if raw == [] {
        return;
      }
      if raw[0] == OpcodeByte(HardResetClient) {
        assert Heard(env, Value(), addr, raw, now) == Data.Dropped;
        packets, raised := HandleReset(raw, addr, now, draw);
        return;
      }
      if raw[0] == OpcodeByte(HardResetServer) || addr !in clients {
        return;
      }
      packets, notices, outcome, raised := HandleKnown(clients[addr], raw, now);
    }

    twostate lemma RemovedClients(addr: Addr)
      requires old(Valid()) && clients == old(clients) - {addr} && Repr == old(Repr)
      requires forall o :: o in old(Repr) && o != this && o != pool ==> unchanged(o)
      ensures Valid()
      ensures Clients() == old(Clients()) - {addr}
    {
      forall a | a in clients
        ensures clients[a].Valid() && clients[a].Repr == old(clients[a].Repr)
        ensures clients[a].Value() == old(clients[a].Value())
      {
        Kept(clients[a]);
      }
      assert Clients().Keys == clients.Keys && old(Clients()).Keys == old(clients).Keys;
    }

    method RemoveClient(addr: Addr)
      requires Valid()
      modifies this, pool
      ensures Valid() && Repr == old(Repr)
      ensures Value() == Remove(old(Value()), addr)
    {
      if addr in clients {
        var cs := clients[addr];
        clients := clients - {addr};
        if cs.virtualIp.Some? {
          ipToAddr := ipToAddr - {cs.virtualIp.value};
          if pool != null {
            pool.Release(cs.addr);
          }
        }
        RemovedClients(addr);
      }
    }

    method LooksStale(cs: ClientSession, now: real) returns (stale: bool)
      requires cs.Valid()
      ensures stale == IsStale(cs.Value(), now, env.keepaliveTimeout)
    {
      if cs.session.state == Established && now - cs.lastSeen > env.keepaliveTimeout {
        return true;
      }
      return cs.session.state != Established && IsExpired(cs.session.Value(), now);
    }

    /** The list to_remove. */
    method FindStale(now: real) returns (stale: set<Addr>)
      requires Valid()
      ensures stale == StaleAddrs(Value(), now, env.keepaliveTimeout)
    {
      stale := {};
      var rest := clients.Keys;
      ghost var t := Clients();
      while rest != {}
        invariant rest <= clients.Keys
        invariant stale == StaleSoFar(t, rest, now, env.keepaliveTimeout)
        decreases rest
      {
        var addr :| addr in rest;
        var isStale := LooksStale(clients[addr], now);
        StaleNext(t, rest, addr, now, env.keepaliveTimeout);
        if isStale {
          stale := stale + {addr};
        }
        rest := rest - {addr};
      }
    }

    method CleanupStale(now: real, ghost range: set<Ip>)
      requires Valid() && TableOk(Value(), range)
      modifies this, pool
      ensures Valid() && Repr == old(Repr)
      ensures Value() == Without(old(Value()), StaleAddrs(old(Value()), now, env.keepaliveTimeout))
    {
      var rest := FindStale(now);
      ghost var was, all := Value(), rest;
      WithoutNone(was, all);
      while rest != {}
        invariant rest <= all && Valid() && Repr == old(Repr) && Value() == Without(was, all - rest)
        decreases rest
      {
        var addr :| addr in rest;
        RemoveNext(was, range, all, rest, addr);
        RemoveClient(addr);
        rest := rest - {addr};
      }
    }

    method ExpireNext(cs: ClientSession, now: real)
      requires Valid() && cs.addr in clients && clients[cs.addr] == cs
      modifies cs.Repr - {cs, cs.session}
      ensures Valid()
      ensures Clients() == old(Clients())[cs.addr := ExpireClient(old(cs.Value()), now)]
    {
      if cs.data != null {
        cs.data.CleanupFragments(now);
      }
      assert cs.Valid() && cs.Value() == ExpireClient(old(cs.Value()), now);
      OneChanged(cs);
    }

    /** The last loop of a tick: cleanup_fragments on every data channel. */
    method ExpireAll(now: real)
      requires Valid()
      modifies Repr - {this, pool}
      ensures Valid() && Value() == ExpireFragments(old(Value()), now)
    {
      var rest := clients.Keys;
      ghost var was := Clients();
      ExpiredEnds(Value(), now);
      while rest != {}
        invariant rest <= clients.Keys && Valid() && Clients() == ExpiredSoFar(was, rest, now)
        decreases rest
      {
        var addr :| addr in rest;
        ExpiredNext(was, rest, addr, now);
        ExpireNext(clients[addr], now);
        rest := rest - {addr};
      }
    }

    /** One event of the server's loop, on the objects. */
    method Perform(e: Event, ghost range: set<Ip>)
      requires Valid() && TableOk(Value(), range)
      modifies Repr
      ensures Valid() && fresh(Repr - old(Repr))
      ensures Value() == Step(env, old(Value()), e) && TableOk(Value(), range)
    {
      StepKeeps(env, Value(), range, e);
      match e
      case Packet(addr, raw, now, draw) =>
        var packets, notices, outcome, raised := HandleUdpData(raw, addr, now, draw);
      case Connect(addr, now, draw) => var cs := GetOrCreateSession(addr, now, draw);
      case Disconnect(addr) => RemoveClient(addr);
      case Sweep(now) => CleanupStale(now, range);
      case Tick(now) => ExpireAll(now);
    }
  }
}
