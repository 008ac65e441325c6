/** The server's session table and its address pool (src/server.py): what every event does to
    them, and the agreement of their indexes over every run. */
module ServerTable {
  import opened Bytes
  import opened Packet
  import opened Control
  import opened Routing
  import opened Endpoint
  import Data
  import Wire

  datatype Client = Client(
    session: SessionValue, data: Option<DataState>, virtualIp: Option<Ip>, lastSeen: real)

  /** The dictionaries `clients` and `ip_to_addr`, and the pool if there is one. */
  datatype Table = Table(clients: map<Addr, Client>, ipToAddr: map<Ip, Addr>, pool: Option<Pool>)

  predicate IsReady(c: Client) {
    c.session.state == Established && c.data.Some?
  }

  /** The random values a new session draws. */
  datatype Draw = Draw(id: SessionId, privateKey: PrivateKey)

  function NewClient(env: Env, now: real, draw: Draw): Client {
    Client(NewSession(draw.id, draw.privateKey, env.credentials, now), None, None, now)
  }

  function GetOrCreate(env: Env, t: Table, addr: Addr, now: real, draw: Draw): Table {
    if addr in t.clients then t
    else t.(clients := t.clients[addr := NewClient(env, now, draw)])
  }

  ghost function AssignIp(t: Table, addr: Addr): Table
    requires addr in t.clients
  {
    match t.pool
    case None => t
    case Some(pool) =>
      match AllocateIn(pool, addr)
      case (pool', None) => t.(pool := Some(pool'))
      case (pool', Some(ip)) =>
        Table(t.clients[addr := t.clients[addr].(virtualIp := Some(ip))],
              t.ipToAddr[ip := addr],
              Some(pool'))
  }

  function Remove(t: Table, addr: Addr): Table {
    if addr !in t.clients then t
    else
      var ip := t.clients[addr].virtualIp;
      Table(t.clients - {addr},
            if ip.Some? then t.ipToAddr - {ip.value} else t.ipToAddr,
            if ip.Some? && t.pool.Some? then Some(ReleaseIn(t.pool.value, addr)) else t.pool)
  }

  /** A control packet from a known client, and whether a data channel was built. */
  function ControlClient(env: Env, c: Client, raw: bytes): (Client, bool) {
    var (session, _, handled) := ServerDispatch(env.crypto, c.session, raw);
    var c' := c.(session := session);
    if handled && session.state == Established && c.data.None? then
      (c'.(data := Some(NewData(env, session))), true)
    else (c', false)
  }

  /** A data packet from a known client, and what decrypt made of it. */
  function DataClient(env: Env, c: Client, raw: bytes, now: real): (Client, Data.Outcome) {
    if !IsReady(c) then (c, Data.Dropped)
    else
      var (rx, outcome) := Data.Decrypt(c.data.value.channel, c.data.value.rx, raw, now);
      (c.(data := Some(c.data.value.(rx := rx))), outcome)
  }

  /** A packet that is no reset, from a known client, and whether a data channel was built. */
  function Receive(env: Env, c: Client, raw: bytes, now: real): (Client, bool)
    requires raw != []
  {
    var seen := c.(lastSeen := now);
    if raw[0] == OpcodeByte(Opcode.Control) then ControlClient(env, seen, raw)
    else if raw[0] == OpcodeByte(Opcode.Data) then (DataClient(env, seen, raw, now).0, false)
    else (seen, false)
  }

  /** The part of handle_udp_data after the reset branches. */
  ghost function HandleKnown(env: Env, t: Table, addr: Addr, raw: bytes, now: real): Table
    requires raw != [] && addr in t.clients
  {
    var (c, built) := Receive(env, t.clients[addr], raw, now);
    var t' := t.(clients := t.clients[addr := c]);
    if built then AssignIp(t', addr) else t'
  }

  /** handle_udp_data: a datagram, or a frame of a TCP connection. */
  ghost function Handle(env: Env, t: Table, addr: Addr, raw: bytes, now: real, draw: Draw): Table {
    if raw == [] then t
    else if raw[0] == OpcodeByte(HardResetClient) then
      var t' := GetOrCreate(env, t, addr, now, draw);
      var c := t'.clients[addr];
      t'.(clients := t'.clients[addr := c.(session := ServerHandleReset(c.session, raw).0)])
    else if raw[0] == OpcodeByte(HardResetServer) || addr !in t.clients then t
    else HandleKnown(env, t, addr, raw, now)
  }

  /** The handshake packets that handle_udp_data sends back to addr. */
  function Answers(env: Env, t: Table, addr: Addr, raw: bytes, now: real, draw: Draw): seq<bytes> {
    if raw != [] && raw[0] == OpcodeByte(HardResetClient) then
      ServerDispatch(env.crypto, GetOrCreate(env, t, addr, now, draw).clients[addr].session, raw).1
    else if addr in t.clients then
      ServerDispatch(env.crypto, t.clients[addr].session, raw).1
    else []
  }

  /** The IP_ASSIGN packet that follows them, if an address was assigned. */
  ghost function Notices(env: Env, t: Table, addr: Addr, raw: bytes, now: real): seq<bytes> {
    if raw == [] || raw[0] in {OpcodeByte(HardResetClient), OpcodeByte(HardResetServer)} || addr !in t.clients then []
    else
      var (c, built) := Receive(env, t.clients[addr], raw, now);
      if built then Notice(t.pool, c.session.id) else []
  }

  ghost function Notice(pool: Option<Pool>, id: SessionId): seq<bytes> {
    if pool.Some? && pool.value.available != {}
    then [IpAssignPacket(id, Dotted(Least(pool.value.available)))] else []
  }

  /** Whether it raises. */
  function Raises(env: Env, t: Table, addr: Addr, raw: bytes, now: real): bool {
    && raw != []
    && (raw[0] == OpcodeByte(HardResetClient) || addr in t.clients)
    && (ServerRaises(raw) || Heard(env, t, addr, raw, now).Raised?)
  }

  /** What its call of decrypt returns; Dropped if there is no such call. */
  function HeardFrom(env: Env, c: Client, raw: bytes, now: real): Data.Outcome {
    if raw == [] || raw[0] != OpcodeByte(Opcode.Data) then Data.Dropped else DataClient(env, c, raw, now).1
  }

  function Heard(env: Env, t: Table, addr: Addr, raw: bytes, now: real): Data.Outcome {
    if addr !in t.clients then Data.Dropped else HeardFrom(env, t.clients[addr], raw, now)
  }

  /** The packet number under which it returns a datagram. */
  function HeardUnder(t: Table, addr: Addr, raw: bytes): int {
    if addr in t.clients && t.clients[addr].data.Some? then Data.UnderOf(t.clients[addr].data.value.channel, raw)
    else -1
  }

  /** It raises exactly on a reset of fewer than nine bytes, on a known client's control message of
      unknown type, and when decrypt raises on a data packet of an established client. */
  lemma RaisesExact(env: Env, t: Table, addr: Addr, raw: bytes, now: real)
    ensures Raises(env, t, addr, raw, now) <==>
      && raw != []
      && match raw[0]
         case 1 => |raw| < 9
         case 3 => addr in t.clients && |raw| >= 10 && !(1 <= raw[9] <= 6)
         case 5 =>
           && addr in t.clients && t.clients[addr].data.Some? && t.clients[addr].session.state == Established
           && var d := t.clients[addr].data.value; Data.Decrypt(d.channel, d.rx, raw, now).1 == Data.Raised
         case _ => false
  {
    Wire.ServerRaisesExact(raw);
  }

  /** What _cleanup_stale looks for. */
  predicate IsStale(c: Client, now: real, timeout: real) {
    if c.session.state == Established then now - c.lastSeen > timeout
    else IsExpired(c.session, now)
  }

  function StaleAddrs(t: Table, now: real, timeout: real): set<Addr> {
    set addr | addr in t.clients && IsStale(t.clients[addr], now, timeout)
  }

  /** The addresses of the clients in `gone`. */
  ghost function Freed(t: Table, gone: set<Addr>): set<Ip> {
    set addr | addr in gone && addr in t.clients && t.clients[addr].virtualIp.Some? :: t.clients[addr].virtualIp.value
  }

  /** The table without the given clients: their entries, addresses and nothing else gone. */
  ghost function Without(t: Table, gone: set<Addr>): Table {
    var freed := Freed(t, gone);
    Table(t.clients - gone,
          t.ipToAddr - freed,
          match t.pool
          case None => None
          case Some(p) => Some(Pool(p.available + freed, p.byClient - gone, p.byIp - freed)))
  }

  function ExpireClient(c: Client, now: real): Client {
    c.(data := ExpireData(c.data, now))
  }

  /** cleanup_fragments on every client that has a data channel. */
  function ExpireFragments(t: Table, now: real): Table {
    t.(clients := map addr | addr in t.clients :: ExpireClient(t.clients[addr], now))
  }

  // ---- The loops over the clients, with the addresses in `rest` still to come ----

  function StaleSoFar(clients: map<Addr, Client>, rest: set<Addr>, now: real, timeout: real): set<Addr> {
    set addr | addr in clients && addr !in rest && IsStale(clients[addr], now, timeout)
  }

  lemma StaleNext(clients: map<Addr, Client>, rest: set<Addr>, addr: Addr, now: real, timeout: real)
    requires addr in clients && addr in rest
    ensures StaleSoFar(clients, rest - {addr}, now, timeout)
      == StaleSoFar(clients, rest, now, timeout) + (if IsStale(clients[addr], now, timeout) then {addr} else {})
  {
  }

  function ExpiredSoFar(clients: map<Addr, Client>, rest: set<Addr>, now: real): map<Addr, Client> {
    map addr | addr in clients :: if addr in rest then clients[addr] else ExpireClient(clients[addr], now)
  }

  lemma ExpiredEnds(t: Table, now: real)
    ensures ExpiredSoFar(t.clients, t.clients.Keys, now) == t.clients
    ensures t.(clients := ExpiredSoFar(t.clients, {}, now)) == ExpireFragments(t, now)
  {
  }

  lemma ExpiredNext(clients: map<Addr, Client>, rest: set<Addr>, addr: Addr, now: real)
    requires addr in clients && addr in rest
    ensures ExpiredSoFar(clients, rest, now)[addr := ExpireClient(clients[addr], now)]
      == ExpiredSoFar(clients, rest - {addr}, now)
  {
  }

  datatype Event =
    | Packet(addr: Addr, raw: bytes, now: real, draw: Draw)
    | Connect(addr: Addr, now: real, draw: Draw)
    | Disconnect(addr: Addr)
    | Sweep(now: real)
    | Tick(now: real)

  ghost function Step(env: Env, t: Table, e: Event): Table {
    match e
    case Packet(addr, raw, now, draw) => Handle(env, t, addr, raw, now, draw)
    case Connect(addr, now, draw) => GetOrCreate(env, t, addr, now, draw)
    case Disconnect(addr) => Remove(t, addr)
    case Sweep(now) => Without(t, StaleAddrs(t, now, env.keepaliveTimeout))
    case Tick(now) => ExpireFragments(t, now)
  }

  /** An empty server, with or without a pool. */
  function Empty(range: Option<(Ip, Ip)>): Table {
    Table(map[], map[], match range case None => None case Some((first, last)) => Some(FullPool(first, last)))
  }

  function RangeOf(range: Option<(Ip, Ip)>): set<Ip> {
    match range case None => {} case Some((first, last)) => Range(first, last)
  }

  ghost function Run(env: Env, range: Option<(Ip, Ip)>, events: seq<Event>): Table {
    if events == [] then Empty(range)
    else Step(env, Run(env, range, events[..|events| - 1]), events[|events| - 1])
  }

  // ---- Agreement of the indexes ----

  ghost predicate Holds(t: Table, addr: Addr, ip: Ip) {
    addr in t.clients && t.clients[addr].virtualIp == Some(ip)
  }

  /** ip_to_addr is the inverse of the live clients' addresses. */
  ghost predicate InverseOk(t: Table) {
    && (forall ip :: ip in t.ipToAddr ==> Holds(t, t.ipToAddr[ip], ip))
    && (forall addr, ip :: Holds(t, addr, ip) ==> ip in t.ipToAddr && t.ipToAddr[ip] == addr)
  }

  /** The pool's books are those of the server: _allocated has exactly the live clients'
      addresses, and _allocated_by_int is ip_to_addr. */
  ghost predicate PoolAgrees(t: Table, range: set<Ip>) {
    match t.pool
    case None => forall addr :: addr in t.clients ==> t.clients[addr].virtualIp == None
    case Some(p) =>
      && PoolOk(p, range)
      && p.byIp == t.ipToAddr
      && (forall addr :: addr in p.byClient ==> Holds(t, addr, p.byClient[addr]))
      && (forall addr, ip :: Holds(t, addr, ip) ==> addr in p.byClient && p.byClient[addr] == ip)
  }

  /** No client without a data channel has an address. */
  ghost predicate DataFirst(t: Table) {
    forall addr :: addr in t.clients && t.clients[addr].data == None ==> t.clients[addr].virtualIp == None
  }

  ghost predicate TableOk(t: Table, range: set<Ip>) {
    InverseOk(t) && PoolAgrees(t, range) && DataFirst(t)
  }

  // ---- Every event keeps it ----

  /** Changing anything of a client but its address. */
  lemma UpdateKeeps(t: Table, range: set<Ip>, addr: Addr, c: Client)
    requires TableOk(t, range) && addr in t.clients && c.virtualIp == t.clients[addr].virtualIp
    requires c.data == None ==> c.virtualIp == None
    ensures TableOk(t.(clients := t.clients[addr := c]), range)
  {
    var t' := t.(clients := t.clients[addr := c]);
    assert forall a, ip :: Holds(t', a, ip) <==> Holds(t, a, ip);
  }

  lemma CreateKeeps(env: Env, t: Table, range: set<Ip>, addr: Addr, now: real, draw: Draw)
    requires TableOk(t, range)
    ensures TableOk(GetOrCreate(env, t, addr, now, draw), range)
  {
    var t' := GetOrCreate(env, t, addr, now, draw);
    assert forall a, ip :: Holds(t', a, ip) <==> Holds(t, a, ip);
  }

  /** A client that holds no address has none in the pool either, so giving it one loses none. */
  lemma AssignKeeps(t: Table, range: set<Ip>, addr: Addr)
    requires addr in t.clients && t.clients[addr].virtualIp == None && t.clients[addr].data.Some?
    requires TableOk(t, range)
    ensures t.pool.Some? ==> addr !in t.pool.value.byClient
    ensures TableOk(AssignIp(t, addr), range)
  {
    if t.pool.Some? {
      var p := t.pool.value;
      assert addr in p.byClient ==> Holds(t, addr, p.byClient[addr]);
      AllocateKeepsExactly(p, range, addr);
      if p.available != {} {
        AssignedHolds(t, range, addr);
      }
    }
  }

  lemma AssignedHolds(t: Table, range: set<Ip>, addr: Addr)
    requires addr in t.clients && t.clients[addr].virtualIp == None && t.clients[addr].data.Some?
    requires InverseOk(t) && DataFirst(t) && PoolAgrees(t, range)
    requires t.pool.Some? && t.pool.value.available != {} && addr !in t.pool.value.byClient
    requires PoolOk(AllocateIn(t.pool.value, addr).0, range)
    ensures TableOk(AssignIp(t, addr), range)
  {
    var t' := AssignIp(t, addr);
    var ip := AllocateIn(t.pool.value, addr).1.value;
    assert ip !in t.ipToAddr;
    forall a, i
      ensures Holds(t', a, i) <==> (if a == addr then i == ip else Holds(t, a, i))
    {
    }
  }

  lemma FreedHeld(t: Table, gone: set<Addr>, ip: Ip)
    ensures ip in Freed(t, gone) <==> exists addr :: addr in gone && Holds(t, addr, ip)
  {
    if ip in Freed(t, gone) {
      var addr :| addr in gone && addr in t.clients && t.clients[addr].virtualIp == Some(ip);
      assert Holds(t, addr, ip);
    }
  }

  lemma WithoutInverse(t: Table, gone: set<Addr>)
    requires InverseOk(t)
    ensures InverseOk(Without(t, gone))
    ensures forall addr, ip :: Holds(Without(t, gone), addr, ip) <==> addr !in gone && Holds(t, addr, ip)
  {
    var t' := Without(t, gone);
    forall addr, ip
      ensures Holds(t', addr, ip) <==> addr !in gone && Holds(t, addr, ip)
    {
    }
    forall addr, ip | Holds(t', addr, ip)
      ensures ip in t'.ipToAddr && t'.ipToAddr[ip] == addr
    {
      FreedHeld(t, gone, ip);
    }
    forall ip | ip in t'.ipToAddr
      ensures Holds(t', t'.ipToAddr[ip], ip)
    {
      FreedHeld(t, gone, ip);
      assert Holds(t, t.ipToAddr[ip], ip);
    }
  }

  lemma WithoutPool(t: Table, range: set<Ip>, gone: set<Addr>)
    requires InverseOk(t) && PoolAgrees(t, range) && t.pool.Some?
    ensures PoolOk(Without(t, gone).pool.value, range)
  {
    var p, p' := t.pool.value, Without(t, gone).pool.value;
    var freed := Freed(t, gone);
    forall ip | ip in freed
      ensures ip in p.byIp && p.byIp[ip] in gone
    {
      FreedHeld(t, gone, ip);
    }
    assert p'.byIp.Keys == p.byIp.Keys - freed;
    assert p'.available + p'.byIp.Keys == p.available + p.byIp.Keys;
    forall id | id in p'.byClient
      ensures p'.byClient[id] in p'.byIp
    {
      FreedHeld(t, gone, p.byClient[id]);
      assert Holds(t, id, p.byClient[id]);
    }
    forall ip | ip in p'.byIp
      ensures p'.byIp[ip] in p'.byClient
    {
      FreedHeld(t, gone, ip);
      assert Holds(t, p.byIp[ip], ip);
    }
  }

  /** Removing any set of clients. */
  lemma WithoutKeeps(t: Table, range: set<Ip>, gone: set<Addr>)
    requires TableOk(t, range)
    ensures TableOk(Without(t, gone), range)
  {
    WithoutInverse(t, gone);
    if t.pool.Some? {
      WithoutPool(t, range, gone);
    }
  }

  lemma WithoutNone(t: Table, all: set<Addr>)
    ensures Without(t, all - all) == t && Without(t, all - {}) == Without(t, all)
  {
    assert all - all == {} && all - {} == all;
    assert Freed(t, {}) == {};
    assert t.clients - {} == t.clients && t.ipToAddr - {} == t.ipToAddr;
    if t.pool.Some? {
      var p := t.pool.value;
      assert p.available + {} == p.available && p.byClient - {} == p.byClient && p.byIp - {} == p.byIp;
    }
  }

  /** _remove_client removes that one client. */
  lemma RemoveIsWithout(t: Table, range: set<Ip>, addr: Addr)
    requires TableOk(t, range)
    ensures Remove(t, addr) == Without(t, {addr})
  {
    var freed := Freed(t, {addr});
    if addr in t.clients && t.clients[addr].virtualIp.Some? {
      var ip := t.clients[addr].virtualIp.value;
      assert freed == {ip};
      assert Holds(t, addr, ip);
    } else {
      assert freed == {};
      assert t.ipToAddr - freed == t.ipToAddr;
      assert addr !in t.clients ==> t.clients - {addr} == t.clients;
      if t.pool.Some? {
        assert t.pool.value.byIp - freed == t.pool.value.byIp;
        assert addr in t.pool.value.byClient ==> Holds(t, addr, t.pool.value.byClient[addr]);
        assert t.pool.value.byClient - {addr} == t.pool.value.byClient;
        assert t.pool.value.available + {} == t.pool.value.available;
      }
    }
  }

  /** Removing one more client after a set of them. */
  lemma WithoutMore(t: Table, gone: set<Addr>, addr: Addr)
    ensures Without(Without(t, gone), {addr}) == Without(t, gone + {addr})
  {
    var t' := Without(t, gone);
    assert Freed(t', {addr}) + Freed(t, gone) == Freed(t, gone + {addr});
    assert t'.clients - {addr} == t.clients - (gone + {addr});
    assert t'.ipToAddr - Freed(t', {addr}) == t.ipToAddr - Freed(t, gone + {addr});
    if t.pool.Some? {
      var p, p' := t.pool.value, t'.pool.value;
      assert p'.available + Freed(t', {addr}) == p.available + Freed(t, gone + {addr});
      assert p'.byClient - {addr} == p.byClient - (gone + {addr});
      assert p'.byIp - Freed(t', {addr}) == p.byIp - Freed(t, gone + {addr});
    }
  }

  /** One turn of the sweep's loop. */
  lemma RemoveNext(t: Table, range: set<Ip>, all: set<Addr>, rest: set<Addr>, addr: Addr)
    requires TableOk(t, range) && addr in rest && rest <= all
    ensures Remove(Without(t, all - rest), addr) == Without(t, all - (rest - {addr}))
  {
    WithoutKeeps(t, range, all - rest);
    RemoveIsWithout(Without(t, all - rest), range, addr);
    WithoutMore(t, all - rest, addr);
    assert all - rest + {addr} == all - (rest - {addr});
  }

  lemma ExpireKeeps(t: Table, range: set<Ip>, now: real)
    requires TableOk(t, range)
    ensures TableOk(ExpireFragments(t, now), range)
  {
    var t' := ExpireFragments(t, now);
    assert forall a, ip :: Holds(t', a, ip) <==> Holds(t, a, ip);
  }

  lemma HandleKnownKeeps(env: Env, t: Table, range: set<Ip>, addr: Addr, raw: bytes, now: real)
    requires TableOk(t, range) && addr in t.clients && raw != []
    ensures TableOk(HandleKnown(env, t, addr, raw, now), range)
  {
    var (c, built) := Receive(env, t.clients[addr], raw, now);
    UpdateKeeps(t, range, addr, c);
    if built {
      AssignKeeps(t.(clients := t.clients[addr := c]), range, addr);
    }
  }

  lemma HandleKeeps(env: Env, t: Table, range: set<Ip>, addr: Addr, raw: bytes, now: real, draw: Draw)
    requires TableOk(t, range)
    ensures TableOk(Handle(env, t, addr, raw, now, draw), range)
  {
    if raw != [] && raw[0] == OpcodeByte(HardResetClient) {
      var t' := GetOrCreate(env, t, addr, now, draw);
      CreateKeeps(env, t, range, addr, now, draw);
      var c := t'.clients[addr];
      UpdateKeeps(t', range, addr, c.(session := ServerHandleReset(c.session, raw).0));
    } else if raw != [] && addr in t.clients {
      HandleKnownKeeps(env, t, range, addr, raw, now);
    }
  }

  lemma StepKeeps(env: Env, t: Table, range: set<Ip>, e: Event)
    requires TableOk(t, range)
    ensures TableOk(Step(env, t, e), range)
  {
    match e
    case Packet(addr, raw, now, draw) => HandleKeeps(env, t, range, addr, raw, now, draw);
    case Connect(addr, now, draw) => CreateKeeps(env, t, range, addr, now, draw);
    case Disconnect(addr) =>
      RemoveIsWithout(t, range, addr);
      WithoutKeeps(t, range, {addr});
    case Sweep(now) => WithoutKeeps(t, range, StaleAddrs(t, now, env.keepaliveTimeout));
    case Tick(now) => ExpireKeeps(t, range, now);
  }

  // ---- Whole runs ----

  /** In every state the server reaches before it shuts down, whatever it receives, all its
      indexes agree: ip_to_addr is the inverse of the live clients' addresses, the pool's two
      dictionaries are the same relation, and free and used addresses make up the range. */
  lemma {:induction false} IndexesAgree(env: Env, range: Option<(Ip, Ip)>, events: seq<Event>)
    ensures TableOk(Run(env, range, events), RangeOf(range))
  {
    if events == [] {
      if range.Some? {
        FullPoolOk(range.value.0, range.value.1);
      }
    } else {
      IndexesAgree(env, range, events[..|events| - 1]);
      StepKeeps(env, Run(env, range, events[..|events| - 1]), RangeOf(range), events[|events| - 1]);
    }
  }

  /** The server asks the pool only for clients that hold no address: in every run, a client
      whose data channel is still to be built is not in the pool's books. */
  lemma NeverAllocatesTwice(env: Env, range: Option<(Ip, Ip)>, events: seq<Event>, addr: Addr)
    ensures var t := Run(env, range, events);
      t.pool.Some? && addr in t.pool.value.byClient ==> addr in t.clients && t.clients[addr].data.Some?
  {
    IndexesAgree(env, range, events);
    var t := Run(env, range, events);
    if t.pool.Some? && addr in t.pool.value.byClient {
      assert Holds(t, addr, t.pool.value.byClient[addr]);
    }
  }

  /** An IP_ASSIGN packet of session id whose text, read as an address, is ip. */
  ghost predicate Tells(raw: bytes, id: SessionId, ip: Ip) {
    exists text :: raw == IpAssignPacket(id, text) && (IsAddress(ip) ==> AddressIn(text) == Some(ip))
  }

  lemma NoticeTells(id: SessionId, ip: Ip)
    ensures Tells(IpAssignPacket(id, Dotted(ip)), id, ip)
  {
    DottedReads(ip);
  }

  /** A client is told an address exactly when it is given one, and the address it is told is
      the one under which the server finds it. */
  lemma AssignedIsTold(env: Env, range: Option<(Ip, Ip)>, events: seq<Event>, addr: Addr, raw: bytes, now: real,
                       draw: Draw)
    requires addr in Run(env, range, events).clients
    ensures var t := Run(env, range, events);
      var t' := Handle(env, t, addr, raw, now, draw);
      var c, c' := t.clients[addr], t'.clients[addr];
      if c'.virtualIp == c.virtualIp then Notices(env, t, addr, raw, now) == []
      else
        && c.virtualIp == None && c'.virtualIp.Some?
        && c'.virtualIp.value in t'.ipToAddr && t'.ipToAddr[c'.virtualIp.value] == addr
        && |Notices(env, t, addr, raw, now)| == 1
        && Tells(Notices(env, t, addr, raw, now)[0], c'.session.id, c'.virtualIp.value)
  {
    IndexesAgree(env, range, events);
    var t := Run(env, range, events);
    AssignedIsNoticed(env, t, RangeOf(range), addr, raw, now, draw);
    var c' := Handle(env, t, addr, raw, now, draw).clients[addr];
    if c'.virtualIp.Some? {
      NoticeTells(c'.session.id, c'.virtualIp.value);
    }
  }

  lemma AssignedIsNoticed(env: Env, t: Table, range: set<Ip>, addr: Addr, raw: bytes, now: real, draw: Draw)
    requires addr in t.clients && TableOk(t, range)
    ensures var t' := Handle(env, t, addr, raw, now, draw);
      var c, c' := t.clients[addr], t'.clients[addr];
      if c'.virtualIp == c.virtualIp then Notices(env, t, addr, raw, now) == []
      else
        && c.virtualIp == None && c'.virtualIp.Some?
        && c'.virtualIp.value in t'.ipToAddr && t'.ipToAddr[c'.virtualIp.value] == addr
        && Notices(env, t, addr, raw, now) == [IpAssignPacket(c'.session.id, Dotted(c'.virtualIp.value))]
  {
    if raw != [] && raw[0] != OpcodeByte(HardResetClient) && raw[0] != OpcodeByte(HardResetServer) {
      var (c, built) := Receive(env, t.clients[addr], raw, now);
      assert built ==> t.clients[addr].data == None;
    }
  }

  /** With free addresses, a client whose data channel is built is told the least of them. */
  lemma BuiltIsTold(env: Env, t: Table, addr: Addr, raw: bytes, now: real, draw: Draw)
    requires addr in t.clients && t.clients[addr].data == None
    requires t.pool.Some? && t.pool.value.available != {}
    requires Handle(env, t, addr, raw, now, draw).clients[addr].data.Some?
    ensures var c, ip := Handle(env, t, addr, raw, now, draw).clients[addr], Least(t.pool.value.available);
      c.virtualIp == Some(ip) && Notices(env, t, addr, raw, now) == [IpAssignPacket(c.session.id, Dotted(ip))]
  {
  }

  /** The pool changes only when a client's data channel is built. */
  lemma PoolKept(env: Env, t: Table, addr: Addr, raw: bytes, now: real, draw: Draw)
    ensures var t' := Handle(env, t, addr, raw, now, draw);
      t'.pool == t.pool || (addr in t'.clients && t'.clients[addr].data.Some?)
  {
  }

  /** Every address in use lies in the range. */
  lemma HeldInRange(env: Env, range: Option<(Ip, Ip)>, events: seq<Event>, addr: Addr, ip: Ip)
    requires Holds(Run(env, range, events), addr, ip)
    ensures ip in RangeOf(range)
  {
    IndexesAgree(env, range, events);
    var t := Run(env, range, events);
    assert t.pool.Some? && ip in t.pool.value.byIp.Keys;
  }

  /** No client is ever given the server's own address, unless a configured range has it. */
  lemma ServerKeepsItsAddress(env: Env, net: Network, configured: Option<(Ip, Ip)>, events: seq<Event>, addr: Addr)
    requires configured.Some? ==> !(configured.value.0 <= ServerIp(net) <= configured.value.1)
    ensures !Holds(Run(env, Some(PoolRange(net, configured)), events), addr, ServerIp(net))
  {
    PoolSparesServer(net, configured);
    if Holds(Run(env, Some(PoolRange(net, configured)), events), addr, ServerIp(net)) {
      HeldInRange(env, Some(PoolRange(net, configured)), events, addr, ServerIp(net));
    }
  }

  /** No two clients share an address. */
  lemma AddressesAreDistinct(env: Env, range: Option<(Ip, Ip)>, events: seq<Event>, a: Addr, b: Addr, ip: Ip)
    requires Holds(Run(env, range, events), a, ip) && Holds(Run(env, range, events), b, ip)
    ensures a == b
  {
    IndexesAgree(env, range, events);
  }

  /** The clients that hold an address. */
  ghost function Holders(t: Table): set<Addr> {
    set addr | addr in t.clients && t.clients[addr].virtualIp.Some?
  }

  /** No address leaks: in every run the free addresses and the clients that hold one add up
      to the size of the range. */
  lemma NoAddressLeaks(env: Env, range: (Ip, Ip), events: seq<Event>)
    ensures var t := Run(env, Some(range), events);
      t.pool.Some? && |t.pool.value.available| + |Holders(t)| == |Range(range.0, range.1)|
  {
    IndexesAgree(env, Some(range), events);
    PoolStays(env, Some(range), events);
    var t := Run(env, Some(range), events);
    var p := t.pool.value;
    PoolConserves(p, Range(range.0, range.1));
    forall addr
      ensures addr in Holders(t) <==> addr in p.byClient
    {
      if addr in p.byClient {
        assert Holds(t, addr, p.byClient[addr]);
      }
      if addr in Holders(t) {
        assert Holds(t, addr, t.clients[addr].virtualIp.value);
      }
    }
    assert Holders(t) == p.byClient.Keys;
    assert |p.byClient| == |p.byClient.Keys|;
  }

  lemma {:induction false} PoolStays(env: Env, range: Option<(Ip, Ip)>, events: seq<Event>)
    ensures Run(env, range, events).pool.Some? <==> range.Some?
  {
    if events != [] {
      PoolStays(env, range, events[..|events| - 1]);
    }
  }

  /** A sweep removes exactly the established clients silent for longer than the timeout and
      the unfinished handshakes older than 30 seconds (never an idle session), leaves every
      other client as it was, and returns exactly the removed clients' addresses. */
  lemma SweepExact(env: Env, range: Option<(Ip, Ip)>, events: seq<Event>, now: real)
    ensures var t := Run(env, range, events);
      var t' := Step(env, t, Sweep(now));
      && (forall addr :: addr in t'.clients <==>
            && addr in t.clients
            && var c := t.clients[addr];
               match c.session.state
               case Established => now - c.lastSeen <= env.keepaliveTimeout
               case Idle => true
               case _ => now - c.session.createdAt <= 30.0)
      && (forall addr :: addr in t'.clients ==> t'.clients[addr] == t.clients[addr])
      && (t.pool.Some? ==> t'.pool.Some?)
      && (t.pool.Some? ==>
            forall ip :: ip in t'.pool.value.available <==>
              || ip in t.pool.value.available
              || exists addr :: addr in t.clients && addr !in t'.clients && Holds(t, addr, ip))
  {
    var t := Run(env, range, events);
    var gone := StaleAddrs(t, now, env.keepaliveTimeout);
    if t.pool.Some? {
      forall ip
        ensures ip in Freed(t, gone) <==>
          exists addr :: addr in t.clients && addr !in Without(t, gone).clients && Holds(t, addr, ip)
      {
        FreedHeld(t, gone, ip);
      }
    }
  }
}
