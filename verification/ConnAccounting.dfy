/** The server's connection bookkeeping: counters and tables changed by accepted connections,
    datagrams, finished handshakes and teardowns, in any interleaving. */
module ConnAccounting {

  const HANDSHAKES_PER_IP: nat := 3

  datatype Address = Address(ip: string, port: nat)

  datatype Phase = Handshaking | Active

  /** A connection task over UDP; its number stands for the identity of its stream. */
  datatype Task = Task(addr: Address, phase: Phase)

  datatype Limits = Limits(total: nat, perIp: nat)

  type Counter = map<string, nat>

  /** The server's tables, and the connections that are in fact alive: TCP connections admitted
      and not yet torn down, and UDP connection tasks. */
  datatype Server = Server(
    tcp: Counter,
    progress: Counter,
    handshakes: map<Address, nat>,
    sessions: map<Address, nat>,
    live: map<nat, string>,
    tasks: map<nat, Task>)

  const IDLE := Server(map[], map[], map[], map[], map[], map[])

  function Count(m: Counter, ip: string): nat { if ip in m then m[ip] else 0 }

  function Increment(m: Counter, ip: string): Counter { m[ip := Count(m, ip) + 1] }

  /** Decrement and drop at zero; an absent entry is left alone. */
  function Decrement(m: Counter, ip: string): Counter {
    if ip !in m then m else if m[ip] <= 1 then m - {ip} else m[ip := m[ip] - 1]
  }

  /** `sum(counter.values())`. */
  ghost function Sum(m: Counter): nat
    decreases |m|
  {
    if |m| == 0 then 0
    else
      var k :| k in m;
      MapRemoval(m, k);
      m[k] + Sum(m - {k})
  }

  lemma MapRemoval<K, V>(m: map<K, V>, k: K)
    requires k in m
    ensures |m - {k}| == |m| - 1
  {
    assert (m - {k}).Keys == m.Keys - {k};
    assert |m.Keys| == |m| && |(m - {k}).Keys| == |m - {k}|;
  }

  function Without(m: map<Address, nat>, addr: Address, id: nat): map<Address, nat> {
    if addr in m && m[addr] == id then m - {addr} else m
  }

  function SessionsOf(sessions: map<Address, nat>, ip: string): set<Address> {
    set a | a in sessions && a.ip == ip
  }

  // ---------------------------------------------------------------- events

  datatype Event =
    | TcpConnect(id: nat, ip: string)
    | TcpFinish(id: nat)
    | Hello(id: nat, addr: Address, permitted: bool)
    | HandshakeDone(id: nat)
    | UdpFinish(id: nat)

  /** `_on_transport_connect` for TCP, up to its first await. */
  ghost predicate TcpAdmits(l: Limits, s: Server, ip: string) {
    Sum(s.tcp) < l.total && Count(s.tcp, ip) < l.perIp
  }

  /** `_handle_udp_datagram` for a HELLO with a valid cookie from an address not locked out. */
  predicate HelloAdmits(l: Limits, s: Server, addr: Address) {
    addr !in s.handshakes && Count(s.progress, addr.ip) < HANDSHAKES_PER_IP && |s.handshakes| < 2 * l.total
  }

  predicate SessionAdmits(l: Limits, s: Server, addr: Address) {
    |s.sessions| < l.total && |SessionsOf(s.sessions, addr.ip)| < l.perIp
  }

  /** The `finally` block of a UDP connection task. */
  function TearDown(s: Server, id: nat, addr: Address): Server {
    s.(handshakes := Without(s.handshakes, addr, id), sessions := Without(s.sessions, addr, id), tasks := s.tasks - {id})
  }

  /** One event; one that cannot happen changes nothing. A connection may be torn down at any
      time, whatever the reason. */
  ghost function Step(l: Limits, s: Server, e: Event): Server {
    match e
    case TcpConnect(id, ip) =>
      if id in s.live || !TcpAdmits(l, s, ip) then s
      else s.(tcp := Increment(s.tcp, ip), live := s.live[id := ip])
    case TcpFinish(id) =>
      if id !in s.live then s else s.(tcp := Decrement(s.tcp, s.live[id]), live := s.live - {id})
    case Hello(id, addr, permitted) =>
      if id in s.tasks || !permitted || !HelloAdmits(l, s, addr) then s
      else s.(progress := Increment(s.progress, addr.ip),
              handshakes := s.handshakes[addr := id],
              tasks := s.tasks[id := Task(addr, Handshaking)])
    case HandshakeDone(id) =>
      if id !in s.tasks || s.tasks[id].phase != Handshaking then s
      else
        var addr := s.tasks[id].addr;
        var counted := s.(progress := Decrement(s.progress, addr.ip));
        if !SessionAdmits(l, s, addr) then TearDown(counted, id, addr)
        else counted.(sessions := s.sessions[addr := id],
                      handshakes := s.handshakes - {addr},
                      tasks := s.tasks[id := Task(addr, Active)])
    case UdpFinish(id) =>
      if id !in s.tasks then s
      else
        var task := s.tasks[id];
        var counted := if task.phase == Handshaking then s.(progress := Decrement(s.progress, task.addr.ip)) else s;
        TearDown(counted, id, task.addr)
  }

  ghost function Run(l: Limits, s: Server, events: seq<Event>): Server
    decreases |events|
  {
    if |events| == 0 then s else Run(l, Step(l, s, events[0]), events[1..])
  }

  // ---------------------------------------------------------------- the invariant

  ghost function Connections(live: map<nat, string>, ip: string): set<nat> {
    set id | id in live && live[id] == ip
  }

  ghost function Shaking(tasks: map<nat, Task>, ip: string): set<nat> {
    set id | id in tasks && tasks[id].phase == Handshaking && tasks[id].addr.ip == ip
  }

  ghost predicate TcpCounts(tcp: Counter, live: map<nat, string>, most: nat) {
    forall ip :: Count(tcp, ip) == |Connections(live, ip)| <= most
  }

  ghost predicate ShakeCounts(progress: Counter, tasks: map<nat, Task>) {
    forall ip :: Count(progress, ip) == |Shaking(tasks, ip)| <= HANDSHAKES_PER_IP
  }

  /** A counter holds no zero entries. */
  ghost predicate NoZeros(m: Counter) { forall ip :: ip in m ==> m[ip] > 0 }

  /** The handshake table holds exactly the tasks that are still shaking hands, the session
      table only active tasks, each under its own address. */
  ghost predicate TablesMatch(tasks: map<nat, Task>, handshakes: map<Address, nat>, sessions: map<Address, nat>) {
    && (forall a :: a in handshakes ==> handshakes[a] in tasks && tasks[handshakes[a]] == Task(a, Handshaking))
    && (forall id :: id in tasks && tasks[id].phase == Handshaking ==> tasks[id].addr in handshakes && handshakes[tasks[id].addr] == id)
    && (forall a :: a in sessions ==> sessions[a] in tasks && tasks[sessions[a]] == Task(a, Active))
  }

  ghost predicate SessionsFit(l: Limits, sessions: map<Address, nat>) {
    |sessions| <= l.total && forall ip :: |SessionsOf(sessions, ip)| <= l.perIp
  }

  ghost predicate Inv(l: Limits, s: Server) {
    && TcpCounts(s.tcp, s.live, l.perIp) && NoZeros(s.tcp) && |s.live| <= l.total
    && ShakeCounts(s.progress, s.tasks) && NoZeros(s.progress)
    && TablesMatch(s.tasks, s.handshakes, s.sessions)
    && |s.handshakes| <= 2 * l.total && SessionsFit(l, s.sessions)
  }

  // ---------------------------------------------------------------- counting

  lemma SetSplit<T>(whole: set<T>, part: set<T>)
    requires part <= whole
    ensures |whole| == |part| + |whole - part|
  {
    assert whole == part + (whole - part);
  }

  lemma RemovalCounts(live: map<nat, string>, ip: string)
    ensures |live| == |Connections(live, ip)| + |live - Connections(live, ip)|
    ensures Connections(live - Connections(live, ip), ip) == {}
    ensures forall other :: other != ip ==> Connections(live - Connections(live, ip), other) == Connections(live, other)
  {
    var gone := Connections(live, ip);
    SetSplit(live.Keys, gone);
    assert (live - gone).Keys == live.Keys - gone;
    assert |live - gone| == |(live - gone).Keys| && |live| == |live.Keys|;
  }

  lemma NoneCounted(live: map<nat, string>)
    requires forall ip :: |Connections(live, ip)| == 0
    ensures live == map[]
  {
    assert forall id :: id in live ==> id in Connections(live, live[id]);
    assert live.Keys == {};
  }

  lemma SumUnfolds(m: Counter) returns (k: string)
    requires |m| > 0
    ensures k in m && Sum(m) == m[k] + Sum(m - {k}) && |m - {k}| == |m| - 1
  {
    k :| k in m && Sum(m) == m[k] + Sum(m - {k});
    MapRemoval(m, k);
  }

  /** A counter that counts per address sums to the number of things counted. */
  lemma {:induction false} SumIsTotal(m: Counter, live: map<nat, string>)
    requires forall ip :: Count(m, ip) == |Connections(live, ip)|
    ensures Sum(m) == |live|
    decreases |m|
  {
    if |m| == 0 {
      assert forall ip :: Count(m, ip) == 0;
      NoneCounted(live);
    } else {
      var k := SumUnfolds(m);
      RemovalCounts(live, k);
      var rest := live - Connections(live, k);
      forall ip
        ensures Count(m - {k}, ip) == |Connections(rest, ip)|
      {
        assert Count(m, ip) == |Connections(live, ip)|;
      }
      SumIsTotal(m - {k}, rest);
      assert Count(m, k) == |Connections(live, k)|;
    }
  }

  lemma KeysCount<K, V>(m: map<K, V>)
    ensures |m.Keys| == |m|
  {}

  lemma MapInsertion<K, V>(m: map<K, V>, k: K, v: V)
    ensures |m[k := v]| == |m| + if k in m then 0 else 1
  {
    KeysCount(m);
    KeysCount(m[k := v]);
    assert m[k := v].Keys == m.Keys + {k};
  }

  lemma ConnectionAdded(live: map<nat, string>, id: nat, ip: string, x: string)
    requires id !in live
    ensures |Connections(live[id := ip], x)| == |Connections(live, x)| + if x == ip then 1 else 0
  {
    assert Connections(live[id := ip], x) == if x == ip then Connections(live, x) + {id} else Connections(live, x);
  }

  lemma ConnectionRemoved(live: map<nat, string>, id: nat, x: string)
    requires id in live
    ensures |Connections(live - {id}, x)| == |Connections(live, x)| - if x == live[id] then 1 else 0
  {
    assert Connections(live - {id}, x) == Connections(live, x) - {id};
  }

  lemma TcpAdded(tcp: Counter, live: map<nat, string>, most: nat, id: nat, ip: string)
    requires TcpCounts(tcp, live, most) && id !in live && Count(tcp, ip) < most
    ensures TcpCounts(Increment(tcp, ip), live[id := ip], most)
  {
    forall x ensures Count(Increment(tcp, ip), x) == |Connections(live[id := ip], x)| <= most {
      assert Count(tcp, x) == |Connections(live, x)| <= most;
      ConnectionAdded(live, id, ip, x);
    }
  }

  lemma TcpRemoved(tcp: Counter, live: map<nat, string>, most: nat, id: nat)
    requires TcpCounts(tcp, live, most) && NoZeros(tcp) && id in live
    ensures TcpCounts(Decrement(tcp, live[id]), live - {id}, most) && NoZeros(Decrement(tcp, live[id]))
  {
    forall x ensures Count(Decrement(tcp, live[id]), x) == |Connections(live - {id}, x)| <= most {
      assert Count(tcp, x) == |Connections(live, x)| <= most;
      ConnectionRemoved(live, id, x);
    }
  }

  /** How many tasks shake hands when one task's entry is set or removed. */
  lemma ShakingSet(tasks: map<nat, Task>, id: nat, task: Task, x: string)
    ensures Shaking(tasks[id := task], x) ==
            if task.phase == Handshaking && x == task.addr.ip then Shaking(tasks, x) + {id} else Shaking(tasks, x) - {id}
  {}

  lemma NewShaker(tasks: map<nat, Task>, id: nat, addr: Address, x: string)
    requires id !in tasks
    ensures |Shaking(tasks[id := Task(addr, Handshaking)], x)| == |Shaking(tasks, x)| + if x == addr.ip then 1 else 0
  {
    assert Shaking(tasks[id := Task(addr, Handshaking)], x) ==
           if x == addr.ip then Shaking(tasks, x) + {id} else Shaking(tasks, x);
  }

  lemma ShakeBegins(progress: Counter, tasks: map<nat, Task>, id: nat, addr: Address)
    requires ShakeCounts(progress, tasks) && id !in tasks && Count(progress, addr.ip) < HANDSHAKES_PER_IP
    ensures ShakeCounts(Increment(progress, addr.ip), tasks[id := Task(addr, Handshaking)])
  {
    forall x ensures Count(Increment(progress, addr.ip), x) == |Shaking(tasks[id := Task(addr, Handshaking)], x)| <= HANDSHAKES_PER_IP {
      assert Count(progress, x) == |Shaking(tasks, x)| <= HANDSHAKES_PER_IP;
      NewShaker(tasks, id, addr, x);
    }
  }

  ghost predicate Released(tasks: map<nat, Task>, after: map<nat, Task>, id: nat) {
    forall x :: Shaking(after, x) == Shaking(tasks, x) - {id}
  }

  /** A task that leaves the handshake takes its count with it. */
  lemma ShakeEnds(progress: Counter, tasks: map<nat, Task>, id: nat, after: map<nat, Task>)
    requires ShakeCounts(progress, tasks) && NoZeros(progress) && id in tasks && tasks[id].phase == Handshaking
    requires Released(tasks, after, id)
    ensures ShakeCounts(Decrement(progress, tasks[id].addr.ip), after) && NoZeros(Decrement(progress, tasks[id].addr.ip))
  {
    var home := tasks[id].addr.ip;
    forall x ensures Count(Decrement(progress, home), x) == |Shaking(after, x)| <= HANDSHAKES_PER_IP {
      assert Count(progress, x) == |Shaking(tasks, x)| <= HANDSHAKES_PER_IP;
      assert id in Shaking(tasks, x) <==> x == home;
      assert x != home ==> Shaking(tasks, x) - {id} == Shaking(tasks, x);
      assert Shaking(after, x) == Shaking(tasks, x) - {id};
    }
  }

  lemma ActiveLeaves(progress: Counter, tasks: map<nat, Task>, id: nat)
    requires ShakeCounts(progress, tasks) && id in tasks && tasks[id].phase == Active
    ensures ShakeCounts(progress, tasks - {id})
  {
    forall x ensures Count(progress, x) == |Shaking(tasks - {id}, x)| <= HANDSHAKES_PER_IP {
      assert Count(progress, x) == |Shaking(tasks, x)| <= HANDSHAKES_PER_IP;
      assert Shaking(tasks - {id}, x) == Shaking(tasks, x);
    }
  }

  lemma SessionAdded(l: Limits, sessions: map<Address, nat>, addr: Address, id: nat)
    requires SessionsFit(l, sessions) && |sessions| < l.total && |SessionsOf(sessions, addr.ip)| < l.perIp
    ensures SessionsFit(l, sessions[addr := id])
  {
    MapInsertion(sessions, addr, id);
    var after := sessions[addr := id];
    forall ip ensures |SessionsOf(after, ip)| <= l.perIp {
      assert |SessionsOf(sessions, ip)| <= l.perIp;
      assert SessionsOf(after, ip) ==
             if ip == addr.ip then SessionsOf(sessions, ip) + {addr} else SessionsOf(sessions, ip);
    }
  }

  lemma SessionRemoved(l: Limits, sessions: map<Address, nat>, addr: Address, id: nat)
    requires SessionsFit(l, sessions)
    ensures SessionsFit(l, Without(sessions, addr, id))
  {
    var after := Without(sessions, addr, id);
    if addr in sessions { MapRemoval(sessions, addr); }
    forall ip ensures |SessionsOf(after, ip)| <= l.perIp {
      assert |SessionsOf(sessions, ip)| <= l.perIp;
      SetSplit(SessionsOf(sessions, ip), SessionsOf(after, ip));
    }
  }

  lemma HelloKeepsMatch(tasks: map<nat, Task>, handshakes: map<Address, nat>, sessions: map<Address, nat>, id: nat, addr: Address)
    requires TablesMatch(tasks, handshakes, sessions) && id !in tasks && addr !in handshakes
    ensures TablesMatch(tasks[id := Task(addr, Handshaking)], handshakes[addr := id], sessions)
  {}

  lemma AcceptKeepsMatch(tasks: map<nat, Task>, handshakes: map<Address, nat>, sessions: map<Address, nat>, id: nat)
    requires TablesMatch(tasks, handshakes, sessions) && id in tasks && tasks[id].phase == Handshaking
    ensures var addr := tasks[id].addr;
            TablesMatch(tasks[id := Task(addr, Active)], handshakes - {addr}, sessions[addr := id])
  {}

  lemma TearDownKeepsMatch(tasks: map<nat, Task>, handshakes: map<Address, nat>, sessions: map<Address, nat>, id: nat)
    requires TablesMatch(tasks, handshakes, sessions) && id in tasks
    ensures var addr := tasks[id].addr;
            TablesMatch(tasks - {id}, Without(handshakes, addr, id), Without(sessions, addr, id))
  {}

  // ---------------------------------------------------------------- every event keeps the books

  lemma TcpConnectKeeps(l: Limits, s: Server, id: nat, ip: string)
    requires Inv(l, s)
    ensures Inv(l, Step(l, s, TcpConnect(id, ip)))
  {
    if id !in s.live && TcpAdmits(l, s, ip) {
      SumOfCounts(s.tcp, s.live, l.perIp);
      MapInsertion(s.live, id, ip);
      TcpAdded(s.tcp, s.live, l.perIp, id, ip);
    }
  }

  lemma TcpFinishKeeps(l: Limits, s: Server, id: nat)
    requires Inv(l, s)
    ensures Inv(l, Step(l, s, TcpFinish(id)))
  {
    if id in s.live {
      MapRemoval(s.live, id);
      TcpRemoved(s.tcp, s.live, l.perIp, id);
    }
  }

  lemma HelloKeeps(l: Limits, s: Server, id: nat, addr: Address, permitted: bool)
    requires Inv(l, s)
    ensures Inv(l, Step(l, s, Hello(id, addr, permitted)))
  {
    if id !in s.tasks && permitted && HelloAdmits(l, s, addr) {
      ShakeBegins(s.progress, s.tasks, id, addr);
      MapInsertion(s.handshakes, addr, id);
      HelloKeepsMatch(s.tasks, s.handshakes, s.sessions, id, addr);
    }
  }

  lemma TearDownCounts(progress: Counter, tasks: map<nat, Task>, id: nat, after: Counter)
    requires ShakeCounts(progress, tasks) && NoZeros(progress) && id in tasks
    requires after == if tasks[id].phase == Handshaking then Decrement(progress, tasks[id].addr.ip) else progress
    ensures ShakeCounts(after, tasks - {id}) && NoZeros(after)
  {
    if tasks[id].phase == Handshaking {
      assert Released(tasks, tasks - {id}, id);
      ShakeEnds(progress, tasks, id, tasks - {id});
    } else {
      ActiveLeaves(progress, tasks, id);
    }
  }

  lemma TearDownKeeps(l: Limits, s: Server, id: nat, progress: Counter)
    requires Inv(l, s) && id in s.tasks
    requires progress == if s.tasks[id].phase == Handshaking then Decrement(s.progress, s.tasks[id].addr.ip) else s.progress
    ensures Inv(l, TearDown(s.(progress := progress), id, s.tasks[id].addr))
  {
    var addr := s.tasks[id].addr;
    TearDownCounts(s.progress, s.tasks, id, progress);
    if addr in s.handshakes { MapRemoval(s.handshakes, addr); }
    SessionRemoved(l, s.sessions, addr, id);
    TearDownKeepsMatch(s.tasks, s.handshakes, s.sessions, id);
  }

  lemma HandshakeDoneKeeps(l: Limits, s: Server, id: nat)
    requires Inv(l, s)
    ensures Inv(l, Step(l, s, HandshakeDone(id)))
  {
    if id in s.tasks && s.tasks[id].phase == Handshaking {
      var addr := s.tasks[id].addr;
      if SessionAdmits(l, s, addr) {
        forall x ensures Shaking(s.tasks[id := Task(addr, Active)], x) == Shaking(s.tasks, x) - {id} {
          ShakingSet(s.tasks, id, Task(addr, Active), x);
        }
        ShakeEnds(s.progress, s.tasks, id, s.tasks[id := Task(addr, Active)]);
        assert addr in s.handshakes;
        MapRemoval(s.handshakes, addr);
        SessionAdded(l, s.sessions, addr, id);
        AcceptKeepsMatch(s.tasks, s.handshakes, s.sessions, id);
      } else {
        TearDownKeeps(l, s, id, Decrement(s.progress, addr.ip));
      }
    }
  }

  lemma UdpFinishKeeps(l: Limits, s: Server, id: nat)
    requires Inv(l, s)
    ensures Inv(l, Step(l, s, UdpFinish(id)))
  {
    if id in s.tasks {
      var task := s.tasks[id];
      TearDownKeeps(l, s, id, if task.phase == Handshaking then Decrement(s.progress, task.addr.ip) else s.progress);
    }
  }

  lemma SumOfCounts(tcp: Counter, live: map<nat, string>, most: nat)
    requires TcpCounts(tcp, live, most)
    ensures Sum(tcp) == |live|
  {
    SumIsTotal(tcp, live);
  }

  lemma StepKeepsInv(l: Limits, s: Server, e: Event)
    requires Inv(l, s)
    ensures Inv(l, Step(l, s, e))
  {
    match e {
      case TcpConnect(id, ip) => TcpConnectKeeps(l, s, id, ip);
      case TcpFinish(id) => TcpFinishKeeps(l, s, id);
      case Hello(id, addr, permitted) => HelloKeeps(l, s, id, addr, permitted);
      case HandshakeDone(id) => HandshakeDoneKeeps(l, s, id);
      case UdpFinish(id) => UdpFinishKeeps(l, s, id);
    }
  }

  lemma IdleIsConsistent(l: Limits)
    ensures Inv(l, IDLE)
  {
    assert forall ip :: Connections(IDLE.live, ip) == {};
    assert forall ip :: Shaking(IDLE.tasks, ip) == {};
    assert forall ip :: SessionsOf(IDLE.sessions, ip) == {};
  }

  /** A state that some interleaving of events leads to. */
  ghost predicate Reachable(l: Limits, s: Server) {
    exists events :: s == Run(l, IDLE, events)
  }

  lemma {:induction false} RunSnoc(l: Limits, s: Server, events: seq<Event>, e: Event)
    ensures Run(l, s, events + [e]) == Step(l, Run(l, s, events), e)
    decreases |events|
  {
    if |events| == 0 {
      assert events + [e] == [e] && [e][1..] == [];
      assert Run(l, Step(l, s, e), []) == Step(l, s, e);
    } else {
      assert (events + [e])[1..] == events[1..] + [e];
      RunSnoc(l, Step(l, s, events[0]), events[1..], e);
    }
  }

  lemma ReachableStep(l: Limits, s: Server, e: Event)
    requires Reachable(l, s)
    ensures Reachable(l, Step(l, s, e))
  {
    var events :| s == Run(l, IDLE, events);
    RunSnoc(l, IDLE, events, e);
    assert Step(l, s, e) == Run(l, IDLE, events + [e]);
  }

  lemma IdleIsReachable(l: Limits)
    ensures Reachable(l, IDLE)
  {
    assert IDLE == Run(l, IDLE, []);
  }

  lemma {:induction false} RunKeepsInv(l: Limits, s: Server, events: seq<Event>)
    requires Inv(l, s)
    ensures Inv(l, Run(l, s, events))
    decreases |events|
  {
    if |events| > 0 {
      StepKeepsInv(l, s, events[0]);
      RunKeepsInv(l, Step(l, s, events[0]), events[1..]);
    }
  }

  lemma ReachableIsConsistent(l: Limits, s: Server)
    requires Reachable(l, s)
    ensures Inv(l, s)
  {
    var events :| s == Run(l, IDLE, events);
    IdleIsConsistent(l);
    RunKeepsInv(l, IDLE, events);
  }

  /** In every interleaving: each address's TCP count is the number of its live connections and
      their sum the number of all of them, both within the limits; each address's handshake count
      is the number of its handshaking tasks, at most three; sessions are within the limits. */
  lemma CountsAreConserved(l: Limits, s: Server, ip: string)
    requires Reachable(l, s)
    ensures Count(s.tcp, ip) == |Connections(s.live, ip)| <= l.perIp
    ensures Sum(s.tcp) == |s.live| <= l.total
    ensures Count(s.progress, ip) == |Shaking(s.tasks, ip)| <= HANDSHAKES_PER_IP
    ensures |s.handshakes| <= 2 * l.total
    ensures |s.sessions| <= l.total && |SessionsOf(s.sessions, ip)| <= l.perIp
  {
    ReachableIsConsistent(l, s);
    SumOfCounts(s.tcp, s.live, l.perIp);
  }

  lemma EmptyCounter(m: Counter)
    requires NoZeros(m) && forall ip :: Count(m, ip) == 0
    ensures m == map[]
  {
    assert forall ip :: ip in m ==> Count(m, ip) == m[ip];
    assert m.Keys == {};
  }

  /** When every connection has been torn down nothing is left in any table. */
  lemma NothingLeaks(l: Limits, s: Server)
    requires Reachable(l, s) && s.live == map[] && s.tasks == map[]
    ensures s == IDLE
  {
    ReachableIsConsistent(l, s);
    forall ip ensures Count(s.tcp, ip) == 0 && Count(s.progress, ip) == 0 {
      assert Connections(s.live, ip) == {} && Shaking(s.tasks, ip) == {};
    }
    EmptyCounter(s.tcp);
    EmptyCounter(s.progress);
    assert s.handshakes.Keys == {} && s.sessions.Keys == {};
  }

  /** A session leaves the table only by its own teardown or by a newer handshake from the same
      address; in particular no older session's teardown removes it. */
  lemma OnlyItsOwnTeardown(l: Limits, s: Server, e: Event, addr: Address)
    requires Reachable(l, s) && addr in s.sessions
    ensures var v := Step(l, s, e); var id := s.sessions[addr];
            || (addr in v.sessions && v.sessions[addr] == id)
            || e == UdpFinish(id)
            || (e.HandshakeDone? && e.id in s.tasks && s.tasks[e.id] == Task(addr, Handshaking)
                && addr in v.sessions && v.sessions[addr] == e.id)
  {
    ReachableIsConsistent(l, s);
    SessionTaskIsActive(s, addr);
    SessionStays(l, s, e, addr);
  }

  lemma SessionStays(l: Limits, s: Server, e: Event, addr: Address)
    requires addr in s.sessions && s.sessions[addr] in s.tasks && s.tasks[s.sessions[addr]] == Task(addr, Active)
    ensures var v := Step(l, s, e); var id := s.sessions[addr];
            || (addr in v.sessions && v.sessions[addr] == id)
            || e == UdpFinish(id)
            || (e.HandshakeDone? && e.id in s.tasks && s.tasks[e.id] == Task(addr, Handshaking)
                && addr in v.sessions && v.sessions[addr] == e.id)
  {
    match e {
      case HandshakeDone(id) =>
      case UdpFinish(id) =>
      case _ =>
    }
  }

  lemma SessionTaskIsActive(s: Server, addr: Address)
    requires TablesMatch(s.tasks, s.handshakes, s.sessions) && addr in s.sessions
    ensures s.sessions[addr] in s.tasks && s.tasks[s.sessions[addr]] == Task(addr, Active)
  {}

  // ---------------------------------------------------------------- what the tables stand for

  lemma TcpBooks(l: Limits, s: Server, ip: string)
    requires Reachable(l, s)
    ensures TcpAdmits(l, s, ip) <==> |s.live| < l.total && |Connections(s.live, ip)| < l.perIp
  {
    CountsAreConserved(l, s, ip);
  }

  ghost function AllShaking(tasks: map<nat, Task>): set<nat> {
    set id | id in tasks && tasks[id].phase == Handshaking
  }

  lemma {:induction false} SameNumber(handshakes: map<Address, nat>, ids: set<nat>)
    requires forall a :: a in handshakes ==> handshakes[a] in ids
    requires forall a, b :: a in handshakes && b in handshakes && handshakes[a] == handshakes[b] ==> a == b
    requires forall id :: id in ids ==> exists a :: a in handshakes && handshakes[a] == id
    ensures |ids| == |handshakes|
    decreases |handshakes|
  {
    if |handshakes| == 0 {
      assert ids == {};
    } else {
      assert handshakes.Keys != {};
      var a :| a in handshakes;
      var id := handshakes[a];
      MapRemoval(handshakes, a);
      forall other | other in ids - {id} ensures exists b :: b in handshakes - {a} && (handshakes - {a})[b] == other {
        var b :| b in handshakes && handshakes[b] == other;
        assert b in handshakes - {a};
      }
      SameNumber(handshakes - {a}, ids - {id});
    }
  }

  lemma ShakingBooks(l: Limits, s: Server, addr: Address)
    requires Reachable(l, s)
    ensures addr in s.handshakes <==> exists n :: n in s.tasks && s.tasks[n] == Task(addr, Handshaking)
    ensures Count(s.progress, addr.ip) == |Shaking(s.tasks, addr.ip)| && |s.handshakes| == |AllShaking(s.tasks)|
  {
    ReachableIsConsistent(l, s);
    CountsAreConserved(l, s, addr.ip);
    forall id | id in AllShaking(s.tasks) ensures exists a :: a in s.handshakes && s.handshakes[a] == id {
      assert s.handshakes[s.tasks[id].addr] == id;
    }
    SameNumber(s.handshakes, AllShaking(s.tasks));
  }

  lemma OwnSession(l: Limits, s: Server, id: nat)
    requires Reachable(l, s) && id in s.tasks && s.tasks[id].phase == Handshaking
    ensures var addr := s.tasks[id].addr; addr in s.sessions ==> s.sessions[addr] != id
  {
    ReachableIsConsistent(l, s);
  }

  // ---------------------------------------------------------------- the object

  class Accounts {
    const limits: Limits
    var tcp: Counter
    var progress: Counter
    var handshakes: map<Address, nat>
    var sessions: map<Address, nat>
    ghost var live: map<nat, string>
    ghost var tasks: map<nat, Task>

    constructor (limits: Limits)
      ensures this.limits == limits && State() == IDLE && Reachable(limits, State())
    {
      this.limits := limits;
      tcp, progress, handshakes, sessions := map[], map[], map[], map[];
      live, tasks := map[], map[];
      new;
      IdleIsReachable(limits);
    }

    ghost function State(): Server
      reads this
    {
      Server(tcp, progress, handshakes, sessions, live, tasks)
    }

    /** `sum(self._tcp_connections.values())`. */
    method TotalConnections() returns (total: nat)
      requires Reachable(limits, State())
      ensures total == Sum(tcp) == |live|
    {
      ReachableIsConsistent(limits, State());
      SumOfCounts(tcp, live, limits.perIp);
      total := CountUp(tcp, live);
    }

    method CountUp(counter: Counter, ghost things: map<nat, string>) returns (total: nat)
      requires forall ip :: Count(counter, ip) == |Connections(things, ip)|
      ensures total == |things|
    {
      total := 0;
      var rest := counter;
      ghost var uncounted := things;
      while rest != map[]
        invariant forall ip :: Count(rest, ip) == |Connections(uncounted, ip)|
        invariant total + |uncounted| == |things|
        decreases |rest|
      {
        assert rest.Keys != {};
        var ip :| ip in rest;
        total := total + rest[ip];
        assert Count(rest, ip) == |Connections(uncounted, ip)|;
        RemovalCounts(uncounted, ip);
        MapRemoval(rest, ip);
        uncounted := uncounted - Connections(uncounted, ip);
        rest := rest - {ip};
      }
      NoneCounted(uncounted);
    }

    /** `_on_transport_connect` over TCP, up to the handshake. */
    method OnTcpConnect(ghost id: nat, ip: string) returns (admitted: bool)
      requires Reachable(limits, State()) && id !in live
      modifies this
      ensures State() == Step(limits, old(State()), TcpConnect(id, ip)) && Reachable(limits, State())
      ensures admitted <==> |old(live)| < limits.total && |Connections(old(live), ip)| < limits.perIp
      ensures live == (if admitted then old(live)[id := ip] else old(live)) && sessions == old(sessions) && tasks == old(tasks)
    {
      TcpBooks(limits, State(), ip);
      ReachableStep(limits, State(), TcpConnect(id, ip));
      var total := TotalConnections();
      admitted := AdmitBelowLimits(id, ip, total);
    }

    method AdmitBelowLimits(ghost id: nat, ip: string, total: nat) returns (admitted: bool)
      requires total == Sum(tcp) && id !in live
      modifies this
      ensures State() == Step(limits, old(State()), TcpConnect(id, ip))
      ensures admitted <==> TcpAdmits(limits, old(State()), ip)
    {
      if total >= limits.total { return false; }
      var count := if ip in tcp then tcp[ip] else 0;
      if count >= limits.perIp { return false; }
      tcp := tcp[ip := count + 1];
      live := live[id := ip];
      return true;
    }

    /** The `finally` block over TCP. */
    method OnTcpFinish(ghost id: nat, ip: string)
      requires Reachable(limits, State()) && id in live && live[id] == ip
      modifies this
      ensures State() == Step(limits, old(State()), TcpFinish(id)) && Reachable(limits, State())
      ensures live == old(live) - {id} && sessions == old(sessions) && tasks == old(tasks)
    {
      ReachableStep(limits, State(), TcpFinish(id));
      RemoveConnection(id, ip);
    }

    method RemoveConnection(ghost id: nat, ip: string)
      requires id in live && live[id] == ip
      modifies this
      ensures State() == Step(limits, old(State()), TcpFinish(id))
    {
      if ip in tcp {
        tcp := if tcp[ip] <= 1 then tcp - {ip} else tcp[ip := tcp[ip] - 1];
      }
      live := live - {id};
    }

    /** `_handle_udp_datagram` for a HELLO whose cookie and lock-out checks came out as `permitted`. */
    method OnHello(id: nat, addr: Address, permitted: bool) returns (started: bool)
      requires Reachable(limits, State()) && id !in tasks
      modifies this
      ensures State() == Step(limits, old(State()), Hello(id, addr, permitted)) && Reachable(limits, State())
      ensures started <==>
              && permitted && (forall n :: n in old(tasks) ==> old(tasks)[n] != Task(addr, Handshaking))
              && |Shaking(old(tasks), addr.ip)| < 3 && |AllShaking(old(tasks))| < 2 * limits.total
      ensures tasks == (if started then old(tasks)[id := Task(addr, Handshaking)] else old(tasks))
      ensures live == old(live) && sessions == old(sessions)
    {
      ShakingBooks(limits, State(), addr);
      ReachableStep(limits, State(), Hello(id, addr, permitted));
      started := StartHandshake(id, addr, permitted);
    }

    method StartHandshake(id: nat, addr: Address, permitted: bool) returns (started: bool)
      requires id !in tasks
      modifies this
      ensures State() == Step(limits, old(State()), Hello(id, addr, permitted))
      ensures started <==> permitted && HelloAdmits(limits, old(State()), addr)
    {
      if addr in handshakes { return false; }
      if !permitted { return false; }
      var count := if addr.ip in progress then progress[addr.ip] else 0;
      if count >= HANDSHAKES_PER_IP { return false; }
      if |handshakes| >= limits.total * 2 { return false; }
      progress := progress[addr.ip := count + 1];
      handshakes := handshakes[addr := id];
      tasks := tasks[id := Task(addr, Handshaking)];
      return true;
    }

    method LeaveHandshake(ip: string)
      modifies this`progress
      ensures progress == Decrement(old(progress), ip)
    {
      if ip in progress {
        progress := if progress[ip] <= 1 then progress - {ip} else progress[ip := progress[ip] - 1];
      }
    }

    /** `_on_transport_connect` over UDP when the handshake has succeeded: the count is given
        back first; then the session is admitted, or refused and torn down. */
    method OnHandshakeDone(id: nat, addr: Address) returns (admitted: bool)
      requires Reachable(limits, State()) && id in tasks && tasks[id] == Task(addr, Handshaking)
      modifies this
      ensures State() == Step(limits, old(State()), HandshakeDone(id)) && Reachable(limits, State())
      ensures admitted <==> |old(sessions)| < limits.total && |SessionsOf(old(sessions), addr.ip)| < limits.perIp
      ensures sessions == if admitted then old(sessions)[addr := id] else old(sessions)
      ensures tasks == if admitted then old(tasks)[id := Task(addr, Active)] else old(tasks) - {id}
    {
      OwnSession(limits, State(), id);
      ReachableStep(limits, State(), HandshakeDone(id));
      admitted := SettleSession(id, addr);
    }

    method SettleSession(id: nat, addr: Address) returns (admitted: bool)
      requires id in tasks && tasks[id] == Task(addr, Handshaking)
      modifies this
      ensures State() == Step(limits, old(State()), HandshakeDone(id))
      ensures admitted <==> SessionAdmits(limits, old(State()), addr)
    {
      LeaveHandshake(addr.ip);
      if |sessions| >= limits.total || |SessionsOf(sessions, addr.ip)| >= limits.perIp {
        CleanUp(id, addr);
        return false;
      }
      sessions := sessions[addr := id];
      handshakes := handshakes - {addr};
      tasks := tasks[id := Task(addr, Active)];
      return true;
    }

    /** The `finally` block over UDP. */
    method OnUdpFinish(id: nat, addr: Address, handshakeDecremented: bool)
      requires Reachable(limits, State()) && id in tasks && tasks[id] == Task(addr, if handshakeDecremented then Active else Handshaking)
      modifies this
      ensures State() == Step(limits, old(State()), UdpFinish(id)) && Reachable(limits, State())
      ensures tasks == old(tasks) - {id} && live == old(live)
      ensures sessions == if addr in old(sessions) && old(sessions)[addr] == id then old(sessions) - {addr} else old(sessions)
    {
      ReachableStep(limits, State(), UdpFinish(id));
      EndTask(id, addr, handshakeDecremented);
    }

    method EndTask(id: nat, addr: Address, handshakeDecremented: bool)
      requires id in tasks && tasks[id] == Task(addr, if handshakeDecremented then Active else Handshaking)
      modifies this
      ensures State() == Step(limits, old(State()), UdpFinish(id))
    {
      if !handshakeDecremented { LeaveHandshake(addr.ip); }
      CleanUp(id, addr);
    }

    method CleanUp(id: nat, addr: Address)
      modifies this
      ensures State() == TearDown(old(State()), id, addr)
    {
      if addr in handshakes && handshakes[addr] == id { handshakes := handshakes - {addr}; }
      if addr in sessions && sessions[addr] == id { sessions := sessions - {addr}; }
      tasks := tasks - {id};
    }
  }
}
