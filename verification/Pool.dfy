/**
 lib/sippet/transports/tcp.ex: the pool of TCP connections and the monitors that
 watch them. Which processes are alive does not change during one callback.
 */
module Pool {
  import opened Wrappers

  type Peer = (string, nat)

  type Pid = nat

  type Ref = nat

  // `start_link` raises a smaller `conns_per_peer` to 1.
  type Positive = n: nat | n >= 1 witness 1

  // `limit` is `max_connections` (0: none), `perPeer` is `conns_per_peer`.
  datatype Pool = Pool(
    connections: map<Peer, seq<Pid>>,
    monitors: map<Ref, (Peer, Pid)>,
    limit: nat,
    perPeer: Positive)

  /* ----- Helpers of the source ----- */

  function Get(connections: map<Peer, seq<Pid>>, peer: Peer): seq<Pid> {
    if peer in connections then connections[peer] else []
  }

  function PutConns(connections: map<Peer, seq<Pid>>, peer: Peer, pids: seq<Pid>): map<Peer, seq<Pid>> {
    if pids == [] then connections - {peer} else connections[peer := pids]
  }

  // `Enum.filter(&Process.alive?/1)`.
  function Live(pids: seq<Pid>, alive: set<Pid>): seq<Pid> {
    if pids == [] then [] else (if pids[0] in alive then [pids[0]] else []) + Live(pids[1..], alive)
  }

  // `List.delete`: the first occurrence.
  function Without(pids: seq<Pid>, pid: Pid): seq<Pid> {
    if pids == [] then [] else if pids[0] == pid then pids[1..] else [pids[0]] + Without(pids[1..], pid)
  }

  function DropConn(connections: map<Peer, seq<Pid>>, peer: Peer, pid: Pid): map<Peer, seq<Pid>> {
    PutConns(connections, peer, Without(Get(connections, peer), pid))
  }

  ghost function Total(connections: map<Peer, seq<Pid>>): nat
    decreases |connections|
  {
    if connections == map[] then 0
    else
      var peer :| peer in connections;
      |connections[peer]| + Total(connections - {peer})
  }

  ghost predicate Full(p: Pool) {
    p.limit != 0 && Total(p.connections) >= p.limit
  }

  /* ----- Callbacks ----- */

  function StartConnection(p: Pool, peer: Peer, pid: Pid, ref: Ref): Pool {
    p.(connections := p.connections[peer := Get(p.connections, peer) + [pid]], monitors := p.monitors[ref := (peer, pid)])
  }

  ghost function Accepted(p: Pool, peer: Peer, pid: Pid, ref: Ref): Pool {
    if Full(p) then p else StartConnection(p, peer, pid, ref)
  }

  function Down(p: Pool, ref: Ref): Pool {
    if ref !in p.monitors then p
    else
      var (peer, pid) := p.monitors[ref];
      p.(connections := DropConn(p.connections, peer, pid), monitors := p.monitors - {ref})
  }

  function Sweep(p: Pool, alive: set<Pid>): Pool {
    p.(connections := map peer | peer in p.connections && Live(p.connections[peer], alive) != [] ::
         Live(p.connections[peer], alive),
       monitors := map ref | ref in p.monitors && p.monitors[ref].1 in alive :: p.monitors[ref])
  }

  // A new connection for a peer, when the connect succeeds.
  datatype Opening = Opened(pid: Pid, ref: Ref) | Refused

  datatype Picked = Picked(pid: Pid, pool: Pool) | TooMany | NoRoute

  ghost function GetOrConnect(p: Pool, peer: Peer, alive: set<Pid>, opening: Opening): Picked {
    var live := Live(Get(p.connections, peer), alive);
    var q := p.(connections := PutConns(p.connections, peer, live));
    if |live| >= p.perPeer then
      Picked(live[0], q.(connections := PutConns(q.connections, peer, live[1..] + [live[0]])))
    else if Full(q) then (if live != [] then Picked(live[0], q) else TooMany)
    else
      match opening
      case Opened(pid, ref) => Picked(pid, StartConnection(q, peer, pid, ref))
      case Refused => NoRoute
  }

  // `send_to_target`: a failure, also of the send itself, keeps the old state.
  ghost function SendToTarget(p: Pool, peer: Peer, alive: set<Pid>, opening: Opening, sent: bool): Pool {
    match GetOrConnect(p, peer, alive, opening)
    case Picked(_, q) => if sent then q else p
    case _ => p
  }

  datatype Event =
    | Accept(peer: Peer, pid: Pid, ref: Ref)
    | Downed(ref: Ref)
    | Swept(alive: set<Pid>)
    | Sending(peer: Peer, alive: set<Pid>, opening: Opening, sent: bool)

  ghost function Handle(p: Pool, e: Event): Pool {
    match e
    case Accept(peer, pid, ref) => Accepted(p, peer, pid, ref)
    case Downed(ref) => Down(p, ref)
    case Swept(alive) => Sweep(p, alive)
    case Sending(peer, alive, opening, sent) => SendToTarget(p, peer, alive, opening, sent)
  }

  // New processes and monitors are new.
  predicate Fresh(p: Pool, pid: Pid, ref: Ref) {
    ref !in p.monitors && forall r | r in p.monitors :: p.monitors[r].1 != pid
  }

  predicate Possible(p: Pool, e: Event) {
    match e
    case Accept(_, pid, ref) => Fresh(p, pid, ref)
    case Sending(_, _, Opened(pid, ref), _) => Fresh(p, pid, ref)
    case _ => true
  }

  ghost predicate Run(p: Pool, events: seq<Event>, end: Pool)
    decreases |events|
  {
    if events == [] then end == p
    else Possible(p, events[0]) && Run(Handle(p, events[0]), events[1..], end)
  }

  /* ----- The invariant ----- */

  predicate Distinct(pids: seq<Pid>) {
    forall i, j | 0 <= i < j < |pids| :: pids[i] != pids[j]
  }

  // No peer has an empty list; a process is pooled once, for one peer, and has
  // exactly one monitor, which names that peer.
  ghost predicate Consistent(p: Pool) {
    && (forall peer | peer in p.connections :: p.connections[peer] != [] && Distinct(p.connections[peer]))
    && (forall peer, pid | peer in p.connections && pid in p.connections[peer] ::
          exists ref :: ref in p.monitors && p.monitors[ref] == (peer, pid))
    && (forall r, s | r in p.monitors && s in p.monitors && p.monitors[r].1 == p.monitors[s].1 :: r == s)
  }

  ghost predicate Inv(p: Pool) {
    Consistent(p) && (p.limit != 0 ==> Total(p.connections) <= p.limit)
  }

  /* ----- Counting ----- */

  lemma {:induction false} TotalWithout(m: map<Peer, seq<Pid>>, peer: Peer)
    requires peer in m
    ensures Total(m) == |m[peer]| + Total(m - {peer})
    decreases |m|
  {
    var k :| k in m && Total(m) == |m[k]| + Total(m - {k});
    if k != peer {
      TotalWithout(m - {k}, peer);
      TotalWithout(m - {peer}, k);
      assert m - {k} - {peer} == m - {peer} - {k};
    }
  }

  lemma TotalPut(m: map<Peer, seq<Pid>>, peer: Peer, pids: seq<Pid>)
    ensures Total(PutConns(m, peer, pids)) == Total(m) - |Get(m, peer)| + |pids|
    ensures Total(m[peer := pids]) == Total(m) - |Get(m, peer)| + |pids|
  {
    var n := m[peer := pids];
    TotalWithout(n, peer);
    assert n - {peer} == m - {peer};
    if peer in m {
      TotalWithout(m, peer);
    } else {
      assert m - {peer} == m;
    }
  }

  lemma {:induction false} LiveIsPart(pids: seq<Pid>, alive: set<Pid>)
    ensures |Live(pids, alive)| <= |pids|
    ensures forall pid :: pid in Live(pids, alive) <==> pid in pids && pid in alive
    ensures Distinct(pids) ==> Distinct(Live(pids, alive))
    ensures (forall pid | pid in pids :: pid in alive) ==> Live(pids, alive) == pids
  {
    if pids != [] {
      LiveIsPart(pids[1..], alive);
      assert pids == [pids[0]] + pids[1..];
      DistinctCons(pids[0], pids[1..]);
      if pids[0] in alive {
        DistinctCons(pids[0], Live(pids[1..], alive));
      }
      hide Distinct;
    }
  }

  lemma DistinctCons(pid: Pid, rest: seq<Pid>)
    ensures Distinct([pid] + rest) <==> pid !in rest && Distinct(rest)
  {
    var pids := [pid] + rest;
    assert forall i | 0 <= i < |rest| :: rest[i] == pids[i + 1];
    assert pids[0] == pid;
    if Distinct(pids) {
      forall j | 0 <= j < |rest|
        ensures rest[j] != pid
      {
        assert pids[0] != pids[j + 1];
      }
      forall i, j | 0 <= i < j < |rest|
        ensures rest[i] != rest[j]
      {
        assert pids[i + 1] != pids[j + 1];
      }
    } else {
      var i, j :| 0 <= i < j < |pids| && pids[i] == pids[j];
      assert pids[j] == rest[j - 1];
      assert i > 0 ==> pids[i] == rest[i - 1];
    }
  }

  lemma {:induction false} WithoutIsRest(pids: seq<Pid>, pid: Pid)
    requires Distinct(pids)
    ensures |Without(pids, pid)| <= |pids| && Distinct(Without(pids, pid))
    ensures forall x :: x in Without(pids, pid) <==> x in pids && x != pid
  {
    if pids != [] {
      assert pids == [pids[0]] + pids[1..];
      DistinctCons(pids[0], pids[1..]);
      WithoutIsRest(pids[1..], pid);
      DistinctCons(pids[0], Without(pids[1..], pid));
      hide Distinct;
    }
  }

  lemma {:induction false} TotalShrinks(m: map<Peer, seq<Pid>>, n: map<Peer, seq<Pid>>)
    requires forall peer | peer in n :: peer in m && |n[peer]| <= |m[peer]|
    ensures Total(n) <= Total(m)
    decreases |m|
  {
    if n != map[] {
      var k :| k in n;
      TotalWithout(n, k);
      TotalWithout(m, k);
      TotalShrinks(m - {k}, n - {k});
    }
  }

  /* ----- Every callback keeps the invariant ----- */

  // A peer's list replaced by part of it, in any order.
  lemma PartKeeps(p: Pool, peer: Peer, pids: seq<Pid>)
    requires Consistent(p) && Distinct(pids) && forall pid | pid in pids :: pid in Get(p.connections, peer)
    ensures Consistent(p.(connections := PutConns(p.connections, peer, pids)))
  {
    hide Distinct;
  }

  lemma StartKeeps(p: Pool, peer: Peer, pid: Pid, ref: Ref)
    requires Consistent(p) && Fresh(p, pid, ref)
    ensures Consistent(StartConnection(p, peer, pid, ref))
    ensures Total(StartConnection(p, peer, pid, ref).connections) == Total(p.connections) + 1
  {
    var q := StartConnection(p, peer, pid, ref);
    var pids := Get(p.connections, peer);
    assert pid !in pids;
    assert Distinct(pids + [pid]);
    hide Distinct;
    TotalPut(p.connections, peer, pids + [pid]);
    forall k, x | k in q.connections && x in q.connections[k]
      ensures exists r :: r in q.monitors && q.monitors[r] == (k, x)
    {
      if k == peer && x == pid {
        assert q.monitors[ref] == (k, x);
      } else {
        assert k in p.connections && x in p.connections[k];
        var r :| r in p.monitors && p.monitors[r] == (k, x);
        assert r in q.monitors && q.monitors[r] == (k, x);
      }
    }
  }

  lemma DownKeeps(p: Pool, ref: Ref)
    requires Inv(p)
    ensures Inv(Down(p, ref))
  {
    if ref in p.monitors {
      var (peer, pid) := p.monitors[ref];
      var pids := Get(p.connections, peer);
      var rest := Without(pids, pid);
      WithoutIsRest(pids, pid);
      hide Distinct;
      PartKeeps(p, peer, rest);
      TotalPut(p.connections, peer, rest);
      var q := Down(p, ref);
      forall k, x | k in q.connections && x in q.connections[k]
        ensures exists r :: r in q.monitors && q.monitors[r] == (k, x)
      {
        assert k in p.connections && x in p.connections[k];
        var r :| r in p.monitors && p.monitors[r] == (k, x);
        assert r != ref;
        assert r in q.monitors && q.monitors[r] == (k, x);
      }
    }
  }

  lemma SweepKeeps(p: Pool, alive: set<Pid>)
    requires Inv(p)
    ensures Inv(Sweep(p, alive))
    ensures forall peer | peer in Sweep(p, alive).connections ::
              forall pid | pid in Sweep(p, alive).connections[peer] :: pid in alive
    ensures forall r :: r in Sweep(p, alive).monitors <==> r in p.monitors && p.monitors[r].1 in alive
  {
    var q := Sweep(p, alive);
    forall peer | peer in p.connections
      ensures |Live(p.connections[peer], alive)| <= |p.connections[peer]|
      ensures Distinct(Live(p.connections[peer], alive))
      ensures forall pid | pid in Live(p.connections[peer], alive) :: pid in p.connections[peer] && pid in alive
    {
      LiveIsPart(p.connections[peer], alive);
    }
    hide Distinct, Live;
    TotalShrinks(p.connections, q.connections);
    forall k, x | k in q.connections && x in q.connections[k]
      ensures exists r :: r in q.monitors && q.monitors[r] == (k, x)
    {
      var r :| r in p.monitors && p.monitors[r] == (k, x);
      assert r in q.monitors && q.monitors[r] == (k, x);
    }
  }

  lemma AcceptKeeps(p: Pool, peer: Peer, pid: Pid, ref: Ref)
    requires Inv(p) && Fresh(p, pid, ref)
    ensures Inv(Accepted(p, peer, pid, ref))
  {
    hide Consistent, Fresh, StartConnection;
    if !Full(p) {
      StartKeeps(p, peer, pid, ref);
      Limits(p, peer, pid, ref);
    }
  }

  lemma Limits(p: Pool, peer: Peer, pid: Pid, ref: Ref)
    ensures StartConnection(p, peer, pid, ref).limit == p.limit
  {
  }

  // Dead processes leave the peer's list; the rest stays in order.
  lemma FilterKeeps(p: Pool, peer: Peer, alive: set<Pid>)
    requires Inv(p)
    ensures var live := Live(Get(p.connections, peer), alive);
            Inv(p.(connections := PutConns(p.connections, peer, live))) && Distinct(live)
  {
    var pids := Get(p.connections, peer);
    LiveIsPart(pids, alive);
    hide Live;
    PartKeeps(p, peer, Live(pids, alive));
    TotalPut(p.connections, peer, Live(pids, alive));
  }

  lemma RotationKeeps(p: Pool, peer: Peer, pids: seq<Pid>)
    requires Inv(p) && pids != [] && Distinct(pids) && Get(p.connections, peer) == pids
    ensures Inv(p.(connections := PutConns(p.connections, peer, pids[1..] + [pids[0]])))
  {
    var turned := pids[1..] + [pids[0]];
    assert forall pid | pid in turned :: pid in pids;
    assert Distinct(turned);
    hide Distinct;
    PartKeeps(p, peer, turned);
    TotalPut(p.connections, peer, turned);
  }

  lemma SendKeeps(p: Pool, peer: Peer, alive: set<Pid>, opening: Opening, sent: bool)
    requires Inv(p) && (opening.Opened? ==> Fresh(p, opening.pid, opening.ref))
    ensures Inv(SendToTarget(p, peer, alive, opening, sent))
    ensures !sent ==> SendToTarget(p, peer, alive, opening, sent) == p
    ensures sent && GetOrConnect(p, peer, alive, opening).Picked? ==>
              SendToTarget(p, peer, alive, opening, sent) == GetOrConnect(p, peer, alive, opening).pool
  {
    hide Consistent, Live, Distinct, StartConnection;
    var live := Live(Get(p.connections, peer), alive);
    var q := p.(connections := PutConns(p.connections, peer, live));
    FilterKeeps(p, peer, alive);
    if |live| >= p.perPeer {
      RotationKeeps(q, peer, live);
    } else if !Full(q) && opening.Opened? {
      StartKeeps(q, peer, opening.pid, opening.ref);
      Limits(q, peer, opening.pid, opening.ref);
    }
  }

  lemma HandleKeeps(p: Pool, e: Event)
    requires Inv(p) && Possible(p, e)
    ensures Inv(Handle(p, e))
  {
    hide Inv, Fresh, Accepted, Down, Sweep, SendToTarget;
    match e
    case Accept(peer, pid, ref) => AcceptKeeps(p, peer, pid, ref);
    case Downed(ref) => DownKeeps(p, ref);
    case Swept(alive) => SweepKeeps(p, alive);
    case Sending(peer, alive, opening, sent) => SendKeeps(p, peer, alive, opening, sent);
  }

  lemma {:induction false} RunKeeps(p: Pool, events: seq<Event>, end: Pool)
    requires Inv(p) && Run(p, events, end)
    ensures Inv(end)
    decreases |events|
  {
    hide Inv, Handle, Possible;
    if events != [] {
      HandleKeeps(p, events[0]);
      RunKeeps(Handle(p, events[0]), events[1..], end);
    }
  }

  function EmptyPool(limit: nat, perPeer: Positive): Pool {
    Pool(map[], map[], limit, perPeer)
  }

  // From an empty pool, whatever happens: never more connections than the limit,
  // no empty lists, each process pooled once with exactly one monitor.
  lemma PoolInvariant(limit: nat, perPeer: Positive, events: seq<Event>, end: Pool)
    requires Run(EmptyPool(limit, perPeer), events, end)
    ensures Inv(end)
  {
    hide Run;
    RunKeeps(EmptyPool(limit, perPeer), events, end);
  }

  /* ----- The processes behind the pool ----- */

  // The pool and the connection processes that are alive.
  datatype World = World(pool: Pool, live: set<Pid>)

  datatype Happening =
    | Arrives(peer: Peer, pid: Pid, ref: Ref)
    | Dies(pid: Pid)
    | Reported(ref: Ref)
    | Sweeps
    | Sends(peer: Peer, opening: Opening, sent: bool)
    | Answers(source: Peer, reused: bool, peer: Peer, opening: Opening, sent: bool)

  // `reuse_connection`: a response goes first over a live connection from the peer
  // that its request came from.
  function Reuse(p: Pool, source: Peer, alive: set<Pid>): Option<Pid> {
    var live := Live(Get(p.connections, source), alive);
    if live == [] then None else Some(live[0])
  }

  // A connection process whose send fails stops (`handle_call` of
  // lib/sippet/transports/tcp/connection.ex).
  ghost function Moves(w: World, h: Happening): World
    decreases h.Answers?
  {
    match h
    case Arrives(peer, pid, ref) =>
      World(Accepted(w.pool, peer, pid, ref), if Full(w.pool) then w.live else w.live + {pid})
    case Dies(pid) => w.(live := w.live - {pid})
    case Reported(ref) => w.(pool := Down(w.pool, ref))
    case Sweeps => w.(pool := Sweep(w.pool, w.live))
    case Sends(peer, opening, sent) =>
      var live := match GetOrConnect(w.pool, peer, w.live, opening)
        case Picked(pid, _) => if sent then w.live + {pid} else w.live - {pid}
        case _ => w.live;
      World(SendToTarget(w.pool, peer, w.live, opening, sent), live)
    case Answers(source, reused, peer, opening, sent) =>
      match Reuse(w.pool, source, w.live)
      case Some(pid) => if reused then w else Moves(w.(live := w.live - {pid}), Sends(peer, opening, sent))
      case None => Moves(w, Sends(peer, opening, sent))
  }

  // Processes and monitors are new when they begin; only the dead are reported.
  predicate CanHappen(w: World, h: Happening) {
    match h
    case Arrives(_, pid, ref) => Fresh(w.pool, pid, ref) && pid !in w.live
    case Sends(_, Opened(pid, ref), _) => Fresh(w.pool, pid, ref) && pid !in w.live
    case Answers(_, _, _, Opened(pid, ref), _) => Fresh(w.pool, pid, ref) && pid !in w.live
    case Reported(ref) => ref in w.pool.monitors ==> w.pool.monitors[ref].1 !in w.live
    case _ => true
  }

  ghost predicate History(w: World, hs: seq<Happening>, end: World)
    decreases |hs|
  {
    if hs == [] then end == w
    else CanHappen(w, hs[0]) && History(Moves(w, hs[0]), hs[1..], end)
  }

  predicate Pooled(p: Pool, pid: Pid) {
    exists peer :: peer in p.connections && pid in p.connections[peer]
  }

  // Every live process is pooled.
  ghost predicate Accounted(w: World) {
    Inv(w.pool) && forall pid | pid in w.live :: Pooled(w.pool, pid)
  }

  lemma StartPools(p: Pool, peer: Peer, pid: Pid, ref: Ref, x: Pid)
    ensures Pooled(StartConnection(p, peer, pid, ref), x) <==> x == pid || Pooled(p, x)
  {
    var q := StartConnection(p, peer, pid, ref);
    assert peer in q.connections && pid in q.connections[peer];
    if Pooled(p, x) {
      var k :| k in p.connections && x in p.connections[k];
      assert k in q.connections && x in q.connections[k];
    }
  }

  // The dead of one peer's list are dropped.
  lemma FilterPools(p: Pool, peer: Peer, alive: set<Pid>, x: Pid)
    requires x in alive && Pooled(p, x)
    ensures Pooled(p.(connections := PutConns(p.connections, peer, Live(Get(p.connections, peer), alive))), x)
  {
    var q := p.(connections := PutConns(p.connections, peer, Live(Get(p.connections, peer), alive)));
    LiveIsPart(Get(p.connections, peer), alive);
    var k :| k in p.connections && x in p.connections[k];
    assert k in q.connections && x in q.connections[k];
  }

  lemma TurnPools(p: Pool, peer: Peer, pids: seq<Pid>, x: Pid)
    requires pids != [] && Get(p.connections, peer) == pids
    ensures Pooled(p, x) ==> Pooled(p.(connections := PutConns(p.connections, peer, pids[1..] + [pids[0]])), x)
  {
    var q := p.(connections := PutConns(p.connections, peer, pids[1..] + [pids[0]]));
    if Pooled(p, x) {
      var k :| k in p.connections && x in p.connections[k];
      assert k in q.connections && x in q.connections[k];
    }
  }

  // Whom a send leaves alive is pooled.
  lemma SendAccounts(w: World, peer: Peer, opening: Opening, sent: bool)
    requires Accounted(w) && CanHappen(w, Sends(peer, opening, sent))
    ensures Accounted(Moves(w, Sends(peer, opening, sent)))
  {
    var p := w.pool;
    SendKeeps(p, peer, w.live, opening, sent);
    PickPools(w, peer, opening);
    hide Inv, Pooled, GetOrConnect, Live;
  }

  lemma PickPools(w: World, peer: Peer, opening: Opening)
    requires forall pid | pid in w.live :: Pooled(w.pool, pid)
    ensures var r := GetOrConnect(w.pool, peer, w.live, opening);
            r.Picked? ==> forall pid | pid in w.live || pid == r.pid :: Pooled(r.pool, pid)
  {
    var live := Live(Get(w.pool.connections, peer), w.live);
    var q := w.pool.(connections := PutConns(w.pool.connections, peer, live));
    var r := GetOrConnect(w.pool, peer, w.live, opening);
    LiveIsPart(Get(w.pool.connections, peer), w.live);
    assert Get(q.connections, peer) == live;
    assert live != [] ==> live[0] in w.live;
    hide Pooled, Live, StartConnection, PutConns, Full;
    forall pid | r.Picked? && (pid in w.live || pid == r.pid)
      ensures Pooled(r.pool, pid)
    {
      if pid in w.live {
        FilterPools(w.pool, peer, w.live, pid);
      }
      if |live| >= w.pool.perPeer {
        TurnPools(q, peer, live, pid);
      } else if opening.Opened? {
        StartPools(q, peer, opening.pid, opening.ref, pid);
      }
    }
  }

  lemma DownPools(p: Pool, ref: Ref, x: Pid)
    requires Inv(p) && Pooled(p, x) && (ref in p.monitors ==> p.monitors[ref].1 != x)
    ensures Pooled(Down(p, ref), x)
  {
    DownIsExact(p, ref);
    var k :| k in p.connections && x in p.connections[k];
    hide Inv, Down;
    assert x in Get(Down(p, ref).connections, k);
  }

  lemma SweepPools(p: Pool, alive: set<Pid>, x: Pid)
    ensures Pooled(Sweep(p, alive), x) <==> x in alive && Pooled(p, x)
  {
    var q := Sweep(p, alive);
    if Pooled(q, x) {
      var k :| k in q.connections && x in q.connections[k];
      LiveIsPart(p.connections[k], alive);
      assert k in p.connections && x in p.connections[k];
    }
    if x in alive && Pooled(p, x) {
      var k :| k in p.connections && x in p.connections[k];
      LiveIsPart(p.connections[k], alive);
      assert k in q.connections && x in q.connections[k];
    }
  }

  lemma ArrivalAccounts(w: World, peer: Peer, pid: Pid, ref: Ref)
    requires Accounted(w) && CanHappen(w, Arrives(peer, pid, ref))
    ensures Accounted(Moves(w, Arrives(peer, pid, ref)))
  {
    AcceptKeeps(w.pool, peer, pid, ref);
    hide Inv, Pooled, StartConnection, Full;
    forall x
      ensures Pooled(StartConnection(w.pool, peer, pid, ref), x) <==> x == pid || Pooled(w.pool, x)
    {
      StartPools(w.pool, peer, pid, ref, x);
    }
  }

  lemma LimitStays(w: World, h: Happening)
    ensures Moves(w, h).pool.limit == w.pool.limit
  {
    hide Full, Live;
  }

  lemma MoveAccounts(w: World, h: Happening)
    requires Accounted(w) && CanHappen(w, h)
    ensures Accounted(Moves(w, h)) && Moves(w, h).pool.limit == w.pool.limit
  {
    LimitStays(w, h);
    hide Inv, Pooled, Accepted, Down, Sweep, SendToTarget, Full, GetOrConnect;
    match h
    case Arrives(peer, pid, ref) => ArrivalAccounts(w, peer, pid, ref);
    case Dies(pid) =>
    case Reported(ref) =>
      DownKeeps(w.pool, ref);
      forall x | x in w.live
        ensures Pooled(Down(w.pool, ref), x)
      {
        DownPools(w.pool, ref, x);
      }
    case Sweeps =>
      SweepKeeps(w.pool, w.live);
      forall x | x in w.live
        ensures Pooled(Sweep(w.pool, w.live), x)
      {
        SweepPools(w.pool, w.live, x);
      }
    case Sends(peer, opening, sent) => SendAccounts(w, peer, opening, sent);
    case Answers(source, reused, peer, opening, sent) =>
      match Reuse(w.pool, source, w.live)
      case Some(pid) => SendAccounts(w.(live := w.live - {pid}), peer, opening, sent);
      case None => SendAccounts(w, peer, opening, sent);
  }

  // A response whose request came over a connection that is alive and pooled for its
  // peer goes over the first such; when that works nothing else changes, and when it
  // fails the process is gone and the response is sent like any other message.
  lemma ResponseReturns(w: World, source: Peer, reused: bool, peer: Peer, opening: Opening, sent: bool)
    ensures var r := Reuse(w.pool, source, w.live);
            var v := Moves(w, Answers(source, reused, peer, opening, sent));
            && (r.Some? <==> exists pid :: pid in Get(w.pool.connections, source) && pid in w.live)
            && (r.Some? ==> r.value in Get(w.pool.connections, source) && r.value in w.live)
            && (r.Some? && reused ==> v == w)
            && (r.Some? && !reused ==> v == Moves(Moves(w, Dies(r.value)), Sends(peer, opening, sent)))
            && (r.None? ==> v == Moves(w, Sends(peer, opening, sent)))
  {
    var pids := Get(w.pool.connections, source);
    LiveIsPart(pids, w.live);
    var live := Live(pids, w.live);
    hide Live, Full, GetOrConnect, SendToTarget;
    if live != [] {
      assert live[0] in live;
    }
  }

  lemma {:induction false} HistoryAccounts(w: World, hs: seq<Happening>, end: World)
    requires Accounted(w) && History(w, hs, end)
    ensures Accounted(end) && end.pool.limit == w.pool.limit
    decreases |hs|
  {
    hide Accounted, Moves, CanHappen;
    if hs != [] {
      MoveAccounts(w, hs[0]);
      HistoryAccounts(Moves(w, hs[0]), hs[1..], end);
    }
  }

  lemma {:induction false} FewAmong(s: set<Pid>, pids: seq<Pid>)
    requires forall x | x in s :: x in pids
    ensures |s| <= |pids|
    decreases |pids|
  {
    if pids == [] {
      assert s == {};
    } else {
      FewAmong(s - {pids[0]}, pids[1..]);
    }
  }

  // Pooled processes are no more than the pool's total.
  lemma {:induction false} FewerThanTotal(s: set<Pid>, m: map<Peer, seq<Pid>>)
    requires forall x | x in s :: exists peer :: peer in m && x in m[peer]
    ensures |s| <= Total(m)
    decreases |m|
  {
    if m == map[] {
      assert s == {};
    } else {
      var k :| k in m;
      var here := set x | x in s && x in m[k];
      FewAmong(here, m[k]);
      forall x | x in s - here
        ensures exists peer :: peer in m - {k} && x in (m - {k})[peer]
      {
        var peer :| peer in m && x in m[peer];
        assert peer in m - {k} && x in (m - {k})[peer];
      }
      FewerThanTotal(s - here, m - {k});
      TotalWithout(m, k);
      assert s == here + (s - here);
    }
  }

  // Whatever happens to an empty pool and its processes: each live process is
  // pooled, so that with a limit no more than that are ever alive. A failed send
  // drops its state, but its process too.
  lemma LiveWithinLimit(limit: nat, perPeer: Positive, hs: seq<Happening>, end: World)
    requires History(World(EmptyPool(limit, perPeer), {}), hs, end)
    ensures Accounted(end) && |end.live| <= Total(end.pool.connections)
    ensures limit != 0 ==> |end.live| <= limit
  {
    hide History;
    HistoryAccounts(World(EmptyPool(limit, perPeer), {}), hs, end);
    FewerThanTotal(end.live, end.pool.connections);
  }

  // A sweep leaves exactly the live processes in the pool.
  lemma SweepSettles(w: World, pid: Pid)
    requires Accounted(w)
    ensures Pooled(Moves(w, Sweeps).pool, pid) <==> pid in w.live
  {
    SweepPools(w.pool, w.live, pid);
    hide Inv, Sweep, Pooled;
  }

  /* ----- What a process that goes down leaves ----- */

  // A process that went down leaves its peer's list and takes its monitor along;
  // an unknown monitor means nothing.
  lemma DownIsExact(p: Pool, ref: Ref)
    requires Inv(p)
    ensures var q := Down(p, ref);
            if ref !in p.monitors then q == p
            else
              && q.monitors == p.monitors - {ref}
              && forall k, x :: x in Get(q.connections, k) <==> x in Get(p.connections, k) && p.monitors[ref] != (k, x)
  {
    if ref in p.monitors {
      var (peer, pid) := p.monitors[ref];
      WithoutIsRest(Get(p.connections, peer), pid);
      hide Distinct, Without, Total;
    }
  }

  // What the clauses on monitors amount to: exactly one per pooled process.
  lemma OneMonitorEach(p: Pool, peer: Peer, other: Peer, pid: Pid)
    requires Inv(p) && peer in p.connections && pid in p.connections[peer]
    ensures exists ref :: ref in p.monitors && p.monitors[ref] == (peer, pid)
                          && forall r | r in p.monitors && p.monitors[r].1 == pid :: r == ref
    ensures other in p.connections && pid in p.connections[other] ==> other == peer
  {
    var ref :| ref in p.monitors && p.monitors[ref] == (peer, pid);
    if other in p.connections && pid in p.connections[other] {
      var r :| r in p.monitors && p.monitors[r] == (other, pid);
    }
  }

  /* ----- Picking ----- */

  // Room for one more connection, when there is no limit or fewer than it allows.
  ghost predicate Room(limit: nat, connections: map<Peer, seq<Pid>>) {
    limit == 0 || Total(connections) < limit
  }

  // A pool with room takes every connection that is accepted, one without takes
  // none.
  lemma AcceptTakes(p: Pool, peer: Peer, pid: Pid, ref: Ref)
    ensures var q := Accepted(p, peer, pid, ref);
            if Room(p.limit, p.connections) then
              && Get(q.connections, peer) == Get(p.connections, peer) + [pid]
              && (forall k | k != peer :: Get(q.connections, k) == Get(p.connections, k))
              && Total(q.connections) == Total(p.connections) + 1
              && q.monitors == p.monitors[ref := (peer, pid)]
            else q == p
  {
    TotalPut(p.connections, peer, Get(p.connections, peer) + [pid]);
    hide Total;
  }

  // A picked connection is alive and pooled for the peer, or newly opened. It is
  // the peer's longest unused one when the peer has as many as it may; otherwise,
  // once the peer's dead are dropped, a new one when there is room, and failing
  // that the first one.
  lemma PickedIsLive(p: Pool, peer: Peer, alive: set<Pid>, opening: Opening)
    requires Inv(p)
    ensures var live := Live(Get(p.connections, peer), alive);
            var others := Total(p.connections) - |Get(p.connections, peer)|;
            var room := p.limit == 0 || others + |live| < p.limit;
            match GetOrConnect(p, peer, alive, opening)
            case Picked(pid, q) =>
              && pid in Get(q.connections, peer)
              && (if |live| >= p.perPeer then
                    pid == live[0] && Get(q.connections, peer) == live[1..] + [live[0]] && q.monitors == p.monitors
                  else if room then
                    && opening.Opened? && pid == opening.pid && Get(q.connections, peer) == live + [pid]
                    && q.monitors == p.monitors[opening.ref := (peer, pid)]
                  else live != [] && pid == live[0] && Get(q.connections, peer) == live && q.monitors == p.monitors)
              && (forall x | x in live :: x in Get(p.connections, peer) && x in alive)
              && (forall k | k != peer :: Get(q.connections, k) == Get(p.connections, k))
            case TooMany => !room && live == []
            case NoRoute => opening.Refused? && room && |live| < p.perPeer
  {
    var pids := Get(p.connections, peer);
    LiveIsPart(pids, alive);
    var live := Live(pids, alive);
    TotalPut(p.connections, peer, live);
    hide Live, Total, Consistent;
    if live != [] {
      assert live[0] in live;
    }
  }

  // The processes chosen by `n` sends in a row, and the pool they leave.
  ghost function Picks(p: Pool, peer: Peer, alive: set<Pid>, opening: Opening, n: nat): (seq<Pid>, Pool)
    decreases n
  {
    if n == 0 then ([], p)
    else
      match GetOrConnect(p, peer, alive, opening)
      case Picked(pid, q) => var rest := Picks(q, peer, alive, opening, n - 1); ([pid] + rest.0, rest.1)
      case _ => ([], p)
  }

  // The peer's list turned by `n`.
  function Turned(p: Pool, peer: Peer, n: nat): Pool
    requires peer in p.connections && n <= |p.connections[peer]|
  {
    var pids := p.connections[peer];
    p.(connections := p.connections[peer := pids[n..] + pids[..n]])
  }

  lemma OnePick(p: Pool, peer: Peer, alive: set<Pid>, opening: Opening)
    requires peer in p.connections && |p.connections[peer]| >= p.perPeer
    requires forall pid | pid in p.connections[peer] :: pid in alive
    ensures GetOrConnect(p, peer, alive, opening) == Picked(p.connections[peer][0], Turned(p, peer, 1))
  {
    assert p.connections[peer][..1] == [p.connections[peer][0]];
    LiveIsPart(p.connections[peer], alive);
    assert p.connections[peer := p.connections[peer]] == p.connections;
  }

  lemma TurnedOnce(p: Pool, peer: Peer, n: nat)
    requires peer in p.connections && 1 <= n <= |p.connections[peer]|
    ensures var q := Turned(p, peer, 1);
            && |q.connections[peer]| == |p.connections[peer]|
            && Turned(q, peer, n - 1) == Turned(p, peer, n)
            && [p.connections[peer][0]] + q.connections[peer][..n - 1] == p.connections[peer][..n]
            && (forall pid | pid in q.connections[peer] :: pid in p.connections[peer])
  {
    var pids := p.connections[peer];
    var turned := Turned(p, peer, 1).connections[peer];
    assert turned[n - 1..] + turned[..n - 1] == pids[n..] + pids[..n];
    assert Turned(p, peer, 1).connections[peer := pids[n..] + pids[..n]] == p.connections[peer := pids[n..] + pids[..n]];
  }

  lemma {:induction false} RoundRobin(p: Pool, peer: Peer, alive: set<Pid>, opening: Opening, n: nat)
    requires peer in p.connections && |p.connections[peer]| >= p.perPeer
    requires forall pid | pid in p.connections[peer] :: pid in alive
    requires n <= |p.connections[peer]|
    ensures Picks(p, peer, alive, opening, n) == (p.connections[peer][..n], Turned(p, peer, n))
    decreases n
  {
    if n == 0 {
      var pids := p.connections[peer];
      assert pids[0..] + pids[..0] == pids;
      assert p.connections[peer := pids] == p.connections;
    } else {
      OnePick(p, peer, alive, opening);
      TurnedOnce(p, peer, n);
      RoundRobin(Turned(p, peer, 1), peer, alive, opening, n - 1);
    }
  }

  // As many picks as a full peer has live connections use each once, in order, and
  // leave the pool as it was.
  lemma RoundRobinRestores(p: Pool, peer: Peer, alive: set<Pid>, opening: Opening)
    requires peer in p.connections && |p.connections[peer]| >= p.perPeer
    requires forall pid | pid in p.connections[peer] :: pid in alive
    ensures Picks(p, peer, alive, opening, |p.connections[peer]|) == (p.connections[peer], p)
  {
    var pids := p.connections[peer];
    RoundRobin(p, peer, alive, opening, |pids|);
    assert pids[..|pids|] == pids && pids[|pids|..] + pids[..|pids|] == pids;
    assert p.connections[peer := pids] == p.connections;
  }
}
