/**
 The actor manager (vs/src/actor_mgr.rs): persisted actor and node records, each node's
 persisted set of docked adapters, and the in-memory table from adapter to docking node.
 Store operations are taken to complete; a refused operation leaves everything as it was.
 */
module Docking {
  import opened Text
  import opened Attributes
  import opened Actors

  const VS_CN := "vs.zpr"

  /** fd5a:5052::1 */
  const VS_ZPR_ADDR: Addr := 0xfd5a_5052_0000_0000_0000_0000_0000_0001

  /** Four hours. */
  const DEFAULT_AUTH_EXPIRATION: Time := 4 * 60 * 60

  /** The database: actor records, and per node its record, last-seen time, VSS and connections. */
  datatype Store = Store(
    actors: map<Addr, Actor>,
    nodes: set<Addr>,
    lastSeen: map<Addr, Time>,
    vss: map<Addr, string>,
    conns: map<Addr, set<Addr>>)

  /** The database and the connection table. */
  datatype Mgr = Mgr(store: Store, table: map<Addr, Addr>)

  function Conns(store: Store, n: Addr): set<Addr> { if n in store.conns then store.conns[n] else {} }

  // -------------------------------------------------------------------- operations

  function DropNode(store: Store, n: Addr): Store {
    store.(nodes := store.nodes - {n}, lastSeen := store.lastSeen - {n}, vss := store.vss - {n},
           conns := store.conns - {n})
  }

  function AddNode(m: Mgr, actor: Actor, reconnect: bool, recordable: bool, now: Time): Mgr
    requires actor.zprAddr.Some?
  {
    var n := actor.zprAddr.value;
    if !actor.IsNode() then m
    else if reconnect && !(n in m.store.actors && m.store.actors[n].IsNode()) then m
    else
      var cleared := if reconnect then m.store else DropNode(m.store, n);
      var written := cleared.(actors := cleared.actors[n := actor]);
      // Building the node record can still fail: no CN, or no usable substrate address.
      if !recordable then m.(store := written)
      else m.(store := written.(nodes := written.nodes + {n}, lastSeen := written.lastSeen[n := now]))
  }

  /** `retain`: connections to the node leave the table. */
  function Unmap(table: map<Addr, Addr>, n: Addr): map<Addr, Addr> {
    map a | a in table && table[a] != n :: table[a]
  }

  function RemoveNode(m: Mgr, n: Addr): Mgr { Mgr(DropNode(m.store, n), Unmap(m.table, n)) }

  predicate IsVsSelf(actor: Actor) {
    actor.Single(Cn) == Some(VS_CN) && actor.zprAddr == Some(VS_ZPR_ADDR)
  }

  predicate AdapterRefused(m: Mgr, actor: Actor) {
    || actor.IsNode() || actor.zprAddr.None?
    || (!IsVsSelf(actor) && actor.zprAddr.value in m.store.actors)
  }

  function AddAdapter(m: Mgr, actor: Actor, dock: Addr): Mgr {
    if AdapterRefused(m, actor) then m
    else
      var a := actor.zprAddr.value;
      Mgr(m.store.(actors := m.store.actors[a := actor], conns := m.store.conns[dock := Conns(m.store, dock) + {a}]),
          m.table[a := dock])
  }

  /** The visa service's own record, before it is known where it docks. */
  function AddUndocked(m: Mgr, actor: Actor): Mgr {
    if actor.IsNode() || actor.zprAddr.None? then m
    else m.(store := m.store.(actors := m.store.actors[actor.zprAddr.value := actor]))
  }

  function DockVs(m: Mgr, n: Addr): Mgr {
    Mgr(m.store.(conns := m.store.conns[n := Conns(m.store, n) + {VS_ZPR_ADDR}]), m.table[VS_ZPR_ADDR := n])
  }

  /** An adapter also leaves its docking node's persisted set. */
  function RemoveActor(m: Mgr, a: Addr): Mgr {
    var store := m.store.(actors := m.store.actors - {a});
    if a !in m.table then m.(store := store)
    else
      var n := m.table[a];
      Mgr(store.(conns := store.conns[n := Conns(store, n) - {a}]), m.table - {a})
  }

  function FinishCull(m: Mgr, n: Addr): Mgr { RemoveNode(RemoveActor(m, n), n) }

  function UpdateActor(m: Mgr, actor: Actor): Mgr {
    if actor.zprAddr.None? || actor.zprAddr.value !in m.store.actors
       || m.store.actors[actor.zprAddr.value].IsNode() != actor.IsNode() then m
    else m.(store := m.store.(actors := m.store.actors[actor.zprAddr.value := actor]))
  }

  function SeeNode(m: Mgr, n: Addr, now: Time): Mgr {
    m.(store := m.store.(lastSeen := m.store.lastSeen[n := now]))
  }

  /** `get_docking_node_for_actor`: a node docks at itself, an adapter where the table says. */
  function DockForActor(table: map<Addr, Addr>, actor: Actor): Option<Addr> {
    if actor.IsNode() then actor.zprAddr
    else if actor.zprAddr.Some? && actor.zprAddr.value in table then Some(table[actor.zprAddr.value])
    else None
  }

  // ------------------------------------------------------------------- the startup cull

  /** No actor record, never seen, or not seen for too long. A last-seen in the future is skew. */
  predicate Stale(store: Store, n: Addr, now: Time) {
    n !in store.actors || n !in store.lastSeen || now - store.lastSeen[n] > DEFAULT_AUTH_EXPIRATION
  }

  predicate Live(store: Store, n: Addr, now: Time) { n in store.nodes && !Stale(store, n, now) }

  function CulledAt(store: Store, now: Time): set<Addr> { set n | n in store.nodes && Stale(store, n, now) }

  /** A table loaded from the sets of the live ones among some nodes, in whatever order they were listed. */
  ghost predicate LoadedFor(store: Store, now: Time, nodes: set<Addr>, table: map<Addr, Addr>) {
    && (forall a :: a in table ==> Live(store, table[a], now) && a in Conns(store, table[a]))
    && (forall n, a :: n in nodes && Live(store, n, now) && a in Conns(store, n) ==> a in table)
  }

  ghost predicate LoadedFrom(store: Store, now: Time, table: map<Addr, Addr>) {
    LoadedFor(store, now, store.nodes, table)
  }

  datatype CulledNode = CulledNode(node: Addr, adapters: set<Addr>)

  /** The report lists the stale ones among some nodes, each with its adapters. */
  ghost predicate ReportsStale(store: Store, now: Time, nodes: set<Addr>, culled: seq<CulledNode>) {
    forall c :: c in culled <==> c.node in nodes && Stale(store, c.node, now) && c.adapters == Conns(store, c.node)
  }

  lemma LoadOneMore(store: Store, now: Time, nodes: set<Addr>, table: map<Addr, Addr>, n: Addr)
    requires LoadedFor(store, now, nodes, table) && Live(store, n, now)
    ensures LoadedFor(store, now, nodes + {n}, table + MapTo(Conns(store, n), n))
  {}

  lemma ReportOneMore(store: Store, now: Time, nodes: set<Addr>, culled: seq<CulledNode>, n: Addr)
    requires ReportsStale(store, now, nodes, culled)
    ensures Stale(store, n, now) ==>
      ReportsStale(store, now, nodes + {n}, culled + [CulledNode(n, Conns(store, n))])
    ensures !Stale(store, n, now) ==> ReportsStale(store, now, nodes + {n}, culled)
  {}

  /** A restart forgets the VSS sockets of the nodes it keeps, and nothing else. */
  function ForgetVss(store: Store, now: Time): Store {
    store.(vss := VssWithout(store, now, store.nodes))
  }

  /** The VSS sockets left once the live ones among some nodes are cleared. */
  function VssWithout(store: Store, now: Time, nodes: set<Addr>): map<Addr, string> {
    map n | n in store.vss && !(n in nodes && Live(store, n, now)) :: store.vss[n]
  }

  lemma ClearOneMore(store: Store, now: Time, nodes: set<Addr>, n: Addr)
    ensures VssWithout(store, now, nodes + {n}) ==
      if Live(store, n, now) then VssWithout(store, now, nodes) - {n} else VssWithout(store, now, nodes)
  {}

  class ActorMgr {
    var store: Store
    var table: map<Addr, Addr>

    function View(): Mgr
      reads this
    {
      Mgr(store, table)
    }

    constructor (store: Store)
      ensures View() == Mgr(store, map[])
    {
      this.store, table := store, map[];
    }

    /** `refresh_state`: report the stale nodes, map the others' adapters, delete nothing. */
    method RefreshState(now: Time) returns (culled: seq<CulledNode>, ghost loaded: map<Addr, Addr>)
      modifies this
      ensures store == ForgetVss(old(store), now)
      ensures ReportsStale(old(store), now, old(store).nodes, culled)
      ensures LoadedFrom(old(store), now, loaded) && table == old(table) + loaded
    {
      var vss, found;
      culled, found, vss := ScanNodes(store, now);
      loaded := found;
      store, table := store.(vss := vss), table + found;
    }

    /** The loop over the node list. */
    static method ScanNodes(s: Store, now: Time)
      returns (culled: seq<CulledNode>, table: map<Addr, Addr>, vss: map<Addr, string>)
      ensures ReportsStale(s, now, s.nodes, culled)
      ensures LoadedFrom(s, now, table) && vss == ForgetVss(s, now).vss
    {
      culled, table, vss := [], map[], s.vss;
      ghost var seen: set<Addr> := {};
      var todo := s.nodes;
      while todo != {}
        invariant seen !! todo && seen + todo == s.nodes
        invariant ReportsStale(s, now, seen, culled) && LoadedFor(s, now, seen, table)
        invariant vss == VssWithout(s, now, seen)
        decreases |todo|
      {
        var n :| n in todo;
        ReportOneMore(s, now, seen, culled, n);
        ClearOneMore(s, now, seen, n);
        if Stale(s, n, now) {
          culled := culled + [CulledNode(n, Conns(s, n))];
        } else {
          LoadOneMore(s, now, seen, table, n);
          vss := vss - {n};
          table := table + MapTo(Conns(s, n), n);
        }
        seen, todo := seen + {n}, todo - {n};
      }
      assert seen == s.nodes;
    }

    method Node(actor: Actor, reconnect: bool, recordable: bool, now: Time) returns (ok: bool)
      requires actor.zprAddr.Some?
      modifies this
      ensures View() == AddNode(old(View()), actor, reconnect, recordable, now)
      ensures ok ==> actor.zprAddr.value in store.nodes && actor.zprAddr.value in store.actors
    {
      var n := actor.zprAddr.value;
      if !actor.IsNode() { return false; }
      if !reconnect {
        store := DropNode(store, n);
        store := store.(actors := store.actors[n := actor]);
      } else {
        if n !in store.actors || !store.actors[n].IsNode() { return false; }
        store := store.(actors := store.actors[n := actor]);
      }
      if !recordable { return false; }
      store := store.(nodes := store.nodes + {n});
      store := store.(lastSeen := store.lastSeen[n := now]);
      return true;
    }

    method RemoveNodeState(n: Addr)
      modifies this
      ensures View() == RemoveNode(old(View()), n)
    {
      store := DropNode(store, n);
      table := Unmap(table, n);
    }

    method AddAdapterViaNode(actor: Actor, dock: Addr) returns (ok: bool)
      modifies this
      ensures View() == AddAdapter(old(View()), actor, dock)
      ensures ok <==> !AdapterRefused(old(View()), actor)
    {
      if actor.IsNode() { return false; }
      if actor.zprAddr.None? { return false; }
      var a := actor.zprAddr.value;
      if !IsVsSelf(actor) && a in store.actors { return false; }
      store := store.(actors := store.actors[a := actor]);
      store := store.(conns := store.conns[dock := Conns(store, dock) + {a}]);
      table := table[a := dock];
      return true;
    }

    method RemoveActorByZprAddr(a: Addr)
      modifies this
      ensures View() == RemoveActor(old(View()), a)
    {
      store := store.(actors := store.actors - {a});
      if a in table {
        var n := table[a];
        table := table - {a};
        store := store.(conns := store.conns[n := Conns(store, n) - {a}]);
      }
    }

    /** `update_actor`: only an existing record of the same role is written. */
    method Update(actor: Actor) returns (ok: bool)
      modifies this
      ensures View() == UpdateActor(old(View()), actor)
      ensures ok ==> actor.zprAddr.Some? && actor.zprAddr.value in store.actors
      ensures ok ==> store.actors[actor.zprAddr.value] == actor
    {
      if actor.zprAddr.None? { return false; }
      var a := actor.zprAddr.value;
      if a !in store.actors || store.actors[a].IsNode() != actor.IsNode() { return false; }
      store := store.(actors := store.actors[a := actor]);
      return true;
    }

    method CompleteCull(n: Addr)
      modifies this
      ensures View() == FinishCull(old(View()), n)
    {
      RemoveActorByZprAddr(n);
      RemoveNodeState(n);
    }
  }

  function MapTo(adapters: set<Addr>, n: Addr): map<Addr, Addr> { map a | a in adapters :: n }

  /** A fresh connect starts a node with nobody docked; a reconnect keeps who is there. */
  lemma ConnectAndDockedAdapters(m: Mgr, actor: Actor, reconnect: bool, recordable: bool, now: Time, n: Addr)
    requires actor.zprAddr.Some?
    ensures var after := AddNode(m, actor, reconnect, recordable, now);
      Conns(after.store, n) ==
        if actor.IsNode() && !reconnect && n == actor.zprAddr.value then {} else Conns(m.store, n)
  {}

  /** Undocking undoes docking: records, table and every node's set are as they were. */
  lemma RemoveUndoesAdd(m: Mgr, actor: Actor, dock: Addr, n: Addr)
    requires !AdapterRefused(m, actor) && actor.zprAddr.value !in m.store.actors
    requires actor.zprAddr.value !in m.table && actor.zprAddr.value !in Conns(m.store, dock)
    ensures var back := RemoveActor(AddAdapter(m, actor, dock), actor.zprAddr.value);
      && back.store.actors == m.store.actors && back.table == m.table
      && Conns(back.store, n) == Conns(m.store, n)
  {
    var a := actor.zprAddr.value;
    assert m.store.actors[a := actor] - {a} == m.store.actors;
    assert m.table[a := dock] - {a} == m.table;
  }

  /** Completing a cull twice is completing it once. */
  lemma FinishCullIsIdempotent(m: Mgr, n: Addr)
    ensures FinishCull(FinishCull(m, n), n) == FinishCull(m, n)
  {
    var once := FinishCull(m, n);
    var again := FinishCull(once, n);
    assert n !in once.table && n !in once.store.actors && n !in once.store.conns;
    assert forall a :: a in once.table ==> once.table[a] != n;
    assert again.table == once.table && again.store.actors == once.store.actors;
  }

  // --------------------------------------------------------------------------- runs

  /** The manager over time: which nodes the last startup found stale and has not torn down yet. */
  datatype World = World(m: Mgr, awaiting: set<Addr>, clock: Time)

  datatype Op =
    | OpAddNode(actor: Actor, reconnect: bool, recordable: bool)
    | OpRemoveNode(n: Addr)
    | OpAddAdapter(actor: Actor, n: Addr)
    | OpAddUndocked(actor: Actor)
    | OpDockVs(n: Addr)
    | OpRemoveActor(a: Addr)
    | OpFinishCull(n: Addr)
    | OpUpdateActor(actor: Actor)
    | OpSeeNode(n: Addr)
    | OpTick(now: Time)
    | OpRestart(table: map<Addr, Addr>)

  /** What the operation can be called with at all. */
  ghost predicate Callable(w: World, op: Op) {
    match op
    case OpAddNode(actor, _, _) => actor.zprAddr.Some?
    case OpTick(now) => w.clock <= now
    case OpRestart(table) => LoadedFrom(w.m.store, w.clock, table)
    case _ => true
  }

  /** A node comes back: it is no longer one the startup has to tear down. */
  predicate ComesBack(m: Mgr, actor: Actor, reconnect: bool, recordable: bool) {
    && actor.zprAddr.Some? && actor.IsNode()
    && (reconnect ==>
          recordable && actor.zprAddr.value in m.store.actors && m.store.actors[actor.zprAddr.value].IsNode())
  }

  ghost function Step(w: World, op: Op): World
    requires Callable(w, op)
  {
    match op
    case OpAddNode(actor, reconnect, recordable) =>
      w.(m := AddNode(w.m, actor, reconnect, recordable, w.clock),
         awaiting := if ComesBack(w.m, actor, reconnect, recordable) then w.awaiting - {actor.zprAddr.value}
                     else w.awaiting)
    case OpRemoveNode(n) => w.(m := RemoveNode(w.m, n), awaiting := w.awaiting - {n})
    case OpAddAdapter(actor, n) => w.(m := AddAdapter(w.m, actor, n))
    case OpAddUndocked(actor) => w.(m := AddUndocked(w.m, actor))
    case OpDockVs(n) => w.(m := DockVs(w.m, n))
    case OpRemoveActor(a) => w.(m := RemoveActor(w.m, a))
    case OpFinishCull(n) => w.(m := FinishCull(w.m, n), awaiting := w.awaiting - {n})
    case OpUpdateActor(actor) => w.(m := UpdateActor(w.m, actor))
    case OpSeeNode(n) => w.(m := SeeNode(w.m, n, w.clock))
    case OpTick(now) => w.(clock := now)
    case OpRestart(table) =>
      w.(m := Mgr(ForgetVss(w.m.store, w.clock), table), awaiting := CulledAt(w.m.store, w.clock))
  }

  ghost predicate Reaches(w: World, ops: seq<Op>, end: World)
    decreases |ops|
  {
    if ops == [] then end == w
    else Callable(w, ops[0]) && Reaches(Step(w, ops[0]), ops[1..], end)
  }

  // ---------------------------------------------------------------- the docking index

  /** The docking index agrees: a docked adapter has a record and is mapped to its node. */
  ghost predicate Agrees(w: World) {
    forall n, a :: n !in w.awaiting && a in Conns(w.m.store, n) && a != VS_ZPR_ADDR ==>
      a in w.m.store.actors && a in w.m.table && w.m.table[a] == n
  }

  /** Every adapter on record at the node has a record of its own and is mapped to it. */
  ghost predicate Mapped(m: Mgr, n: Addr) {
    forall a :: a in Conns(m.store, n) && a != VS_ZPR_ADDR ==> a in m.store.actors && a in m.table && m.table[a] == n
  }

  /** Only the visa service can be docked at a node without a record. */
  ghost predicate DocksListed(w: World) {
    forall n, a :: n !in w.m.store.nodes && a in Conns(w.m.store, n) ==> a == VS_ZPR_ADDR
  }

  /** An adapter on record at a live node has a record of its own and is at no other live node. */
  ghost predicate LiveSound(w: World) {
    forall n, a :: Live(w.m.store, n, w.clock) && a in Conns(w.m.store, n) && a != VS_ZPR_ADDR ==>
      a in w.m.store.actors && OnlyLiveAt(w, n, a)
  }

  ghost predicate OnlyLiveAt(w: World, n: Addr, a: Addr) {
    forall k :: Live(w.m.store, k, w.clock) && a in Conns(w.m.store, k) ==> k == n
  }

  /** What the two operations that can break the agreement have to find. */
  ghost predicate Orderly(w: World, op: Op) {
    match op
    case OpAddNode(actor, reconnect, recordable) =>
      reconnect && ComesBack(w.m, actor, reconnect, recordable) && actor.zprAddr.value in w.awaiting ==>
        Mapped(w.m, actor.zprAddr.value)
    case OpRestart(_) => DocksListed(w) && LiveSound(w)
    case _ => true
  }

  ghost predicate OrderlyRun(w: World, ops: seq<Op>)
    decreases |ops|
  {
    ops == [] || (Callable(w, ops[0]) ==> Orderly(w, ops[0]) && OrderlyRun(Step(w, ops[0]), ops[1..]))
  }

  /** A restart reads the sets of live listed nodes only: the index agrees after it iff those tell the whole story. */
  lemma RestartAgreesExactly(w: World, table: map<Addr, Addr>)
    requires LoadedFrom(w.m.store, w.clock, table)
    ensures Agrees(Step(w, OpRestart(table))) <==> DocksListed(w) && LiveSound(w)
  {
    var w' := Step(w, OpRestart(table));
    assert forall n :: Conns(w'.m.store, n) == Conns(w.m.store, n);
    assert forall n :: n !in w'.awaiting <==> n !in w.m.store.nodes || Live(w.m.store, n, w.clock);
    if Agrees(w') {
      forall n, a | n !in w.m.store.nodes && a in Conns(w.m.store, n) ensures a == VS_ZPR_ADDR {
        assert a in table ==> Live(w.m.store, table[a], w.clock);
      }
      forall n, a | Live(w.m.store, n, w.clock) && a in Conns(w.m.store, n) && a != VS_ZPR_ADDR
        ensures a in w.m.store.actors && OnlyLiveAt(w, n, a)
      {
        assert table[a] == n;
        forall k | Live(w.m.store, k, w.clock) && a in Conns(w.m.store, k) ensures k == n { assert table[a] == k; }
      }
    }
    if DocksListed(w) && LiveSound(w) {
      forall n, a | n !in w'.awaiting && a in Conns(w'.m.store, n) && a != VS_ZPR_ADDR
        ensures a in w'.m.store.actors && a in table && table[a] == n
      {
        assert Live(w.m.store, n, w.clock) && OnlyLiveAt(w, n, a);
      }
    }
  }

  /** A reconnect finds the table as it is: the index agrees iff the node's adapters are mapped to it. */
  lemma ResumeAgreesExactly(w: World, actor: Actor)
    requires Agrees(w) && ComesBack(w.m, actor, true, true) && actor.zprAddr.value in w.awaiting
    ensures Agrees(Step(w, OpAddNode(actor, true, true))) <==> Mapped(w.m, actor.zprAddr.value)
  {
    var w', n := Step(w, OpAddNode(actor, true, true)), actor.zprAddr.value;
    assert n !in w'.awaiting && w'.m.table == w.m.table;
    assert forall k :: Conns(w'.m.store, k) == Conns(w.m.store, k);
    if Mapped(w.m, n) {
      forall k, a | k !in w'.awaiting && a in Conns(w'.m.store, k) && a != VS_ZPR_ADDR
        ensures a in w'.m.store.actors && a in w'.m.table && w'.m.table[a] == k
      {
        assert a in Conns(w.m.store, k);
      }
    }
  }

  lemma StepKeepsAgreement(w: World, op: Op)
    requires Agrees(w) && Callable(w, op) && Orderly(w, op)
    ensures Agrees(Step(w, op))
  {
    var w' := Step(w, op);
    match op
    case OpAddNode(actor, reconnect, recordable) =>
      if reconnect && ComesBack(w.m, actor, reconnect, recordable) && actor.zprAddr.value in w.awaiting {
        ResumeAgreesExactly(w, actor);
      } else {
        forall n ensures Conns(w'.m.store, n) <= Conns(w.m.store, n) {}
        ConnectAndDockedAdapters(w.m, actor, reconnect, recordable, w.clock, actor.zprAddr.value);
      }
    case OpRemoveNode(n) =>
      forall k ensures Conns(w'.m.store, k) == if k == n then {} else Conns(w.m.store, k) {}
    case OpFinishCull(n) =>
      forall k ensures Conns(w'.m.store, k) <= Conns(w.m.store, k) {}
      assert Conns(w'.m.store, n) == {};
    case OpRestart(table) => RestartAgreesExactly(w, table);
    case _ =>
  }

  lemma {:induction false} RunKeepsAgreement(w: World, ops: seq<Op>, end: World)
    requires Agrees(w) && Reaches(w, ops, end) && OrderlyRun(w, ops)
    ensures Agrees(end)
    decreases |ops|
  {
    if ops != [] {
      StepKeepsAgreement(w, ops[0]);
      RunKeepsAgreement(Step(w, ops[0]), ops[1..], end);
    }
  }

  const EMPTY_STORE := Store(map[], {}, map[], map[], map[])

  function Empty(clock: Time): World { World(Mgr(EMPTY_STORE, map[]), {}, clock) }

  /** Over every orderly run from an empty store the index agrees, so an adapter is in at most one live set. */
  lemma DockingIndexAgrees(clock: Time, ops: seq<Op>, end: World)
    requires Reaches(Empty(clock), ops, end) && OrderlyRun(Empty(clock), ops)
    ensures Agrees(end)
    ensures forall n1, n2, a ::
              (&& n1 !in end.awaiting && n2 !in end.awaiting && a != VS_ZPR_ADDR
               && a in Conns(end.m.store, n1) && a in Conns(end.m.store, n2)) ==> n1 == n2
  {
    RunKeepsAgreement(Empty(clock), ops, end);
    forall n1, n2, a | n1 !in end.awaiting && n2 !in end.awaiting && a != VS_ZPR_ADDR
        && a in Conns(end.m.store, n1) && a in Conns(end.m.store, n2)
      ensures n1 == n2
    {
      assert end.m.table[a] == n1;
    }
  }

  // ------------------------------------------------------------------ runs that are tidy

  /**
   Adapters dock at nodes that have a record. A node awaiting its cull is not heard of and its
   address is not given to an adapter; it connects afresh, or reconnects with no adapter on record.
   */
  predicate Tidy(w: World, op: Op) {
    match op
    case OpAddNode(actor, reconnect, recordable) =>
      reconnect && ComesBack(w.m, actor, reconnect, recordable) && actor.zprAddr.value in w.awaiting ==>
        Conns(w.m.store, actor.zprAddr.value) <= {VS_ZPR_ADDR}
    case OpAddAdapter(actor, n) =>
      n in w.m.store.nodes && (actor.zprAddr.Some? ==> actor.zprAddr.value !in w.awaiting)
    case OpAddUndocked(actor) => actor.zprAddr.Some? ==> actor.zprAddr.value !in w.awaiting
    case OpSeeNode(n) => n !in w.awaiting
    case _ => true
  }

  ghost predicate TidyRun(w: World, ops: seq<Op>)
    decreases |ops|
  {
    ops == [] || (Callable(w, ops[0]) ==> Tidy(w, ops[0]) && TidyRun(Step(w, ops[0]), ops[1..]))
  }

  ghost predicate AwaitingStale(w: World) {
    forall n :: n in w.awaiting ==> n in w.m.store.nodes && Stale(w.m.store, n, w.clock)
  }

  ghost predicate InOrder(w: World) { Agrees(w) && DocksListed(w) && AwaitingStale(w) }

  lemma TidyIsOrderly(w: World, op: Op)
    requires InOrder(w) && Callable(w, op) && Tidy(w, op)
    ensures Orderly(w, op)
  {
    if op.OpRestart? {
      forall n, a | Live(w.m.store, n, w.clock) && a in Conns(w.m.store, n) && a != VS_ZPR_ADDR
        ensures a in w.m.store.actors && OnlyLiveAt(w, n, a)
      {
        assert n !in w.awaiting && w.m.table[a] == n;
        forall k | Live(w.m.store, k, w.clock) && a in Conns(w.m.store, k) ensures k == n {
          assert k !in w.awaiting;
        }
      }
    }
  }

  lemma ListedDocksStay(w: World, op: Op)
    requires DocksListed(w) && Callable(w, op) && (op.OpAddAdapter? ==> op.n in w.m.store.nodes)
    ensures DocksListed(Step(w, op))
  {
    var w' := Step(w, op);
    forall n, a | n !in w'.m.store.nodes && a in Conns(w'.m.store, n) ensures a == VS_ZPR_ADDR {
      assert n !in w.m.store.nodes ==> a in Conns(w.m.store, n) || a == VS_ZPR_ADDR;
    }
  }

  lemma AwaitingStayStale(w: World, op: Op)
    requires AwaitingStale(w) && Callable(w, op) && Tidy(w, op)
    ensures AwaitingStale(Step(w, op))
  {}

  /** In a tidy run every restart and every reconnect is in order, so the index agrees throughout. */
  lemma {:induction false} TidyRunsAreOrderly(w: World, ops: seq<Op>, end: World)
    requires InOrder(w) && Reaches(w, ops, end) && TidyRun(w, ops)
    ensures OrderlyRun(w, ops) && InOrder(end)
    decreases |ops|
  {
    if ops != [] {
      TidyIsOrderly(w, ops[0]);
      StepKeepsAgreement(w, ops[0]);
      ListedDocksStay(w, ops[0]);
      AwaitingStayStale(w, ops[0]);
      TidyRunsAreOrderly(Step(w, ops[0]), ops[1..], end);
    }
  }

  // ------------------------------------------------------------------- runs that are not

  lemma ReachesStep(w: World, op: Op, rest: seq<Op>, end: World)
    requires Callable(w, op) && Reaches(Step(w, op), rest, end)
    ensures Reaches(w, [op] + rest, end)
  {
    assert ([op] + rest)[0] == op && ([op] + rest)[1..] == rest;
  }

  const AN_ADAPTER := Actor(map[], [], Some(1))
  const A_NODE := Actor(map[Role := Attribute(Role, [ROLE_NODE], 0, SOURCE_ZPR)], [], Some(5))

  /** An adapter docks at a node without a record: after a restart nothing maps it. */
  lemma RestartCanDisagree()
    ensures exists end ::
      Reaches(Empty(0), [OpAddAdapter(AN_ADAPTER, 5)] + ([OpRestart(map[])] + []), end) && !Agrees(end)
  {
    var docked := Step(Empty(0), OpAddAdapter(AN_ADAPTER, 5));
    assert Conns(docked.m.store, 5) == {1} && docked.m.store.nodes == {};
    var end := Step(docked, OpRestart(map[]));
    assert 1 in Conns(end.m.store, 5) && 5 !in end.awaiting;
    ReachesStep(docked, OpRestart(map[]), [], end);
    ReachesStep(Empty(0), OpAddAdapter(AN_ADAPTER, 5), [OpRestart(map[])] + [], end);
  }

  const LATER: Time := DEFAULT_AUTH_EXPIRATION + 1

  const TO_RESTART: seq<Op> := [OpTick(LATER)] + ([OpRestart(map[])] + ([OpAddNode(A_NODE, true, true)] + []))

  /** A node with an adapter goes quiet, is found stale by a restart, and reconnects before its teardown. */
  lemma ResumeCanDisagree()
    ensures exists end ::
      && Reaches(Empty(0), [OpAddNode(A_NODE, false, true)] + ([OpAddAdapter(AN_ADAPTER, 5)] + TO_RESTART), end)
      && !Agrees(end)
  {
    var connected := Step(Empty(0), OpAddNode(A_NODE, false, true));
    var docked := Step(connected, OpAddAdapter(AN_ADAPTER, 5));
    assert docked.m.store.nodes == {5} && Conns(docked.m.store, 5) == {1} && docked.m.store.lastSeen[5] == 0;
    var quiet := Step(docked, OpTick(LATER));
    assert Stale(quiet.m.store, 5, LATER);
    var restarted := Step(quiet, OpRestart(map[]));
    var end := Step(restarted, OpAddNode(A_NODE, true, true));
    assert 1 in Conns(end.m.store, 5) && 5 !in end.awaiting && 1 !in end.m.table;
    ReachesStep(restarted, OpAddNode(A_NODE, true, true), [], end);
    ReachesStep(quiet, OpRestart(map[]), [OpAddNode(A_NODE, true, true)] + [], end);
    ReachesStep(docked, OpTick(LATER), [OpRestart(map[])] + ([OpAddNode(A_NODE, true, true)] + []), end);
    ReachesStep(connected, OpAddAdapter(AN_ADAPTER, 5), TO_RESTART, end);
    ReachesStep(Empty(0), OpAddNode(A_NODE, false, true), [OpAddAdapter(AN_ADAPTER, 5)] + TO_RESTART, end);
  }

  // ---------------------------------------------------------------- recovering the cull

  /** On an unchanged store a later startup reports at least the same nodes. */
  lemma CullIsMonotone(store: Store, t1: Time, t2: Time)
    requires t1 <= t2
    ensures CulledAt(store, t1) <= CulledAt(store, t2)
  {}

  /** Anything but the node's teardown or return, a sign of life, or a new actor at it or at its address. */
  predicate Spares(op: Op, n: Addr) {
    match op
    case OpAddNode(actor, _, _) => actor.zprAddr != Some(n)
    case OpRemoveNode(k) => k != n
    case OpFinishCull(k) => k != n
    case OpAddAdapter(actor, k) => k != n && actor.zprAddr != Some(n)
    case OpAddUndocked(actor) => actor.zprAddr != Some(n)
    case OpSeeNode(k) => k != n
    case _ => true
  }

  /** The node awaits its cull, for good reason, and nobody is mapped to it. */
  ghost predicate AwaitsCull(w: World, n: Addr) {
    && n in w.awaiting && n in w.m.store.nodes && Stale(w.m.store, n, w.clock)
    && forall a :: a in w.m.table && a != VS_ZPR_ADDR ==> w.m.table[a] != n
  }

  lemma StepKeepsAwaiting(w: World, op: Op, n: Addr)
    requires AwaitsCull(w, n) && Callable(w, op) && Spares(op, n)
    ensures AwaitsCull(Step(w, op), n)
    ensures Conns(Step(w, op).m.store, n) - {VS_ZPR_ADDR} == Conns(w.m.store, n) - {VS_ZPR_ADDR}
  {}

  /**
   A cull survives anything short of its completion: teardown of its adapters, other culls, new
   connections and further restarts leave the node awaiting, with the same adapters on record.
   */
  lemma {:induction false} CullIsRecoverable(w: World, ops: seq<Op>, end: World, n: Addr)
    requires AwaitsCull(w, n) && Reaches(w, ops, end) && forall op :: op in ops ==> Spares(op, n)
    ensures AwaitsCull(end, n) && n in CulledAt(end.m.store, end.clock)
    ensures Conns(end.m.store, n) - {VS_ZPR_ADDR} == Conns(w.m.store, n) - {VS_ZPR_ADDR}
    decreases |ops|
  {
    if ops != [] {
      StepKeepsAwaiting(w, ops[0], n);
      CullIsRecoverable(Step(w, ops[0]), ops[1..], end, n);
    }
  }

  /** Every node a startup reports awaits its cull. */
  lemma ReportedAwaitsCull(w: World, table: map<Addr, Addr>, n: Addr)
    requires LoadedFrom(w.m.store, w.clock, table) && n in CulledAt(w.m.store, w.clock)
    ensures AwaitsCull(Step(w, OpRestart(table)), n)
  {}
}
