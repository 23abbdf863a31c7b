/**
 The periodic sweeps (vs/src/auth_sweep.rs): overdue re-authentication obligations and
 denylisted bootstrap keys are enforced in batches per docking node, removing an adapter only
 after its node acknowledged the revocation. Anything may change at an await; `calm` is the
 case in which nothing does and every call succeeds.
 */
module Sweeps {
  import opened Text
  import opened Attributes
  import opened Actors
  import opened Connections
  import opened Docking

  datatype Obligation = Obligation(vinst: nat, deadline: Time)

  /** The policy generation an actor last authenticated under; unreadable counts as 0. */
  function ActorVinst(a: Actor): nat {
    if Vinst !in a.attrs then 0
    else match a.attrs[Vinst].SingleValue()
      case None => 0
      case Some(text) =>
        match ParseU64(text)
        case None => 0
        case Some(n) => n
  }

  /** What admission stamps, the sweep reads: an admitted actor meets its own generation. */
  lemma ConnectMeetsItsGeneration(ctx: Context, auth: seq<Attribute>, unauth: seq<Attribute>)
    requires ctx.policy.Valid()
    ensures ActorVinst(Approve(ctx, auth, unauth)) == ctx.policy.vinst
  {
    ApprovedRoleAndServices(ctx, auth, unauth);
    U64RoundTrip(ctx.policy.vinst);
  }

  /** The visa service's own adapter is never swept. */
  predicate Exempt(addr: Addr, a: Actor) { a.Single(Cn) == Some(VS_CN) && addr == VS_ZPR_ADDR }

  // --------------------------------------------------------------- which generation

  predicate Overdue(ob: Obligation, now: Time) { now > ob.deadline }

  /** `filter(..).map(vinst).max()`. */
  function HighestOverdue(obs: seq<Obligation>, now: Time): Option<nat> {
    if obs == [] then None
    else
      var rest, last := HighestOverdue(obs[..|obs| - 1], now), obs[|obs| - 1];
      if !Overdue(last, now) then rest
      else if rest.None? || last.vinst > rest.value then Some(last.vinst)
      else rest
  }

  /** One comparison with the maximum decides: some overdue obligation is unmet. */
  lemma {:induction false} MaximumDecides(obs: seq<Obligation>, now: Time, v: nat)
    ensures (HighestOverdue(obs, now).Some? && v < HighestOverdue(obs, now).value)
              <==> exists ob :: ob in obs && Overdue(ob, now) && v < ob.vinst
    ensures HighestOverdue(obs, now).Some? ==>
              exists ob :: ob in obs && Overdue(ob, now) && ob.vinst == HighestOverdue(obs, now).value
    decreases |obs|
  {
    if obs != [] {
      var init, last := obs[..|obs| - 1], obs[|obs| - 1];
      assert obs == init + [last];
      MaximumDecides(init, now, v);
    }
  }

  // ------------------------------------------------------------------------ batches

  /** One docking node's share of a sweep. */
  datatype Batch<T> = Batch(node: Addr, items: seq<T>)

  /** `by_node.entry(dock).or_default().push(item)`. */
  function Enlist<T>(bs: seq<Batch<T>>, node: Addr, item: T): seq<Batch<T>> {
    if bs == [] then [Batch(node, [item])]
    else if bs[0].node == node then [Batch(node, bs[0].items + [item])] + bs[1..]
    else [bs[0]] + Enlist(bs[1..], node, item)
  }

  function Enlisted<T>(bs: seq<Batch<T>>): nat {
    if bs == [] then 0 else Enlisted(bs[..|bs| - 1]) + |bs[|bs| - 1].items|
  }

  ghost predicate InBatch<T>(bs: seq<Batch<T>>, node: Addr, item: T) {
    exists b :: b in bs && b.node == node && item in b.items
  }

  lemma {:induction false} EnlistedConcat<T>(x: seq<Batch<T>>, y: seq<Batch<T>>)
    ensures Enlisted(x + y) == Enlisted(x) + Enlisted(y)
    decreases |y|
  {
    if y == [] {
      assert x + y == x;
    } else {
      assert (x + y)[..|x + y| - 1] == x + y[..|y| - 1];
      EnlistedConcat(x, y[..|y| - 1]);
    }
  }

  lemma {:induction false} EnlistAddsOne<T(!new)>(bs: seq<Batch<T>>, node: Addr, item: T)
    ensures Enlisted(Enlist(bs, node, item)) == Enlisted(bs) + 1
    ensures forall n, a: T :: InBatch(Enlist(bs, node, item), n, a) <==> InBatch(bs, n, a) || (n == node && a == item)
  {
    var out := Enlist(bs, node, item);
    if bs == [] {
      assert out[0] in out;
      assert Enlisted(out[..0]) == 0;
    } else {
      var head, rest := bs[0], bs[1..];
      EnlistedConcat([head], rest);
      assert bs == [head] + rest && [head][..0] == [];
      if head.node == node {
        var grown := Batch(node, head.items + [item]);
        EnlistedConcat([grown], rest);
        assert [grown][..0] == [];
        InBatchCons(head, rest);
        InBatchCons(grown, rest);
      } else {
        EnlistAddsOne(rest, node, item);
        EnlistedConcat([head], Enlist(rest, node, item));
        InBatchCons(head, rest);
        InBatchCons(head, Enlist(rest, node, item));
      }
    }
  }

  lemma InBatchCons<T(!new)>(head: Batch<T>, rest: seq<Batch<T>>)
    ensures forall n, a: T ::
      InBatch([head] + rest, n, a) <==> (head.node == n && a in head.items) || InBatch(rest, n, a)
  {}

  function Members<T(==)>(items: seq<T>): set<T> { set x | x in items }

  lemma MembersGrow<T>(items: seq<T>, i: nat)
    requires i < |items|
    ensures Members(items[..i + 1]) == Members(items[..i]) + {items[i]}
  {
    assert items[..i + 1] == items[..i] + [items[i]];
  }

  lemma MembersAppend<T>(items: seq<T>, x: T)
    ensures Members(items + [x]) == Members(items) + {x}
  {}

  function Batched<T(==)>(bs: seq<Batch<T>>): set<T> {
    if bs == [] then {} else Batched(bs[..|bs| - 1]) + Members(bs[|bs| - 1].items)
  }

  lemma {:induction false} BatchedMeans<T>(bs: seq<Batch<T>>, x: T)
    ensures x in Batched(bs) <==> exists n :: InBatch(bs, n, x)
    decreases |bs|
  {
    if bs != [] {
      var init, last := bs[..|bs| - 1], bs[|bs| - 1];
      assert bs == init + [last];
      BatchedMeans(init, x);
      if x in Batched(init) {
        var n :| InBatch(init, n, x);
        assert InBatch(bs, n, x);
      } else if x in last.items {
        assert last in bs && InBatch(bs, last.node, x);
      }
      if n :| InBatch(bs, n, x) {
        assert x in last.items || InBatch(init, n, x);
      }
    }
  }

  // -------------------------------------------------------------------------- trace

  /** What a pass reads and does, in order. `Seen` is a load together with where the actor was docked. */
  datatype Event =
    | Listed(obs: seq<Obligation>)
    | Seen(addr: Addr, actor: Actor, dock: Option<Addr>)
    | Acked(node: Addr, batch: seq<Addr>, processed: nat)
    | Rechecked(addr: Addr, vinst: nat)
    | ExpiryRead(addr: Addr, expiry: Option<Time>)
    | Removed(addr: Addr)
    | Disconnected(node: Addr)

  predicate IsRead(e: Event) { e.Listed? || e.Seen? }

  function CountSeen(trace: seq<Event>): nat {
    if trace == [] then 0 else CountSeen(trace[..|trace| - 1]) + if trace[|trace| - 1].Seen? then 1 else 0
  }

  lemma CountSeenGrows(trace: seq<Event>, e: Event)
    ensures CountSeen(trace + [e]) == CountSeen(trace) + if e.Seen? then 1 else 0
  {
    assert (trace + [e])[..|trace|] == trace;
  }

  lemma {:induction false} CountSeenPrefix(some: seq<Event>, trace: seq<Event>)
    requires some <= trace
    ensures CountSeen(some) <= CountSeen(trace)
    decreases |trace|
  {
    if |some| < |trace| {
      CountSeenPrefix(some, trace[..|trace| - 1]);
    } else {
      assert some == trace;
    }
  }

  /** A connected actor as a sweep's snapshot sees it. */
  datatype Entry = Entry(addr: Addr, vinst: nat, isNode: bool, dock: Option<Addr>)

  function EntryFrom(a: Addr, actor: Actor, dock: Option<Addr>): Entry {
    Entry(a, ActorVinst(actor), actor.IsNode(), dock)
  }

  function EntryOf(m: Mgr, a: Addr): Entry
    requires a in m.store.actors
  {
    EntryFrom(a, m.store.actors[a], DockForActor(m.table, m.store.actors[a]))
  }

  /** Which actors a sweep may touch. */
  type Target = (Addr, Actor) -> bool

  /** The entry is one load's record, of an actor the sweep may touch. */
  predicate SeenAs(may: Target, trace: seq<Event>, e: Entry) {
    exists k :: 0 <= k < |trace| && trace[k].Seen? && e == EntryFrom(trace[k].addr, trace[k].actor, trace[k].dock)
      && may(trace[k].addr, trace[k].actor)
  }

  ghost predicate Witnessed(may: Target, entries: seq<Entry>, trace: seq<Event>) {
    forall e :: e in entries ==> SeenAs(may, trace, e)
  }

  lemma WitnessedGrows(may: Target, entries: seq<Entry>, trace: seq<Event>, ev: Event)
    requires Witnessed(may, entries, trace)
    ensures Witnessed(may, entries, trace + [ev])
    ensures ev.Seen? && may(ev.addr, ev.actor) ==>
      Witnessed(may, entries + [EntryFrom(ev.addr, ev.actor, ev.dock)], trace + [ev])
  {
    var all := trace + [ev];
    forall e | e in entries ensures SeenAs(may, all, e) {
      var k :| 0 <= k < |trace| && trace[k].Seen? && e == EntryFrom(trace[k].addr, trace[k].actor, trace[k].dock)
        && may(trace[k].addr, trace[k].actor);
      assert all[k] == trace[k];
    }
    assert all[|trace|] == ev;
  }

  function CountNodes(entries: seq<Entry>): nat {
    if entries == [] then 0
    else CountNodes(entries[..|entries| - 1]) + if entries[|entries| - 1].isNode then 1 else 0
  }

  function CountAdapters(entries: seq<Entry>): nat {
    if entries == [] then 0
    else CountAdapters(entries[..|entries| - 1]) + if entries[|entries| - 1].isNode then 0 else 1
  }

  lemma {:induction false} EveryEntryCounts(entries: seq<Entry>)
    ensures CountNodes(entries) + CountAdapters(entries) == |entries|
    decreases |entries|
  {
    if entries != [] { EveryEntryCounts(entries[..|entries| - 1]); }
  }

  /** The addresses a short count stands for: the processed prefix of the batch. */
  function Processed(e: Event): seq<Addr>
    requires e.Acked?
  {
    if e.processed <= |e.batch| then e.batch[..e.processed] else e.batch
  }

  predicate DockedAt(entries: seq<Entry>, a: Addr, n: Addr) {
    exists e :: e in entries && e.addr == a && e.dock == Some(n) && !e.isNode
  }

  /** An earlier acknowledgement, by the adapter's docking node, covers the removal. */
  predicate AckCovers(entries: seq<Entry>, trace: seq<Event>, i: nat)
    requires i < |trace| && trace[i].Removed?
  {
    exists j :: 0 <= j < i && trace[j].Acked? && trace[i].addr in Processed(trace[j])
      && DockedAt(entries, trace[i].addr, trace[j].node)
  }

  ghost predicate RemovalsAcked(entries: seq<Entry>, trace: seq<Event>) {
    forall i :: 0 <= i < |trace| && trace[i].Removed? ==> AckCovers(entries, trace, i)
  }

  /** Whom an event puts out: the adapter removed, or the node disconnected. */
  function Evicts(e: Event): Option<Addr> {
    match e
    case Removed(a) => Some(a)
    case Disconnected(n) => Some(n)
    case _ => None
  }

  /** The last thing done was to read a stored generation below the one required. */
  predicate JustRechecked(trace: seq<Event>, a: Addr, required: nat) {
    |trace| > 0 && trace[|trace| - 1].Rechecked? && trace[|trace| - 1].addr == a && trace[|trace| - 1].vinst < required
  }

  ghost predicate RemovalsRechecked(trace: seq<Event>, required: nat) {
    forall i :: 0 <= i < |trace| && Evicts(trace[i]).Some? ==>
      JustRechecked(trace[..i], Evicts(trace[i]).value, required)
  }

  lemma AcksGrow(entries: seq<Entry>, trace: seq<Event>, e: Event)
    requires RemovalsAcked(entries, trace)
    requires e.Removed? ==> exists j :: 0 <= j < |trace| && trace[j].Acked? && e.addr in Processed(trace[j])
                              && DockedAt(entries, e.addr, trace[j].node)
    ensures RemovalsAcked(entries, trace + [e])
  {
    var all := trace + [e];
    forall i | 0 <= i < |all| && all[i].Removed? ensures AckCovers(entries, all, i) {
      if i < |trace| { assert AckCovers(entries, trace, i); }
      var j :| 0 <= j < i && trace[j].Acked? && all[i].addr in Processed(trace[j])
        && DockedAt(entries, all[i].addr, trace[j].node);
      assert all[j] == trace[j];
    }
  }

  lemma RechecksGrow(trace: seq<Event>, e: Event, required: nat)
    requires RemovalsRechecked(trace, required)
    requires Evicts(e).Some? ==> JustRechecked(trace, Evicts(e).value, required)
    ensures RemovalsRechecked(trace + [e], required)
  {}

  /** Only nodes of the snapshot are disconnected. */
  ghost predicate DisconnectsListed(entries: seq<Entry>, trace: seq<Event>) {
    forall i :: 0 <= i < |trace| && trace[i].Disconnected? ==> IsNodeEntry(entries, trace[i].node)
  }

  predicate IsNodeEntry(entries: seq<Entry>, n: Addr) { exists e :: e in entries && e.isNode && e.addr == n }

  /** Removals are acknowledged, and only nodes of the snapshot are disconnected. */
  ghost predicate Sanctioned(entries: seq<Entry>, trace: seq<Event>) {
    RemovalsAcked(entries, trace) && DisconnectsListed(entries, trace)
  }

  lemma SanctionedGrows(entries: seq<Entry>, trace: seq<Event>, e: Event)
    requires Sanctioned(entries, trace) && (e.Disconnected? ==> IsNodeEntry(entries, e.node))
    requires e.Removed? ==> exists j :: 0 <= j < |trace| && trace[j].Acked? && e.addr in Processed(trace[j])
                              && DockedAt(entries, e.addr, trace[j].node)
    ensures Sanctioned(entries, trace + [e])
  {
    AcksGrow(entries, trace, e);
  }

  // ------------------------------------------------ the laws, over the log alone

  /** The node an adapter was seen docked at acknowledged, later, a batch whose processed prefix holds it. */
  predicate AckedWhereSeen(may: Target, trace: seq<Event>, i: nat)
    requires i < |trace| && trace[i].Removed?
  {
    exists j, k :: 0 <= k < j < i && trace[j].Acked? && trace[i].addr in Processed(trace[j])
      && trace[k].Seen? && trace[k].addr == trace[i].addr && trace[k].dock == Some(trace[j].node)
      && !trace[k].actor.IsNode() && may(trace[k].addr, trace[k].actor)
  }

  predicate SeenAsNode(may: Target, trace: seq<Event>, i: nat)
    requires i < |trace| && trace[i].Disconnected?
  {
    exists k :: 0 <= k < i && trace[k].Seen? && trace[k].addr == trace[i].node
      && trace[k].actor.IsNode() && may(trace[k].addr, trace[k].actor)
  }

  /** Everybody listed was put out. */
  ghost predicate Logged(revoked: seq<Addr>, trace: seq<Event>) {
    forall a :: a in revoked ==> exists i :: 0 <= i < |trace| && Evicts(trace[i]) == Some(a)
  }

  lemma LoggedLater(revoked: seq<Addr>, trace: seq<Event>, later: seq<Event>)
    requires Logged(revoked, trace) && trace <= later
    ensures Logged(revoked, later)
  {
    forall a | a in revoked ensures exists i :: 0 <= i < |later| && Evicts(later[i]) == Some(a) {
      var i :| 0 <= i < |trace| && Evicts(trace[i]) == Some(a);
      assert later[i] == trace[i];
    }
  }

  lemma LoggedGrows(revoked: seq<Addr>, trace: seq<Event>, e: Event)
    requires Logged(revoked, trace) && Evicts(e).Some?
    ensures Logged(revoked + [Evicts(e).value], trace + [e])
  {
    LoggedLater(revoked, trace, trace + [e]);
    assert (trace + [e])[|trace|] == e;
  }

  /** A log that begins with the reads its entries come from, and then only does what they sanction. */
  ghost predicate FollowsReads(may: Target, read: seq<Event>, entries: seq<Entry>, trace: seq<Event>) {
    && read <= trace && (forall k :: 0 <= k < |read| ==> IsRead(read[k]))
    && Witnessed(may, entries, read) && Sanctioned(entries, trace)
  }

  lemma RemovalIsAckedWhereSeen(
      may: Target, read: seq<Event>, entries: seq<Entry>, trace: seq<Event>, i: nat)
    requires FollowsReads(may, read, entries, trace) && i < |trace| && trace[i].Removed?
    ensures AckedWhereSeen(may, trace, i)
  {
    assert AckCovers(entries, trace, i);
    var j :| 0 <= j < i && trace[j].Acked? && trace[i].addr in Processed(trace[j])
      && DockedAt(entries, trace[i].addr, trace[j].node);
    var e :| e in entries && e.addr == trace[i].addr && e.dock == Some(trace[j].node) && !e.isNode;
    assert SeenAs(may, read, e);
    var k :| 0 <= k < |read| && read[k].Seen? && e == EntryFrom(read[k].addr, read[k].actor, read[k].dock)
      && may(read[k].addr, read[k].actor);
    assert forall n :: 0 <= n < |read| ==> trace[n] == read[n] && IsRead(trace[n]);
  }

  lemma DisconnectIsOfSeenNode(
      may: Target, read: seq<Event>, entries: seq<Entry>, trace: seq<Event>, i: nat)
    requires FollowsReads(may, read, entries, trace) && i < |trace| && trace[i].Disconnected?
    ensures SeenAsNode(may, trace, i)
  {
    var e :| e in entries && e.isNode && e.addr == trace[i].node;
    assert SeenAs(may, read, e);
    var k :| 0 <= k < |read| && read[k].Seen? && e == EntryFrom(read[k].addr, read[k].actor, read[k].dock)
      && may(read[k].addr, read[k].actor);
    assert forall n :: 0 <= n < |read| ==> trace[n] == read[n] && IsRead(trace[n]);
  }

  /** Whoever was put out had been seen as an actor the sweep may touch, and adapters were acknowledged. */
  ghost predicate Justified(may: Target, trace: seq<Event>) {
    && (forall i :: 0 <= i < |trace| && trace[i].Removed? ==> AckedWhereSeen(may, trace, i))
    && (forall i :: 0 <= i < |trace| && trace[i].Disconnected? ==> SeenAsNode(may, trace, i))
  }

  lemma ReadsJustify(may: Target, read: seq<Event>, entries: seq<Entry>, trace: seq<Event>)
    requires FollowsReads(may, read, entries, trace)
    ensures Justified(may, trace)
  {
    forall i | 0 <= i < |trace| && trace[i].Removed? ensures AckedWhereSeen(may, trace, i) {
      RemovalIsAckedWhereSeen(may, read, entries, trace, i);
    }
    forall i | 0 <= i < |trace| && trace[i].Disconnected? ensures SeenAsNode(may, trace, i) {
      DisconnectIsOfSeenNode(may, read, entries, trace, i);
    }
  }

  // ---------------------------------------------------------- removing in quiet times

  /** Every adapter but the visa service is docked, and its node's set knows it. */
  ghost predicate Docked(m: Mgr) {
    forall a :: a in m.store.actors && !m.store.actors[a].IsNode() && !Exempt(a, m.store.actors[a]) ==>
      a != VS_ZPR_ADDR && m.store.actors[a].zprAddr == Some(a) && a in m.table && a in Conns(m.store, m.table[a])
  }

  /** Only removals happened. */
  ghost predicate Shrunk(before: Mgr, after: Mgr) {
    && (forall a :: a in after.store.actors ==>
          a in before.store.actors && after.store.actors[a] == before.store.actors[a])
    && (forall a :: a in after.table ==> a in before.table && after.table[a] == before.table[a])
  }

  lemma ShrunkTransitive(a: Mgr, b: Mgr, c: Mgr)
    requires Shrunk(a, b) && Shrunk(b, c)
    ensures Shrunk(a, c)
  {}

  lemma RemoveActorKeepsDocked(m: Mgr, x: Addr)
    requires Docked(m)
    ensures Docked(RemoveActor(m, x)) && Shrunk(m, RemoveActor(m, x)) && x !in RemoveActor(m, x).store.actors
    ensures forall a :: a != x ==> (a in m.store.actors <==> a in RemoveActor(m, x).store.actors)
  {}

  lemma RemoveNodeKeepsDocked(m: Mgr, n: Addr)
    requires Docked(m)
    requires forall a :: a in Conns(m.store, n) && a != VS_ZPR_ADDR ==> a !in m.store.actors
    ensures Docked(RemoveNode(m, n)) && Shrunk(m, RemoveNode(m, n))
    ensures forall a :: a in m.store.actors <==> a in RemoveNode(m, n).store.actors
    ensures forall a :: a in RemoveNode(m, n).table ==> RemoveNode(m, n).table[a] != n
  {}

  /** No node is on record as docked at another. */
  ghost predicate NodesUndocked(m: Mgr) {
    forall n, a :: a in Conns(m.store, n) && a in m.store.actors ==> !m.store.actors[a].IsNode()
  }

  /** Except at some nodes, sets have lost only adapters that are gone. */
  ghost predicate ConnsKept(start: Mgr, m: Mgr, except: set<Addr>) {
    forall n :: n !in except ==>
      && Conns(m.store, n) <= Conns(start.store, n)
      && forall a :: a in Conns(start.store, n) && a in m.store.actors ==> a in Conns(m.store, n)
  }

  /** What disconnecting a node takes away: its record, and its adapters' except the visa service's. */
  ghost predicate Cascaded(start: Mgr, m: Mgr, n: Addr) {
    && m.store.actors == start.store.actors - {n} - (Conns(start.store, n) - {VS_ZPR_ADDR})
    && ConnsKept(start, m, {n})
  }

  // ------------------------------------------------------------------- the assembly

  datatype Loaded = Found(actor: Actor) | Missing | LoadFailed

  datatype Revoked = Acknowledged(processed: nat) | NotAcknowledged

  class Assembly {
    const calm: bool
    var m: Mgr
    var obligations: map<nat, Time>
    ghost var trace: seq<Event>

    constructor (calm: bool, m: Mgr, obligations: map<nat, Time>)
      ensures this.calm == calm && this.m == m && this.obligations == obligations && trace == []
    {
      this.calm, this.m, this.obligations, trace := calm, m, obligations, [];
    }

    /** Whatever else runs while a call is awaited. */
    method Await()
      modifies this`m, this`obligations
      ensures calm ==> m == old(m) && obligations == old(obligations)
    {
      if !calm { m, obligations := *, *; }
    }

    method Load(a: Addr) returns (r: Loaded)
      modifies this`m, this`obligations
      ensures r.Found? ==> a in m.store.actors && r.actor == m.store.actors[a]
      ensures r.Missing? ==> a !in m.store.actors
      ensures calm ==> m == old(m) && obligations == old(obligations) && !r.LoadFailed?
    {
      Await();
      var fault: bool := *;
      if fault && !calm { return LoadFailed; }
      return if a in m.store.actors then Found(m.store.actors[a]) else Missing;
    }

    /** A listing that succeeds is the state at that moment. */
    method ListActors(adaptersOnly: bool) returns (ok: bool, listed: seq<Addr>)
      modifies this`m, this`obligations
      ensures calm ==> ok && m == old(m) && obligations == old(obligations)
      ensures ok ==> forall a :: a in listed <==>
                a in m.store.actors && (adaptersOnly ==> !m.store.actors[a].IsNode())
    {
      Await();
      ok, listed := true, [];
      if !calm { ok := *; }
      var todo := m.store.actors.Keys;
      while todo != {}
        invariant todo <= m.store.actors.Keys
        invariant forall a :: a in listed <==>
          a in m.store.actors.Keys - todo && (adaptersOnly ==> !m.store.actors[a].IsNode())
        decreases |todo|
      {
        var a :| a in todo;
        if !adaptersOnly || !m.store.actors[a].IsNode() { listed := listed + [a]; }
        todo := todo - {a};
      }
    }

    method ListObligations() returns (ok: bool, obs: seq<Obligation>)
      modifies this
      ensures calm ==> ok && m == old(m) && obligations == old(obligations)
      ensures ok ==> forall ob :: ob in obs <==> ob.vinst in obligations && obligations[ob.vinst] == ob.deadline
      ensures ok ==> trace == old(trace) + [Listed(obs)]
      ensures !ok ==> trace == old(trace)
    {
      Await();
      ok, obs := true, [];
      if !calm { ok := *; }
      var todo := obligations.Keys;
      while todo != {}
        invariant todo <= obligations.Keys
        invariant forall ob :: ob in obs <==>
          ob.vinst in obligations.Keys - todo && obligations[ob.vinst] == ob.deadline
        invariant trace == old(trace)
        decreases |todo|
      {
        var v :| v in todo;
        obs := obs + [Obligation(v, obligations[v])];
        todo := todo - {v};
      }
      if ok { trace := trace + [Listed(obs)]; }
    }

    /** Load an actor and look up where it is docked. */
    method See(a: Addr) returns (r: Loaded, dock: Option<Addr>)
      modifies this
      ensures r.Found? ==> a in m.store.actors && r.actor == m.store.actors[a] && dock == DockForActor(m.table, r.actor)
      ensures r.Missing? ==> a !in m.store.actors
      ensures r.Found? ==> trace == old(trace) + [Seen(a, r.actor, dock)]
      ensures !r.Found? ==> trace == old(trace)
      ensures calm ==> m == old(m) && obligations == old(obligations) && !r.LoadFailed?
    {
      r := Load(a);
      dock := None;
      if r.Found? {
        dock := DockForActor(m.table, r.actor);
        trace := trace + [Seen(a, r.actor, dock)];
      }
    }

    /** Re-load and re-check just before acting. */
    method Recheck(a: Addr) returns (r: Loaded)
      modifies this
      ensures r.Found? ==> a in m.store.actors && r.actor == m.store.actors[a]
      ensures r.Missing? ==> a !in m.store.actors
      ensures r.Found? ==> trace == old(trace) + [Rechecked(a, ActorVinst(r.actor))]
      ensures !r.Found? ==> trace == old(trace)
      ensures calm ==> m == old(m) && obligations == old(obligations) && !r.LoadFailed?
    {
      r := Load(a);
      if r.Found? { trace := trace + [Rechecked(a, ActorVinst(r.actor))]; }
    }

    /** Re-load an actor's authentication expiration just before acting on it. */
    method RereadExpiry(a: Addr) returns (r: Loaded)
      modifies this
      ensures r.Found? ==> a in m.store.actors && r.actor == m.store.actors[a]
      ensures r.Missing? ==> a !in m.store.actors
      ensures r.Found? ==> trace == old(trace) + [ExpiryRead(a, AuthExpiration(r.actor))]
      ensures !r.Found? ==> trace == old(trace)
      ensures calm ==> m == old(m) && !r.LoadFailed?
    {
      r := Load(a);
      if r.Found? { trace := trace + [ExpiryRead(a, AuthExpiration(r.actor))]; }
    }

    /** A handle may be missing, the call may fail, or only a prefix may be processed. */
    method RevokeAuths(node: Addr, batch: seq<Addr>) returns (r: Revoked)
      modifies this
      ensures r.Acknowledged? ==> trace == old(trace) + [Acked(node, batch, r.processed)]
      ensures r.NotAcknowledged? ==> trace == old(trace)
      ensures calm ==> m == old(m) && obligations == old(obligations) && r == Acknowledged(|batch|)
    {
      Await();
      r := Acknowledged(|batch|);
      if !calm { r := *; }
      if r.Acknowledged? { trace := trace + [Acked(node, batch, r.processed)]; }
    }

    method Remove(a: Addr) returns (ok: bool)
      modifies this
      ensures trace == old(trace) + [Removed(a)]
      ensures calm ==> ok && m == RemoveActor(old(m), a) && obligations == old(obligations)
    {
      Await();
      ok := true;
      if !calm { ok := *; }
      if ok { m := RemoveActor(m, a); }
      trace := trace + [Removed(a)];
    }

    /** `cc.disconnect` of a node: its record, its docked adapters but the visa service, its state. */
    method Disconnect(n: Addr) returns (ok: bool)
      modifies this
      ensures ok ==> trace == old(trace) + [Disconnected(n)]
      ensures !ok ==> trace == old(trace)
      ensures calm ==> ok && obligations == old(obligations)
      ensures calm && Docked(old(m)) && n in old(m).store.actors && old(m).store.actors[n].IsNode() ==>
        && Docked(m) && Shrunk(old(m), m) && n !in m.store.actors
        && forall a :: a in m.table ==> m.table[a] != n
      ensures calm && !(n in old(m).store.actors && old(m).store.actors[n].IsNode()) ==> m == RemoveActor(old(m), n)
      ensures calm && n in old(m).store.actors && old(m).store.actors[n].IsNode() ==> Cascaded(old(m), m, n)
    {
      if !calm {
        Await();
        ok := *;
      } else {
        ok := true;
        m := Cascade(m, n);
      }
      if ok { trace := trace + [Disconnected(n)]; }
    }

    static method Cascade(start: Mgr, n: Addr) returns (m: Mgr)
      ensures Docked(start) && n in start.store.actors && start.store.actors[n].IsNode() ==>
        && Docked(m) && Shrunk(start, m) && n !in m.store.actors
        && forall a :: a in m.table ==> m.table[a] != n
      ensures !(n in start.store.actors && start.store.actors[n].IsNode()) ==> m == RemoveActor(start, n)
      ensures n in start.store.actors && start.store.actors[n].IsNode() ==> Cascaded(start, m, n)
    {
      m := RemoveActor(start, n);
      if n in start.store.actors && start.store.actors[n].IsNode() {
        var todo := Conns(m.store, n) - {VS_ZPR_ADDR};
        CascadeBegins(start, n);
        if Docked(start) { RemoveActorKeepsDocked(start, n); }
        while todo != {}
          invariant Docked(start) ==> TearingDown(start, m, n, todo)
          invariant Cascading(start, m, n, todo)
          decreases |todo|
        {
          var a :| a in todo;
          if Docked(start) { TearDownOne(start, m, n, todo, a); }
          CascadeOne(start, m, n, todo, a);
          m := RemoveActor(m, a);
          todo := todo - {a};
        }
        if Docked(start) { RemoveNodeKeepsDocked(m, n); }
        CascadeEnds(start, m, n);
        m := RemoveNode(m, n);
      }
    }
  }

  /** Partway through a cascade: exactly the node and the adapters done with are gone. */
  ghost predicate Cascading(start: Mgr, m: Mgr, n: Addr, todo: set<Addr>) {
    && todo <= Conns(start.store, n) - {VS_ZPR_ADDR}
    && m.store.actors == start.store.actors - {n} - (Conns(start.store, n) - {VS_ZPR_ADDR} - todo)
    && ConnsKept(start, m, {})
  }

  lemma CascadeBegins(start: Mgr, n: Addr)
    ensures Cascading(start, RemoveActor(start, n), n, Conns(RemoveActor(start, n).store, n) - {VS_ZPR_ADDR})
  {}

  lemma CascadeOne(start: Mgr, m: Mgr, n: Addr, todo: set<Addr>, x: Addr)
    requires Cascading(start, m, n, todo) && x in todo
    ensures Cascading(start, RemoveActor(m, x), n, todo - {x})
  {}

  lemma CascadeEnds(start: Mgr, m: Mgr, n: Addr)
    requires Cascading(start, m, n, {})
    ensures Cascaded(start, RemoveNode(m, n), n)
  {}

  /** Partway through a cascade: whoever is left in the node's set is still to be removed. */
  ghost predicate TearingDown(start: Mgr, m: Mgr, n: Addr, todo: set<Addr>) {
    && Docked(m) && Shrunk(start, m) && n !in m.store.actors
    && forall a :: a in Conns(m.store, n) && a != VS_ZPR_ADDR && a in m.store.actors ==> a in todo
  }

  lemma TearDownOne(start: Mgr, m: Mgr, n: Addr, todo: set<Addr>, x: Addr)
    requires TearingDown(start, m, n, todo)
    ensures TearingDown(start, RemoveActor(m, x), n, todo - {x})
  {
    RemoveActorKeepsDocked(m, x);
    var m' := RemoveActor(m, x);
    assert Conns(m'.store, n) <= Conns(m.store, n);
  }
}
