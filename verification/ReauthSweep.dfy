/**
 The re-authentication sweep (`sweep_reauth_obligations`, vs/src/auth_sweep.rs): prune met
 obligations, then revoke whoever is below the highest overdue generation.
 */
module ReauthSweep {
  import opened Text
  import opened Attributes
  import opened Actors
  import opened Docking
  import opened Sweeps
  import opened Teardown

  datatype Stats = Stats(obligations: nat, pruned: nat, revoked: nat, deferred: nat)

  // ----------------------------------------------------------------------- snapshot

  function NotExempt(): Target { (a: Addr, actor: Actor) => !Exempt(a, actor) }

  predicate Swept(m: Mgr, a: Addr) { a in m.store.actors && !Exempt(a, m.store.actors[a]) }

  /** The snapshot holds every connected actor that is not exempt, as it is. */
  ghost predicate Pictures(m: Mgr, entries: seq<Entry>) {
    && (forall a :: Swept(m, a) ==> EntryOf(m, a) in entries)
    && (forall e :: e in entries ==> Swept(m, e.addr) && e == EntryOf(m, e.addr))
  }

  method Snapshot(asm: Assembly, listed: seq<Addr>) returns (entries: seq<Entry>)
    requires forall k :: 0 <= k < |asm.trace| ==> IsRead(asm.trace[k])
    modifies asm
    ensures old(asm.trace) <= asm.trace && forall k :: 0 <= k < |asm.trace| ==> IsRead(asm.trace[k])
    ensures Witnessed(NotExempt(), entries, asm.trace) && |entries| <= CountSeen(asm.trace)
    ensures asm.calm ==> asm.m == old(asm.m) && asm.obligations == old(asm.obligations)
    ensures asm.calm && (forall a :: a in listed <==> a in asm.m.store.actors) ==> Pictures(asm.m, entries)
  {
    entries := [];
    for i := 0 to |listed|
      invariant old(asm.trace) <= asm.trace && forall k :: 0 <= k < |asm.trace| ==> IsRead(asm.trace[k])
      invariant Witnessed(NotExempt(), entries, asm.trace) && |entries| <= CountSeen(asm.trace)
      invariant asm.calm ==> asm.m == old(asm.m) && asm.obligations == old(asm.obligations)
      invariant asm.calm ==> forall a :: a in listed[..i] && Swept(asm.m, a) ==> EntryOf(asm.m, a) in entries
      invariant asm.calm ==> forall e :: e in entries ==> Swept(asm.m, e.addr) && e == EntryOf(asm.m, e.addr)
    {
      var a := listed[i];
      assert listed[..i + 1] == listed[..i] + [a];
      ghost var before := asm.trace;
      var r, dock := asm.See(a);
      if r.Found? {
        CountSeenGrows(before, Seen(a, r.actor, dock));
        WitnessedGrows(NotExempt(), entries, before, Seen(a, r.actor, dock));
        if !Exempt(a, r.actor) { entries := entries + [EntryFrom(a, r.actor, dock)]; }
      }
    }
    assert listed[..|listed|] == listed;
  }

  // ------------------------------------------------------------------------ pruning

  predicate Met(entries: seq<Entry>, v: nat) { forall e :: e in entries ==> e.vinst >= v }

  /** Met obligations are downward closed: the newest generation satisfies all older ones. */
  lemma NewestSatisfiesOlder(entries: seq<Entry>, v: nat, older: nat)
    requires Met(entries, v) && older <= v
    ensures Met(entries, older)
  {}

  method RemoveObligation(asm: Assembly, v: nat) returns (ok: bool)
    modifies asm`m, asm`obligations
    ensures asm.calm ==> ok && asm.m == old(asm.m) && asm.obligations == old(asm.obligations) - {v}
  {
    asm.Await();
    ok := true;
    if !asm.calm { ok := *; }
    if ok { asm.obligations := asm.obligations - {v}; }
  }

  function MetAmong(entries: seq<Entry>, obs: seq<Obligation>): set<nat> {
    set ob | ob in obs && Met(entries, ob.vinst) :: ob.vinst
  }

  method PruneMet(asm: Assembly, obs: seq<Obligation>, entries: seq<Entry>)
    returns (unmet: seq<Obligation>, pruned: nat)
    modifies asm`m, asm`obligations
    ensures forall ob :: ob in unmet <==> ob in obs && !Met(entries, ob.vinst)
    ensures pruned + |unmet| <= |obs|
    ensures asm.calm ==> asm.m == old(asm.m) && asm.obligations == old(asm.obligations) - MetAmong(entries, obs)
    ensures asm.calm ==> pruned + |unmet| == |obs|
  {
    unmet, pruned := [], 0;
    assert old(asm.obligations) - {} == old(asm.obligations);
    for i := 0 to |obs|
      invariant forall ob :: ob in unmet <==> ob in obs[..i] && !Met(entries, ob.vinst)
      invariant pruned + |unmet| <= i && (asm.calm ==> pruned + |unmet| == i)
      invariant asm.calm ==> asm.m == old(asm.m)
      invariant asm.calm ==> asm.obligations == old(asm.obligations) - MetAmong(entries, obs[..i])
    {
      assert obs[..i + 1] == obs[..i] + [obs[i]];
      if Met(entries, obs[i].vinst) {
        var ok := RemoveObligation(asm, obs[i].vinst);
        if ok { pruned := pruned + 1; }
        assert MetAmong(entries, obs[..i + 1]) == MetAmong(entries, obs[..i]) + {obs[i].vinst};
      } else {
        unmet := unmet + [obs[i]];
        assert MetAmong(entries, obs[..i + 1]) == MetAmong(entries, obs[..i]);
      }
    }
    assert obs[..|obs|] == obs;
  }

  // -------------------------------------------------------------------------- nodes

  /** The evictions logged so far respect the snapshot, the ack and the re-check. */
  ghost predicate Lawful(entries: seq<Entry>, trace: seq<Event>, required: nat) {
    Sanctioned(entries, trace) && RemovalsRechecked(trace, required)
  }

  lemma LawfulGrows(entries: seq<Entry>, trace: seq<Event>, e: Event, required: nat)
    requires Lawful(entries, trace, required) && !e.Removed?
    requires e.Disconnected? ==> JustRechecked(trace, e.node, required) && IsNodeEntry(entries, e.node)
    ensures Lawful(entries, trace + [e], required)
  {
    SanctionedGrows(entries, trace, e);
    RechecksGrow(trace, e, required);
  }

  /** The entries below a generation. */
  function LateEntries(entries: seq<Entry>, required: nat): (r: seq<Entry>)
    ensures forall e :: e in r <==> e in entries && e.vinst < required
    ensures |r| <= |entries|
  {
    if entries == [] then []
    else
      var init, last := LateEntries(entries[..|entries| - 1], required), entries[|entries| - 1];
      assert entries == entries[..|entries| - 1] + [last];
      if last.vinst < required then init + [last] else init
  }

  /** Entries of actors still in the store still picture them. */
  ghost predicate StillPictured(m: Mgr, entries: seq<Entry>) {
    forall e :: e in entries && e.addr in m.store.actors ==>
      && ActorVinst(m.store.actors[e.addr]) == e.vinst && m.store.actors[e.addr].IsNode() == e.isNode
      && !Exempt(e.addr, m.store.actors[e.addr])
  }

  lemma ShrunkStillPictured(before: Mgr, after: Mgr, entries: seq<Entry>)
    requires StillPictured(before, entries) && Shrunk(before, after)
    ensures StillPictured(after, entries)
  {}

  /** In quiet times the store only shrinks, stays docked, and no adapter is left on a lost node. */
  ghost predicate Quiet(start: Mgr, m: Mgr, gone: seq<Addr>) {
    Docked(m) && Shrunk(start, m) && forall a :: a in m.table ==> m.table[a] !in gone
  }

  /** The entry is the actor as it is in the store. */
  predicate Depicts(m: Mgr, e: Entry) { e.addr in m.store.actors && e == EntryOf(m, e.addr) }

  /** One late node: re-check it, then disconnect it with its adapters. */
  method DisconnectNode(
      asm: Assembly, ghost late: seq<Entry>, e: Entry, required: nat, ghost start: Mgr, ghost nodes: set<Addr>)
    returns (gone: bool, deferred: bool)
    requires e in late && e.isNode && e.vinst < required && Lawful(late, asm.trace, required)
    modifies asm
    ensures Lawful(late, asm.trace, required) && old(asm.trace) <= asm.trace && !(gone && deferred)
    ensures asm.calm ==> asm.obligations == old(asm.obligations)
    ensures asm.calm && Docked(old(asm.m)) && StillPictured(old(asm.m), late) ==>
      && Docked(asm.m) && Shrunk(old(asm.m), asm.m) && e.addr !in asm.m.store.actors
      && (gone ==> forall a :: a in asm.m.table ==> asm.m.table[a] != e.addr)
    ensures asm.calm && NodesUndocked(start) && Depicts(start, e) && TornDown(start, old(asm.m), nodes) ==>
      TornDown(start, asm.m, nodes + {e.addr}) && (gone || e.addr in nodes)
  {
    gone, deferred := false, false;
    ghost var torn := asm.calm && NodesUndocked(start) && Depicts(start, e) && TornDown(start, asm.m, nodes);
    var r := asm.Recheck(e.addr);
    if r.Found? {
      LawfulGrows(late, old(asm.trace), Rechecked(e.addr, ActorVinst(r.actor)), required);
    }
    if torn { assert e.addr !in OnNodes(start, nodes); }
    match r {
      case Missing =>
        if torn { TearDownNode(start, asm.m, nodes, asm.m, e.addr); }
        return;
      case LoadFailed => deferred := true; return;
      case Found(actor) =>
        if ActorVinst(actor) >= required { return; }
    }
    ghost var before, m := asm.trace, asm.m;
    gone := asm.Disconnect(e.addr);
    if gone { LawfulGrows(late, before, Disconnected(e.addr), required); }
    if torn { TearDownNode(start, m, nodes, asm.m, e.addr); }
    deferred := !gone;
  }

  /** How far the nodes have got, when nothing else happens. */
  ghost predicate NodesDone(start: Mgr, m: Mgr, late: seq<Entry>, gone: seq<Addr>, nodes: set<Addr>) {
    && (Docked(start) && StillPictured(start, late) ==>
          Quiet(start, m, gone) && StillPictured(m, late) && nodes !! m.store.actors.Keys)
    && (NodesUndocked(start) && AllDepicted(start, late) ==> TornDown(start, m, nodes) && Members(gone) == nodes)
  }

  ghost predicate AllDepicted(m: Mgr, entries: seq<Entry>) { forall e :: e in entries ==> Depicts(m, e) }

  lemma NodesDoneGrows(
      start: Mgr, before: Mgr, m: Mgr, late: seq<Entry>, gone: seq<Addr>, nodes: set<Addr>, n: Addr, lost: bool)
    requires NodesDone(start, before, late, gone, nodes)
    requires Docked(before) && StillPictured(before, late) ==>
      && Docked(m) && Shrunk(before, m) && n !in m.store.actors
      && (lost ==> forall a :: a in m.table ==> m.table[a] != n)
    requires NodesUndocked(start) && AllDepicted(start, late) ==>
      TornDown(start, m, nodes + {n}) && (lost || n in nodes)
    ensures NodesDone(start, m, late, if lost then gone + [n] else gone, nodes + {n})
  {
    MembersAppend(gone, n);
    if Docked(start) && StillPictured(start, late) {
      ShrunkTransitive(start, before, m);
      ShrunkStillPictured(before, m, late);
    }
    if !lost && n in nodes { assert nodes + {n} == nodes; }
  }

  method VisitNode(
      asm: Assembly, ghost late: seq<Entry>, e: Entry, required: nat,
      ghost start: Mgr, ghost gone: seq<Addr>, ghost nodes: set<Addr>)
    returns (lost: bool, deferred: bool)
    requires e in late && e.isNode && e.vinst < required && Lawful(late, asm.trace, required)
    requires asm.calm ==> NodesDone(start, asm.m, late, gone, nodes)
    modifies asm
    ensures Lawful(late, asm.trace, required) && old(asm.trace) <= asm.trace && !(lost && deferred)
    ensures asm.calm ==> asm.obligations == old(asm.obligations)
    ensures asm.calm ==> NodesDone(start, asm.m, late, if lost then gone + [e.addr] else gone, nodes + {e.addr})
  {
    lost, deferred := DisconnectNode(asm, late, e, required, start, nodes);
    if asm.calm { NodesDoneGrows(start, old(asm.m), asm.m, late, gone, nodes, e.addr, lost); }
  }

  method DisconnectNodes(asm: Assembly, late: seq<Entry>, required: nat) returns (gone: seq<Addr>, deferred: nat)
    requires Lawful(late, asm.trace, required) && forall e :: e in late ==> e.vinst < required
    modifies asm
    ensures Lawful(late, asm.trace, required) && old(asm.trace) <= asm.trace
    ensures |gone| + deferred <= CountNodes(late)
    ensures asm.calm ==> asm.obligations == old(asm.obligations)
    ensures asm.calm ==> NodesDone(old(asm.m), asm.m, late, gone, NodesOf(late))
  {
    gone, deferred := [], 0;
    NothingDone(asm.m, late);
    ghost var nodes: set<Addr> := {};
    for i := 0 to |late|
      invariant Lawful(late, asm.trace, required) && old(asm.trace) <= asm.trace
      invariant |gone| + deferred <= CountNodes(late[..i])
      invariant asm.calm ==> asm.obligations == old(asm.obligations)
      invariant nodes == NodesOf(late[..i])
      invariant asm.calm ==> NodesDone(old(asm.m), asm.m, late, gone, nodes)
    {
      var e := late[i];
      NodesOfGrows(late, i);
      assert late[..i + 1][..i] == late[..i];
      if e.isNode {
        var lost, put := VisitNode(asm, late, e, required, old(asm.m), gone, nodes);
        nodes := nodes + {e.addr};
        if lost { gone := gone + [e.addr]; }
        if put { deferred := deferred + 1; }
      }
    }
    assert late[..|late|] == late;
  }

  lemma NothingDone(m: Mgr, late: seq<Entry>)
    ensures NodesDone(m, m, late, [], {})
  {
    assert OnNodes(m, {}) == {};
  }

  // ------------------------------------------------------------------------ adapters

  /** One acknowledged adapter: re-check it, then remove it. */
  method RemoveAdapter(asm: Assembly, ghost late: seq<Entry>, a: Addr, required: nat, ghost ack: nat)
    returns (revoked: bool, deferred: bool)
    requires Lawful(late, asm.trace, required)
    requires ack < |asm.trace| && asm.trace[ack].Acked? && a in Processed(asm.trace[ack])
    requires DockedAt(late, a, asm.trace[ack].node)
    modifies asm
    ensures Lawful(late, asm.trace, required) && old(asm.trace) <= asm.trace && !(revoked && deferred)
    ensures asm.calm ==> asm.obligations == old(asm.obligations)
    ensures asm.calm && BelowIn(old(asm.m), a, required) ==> asm.m.store.actors == old(asm.m).store.actors - {a}
    ensures asm.calm && !BelowIn(old(asm.m), a, required) ==> asm.m.store.actors == old(asm.m).store.actors
    ensures asm.calm && Docked(old(asm.m)) ==> Docked(asm.m) && Shrunk(old(asm.m), asm.m)
  {
    revoked, deferred := false, false;
    var r := asm.Recheck(a);
    if r.Found? {
      LawfulGrows(late, old(asm.trace), Rechecked(a, ActorVinst(r.actor)), required);
    }
    match r {
      case Missing => return;
      case LoadFailed => deferred := true; return;
      case Found(actor) =>
        if ActorVinst(actor) >= required { return; }
    }
    ghost var before := asm.trace;
    assert before[ack] == old(asm.trace)[ack];
    if Docked(asm.m) { RemoveActorKeepsDocked(asm.m, a); }
    SanctionedGrows(late, before, Removed(a));
    RechecksGrow(before, Removed(a), required);
    revoked := asm.Remove(a);
  }

  predicate BelowIn(m: Mgr, a: Addr, required: nat) {
    a in m.store.actors && ActorVinst(m.store.actors[a]) < required
  }

  /** Whoever of these is in the store is below the generation. */
  ghost predicate AllBelow(m: Mgr, items: set<Addr>, required: nat) {
    forall a :: a in items && a in m.store.actors ==> BelowIn(m, a, required)
  }

  /** Every adapter an acknowledgement covers. */
  method RemoveProcessed(asm: Assembly, ghost late: seq<Entry>, items: seq<Addr>, required: nat, ghost ack: nat)
    returns (revoked: nat, deferred: nat)
    requires Lawful(late, asm.trace, required)
    requires ack < |asm.trace| && asm.trace[ack].Acked?
    requires forall a :: a in items ==> a in Processed(asm.trace[ack]) && DockedAt(late, a, asm.trace[ack].node)
    modifies asm
    ensures Lawful(late, asm.trace, required) && old(asm.trace) <= asm.trace && revoked + deferred <= |items|
    ensures asm.calm ==> asm.obligations == old(asm.obligations)
    ensures asm.calm && Docked(old(asm.m)) ==> Docked(asm.m) && Shrunk(old(asm.m), asm.m)
    ensures asm.calm && AllBelow(old(asm.m), Members(items), required) ==>
      asm.m.store.actors == old(asm.m).store.actors - Members(items)
  {
    revoked, deferred := 0, 0;
    ghost var quiet := asm.calm && Docked(asm.m);
    ghost var exact := asm.calm && AllBelow(asm.m, Members(items), required);
    for i := 0 to |items|
      invariant Lawful(late, asm.trace, required) && old(asm.trace) <= asm.trace && revoked + deferred <= i
      invariant asm.calm ==> asm.obligations == old(asm.obligations)
      invariant quiet ==> Docked(asm.m) && Shrunk(old(asm.m), asm.m)
      invariant exact ==> asm.m.store.actors == old(asm.m).store.actors - Members(items[..i])
    {
      ghost var before := asm.m;
      MembersGrow(items, i);
      assert items[i] in Members(items);
      var gone, put := RemoveAdapter(asm, late, items[i], required, ack);
      if quiet { ShrunkTransitive(old(asm.m), before, asm.m); }
      if gone { revoked := revoked + 1; }
      if put { deferred := deferred + 1; }
    }
    assert items[..|items|] == items;
  }

  /** One node's batch: one revocation call, then only the processed prefix is removed. */
  method RevokeBatch(asm: Assembly, ghost late: seq<Entry>, b: Batch<Addr>, required: nat)
    returns (revoked: nat, deferred: nat)
    requires Lawful(late, asm.trace, required) && forall a :: a in b.items ==> DockedAt(late, a, b.node)
    modifies asm
    ensures Lawful(late, asm.trace, required) && old(asm.trace) <= asm.trace && revoked + deferred <= |b.items|
    ensures asm.calm ==> asm.obligations == old(asm.obligations)
    ensures asm.calm && Docked(old(asm.m)) ==> Docked(asm.m) && Shrunk(old(asm.m), asm.m)
    ensures asm.calm && AllBelow(old(asm.m), Members(b.items), required) ==>
      asm.m.store.actors == old(asm.m).store.actors - Members(b.items)
  {
    var r := asm.RevokeAuths(b.node, b.items);
    if r.NotAcknowledged? { return 0, |b.items|; }
    LawfulGrows(late, old(asm.trace), Acked(b.node, b.items, r.processed), required);
    var prefix := if r.processed < |b.items| then b.items[..r.processed] else b.items;
    assert prefix == Processed(asm.trace[|old(asm.trace)|]);
    revoked, deferred := RemoveProcessed(asm, late, prefix, required, |old(asm.trace)|);
    deferred := deferred + (|b.items| - |prefix|);
    if asm.calm { assert prefix == b.items; }
  }

  method RevokeBatches(asm: Assembly, ghost late: seq<Entry>, bs: seq<Batch<Addr>>, required: nat)
    returns (revoked: nat, deferred: nat)
    requires Lawful(late, asm.trace, required) && forall n, a :: InBatch(bs, n, a) ==> DockedAt(late, a, n)
    modifies asm
    ensures Lawful(late, asm.trace, required) && old(asm.trace) <= asm.trace && revoked + deferred <= Enlisted(bs)
    ensures asm.calm ==> asm.obligations == old(asm.obligations)
    ensures asm.calm && Docked(old(asm.m)) ==> Docked(asm.m) && Shrunk(old(asm.m), asm.m)
    ensures asm.calm && AllBelow(old(asm.m), Batched(bs), required) ==>
      asm.m.store.actors == old(asm.m).store.actors - Batched(bs)
  {
    revoked, deferred := 0, 0;
    ghost var quiet := asm.calm && Docked(asm.m);
    ghost var exact := asm.calm && AllBelow(asm.m, Batched(bs), required);
    for i := 0 to |bs|
      invariant Lawful(late, asm.trace, required) && old(asm.trace) <= asm.trace
      invariant revoked + deferred <= Enlisted(bs[..i])
      invariant asm.calm ==> asm.obligations == old(asm.obligations)
      invariant quiet ==> Docked(asm.m) && Shrunk(old(asm.m), asm.m)
      invariant exact ==> asm.m.store.actors == old(asm.m).store.actors - Batched(bs[..i])
    {
      assert bs[..i + 1][..i] == bs[..i];
      forall a | a in bs[i].items ensures DockedAt(late, a, bs[i].node) && a in Batched(bs) {
        assert InBatch(bs, bs[i].node, a);
        BatchedMeans(bs, a);
      }
      ghost var before := asm.m;
      var x, y := RevokeBatch(asm, late, bs[i], required);
      if quiet { ShrunkTransitive(old(asm.m), before, asm.m); }
      revoked, deferred := revoked + x, deferred + y;
    }
    assert bs[..|bs|] == bs;
  }

  // -------------------------------------------------------------------------- a pass

  /** Every actor that is not exempt has reached every obligation overdue by `now`. */
  ghost predicate Settled(m: Mgr, obligations: map<nat, Time>, now: Time) {
    forall a, v :: Swept(m, a) && v in obligations && Overdue(Obligation(v, obligations[v]), now) ==>
      ActorVinst(m.store.actors[a]) >= v
  }

  ghost predicate AllMeet(m: Mgr, v: nat) { forall a :: Swept(m, a) ==> ActorVinst(m.store.actors[a]) >= v }

  /** The actors a sweep at `now` is after: below some overdue obligation, and not exempt. */
  function Late(m: Mgr, obligations: map<nat, Time>, now: Time): set<Addr> {
    set a | a in m.store.actors && Swept(m, a)
      && exists v :: v in obligations && now > obligations[v] && ActorVinst(m.store.actors[a]) < v
  }

  function Below(m: Mgr, required: nat): set<Addr> {
    set a | a in m.store.actors && Swept(m, a) && ActorVinst(m.store.actors[a]) < required
  }

  lemma LateArePictured(m: Mgr, entries: seq<Entry>, required: nat)
    requires Pictures(m, entries)
    ensures PicturesMarked(m, LateEntries(entries, required), Below(m, required))
    ensures StillPictured(m, LateEntries(entries, required))
  {
    var late, marked := LateEntries(entries, required), Below(m, required);
    forall e ensures e in late <==> e.addr in marked && e.addr in m.store.actors && e == EntryOf(m, e.addr) {
      if e.addr in marked && e == EntryOf(m, e.addr) { assert e in entries; }
    }
  }

  /** Phase 1: nodes first, then adapters by docking node. */
  method RevokeOverdue(asm: Assembly, entries: seq<Entry>, required: nat) returns (revoked: nat, deferred: nat)
    requires Lawful(LateEntries(entries, required), asm.trace, required)
    modifies asm
    ensures Lawful(LateEntries(entries, required), asm.trace, required) && old(asm.trace) <= asm.trace
    ensures revoked + deferred <= |entries|
    ensures asm.calm ==> asm.obligations == old(asm.obligations)
    ensures asm.calm && Docked(old(asm.m)) && Pictures(old(asm.m), entries) ==>
      Docked(asm.m) && Shrunk(old(asm.m), asm.m) && AllMeet(asm.m, required)
    ensures asm.calm && NodesUndocked(old(asm.m)) && Pictures(old(asm.m), entries) ==>
      asm.m.store.actors == old(asm.m).store.actors - Doomed(old(asm.m), Below(old(asm.m), required))
  {
    var late := LateEntries(entries, required);
    EveryEntryCounts(late);
    if Pictures(asm.m, entries) { LateArePictured(asm.m, entries, required); }
    var gone, d1 := DisconnectNodes(asm, late, required);
    var bs, d2 := Group(late, gone);
    ghost var mid := asm.m;
    if asm.calm && Pictures(old(asm.m), entries) && (Docked(old(asm.m)) || NodesUndocked(old(asm.m))) {
      BatchedAreBelow(old(asm.m), mid, entries, gone, bs, required);
    }
    var r3, d3 := RevokeBatches(asm, late, bs, required);
    revoked, deferred := |gone| + r3, d1 + d2 + d3;
    if asm.calm && Pictures(old(asm.m), entries) {
      if Docked(old(asm.m)) { LeftAreMet(old(asm.m), mid, asm.m, entries, required, gone, bs); }
      if NodesUndocked(old(asm.m)) { RestIsDoomed(old(asm.m), mid, entries, required, gone, bs); }
    }
  }

  lemma RestIsDoomed(
      start: Mgr, mid: Mgr, entries: seq<Entry>, required: nat, gone: seq<Addr>, bs: seq<Batch<Addr>>)
    requires Pictures(start, entries) && NodesUndocked(start)
    requires NodesDone(start, mid, LateEntries(entries, required), gone, NodesOf(LateEntries(entries, required)))
    requires forall n, a :: InBatch(bs, n, a) <==> ToRevoke(LateEntries(entries, required), gone, n, a)
    ensures mid.store.actors - Batched(bs) == start.store.actors - Doomed(start, Below(start, required))
  {
    var late, marked := LateEntries(entries, required), Below(start, required);
    LateArePictured(start, entries, required);
    MarkedNodes(start, late, marked);
    MarkedAdapters(start, late, marked, gone, bs);
  }

  lemma BatchedAreBelow(
      start: Mgr, mid: Mgr, entries: seq<Entry>, gone: seq<Addr>, bs: seq<Batch<Addr>>, required: nat)
    requires Pictures(start, entries) && (Docked(start) || NodesUndocked(start))
    requires NodesDone(start, mid, LateEntries(entries, required), gone, NodesOf(LateEntries(entries, required)))
    requires forall n, a :: InBatch(bs, n, a) <==> ToRevoke(LateEntries(entries, required), gone, n, a)
    ensures AllBelow(mid, Batched(bs), required)
  {
    var late := LateEntries(entries, required);
    LateArePictured(start, entries, required);
    assert forall a :: a in mid.store.actors ==>
        a in start.store.actors && mid.store.actors[a] == start.store.actors[a];
    forall a | a in Batched(bs) && a in mid.store.actors ensures BelowIn(mid, a, required) {
      BatchedMeans(bs, a);
      var n :| InBatch(bs, n, a);
      assert ToRevoke(late, gone, n, a);
    }
  }

  lemma LeftAreMet(
      start: Mgr, mid: Mgr, end: Mgr, entries: seq<Entry>, required: nat, gone: seq<Addr>, bs: seq<Batch<Addr>>)
    requires Pictures(start, entries) && Docked(start) && Shrunk(mid, end) && Docked(end)
    requires NodesDone(start, mid, LateEntries(entries, required), gone, NodesOf(LateEntries(entries, required)))
    requires forall n, a :: InBatch(bs, n, a) <==> ToRevoke(LateEntries(entries, required), gone, n, a)
    requires Batched(bs) !! end.store.actors.Keys
    ensures Shrunk(start, end) && AllMeet(end, required)
  {
    var late := LateEntries(entries, required);
    LateArePictured(start, entries, required);
    ShrunkTransitive(start, mid, end);
    forall a | Swept(end, a) ensures ActorVinst(end.store.actors[a]) >= required {
      assert end.store.actors[a] == mid.store.actors[a] == start.store.actors[a];
      var e := EntryOf(start, a);
      assert Swept(start, a) && e in entries;
      if !e.isNode {
        assert a in end.table && mid.table[a] == end.table[a] == start.table[a];
        assert e in late ==> ToRevoke(late, gone, start.table[a], a);
        BatchedMeans(bs, a);
      }
    }
  }

  // ------------------------------------------------------ the law, over the log alone

  /** Before an eviction the stored generation was read, below an obligation the pass had listed as overdue. */
  predicate BelowListed(trace: seq<Event>, i: nat, now: Time)
    requires i < |trace| && Evicts(trace[i]).Some?
  {
    && i > 0 && trace[i - 1].Rechecked? && Evicts(trace[i]) == Some(trace[i - 1].addr)
    && exists j, ob :: 0 <= j < i && trace[j].Listed? && ob in trace[j].obs
         && Overdue(ob, now) && trace[i - 1].vinst < ob.vinst
  }

  ghost predicate EvictsOnlyLate(trace: seq<Event>, now: Time) {
    && Justified(NotExempt(), trace)
    && forall i :: 0 <= i < |trace| && Evicts(trace[i]).Some? ==> BelowListed(trace, i, now)
  }

  lemma ListingJustifies(
      read: seq<Event>, entries: seq<Entry>, trace: seq<Event>, obs: seq<Obligation>, unmet: seq<Obligation>, now: Time)
    requires |read| > 0 && read[0] == Listed(obs) && FollowsReads(NotExempt(), read, entries, trace)
    requires (forall ob :: ob in unmet ==> ob in obs) && HighestOverdue(unmet, now).Some?
    requires RemovalsRechecked(trace, HighestOverdue(unmet, now).value)
    ensures EvictsOnlyLate(trace, now)
  {
    ReadsJustify(NotExempt(), read, entries, trace);
    var required := HighestOverdue(unmet, now).value;
    assert trace[0] == Listed(obs);
    forall i | 0 <= i < |trace| && Evicts(trace[i]).Some? ensures BelowListed(trace, i, now) {
      assert JustRechecked(trace[..i], Evicts(trace[i]).value, required) && trace[..i][i - 1] == trace[i - 1];
      MaximumDecides(unmet, now, trace[i - 1].vinst);
      var ob :| ob in unmet && Overdue(ob, now) && trace[i - 1].vinst < ob.vinst;
      assert ob in trace[0].obs;
    }
  }

  /** Reading evicts nobody. */
  lemma ReadsAreLawful(entries: seq<Entry>, trace: seq<Event>, required: nat)
    requires forall k :: 0 <= k < |trace| ==> IsRead(trace[k])
    ensures Lawful(entries, trace, required)
  {}

  lemma ReadsEvictNobody(trace: seq<Event>, now: Time)
    requires forall k :: 0 <= k < |trace| ==> IsRead(trace[k])
    ensures EvictsOnlyLate(trace, now)
  {}

  /** The witnesses of a list are witnesses of its part. */
  lemma LateAreWitnessed(entries: seq<Entry>, trace: seq<Event>, required: nat)
    requires Witnessed(NotExempt(), entries, trace)
    ensures Witnessed(NotExempt(), LateEntries(entries, required), trace)
  {}

  /** Phase 1 for the obligations left unmet. */
  method Enforce(asm: Assembly, obs: seq<Obligation>, unmet: seq<Obligation>, entries: seq<Entry>, now: Time)
    returns (revoked: nat, deferred: nat)
    requires |asm.trace| > 0 && asm.trace[0] == Listed(obs) && forall ob :: ob in unmet ==> ob in obs
    requires forall k :: 0 <= k < |asm.trace| ==> IsRead(asm.trace[k])
    requires Witnessed(NotExempt(), entries, asm.trace) && |entries| <= CountSeen(asm.trace)
    modifies asm
    ensures EvictsOnlyLate(asm.trace, now) && revoked + deferred <= CountSeen(asm.trace)
    ensures asm.calm ==> asm.obligations == old(asm.obligations)
    ensures asm.calm && Docked(old(asm.m)) && Pictures(old(asm.m), entries) ==>
      && Docked(asm.m) && Shrunk(old(asm.m), asm.m)
      && (HighestOverdue(unmet, now).Some? ==> AllMeet(asm.m, HighestOverdue(unmet, now).value))
    ensures asm.calm && NodesUndocked(old(asm.m)) && Pictures(old(asm.m), entries) ==>
      asm.m.store.actors == old(asm.m).store.actors - Doomed(old(asm.m),
        if HighestOverdue(unmet, now).None? then {} else Below(old(asm.m), HighestOverdue(unmet, now).value))
  {
    revoked, deferred := 0, 0;
    var required := HighestOverdue(unmet, now);
    if required.None? {
      ReadsEvictNobody(asm.trace, now);
      NobodyIsDoomed(asm.m);
      return;
    }
    ghost var read := asm.trace;
    ReadsAreLawful(LateEntries(entries, required.value), read, required.value);
    LateAreWitnessed(entries, read, required.value);
    revoked, deferred := RevokeOverdue(asm, entries, required.value);
    CountSeenPrefix(read, asm.trace);
    ListingJustifies(read, LateEntries(entries, required.value), asm.trace, obs, unmet, now);
  }

  /** What a pass does to the store when nothing else happens. */
  ghost predicate PassDone(start: Mgr, obligations: map<nat, Time>, now: Time, m: Mgr, left: map<nat, Time>) {
    && (forall v :: v in left <==> v in obligations && !AllMeet(start, v))
    && (Docked(start) ==> Docked(m) && Shrunk(start, m) && Settled(m, obligations, now))
    && (NodesUndocked(start) ==>
          m.store.actors == start.store.actors - Doomed(start, Late(start, obligations, now)))
  }

  /**
   `sweep_reauth_obligations`. Whatever happens meanwhile, whoever goes had been seen, had just
   been re-checked below an obligation listed as overdue, and an adapter only after the node it
   was seen at acknowledged it. When nothing happens meanwhile, exactly the late nodes, their
   adapters and the other late adapters go, and exactly the obligations already met are pruned.
   */
  method SweepReauthObligations(asm: Assembly, now: Time) returns (stats: Stats)
    requires asm.trace == []
    modifies asm
    ensures EvictsOnlyLate(asm.trace, now)
    ensures stats.revoked + stats.deferred <= CountSeen(asm.trace) && stats.pruned <= stats.obligations
    ensures asm.calm ==> PassDone(old(asm.m), old(asm.obligations), now, asm.m, asm.obligations)
  {
    stats := Stats(0, 0, 0, 0);
    var ok, obs := asm.ListObligations();
    if !ok { return; }
    NothingListed(asm.m, asm.obligations, obs, now);
    if obs == [] { return; }
    stats := SweepListed(asm, obs, now);
  }

  /** The pass once there is something to enforce. */
  method SweepListed(asm: Assembly, obs: seq<Obligation>, now: Time) returns (stats: Stats)
    requires asm.trace == [Listed(obs)]
    requires asm.calm ==>
      forall ob :: ob in obs <==> ob.vinst in asm.obligations && asm.obligations[ob.vinst] == ob.deadline
    modifies asm
    ensures EvictsOnlyLate(asm.trace, now)
    ensures stats.revoked + stats.deferred <= CountSeen(asm.trace) && stats.pruned <= stats.obligations
    ensures asm.calm ==> PassDone(old(asm.m), old(asm.obligations), now, asm.m, asm.obligations)
  {
    stats := Stats(|obs|, 0, 0, 0);
    var ok, addrs := asm.ListActors(false);
    if !ok {
      ReadsEvictNobody(asm.trace, now);
      return;
    }
    var entries := Snapshot(asm, addrs);
    var unmet, pruned := PruneMet(asm, obs, entries);
    ghost var start := asm.m;
    if asm.calm {
      PrunedAreMet(start, old(asm.obligations), obs, entries);
      LateIsBelow(start, old(asm.obligations), obs, unmet, entries, now);
    }
    var revoked, deferred := Enforce(asm, obs, unmet, entries, now);
    stats := Stats(|obs|, pruned, revoked, deferred);
    if asm.calm && Docked(start) {
      OverdueIsSettled(start, asm.m, old(asm.obligations), obs, unmet, entries, now);
    }
  }

  lemma NothingListed(m: Mgr, obligations: map<nat, Time>, obs: seq<Obligation>, now: Time)
    requires forall ob :: ob in obs <==> ob.vinst in obligations && obligations[ob.vinst] == ob.deadline
    ensures obs == [] ==> PassDone(m, obligations, now, m, obligations)
  {
    assert forall v :: v in obligations ==> Obligation(v, obligations[v]) in obs;
    NobodyIsDoomed(m);
    if obs == [] {
      assert obligations == map[];
      assert Late(m, obligations, now) == {};
    }
  }

  /** Below the highest overdue unmet generation is below some overdue one. */
  lemma LateIsBelow(
      m: Mgr, obligations: map<nat, Time>, obs: seq<Obligation>, unmet: seq<Obligation>, entries: seq<Entry>, now: Time)
    requires Pictures(m, entries)
    requires forall ob :: ob in obs <==> ob.vinst in obligations && obligations[ob.vinst] == ob.deadline
    requires forall ob :: ob in unmet <==> ob in obs && !Met(entries, ob.vinst)
    ensures Late(m, obligations, now) ==
      if HighestOverdue(unmet, now).None? then {} else Below(m, HighestOverdue(unmet, now).value)
  {
    forall a | a in m.store.actors && Swept(m, a)
      ensures a in Late(m, obligations, now)
        <==> HighestOverdue(unmet, now).Some? && ActorVinst(m.store.actors[a]) < HighestOverdue(unmet, now).value
    {
      MaximumDecides(unmet, now, ActorVinst(m.store.actors[a]));
      assert EntryOf(m, a) in entries;
      if v :| v in obligations && now > obligations[v] && ActorVinst(m.store.actors[a]) < v {
        assert Obligation(v, obligations[v]) in unmet;
      }
    }
  }

  lemma PrunedAreMet(m: Mgr, obligations: map<nat, Time>, obs: seq<Obligation>, entries: seq<Entry>)
    requires Pictures(m, entries)
    requires forall ob :: ob in obs <==> ob.vinst in obligations && obligations[ob.vinst] == ob.deadline
    ensures forall v :: v in obligations - MetAmong(entries, obs) <==> v in obligations && !AllMeet(m, v)
  {
    forall v | v in obligations ensures v in MetAmong(entries, obs) <==> AllMeet(m, v) {
      MetIsAllMeet(m, entries, v);
      assert Obligation(v, obligations[v]) in obs;
    }
  }

  lemma MetIsAllMeet(m: Mgr, entries: seq<Entry>, v: nat)
    requires Pictures(m, entries)
    ensures Met(entries, v) <==> AllMeet(m, v)
  {}

  lemma OverdueIsSettled(
      start: Mgr, end: Mgr, obligations: map<nat, Time>, obs: seq<Obligation>, unmet: seq<Obligation>,
      entries: seq<Entry>, now: Time)
    requires Pictures(start, entries) && Shrunk(start, end)
    requires forall ob :: ob in obs <==> ob.vinst in obligations && obligations[ob.vinst] == ob.deadline
    requires forall ob :: ob in unmet <==> ob in obs && !Met(entries, ob.vinst)
    requires HighestOverdue(unmet, now).Some? ==> AllMeet(end, HighestOverdue(unmet, now).value)
    ensures Settled(end, obligations, now)
  {
    forall a, v | Swept(end, a) && v in obligations && Overdue(Obligation(v, obligations[v]), now)
      ensures ActorVinst(end.store.actors[a]) >= v
    {
      var ob := Obligation(v, obligations[v]);
      assert ob in obs;
      if Met(entries, v) {
        MetIsAllMeet(start, entries, v);
        assert Swept(start, a);
      } else {
        assert ob in unmet;
        MaximumDecides(unmet, now, ActorVinst(end.store.actors[a]));
      }
    }
  }

  /**
   The sweep converges: in quiet times the pass after next carries no obligation overdue at the
   first, and only who was late at one of the two passes, or docked at who was, has gone.
   */
  method TwoPassesSettleAndPrune(m: Mgr, obligations: map<nat, Time>, now: Time, later: Time)
    returns (mid: Mgr, left: map<nat, Time>, end: Mgr, after: map<nat, Time>)
    requires Docked(m)
    ensures Settled(end, obligations, now)
    ensures forall v :: v in obligations && Overdue(Obligation(v, obligations[v]), now) ==> v !in after
    ensures NodesUndocked(m) ==> mid.store.actors == m.store.actors - Doomed(m, Late(m, obligations, now))
    ensures NodesUndocked(mid) ==> end.store.actors == mid.store.actors - Doomed(mid, Late(mid, left, later))
  {
    var first := new Assembly(true, m, obligations);
    var _ := SweepReauthObligations(first, now);
    mid, left := first.m, first.obligations;
    var second := new Assembly(true, mid, left);
    var _ := SweepReauthObligations(second, later);
    end, after := second.m, second.obligations;
    forall a, v | Swept(end, a) && v in obligations && Overdue(Obligation(v, obligations[v]), now)
      ensures ActorVinst(end.store.actors[a]) >= v
    {
      assert Swept(mid, a);
    }
  }
}
