/**
 The expiry sweep (`sweep_expired_auths`, vs/src/auth_sweep.rs): adapters whose authentication
 has lapsed are revoked in one batch per docking node and removed on a positive answer. Unlike
 the other sweeps it does not look at how much of the batch the node processed.
 */
module ExpirySweep {
  import opened Text
  import opened Attributes
  import opened Actors
  import opened Docking
  import opened Sweeps

  datatype Stats = Stats(checked: nat, revoked: nat, deferred: nat)

  /** An adapter whose authentication had run out when the pass looked. */
  datatype Lapsed = Lapsed(addr: Addr, expiry: Time)

  /** A lapsed adapter with the docking node it was found at. */
  datatype Sighting = Sighting(lapsed: Lapsed, node: Addr)

  function AddrsOf(items: seq<Lapsed>): seq<Addr> {
    seq(|items|, i requires 0 <= i < |items| => items[i].addr)
  }

  /**
   The step just before a removal read the lapsed expiration a sighting had, and the node of that
   sighting answered a batch that named the adapter, whatever the count.
   */
  predicate FromSighting(found: seq<Sighting>, trace: seq<Event>, i: nat)
    requires i < |trace| && trace[i].Removed?
  {
    exists j, f :: 0 <= j < i && trace[j].Acked? && trace[i].addr in trace[j].batch
      && f in found && f.lapsed.addr == trace[i].addr && f.node == trace[j].node
      && trace[i - 1] == ExpiryRead(trace[i].addr, Some(f.lapsed.expiry))
  }

  ghost predicate Lawful(found: seq<Sighting>, trace: seq<Event>) {
    && (forall i :: 0 <= i < |trace| && trace[i].Removed? ==> FromSighting(found, trace, i))
    && (forall i :: 0 <= i < |trace| ==> !trace[i].Disconnected?)
  }

  lemma LawfulGrows(found: seq<Sighting>, trace: seq<Event>, e: Event)
    requires Lawful(found, trace) && !e.Disconnected?
    requires e.Removed? ==> FromSighting(found, trace + [e], |trace|)
    ensures Lawful(found, trace + [e])
  {
    var all := trace + [e];
    forall i | 0 <= i < |trace| && all[i].Removed? ensures FromSighting(found, all, i) {
      assert all[i] == trace[i];
      var j, f :| 0 <= j < i && trace[j].Acked? && trace[i].addr in trace[j].batch
        && f in found && f.lapsed.addr == trace[i].addr && f.node == trace[j].node
        && trace[i - 1] == ExpiryRead(trace[i].addr, Some(f.lapsed.expiry));
      assert all[j] == trace[j] && all[i - 1] == trace[i - 1];
    }
  }

  // ------------------------------------------------ the law, over the log alone

  /**
   The adapter was seen lapsed at a docking node, that node answered later, and the expiration read
   just before the removal was the one seen.
   */
  predicate LapsedAndAnswered(trace: seq<Event>, i: nat, now: Time)
    requires i < |trace| && trace[i].Removed?
  {
    exists j, k :: 0 <= k < j < i && trace[j].Acked? && trace[i].addr in trace[j].batch
      && trace[k].Seen? && trace[k].addr == trace[i].addr && trace[k].dock == Some(trace[j].node)
      && AuthExpiration(trace[k].actor).Some? && AuthExpiration(trace[k].actor).value <= now
      && trace[i - 1] == ExpiryRead(trace[i].addr, AuthExpiration(trace[k].actor))
  }

  /** Nobody is disconnected, and whoever is removed had lapsed. */
  ghost predicate OnlyLapsedRemoved(trace: seq<Event>, now: Time) {
    && (forall i :: 0 <= i < |trace| && trace[i].Removed? ==> LapsedAndAnswered(trace, i, now))
    && (forall i :: 0 <= i < |trace| ==> !trace[i].Disconnected?)
  }

  /** The sighting is one load's record. */
  predicate Sighted(trace: seq<Event>, f: Sighting) {
    exists k :: 0 <= k < |trace| && trace[k].Seen? && trace[k].addr == f.lapsed.addr && trace[k].dock == Some(f.node)
      && AuthExpiration(trace[k].actor) == Some(f.lapsed.expiry)
  }

  ghost predicate AllSighted(found: seq<Sighting>, trace: seq<Event>) { forall f :: f in found ==> Sighted(trace, f) }

  lemma AllSightedGrows(found: seq<Sighting>, trace: seq<Event>, e: Event)
    requires AllSighted(found, trace)
    ensures AllSighted(found, trace + [e])
    ensures e.Seen? && e.dock.Some? && AuthExpiration(e.actor).Some? ==>
      AllSighted(found + [Sighting(Lapsed(e.addr, AuthExpiration(e.actor).value), e.dock.value)], trace + [e])
  {
    var all := trace + [e];
    forall f | f in found ensures Sighted(all, f) {
      var k :| 0 <= k < |trace| && trace[k].Seen? && trace[k].addr == f.lapsed.addr && trace[k].dock == Some(f.node)
        && AuthExpiration(trace[k].actor) == Some(f.lapsed.expiry);
      assert all[k] == trace[k];
    }
    assert all[|trace|] == e;
  }

  lemma SightingsJustify(read: seq<Event>, found: seq<Sighting>, trace: seq<Event>, now: Time)
    requires read <= trace && (forall k :: 0 <= k < |read| ==> IsRead(read[k])) && AllSighted(found, read)
    requires Lawful(found, trace) && forall f :: f in found ==> f.lapsed.expiry <= now
    ensures OnlyLapsedRemoved(trace, now)
  {
    forall i | 0 <= i < |trace| && trace[i].Removed? ensures LapsedAndAnswered(trace, i, now) {
      var j, f :| 0 <= j < i && trace[j].Acked? && trace[i].addr in trace[j].batch
        && f in found && f.lapsed.addr == trace[i].addr && f.node == trace[j].node
        && trace[i - 1] == ExpiryRead(trace[i].addr, Some(f.lapsed.expiry));
      assert Sighted(read, f);
      var k :| 0 <= k < |read| && read[k].Seen? && read[k].addr == f.lapsed.addr && read[k].dock == Some(f.node)
        && AuthExpiration(read[k].actor) == Some(f.lapsed.expiry);
      assert forall n :: 0 <= n < |read| ==> trace[n] == read[n] && IsRead(trace[n]);
    }
  }

  // ------------------------------------------------- what a pass in quiet times removes

  /** The adapter had lapsed by `now`, and the connection table says where it is docked. */
  predicate LapsedAt(m: Mgr, l: Lapsed, n: Addr, now: Time) {
    && l.addr in m.store.actors && !m.store.actors[l.addr].IsNode()
    && AuthExpiration(m.store.actors[l.addr]) == Some(l.expiry) && l.expiry <= now
    && DockForActor(m.table, m.store.actors[l.addr]) == Some(n)
  }

  function LapsedAdapters(m: Mgr, now: Time): set<Addr> {
    set a | a in m.store.actors && !m.store.actors[a].IsNode()
      && AuthExpiration(m.store.actors[a]).Some? && AuthExpiration(m.store.actors[a]).value <= now
      && DockForActor(m.table, m.store.actors[a]).Some?
  }

  /** The batches hold exactly the lapsed adapters. */
  ghost predicate BatchesExactly(m: Mgr, bs: seq<Batch<Lapsed>>, now: Time) {
    forall n, l :: InBatch(bs, n, l) <==> LapsedAt(m, l, n, now)
  }

  // ------------------------------------------------------------------------- phases

  /** Phase 1: the lapsed adapters, by docking node. */
  method Collect(asm: Assembly, listed: seq<Addr>, now: Time)
    returns (bs: seq<Batch<Lapsed>>, found: seq<Sighting>, checked: nat, deferred: nat)
    requires asm.trace == []
    modifies asm
    ensures checked == CountSeen(asm.trace) && Enlisted(bs) + deferred <= checked
    ensures (forall k :: 0 <= k < |asm.trace| ==> IsRead(asm.trace[k])) && AllSighted(found, asm.trace)
    ensures forall n, l :: InBatch(bs, n, l) <==> Sighting(l, n) in found
    ensures forall f :: f in found ==> f.lapsed.expiry <= now
    ensures asm.calm ==> asm.m == old(asm.m)
    ensures asm.calm && (forall a :: a in listed <==> a in asm.m.store.actors && !asm.m.store.actors[a].IsNode()) ==>
      BatchesExactly(asm.m, bs, now)
  {
    bs, found, checked, deferred := [], [], 0, 0;
    for i := 0 to |listed|
      invariant checked == CountSeen(asm.trace) && Enlisted(bs) + deferred <= checked
      invariant (forall k :: 0 <= k < |asm.trace| ==> IsRead(asm.trace[k])) && AllSighted(found, asm.trace)
      invariant forall n, l :: InBatch(bs, n, l) <==> Sighting(l, n) in found
      invariant forall f :: f in found ==> f.lapsed.expiry <= now
      invariant asm.calm ==> asm.m == old(asm.m)
      invariant asm.calm && (forall a :: a in listed ==> a in asm.m.store.actors && !asm.m.store.actors[a].IsNode()) ==>
        forall f :: f in found <==> f.lapsed.addr in listed[..i] && LapsedAt(asm.m, f.lapsed, f.node, now)
    {
      assert listed[..i + 1] == listed[..i] + [listed[i]];
      ghost var before := asm.trace;
      var r, dock := asm.See(listed[i]);
      if r.Found? {
        CountSeenGrows(before, Seen(listed[i], r.actor, dock));
        AllSightedGrows(found, before, Seen(listed[i], r.actor, dock));
        checked := checked + 1;
        var expiry := AuthExpiration(r.actor);
        if expiry.Some? && expiry.value <= now {
          if dock.None? {
            deferred := deferred + 1;
          } else {
            var l := Lapsed(listed[i], expiry.value);
            EnlistAddsOne(bs, dock.value, l);
            bs, found := Enlist(bs, dock.value, l), found + [Sighting(l, dock.value)];
          }
        }
      }
    }
    assert listed[..|listed|] == listed;
  }

  /** One answered adapter: keep it if it was renewed meanwhile, else remove it. */
  method RemoveLapsed(asm: Assembly, ghost found: seq<Sighting>, l: Lapsed, ghost node: Addr, ghost ack: nat)
    returns (revoked: bool, deferred: bool)
    requires Lawful(found, asm.trace) && Sighting(l, node) in found
    requires ack < |asm.trace| && asm.trace[ack].Acked? && asm.trace[ack].node == node && l.addr in asm.trace[ack].batch
    modifies asm
    ensures Lawful(found, asm.trace) && old(asm.trace) <= asm.trace && !(revoked && deferred)
    ensures asm.calm && StillHas(old(asm.m), l) ==> asm.m.store.actors == old(asm.m).store.actors - {l.addr}
  {
    revoked, deferred := false, false;
    var r := asm.RereadExpiry(l.addr);
    match r {
      case Missing => return;
      case LoadFailed => deferred := true; return;
      case Found(actor) =>
        LawfulGrows(found, old(asm.trace), ExpiryRead(l.addr, AuthExpiration(actor)));
        if AuthExpiration(actor) != Some(l.expiry) { return; }
    }
    ghost var before := asm.trace;
    ghost var f, after := Sighting(l, node), before + [Removed(l.addr)];
    assert f in found && after[|before| - 1] == before[|before| - 1] == ExpiryRead(l.addr, Some(f.lapsed.expiry));
    assert after[ack] == before[ack] == old(asm.trace)[ack];
    LawfulGrows(found, before, Removed(l.addr));
    revoked := asm.Remove(l.addr);
  }

  /** The adapter is gone, or has the expiration it was found with. */
  predicate StillHas(m: Mgr, l: Lapsed) {
    l.addr in m.store.actors ==> AuthExpiration(m.store.actors[l.addr]) == Some(l.expiry)
  }

  ghost predicate AllHave(m: Mgr, items: seq<Lapsed>) { forall l :: l in items ==> StillHas(m, l) }

  function Addrs(ls: set<Lapsed>): set<Addr> { set l | l in ls :: l.addr }

  lemma AddrsUnion(a: set<Lapsed>, b: set<Lapsed>)
    ensures Addrs(a + b) == Addrs(a) + Addrs(b)
  {}

  method RevokeBatch(asm: Assembly, ghost found: seq<Sighting>, b: Batch<Lapsed>) returns (revoked: nat, deferred: nat)
    requires Lawful(found, asm.trace) && forall l :: l in b.items ==> Sighting(l, b.node) in found
    modifies asm
    ensures Lawful(found, asm.trace) && old(asm.trace) <= asm.trace && revoked + deferred <= |b.items|
    ensures asm.calm && AllHave(old(asm.m), b.items) ==>
      asm.m.store.actors == old(asm.m).store.actors - Addrs(Members(b.items))
  {
    revoked, deferred := 0, 0;
    var addrs := AddrsOf(b.items);
    var r := asm.RevokeAuths(b.node, addrs);
    if r.NotAcknowledged? { deferred := |b.items|; return; }
    ghost var ack, event := |old(asm.trace)|, Acked(b.node, addrs, r.processed);
    ghost var quiet := asm.calm && AllHave(asm.m, b.items);
    LawfulGrows(found, old(asm.trace), event);
    for i := 0 to |b.items|
      invariant Lawful(found, asm.trace) && old(asm.trace) + [event] <= asm.trace
      invariant revoked + deferred <= i
      invariant quiet ==> asm.m.store.actors == old(asm.m).store.actors - Addrs(Members(b.items[..i]))
    {
      assert addrs[i] == b.items[i].addr;
      assert Members(b.items[..i + 1]) == Members(b.items[..i]) + {b.items[i]};
      AddrsUnion(Members(b.items[..i]), {b.items[i]});
      assert Addrs({b.items[i]}) == {b.items[i].addr};
      assert quiet ==> StillHas(old(asm.m), b.items[i]) && StillHas(asm.m, b.items[i]);
      var gone, put := RemoveLapsed(asm, found, b.items[i], b.node, ack);
      if gone { revoked := revoked + 1; }
      if put { deferred := deferred + 1; }
    }
    assert b.items[..|b.items|] == b.items;
  }

  lemma BatchedAreLapsed(m: Mgr, bs: seq<Batch<Lapsed>>, now: Time)
    requires BatchesExactly(m, bs, now)
    ensures Addrs(Batched(bs)) == LapsedAdapters(m, now)
  {
    forall l { BatchedMeans(bs, l); }
    forall a ensures a in Addrs(Batched(bs)) <==> a in LapsedAdapters(m, now) {
      if a in LapsedAdapters(m, now) {
        var l, dock := Lapsed(a, AuthExpiration(m.store.actors[a]).value), DockForActor(m.table, m.store.actors[a]);
        assert LapsedAt(m, l, dock.value, now);
        assert l in Batched(bs);
      }
    }
  }

  /** Phase 2: batch after batch. */
  method RevokeBatches(asm: Assembly, ghost found: seq<Sighting>, bs: seq<Batch<Lapsed>>, ghost now: Time)
    returns (revoked: nat, deferred: nat)
    requires Lawful(found, asm.trace) && forall n, l :: InBatch(bs, n, l) ==> Sighting(l, n) in found
    modifies asm
    ensures Lawful(found, asm.trace) && old(asm.trace) <= asm.trace && revoked + deferred <= Enlisted(bs)
    ensures asm.calm && BatchesExactly(old(asm.m), bs, now) ==>
      asm.m.store.actors == old(asm.m).store.actors - Addrs(Batched(bs))
  {
    revoked, deferred := 0, 0;
    ghost var quiet := asm.calm && BatchesExactly(asm.m, bs, now);
    for i := 0 to |bs|
      invariant Lawful(found, asm.trace) && old(asm.trace) <= asm.trace && revoked + deferred <= Enlisted(bs[..i])
      invariant quiet ==> asm.m.store.actors == old(asm.m).store.actors - Addrs(Batched(bs[..i]))
    {
      assert bs[..i + 1][..i] == bs[..i];
      forall l | l in bs[i].items ensures InBatch(bs, bs[i].node, l) {}
      AddrsUnion(Batched(bs[..i]), Members(bs[i].items));
      var x, y := RevokeBatch(asm, found, bs[i]);
      revoked, deferred := revoked + x, deferred + y;
    }
    assert bs[..|bs|] == bs;
  }

  /**
   `sweep_expired_auths`. Whatever happens meanwhile, whoever goes had been seen lapsed, its node
   answered and nobody had renewed it. When nothing happens meanwhile, exactly the lapsed adapters
   with a docking node go.
   */
  method SweepExpiredAuths(asm: Assembly, now: Time) returns (stats: Stats)
    requires asm.trace == []
    modifies asm
    ensures OnlyLapsedRemoved(asm.trace, now)
    ensures stats.revoked + stats.deferred <= stats.checked <= CountSeen(asm.trace)
    ensures asm.calm ==> asm.m.store.actors == old(asm.m).store.actors - LapsedAdapters(old(asm.m), now)
  {
    stats := Stats(0, 0, 0);
    var listable, listed := asm.ListActors(true);
    if !listable { return; }
    var bs, found, checked, put := Collect(asm, listed, now);
    if asm.calm { BatchedAreLapsed(asm.m, bs, now); }
    ghost var read := asm.trace;
    var revoked, deferred := RevokeBatches(asm, found, bs, now);
    stats := Stats(checked, revoked, put + deferred);
    CountSeenPrefix(read, asm.trace);
    SightingsJustify(read, found, asm.trace, now);
  }
}
