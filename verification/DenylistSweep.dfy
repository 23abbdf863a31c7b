/**
 The denylist sweep (`sweep_denylisted_actors`, vs/src/auth_sweep.rs): actors admitted by a
 bootstrap key that has since been denylisted are revoked.
 */
module DenylistSweep {
  import opened Text
  import opened Attributes
  import opened Actors
  import opened Docking
  import opened Sweeps
  import opened Teardown

  /** Admitted by a bootstrap key whose CN is denylisted. An OIDC actor's CN is only a label. */
  predicate Denylisted(addr: Addr, a: Actor, denied: set<string>) {
    && !Exempt(addr, a)
    && DeviceAuthority in a.attrs && a.attrs[DeviceAuthority].SingleValue() == Some(AUTHORITY_METHOD_BOOTSTRAP)
    && a.Single(Cn).Some? && a.Single(Cn).value in denied
  }

  function Denies(denied: set<string>): Target {
    (a: Addr, actor: Actor) => Denylisted(a, actor, denied)
  }

  function Denied(m: Mgr, denied: set<string>): set<Addr> {
    set a | a in m.store.actors && Denylisted(a, m.store.actors[a], denied)
  }

  datatype Stats = Stats(checked: nat, revoked: seq<Addr>, deferred: nat)

  // ----------------------------------------------------------------------- snapshot

  method Match(asm: Assembly, listed: seq<Addr>, denied: set<string>) returns (matched: seq<Entry>, checked: nat)
    requires asm.trace == []
    modifies asm
    ensures |matched| <= checked == CountSeen(asm.trace)
    ensures (forall k :: 0 <= k < |asm.trace| ==> IsRead(asm.trace[k])) && Witnessed(Denies(denied), matched, asm.trace)
    ensures asm.calm ==> asm.m == old(asm.m)
    ensures asm.calm && (forall a :: a in listed <==> a in asm.m.store.actors) ==>
      PicturesMarked(asm.m, matched, Denied(asm.m, denied))
  {
    matched, checked := [], 0;
    for i := 0 to |listed|
      invariant |matched| <= checked == CountSeen(asm.trace)
      invariant forall k :: 0 <= k < |asm.trace| ==> IsRead(asm.trace[k])
      invariant Witnessed(Denies(denied), matched, asm.trace)
      invariant asm.calm ==> asm.m == old(asm.m)
      invariant asm.calm ==> forall e :: e in matched <==>
                  e.addr in listed[..i] && e.addr in Denied(asm.m, denied) && e == EntryOf(asm.m, e.addr)
    {
      var a := listed[i];
      assert listed[..i + 1] == listed[..i] + [a];
      ghost var before := asm.trace;
      var r, dock := asm.See(a);
      if r.Found? {
        CountSeenGrows(before, Seen(a, r.actor, dock));
        WitnessedGrows(Denies(denied), matched, before, Seen(a, r.actor, dock));
        checked := checked + 1;
        if Denylisted(a, r.actor, denied) {
          matched := matched + [EntryFrom(a, r.actor, dock)];
        }
      }
    }
    assert listed[..|listed|] == listed;
  }

  // -------------------------------------------------------------------------- nodes

  method DisconnectNodes(asm: Assembly, matched: seq<Entry>) returns (gone: seq<Addr>, deferred: nat)
    requires Sanctioned(matched, asm.trace)
    modifies asm
    ensures Sanctioned(matched, asm.trace) && old(asm.trace) <= asm.trace && Logged(gone, asm.trace)
    ensures |gone| + deferred <= CountNodes(matched)
    ensures asm.calm ==> Members(gone) == NodesOf(matched)
    ensures asm.calm && NodesUndocked(old(asm.m)) && NodesOf(matched) <= NodesIn(old(asm.m)) ==>
      TornDown(old(asm.m), asm.m, NodesOf(matched))
  {
    gone, deferred := [], 0;
    ghost var quiet := asm.calm && NodesUndocked(asm.m) && NodesOf(matched) <= NodesIn(asm.m);
    for i := 0 to |matched|
      invariant Sanctioned(matched, asm.trace) && old(asm.trace) <= asm.trace && Logged(gone, asm.trace)
      invariant |gone| + deferred <= CountNodes(matched[..i])
      invariant asm.calm ==> Members(gone) == NodesOf(matched[..i])
      invariant quiet ==> TornDown(old(asm.m), asm.m, NodesOf(matched[..i]))
    {
      var e := matched[i];
      NodesOfGrows(matched, i);
      assert matched[..i + 1][..i] == matched[..i];
      if e.isNode {
        assert e.addr in NodesOf(matched);
        ghost var before := asm.trace;
        var ok := DisconnectMatched(asm, matched, e, old(asm.m), NodesOf(matched[..i]));
        if ok {
          LoggedGrows(gone, before, Disconnected(e.addr));
          MembersAppend(gone, e.addr);
          gone := gone + [e.addr];
        } else {
          deferred := deferred + 1;
        }
      }
    }
    assert matched[..|matched|] == matched;
  }

  method DisconnectMatched(asm: Assembly, ghost matched: seq<Entry>, e: Entry, ghost start: Mgr, ghost nodes: set<Addr>)
    returns (ok: bool)
    requires Sanctioned(matched, asm.trace) && e in matched && e.isNode
    modifies asm
    ensures Sanctioned(matched, asm.trace)
    ensures asm.trace == if ok then old(asm.trace) + [Disconnected(e.addr)] else old(asm.trace)
    ensures asm.calm ==> ok
    ensures asm.calm && NodesUndocked(start) && e.addr in NodesIn(start) && TornDown(start, old(asm.m), nodes) ==>
      TornDown(start, asm.m, nodes + {e.addr})
  {
    ok := asm.Disconnect(e.addr);
    if ok { SanctionedGrows(matched, old(asm.trace), Disconnected(e.addr)); }
    if asm.calm && NodesUndocked(start) && e.addr in NodesIn(start) && TornDown(start, old(asm.m), nodes) {
      TearDownNode(start, old(asm.m), nodes, asm.m, e.addr);
    }
  }

  // ------------------------------------------------------------------------ adapters

  method RemoveOne(asm: Assembly, ghost matched: seq<Entry>, a: Addr, ghost ack: nat) returns (ok: bool)
    requires Sanctioned(matched, asm.trace) && ack < |asm.trace| && asm.trace[ack].Acked?
    requires a in Processed(asm.trace[ack]) && DockedAt(matched, a, asm.trace[ack].node)
    modifies asm
    ensures Sanctioned(matched, asm.trace) && asm.trace == old(asm.trace) + [Removed(a)]
    ensures asm.calm ==> asm.m.store.actors == old(asm.m).store.actors - {a}
  {
    SanctionedGrows(matched, asm.trace, Removed(a));
    ok := asm.Remove(a);
  }

  /** Every adapter an acknowledgement covers. */
  method RemoveProcessed(asm: Assembly, ghost matched: seq<Entry>, items: seq<Addr>, ghost ack: nat)
    returns (revoked: seq<Addr>)
    requires Sanctioned(matched, asm.trace) && ack < |asm.trace| && asm.trace[ack].Acked?
    requires forall a :: a in items ==> a in Processed(asm.trace[ack]) && DockedAt(matched, a, asm.trace[ack].node)
    modifies asm
    ensures Sanctioned(matched, asm.trace) && old(asm.trace) <= asm.trace && Logged(revoked, asm.trace)
    ensures |revoked| <= |items|
    ensures asm.calm ==> asm.m.store.actors == old(asm.m).store.actors - Members(items)
  {
    revoked := [];
    ghost var event := asm.trace[ack];
    for i := 0 to |items|
      invariant Sanctioned(matched, asm.trace) && old(asm.trace) <= asm.trace && Logged(revoked, asm.trace)
      invariant asm.trace[ack] == event && |revoked| <= i
      invariant asm.calm ==> asm.m.store.actors == old(asm.m).store.actors - Members(items[..i])
    {
      ghost var before := asm.trace;
      MembersGrow(items, i);
      LoggedGrows(revoked, before, Removed(items[i]));
      LoggedLater(revoked, before, before + [Removed(items[i])]);
      var ok := RemoveOne(asm, matched, items[i], ack);
      if ok { revoked := revoked + [items[i]]; }
    }
    assert items[..|items|] == items;
  }

  /** Only the processed prefix goes; the rest keep their node-side authentication and wait. */
  method RevokeBatch(asm: Assembly, ghost matched: seq<Entry>, b: Batch<Addr>)
    returns (revoked: seq<Addr>, deferred: nat)
    requires Sanctioned(matched, asm.trace) && forall a :: a in b.items ==> DockedAt(matched, a, b.node)
    modifies asm
    ensures Sanctioned(matched, asm.trace) && old(asm.trace) <= asm.trace && Logged(revoked, asm.trace)
    ensures |revoked| + deferred <= |b.items|
    ensures asm.calm ==> asm.m.store.actors == old(asm.m).store.actors - Members(b.items)
  {
    var r := asm.RevokeAuths(b.node, b.items);
    if r.NotAcknowledged? { return [], |b.items|; }
    SanctionedGrows(matched, old(asm.trace), Acked(b.node, b.items, r.processed));
    var prefix := if r.processed < |b.items| then b.items[..r.processed] else b.items;
    assert prefix == Processed(asm.trace[|old(asm.trace)|]);
    revoked := RemoveProcessed(asm, matched, prefix, |old(asm.trace)|);
    deferred := |b.items| - |prefix|;
    if asm.calm { assert prefix == b.items; }
  }

  method RevokeBatches(asm: Assembly, ghost matched: seq<Entry>, bs: seq<Batch<Addr>>)
    returns (revoked: seq<Addr>, deferred: nat)
    requires Sanctioned(matched, asm.trace) && forall n, a :: InBatch(bs, n, a) ==> DockedAt(matched, a, n)
    modifies asm
    ensures Sanctioned(matched, asm.trace) && old(asm.trace) <= asm.trace && Logged(revoked, asm.trace)
    ensures |revoked| + deferred <= Enlisted(bs)
    ensures asm.calm ==> asm.m.store.actors == old(asm.m).store.actors - Batched(bs)
  {
    revoked, deferred := [], 0;
    for i := 0 to |bs|
      invariant Sanctioned(matched, asm.trace) && old(asm.trace) <= asm.trace && Logged(revoked, asm.trace)
      invariant |revoked| + deferred <= Enlisted(bs[..i])
      invariant asm.calm ==> asm.m.store.actors == old(asm.m).store.actors - Batched(bs[..i])
    {
      assert bs[..i + 1][..i] == bs[..i];
      forall a | a in bs[i].items ensures DockedAt(matched, a, bs[i].node) { assert InBatch(bs, bs[i].node, a); }
      ghost var before := asm.trace;
      var more, put := RevokeBatch(asm, matched, bs[i]);
      LoggedLater(revoked, before, asm.trace);
      revoked, deferred := revoked + more, deferred + put;
    }
    assert bs[..|bs|] == bs;
  }

  // -------------------------------------------------------------------------- a pass

  /** Nodes first, then adapters by docking node. */
  method RevokeMatched(asm: Assembly, matched: seq<Entry>, ghost marked: set<Addr>)
    returns (revoked: seq<Addr>, deferred: nat)
    requires Sanctioned(matched, asm.trace)
    modifies asm
    ensures Sanctioned(matched, asm.trace) && old(asm.trace) <= asm.trace && Logged(revoked, asm.trace)
    ensures |revoked| + deferred <= |matched|
    ensures asm.calm && NodesUndocked(old(asm.m)) && PicturesMarked(old(asm.m), matched, marked) ==>
      asm.m.store.actors == old(asm.m).store.actors - Doomed(old(asm.m), marked)
  {
    EveryEntryCounts(matched);
    if PicturesMarked(asm.m, matched, marked) { MarkedNodes(asm.m, matched, marked); }
    var gone, d1 := DisconnectNodes(asm, matched);
    var bs, d2 := Group(matched, gone);
    ghost var before := asm.trace;
    var rest, d3 := RevokeBatches(asm, matched, bs);
    LoggedLater(gone, before, asm.trace);
    revoked, deferred := gone + rest, d1 + d2 + d3;
    if asm.calm && PicturesMarked(old(asm.m), matched, marked) {
      MarkedAdapters(old(asm.m), matched, marked, gone, bs);
    }
  }

  /**
   `sweep_denylisted_actors`. Whatever happens meanwhile, whoever goes had been seen denylisted,
   and an adapter only after the node it was seen at acknowledged it. When nothing happens
   meanwhile, exactly the denied nodes, their adapters and the other denied adapters go.
   */
  method SweepDenylistedActors(asm: Assembly, denied: set<string>) returns (stats: Stats)
    requires asm.trace == []
    modifies asm
    ensures Justified(Denies(denied), asm.trace) && Logged(stats.revoked, asm.trace)
    ensures |stats.revoked| + stats.deferred <= stats.checked <= CountSeen(asm.trace)
    ensures asm.calm && NodesUndocked(old(asm.m)) ==>
      asm.m.store.actors == old(asm.m).store.actors - Doomed(old(asm.m), Denied(old(asm.m), denied))
  {
    stats := Stats(0, [], 0);
    if denied == {} {
      assert Denied(asm.m, denied) == {};
      NobodyIsDoomed(asm.m);
      return;
    }
    var listable, listed := asm.ListActors(false);
    if !listable { return; }
    var matched, checked := Match(asm, listed, denied);
    stats := stats.(checked := checked);
    ghost var read := asm.trace;
    var revoked, deferred := RevokeMatched(asm, matched, Denied(old(asm.m), denied));
    stats := stats.(revoked := revoked, deferred := deferred);
    CountSeenPrefix(read, asm.trace);
    ReadsJustify(Denies(denied), read, matched, asm.trace);
  }
}
