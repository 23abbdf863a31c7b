/**
 What a sweep takes away when nothing else happens (vs/src/auth_sweep.rs): the nodes it marked, with
 whoever is on record as docked at them, and the adapters it marked at other nodes.
 */
module Teardown {
  import opened Text
  import opened Attributes
  import opened Actors
  import opened Docking
  import opened Sweeps

  function NodesAmong(m: Mgr, marked: set<Addr>): set<Addr> {
    set a | a in marked && a in m.store.actors && m.store.actors[a].IsNode()
  }

  /** Actors on record as docked at one of these nodes, the visa service excepted. */
  function OnNodes(m: Mgr, nodes: set<Addr>): set<Addr> {
    set a | a in m.store.actors && a != VS_ZPR_ADDR && exists n :: n in nodes && a in Conns(m.store, n)
  }

  /** Marked adapters with a docking node that is not itself marked. */
  function AdaptersAmong(m: Mgr, marked: set<Addr>): set<Addr> {
    set a | a in marked && a in m.store.actors && !m.store.actors[a].IsNode()
      && var dock := DockForActor(m.table, m.store.actors[a]);
         dock.Some? && dock.value !in NodesAmong(m, marked)
  }

  function Doomed(m: Mgr, marked: set<Addr>): set<Addr> {
    NodesAmong(m, marked) + OnNodes(m, NodesAmong(m, marked)) + AdaptersAmong(m, marked)
  }

  /** Where every adapter is docked, nobody marked escapes. */
  lemma MarkedAreDoomed(m: Mgr, marked: set<Addr>, a: Addr)
    requires Docked(m) && a in marked && a in m.store.actors && !Exempt(a, m.store.actors[a])
    ensures a in Doomed(m, marked)
  {
    var nodes := NodesAmong(m, marked);
    if !m.store.actors[a].IsNode() && a !in AdaptersAmong(m, marked) {
      assert m.table[a] in nodes && a in Conns(m.store, m.table[a]);
    }
  }

  lemma NobodyIsDoomed(m: Mgr)
    ensures Doomed(m, {}) == {}
  {}

  /** The entries are exactly the marked actors, as they are. */
  ghost predicate PicturesMarked(m: Mgr, entries: seq<Entry>, marked: set<Addr>) {
    forall e :: e in entries <==> e.addr in marked && e.addr in m.store.actors && e == EntryOf(m, e.addr)
  }

  // -------------------------------------------------------------------------- nodes

  function NodesOf(entries: seq<Entry>): set<Addr> { set e | e in entries && e.isNode :: e.addr }

  lemma NodesOfGrows(entries: seq<Entry>, i: nat)
    requires i < |entries|
    ensures entries[i].isNode ==> NodesOf(entries[..i + 1]) == NodesOf(entries[..i]) + {entries[i].addr}
    ensures !entries[i].isNode ==> NodesOf(entries[..i + 1]) == NodesOf(entries[..i])
  {}

  function NodesIn(m: Mgr): set<Addr> { set a | a in m.store.actors && m.store.actors[a].IsNode() }

  /** Exactly these nodes, and whoever was docked at them, are gone. */
  ghost predicate TornDown(start: Mgr, m: Mgr, nodes: set<Addr>) {
    && m.store.actors == start.store.actors - nodes - OnNodes(start, nodes)
    && ConnsKept(start, m, nodes)
  }

  lemma TearDownNode(start: Mgr, m: Mgr, nodes: set<Addr>, m': Mgr, n: Addr)
    requires NodesUndocked(start) && TornDown(start, m, nodes)
    requires n in start.store.actors && start.store.actors[n].IsNode()
    requires n in m.store.actors && m.store.actors[n].IsNode() ==> Cascaded(m, m', n)
    requires !(n in m.store.actors && m.store.actors[n].IsNode()) ==> m' == RemoveActor(m, n) || m' == m
    ensures TornDown(start, m', nodes + {n})
  {
    assert n !in OnNodes(start, nodes);
    if n in nodes {
      assert nodes + {n} == nodes;
    } else {
      TearDownNew(start, m, nodes, m', n);
    }
  }

  lemma TearDownNew(start: Mgr, m: Mgr, nodes: set<Addr>, m': Mgr, n: Addr)
    requires TornDown(start, m, nodes) && n in m.store.actors && n !in nodes && Cascaded(m, m', n)
    ensures TornDown(start, m', nodes + {n})
  {
    var more := nodes + {n};
    forall a ensures a in m'.store.actors <==> a in start.store.actors - more - OnNodes(start, more) {
      if a in m.store.actors { assert a in Conns(m.store, n) <==> a in Conns(start.store, n); }
    }
    assert m'.store.actors == start.store.actors - more - OnNodes(start, more);
  }

  lemma MarkedNodes(m: Mgr, entries: seq<Entry>, marked: set<Addr>)
    requires PicturesMarked(m, entries, marked)
    ensures NodesOf(entries) == NodesAmong(m, marked)
  {
    forall a ensures a in NodesOf(entries) <==> a in NodesAmong(m, marked) {
      if a in NodesAmong(m, marked) { assert EntryOf(m, a) in entries; }
    }
  }

  // ------------------------------------------------------------------------ adapters

  /** An adapter whose docking node was not just disconnected. */
  ghost predicate ToRevoke(entries: seq<Entry>, gone: seq<Addr>, n: Addr, a: Addr) {
    DockedAt(entries, a, n) && n !in gone
  }

  lemma DockedAtGrows(entries: seq<Entry>, i: nat, n: Addr, a: Addr)
    requires i < |entries|
    ensures DockedAt(entries[..i + 1], a, n) <==>
      DockedAt(entries[..i], a, n) || (!entries[i].isNode && entries[i].addr == a && entries[i].dock == Some(n))
  {}

  /** The adapters by docking node, except those that went with a disconnected one. */
  method Group(entries: seq<Entry>, gone: seq<Addr>) returns (bs: seq<Batch<Addr>>, deferred: nat)
    ensures Enlisted(bs) + deferred <= CountAdapters(entries)
    ensures forall n, a :: InBatch(bs, n, a) <==> ToRevoke(entries, gone, n, a)
  {
    bs, deferred := [], 0;
    for i := 0 to |entries|
      invariant Enlisted(bs) + deferred <= CountAdapters(entries[..i])
      invariant forall n, a :: InBatch(bs, n, a) <==> ToRevoke(entries[..i], gone, n, a)
    {
      var e := entries[i];
      assert entries[..i + 1][..i] == entries[..i];
      forall n, a { DockedAtGrows(entries, i, n, a); }
      if !e.isNode {
        if e.dock.None? {
          deferred := deferred + 1;
        } else if e.dock.value !in gone {
          EnlistAddsOne(bs, e.dock.value, e.addr);
          bs := Enlist(bs, e.dock.value, e.addr);
        }
      }
    }
    assert entries[..|entries|] == entries;
  }

  lemma MarkedAdapters(m: Mgr, entries: seq<Entry>, marked: set<Addr>, gone: seq<Addr>, bs: seq<Batch<Addr>>)
    requires PicturesMarked(m, entries, marked)
    requires Members(gone) == NodesAmong(m, marked)
    requires forall n, a :: InBatch(bs, n, a) <==> ToRevoke(entries, gone, n, a)
    ensures Batched(bs) == AdaptersAmong(m, marked)
  {
    forall a ensures a in Batched(bs) <==> a in AdaptersAmong(m, marked) {
      BatchedMeans(bs, a);
      if a in AdaptersAmong(m, marked) {
        var e := EntryOf(m, a);
        assert e in entries && ToRevoke(entries, gone, e.dock.value, a);
      }
      if n :| InBatch(bs, n, a) { assert ToRevoke(entries, gone, n, a); }
    }
  }
}
