/**
 `refresh_and_persist_actor` (vs/src/actor_attributes.rs) run without interruption: refresh,
 write back, and only then record revisions.
 */
module RefreshActor {
  import opened Text
  import opened Attributes
  import opened Actors
  import opened Policies
  import opened Refresh
  import opened TrustedServices
  import opened Docking

  datatype Result = Settled(changed: bool) | StoreFailed | Indeterminate(sources: seq<string>)

  /** The pass plans exactly the stale sources, at their present revision and generation. */
  predicate Plans(p: Pass, serving: map<string, nat>, recs: Records) {
    p.stale == map s | s in StaleSources(serving, recs) :: (serving[s], RecordOf(recs, s).generation)
  }

  /** No snapshot carries the reserved revision. */
  predicate Serves(serving: map<string, nat>) {
    forall s :: s in serving ==> serving[s] != REVISION_NEVER
  }

  /**
   Whether a source is recorded as current once the pass has committed to some address's records:
   decided by the answer where the planned generation stands there, and as before elsewhere.
   */
  predicate CurrentAfter(p: Pass, serving: map<string, nat>, before: Records, s: string) {
    if s in p.stale && RecordOf(before, s).generation == p.stale[s].1 then p.answer(s).Vended?
    else IsCurrent(serving, before, s)
  }

  ghost predicate Committed(p: Pass, serving: map<string, nat>, before: Records, after: Records) {
    forall s :: IsCurrent(serving, after, s) <==> CurrentAfter(p, serving, before, s)
  }

  ghost predicate StillStale(serving: map<string, nat>, recs: Records, sources: seq<string>) {
    forall s :: s in StaleSources(serving, recs) <==> s in sources
  }

  /**
   `fault` is a store that cannot be written. Revisions are committed at the address the actor
   ends with, on the generations planned at the one it began with. If that is the same address,
   nothing is left stale, or exactly the unreached sources are and the pass is indeterminate.
   */
  method RefreshAndPersistActor(
      policy: Policy, ts: TrustedServicesMgr, mgr: ActorMgr, actor: ActorRecord, p: Pass, fault: bool)
    returns (r: Result)
    requires actor.parse == p.parse && actor.Value().Valid(p.parse)
    requires actor.zprAddr.Some? ==> Plans(p, ts.serving, ts.RecordsOf(actor.zprAddr.value))
    requires Serves(ts.serving)
    modifies ts, mgr, actor
    ensures ts.serving == old(ts.serving)
    ensures r.StoreFailed? ==> ts.actors == old(ts.actors)
    ensures r == Settled(true) ==>
      actor.zprAddr.Some? && actor.zprAddr.value in mgr.store.actors
      && mgr.store.actors[actor.zprAddr.value] == actor.Value()
    ensures r == Settled(false) ==> mgr.View() == old(mgr.View())
    ensures r.Indeterminate? ==> r.sources != [] && actor.zprAddr.Some?
    ensures forall a: Addr :: actor.zprAddr != Some(a) ==> ts.RecordsOf(a) == old(ts.RecordsOf(a))
    ensures !r.StoreFailed? && old(actor.zprAddr).Some? ==> forall a: Addr :: actor.zprAddr == Some(a) ==>
      Committed(p, ts.serving, old(ts.RecordsOf(a)), ts.RecordsOf(a))
    ensures !r.StoreFailed? && actor.zprAddr.Some? && actor.zprAddr == old(actor.zprAddr) ==>
      StillStale(ts.serving, ts.RecordsOf(actor.zprAddr.value), if r.Settled? then [] else r.sources)
  {
    ghost var start := actor.Value();
    var o, order := RefreshExpiredAttributes(p, actor);
    if o.changed {
      var written := WriteBack(policy, mgr, actor, p.now, fault);
      if !written { return StoreFailed; }
    }
    if actor.zprAddr.None? { return Settled(o.changed); }
    Conclude(ts, p, start, order, actor.zprAddr.value, o);
    return if o.indeterminate != [] then Indeterminate(o.indeterminate) else Settled(o.changed);
  }

  /** The commit that ends a pass. */
  method Conclude(
      ts: TrustedServicesMgr, p: Pass, ghost start: Actor, ghost order: seq<string>, addr: Addr, o: Outcome)
    requires Serves(ts.serving)
    requires start.zprAddr.Some? ==>
      && Plans(p, ts.serving, ts.RecordsOf(start.zprAddr.value))
      && Lists(order, SourcesToAsk(p, start)) && o == Reported(p, start, order)
    modifies ts`actors
    ensures forall a :: a != addr ==> ts.RecordsOf(a) == old(ts.RecordsOf(a))
    ensures start.zprAddr.Some? ==> Committed(p, ts.serving, old(ts.RecordsOf(addr)), ts.RecordsOf(addr))
    ensures start.zprAddr == Some(addr) ==> StillStale(ts.serving, ts.RecordsOf(addr), o.indeterminate)
  {
    ghost var before := ts.RecordsOf(addr);
    ghost var planned := if start.zprAddr.Some? then ts.RecordsOf(start.zprAddr.value) else map[];
    ts.CommitRevisions(addr, o.revisions);
    if start.zprAddr.Some? {
      WhatIsCurrentAfter(p, start, order, ts.serving, planned, before);
      if start.zprAddr == Some(addr) { WhatIsStaleAfter(p, start, order, ts.serving, before); }
    }
  }

  method WriteBack(policy: Policy, mgr: ActorMgr, actor: ActorRecord, now: Time, fault: bool) returns (written: bool)
    modifies mgr, actor
    ensures actor.Value() == Restamp(policy, old(actor.Value()), now)
    ensures written ==>
      && actor.zprAddr.Some? && actor.zprAddr.value in mgr.store.actors
      && mgr.store.actors[actor.zprAddr.value] == actor.Value()
  {
    RestampServices(policy, actor, now);
    if fault { return false; }
    written := mgr.Update(actor.Value());
  }

  /** A pass queues one entry per planned source, and none for another. */
  lemma {:induction false} QueueEntries(p: Pass, a: Actor, order: seq<string>, s: string)
    ensures forall f :: f in Reported(p, a, order).revisions && f.0 == s ==> f in Queued(p, s)
    ensures s in order ==> forall f :: f in Queued(p, s) ==> f in Reported(p, a, order).revisions
    ensures s in Reported(p, a, order).indeterminate <==> s in order && s in Unreached(p, s)
    decreases |order|
  {
    if order != [] {
      var init, last := order[..|order| - 1], order[|order| - 1];
      assert order == init + [last];
      QueueEntries(p, a, init, s);
      var was, now := Reported(p, a, init), Reported(p, a, order);
      assert now.revisions == was.revisions + Queued(p, last);
      assert now.indeterminate == was.indeterminate + Unreached(p, last);
    }
  }

  lemma SourceCurrentAfter(
      p: Pass, a: Actor, order: seq<string>, serving: map<string, nat>, planned: Records, before: Records, s: string)
    requires Plans(p, serving, planned) && Serves(serving) && (s in p.stale ==> s in order)
    ensures IsCurrent(serving, CommitAll(before, Reported(p, a, order).revisions), s)
      <==> CurrentAfter(p, serving, before, s)
  {
    var queue := Reported(p, a, order).revisions;
    QueueEntries(p, a, order, s);
    CommitAllRecords(before, queue, s);
    if s in p.stale {
      var e := Queued(p, s)[0];
      assert e in Queued(p, s) && e in queue;
      assert OnlyEntryFor(queue, e);
    }
  }

  /** What a pass leaves recorded as current at any address it commits to. */
  lemma WhatIsCurrentAfter(
      p: Pass, a: Actor, order: seq<string>, serving: map<string, nat>, planned: Records, before: Records)
    requires Plans(p, serving, planned) && Serves(serving) && Lists(order, SourcesToAsk(p, a))
    ensures Committed(p, serving, before, CommitAll(before, Reported(p, a, order).revisions))
  {
    forall s
      ensures IsCurrent(serving, CommitAll(before, Reported(p, a, order).revisions), s)
        <==> CurrentAfter(p, serving, before, s)
    {
      SourceCurrentAfter(p, a, order, serving, planned, before, s);
    }
  }

  lemma UnreachedStaysStale(p: Pass, serving: map<string, nat>, recs: Records, s: string)
    requires Plans(p, serving, recs)
    ensures s in serving && !CurrentAfter(p, serving, recs, s) <==> s in p.stale && p.answer(s).Failed?
  {}

  /** At the address it planned for, the stale sources are exactly those that could not be reached. */
  lemma WhatIsStaleAfter(p: Pass, a: Actor, order: seq<string>, serving: map<string, nat>, recs: Records)
    requires Plans(p, serving, recs) && Serves(serving)
    requires Lists(order, SourcesToAsk(p, a))
    ensures var o := Reported(p, a, order); StillStale(serving, CommitAll(recs, o.revisions), o.indeterminate)
  {
    var o := Reported(p, a, order);
    forall s ensures s in StaleSources(serving, CommitAll(recs, o.revisions)) <==> s in o.indeterminate {
      UnreachedStaysStale(p, serving, recs, s);
      SourceCurrentAfter(p, a, order, serving, recs, recs, s);
      QueueEntries(p, a, order, s);
    }
  }
}
