/**
 Revision bookkeeping across trusted services (vs/src/trusted_services/manager.rs): per actor
 and source, the revision last refreshed from and an invalidation generation.
 */
module TrustedServices {
  import opened Text
  import opened Attributes

  datatype Record = Record(revision: Option<nat>, generation: nat)

  const NO_RECORD := Record(None, 0)

  /** One actor's records, by source. */
  type Records = map<string, Record>

  function RecordOf(recs: Records, s: string): Record { if s in recs then recs[s] else NO_RECORD }

  /** Recorded as current: the recorded revision is the one the source serves now. */
  predicate IsCurrent(serving: map<string, nat>, recs: Records, s: string) {
    s in serving && RecordOf(recs, s).revision == Some(serving[s])
  }

  function StaleSources(serving: map<string, nat>, recs: Records): map<string, nat> {
    map s | s in serving && !IsCurrent(serving, recs, s) :: serving[s]
  }

  /** A commit lands only on the generation it was planned against. */
  function Commit(recs: Records, s: string, revision: nat, generation: nat): Records {
    var r := RecordOf(recs, s);
    recs[s := if r.generation == generation then r.(revision := Some(revision)) else r]
  }

  function CommitAll(recs: Records, queue: seq<(string, nat, nat)>): Records {
    if queue == [] then recs
    else
      var (s, revision, generation) := queue[|queue| - 1];
      Commit(CommitAll(recs, queue[..|queue| - 1]), s, revision, generation)
  }

  /** A targeted notification clears the revision and moves the generation on. */
  function Invalidate(recs: Records, s: string): Records {
    recs[s := Record(None, RecordOf(recs, s).generation + 1)]
  }

  /** A commit planned before a notification is dropped by it. */
  lemma InvalidationWins(recs: Records, s: string, revision: nat)
    ensures Commit(Invalidate(recs, s), s, revision, RecordOf(recs, s).generation) == Invalidate(recs, s)
  {}

  predicate OnlyEntryFor(queue: seq<(string, nat, nat)>, e: (string, nat, nat)) {
    forall f :: f in queue && f.0 == e.0 ==> f == e
  }

  /** What a batch of commits records for a source: its one entry if the generation stands, else nothing new. */
  lemma {:induction false} CommitAllRecords(recs: Records, queue: seq<(string, nat, nat)>, s: string)
    ensures RecordOf(CommitAll(recs, queue), s).generation == RecordOf(recs, s).generation
    ensures (forall f :: f in queue && f.0 == s ==> f.2 != RecordOf(recs, s).generation) ==>
              RecordOf(CommitAll(recs, queue), s) == RecordOf(recs, s)
    ensures forall e :: e in queue && e.0 == s && OnlyEntryFor(queue, e) && e.2 == RecordOf(recs, s).generation ==>
              RecordOf(CommitAll(recs, queue), s).revision == Some(e.1)
    decreases |queue|
  {
    if queue != [] {
      var init, last := queue[..|queue| - 1], queue[|queue| - 1];
      assert queue == init + [last];
      CommitAllRecords(recs, init, s);
      forall e | e in queue && e.0 == s && OnlyEntryFor(queue, e) && e.2 == RecordOf(recs, s).generation
        ensures RecordOf(CommitAll(recs, queue), s).revision == Some(e.1)
      {
        if last.0 != s { assert e in init && OnlyEntryFor(init, e); }
      }
    }
  }

  class TrustedServicesMgr {
    var serving: map<string, nat>
    var actors: map<Addr, Records>

    function RecordsOf(addr: Addr): Records
      reads this
    {
      if addr in actors then actors[addr] else map[]
    }

    constructor ()
      ensures serving == map[] && actors == map[]
    {
      serving, actors := map[], map[];
    }

    /** `stale_sources_for_actor`: the loop over the configured services. */
    method StaleSourcesForActor(addr: Addr) returns (stale: map<string, nat>)
      ensures stale == StaleSources(serving, RecordsOf(addr))
    {
      stale := map[];
      var recs := RecordsOf(addr);
      var todo := serving.Keys;
      while todo != {}
        invariant todo <= serving.Keys
        invariant stale == map s | s in serving && s !in todo && !IsCurrent(serving, recs, s) :: serving[s]
        decreases |todo|
      {
        var s :| s in todo;
        if RecordOf(recs, s).revision != Some(serving[s]) {
          stale := stale[s := serving[s]];
        }
        todo := todo - {s};
      }
    }

    method RecordRevisionAtGeneration(addr: Addr, s: string, revision: nat, observed: nat) returns (landed: bool)
      modifies this`actors
      ensures actors == old(actors)[addr := Commit(old(RecordsOf(addr)), s, revision, observed)]
      ensures landed <==> RecordOf(old(RecordsOf(addr)), s).generation == observed
    {
      var recs := RecordsOf(addr);
      var r := RecordOf(recs, s);
      landed := r.generation == observed;
      if landed { r := r.(revision := Some(revision)); }
      actors := actors[addr := recs[s := r]];
    }

    /** `commit_revisions`: each entry stands or falls alone. */
    method CommitRevisions(addr: Addr, queue: seq<(string, nat, nat)>)
      modifies this`actors
      ensures RecordsOf(addr) == CommitAll(old(RecordsOf(addr)), queue)
      ensures forall a :: a != addr ==> RecordsOf(a) == old(RecordsOf(a))
    {
      for i := 0 to |queue|
        invariant RecordsOf(addr) == CommitAll(old(RecordsOf(addr)), queue[..i])
        invariant forall a :: a != addr ==> RecordsOf(a) == old(RecordsOf(a))
      {
        assert queue[..i + 1][..i] == queue[..i];
        var (s, revision, generation) := queue[i];
        var _ := RecordRevisionAtGeneration(addr, s, revision, generation);
      }
      assert queue[..|queue|] == queue;
    }

    method ForgetSourceRevision(addr: Addr, s: string)
      modifies this`actors
      ensures actors == old(actors)[addr := Invalidate(old(RecordsOf(addr)), s)]
    {
      var recs := RecordsOf(addr);
      actors := actors[addr := recs[s := Record(None, RecordOf(recs, s).generation + 1)]];
    }

    method ForgetActorRevisions(addr: Addr)
      modifies this`actors
      ensures actors == old(actors) - {addr}
      ensures StaleSources(serving, RecordsOf(addr)) == serving
      ensures forall s :: RecordOf(RecordsOf(addr), s) == NO_RECORD
      ensures forall a :: a != addr ==> RecordsOf(a) == old(RecordsOf(a))
    {
      actors := actors - {addr};
    }
  }
}
