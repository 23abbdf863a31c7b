/**
 The attribute refresh of one actor as a protocol: a pass reads revisions and generations,
 asks its sources one by one, writes the actor back and only then commits revisions, while
 notifications, flushes, policy installs and replacements of the stored record land at any point
 in between (vs/src/actor_attributes.rs, vs/src/trusted_services/manager.rs). Everything is seen
 from one address: what a pass that renames its actor writes lands in the books of another.
 */
module RefreshProtocol {
  import opened Text
  import opened Attributes
  import opened Actors
  import opened Policies
  import opened Connections
  import opened Refresh
  import opened TrustedServices

  /** When each held attribute's query began, by key. */
  type Births = map<Key, nat>

  /**
   A pass in flight. `mark` is the last moment anything was read while planning, `authority` the
   user authority the actor was loaded with.
   */
  datatype Work = Work(
    actor: Actor,
    born: Births,
    start: nat,
    mark: nat,
    authority: Option<string>,
    revs: map<string, nat>,
    plan: map<string, (nat, nat)>,
    todo: set<string>,
    outcome: Outcome)

  datatype Job =
    | Idle
    | Planning(w: Work)
    | Asking(w: Work)
    | Waiting(w: Work, source: string, begun: nat)
    | Committing(queue: seq<(string, nat, nat)>)

  /** `notified` and `flushed` are history: the latest invalidation of each source for this actor. */
  datatype State = State(
    addr: Addr,
    clock: nat,
    serving: map<string, nat>,
    nextRev: nat,
    recs: Records,
    notified: map<string, nat>,
    flushed: map<string, nat>,
    stored: Actor,
    born: Births,
    job: Job)

  function At(m: map<string, nat>, s: string): nat { if s in m then m[s] else 0 }

  /** The latest notification or flush for the pair. */
  function LastInvalidation(st: State, s: string): nat {
    if At(st.notified, s) >= At(st.flushed, s) then At(st.notified, s) else At(st.flushed, s)
  }

  /** Every attribute held from a source came from a query begun at `t` or later. */
  predicate HeldSince(a: Actor, born: Births, s: string, t: nat) {
    forall k :: k in a.attrs && a.attrs[k].source == s ==> k in born && born[k] >= t
  }

  /** No lost invalidation: what is recorded as current was asked after the last invalidation. */
  ghost predicate NoLostInvalidation(st: State) {
    forall s :: IsCurrent(st.serving, st.recs, s) && s != SOURCE_ZPR ==>
      HeldSince(st.stored, st.born, s, LastInvalidation(st, s))
  }

  // ------------------------------------------------------------------------ steps

  datatype Label =
    // around the pass
    | Notify(s: string)
    | Flush(s: string)
    | Install(sources: set<string>)
    // The record is replaced: by a reconnect, whose disconnect forgot the revisions, or by an adapter
    // returning after a sweep or the write of a pass that renamed its actor, which forget nothing.
    | Replace(actor: Actor, births: Births, forgets: bool)
    // The commit of a pass that renamed its actor to this address.
    | ForeignCommit(s: string, rev: nat, generation: nat)
    // the pass
    | Load
    | ReadRevision(s: string, rev: nat)
    | ReadGeneration(s: string)
    | StartAsking(now: Time)
    | BeginQuery(s: string)
    | EndQuery(resp: Response, now: Time)
    | Write(policy: Policy, now: Time)
    | WriteFails(reached: bool, policy: Policy, now: Time)
    | NothingToWrite
    | CommitOne

  /** One source's answer, applied with the refresh pass's own functions. */
  function PassFor(parse: AddrParser, w: Work, now: Time, resp: Response): Pass {
    Pass(parse, now, w.plan, w.authority, _ => resp)
  }

  function Rebirth(p: Pass, s: string, born: Births, begun: nat): Births {
    map k | k in born.Keys + (set v | v in Vend(p, s) :: v.key) && (k in born || Wrote(p, s, k).Some?)
      :: if Wrote(p, s, k).Some? then begun else born[k]
  }

  /**
   An answer the protocol can build on: its attributes carry the source's stamp, and none is
   refused while an older attribute of the source holds its key.
   */
  predicate CleanAnswer(p: Pass, a: Actor, s: string) {
    && (forall v :: v in Vend(p, s) ==> v.source == s)
    && (s in p.stale ==> !KeepsRefused(p, a, s))
  }

  predicate KeepsRefused(p: Pass, a: Actor, s: string) {
    exists v :: v in Vend(p, s) && Wrote(p, s, v.key).None? && v.key in a.attrs && a.attrs[v.key].source == s
  }

  predicate Enabled(parse: AddrParser, st: State, l: Label) {
    match l
    case Notify(s) => true
    case Flush(s) => s in st.serving
    case Install(_) => true
    case Replace(actor, _, _) => actor.Valid(parse) && actor.zprAddr == Some(st.addr)
    case ForeignCommit(_, rev, _) => rev < st.nextRev
    case Load => st.job.Idle? && st.stored.zprAddr == Some(st.addr)
    // A store replaced by an install mid-read still answers with its own superseded revision.
    case ReadRevision(s, rev) => st.job.Planning? && s !in st.job.w.revs && 1 <= rev < st.nextRev
    case ReadGeneration(s) => st.job.Planning? && s in st.job.w.revs && s !in st.job.w.plan
    case StartAsking(_) => st.job.Planning? && st.job.w.plan.Keys == st.job.w.revs.Keys
    case BeginQuery(s) => st.job.Asking? && s in st.job.w.todo
    case EndQuery(_, _) => st.job.Waiting?
    case Write(_, _) =>
      st.job.Asking? && st.job.w.todo == {} && st.job.w.outcome.changed && st.job.w.actor.zprAddr.Some?
    case WriteFails(_, _, _) => st.job.Asking? && st.job.w.todo == {} && st.job.w.outcome.changed
    case NothingToWrite => st.job.Asking? && st.job.w.todo == {} && !st.job.w.outcome.changed
    case CommitOne => st.job.Committing?
  }

  /** A pass begins: the actor and its user authority are read once. */
  function Loaded(st: State): Work {
    Work(st.stored, st.born, st.clock, st.clock, st.stored.Single(UserAuthority), map[], map[], {}, NO_OUTCOME)
  }

  ghost function Next(parse: AddrParser, st: State, l: Label): State
    requires Enabled(parse, st, l)
  {
    var st := st.(clock := st.clock + 1);
    match l
    case Notify(s) => st.(recs := Invalidate(st.recs, s), notified := st.notified[s := st.clock])
    case Flush(s) =>
      st.(serving := st.serving[s := st.nextRev], nextRev := st.nextRev + 1, flushed := st.flushed[s := st.clock])
    case Install(sources) =>
      st.(serving := map s | s in sources :: st.nextRev, nextRev := st.nextRev + 1,
          flushed := map s | s in st.flushed.Keys + sources :: st.clock)
    case Replace(actor, births, forgets) =>
      st.(recs := if forgets then map[] else st.recs, stored := actor, born := births)
    case ForeignCommit(s, rev, generation) => st.(recs := Commit(st.recs, s, rev, generation))
    case Load => st.(job := Planning(Loaded(st)))
    case ReadRevision(s, rev) =>
      var w := st.job.w;
      if RecordOf(st.recs, s).revision == Some(rev) then st
      else st.(job := Planning(w.(revs := w.revs[s := rev], mark := st.clock)))
    case ReadGeneration(s) =>
      var w := st.job.w;
      var entry := (w.revs[s], RecordOf(st.recs, s).generation);
      st.(job := Planning(w.(plan := w.plan[s := entry], mark := st.clock)))
    case StartAsking(now) =>
      var w := st.job.w;
      st.(job := Asking(w.(todo := SourcesToAsk(PassFor(parse, w, now, Failed), w.actor))))
    case BeginQuery(s) => st.(job := Waiting(st.job.w.(todo := st.job.w.todo - {s}), s, st.clock))
    case EndQuery(resp, now) =>
      var w, s := st.job.w, st.job.source;
      var p := PassFor(parse, w, now, resp);
      st.(job := Asking(w.(actor := ApplyTo(p, w.actor, s),
                           born := Rebirth(p, s, w.born, st.job.begun),
                           outcome := Report(p, w.actor, s, w.outcome))))
    case Write(policy, now) =>
      // An actor the answers renamed is written, and its revisions committed, at its new address.
      var w := st.job.w;
      if w.actor.zprAddr == Some(st.addr)
      then st.(stored := Restamp(policy, w.actor, now), born := w.born, job := Committing(w.outcome.revisions))
      else st.(job := Idle)
    case WriteFails(reached, policy, now) =>
      // An error after the attributes reached the store still abandons the pass.
      var w := st.job.w;
      if reached && w.actor.zprAddr == Some(st.addr)
      then st.(stored := Restamp(policy, w.actor, now), born := w.born, job := Idle)
      else st.(job := Idle)
    case NothingToWrite =>
      var w := st.job.w;
      st.(job := if w.actor.zprAddr == Some(st.addr) then Committing(w.outcome.revisions) else Idle)
    case CommitOne =>
      if st.job.queue == [] then st.(job := Idle)
      else
        var (s, rev, generation) := st.job.queue[0];
        st.(recs := Commit(st.recs, s, rev, generation), job := Committing(st.job.queue[1..]))
  }

  ghost predicate Initial(parse: AddrParser, st: State) {
    && st.nextRev >= 1 && st.recs == map[] && st.job.Idle? && st.stored.Valid(parse)
    && (forall s :: s in st.serving ==> 1 <= st.serving[s] < st.nextRev)
    && (forall s :: At(st.notified, s) <= st.clock && At(st.flushed, s) <= st.clock)
  }

  /** States reached by any interleaving of the steps. */
  ghost predicate Reaches(parse: AddrParser, st: State, labels: seq<Label>, end: State)
    decreases |labels|
  {
    if labels == [] then end == st
    else Enabled(parse, st, labels[0]) && Reaches(parse, Next(parse, st, labels[0]), labels[1..], end)
  }

  // -------------------------------------------------------------------- invariant

  ghost predicate Ledger(parse: AddrParser, st: State) {
    && st.nextRev >= 1 && st.stored.Valid(parse)
    && (forall s :: s in st.serving ==> 1 <= st.serving[s] < st.nextRev)
    && (forall s :: s in st.recs && st.recs[s].revision.Some? ==> st.recs[s].revision.value < st.nextRev)
    && (forall s :: At(st.notified, s) <= st.clock && At(st.flushed, s) <= st.clock)
  }

  function Generation(st: State, s: string): nat { RecordOf(st.recs, s).generation }

  /** What was read while planning still bounds later invalidations, as long as it has not moved. */
  predicate PlanHolds(st: State, w: Work) {
    && w.start <= w.mark <= st.clock
    && w.plan.Keys <= w.revs.Keys
    && (forall s :: s in w.revs ==>
          && 1 <= w.revs[s] < st.nextRev
          && (s in st.serving && st.serving[s] == w.revs[s] ==> At(st.flushed, s) <= w.mark))
    && (forall s :: s in w.plan ==>
          && w.plan[s].0 == w.revs[s] && w.plan[s].1 <= Generation(st, s)
          && (Generation(st, s) == w.plan[s].1 ==> At(st.notified, s) <= w.mark))
  }

  /** A queued revision speaks only of attributes asked for after planning. */
  predicate QueueSound(w: Work) {
    forall e :: e in w.outcome.revisions ==>
      && e.0 in w.plan && e.2 == w.plan[e.0].1
      && (e.1 == REVISION_NEVER || (e.1 == w.plan[e.0].0 && HeldSince(w.actor, w.born, e.0, w.mark)))
  }

  /** What is known of the pass's actor is known of another. */
  ghost predicate AsFresh(a: Actor, born: Births, w: Work) {
    forall s, t :: s != SOURCE_ZPR && HeldSince(w.actor, w.born, s, t) ==> HeldSince(a, born, s, t)
  }

  ghost predicate WorkHolds(parse: AddrParser, st: State, w: Work) {
    && w.actor.Valid(parse)
    && PlanHolds(st, w) && QueueSound(w)
    && (forall s :: IsCurrent(st.serving, st.recs, s) && s != SOURCE_ZPR ==>
          LastInvalidation(st, s) <= w.start && HeldSince(w.actor, w.born, s, LastInvalidation(st, s)))
    && (!w.outcome.changed ==> AsFresh(st.stored, st.born, w))
  }

  /**
   A queued revision cannot come to speak falsely of the store: it is no longer served, or the
   store holds nothing from its source, or it can land no more, or it would land and is true.
   */
  predicate EntrySound(st: State, e: (string, nat, nat)) {
    var (s, rev, g) := e;
    && rev < st.nextRev
    && (s in st.serving && st.serving[s] == rev && s != SOURCE_ZPR && Holds(st.stored, s) ==>
          || g < Generation(st, s)
          || (g == Generation(st, s) && HeldSince(st.stored, st.born, s, LastInvalidation(st, s))))
  }

  predicate Holds(a: Actor, s: string) { exists k :: k in a.attrs && a.attrs[k].source == s }

  /** If it landed now it would be true of the store. */
  predicate EntryTrue(st: State, e: (string, nat, nat)) {
    var (s, rev, g) := e;
    && rev < st.nextRev
    && (Generation(st, s) == g && s in st.serving && st.serving[s] == rev && s != SOURCE_ZPR ==>
          HeldSince(st.stored, st.born, s, LastInvalidation(st, s)))
  }

  ghost predicate JobHolds(parse: AddrParser, st: State) {
    match st.job
    case Idle => true
    case Planning(w) => WorkHolds(parse, st, w) && w.outcome == NO_OUTCOME
    case Asking(w) => WorkHolds(parse, st, w)
    case Waiting(w, _, begun) => WorkHolds(parse, st, w) && w.mark <= begun <= st.clock
    case Committing(queue) => forall e :: e in queue ==> EntrySound(st, e)
  }

  ghost predicate Inv(parse: AddrParser, st: State) {
    Ledger(parse, st) && NoLostInvalidation(st) && JobHolds(parse, st)
  }

  // ------------------------------------------------------- what a step must not do

  /** Every attribute the new record holds from a source still recorded as current is young enough. */
  ghost predicate FreshForCurrent(st: State, actor: Actor, births: Births) {
    forall s :: IsCurrent(st.serving, st.recs, s) && s != SOURCE_ZPR ==>
      HeldSince(actor, births, s, LastInvalidation(st, s))
  }

  /** Every generation the pass planned on was 0, and its source has not been heard of since. */
  predicate Unnotified(st: State, w: Work) {
    forall s :: s in w.plan ==> w.plan[s].1 == 0 && At(st.notified, s) <= w.mark
  }

  /** A record may be replaced while a pass is in flight. */
  ghost predicate ReplaceSpares(st: State, actor: Actor, births: Births, forgets: bool) {
    match st.job
    case Idle => true
    case Committing(queue) =>
      var st' := st.(recs := if forgets then map[] else st.recs, stored := actor, born := births);
      forall e :: e in queue ==> EntrySound(st', e)
    case _ =>
      && (forgets ==> Unnotified(st, st.job.w))
      && (!st.job.w.outcome.changed ==> AsFresh(actor, births, st.job.w))
  }

  /** A commit from elsewhere is ineffective, or true here of the store and of the pass in flight. */
  ghost predicate CommitSpares(st: State, s: string, rev: nat, generation: nat) {
    Generation(st, s) == generation && s in st.serving && st.serving[s] == rev && s != SOURCE_ZPR ==>
      var t := LastInvalidation(st, s);
      && HeldSince(st.stored, st.born, s, t)
      && (match st.job
          case Idle => true
          case Committing(_) => true
          case _ => t <= st.job.w.start && HeldSince(st.job.w.actor, st.job.w.born, s, t))
  }

  ghost predicate Careful(parse: AddrParser, st: State, l: Label)
    requires Enabled(parse, st, l)
  {
    match l
    case EndQuery(resp, now) => CleanAnswer(PassFor(parse, st.job.w, now, resp), st.job.w.actor, st.job.source)
    case Replace(actor, births, forgets) =>
      (forgets || FreshForCurrent(st, actor, births)) && ReplaceSpares(st, actor, births, forgets)
    case ForeignCommit(s, rev, generation) => CommitSpares(st, s, rev, generation)
    case _ => true
  }

  ghost predicate CarefulRun(parse: AddrParser, st: State, labels: seq<Label>)
    decreases |labels|
  {
    labels == [] || (Enabled(parse, st, labels[0]) ==>
      Careful(parse, st, labels[0]) && CarefulRun(parse, Next(parse, st, labels[0]), labels[1..]))
  }

  // ------------------------------------------------- what one answer does to the actor

  lemma AnswerSource(p: Pass, a: Actor, s: string, k: Key)
    requires forall v :: v in Vend(p, s) ==> v.source == s
    requires k in ApplyTo(p, a, s).attrs
    ensures Wrote(p, s, k).Some? ==> ApplyTo(p, a, s).attrs[k] == Wrote(p, s, k).value
    ensures Wrote(p, s, k).Some? ==> ApplyTo(p, a, s).attrs[k].source == s
    ensures Wrote(p, s, k).None? ==> k in a.attrs && ApplyTo(p, a, s).attrs[k] == a.attrs[k]
  {
    ApplyPointwise(p, a, s, k);
    LastAcceptedIsVended(p.parse, Vend(p, s), k);
    assert ApplyTo(p, a, s).Get(k).Some?;
  }

  /** Another source's attributes keep their age through an answer. */
  lemma OthersKeepAge(p: Pass, a: Actor, s: string, born: Births, begun: nat, t: string, since: nat)
    requires forall v :: v in Vend(p, s) ==> v.source == s
    requires HeldSince(a, born, t, since) && (t == s ==> since <= begun)
    ensures HeldSince(ApplyTo(p, a, s), Rebirth(p, s, born, begun), t, since)
  {
    var b, born' := ApplyTo(p, a, s), Rebirth(p, s, born, begun);
    forall k | k in b.attrs && b.attrs[k].source == t ensures k in born' && born'[k] >= since {
      AnswerSource(p, a, s, k);
      LastAcceptedIsVended(p.parse, Vend(p, s), k);
    }
  }

  /** A revision answer replaces everything the source held, exactly unless it keeps a refused key. */
  lemma AnswerReplacesExactly(p: Pass, a: Actor, s: string)
    requires a.Keyed() && s in p.stale && p.answer(s).Vended?
    requires forall v :: v in Vend(p, s) ==> v.source == s
    ensures (forall k :: k in ApplyTo(p, a, s).attrs && ApplyTo(p, a, s).attrs[k].source == s ==>
               Wrote(p, s, k) == Some(ApplyTo(p, a, s).attrs[k]))
            <==> !KeepsRefused(p, a, s)
  {
    var b := ApplyTo(p, a, s);
    if KeepsRefused(p, a, s) {
      var v :| v in Vend(p, s) && Wrote(p, s, v.key).None? && v.key in a.attrs && a.attrs[v.key].source == s;
      ApplyPointwise(p, a, s, v.key);
      assert a.Get(v.key) == Some(a.attrs[v.key]);
    } else {
      forall k | k in b.attrs && b.attrs[k].source == s ensures Wrote(p, s, k) == Some(b.attrs[k]) {
        AnswerSource(p, a, s, k);
        ApplyPointwise(p, a, s, k);
      }
    }
  }

  /** It can happen: a source that vended a role now vends none, is refused, and keeps the old one. */
  lemma RefusedAnswerKeepsOldAttribute(parse: AddrParser)
    ensures
      var s, held := "s", Attribute(Role, [ROLE_NODE], 9, "s");
      var a := Actor(map[Role := held], [], None);
      var p := Pass(parse, 0, map[s := (2, 0)], None, _ => Vended([Attribute(Role, [], 9, s)]));
      && a.Valid(parse) && KeepsRefused(p, a, s) && ApplyTo(p, a, s).Get(Role) == Some(held)
      && (s, 2, 0) in Report(p, a, s, NO_OUTCOME).revisions
      && !HeldSince(ApplyTo(p, a, s), Rebirth(p, s, map[Role := 0], 1), s, 1)
  {
    var s, held := "s", Attribute(Role, [ROLE_NODE], 9, "s");
    var a := Actor(map[Role := held], [], None);
    var v := Attribute(Role, [], 9, s);
    var p := Pass(parse, 0, map[s := (2, 0)], None, _ => Vended([v]));
    assert Vend(p, s) == [v] && !Accepts(parse, v);
    LastAcceptedIsVended(parse, Vend(p, s), Role);
    ApplyPointwise(p, a, s, Role);
    assert v in Vend(p, s);
  }

  lemma StaleAnswerIsYoung(p: Pass, a: Actor, s: string, born: Births, begun: nat, mark: nat)
    requires a.Keyed() && s in p.stale && p.answer(s).Vended? && CleanAnswer(p, a, s) && mark <= begun
    ensures HeldSince(ApplyTo(p, a, s), Rebirth(p, s, born, begun), s, mark)
  {
    AnswerReplacesExactly(p, a, s);
    var b, born' := ApplyTo(p, a, s), Rebirth(p, s, born, begun);
    forall k | k in b.attrs && b.attrs[k].source == s ensures k in born' && born'[k] >= mark {
      LastAcceptedIsVended(p.parse, Vend(p, s), k);
    }
  }

  /** After a revision answer all the source's attributes come from its query, exactly unless a refused key is kept. */
  lemma AnswerIsYoungExactly(p: Pass, a: Actor, s: string, born: Births, begun: nat)
    requires a.Keyed() && s in p.stale && p.answer(s).Vended? && forall v :: v in Vend(p, s) ==> v.source == s
    requires forall k :: k in born ==> born[k] < begun
    ensures HeldSince(ApplyTo(p, a, s), Rebirth(p, s, born, begun), s, begun) <==> !KeepsRefused(p, a, s)
  {
    if KeepsRefused(p, a, s) {
      var v :| v in Vend(p, s) && Wrote(p, s, v.key).None? && v.key in a.attrs && a.attrs[v.key].source == s;
      ApplyPointwise(p, a, s, v.key);
      assert ApplyTo(p, a, s).Get(v.key) == Some(a.attrs[v.key]);
    } else {
      StaleAnswerIsYoung(p, a, s, born, begun, begun);
    }
  }

  /** What an answer makes of the actor's address: its own if it vends one, none if it drops it. */
  lemma AnswerRenamesExactly(p: Pass, a: Actor, s: string)
    requires a.Valid(p.parse)
    ensures ApplyTo(p, a, s).zprAddr ==
      if KeyDropped(p, s, ZprAddr, a.Get(ZprAddr)) then None
      else if Wrote(p, s, ZprAddr).Some? then AddrIn(p.parse, Wrote(p, s, ZprAddr).value)
      else a.zprAddr
  {
    ApplyPointwise(p, a, s, ZprAddr);
    assert ApplyTo(p, a, s).Valid(p.parse);
    LastAcceptedIsVended(p.parse, Vend(p, s), ZprAddr);
  }

  /** An answer that changes nothing leaves attributes and ages as they were. */
  lemma UnchangedMeansSame(p: Pass, a: Actor, s: string, born: Births, begun: nat)
    requires !SomeAccepted(p, s) && Dropped(p, a, s) == {}
    ensures ApplyTo(p, a, s).attrs == a.attrs
    ensures Rebirth(p, s, born, begun) == born
  {
    var b := ApplyTo(p, a, s);
    forall k ensures b.Get(k) == a.Get(k) && Wrote(p, s, k).None? {
      ApplyPointwise(p, a, s, k);
      LastAcceptedIsVended(p.parse, Vend(p, s), k);
    }
    forall k ensures k in b.attrs <==> k in a.attrs { assert b.Get(k) == a.Get(k); }
    forall k | k in b.attrs ensures b.attrs[k] == a.attrs[k] { assert b.Get(k) == a.Get(k); }
    assert b.attrs.Keys == a.attrs.Keys;
    assert Rebirth(p, s, born, begun).Keys == born.Keys;
  }

  // -------------------------------------------------- steps outside the pass

  /** Nothing outside the pass makes a source current or turns a clock, a counter or a read back. */
  ghost predicate OnlyInvalidates(st: State, st': State) {
    && st'.stored == st.stored && st'.born == st.born && st'.job == st.job
    && st'.clock >= st.clock && st'.nextRev >= st.nextRev
    && (forall s :: IsCurrent(st'.serving, st'.recs, s) ==>
          IsCurrent(st.serving, st.recs, s) && LastInvalidation(st', s) == LastInvalidation(st, s))
    && (forall s :: Generation(st', s) > Generation(st, s)
          || (Generation(st', s) == Generation(st, s) && At(st'.notified, s) == At(st.notified, s)))
    && (forall s :: s in st'.serving && st'.serving[s] < st.nextRev ==>
          s in st.serving && st.serving[s] == st'.serving[s] && At(st'.flushed, s) == At(st.flushed, s))
  }

  lemma InvalidationKeepsWork(parse: AddrParser, st: State, st': State, w: Work)
    requires OnlyInvalidates(st, st') && WorkHolds(parse, st, w)
    ensures WorkHolds(parse, st', w)
  {
    assert PlanHolds(st', w);
  }

  lemma InvalidationKeepsEntry(st: State, st': State, e: (string, nat, nat))
    requires OnlyInvalidates(st, st') && EntrySound(st, e)
    ensures EntrySound(st', e)
  {}

  lemma InvalidationKeepsInv(parse: AddrParser, st: State, st': State)
    requires OnlyInvalidates(st, st') && Inv(parse, st) && Ledger(parse, st')
    ensures Inv(parse, st')
  {
    match st.job
    case Idle =>
    case Planning(w) => InvalidationKeepsWork(parse, st, st', w);
    case Asking(w) => InvalidationKeepsWork(parse, st, st', w);
    case Waiting(w, _, _) => InvalidationKeepsWork(parse, st, st', w);
    case Committing(queue) =>
      forall e | e in queue ensures EntrySound(st', e) { InvalidationKeepsEntry(st, st', e); }
  }

  lemma NotifyKeeps(parse: AddrParser, st: State, s: string)
    requires Inv(parse, st)
    ensures Inv(parse, Next(parse, st, Notify(s)))
  {
    InvalidationKeepsInv(parse, st, Next(parse, st, Notify(s)));
  }

  lemma FlushKeeps(parse: AddrParser, st: State, s: string)
    requires Inv(parse, st) && s in st.serving
    ensures Inv(parse, Next(parse, st, Flush(s)))
  {
    InvalidationKeepsInv(parse, st, Next(parse, st, Flush(s)));
  }

  lemma InstallKeeps(parse: AddrParser, st: State, sources: set<string>)
    requires Inv(parse, st)
    ensures Inv(parse, Next(parse, st, Install(sources)))
  {
    var st' := Next(parse, st, Install(sources));
    forall s ensures !IsCurrent(st'.serving, st'.recs, s) {
      if s in st.recs && st.recs[s].revision.Some? { assert st.recs[s].revision.value < st.nextRev; }
    }
    InvalidationKeepsInv(parse, st, st');
  }

  // ----------------------------------------------------------------- steps of the pass

  /** The books: what the manager keeps, apart from the stored actor and the job. */
  ghost predicate SameBooks(st: State, st': State) {
    && st'.serving == st.serving && st'.recs == st.recs && st'.nextRev == st.nextRev
    && st'.notified == st.notified && st'.flushed == st.flushed && st'.clock >= st.clock
  }

  lemma BooksKeepLedger(parse: AddrParser, st: State, st': State)
    requires SameBooks(st, st') && Ledger(parse, st) && st'.stored.Valid(parse)
    ensures Ledger(parse, st')
    ensures st'.stored == st.stored && st'.born == st.born && NoLostInvalidation(st) ==> NoLostInvalidation(st')
  {}

  lemma BooksKeepWork(parse: AddrParser, st: State, st': State, w: Work)
    requires SameBooks(st, st') && st'.stored == st.stored && st'.born == st.born && WorkHolds(parse, st, w)
    ensures WorkHolds(parse, st', w)
  {
    assert PlanHolds(st', w);
  }

  lemma LoadedHolds(parse: AddrParser, st: State)
    requires Ledger(parse, st) && NoLostInvalidation(st)
    ensures WorkHolds(parse, st, Loaded(st))
  {}

  lemma ReadRevisionHolds(parse: AddrParser, st: State, w: Work, s: string, rev: nat)
    requires Ledger(parse, st) && WorkHolds(parse, st, w) && w.outcome == NO_OUTCOME
    requires s !in w.revs && 1 <= rev < st.nextRev
    ensures WorkHolds(parse, st, w.(revs := w.revs[s := rev], mark := st.clock))
  {
    var w' := w.(revs := w.revs[s := rev], mark := st.clock);
    assert PlanHolds(st, w');
    assert QueueSound(w');
  }

  lemma ReadGenerationHolds(parse: AddrParser, st: State, w: Work, s: string)
    requires Ledger(parse, st) && WorkHolds(parse, st, w) && w.outcome == NO_OUTCOME
    requires s in w.revs && s !in w.plan
    ensures WorkHolds(parse, st, w.(plan := w.plan[s := (w.revs[s], Generation(st, s))], mark := st.clock))
  {
    var w' := w.(plan := w.plan[s := (w.revs[s], Generation(st, s))], mark := st.clock);
    assert PlanHolds(st, w');
    assert QueueSound(w');
  }

  lemma TodoIsFree(parse: AddrParser, st: State, w: Work, todo: set<string>)
    requires WorkHolds(parse, st, w)
    ensures WorkHolds(parse, st, w.(todo := todo))
  {}

  lemma LoadKeeps(parse: AddrParser, st: State)
    requires Inv(parse, st) && Enabled(parse, st, Load)
    ensures Inv(parse, Next(parse, st, Load))
  {
    var mid, st' := st.(clock := st.clock + 1), Next(parse, st, Load);
    BooksKeepLedger(parse, st, mid);
    LoadedHolds(parse, mid);
    BooksKeepWork(parse, mid, st', st'.job.w);
    BooksKeepLedger(parse, mid, st');
  }

  /** A planning step moves only the clock and the job. */
  lemma PlanningKeeps(parse: AddrParser, st: State, st': State, w: Work)
    requires Inv(parse, st) && SameBooks(st, st') && st'.stored == st.stored && st'.born == st.born
    requires st'.job == Planning(w) && w.outcome == NO_OUTCOME && WorkHolds(parse, st', w)
    ensures Inv(parse, st')
  {
    BooksKeepLedger(parse, st, st');
  }

  lemma ReadRevisionKeeps(parse: AddrParser, st: State, s: string, rev: nat)
    requires Inv(parse, st) && Enabled(parse, st, ReadRevision(s, rev))
    ensures Inv(parse, Next(parse, st, ReadRevision(s, rev)))
  {
    var st', w := Next(parse, st, ReadRevision(s, rev)), st.job.w;
    BooksKeepLedger(parse, st, st');
    BooksKeepWork(parse, st, st', w);
    if st'.job != st.job { ReadRevisionHolds(parse, st', w, s, rev); }
    PlanningKeeps(parse, st, st', st'.job.w);
  }

  lemma ReadGenerationKeeps(parse: AddrParser, st: State, s: string)
    requires Inv(parse, st) && Enabled(parse, st, ReadGeneration(s))
    ensures Inv(parse, Next(parse, st, ReadGeneration(s)))
  {
    var st', w := Next(parse, st, ReadGeneration(s)), st.job.w;
    BooksKeepLedger(parse, st, st');
    BooksKeepWork(parse, st, st', w);
    ReadGenerationHolds(parse, st', w, s);
    PlanningKeeps(parse, st, st', st'.job.w);
  }

  lemma AskKeeps(parse: AddrParser, st: State, l: Label)
    requires Inv(parse, st) && Enabled(parse, st, l) && (l.StartAsking? || l.BeginQuery?)
    ensures Inv(parse, Next(parse, st, l))
  {
    var st', w := Next(parse, st, l), st.job.w;
    BooksKeepLedger(parse, st, st');
    TodoIsFree(parse, st, w, st'.job.w.todo);
    BooksKeepWork(parse, st, st', st'.job.w);
  }

  lemma AnswerKeepsQueue(p: Pass, w: Work, s: string, begun: nat, w': Work)
    requires w.actor.Keyed() && QueueSound(w) && w.mark <= begun && p.stale == w.plan && CleanAnswer(p, w.actor, s)
    requires w' == w.(actor := ApplyTo(p, w.actor, s), born := Rebirth(p, s, w.born, begun),
                      outcome := Report(p, w.actor, s, w.outcome))
    ensures QueueSound(w')
  {
    forall e | e in w'.outcome.revisions
      ensures
        && e.0 in w'.plan && e.2 == w'.plan[e.0].1
        && (e.1 == REVISION_NEVER || (e.1 == w'.plan[e.0].0 && HeldSince(w'.actor, w'.born, e.0, w'.mark)))
    {
      if e in w.outcome.revisions {
        if e.1 != REVISION_NEVER { OthersKeepAge(p, w.actor, s, w.born, begun, e.0, w.mark); }
      } else {
        assert e in Queued(p, s);
        if p.answer(s).Vended? { StaleAnswerIsYoung(p, w.actor, s, w.born, begun, w.mark); }
      }
    }
  }

  lemma AnswerHolds(parse: AddrParser, st: State, w: Work, s: string, begun: nat, now: Time, resp: Response, w': Work)
    requires WorkHolds(parse, st, w) && w.mark <= begun && CleanAnswer(PassFor(parse, w, now, resp), w.actor, s)
    requires var p := PassFor(parse, w, now, resp);
      w' == w.(actor := ApplyTo(p, w.actor, s), born := Rebirth(p, s, w.born, begun),
               outcome := Report(p, w.actor, s, w.outcome))
    ensures WorkHolds(parse, st, w')
  {
    var p := PassFor(parse, w, now, resp);
    ApplyPointwise(p, w.actor, s, ZprAddr);
    AnswerKeepsQueue(p, w, s, begun, w');
    forall t | IsCurrent(st.serving, st.recs, t) && t != SOURCE_ZPR
      ensures HeldSince(w'.actor, w'.born, t, LastInvalidation(st, t))
    {
      OthersKeepAge(p, w.actor, s, w.born, begun, t, LastInvalidation(st, t));
    }
    if !w'.outcome.changed {
      UnchangedMeansSame(p, w.actor, s, w.born, begun);
      forall t, u | HeldSince(w'.actor, w'.born, t, u) ensures HeldSince(w.actor, w.born, t, u) {}
    }
    assert PlanHolds(st, w');
  }

  lemma AnswerKeeps(parse: AddrParser, st: State, l: Label)
    requires Inv(parse, st) && Enabled(parse, st, l) && Careful(parse, st, l) && l.EndQuery?
    ensures Inv(parse, Next(parse, st, l))
  {
    var st' := Next(parse, st, l);
    BooksKeepLedger(parse, st, st');
    AnswerHolds(parse, st, st.job.w, st.job.source, st.job.begun, l.now, l.resp, st'.job.w);
    BooksKeepWork(parse, st, st', st'.job.w);
  }

  lemma RestampAges(policy: Policy, a: Actor, now: Time, born: Births, s: string, t: nat)
    requires HeldSince(a, born, s, t) && s != SOURCE_ZPR
    ensures HeldSince(Restamp(policy, a, now), born, s, t)
  {
    var b := Restamp(policy, a, now);
    forall k | k in b.attrs && b.attrs[k].source == s ensures k in born && born[k] >= t {
      assert k in a.attrs && a.attrs[k] == b.attrs[k];
    }
  }

  /** A finished pass may be committed: each queued revision is true of what was stored. */
  lemma QueuedIsSound(parse: AddrParser, st: State, w: Work, st': State)
    requires Ledger(parse, st) && WorkHolds(parse, st, w) && SameBooks(st, st') && AsFresh(st'.stored, st'.born, w)
    ensures forall e :: e in w.outcome.revisions ==> EntrySound(st', e)
  {
    forall e | e in w.outcome.revisions ensures EntrySound(st', e) {
      var (s, rev, g) := e;
      assert s in w.plan;
      if Generation(st', s) == g && s in st'.serving && st'.serving[s] == rev && s != SOURCE_ZPR {
        assert LastInvalidation(st', s) <= w.mark;
        assert HeldSince(w.actor, w.born, s, LastInvalidation(st', s));
      }
    }
  }

  lemma FreshStoreLosesNothing(parse: AddrParser, st: State, w: Work, st': State)
    requires WorkHolds(parse, st, w) && SameBooks(st, st') && AsFresh(st'.stored, st'.born, w)
    ensures NoLostInvalidation(st')
  {}

  lemma WriteKeeps(parse: AddrParser, st: State, l: Label)
    requires Inv(parse, st) && Enabled(parse, st, l)
    requires l.Write? || (l.WriteFails? && l.reached)
    requires st.job.w.actor.zprAddr == Some(st.addr)
    ensures Inv(parse, Next(parse, st, l))
  {
    var st', w := Next(parse, st, l), st.job.w;
    SetServicesSound(parse, w.actor, ServicesDue(l.policy, w.actor, l.now), l.now);
    assert AsFresh(st'.stored, st'.born, w) by {
      forall s, t | s != SOURCE_ZPR && HeldSince(w.actor, w.born, s, t)
        ensures HeldSince(st'.stored, st'.born, s, t)
      {
        RestampAges(l.policy, w.actor, l.now, w.born, s, t);
      }
    }
    BooksKeepLedger(parse, st, st');
    FreshStoreLosesNothing(parse, st, w, st');
    QueuedIsSound(parse, st, w, st');
  }

  lemma NothingToWriteKeeps(parse: AddrParser, st: State)
    requires Inv(parse, st) && Enabled(parse, st, NothingToWrite)
    ensures Inv(parse, Next(parse, st, NothingToWrite))
  {
    var st', w := Next(parse, st, NothingToWrite), st.job.w;
    BooksKeepLedger(parse, st, st');
    QueuedIsSound(parse, st, w, st');
  }

  /** A pass given up leaves the store as it was. */
  lemma AbandonKeeps(parse: AddrParser, st: State, st': State)
    requires Inv(parse, st) && SameBooks(st, st') && st'.stored == st.stored && st'.born == st.born && st'.job.Idle?
    ensures Inv(parse, st')
  {
    BooksKeepLedger(parse, st, st');
  }

  lemma CommitLands(parse: AddrParser, st: State, st': State, e: (string, nat, nat))
    requires Ledger(parse, st) && NoLostInvalidation(st) && EntryTrue(st, e)
    requires st'.(clock := st.clock, job := st.job) == st.(recs := Commit(st.recs, e.0, e.1, e.2))
    requires st'.clock >= st.clock
    ensures Ledger(parse, st') && NoLostInvalidation(st')
    ensures forall f :: EntrySound(st, f) ==> EntrySound(st', f)
  {
    forall s ensures Generation(st', s) == Generation(st, s) && LastInvalidation(st', s) == LastInvalidation(st, s) {}
    forall s | IsCurrent(st'.serving, st'.recs, s) && s != SOURCE_ZPR
      ensures HeldSince(st'.stored, st'.born, s, LastInvalidation(st', s))
    {
      if s == e.0 && Generation(st, s) == e.2 {
        assert st'.serving[s] == e.1;
      } else {
        assert IsCurrent(st.serving, st.recs, s);
      }
    }
  }

  lemma CommitKeeps(parse: AddrParser, st: State)
    requires Inv(parse, st) && st.job.Committing?
    ensures Inv(parse, Next(parse, st, CommitOne))
  {
    var st' := Next(parse, st, CommitOne);
    if st.job.queue == [] {
      BooksKeepLedger(parse, st, st');
    } else {
      var e := st.job.queue[0];
      assert e in st.job.queue;
      CommitLands(parse, st, st', e);
      forall f | f in st'.job.queue ensures EntrySound(st', f) { assert f in st.job.queue; }
    }
  }

  // ------------------------------------------------------------ steps at this address from elsewhere

  /** Apart from the clock and the job, only the record and perhaps all revisions changed. */
  ghost predicate Replaced(st: State, st': State, forgets: bool) {
    && st'.serving == st.serving && st'.nextRev == st.nextRev && st'.clock >= st.clock
    && st'.notified == st.notified && st'.flushed == st.flushed
    && st'.recs == if forgets then map[] else st.recs
  }

  lemma ReplaceKeepsWork(parse: AddrParser, st: State, st': State, w: Work, forgets: bool)
    requires WorkHolds(parse, st, w) && Replaced(st, st', forgets) && (forgets ==> Unnotified(st, w))
    requires !w.outcome.changed ==> AsFresh(st'.stored, st'.born, w)
    ensures WorkHolds(parse, st', w)
  {
    assert PlanHolds(st', w);
  }

  lemma ReplaceKeepsBooks(parse: AddrParser, st: State, st': State, forgets: bool)
    requires Ledger(parse, st) && Replaced(st, st', forgets) && st'.stored.Valid(parse)
    requires forgets || FreshForCurrent(st, st'.stored, st'.born)
    ensures Ledger(parse, st') && NoLostInvalidation(st')
  {}

  lemma ReplaceKeeps(parse: AddrParser, st: State, l: Label)
    requires Inv(parse, st) && Enabled(parse, st, l) && Careful(parse, st, l) && l.Replace?
    ensures Inv(parse, Next(parse, st, l))
  {
    var st' := Next(parse, st, l);
    ReplaceKeepsBooks(parse, st, st', l.forgets);
    match st.job
    case Idle =>
    case Planning(w) => ReplaceKeepsWork(parse, st, st', w, l.forgets);
    case Asking(w) => ReplaceKeepsWork(parse, st, st', w, l.forgets);
    case Waiting(w, _, _) => ReplaceKeepsWork(parse, st, st', w, l.forgets);
    case Committing(queue) =>
  }

  lemma CommitKeepsWork(parse: AddrParser, st: State, st': State, w: Work, s: string, rev: nat, generation: nat)
    requires WorkHolds(parse, st, w) && st'.(clock := st.clock, job := st.job)
      == st.(recs := Commit(st.recs, s, rev, generation)) && st'.clock >= st.clock
    requires Generation(st, s) == generation && s in st.serving && st.serving[s] == rev && s != SOURCE_ZPR ==>
      LastInvalidation(st, s) <= w.start && HeldSince(w.actor, w.born, s, LastInvalidation(st, s))
    ensures WorkHolds(parse, st', w)
  {
    forall t ensures Generation(st', t) == Generation(st, t) && LastInvalidation(st', t) == LastInvalidation(st, t) {}
    forall t | IsCurrent(st'.serving, st'.recs, t) && !IsCurrent(st.serving, st.recs, t)
      ensures t == s && Generation(st, s) == generation && st.serving[s] == rev {}
    assert PlanHolds(st', w);
  }

  lemma ForeignCommitKeeps(parse: AddrParser, st: State, l: Label)
    requires Inv(parse, st) && Enabled(parse, st, l) && Careful(parse, st, l) && l.ForeignCommit?
    ensures Inv(parse, Next(parse, st, l))
  {
    var st' := Next(parse, st, l);
    CommitLands(parse, st, st', (l.s, l.rev, l.generation));
    match st.job
    case Idle =>
    case Planning(w) => CommitKeepsWork(parse, st, st', w, l.s, l.rev, l.generation);
    case Asking(w) => CommitKeepsWork(parse, st, st', w, l.s, l.rev, l.generation);
    case Waiting(w, _, _) => CommitKeepsWork(parse, st, st', w, l.s, l.rev, l.generation);
    case Committing(queue) =>
  }

  /** A replaced record loses no invalidation exactly if it is young enough or the records are forgotten. */
  lemma ReplacementLosesExactly(parse: AddrParser, st: State, actor: Actor, births: Births, forgets: bool)
    requires Enabled(parse, st, Replace(actor, births, forgets))
    ensures NoLostInvalidation(Next(parse, st, Replace(actor, births, forgets)))
      <==> forgets || FreshForCurrent(st, actor, births)
  {}

  /** A renamed actor leaves the books it was loaded from alone. */
  lemma RenamedPassWritesElsewhere(parse: AddrParser, st: State, l: Label)
    requires Enabled(parse, st, l) && (l.Write? || l.WriteFails? || l.NothingToWrite?)
    requires st.job.w.actor.zprAddr != Some(st.addr)
    ensures Next(parse, st, l) == st.(clock := st.clock + 1, job := Idle)
  {}

  /** Its commits at the new address land on generations read at the old: they lose exactly if they match by chance. */
  lemma ForeignCommitLosesExactly(parse: AddrParser, st: State, s: string, rev: nat, generation: nat)
    requires NoLostInvalidation(st) && Enabled(parse, st, ForeignCommit(s, rev, generation))
    ensures NoLostInvalidation(Next(parse, st, ForeignCommit(s, rev, generation)))
      <==> (Generation(st, s) == generation && s in st.serving && st.serving[s] == rev && s != SOURCE_ZPR ==>
              HeldSince(st.stored, st.born, s, LastInvalidation(st, s)))
  {
    var st' := Next(parse, st, ForeignCommit(s, rev, generation));
    assert forall t :: LastInvalidation(st', t) == LastInvalidation(st, t);
    if Generation(st, s) == generation {
      assert IsCurrent(st'.serving, st'.recs, s) <==> s in st.serving && st.serving[s] == rev;
      assert forall t :: t != s ==> (IsCurrent(st'.serving, st'.recs, t) <==> IsCurrent(st.serving, st.recs, t));
    } else {
      assert forall t :: IsCurrent(st'.serving, st'.recs, t) <==> IsCurrent(st.serving, st.recs, t);
    }
  }

  // -------------------------------------------------------------------------- runs

  /** The steps around the pass. */
  lemma OutsideStepKeeps(parse: AddrParser, st: State, l: Label)
    requires Inv(parse, st) && Enabled(parse, st, l) && Careful(parse, st, l)
    requires l.Notify? || l.Flush? || l.Install? || l.Replace? || l.ForeignCommit?
    ensures Inv(parse, Next(parse, st, l))
  {
    match l
    case Notify(s) => NotifyKeeps(parse, st, s);
    case Flush(s) => FlushKeeps(parse, st, s);
    case Install(sources) => InstallKeeps(parse, st, sources);
    case Replace(_, _, _) => ReplaceKeeps(parse, st, l);
    case ForeignCommit(_, _, _) => ForeignCommitKeeps(parse, st, l);
  }

  /** The steps that end the asking. */
  lemma WriteStepKeeps(parse: AddrParser, st: State, l: Label)
    requires Inv(parse, st) && Enabled(parse, st, l) && (l.Write? || l.WriteFails? || l.NothingToWrite?)
    ensures Inv(parse, Next(parse, st, l))
  {
    if st.job.w.actor.zprAddr != Some(st.addr) {
      RenamedPassWritesElsewhere(parse, st, l);
      AbandonKeeps(parse, st, Next(parse, st, l));
    } else if l.NothingToWrite? {
      NothingToWriteKeeps(parse, st);
    } else if l.Write? || l.reached {
      WriteKeeps(parse, st, l);
    } else {
      AbandonKeeps(parse, st, Next(parse, st, l));
    }
  }

  lemma StepKeeps(parse: AddrParser, st: State, l: Label)
    requires Inv(parse, st) && Enabled(parse, st, l) && Careful(parse, st, l)
    ensures Inv(parse, Next(parse, st, l))
  {
    match l
    case Load => LoadKeeps(parse, st);
    case ReadRevision(s, rev) => ReadRevisionKeeps(parse, st, s, rev);
    case ReadGeneration(s) => ReadGenerationKeeps(parse, st, s);
    case StartAsking(_) => AskKeeps(parse, st, l);
    case BeginQuery(_) => AskKeeps(parse, st, l);
    case EndQuery(_, _) => AnswerKeeps(parse, st, l);
    case Write(_, _) => WriteStepKeeps(parse, st, l);
    case WriteFails(_, _, _) => WriteStepKeeps(parse, st, l);
    case NothingToWrite => WriteStepKeeps(parse, st, l);
    case CommitOne => CommitKeeps(parse, st);
    case _ => OutsideStepKeeps(parse, st, l);
  }

  /** No careful interleaving loses an invalidation. */
  lemma {:induction false} NoInterleavingLosesAnInvalidation(
      parse: AddrParser, st: State, labels: seq<Label>, end: State)
    requires Inv(parse, st) && Reaches(parse, st, labels, end) && CarefulRun(parse, st, labels)
    ensures Inv(parse, end) && NoLostInvalidation(end)
    decreases |labels|
  {
    if labels != [] {
      StepKeeps(parse, st, labels[0]);
      NoInterleavingLosesAnInvalidation(parse, Next(parse, st, labels[0]), labels[1..], end);
    }
  }

  lemma EveryRunIsSafe(parse: AddrParser, st: State, labels: seq<Label>, end: State)
    requires Initial(parse, st) && Reaches(parse, st, labels, end) && CarefulRun(parse, st, labels)
    ensures NoLostInvalidation(end)
  {
    NoInterleavingLosesAnInvalidation(parse, st, labels, end);
  }
}
