/**
 Runs of the refresh protocol: a pass in the protocol is a pass as the code runs it, and the runs
 on which an invalidation is lost when a step is not careful.
 */
module RefreshRuns {
  import opened Text
  import opened Attributes
  import opened Actors
  import opened Refresh
  import opened TrustedServices
  import opened RefreshProtocol

  // -------------------------------------------------------- a pass is a refresh

  /** Steps that can happen between the start of the asking and its end. */
  predicate WhileAsking(l: Label) {
    || l.BeginQuery? || l.EndQuery? || l.Notify? || l.Flush? || l.Install? || l.Replace? || l.ForeignCommit?
  }

  /** Every query is answered as the pass has it, at the pass's time. */
  ghost predicate AnswersAs(p: Pass, st: State, labels: seq<Label>)
    decreases |labels|
  {
    labels == [] || (Enabled(p.parse, st, labels[0]) ==>
      && WhileAsking(labels[0])
      && (labels[0].EndQuery? ==> labels[0].resp == p.answer(st.job.source) && labels[0].now == p.now)
      && AnswersAs(p, Next(p.parse, st, labels[0]), labels[1..]))
  }

  predicate PassOf(p: Pass, w: Work) { p.stale == w.plan && p.authority == w.authority }

  /** The work so far is the refresh by the sources asked so far; one more may be on its way. */
  ghost predicate Asked(p: Pass, st: State, a: Actor, order: seq<string>) {
    match st.job
    case Asking(w) =>
      && PassOf(p, w) && w.actor == Refreshed(p, a, order) && w.outcome == Reported(p, a, order)
      && LeftToAsk(p, a, order, w.todo)
    case Waiting(w, s, _) =>
      && PassOf(p, w) && w.actor == Refreshed(p, a, order) && w.outcome == Reported(p, a, order)
      && s !in w.todo && LeftToAsk(p, a, order, w.todo + {s})
    case _ => false
  }

  ghost predicate LeftToAsk(p: Pass, a: Actor, order: seq<string>, todo: set<string>) {
    todo <= SourcesToAsk(p, a) && Lists(order, SourcesToAsk(p, a) - todo)
  }

  lemma SameAnswer(p: Pass, q: Pass, a: Actor, s: string, o: Outcome)
    requires q == p.(answer := q.answer) && q.answer(s) == p.answer(s)
    ensures ApplyTo(q, a, s) == ApplyTo(p, a, s) && Report(q, a, s, o) == Report(p, a, s, o)
  {
    assert Vend(q, s) == Vend(p, s);
    assert forall x :: Drops(q, s, x) == Drops(p, s, x);
    assert Dropped(q, a, s) == Dropped(p, a, s);
  }

  /** One step of the asking: another source is answered, or nothing the pass knows changes. */
  lemma AskingStep(p: Pass, st: State, l: Label, a: Actor, order: seq<string>) returns (order': seq<string>)
    requires Asked(p, st, a, order) && Enabled(p.parse, st, l) && WhileAsking(l)
    requires l.EndQuery? ==> l.resp == p.answer(st.job.source) && l.now == p.now
    ensures Asked(p, Next(p.parse, st, l), a, order')
  {
    order' := order;
    if l.BeginQuery? {
      assert st.job.w.todo == (st.job.w.todo - {l.s}) + {l.s};
    } else if l.EndQuery? {
      var w, s := st.job.w, st.job.source;
      SameAnswer(p, PassFor(p.parse, w, l.now, l.resp), w.actor, s, w.outcome);
      RefreshedOneMore(p, a, order, s);
      var sources := SourcesToAsk(p, a);
      ListOneMore(order, sources - (w.todo + {s}), s);
      assert sources - (w.todo + {s}) + {s} == sources - w.todo;
      order' := order + [s];
    }
  }

  lemma {:induction false} AskingRun(
      p: Pass, st: State, labels: seq<Label>, end: State, a: Actor, order: seq<string>) returns (last: seq<string>)
    requires Asked(p, st, a, order) && Reaches(p.parse, st, labels, end) && AnswersAs(p, st, labels)
    ensures Asked(p, end, a, last)
    decreases |labels|
  {
    last := order;
    if labels != [] {
      var next := AskingStep(p, st, labels[0], a, order);
      last := AskingRun(p, Next(p.parse, st, labels[0]), labels[1..], end, a, next);
    }
  }

  /**
   Whatever happens around it, a pass that has asked all its sources has done to the actor it
   loaded what the refresh does, in some order of the sources.
   */
  lemma PassIsRefresh(p: Pass, st: State, labels: seq<Label>, end: State) returns (order: seq<string>)
    requires st.job.Planning? && st.job.w.outcome == NO_OUTCOME && PassOf(p, st.job.w)
    requires labels != [] && labels[0] == StartAsking(p.now)
    requires Reaches(p.parse, st, labels, end) && AnswersAs(p, Next(p.parse, st, labels[0]), labels[1..])
    requires end.job.Asking? && end.job.w.todo == {}
    ensures Lists(order, SourcesToAsk(p, st.job.w.actor))
    ensures end.job.w.actor == Refreshed(p, st.job.w.actor, order)
    ensures end.job.w.outcome == Reported(p, st.job.w.actor, order)
  {
    var a, begun := st.job.w.actor, Next(p.parse, st, labels[0]);
    assert begun.job.w.todo == SourcesToAsk(p, a);
    assert Asked(p, begun, a, []);
    order := AskingRun(p, begun, labels[1..], end, a, []);
    assert SourcesToAsk(p, a) - {} == SourcesToAsk(p, a);
  }

  // ------------------------------------------------------------- putting runs together

  ghost predicate Steps(parse: AddrParser, st: State, l: Label, st': State) {
    Enabled(parse, st, l) && Next(parse, st, l) == st'
  }

  lemma ReachesStep(parse: AddrParser, st: State, l: Label, st': State, rest: seq<Label>, end: State)
    requires Steps(parse, st, l, st') && Reaches(parse, st', rest, end)
    ensures Reaches(parse, st, [l] + rest, end)
  {
    assert ([l] + rest)[0] == l && ([l] + rest)[1..] == rest;
  }

  lemma {:induction false} ReachesAppend(
      parse: AddrParser, st: State, first: seq<Label>, mid: State, second: seq<Label>, end: State)
    requires Reaches(parse, st, first, mid) && Reaches(parse, mid, second, end)
    ensures Reaches(parse, st, first + second, end)
    decreases |first|
  {
    if first == [] {
      assert first + second == second;
    } else {
      ReachesAppend(parse, Next(parse, st, first[0]), first[1..], mid, second, end);
      assert (first + second)[0] == first[0] && (first + second)[1..] == first[1..] + second;
    }
  }

  /** Labels that are careful in every state. */
  predicate Harmless(labels: seq<Label>) { forall l :: l in labels ==> l.Notify? || l.CommitOne? }

  lemma {:induction false} HarmlessIsCareful(parse: AddrParser, st: State, labels: seq<Label>)
    requires Harmless(labels)
    ensures CarefulRun(parse, st, labels)
    decreases |labels|
  {
    if labels != [] && Enabled(parse, st, labels[0]) {
      assert labels[0] in labels;
      HarmlessIsCareful(parse, Next(parse, st, labels[0]), labels[1..]);
    }
  }

  /** No careful run from here loses an invalidation. */
  ghost predicate SafeFrom(parse: AddrParser, st: State) {
    forall labels, end :: Reaches(parse, st, labels, end) && CarefulRun(parse, st, labels) ==> NoLostInvalidation(end)
  }

  // ------------------------------------------------- the commits of a pass, and only they

  function Notifies(s: string, n: nat): (r: seq<Label>)
    ensures Harmless(r)
  {
    if n == 0 then [] else [Notify(s)] + Notifies(s, n - 1)
  }

  function Commits(k: nat): (r: seq<Label>)
    ensures Harmless(r)
  {
    if k == 0 then [] else [CommitOne] + Commits(k - 1)
  }

  /** The stored record, the sources' revisions and flushes and the job's kind are as they were. */
  ghost predicate SameStore(st: State, st': State) {
    st'.serving == st.serving && st'.stored == st.stored && st'.born == st.born && st'.flushed == st.flushed
  }

  lemma {:induction false} CanNotify(parse: AddrParser, st: State, s: string, n: nat) returns (mid: State)
    ensures Reaches(parse, st, Notifies(s, n), mid) && SameStore(st, mid) && mid.job == st.job
    ensures n == 0 ==> mid == st
    ensures n > 0 ==> Generation(mid, s) == Generation(st, s) + n && At(mid.notified, s) > st.clock
    decreases n
  {
    mid := st;
    if n > 0 {
      var next := Next(parse, st, Notify(s));
      mid := CanNotify(parse, next, s, n - 1);
      ReachesStep(parse, st, Notify(s), next, Notifies(s, n - 1), mid);
    }
  }

  lemma {:induction false} CanCommit(parse: AddrParser, st: State, k: nat, s: string) returns (end: State)
    requires st.job.Committing? && k <= |st.job.queue| && forall i :: 0 <= i < k ==> st.job.queue[i].0 != s
    ensures Reaches(parse, st, Commits(k), end) && SameStore(st, end) && end.notified == st.notified
    ensures end.job == Committing(st.job.queue[k..]) && RecordOf(end.recs, s) == RecordOf(st.recs, s)
    decreases k
  {
    end := st;
    if k == 0 {
      assert st.job.queue[0..] == st.job.queue;
    } else {
      var next := Next(parse, st, CommitOne);
      assert next.job.queue == st.job.queue[1..];
      end := CanCommit(parse, next, k - 1, s);
      ReachesStep(parse, st, CommitOne, next, Commits(k - 1), end);
      assert st.job.queue[1..][k - 1..] == st.job.queue[k..];
    }
  }

  predicate OncePerSource(queue: seq<(string, nat, nat)>) {
    forall i, j :: 0 <= i < j < |queue| ==> queue[i].0 != queue[j].0
  }

  lemma NothingIsBornLater(a: Actor, born: Births, s: string, t: nat, now: nat)
    requires now < t && forall k :: k in born ==> born[k] <= now
    ensures HeldSince(a, born, s, t) <==> !Holds(a, s)
  {}

  /** The last step of a losing run: the entry lands although the store is older than the last invalidation. */
  lemma LandsTooLate(parse: AddrParser, st: State, e: (string, nat, nat)) returns (end: State)
    requires st.job.Committing? && st.job.queue != [] && st.job.queue[0] == e && e.2 == Generation(st, e.0)
    requires e.0 in st.serving && st.serving[e.0] == e.1 && e.0 != SOURCE_ZPR
    requires !HeldSince(st.stored, st.born, e.0, LastInvalidation(st, e.0))
    ensures Reaches(parse, st, [CommitOne], end) && !NoLostInvalidation(end)
  {
    end := Next(parse, st, CommitOne);
    ReachesStep(parse, st, CommitOne, end, [], end);
    assert [CommitOne] + [] == [CommitOne];
    assert IsCurrent(end.serving, end.recs, e.0) && LastInvalidation(end, e.0) == LastInvalidation(st, e.0);
  }

  /** An unsound entry is reached after notifications enough to match its generation, and lands. */
  lemma LosingRun(parse: AddrParser, st: State, i: nat) returns (labels: seq<Label>, end: State)
    requires st.job.Committing? && i < |st.job.queue| && OncePerSource(st.job.queue)
    requires st.job.queue[i].1 < st.nextRev && !EntrySound(st, st.job.queue[i])
    requires forall k :: k in st.born ==> st.born[k] <= st.clock
    ensures Reaches(parse, st, labels, end) && Harmless(labels) && !NoLostInvalidation(end)
  {
    var e := st.job.queue[i];
    var s, n := e.0, e.2 - Generation(st, e.0);
    var mid := CanNotify(parse, st, s, n);
    var near := CanCommit(parse, mid, i, s);
    if n > 0 { NothingIsBornLater(st.stored, st.born, s, LastInvalidation(near, s), st.clock); }
    end := LandsTooLate(parse, near, e);
    ReachesAppend(parse, mid, Commits(i), near, [CommitOne], end);
    ReachesAppend(parse, st, Notifies(s, n), mid, Commits(i) + [CommitOne], end);
    labels := Notifies(s, n) + (Commits(i) + [CommitOne]);
  }

  lemma UnsoundEntryLoses(parse: AddrParser, st: State, i: nat)
    requires st.job.Committing? && i < |st.job.queue| && OncePerSource(st.job.queue)
    requires st.job.queue[i].1 < st.nextRev && !EntrySound(st, st.job.queue[i])
    requires forall k :: k in st.born ==> st.born[k] <= st.clock
    ensures !SafeFrom(parse, st)
  {
    var labels, end := LosingRun(parse, st, i);
    HarmlessIsCareful(parse, st, labels);
  }

  /** While a pass commits, no careful run loses an invalidation exactly if every entry still queued is sound. */
  lemma CommitsSafeExactly(parse: AddrParser, st: State)
    requires st.job.Committing? && OncePerSource(st.job.queue) && Ledger(parse, st) && NoLostInvalidation(st)
    requires forall e :: e in st.job.queue ==> e.1 < st.nextRev
    requires forall k :: k in st.born ==> st.born[k] <= st.clock
    ensures SafeFrom(parse, st) <==> forall e :: e in st.job.queue ==> EntrySound(st, e)
  {
    if forall e :: e in st.job.queue ==> EntrySound(st, e) {
      forall labels, end | Reaches(parse, st, labels, end) && CarefulRun(parse, st, labels)
        ensures NoLostInvalidation(end)
      {
        NoInterleavingLosesAnInvalidation(parse, st, labels, end);
      }
    } else {
      var e :| e in st.job.queue && !EntrySound(st, e);
      var i :| 0 <= i < |st.job.queue| && st.job.queue[i] == e;
      UnsoundEntryLoses(parse, st, i);
    }
  }

  predicate StillServed(st: State, e: (string, nat, nat)) {
    e.0 in st.serving && st.serving[e.0] == e.1 && e.0 != SOURCE_ZPR
  }

  /**
   A reconnect forgets the generations a pass has planned on. With the pass's commits still to
   come, no careful continuation loses an invalidation exactly if, for every queued revision still
   served, the new record holds nothing from the source, or the planned generation was 0 and what
   it holds is no older than the source's last invalidation.
   */
  lemma ForgettingLosesExactly(parse: AddrParser, st: State, actor: Actor, births: Births)
    requires Inv(parse, st) && st.job.Committing? && OncePerSource(st.job.queue)
    requires Enabled(parse, st, Replace(actor, births, true)) && forall k :: k in births ==> births[k] <= st.clock
    ensures SafeFrom(parse, Next(parse, st, Replace(actor, births, true))) <==>
      forall e :: e in st.job.queue && StillServed(st, e) && Holds(actor, e.0) ==>
        e.2 == 0 && HeldSince(actor, births, e.0, LastInvalidation(st, e.0))
  {
    var st' := Next(parse, st, Replace(actor, births, true));
    ReplaceKeepsBooks(parse, st, st', true);
    assert forall e :: e in st.job.queue ==> EntrySound(st, e);
    CommitsSafeExactly(parse, st');
    assert forall s :: Generation(st', s) == 0 && LastInvalidation(st', s) == LastInvalidation(st, s);
  }

  // ---------------------------------------------------------------- concrete runs

  const S := "s"
  const HELD := Attribute(Role, [ROLE_NODE], 9, S)
  const REFUSED := Attribute(Role, [], 9, S)
  const ADDRESS := Attribute(ZprAddr, ["a"], 9, SOURCE_ZPR)

  /** An actor with a role from the source, and one with nothing from it. */
  const HOLDER := Actor(map[ZprAddr := ADDRESS, Role := HELD], [], Some(7))
  const BARE := Actor(map[ZprAddr := ADDRESS], [], Some(7))
  const BORN: Births := map[Role := 0]

  /** The source serves its first revision. */
  function Start(a: Actor): State { State(7, 0, map[S := 1], 2, map[], map[], map[], a, BORN, Idle) }

  function Flushed(a: Actor): State {
    Start(a).(clock := 1, serving := map[S := 2], nextRev := 3, flushed := map[S := 1])
  }

  function Notified(a: Actor): State {
    Start(a).(clock := 1, recs := map[S := Record(None, 1)], notified := map[S := 1])
  }

  lemma StartIsInitial(parse: AddrParser, a: Actor)
    requires parse("a") == Some(7) && a in {HOLDER, BARE}
    ensures Initial(parse, Start(a))
  {}

  lemma StepFlush(parse: AddrParser, a: Actor)
    ensures Steps(parse, Start(a), Flush(S), Flushed(a))
  {}

  lemma StepNotify(parse: AddrParser, a: Actor)
    ensures Steps(parse, Start(a), Notify(S), Notified(a))
  {}

  /** The pass can run from here and asks the one source. */
  predicate ReadyToAsk(b: State, rev: nat, g: nat) {
    && b.job.Idle? && b.addr == 7 && b.stored in {HOLDER, BARE} && b.stored.zprAddr == Some(7)
    && RecordOf(b.recs, S) == Record(None, g) && 1 <= rev < b.nextRev
  }

  function PassAt(parse: AddrParser, rev: nat, g: nat, resp: Response): Pass {
    Pass(parse, 0, map[S := (rev, g)], None, _ => resp)
  }

  /** An answer that leaves the actor as it is. */
  predicate LeavesAlone(parse: AddrParser, b: State, rev: nat, g: nat, resp: Response) {
    var p := PassAt(parse, rev, g, resp);
    && ApplyTo(p, b.stored, S) == b.stored && Rebirth(p, S, b.born, b.clock + 5) == b.born
    && Report(p, b.stored, S, NO_OUTCOME) == Outcome(false, [(S, rev, g)], [])
  }

  function After(b: State, k: nat, job: Job): State { b.(clock := b.clock + k, job := job) }

  function Begun(b: State): Work {
    Work(b.stored, b.born, b.clock + 1, b.clock + 1, None, map[], map[], {}, NO_OUTCOME)
  }

  function Plan(b: State, rev: nat, g: nat): Work {
    Begun(b).(mark := b.clock + 3, revs := map[S := rev], plan := map[S := (rev, g)])
  }

  lemma StepLoad(parse: AddrParser, b: State, rev: nat, g: nat)
    requires ReadyToAsk(b, rev, g)
    ensures Steps(parse, b, Load, After(b, 1, Planning(Begun(b))))
  {}

  lemma StepRead(parse: AddrParser, b: State, rev: nat, g: nat)
    requires ReadyToAsk(b, rev, g)
    ensures Steps(parse, After(b, 1, Planning(Begun(b))), ReadRevision(S, rev),
                  After(b, 2, Planning(Begun(b).(mark := b.clock + 2, revs := map[S := rev]))))
  {}

  lemma StepPlan(parse: AddrParser, b: State, rev: nat, g: nat)
    requires ReadyToAsk(b, rev, g)
    ensures Steps(parse, After(b, 2, Planning(Begun(b).(mark := b.clock + 2, revs := map[S := rev]))),
                  ReadGeneration(S), After(b, 3, Planning(Plan(b, rev, g))))
  {}

  lemma StepAsk(parse: AddrParser, b: State, rev: nat, g: nat)
    requires ReadyToAsk(b, rev, g)
    ensures Steps(parse, After(b, 3, Planning(Plan(b, rev, g))), StartAsking(0),
                  After(b, 4, Asking(Plan(b, rev, g).(todo := {S}))))
  {
    assert SourcesToAsk(PassFor(parse, Plan(b, rev, g), 0, Failed), b.stored) == {S};
  }

  lemma StepBegin(parse: AddrParser, b: State, rev: nat, g: nat)
    ensures Steps(parse, After(b, 4, Asking(Plan(b, rev, g).(todo := {S}))), BeginQuery(S),
                  After(b, 5, Waiting(Plan(b, rev, g), S, b.clock + 5)))
  {
    assert {S} - {S} == {};
  }

  lemma StepAnswer(parse: AddrParser, b: State, rev: nat, g: nat, resp: Response)
    requires LeavesAlone(parse, b, rev, g, resp)
    ensures Steps(parse, After(b, 5, Waiting(Plan(b, rev, g), S, b.clock + 5)), EndQuery(resp, 0),
                  After(b, 6, Asking(Plan(b, rev, g).(outcome := Outcome(false, [(S, rev, g)], [])))))
  {
    var p, q := PassAt(parse, rev, g, resp), PassFor(parse, Plan(b, rev, g), 0, resp);
    SameAnswer(p, q, b.stored, S, NO_OUTCOME);
    assert Vend(p, S) == Vend(q, S);
  }

  lemma StepFinish(parse: AddrParser, b: State, rev: nat, g: nat)
    requires ReadyToAsk(b, rev, g)
    ensures Steps(parse, After(b, 6, Asking(Plan(b, rev, g).(outcome := Outcome(false, [(S, rev, g)], [])))),
                  NothingToWrite, After(b, 7, Committing([(S, rev, g)])))
  {}

  function AskLabels(resp: Response): seq<Label> {
    [StartAsking(0)] + ([BeginQuery(S)] + ([EndQuery(resp, 0)] + ([NothingToWrite] + [])))
  }

  function PassLabels(rev: nat, resp: Response): seq<Label> {
    [Load] + ([ReadRevision(S, rev)] + ([ReadGeneration(S)] + AskLabels(resp)))
  }

  lemma AskQueues(parse: AddrParser, b: State, rev: nat, g: nat, resp: Response)
    requires ReadyToAsk(b, rev, g) && LeavesAlone(parse, b, rev, g, resp)
    ensures Reaches(parse, After(b, 3, Planning(Plan(b, rev, g))), AskLabels(resp),
                    After(b, 7, Committing([(S, rev, g)])))
  {
    var plan, end := Plan(b, rev, g), After(b, 7, Committing([(S, rev, g)]));
    var s4, s5 := After(b, 4, Asking(plan.(todo := {S}))), After(b, 5, Waiting(plan, S, b.clock + 5));
    var s6 := After(b, 6, Asking(plan.(outcome := Outcome(false, [(S, rev, g)], []))));
    StepFinish(parse, b, rev, g);
    ReachesStep(parse, s6, NothingToWrite, end, [], end);
    StepAnswer(parse, b, rev, g, resp);
    ReachesStep(parse, s5, EndQuery(resp, 0), s6, [NothingToWrite] + [], end);
    StepBegin(parse, b, rev, g);
    ReachesStep(parse, s4, BeginQuery(S), s5, [EndQuery(resp, 0)] + ([NothingToWrite] + []), end);
    StepAsk(parse, b, rev, g);
    ReachesStep(parse, After(b, 3, Planning(plan)), StartAsking(0), s4,
                [BeginQuery(S)] + ([EndQuery(resp, 0)] + ([NothingToWrite] + [])), end);
  }

  /** A pass whose one answer changes nothing queues the revision and generation it planned on. */
  lemma PassQueues(parse: AddrParser, b: State, rev: nat, g: nat, resp: Response)
    requires ReadyToAsk(b, rev, g) && LeavesAlone(parse, b, rev, g, resp)
    ensures Reaches(parse, b, PassLabels(rev, resp), After(b, 7, Committing([(S, rev, g)])))
  {
    var end := After(b, 7, Committing([(S, rev, g)]));
    var s1 := After(b, 1, Planning(Begun(b)));
    var s2 := After(b, 2, Planning(Begun(b).(mark := b.clock + 2, revs := map[S := rev])));
    var s3 := After(b, 3, Planning(Plan(b, rev, g)));
    AskQueues(parse, b, rev, g, resp);
    StepPlan(parse, b, rev, g);
    ReachesStep(parse, s2, ReadGeneration(S), s3, AskLabels(resp), end);
    StepRead(parse, b, rev, g);
    ReachesStep(parse, s1, ReadRevision(S, rev), s2, [ReadGeneration(S)] + AskLabels(resp), end);
    StepLoad(parse, b, rev, g);
    ReachesStep(parse, b, Load, s1, [ReadRevision(S, rev)] + ([ReadGeneration(S)] + AskLabels(resp)), end);
  }

  lemma RefusedLeavesAlone(parse: AddrParser, b: State, rev: nat, g: nat)
    requires b.stored == HOLDER && b.born == BORN
    ensures LeavesAlone(parse, b, rev, g, Vended([REFUSED]))
  {
    var p := PassAt(parse, rev, g, Vended([REFUSED]));
    assert EarliestUserExpiry([REFUSED][..0]) == None && EarliestUserExpiry([REFUSED]) == None;
    assert Vend(p, S) == [REFUSED] && !Accepts(parse, REFUSED) && REFUSED in Vend(p, S);
    assert AddAll(parse, HOLDER, [REFUSED][..0]) == HOLDER;
    assert Added(p, HOLDER, S) == HOLDER;
    assert Dropped(p, HOLDER, S) == {};
    MinusNothing([]);
    forall k ensures Wrote(p, S, k).None? { LastAcceptedIsVended(parse, Vend(p, S), k); }
  }

  lemma NothingLeavesAlone(parse: AddrParser, b: State, rev: nat, g: nat)
    requires b.stored == BARE && b.born == BORN
    ensures LeavesAlone(parse, b, rev, g, Vended([]))
  {
    var p := PassAt(parse, rev, g, Vended([]));
    assert Vend(p, S) == [] && Added(p, BARE, S) == BARE && Dropped(p, BARE, S) == {};
    MinusNothing([]);
  }

  /** The source is recorded as current at its second revision. */
  function Recorded(a: Actor): State {
    Flushed(a).(clock := 9, recs := map[S := Record(Some(2), 0)], job := Committing([]))
  }

  lemma StepCommit(parse: AddrParser, a: Actor)
    ensures Steps(parse, After(Flushed(a), 7, Committing([(S, 2, 0)])), CommitOne, Recorded(a))
  {
    assert [(S, 2, 0)][1..] == [] && Commit(map[], S, 2, 0) == map[S := Record(Some(2), 0)];
  }

  function FlushAndPass(resp: Response): seq<Label> { [Flush(S)] + (PassLabels(2, resp) + ([CommitOne] + [])) }

  lemma FlushedAndRecorded(parse: AddrParser, a: Actor, resp: Response)
    requires a in {HOLDER, BARE} && LeavesAlone(parse, Flushed(a), 2, 0, resp)
    ensures Reaches(parse, Start(a), FlushAndPass(resp), Recorded(a))
  {
    var queued := After(Flushed(a), 7, Committing([(S, 2, 0)]));
    StepCommit(parse, a);
    ReachesStep(parse, queued, CommitOne, Recorded(a), [], Recorded(a));
    PassQueues(parse, Flushed(a), 2, 0, resp);
    ReachesAppend(parse, Flushed(a), PassLabels(2, resp), queued, [CommitOne] + [], Recorded(a));
    StepFlush(parse, a);
    ReachesStep(parse, Start(a), Flush(S), Flushed(a), PassLabels(2, resp) + ([CommitOne] + []), Recorded(a));
  }

  lemma OldRoleIsLost(st: State)
    requires IsCurrent(st.serving, st.recs, S) && st.stored == HOLDER && st.born == BORN && At(st.flushed, S) > 0
    ensures !NoLostInvalidation(st)
  {
    assert HELD.source == S && Role in HOLDER.attrs;
  }

  /** A run that loses an invalidation: a flush, then a pass whose one answer is refused and keeps the old role. */
  lemma RefusedRunLosesAnInvalidation(parse: AddrParser)
    requires parse("a") == Some(7)
    ensures Initial(parse, Start(HOLDER)) && !NoLostInvalidation(Recorded(HOLDER))
    ensures Reaches(parse, Start(HOLDER), FlushAndPass(Vended([REFUSED])), Recorded(HOLDER))
  {
    StartIsInitial(parse, HOLDER);
    RefusedLeavesAlone(parse, Flushed(HOLDER), 2, 0);
    FlushedAndRecorded(parse, HOLDER, Vended([REFUSED]));
    OldRoleIsLost(Recorded(HOLDER));
  }

  lemma StepReplace(parse: AddrParser, end: State)
    requires parse("a") == Some(7) && end == Recorded(BARE).(clock := 10, stored := HOLDER, born := BORN)
    ensures Steps(parse, Recorded(BARE), Replace(HOLDER, BORN, false), end)
  {}

  /** A run that loses one by a replaced record: the source is current with nothing vended, then an old role comes. */
  lemma ReplacedRunLosesAnInvalidation(parse: AddrParser)
    requires parse("a") == Some(7)
    ensures Initial(parse, Start(BARE))
    ensures exists end ::
      && Reaches(parse, Start(BARE), FlushAndPass(Vended([])) + ([Replace(HOLDER, BORN, false)] + []), end)
      && !NoLostInvalidation(end)
  {
    StartIsInitial(parse, BARE);
    NothingLeavesAlone(parse, Flushed(BARE), 2, 0);
    FlushedAndRecorded(parse, BARE, Vended([]));
    var end := Recorded(BARE).(clock := 10, stored := HOLDER, born := BORN);
    StepReplace(parse, end);
    ReachesStep(parse, Recorded(BARE), Replace(HOLDER, BORN, false), end, [], end);
    ReachesAppend(parse, Start(BARE), FlushAndPass(Vended([])), Recorded(BARE),
                  [Replace(HOLDER, BORN, false)] + [], end);
    OldRoleIsLost(end);
  }

  /** A run that loses one by a commit from elsewhere, whose generation matches by chance. */
  lemma ForeignRunLosesAnInvalidation(parse: AddrParser)
    requires parse("a") == Some(7)
    ensures Initial(parse, Start(HOLDER))
    ensures exists end ::
      && Reaches(parse, Start(HOLDER), [Flush(S)] + ([ForeignCommit(S, 2, 0)] + []), end)
      && !NoLostInvalidation(end)
  {
    StartIsInitial(parse, HOLDER);
    var end := Flushed(HOLDER).(clock := 2, recs := Commit(map[], S, 2, 0));
    ReachesStep(parse, Flushed(HOLDER), ForeignCommit(S, 2, 0), end, [], end);
    StepFlush(parse, HOLDER);
    ReachesStep(parse, Start(HOLDER), Flush(S), Flushed(HOLDER), [ForeignCommit(S, 2, 0)] + [], end);
    OldRoleIsLost(end);
  }

  /** The pass planned on generation 1 and is about to commit. */
  const PLANNED_ON_ONE := After(Notified(BARE), 7, Committing([(S, 1, 1)]))

  lemma PlansOnOne(parse: AddrParser)
    ensures Reaches(parse, Start(BARE), [Notify(S)] + PassLabels(1, Vended([])), PLANNED_ON_ONE)
  {
    NothingLeavesAlone(parse, Notified(BARE), 1, 1);
    PassQueues(parse, Notified(BARE), 1, 1, Vended([]));
    StepNotify(parse, BARE);
    ReachesStep(parse, Start(BARE), Notify(S), Notified(BARE), PassLabels(1, Vended([])), PLANNED_ON_ONE);
  }

  lemma ForgottenLoses(parse: AddrParser)
    requires parse("a") == Some(7)
    ensures Enabled(parse, PLANNED_ON_ONE, Replace(HOLDER, BORN, true))
    ensures !SafeFrom(parse, Next(parse, PLANNED_ON_ONE, Replace(HOLDER, BORN, true)))
  {
    assert Role in HOLDER.attrs && HELD.source == S && Holds(HOLDER, S);
    assert (S, 1, 1) in PLANNED_ON_ONE.job.queue && StillServed(PLANNED_ON_ONE, (S, 1, 1));
    PlannedOnOneHolds(parse);
    ForgettingLosesExactly(parse, PLANNED_ON_ONE, HOLDER, BORN);
  }

  lemma PlannedOnOneHolds(parse: AddrParser)
    requires parse("a") == Some(7)
    ensures Inv(parse, PLANNED_ON_ONE)
  {}

  /** A run on whose pass a reconnect pulls the generations: a careful continuation loses an invalidation. */
  lemma ForgottenRunLosesAnInvalidation(parse: AddrParser)
    requires parse("a") == Some(7)
    ensures Initial(parse, Start(BARE))
    ensures Reaches(parse, Start(BARE), [Notify(S)] + PassLabels(1, Vended([])), PLANNED_ON_ONE)
    ensures Enabled(parse, PLANNED_ON_ONE, Replace(HOLDER, BORN, true))
    ensures !SafeFrom(parse, Next(parse, PLANNED_ON_ONE, Replace(HOLDER, BORN, true)))
  {
    StartIsInitial(parse, BARE);
    PlansOnOne(parse);
    ForgottenLoses(parse);
  }
}
