/**
 The order in which a refresh pass visits its sources is hash order. When sources vend
 disjoint keys it decides nothing about the attributes, the queued revisions or the report,
 and decides the identity keys exactly when one of them changes hands during the pass.
 */
module RefreshOrder {
  import opened Text
  import opened Attributes
  import opened Actors
  import opened Refresh

  predicate VendsKey(p: Pass, s: string, k: Key) {
    exists v :: v in Vend(p, s) && v.key == k
  }

  /** Sources stamp what they vend and never vend the same key. */
  ghost predicate Orderly(p: Pass, sources: set<string>) {
    && (forall s, v :: s in sources && v in Vend(p, s) ==> v.source == s)
    && (forall s, t, k :: s in sources && t in sources && s != t ==> !(VendsKey(p, s, k) && VendsKey(p, t, k)))
  }

  /** The same, said of the raw answers of a pass whose actor already has user authority `g`. */
  ghost predicate OrderlyAnswers(p: Pass, a: Actor, sources: set<string>, g: string) {
    && p.authority == Some(g)
    && UserAuthority in a.attrs && a.attrs[UserAuthority].value == [g] && a.attrs[UserAuthority].source == g
    && (forall s, v :: s in sources && v in Raw(p, s) ==> v.source == s && v.key != UserAuthority)
    && (forall s, t, v, w :: s in sources && t in sources && s != t && v in Raw(p, s) && w in Raw(p, t) ==>
          v.key != w.key)
  }

  function Raw(p: Pass, s: string): seq<Attribute> {
    if p.answer(s).Vended? then p.answer(s).attrs else []
  }

  /** Besides the raw answer there is only the authority, and only from its present holder. */
  lemma VendIsRawOrAuthority(p: Pass, s: string, g: string)
    requires p.authority == Some(g)
    ensures forall v :: v in Vend(p, s) ==>
              v in Raw(p, s) || (s == g && v.key == UserAuthority && v.value == [g] && v.source == g)
  {}

  lemma AnswersAreOrderly(p: Pass, a: Actor, sources: set<string>, g: string)
    requires OrderlyAnswers(p, a, sources, g)
    ensures Orderly(p, sources)
  {
    forall s | s in sources ensures forall v :: v in Vend(p, s) ==> v.source == s {
      VendIsRawOrAuthority(p, s, g);
    }
    forall s, t, k | s in sources && t in sources && s != t ensures !(VendsKey(p, s, k) && VendsKey(p, t, k)) {
      VendIsRawOrAuthority(p, s, g);
      VendIsRawOrAuthority(p, t, g);
    }
  }

  // -------------------------------------------------------------- attributes, key by key

  lemma WriterVends(p: Pass, s: string, k: Key)
    requires Wrote(p, s, k).Some?
    ensures VendsKey(p, s, k) && Wrote(p, s, k).value in Vend(p, s)
  {
    LastAcceptedIsVended(p.parse, Vend(p, s), k);
  }

  predicate DropsOld(p: Pass, order: seq<string>, a0: Option<Attribute>) {
    a0.Some? && a0.value.source in order && Drops(p, a0.value.source, a0.value)
  }

  predicate Untouched(p: Pass, order: seq<string>, k: Key) {
    forall s :: s in order ==> Wrote(p, s, k).None?
  }

  predicate DistinctSources(order: seq<string>) {
    forall i, j :: 0 <= i < j < |order| ==> order[i] != order[j]
  }

  /** Where a key ends: with its one writer's value, or else with what was there, pruned or not. */
  lemma {:induction false} KeyEnds(p: Pass, a: Actor, sources: set<string>, order: seq<string>, k: Key)
    requires Orderly(p, sources) && DistinctSources(order) && (forall s :: s in order ==> s in sources)
    ensures forall s :: s in order && Wrote(p, s, k).Some? ==>
              Refreshed(p, a, order).Get(k) == if Drops(p, s, Wrote(p, s, k).value) then None else Wrote(p, s, k)
    ensures Untouched(p, order, k) ==>
              Refreshed(p, a, order).Get(k) == if DropsOld(p, order, a.Get(k)) then None else a.Get(k)
    decreases |order|
  {
    if order != [] {
      var init, last := order[..|order| - 1], order[|order| - 1];
      assert order == init + [last] && last !in init;
      KeyEnds(p, a, sources, init, k);
      var mid := Refreshed(p, a, init);
      ApplyPointwise(p, mid, last, k);
      forall s | s in order && Wrote(p, s, k).Some?
        ensures Refreshed(p, a, order).Get(k) == if Drops(p, s, Wrote(p, s, k).value) then None else Wrote(p, s, k)
      {
        WriterVends(p, s, k);
        if s != last && Wrote(p, last, k).Some? { WriterVends(p, last, k); }
      }
    }
  }

  // ------------------------------------------------------------------ identity keys

  function Gone(p: Pass, a: Actor, order: seq<string>): set<Key> {
    if order == [] then {}
    else
      var init, last := order[..|order| - 1], order[|order| - 1];
      Gone(p, a, init) + Dropped(p, Refreshed(p, a, init), last)
  }

  lemma {:induction false} MinusTwice(keys: seq<Key>, g1: set<Key>, g2: set<Key>)
    ensures Minus(Minus(keys, g1), g2) == Minus(keys, g1 + g2)
    decreases |keys|
  {
    if keys != [] {
      var init, last := keys[..|keys| - 1], keys[|keys| - 1];
      MinusTwice(init, g1, g2);
      if last !in g1 {
        var m := Minus(init, g1);
        assert (m + [last])[..|m|] == m;
      }
    }
  }

  lemma {:induction false} MinusAgree(keys: seq<Key>, g1: set<Key>, g2: set<Key>)
    requires forall k :: k in keys ==> (k in g1 <==> k in g2)
    ensures Minus(keys, g1) == Minus(keys, g2)
    decreases |keys|
  {
    if keys != [] {
      assert keys == keys[..|keys| - 1] + [keys[|keys| - 1]];
      MinusAgree(keys[..|keys| - 1], g1, g2);
    }
  }

  lemma {:induction false} IdentityLosesWhatWent(p: Pass, a: Actor, order: seq<string>)
    ensures Refreshed(p, a, order).identityKeys == Minus(a.identityKeys, Gone(p, a, order))
    decreases |order|
  {
    if order == [] {
      MinusNothing(a.identityKeys);
    } else {
      var init, last := order[..|order| - 1], order[|order| - 1];
      IdentityLosesWhatWent(p, a, init);
      var mid := Refreshed(p, a, init);
      ApplyPointwise(p, mid, last, ZprAddr);
      MinusTwice(a.identityKeys, Gone(p, a, init), Dropped(p, mid, last));
    }
  }

  /** A key that passes from one refreshed source, which lets it go, to another, which keeps it. */
  ghost predicate Contested(p: Pass, a: Actor, sources: set<string>, k: Key) {
    exists s, t :: s in sources && t in sources && s != t
      && Wrote(p, s, k).Some? && !Drops(p, s, Wrote(p, s, k).value)
      && k in a.attrs && Drops(p, t, a.attrs[k])
  }

  /** An uncontested key goes, or stays, whatever the order. */
  lemma {:induction false} UncontestedGone(p: Pass, a: Actor, sources: set<string>, order: seq<string>, k: Key)
    requires Orderly(p, sources) && DistinctSources(order) && (forall s :: s in order ==> s in sources)
    requires !Contested(p, a, sources, k)
    ensures forall s :: s in order && Wrote(p, s, k).Some? ==>
              (Drops(p, s, Wrote(p, s, k).value) ==> k in Gone(p, a, order))
    ensures forall s :: s in sources && Wrote(p, s, k).Some? && !Drops(p, s, Wrote(p, s, k).value) ==>
              k !in Gone(p, a, order)
    ensures Untouched(p, order, k) ==> (k in Gone(p, a, order) <==> DropsOld(p, order, a.Get(k)))
    decreases |order|
  {
    if order != [] {
      var init, last := order[..|order| - 1], order[|order| - 1];
      assert order == init + [last] && last !in init;
      UncontestedGone(p, a, sources, init, k);
      KeyEnds(p, a, sources, init, k);
      var mid := Refreshed(p, a, init);
      ApplyPointwise(p, mid, last, k);
      forall s | s in sources && Wrote(p, s, k).Some? && !Drops(p, s, Wrote(p, s, k).value)
        ensures k !in Gone(p, a, order)
      {
        WriterVends(p, s, k);
        if Wrote(p, last, k).Some? { WriterVends(p, last, k); }
        if s in init {
          assert mid.Get(k) == Wrote(p, s, k);
        } else if s != last {
          forall t | t in init ensures Wrote(p, t, k).None? {
            if Wrote(p, t, k).Some? { WriterVends(p, t, k); }
          }
          assert Untouched(p, init, k);
        }
      }
    }
  }

  /** What one source wrote another neither overwrites nor drops. */
  lemma OthersLeaveIt(p: Pass, sources: set<string>, s: string, t: string, k: Key)
    requires Orderly(p, sources) && s in sources && t in sources && s != t && Wrote(p, s, k).Some?
    ensures !KeyDropped(p, t, k, Wrote(p, s, k))
  {
    WriterVends(p, s, k);
    if Wrote(p, t, k).Some? { WriterVends(p, t, k); }
  }

  /** Writer first: a contested key stays. */
  lemma {:induction false} WriterFirstKeeps(p: Pass, a: Actor, sources: set<string>, order: seq<string>, k: Key)
    requires Orderly(p, sources) && DistinctSources(order) && (forall s :: s in order ==> s in sources)
    requires order != [] && Wrote(p, order[0], k).Some? && !Drops(p, order[0], Wrote(p, order[0], k).value)
    ensures k !in Gone(p, a, order)
    decreases |order|
  {
    var s, init, last := order[0], order[..|order| - 1], order[|order| - 1];
    var mid := Refreshed(p, a, init);
    ApplyPointwise(p, mid, last, k);
    if |order| > 1 {
      assert init[0] == s && s in init && last != s;
      WriterFirstKeeps(p, a, sources, init, k);
      KeyEnds(p, a, sources, init, k);
      OthersLeaveIt(p, sources, s, last, k);
      assert mid.Get(k) == Wrote(p, s, k);
    }
  }

  /** Former owner first: it goes. */
  lemma {:induction false} OwnerFirstLoses(p: Pass, a: Actor, order: seq<string>, k: Key)
    requires order != [] && Wrote(p, order[0], k).None? && k in a.attrs && Drops(p, order[0], a.attrs[k])
    ensures k in Gone(p, a, order)
    decreases |order|
  {
    if |order| == 1 {
      assert order[..0] == [];
      ApplyPointwise(p, a, order[0], k);
    } else {
      OwnerFirstLoses(p, a, order[..|order| - 1], k);
    }
  }

  lemma {:induction false} ListingExists(sources: set<string>) returns (order: seq<string>)
    ensures Lists(order, sources)
    decreases |sources|
  {
    order := [];
    if sources != {} {
      var s :| s in sources;
      var rest := ListingExists(sources - {s});
      order := rest + [s];
      assert sources - {s} + {s} == sources;
      ListOneMore(rest, sources - {s}, s);
    }
  }

  lemma ListingFrom(s: string, sources: set<string>) returns (order: seq<string>)
    requires s in sources
    ensures Lists(order, sources) && order != [] && order[0] == s
  {
    var rest := ListingExists(sources - {s});
    order := [s] + rest;
    forall i, j | 0 <= i < j < |order| ensures order[i] != order[j] {
      if i == 0 { assert order[j] in rest; }
    }
  }

  /** Two visiting orders agree on the identity keys, always, exactly when no identity key is contested. */
  lemma IdentityAgreesExactly(p: Pass, a: Actor, sources: set<string>)
    requires Orderly(p, sources)
    ensures (forall o1, o2 :: Lists(o1, sources) && Lists(o2, sources) ==>
              Refreshed(p, a, o1).identityKeys == Refreshed(p, a, o2).identityKeys)
            <==> (forall k :: k in a.identityKeys ==> !Contested(p, a, sources, k))
  {
    if k :| k in a.identityKeys && Contested(p, a, sources, k) {
      var s, t :| s in sources && t in sources && s != t
        && Wrote(p, s, k).Some? && !Drops(p, s, Wrote(p, s, k).value)
        && k in a.attrs && Drops(p, t, a.attrs[k]);
      var o1 := ListingFrom(s, sources);
      var o2 := ListingFrom(t, sources);
      WriterVends(p, s, k);
      if Wrote(p, t, k).Some? { WriterVends(p, t, k); }
      WriterFirstKeeps(p, a, sources, o1, k);
      OwnerFirstLoses(p, a, o2, k);
      IdentityLosesWhatWent(p, a, o1);
      IdentityLosesWhatWent(p, a, o2);
      assert k in Refreshed(p, a, o1).identityKeys && k !in Refreshed(p, a, o2).identityKeys;
    } else {
      forall o1, o2 | Lists(o1, sources) && Lists(o2, sources)
        ensures Refreshed(p, a, o1).identityKeys == Refreshed(p, a, o2).identityKeys
      {
        UncontestedIdentityAgrees(p, a, sources, o1, o2);
      }
    }
  }

  const PASSED_ON := Other("k")
  const GIVEN := Attribute(PASSED_ON, ["v"], 9, "s")
  const OWNER := Actor(map[PASSED_ON := Attribute(PASSED_ON, ["v"], 9, "t")], [PASSED_ON], None)

  /** One source starts to vend the key another stops vending. */
  function HandOver(parse: AddrParser): Pass {
    Pass(parse, 0, map["s" := (2, 0), "t" := (2, 0)], None,
         (x: string) => if x == "s" then Vended([GIVEN]) else Vended([]))
  }

  lemma HandOverVends(parse: AddrParser)
    ensures Vend(HandOver(parse), "s") == [GIVEN] && Vend(HandOver(parse), "t") == []
    ensures Wrote(HandOver(parse), "s", PASSED_ON) == Some(GIVEN) && Wrote(HandOver(parse), "t", PASSED_ON) == None
  {
    var p := HandOver(parse);
    assert [GIVEN][..0] == [] && EarliestUserExpiry([GIVEN]) == None;
    assert Vend(p, "s") == [GIVEN];
    assert LastAccepted(parse, [], PASSED_ON) == None;
  }

  lemma HandOverIsOrderly(parse: AddrParser)
    ensures Orderly(HandOver(parse), {"s", "t"})
  {
    HandOverVends(parse);
  }

  /** It can happen: an identity key passes from one source to another, and who is asked first decides. */
  lemma IdentityCanDependOnOrder(parse: AddrParser)
    ensures OWNER.Valid(parse) && Orderly(HandOver(parse), {"s", "t"})
    ensures Lists(["s", "t"], {"s", "t"}) && Lists(["t", "s"], {"s", "t"})
    ensures Refreshed(HandOver(parse), OWNER, ["s", "t"]).identityKeys
      != Refreshed(HandOver(parse), OWNER, ["t", "s"]).identityKeys
  {
    var p, k := HandOver(parse), PASSED_ON;
    HandOverVends(parse);
    HandOverIsOrderly(parse);
    assert GIVEN in Vend(p, "s");
    WriterFirstKeeps(p, OWNER, {"s", "t"}, ["s", "t"], k);
    OwnerFirstLoses(p, OWNER, ["t", "s"], k);
    IdentityLosesWhatWent(p, OWNER, ["s", "t"]);
    IdentityLosesWhatWent(p, OWNER, ["t", "s"]);
  }

  lemma UncontestedIdentityAgrees(p: Pass, a: Actor, sources: set<string>, o1: seq<string>, o2: seq<string>)
    requires Orderly(p, sources) && Lists(o1, sources) && Lists(o2, sources)
    requires forall k :: k in a.identityKeys ==> !Contested(p, a, sources, k)
    ensures Refreshed(p, a, o1).identityKeys == Refreshed(p, a, o2).identityKeys
  {
    IdentityLosesWhatWent(p, a, o1);
    IdentityLosesWhatWent(p, a, o2);
    forall k | k in a.identityKeys ensures k in Gone(p, a, o1) <==> k in Gone(p, a, o2) {
      UncontestedGone(p, a, sources, o1, k);
      UncontestedGone(p, a, sources, o2, k);
      if !Untouched(p, o1, k) {
        var s :| s in o1 && Wrote(p, s, k).Some?;
        assert s in o2;
      }
    }
    MinusAgree(a.identityKeys, Gone(p, a, o1), Gone(p, a, o2));
  }

  // ---------------------------------------------------------------------- the report

  lemma {:induction false} ReportLists(p: Pass, a: Actor, order: seq<string>)
    ensures forall e :: e in Reported(p, a, order).revisions <==> exists s :: s in order && e in Queued(p, s)
    ensures forall t :: t in Reported(p, a, order).indeterminate <==> exists s :: s in order && t in Unreached(p, s)
    decreases |order|
  {
    if order != [] {
      var init, last := order[..|order| - 1], order[|order| - 1];
      assert order == init + [last];
      ReportLists(p, a, init);
      var mid := Reported(p, a, init);
      forall e ensures e in Reported(p, a, order).revisions <==> exists s :: s in order && e in Queued(p, s) {
        assert e in Reported(p, a, order).revisions <==> e in mid.revisions || e in Queued(p, last);
      }
      forall t ensures t in Reported(p, a, order).indeterminate <==> exists s :: s in order && t in Unreached(p, s) {
        assert t in Reported(p, a, order).indeterminate <==> t in mid.indeterminate || t in Unreached(p, last);
      }
    }
  }

  predicate AcceptsSome(p: Pass, order: seq<string>) {
    exists s :: s in order && SomeAccepted(p, s)
  }

  predicate DropsSome(p: Pass, a: Actor, order: seq<string>) {
    exists s :: s in order && DropsAny(p, a, s)
  }

  lemma AcceptsOneMore(p: Pass, init: seq<string>, last: string)
    ensures AcceptsSome(p, init + [last]) <==> AcceptsSome(p, init) || SomeAccepted(p, last)
  {}

  predicate DropsAny(p: Pass, a: Actor, s: string) {
    exists k :: k in a.attrs && Drops(p, s, a.attrs[k])
  }

  lemma DropsOneMore(p: Pass, a: Actor, init: seq<string>, last: string)
    ensures DropsSome(p, a, init + [last]) <==> DropsSome(p, a, init) || DropsAny(p, a, last)
  {}

  /** The actor is written back exactly when some source set or dropped something. */
  lemma {:induction false} ChangedMeans(p: Pass, a: Actor, sources: set<string>, order: seq<string>)
    requires Orderly(p, sources) && DistinctSources(order) && (forall s :: s in order ==> s in sources)
    ensures Reported(p, a, order).changed <==> AcceptsSome(p, order) || DropsSome(p, a, order)
    decreases |order|
  {
    if order != [] {
      var init, last := order[..|order| - 1], order[|order| - 1];
      assert order == init + [last] && last !in init;
      ChangedMeans(p, a, sources, init);
      AcceptsOneMore(p, init, last);
      DropsOneMore(p, a, init, last);
      if !AcceptsSome(p, order) {
        DropsWithoutWrites(p, a, sources, init, last);
        var gone := Dropped(p, Refreshed(p, a, init), last);
        assert gone != {} <==> DropsAny(p, a, last) by {
          if DropsAny(p, a, last) {
            var k :| k in a.attrs && Drops(p, last, a.attrs[k]);
            assert k in gone;
          }
          if gone != {} {
            var k :| k in gone;
            assert k in a.attrs && Drops(p, last, a.attrs[k]);
          }
        }
      }
    }
  }

  lemma DropsWithoutWrites(p: Pass, a: Actor, sources: set<string>, init: seq<string>, last: string)
    requires Orderly(p, sources) && DistinctSources(init) && (forall s :: s in init ==> s in sources)
    requires last !in init && !AcceptsSome(p, init) && !SomeAccepted(p, last)
    ensures forall k :: k in Dropped(p, Refreshed(p, a, init), last) <==> k in a.attrs && Drops(p, last, a.attrs[k])
  {
    forall k
      ensures k in Dropped(p, Refreshed(p, a, init), last) <==> k in a.attrs && Drops(p, last, a.attrs[k])
    {
      forall s | s in init || s == last ensures Wrote(p, s, k).None? {
        LastAcceptedIsVended(p.parse, Vend(p, s), k);
        assert !SomeAccepted(p, s);
      }
      KeyEnds(p, a, sources, init, k);
      ApplyPointwise(p, Refreshed(p, a, init), last, k);
    }
  }

  // --------------------------------------------------------------------- the theorem

  lemma {:induction false} RefreshedValid(p: Pass, a: Actor, order: seq<string>)
    requires a.Valid(p.parse)
    ensures Refreshed(p, a, order).Valid(p.parse)
    decreases |order|
  {
    if order != [] {
      var init := order[..|order| - 1];
      RefreshedValid(p, a, init);
      ApplyPointwise(p, Refreshed(p, a, init), order[|order| - 1], ZprAddr);
    }
  }

  /** Every visiting order yields the same attributes, address, revisions and report. */
  lemma SourceOrderIsIrrelevant(p: Pass, a: Actor, sources: set<string>, o1: seq<string>, o2: seq<string>)
    requires a.Valid(p.parse) && Orderly(p, sources) && Lists(o1, sources) && Lists(o2, sources)
    ensures Refreshed(p, a, o1).attrs == Refreshed(p, a, o2).attrs
    ensures Refreshed(p, a, o1).zprAddr == Refreshed(p, a, o2).zprAddr
    ensures Reported(p, a, o1).changed == Reported(p, a, o2).changed
    ensures forall e :: e in Reported(p, a, o1).revisions <==> e in Reported(p, a, o2).revisions
    ensures forall s :: s in Reported(p, a, o1).indeterminate <==> s in Reported(p, a, o2).indeterminate
  {
    var r1, r2 := Refreshed(p, a, o1), Refreshed(p, a, o2);
    forall k ensures r1.Get(k) == r2.Get(k) { SameEnd(p, a, sources, o1, o2, k); }
    assert r1.attrs.Keys == r2.attrs.Keys by {
      forall k ensures k in r1.attrs <==> k in r2.attrs { assert r1.Get(k) == r2.Get(k); }
    }
    forall k | k in r1.attrs ensures r1.attrs[k] == r2.attrs[k] { assert r1.Get(k) == r2.Get(k); }
    RefreshedValid(p, a, o1);
    RefreshedValid(p, a, o2);
    ReportLists(p, a, o1);
    ReportLists(p, a, o2);
    ChangedMeans(p, a, sources, o1);
    ChangedMeans(p, a, sources, o2);
  }

  lemma SameEnd(p: Pass, a: Actor, sources: set<string>, o1: seq<string>, o2: seq<string>, k: Key)
    requires Orderly(p, sources) && Lists(o1, sources) && Lists(o2, sources)
    ensures Refreshed(p, a, o1).Get(k) == Refreshed(p, a, o2).Get(k)
  {
    KeyEnds(p, a, sources, o1, k);
    KeyEnds(p, a, sources, o2, k);
    if !Untouched(p, o1, k) {
      var s :| s in o1 && Wrote(p, s, k).Some?;
      assert s in o2;
    }
  }

  /** The authority that opened the pass keeps it or loses it: no decorating source takes it over. */
  lemma AuthorityStaysOrGoes(p: Pass, a: Actor, sources: set<string>, g: string, order: seq<string>)
    requires OrderlyAnswers(p, a, sources, g) && Lists(order, sources)
    ensures var end := Refreshed(p, a, order).Get(UserAuthority);
      end.Some? ==> end.value.value == [g] && end.value.source == g
  {
    AnswersAreOrderly(p, a, sources, g);
    KeyEnds(p, a, sources, order, UserAuthority);
    if !Untouched(p, order, UserAuthority) {
      var s :| s in order && Wrote(p, s, UserAuthority).Some?;
      WriterOfAuthority(p, a, sources, g, s);
    }
  }

  lemma WriterOfAuthority(p: Pass, a: Actor, sources: set<string>, g: string, s: string)
    requires OrderlyAnswers(p, a, sources, g) && s in sources && Wrote(p, s, UserAuthority).Some?
    ensures Wrote(p, s, UserAuthority).value.value == [g] && Wrote(p, s, UserAuthority).value.source == g
  {
    LastAcceptedIsVended(p.parse, Vend(p, s), UserAuthority);
    VendIsRawOrAuthority(p, s, g);
  }
}
