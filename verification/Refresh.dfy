/**
 One attribute-refresh pass over an actor (vs/src/actor_attributes.rs): every expired or
 revision-stale source is asked, its answer is applied, and what it no longer vends is dropped.
 */
module Refresh {
  import opened Text
  import opened Attributes
  import opened Actors
  import opened JoinPolicies
  import opened Policies
  import opened Connections

  /** A revision no snapshot carries: recording it keeps a source stale. */
  const REVISION_NEVER: nat := 0

  datatype Response = Vended(attrs: seq<Attribute>) | Failed

  /** What a pass fixes before it asks anything: `stale` gives revision and generation per source. */
  datatype Pass = Pass(
    parse: AddrParser,
    now: Time,
    stale: map<string, (nat, nat)>,
    authority: Option<string>,
    answer: string -> Response)

  datatype Outcome = Outcome(changed: bool, revisions: seq<(string, nat, nat)>, indeterminate: seq<string>)

  const NO_OUTCOME := Outcome(false, [], [])

  // --------------------------------------------------------------- user authority

  function EarliestUserExpiry(attrs: seq<Attribute>): Option<Time> {
    if attrs == [] then None
    else
      var rest, last := EarliestUserExpiry(attrs[..|attrs| - 1]), attrs[|attrs| - 1];
      if !InUserNamespace(last.key) then rest
      else if rest.None? || last.expiresAt < rest.value then Some(last.expiresAt)
      else rest
  }

  /** `derive_user_authority`: a source vending `user.*` vouches for the user, unless another does. */
  function DeriveAuthority(source: string, attrs: seq<Attribute>, existing: Option<string>): Option<Attribute> {
    if existing.Some? && existing.value != source then None
    else if exists a :: a in attrs && a.key == UserAuthority then None
    else match EarliestUserExpiry(attrs)
      case None => None
      case Some(t) => Some(Attribute(UserAuthority, [source], t, source))
  }

  /** A source gains authority exactly if it vends a user and nobody else holds or asserts it. */
  lemma {:induction false} AuthorityExactly(source: string, attrs: seq<Attribute>, existing: Option<string>)
    ensures DeriveAuthority(source, attrs, existing).Some? <==>
      && existing in {None, Some(source)}
      && (forall a :: a in attrs ==> a.key != UserAuthority)
      && (exists a :: a in attrs && InUserNamespace(a.key))
    ensures DeriveAuthority(source, attrs, existing).Some? ==>
      var authority := DeriveAuthority(source, attrs, existing).value;
      && authority.key == UserAuthority && authority.value == [source] && authority.source == source
      && (forall a :: a in attrs && InUserNamespace(a.key) ==> authority.expiresAt <= a.expiresAt)
      && (exists a :: a in attrs && InUserNamespace(a.key) && authority.expiresAt == a.expiresAt)
  {
    EarliestUser(attrs);
  }

  lemma {:induction false} EarliestUser(attrs: seq<Attribute>)
    ensures EarliestUserExpiry(attrs).Some? <==> exists a :: a in attrs && InUserNamespace(a.key)
    ensures var t := EarliestUserExpiry(attrs); t.Some? ==>
      && (forall a :: a in attrs && InUserNamespace(a.key) ==> t.value <= a.expiresAt)
      && (exists a :: a in attrs && InUserNamespace(a.key) && t.value == a.expiresAt)
    decreases |attrs|
  {
    if attrs != [] {
      EarliestUser(attrs[..|attrs| - 1]);
      assert attrs == attrs[..|attrs| - 1] + [attrs[|attrs| - 1]];
    }
  }

  /** Everything a source's answer sets, the derived authority last. */
  function Vend(p: Pass, s: string): seq<Attribute> {
    match p.answer(s)
    case Failed => []
    case Vended(attrs) =>
      match DeriveAuthority(s, attrs, p.authority)
      case None => attrs
      case Some(authority) => attrs + [authority]
  }

  // ----------------------------------------------------------------------- pruning

  /** Whether a source's answer ends an attribute stamped with that source. */
  predicate Drops(p: Pass, s: string, a: Attribute) {
    && a.source == s
    && match p.answer(s)
       case Vended(_) =>
         if s in p.stale then forall v :: v in Vend(p, s) ==> v.key != a.key
         else a.IsExpired(p.now)
       case Failed => s in p.stale
  }

  function Minus(keys: seq<Key>, gone: set<Key>): (r: seq<Key>)
    ensures forall k :: k in r <==> k in keys && k !in gone
  {
    if keys == [] then []
    else
      var init := Minus(keys[..|keys| - 1], gone);
      assert keys == keys[..|keys| - 1] + [keys[|keys| - 1]];
      if keys[|keys| - 1] in gone then init else init + [keys[|keys| - 1]]
  }

  function Prune(a: Actor, gone: set<Key>): Actor {
    Actor(a.attrs - gone, Minus(a.identityKeys, gone), if ZprAddr in gone then None else a.zprAddr)
  }

  function DropSet(p: Pass, s: string, a: Actor): set<Key> {
    set k | k in a.attrs && Drops(p, s, a.attrs[k])
  }

  // ------------------------------------------------------------------ one source, many

  function Added(p: Pass, a: Actor, s: string): Actor { AddAll(p.parse, a, Vend(p, s)) }

  function Dropped(p: Pass, a: Actor, s: string): set<Key> { DropSet(p, s, Added(p, a, s)) }

  function ApplyTo(p: Pass, a: Actor, s: string): Actor {
    Prune(Added(p, a, s), Dropped(p, a, s))
  }

  predicate SomeAccepted(p: Pass, s: string) {
    exists v :: v in Vend(p, s) && Accepts(p.parse, v)
  }

  /** The revision a source's answer queues, with the generation seen before it was asked. */
  function Queued(p: Pass, s: string): seq<(string, nat, nat)> {
    if s !in p.stale then []
    else match p.answer(s)
      case Vended(_) => [(s, p.stale[s].0, p.stale[s].1)]
      case Failed => [(s, REVISION_NEVER, p.stale[s].1)]
  }

  function Unreached(p: Pass, s: string): seq<string> {
    if s in p.stale && p.answer(s).Failed? then [s] else []
  }

  function Report(p: Pass, a: Actor, s: string, o: Outcome): Outcome {
    Outcome(o.changed || SomeAccepted(p, s) || Dropped(p, a, s) != {},
            o.revisions + Queued(p, s), o.indeterminate + Unreached(p, s))
  }

  function Refreshed(p: Pass, a: Actor, order: seq<string>): Actor {
    if order == [] then a
    else ApplyTo(p, Refreshed(p, a, order[..|order| - 1]), order[|order| - 1])
  }

  function Reported(p: Pass, a: Actor, order: seq<string>): Outcome {
    if order == [] then NO_OUTCOME
    else
      var init, last := order[..|order| - 1], order[|order| - 1];
      Report(p, Refreshed(p, a, init), last, Reported(p, a, init))
  }

  ghost predicate Lists(order: seq<string>, sources: set<string>) {
    && (forall s :: s in order <==> s in sources)
    && (forall i, j :: 0 <= i < j < |order| ==> order[i] != order[j])
  }

  // ------------------------------------------------------------------- the pass itself

  /** Sources to ask: those with an expired attribute, and the stale ones. */
  function SourcesToAsk(p: Pass, a: Actor): set<string> {
    (set k | k in a.attrs && a.attrs[k].IsExpired(p.now) :: a.attrs[k].source) + p.stale.Keys
  }

  /** `refresh_expired_attributes`: sources are taken in hash order, recorded in `order`. */
  method RefreshExpiredAttributes(p: Pass, actor: ActorRecord) returns (o: Outcome, ghost order: seq<string>)
    requires actor.parse == p.parse && actor.Value().Valid(p.parse)
    modifies actor
    ensures actor.Value().Valid(p.parse)
    ensures old(actor.zprAddr).None? ==> o == NO_OUTCOME && actor.Value() == old(actor.Value())
    ensures old(actor.zprAddr).Some? ==>
      && Lists(order, SourcesToAsk(p, old(actor.Value())))
      && actor.Value() == Refreshed(p, old(actor.Value()), order)
      && o == Reported(p, old(actor.Value()), order)
  {
    o, order := NO_OUTCOME, [];
    if actor.zprAddr.None? { return; }
    o, order := AskSources(p, actor, SourcesToAsk(p, actor.Value()));
  }

  /** The loop over the source set, in whatever order it iterates. */
  method AskSources(p: Pass, actor: ActorRecord, sources: set<string>) returns (o: Outcome, ghost order: seq<string>)
    requires actor.parse == p.parse && actor.Value().Valid(p.parse)
    modifies actor
    ensures actor.Value().Valid(p.parse)
    ensures Lists(order, sources)
    ensures actor.Value() == Refreshed(p, old(actor.Value()), order) && o == Reported(p, old(actor.Value()), order)
  {
    o, order := NO_OUTCOME, [];
    ghost var start, asked: set<string> := actor.Value(), {};
    var todo := sources;
    while todo != {}
      invariant actor.Value().Valid(p.parse)
      invariant actor.Value() == Refreshed(p, start, order)
      invariant o == Reported(p, start, order)
      invariant Lists(order, asked) && asked !! todo && asked + todo == sources
      decreases |todo|
    {
      var s :| s in todo;
      o := ApplyAnswer(p, actor, s, o);
      ListOneMore(order, asked, s);
      RefreshedOneMore(p, start, order, s);
      order := order + [s];
      asked, todo := asked + {s}, todo - {s};
    }
  }

  lemma RefreshedOneMore(p: Pass, a: Actor, order: seq<string>, s: string)
    ensures Refreshed(p, a, order + [s]) == ApplyTo(p, Refreshed(p, a, order), s)
    ensures Reported(p, a, order + [s]) == Report(p, Refreshed(p, a, order), s, Reported(p, a, order))
  {}

  lemma ListOneMore(order: seq<string>, sources: set<string>, s: string)
    requires Lists(order, sources) && s !in sources
    ensures Lists(order + [s], sources + {s})
  {}

  /** The loop body: set what was vended, then prune, then queue the revision. */
  method ApplyAnswer(p: Pass, actor: ActorRecord, s: string, sofar: Outcome) returns (o: Outcome)
    requires actor.parse == p.parse && actor.Value().Valid(p.parse)
    modifies actor
    ensures actor.Value().Valid(p.parse)
    ensures actor.Value() == ApplyTo(p, old(actor.Value()), s)
    ensures o == Report(p, old(actor.Value()), s, sofar)
  {
    ghost var start := actor.Value();
    var vended := Vend(p, s);
    var changed := sofar.changed;
    for i := 0 to |vended|
      invariant actor.Value() == AddAll(p.parse, start, vended[..i])
      invariant changed == (sofar.changed || exists v :: v in vended[..i] && Accepts(p.parse, v))
    {
      assert vended[..i + 1][..i] == vended[..i];
      assert vended[..i + 1] == vended[..i] + [vended[i]];
      var ok := actor.AddAttribute(vended[i]);
      if ok { changed := true; }
    }
    assert vended[..|vended|] == vended;
    AddAllPointwise(p.parse, start, vended, ZprAddr);
    var gone := DropSet(p, s, actor.Value());
    PruneFromSource(actor, gone);
    o := Outcome(changed || gone != {}, sofar.revisions + Queued(p, s), sofar.indeterminate + Unreached(p, s));
  }

  /** `prune_from_source`: remove the listed attributes one by one, in any order. */
  method PruneFromSource(actor: ActorRecord, gone: set<Key>)
    requires gone <= actor.attrs.Keys
    modifies actor
    ensures actor.Value() == Prune(old(actor.Value()), gone)
  {
    ghost var start, done: set<Key> := actor.Value(), {};
    var todo := gone;
    MinusNothing(start.identityKeys);
    assert start.attrs - {} == start.attrs;
    while todo != {}
      invariant done !! todo && done + todo == gone <= start.attrs.Keys
      invariant actor.Value() == Prune(start, done)
      decreases |todo|
    {
      var k :| k in todo;
      var _ := actor.RemoveAttribute(k);
      PruneOneMore(start, done, k);
      done, todo := done + {k}, todo - {k};
    }
  }

  lemma PruneOneMore(a: Actor, done: set<Key>, k: Key)
    requires k in a.attrs && k !in done
    ensures Remove(Prune(a, done), k) == Prune(a, done + {k})
  {
    MinusOne(a.identityKeys, done, k);
    assert a.attrs - done - {k} == a.attrs - (done + {k});
  }

  lemma {:induction false} MinusNothing(keys: seq<Key>)
    ensures Minus(keys, {}) == keys
    decreases |keys|
  {
    if keys != [] {
      MinusNothing(keys[..|keys| - 1]);
    }
  }

  lemma {:induction false} WithoutLast(keys: seq<Key>, last: Key, k: Key)
    ensures Without(keys + [last], k) == Without(keys, k) + if last == k then [] else [last]
    decreases |keys|
  {
    if keys != [] {
      assert (keys + [last])[1..] == keys[1..] + [last];
      WithoutLast(keys[1..], last, k);
    }
  }

  lemma {:induction false} MinusOne(keys: seq<Key>, gone: set<Key>, k: Key)
    ensures Without(Minus(keys, gone), k) == Minus(keys, gone + {k})
    decreases |keys|
  {
    if keys != [] {
      var init, last := keys[..|keys| - 1], keys[|keys| - 1];
      MinusOne(init, gone, k);
      WithoutLast(Minus(init, gone), last, k);
    }
  }

  // ---------------------------------------------------------------- key by key

  /** The last attribute of a list the actor would take under a key. */
  function LastAccepted(parse: AddrParser, attrs: seq<Attribute>, k: Key): Option<Attribute> {
    if attrs == [] then None
    else if attrs[|attrs| - 1].key == k && Accepts(parse, attrs[|attrs| - 1]) then Some(attrs[|attrs| - 1])
    else LastAccepted(parse, attrs[..|attrs| - 1], k)
  }

  lemma {:induction false} LastAcceptedIsVended(parse: AddrParser, attrs: seq<Attribute>, k: Key)
    ensures LastAccepted(parse, attrs, k).Some? <==> exists a :: a in attrs && a.key == k && Accepts(parse, a)
    ensures var v := LastAccepted(parse, attrs, k); v.Some? ==>
              v.value in attrs && v.value.key == k && Accepts(parse, v.value)
    decreases |attrs|
  {
    if attrs != [] {
      var init, last := attrs[..|attrs| - 1], attrs[|attrs| - 1];
      assert attrs == init + [last];
      LastAcceptedIsVended(parse, init, k);
    }
  }

  lemma {:induction false} AddAllPointwise(parse: AddrParser, a: Actor, attrs: seq<Attribute>, k: Key)
    ensures AddAll(parse, a, attrs).Get(k) ==
              if LastAccepted(parse, attrs, k).Some? then LastAccepted(parse, attrs, k) else a.Get(k)
    ensures AddAll(parse, a, attrs).identityKeys == a.identityKeys
    ensures a.Valid(parse) ==> AddAll(parse, a, attrs).Valid(parse)
    decreases |attrs|
  {
    if attrs != [] {
      AddAllPointwise(parse, a, attrs[..|attrs| - 1], k);
    }
  }

  function Wrote(p: Pass, s: string, k: Key): Option<Attribute> { LastAccepted(p.parse, Vend(p, s), k) }

  /** What a source does to one key: write it, then perhaps drop what is there. */
  function KeyAfterAdd(p: Pass, s: string, k: Key, old_: Option<Attribute>): Option<Attribute> {
    if Wrote(p, s, k).Some? then Wrote(p, s, k) else old_
  }

  predicate KeyDropped(p: Pass, s: string, k: Key, old_: Option<Attribute>) {
    KeyAfterAdd(p, s, k, old_).Some? && Drops(p, s, KeyAfterAdd(p, s, k, old_).value)
  }

  lemma ApplyPointwise(p: Pass, a: Actor, s: string, k: Key)
    ensures ApplyTo(p, a, s).Get(k) ==
              if KeyDropped(p, s, k, a.Get(k)) then None else KeyAfterAdd(p, s, k, a.Get(k))
    ensures k in Dropped(p, a, s) <==> KeyDropped(p, s, k, a.Get(k))
    ensures ApplyTo(p, a, s).identityKeys == Minus(a.identityKeys, Dropped(p, a, s))
    ensures a.Valid(p.parse) ==> ApplyTo(p, a, s).Valid(p.parse)
  {
    AddAllPointwise(p.parse, a, Vend(p, s), k);
  }

  // ------------------------------------------------------------------- restamping

  /** The claims policy is re-run over: everything policy did not itself stamp. */
  function Unstamped(a: Actor): set<Attribute> {
    set c | c in a.Claims() && c.key !in POLICY_STAMPED
  }

  function ServicesDue(policy: Policy, a: Actor, now: Time): set<string> {
    JoinServicesForRole(policy, Unstamped(a), a.IsNode(), now)
  }

  ghost function Restamp(policy: Policy, a: Actor, now: Time): Actor {
    if ServicesDue(policy, a, now) == a.ServiceSet() then a else SetServices(a, ServicesDue(policy, a, now), now)
  }

  method RestampServices(policy: Policy, actor: ActorRecord, now: Time)
    modifies actor
    ensures actor.Value() == Restamp(policy, old(actor.Value()), now)
    ensures actor.Value().ServiceSet() == ServicesDue(policy, old(actor.Value()), now)
  {
    var services := ServicesDue(policy, actor.Value(), now);
    if services != actor.Value().ServiceSet() {
      actor.ReplaceServices(services, now);
    }
  }

  lemma UnderUnstamped(a: Actor, k: Key)
    requires a.Keyed()
    ensures forall c :: c in Under(Unstamped(a), k) <==> k !in POLICY_STAMPED && a.Get(k) == Some(c)
  {}

  /** A stamp never feeds back: restamping twice is restamping once. */
  lemma RestampIsIdempotent(policy: Policy, a: Actor, now: Time)
    requires a.Keyed()
    ensures Restamp(policy, Restamp(policy, a, now), now) == Restamp(policy, a, now)
  {
    var b := Restamp(policy, a, now);
    ServicesRoundTrip(a, ServicesDue(policy, a, now), now);
    forall k ensures Under(Unstamped(b), k) == Under(Unstamped(a), k) {
      UnderUnstamped(a, k);
      UnderUnstamped(b, k);
      if k != Services { assert b.Get(k) == a.Get(k); }
    }
    MatchingReadsOnlyNamedKeys(policy.joinPolicies, Unstamped(b), Unstamped(a), now);
    assert b.Get(Role) == a.Get(Role);
  }

  /** What a restamp of a freshly admitted actor matches: its claims and stamps, off the policy-stamped keys. */
  ghost function SeenUnstamped(ctx: Context, auth: seq<Attribute>, unauth: seq<Attribute>): set<Attribute> {
    set a | a in Seen(ctx, auth, unauth) && a.key !in POLICY_STAMPED
  }

  lemma ApprovedUnstamped(ctx: Context, auth: seq<Attribute>, unauth: seq<Attribute>, k: Key)
    requires CleanConnect(ctx, auth, unauth)
    ensures Under(Unstamped(Approve(ctx, auth, unauth)), k) == Under(SeenUnstamped(ctx, auth, unauth), k)
  {
    var a, seen := Approve(ctx, auth, unauth), Seen(ctx, auth, unauth);
    ApprovedCarriesClaims(ctx, auth, unauth, k);
    if k !in POLICY_STAMPED {
      assert Under(Unstamped(a), k) == Under(a.Claims(), k);
      assert Under(SeenUnstamped(ctx, auth, unauth), k) == Under(seen, k);
    }
  }

  lemma RestampChangesExactly(policy: Policy, a: Actor, now: Time)
    ensures Restamp(policy, a, now) == a <==> ServicesDue(policy, a, now) == a.ServiceSet()
  {
    ServicesRoundTrip(a, ServicesDue(policy, a, now), now);
  }

  /** A freshly admitted actor is left alone by a restamp exactly if what it then matches earns the same services. */
  lemma RefreshExactly(ctx: Context, auth: seq<Attribute>, unauth: seq<Attribute>)
    requires CleanConnect(ctx, auth, unauth)
    ensures var matched := Matched(ctx, Elements(Query(auth, unauth)));
      Restamp(ctx.policy, Approve(ctx, auth, unauth), ctx.now) == Approve(ctx, auth, unauth) <==>
        JoinServicesForRole(ctx.policy, SeenUnstamped(ctx, auth, unauth), IsNode in FlagsOf(matched), ctx.now)
          == ServicesOf(matched)
  {
    var a, claims := Approve(ctx, auth, unauth), SeenUnstamped(ctx, auth, unauth);
    forall k ensures Under(Unstamped(a), k) == Under(claims, k) { ApprovedUnstamped(ctx, auth, unauth, k); }
    MatchingReadsOnlyNamedKeys(ctx.policy.joinPolicies, Unstamped(a), claims, ctx.now);
    ApprovedRoleAndServices(ctx, auth, unauth);
    RestampChangesExactly(ctx.policy, a, ctx.now);
  }

  /** No join policy reads a configuration id that a claim carries. */
  predicate ConfigUnread(ctx: Context, auth: seq<Attribute>, unauth: seq<Attribute>) {
    Mentions(ctx.policy.joinPolicies, {ConfigId}) ==> forall a :: a in Query(auth, unauth) ==> a.key != ConfigId
  }

  /** Connect and refresh agree: nothing to restamp on a freshly admitted actor. */
  lemma RefreshAgreesWithConnect(ctx: Context, auth: seq<Attribute>, unauth: seq<Attribute>)
    requires CleanConnect(ctx, auth, unauth) && StampsUnread(ctx, auth, unauth) && ConfigUnread(ctx, auth, unauth)
    ensures Restamp(ctx.policy, Approve(ctx, auth, unauth), ctx.now) == Approve(ctx, auth, unauth)
  {
    var claims, query := SeenUnstamped(ctx, auth, unauth), Elements(Query(auth, unauth));
    forall jp, exp | jp in ctx.policy.joinPolicies && exp in jp.matches
      ensures Under(claims, exp.key) == Under(query, exp.key)
    {
      SeenUnread(ctx, auth, unauth, exp.key);
      if exp.key == ConfigId {
        assert Under(query, ConfigId) == {};
      } else {
        assert Under(claims, exp.key) == Under(Seen(ctx, auth, unauth), exp.key);
      }
    }
    MatchingReadsOnlyNamedKeys(ctx.policy.joinPolicies, claims, query, ctx.now);
    RefreshExactly(ctx, auth, unauth);
    RoleGrantIsConnectGrant(ctx.policy, query, ctx.now);
  }

  const HASH_GRANT := JPolicy([HASH_EXP], {}, Some(["w"]))

  lemma HashGrantIsDue(ctx: Context, a: Actor)
    requires AsksForHash(ctx, HASH_GRANT) && a.Keyed() && !a.IsNode()
    requires a.Get(ActorHash).Some? && !a.Get(ActorHash).value.IsExpired(ctx.now)
    ensures "w" in ServicesDue(ctx.policy, a, ctx.now)
  {
    UnderUnstamped(a, ActorHash);
    HashIsMatched(ctx, HASH_GRANT, Unstamped(a), a.Get(ActorHash).value);
    assert "w" in Grants(HASH_GRANT);
  }

  /** It can differ: a service granted on the fallback hash comes only with the first restamp. */
  lemma RefreshCanRestamp(ctx: Context)
    requires AsksForHash(ctx, HASH_GRANT)
    ensures CleanConnect(ctx, [], [])
    ensures Restamp(ctx.policy, Approve(ctx, [], []), ctx.now) != Approve(ctx, [], [])
  {
    NoClaimsAreClean(ctx);
    AnonymousIsPlainAdapter(ctx, HASH_GRANT);
    AnonymousGetsHash(ctx, HASH_GRANT);
    ApprovedValid(ctx, [], []);
    HashGrantIsDue(ctx, Approve(ctx, [], []));
    RestampChangesExactly(ctx.policy, Approve(ctx, [], []), ctx.now);
  }
}
