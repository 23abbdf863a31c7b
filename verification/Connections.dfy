/**
 Admitting an actor (`approve_connection`) and re-checking a connected one
 (`approve_connected`), libeval/src/eval.rs.
 */
module Connections {
  import opened Text
  import opened Attributes
  import opened Actors
  import opened JoinPolicies
  import opened Policies

  /** A policy, the time, and the two library functions admission calls. */
  datatype Context = Context(policy: Policy, parse: AddrParser, hash: Actor -> string, now: Time)

  // -------------------------------------------------------------- claims to commit

  /** Of the unauthenticated claims only a requested address is looked at. */
  function Requested(unauth: seq<Attribute>): (r: seq<Attribute>)
    ensures forall a :: a in r <==> a in unauth && a.key == ZprAddr
  {
    if unauth == [] then []
    else
      var init := Requested(unauth[..|unauth| - 1]);
      assert unauth == unauth[..|unauth| - 1] + [unauth[|unauth| - 1]];
      if unauth[|unauth| - 1].key == ZprAddr then init + [unauth[|unauth| - 1]] else init
  }

  predicate PinsAddr(exp: AttrExp) {
    exp.key == ZprAddr && exp.op == Eq && exp.value != [] && forall v :: v in exp.value ==> v != ""
  }

  predicate AddrPinned(matched: seq<JPolicy>) {
    exists jp, exp :: jp in matched && exp in jp.matches && PinsAddr(exp)
  }

  function Query(auth: seq<Attribute>, unauth: seq<Attribute>): seq<Attribute> {
    auth + Requested(unauth)
  }

  function Matched(ctx: Context, claims: set<Attribute>): seq<JPolicy> {
    Matching(ctx.policy.joinPolicies, claims, ctx.now)
  }

  function Committed(ctx: Context, auth: seq<Attribute>, unauth: seq<Attribute>): seq<Attribute> {
    var query := Query(auth, unauth);
    if AddrPinned(Matched(ctx, Elements(query))) then query else auth
  }

  // --------------------------------------------------------------- building the actor

  function RoleAttr(isNode: bool, now: Time): Attribute {
    Internal(Role, [if isNode then ROLE_NODE else ROLE_ADAPTER], now)
  }

  ghost function ServicesAttr(matched: seq<JPolicy>, now: Time): Attribute {
    Internal(Services, Sorted(ServicesOf(matched)), now)
  }

  /** Role, services and generation, as policy stamps them. */
  ghost function Stamp(ctx: Context, a: Actor, matched: seq<JPolicy>): Actor {
    var a1 := Add(ctx.parse, a, RoleAttr(IsNode in FlagsOf(matched), ctx.now));
    var a2 := SetServices(a1, ServicesOf(matched), ctx.now);
    Add(ctx.parse, a2, Internal(Vinst, [ToDecimal(ctx.policy.vinst)], ctx.now))
  }

  /** The keys of a list the actor has attributes for, in order. */
  function Present(attrs: map<Key, Attribute>, keys: seq<Key>): (r: seq<Key>)
    ensures forall k :: k in r <==> k in keys && k in attrs
  {
    if keys == [] then []
    else
      var init := Present(attrs, keys[..|keys| - 1]);
      assert keys == keys[..|keys| - 1] + [keys[|keys| - 1]];
      if keys[|keys| - 1] in attrs then init + [keys[|keys| - 1]] else init
  }

  function Identify(ctx: Context, a: Actor): Actor {
    var keys := Present(a.attrs, LookupIdentityKeys(ctx.policy));
    if a.identityKeys + keys != [] then a.(identityKeys := a.identityKeys + keys)
    else if ZprAddr in a.attrs then a.(identityKeys := [ZprAddr])
    else
      var b := Add(ctx.parse, a, Internal(ActorHash, [ctx.hash(a)], ctx.now));
      b.(identityKeys := [ActorHash])
  }

  /** The actor admission yields. */
  ghost function Approve(ctx: Context, auth: seq<Attribute>, unauth: seq<Attribute>): Actor {
    var claimed := AddAll(ctx.parse, NEW_ACTOR, Committed(ctx, auth, unauth));
    Identify(ctx, Stamp(ctx, claimed, Matched(ctx, Elements(Query(auth, unauth)))))
  }

  datatype Admission = Admitted(actor: ActorRecord) | NoAuthenticatedClaims

  method ListRequested(unauth: seq<Attribute>) returns (requested: seq<Attribute>)
    ensures requested == Requested(unauth)
  {
    requested := [];
    for i := 0 to |unauth|
      invariant requested == Requested(unauth[..i])
    {
      assert unauth[..i + 1][..i] == unauth[..i];
      if unauth[i].key == ZprAddr { requested := requested + [unauth[i]]; }
    }
    assert unauth[..|unauth|] == unauth;
  }

  /** What the matched policies grant together. */
  method Gather(matched: seq<JPolicy>) returns (flags: set<JFlag>, services: set<string>)
    ensures flags == FlagsOf(matched) && services == ServicesOf(matched)
  {
    flags, services := {}, {};
    for i := 0 to |matched|
      invariant flags == FlagsOf(matched[..i]) && services == ServicesOf(matched[..i])
    {
      assert matched[..i + 1] == matched[..i] + [matched[i]];
      flags := flags + matched[i].flags;
      services := services + Grants(matched[i]);
    }
    assert matched[..|matched|] == matched;
  }

  method CommitClaims(actor: ActorRecord, claims: seq<Attribute>)
    modifies actor
    ensures actor.Value() == AddAll(actor.parse, old(actor.Value()), claims)
  {
    for i := 0 to |claims|
      invariant actor.Value() == AddAll(actor.parse, old(actor.Value()), claims[..i])
    {
      assert claims[..i + 1][..i] == claims[..i];
      var _ := actor.AddAttribute(claims[i]);
    }
    assert claims[..|claims|] == claims;
  }

  /** `approve_connection`, building the actor step by step. */
  method ApproveConnection(ctx: Context, authClaims: Option<seq<Attribute>>, unauthClaims: Option<seq<Attribute>>)
    returns (r: Admission)
    ensures r.NoAuthenticatedClaims? <==> authClaims.None?
    ensures r.Admitted? ==> fresh(r.actor) && r.actor.parse == ctx.parse
    ensures r.Admitted? ==>
      r.actor.Value() == Approve(ctx, authClaims.value, if unauthClaims.Some? then unauthClaims.value else [])
  {
    if authClaims.None? { return NoAuthenticatedClaims; }
    var auth := authClaims.value;
    var unauth := if unauthClaims.Some? then unauthClaims.value else [];

    var requested := ListRequested(unauth);
    var query := auth + requested;
    var matched := MatchJoinPolicies(ctx.policy.joinPolicies, query, ctx.now);
    var flags, services := Gather(matched);

    var actor := new ActorRecord(ctx.parse);
    CommitClaims(actor, if AddrPinned(matched) then query else auth);
    var _ := actor.AddAttribute(RoleAttr(IsNode in flags, ctx.now));
    actor.ReplaceServices(services, ctx.now);
    var _ := actor.AddAttribute(Internal(Vinst, [ToDecimal(ctx.policy.vinst)], ctx.now));
    AssignIdentity(ctx, actor);
    r := Admitted(actor);
  }

  /** The identity loop and its last resort. */
  method AssignIdentity(ctx: Context, actor: ActorRecord)
    requires actor.parse == ctx.parse
    modifies actor
    ensures actor.Value() == Identify(ctx, old(actor.Value()))
  {
    ghost var start := actor.Value();
    var keys := ListLookupIdentityKeys(ctx.policy);
    for i := 0 to |keys|
      invariant actor.Value() == start.(identityKeys := start.identityKeys + Present(start.attrs, keys[..i]))
    {
      assert keys[..i + 1][..i] == keys[..i];
      if keys[i] in actor.attrs {
        var _ := actor.PlaceIdentityKey(|actor.identityKeys|, keys[i]);
      }
    }
    assert keys[..|keys|] == keys;
    if actor.identityKeys == [] {
      if ZprAddr in actor.attrs {
        var _ := actor.PlaceIdentityKey(0, ZprAddr);
      } else {
        var text := ctx.hash(actor.Value());
        var _ := actor.AddAttribute(Internal(ActorHash, [text], ctx.now));
        var _ := actor.PlaceIdentityKey(0, ActorHash);
      }
    }
  }

  // ---------------------------------------------------------------- where attributes come from

  lemma {:induction false} AddAllSound(parse: AddrParser, claims: seq<Attribute>)
    ensures AddAll(parse, NEW_ACTOR, claims).Valid(parse)
    ensures AddAll(parse, NEW_ACTOR, claims).identityKeys == []
    ensures forall k :: k in AddAll(parse, NEW_ACTOR, claims).attrs ==>
              && AddAll(parse, NEW_ACTOR, claims).attrs[k] in claims
              && AddAll(parse, NEW_ACTOR, claims).attrs[k].key == k
    decreases |claims|
  {
    if claims != [] {
      var init, last := claims[..|claims| - 1], claims[|claims| - 1];
      AddAllSound(parse, init);
      assert claims == init + [last];
    }
  }

  lemma AddInternal(parse: AddrParser, a: Actor, attr: Attribute)
    requires a.Valid(parse) && Accepts(parse, attr) && attr.key != ZprAddr
    ensures Add(parse, a, attr) == a.(attrs := a.attrs[attr.key := attr])
    ensures Add(parse, a, attr).Valid(parse)
  {}

  lemma SetServicesSound(parse: AddrParser, a: Actor, services: set<string>, now: Time)
    requires a.Valid(parse)
    ensures var b := SetServices(a, services, now);
      && b.Valid(parse) && b.identityKeys == a.identityKeys && b.zprAddr == a.zprAddr
      && b.ServiceSet() == services
      && forall k :: k != Services ==> b.Get(k) == a.Get(k)
  {
    ServicesRoundTrip(a, services, now);
  }

  /** Stamping sets three keys... */
  lemma StampSets(ctx: Context, a: Actor, matched: seq<JPolicy>)
    ensures var b := Stamp(ctx, a, matched);
      && b.Get(Role) == Some(RoleAttr(IsNode in FlagsOf(matched), ctx.now))
      && b.Get(Vinst) == Some(Internal(Vinst, [ToDecimal(ctx.policy.vinst)], ctx.now))
      && b.Get(Services) == (if ServicesOf(matched) == {} then None else Some(ServicesAttr(matched, ctx.now)))
      && b.ServiceSet() == ServicesOf(matched)
  {
    var a1 := Add(ctx.parse, a, RoleAttr(IsNode in FlagsOf(matched), ctx.now));
    ServicesRoundTrip(a1, ServicesOf(matched), ctx.now);
    var a2 := SetServices(a1, ServicesOf(matched), ctx.now);
    assert Stamp(ctx, a, matched).Get(Services) == a2.Get(Services);
  }

  /** ...and touches nothing else. */
  lemma StampKeeps(ctx: Context, a: Actor, matched: seq<JPolicy>)
    requires a.Valid(ctx.parse)
    ensures var b := Stamp(ctx, a, matched);
      && b.Valid(ctx.parse) && b.identityKeys == a.identityKeys && b.zprAddr == a.zprAddr
      && (forall k :: k !in {Role, Services, Vinst} ==> b.Get(k) == a.Get(k))
  {
    var role := RoleAttr(IsNode in FlagsOf(matched), ctx.now);
    AddInternal(ctx.parse, a, role);
    var a1 := Add(ctx.parse, a, role);
    SetServicesSound(ctx.parse, a1, ServicesOf(matched), ctx.now);
    var a2 := SetServices(a1, ServicesOf(matched), ctx.now);
    AddInternal(ctx.parse, a2, Internal(Vinst, [ToDecimal(ctx.policy.vinst)], ctx.now));
  }

  ghost function Claimed(ctx: Context, auth: seq<Attribute>, unauth: seq<Attribute>): Actor {
    AddAll(ctx.parse, NEW_ACTOR, Committed(ctx, auth, unauth))
  }

  /** The actor just before it is given an identity. */
  ghost function Stamped(ctx: Context, auth: seq<Attribute>, unauth: seq<Attribute>): Actor {
    Stamp(ctx, Claimed(ctx, auth, unauth), Matched(ctx, Elements(Query(auth, unauth))))
  }

  lemma StampedSound(ctx: Context, auth: seq<Attribute>, unauth: seq<Attribute>)
    ensures var b := Stamped(ctx, auth, unauth);
      && Approve(ctx, auth, unauth) == Identify(ctx, b)
      && b.Valid(ctx.parse) && b.identityKeys == []
      && (forall k :: k !in {Role, Services, Vinst} ==> b.Get(k) == Claimed(ctx, auth, unauth).Get(k))
  {
    AddAllSound(ctx.parse, Committed(ctx, auth, unauth));
    StampKeeps(ctx, Claimed(ctx, auth, unauth), Matched(ctx, Elements(Query(auth, unauth))));
  }

  /** Identifying an actor adds at most a hash. */
  lemma IdentifyKeeps(ctx: Context, b: Actor)
    requires b.Valid(ctx.parse)
    ensures Identify(ctx, b).Valid(ctx.parse) && Identify(ctx, b).zprAddr == b.zprAddr
    ensures forall k :: k != ActorHash ==> Identify(ctx, b).Get(k) == b.Get(k)
  {}

  /** Claims and stamps are all there is on an admitted actor. */
  lemma ApprovedOrigins(ctx: Context, auth: seq<Attribute>, unauth: seq<Attribute>, k: Key)
    requires k in Approve(ctx, auth, unauth).attrs
    ensures Approve(ctx, auth, unauth).Valid(ctx.parse)
    ensures var attr := Approve(ctx, auth, unauth).attrs[k];
      || k in {Role, Services, Vinst, ActorHash}
      || attr in auth
      || (k == ZprAddr && attr in unauth && AddrPinned(Matched(ctx, Elements(Query(auth, unauth)))))
  {
    StampedSound(ctx, auth, unauth);
    IdentifyKeeps(ctx, Stamped(ctx, auth, unauth));
    AddAllSound(ctx.parse, Committed(ctx, auth, unauth));
    if k !in {Role, Services, Vinst, ActorHash} {
      assert Approve(ctx, auth, unauth).Get(k) == Claimed(ctx, auth, unauth).Get(k);
    }
  }

  /**
   A requested address is a check, never a grant: without an authenticated address the actor
   gets one only if a matched join policy lists that very value, repeated claims included.
   */
  lemma RequestedAddressIsCheckedNotGranted(ctx: Context, auth: seq<Attribute>, unauth: seq<Attribute>)
    requires forall a :: a in auth ==> a.key != ZprAddr
    requires Approve(ctx, auth, unauth).zprAddr.Some?
    ensures exists jp, exp, v ::
      && jp in Matched(ctx, Elements(Query(auth, unauth)))
      && exp in jp.matches && exp.key == ZprAddr && exp.op == Eq && v in exp.value
      && ctx.parse(v) == Approve(ctx, auth, unauth).zprAddr
  {
    var actor := Approve(ctx, auth, unauth);
    var query := Query(auth, unauth);
    ApprovedValid(ctx, auth, unauth);
    assert ZprAddr in actor.attrs;
    ApprovedOrigins(ctx, auth, unauth, ZprAddr);
    var attr := actor.attrs[ZprAddr];
    assert attr in Requested(unauth);
    assert attr in Elements(query);
    var jp, exp :| jp in Matched(ctx, Elements(query)) && exp in jp.matches && PinsAddr(exp);
    assert Satisfied(exp, Elements(query), ctx.now);
    assert multiset(attr.value) == multiset(exp.value);
    assert |multiset(attr.value)| == |attr.value| && |multiset(exp.value)| == |exp.value|;
    assert attr.value[0] in multiset(attr.value);
    assert attr.value[0] in exp.value;
  }

  lemma ApprovedValid(ctx: Context, auth: seq<Attribute>, unauth: seq<Attribute>)
    ensures Approve(ctx, auth, unauth).Valid(ctx.parse)
  {
    StampedSound(ctx, auth, unauth);
    IdentifyKeeps(ctx, Stamped(ctx, auth, unauth));
  }

  // ----------------------------------------------------------------- identity

  lemma {:induction false} PresentDistinct(attrs: map<Key, Attribute>, keys: seq<Key>)
    requires Distinct(keys)
    ensures Distinct(Present(attrs, keys))
    decreases |keys|
  {
    if keys != [] {
      var init, last := keys[..|keys| - 1], keys[|keys| - 1];
      PresentDistinct(attrs, init);
      assert last !in init;
      assert last !in Present(attrs, init);
    }
  }

  lemma IdentifySound(ctx: Context, b: Actor)
    requires ctx.policy.Valid() && b.identityKeys == []
    ensures var a := Identify(ctx, b);
      && a.identityKeys != [] && a.IdentityPresent() && a.IdentityDistinct()
      && (a.identityKeys == Present(a.attrs, LookupIdentityKeys(ctx.policy))
          || (a.identityKeys in {[ZprAddr], [ActorHash]}
              && forall k :: k in LookupIdentityKeys(ctx.policy) && k in a.attrs ==> k == ActorHash))
  {
    var keys := LookupIdentityKeys(ctx.policy);
    LookupKeysDistinct(ctx.policy);
    PresentDistinct(b.attrs, keys);
    assert b.identityKeys + Present(b.attrs, keys) == Present(b.attrs, keys);
  }

  /**
   Every admitted actor has an identity: a non-empty list of distinct attributes it carries,
   CN first and then policy order, so its authentication has a definite expiration, the least
   over its authorities and identity attributes.
   */
  lemma IdentityIsWellFormed(ctx: Context, auth: seq<Attribute>, unauth: seq<Attribute>)
    requires ctx.policy.Valid()
    ensures var a := Approve(ctx, auth, unauth);
      && a.identityKeys != [] && a.IdentityPresent() && a.IdentityDistinct()
      && (a.identityKeys == Present(a.attrs, LookupIdentityKeys(ctx.policy))
          || (a.identityKeys in {[ZprAddr], [ActorHash]}
              && forall k :: k in LookupIdentityKeys(ctx.policy) && k in a.attrs ==> k == ActorHash))
    ensures var a := Approve(ctx, auth, unauth);
      && AuthExpiration(a).Some?
      && (forall k :: k in Credentials(a) && k in a.attrs ==> AuthExpiration(a).value <= a.attrs[k].expiresAt)
      && exists k :: k in Credentials(a) && k in a.attrs && a.attrs[k].expiresAt == AuthExpiration(a).value
  {
    var a := Approve(ctx, auth, unauth);
    StampedSound(ctx, auth, unauth);
    IdentifySound(ctx, Stamped(ctx, auth, unauth));
    EarliestIsMinimum(a, Credentials(a));
    assert a.identityKeys[0] in Credentials(a) && a.identityKeys[0] in a.attrs;
  }

  // ----------------------------------------------------------------- re-checking

  /** `approve_connected`: is a connected actor still compatible with the policy? */
  predicate StillApproved(ctx: Context, a: Actor) {
    var matched := Matched(ctx, a.Claims());
    if matched == [] then !a.IsNode()
    else (IsNode in FlagsOf(matched)) == a.IsNode() && a.ServiceSet() <= ServicesOf(matched)
  }

  /** The code of the re-check; `claims` is the attribute map listed in whatever order it iterates. */
  method ApproveConnected(ctx: Context, a: Actor, claims: seq<Attribute>) returns (ok: bool)
    requires Elements(claims) == a.Claims()
    ensures ok <==> StillApproved(ctx, a)
  {
    var matched := MatchJoinPolicies(ctx.policy.joinPolicies, claims, ctx.now);
    if matched == [] { return !a.IsNode(); }
    var flags, services := Gather(matched);
    if (IsNode in flags) != a.IsNode() { return false; }
    return forall s :: s in a.ServiceSet() ==> s in services;
  }

  /** Keys admission always writes on its own account. */
  const STAMPED: set<Key> := {Role, Services, Vinst}

  predicate Mentions(jps: seq<JPolicy>, keys: set<Key>) {
    exists jp, exp :: jp in jps && exp in jp.matches && exp.key in keys
  }

  /** Distinct claims, each of which the actor would take. */
  predicate CleanClaims(parse: AddrParser, claims: seq<Attribute>) {
    && (forall i, j :: 0 <= i < j < |claims| ==> claims[i].key != claims[j].key)
    && (forall a :: a in claims ==> Accepts(parse, a))
  }

  lemma {:induction false} CleanClaimsCommitExactly(parse: AddrParser, claims: seq<Attribute>)
    requires CleanClaims(parse, claims)
    ensures forall a :: a in claims ==>
              a.key in AddAll(parse, NEW_ACTOR, claims).attrs && AddAll(parse, NEW_ACTOR, claims).attrs[a.key] == a
    decreases |claims|
  {
    if claims != [] {
      var init, last := claims[..|claims| - 1], claims[|claims| - 1];
      assert claims == init + [last];
      assert forall a :: a in init ==> a.key != last.key;
      CleanClaimsCommitExactly(parse, init);
    }
  }

  /** The address request, if any, was settled by a pin. */
  predicate RequestSettled(ctx: Context, auth: seq<Attribute>, unauth: seq<Attribute>) {
    Requested(unauth) == [] || AddrPinned(Matched(ctx, Elements(Query(auth, unauth))))
  }

  predicate CleanConnect(ctx: Context, auth: seq<Attribute>, unauth: seq<Attribute>) {
    && CleanClaims(ctx.parse, Query(auth, unauth))
    && RequestSettled(ctx, auth, unauth)
  }

  /** What the actor has under a key before it is given an identity. */
  predicate Carries(ctx: Context, auth: seq<Attribute>, unauth: seq<Attribute>, k: Key) {
    if k == Services then ServicesOf(Matched(ctx, Elements(Query(auth, unauth)))) != {}
    else k in STAMPED || exists a :: a in Query(auth, unauth) && a.key == k
  }

  /** The last resort: nothing an identity could rest on, so a hash is stamped. */
  predicate NeedsHash(ctx: Context, auth: seq<Attribute>, unauth: seq<Attribute>) {
    forall k :: k in LookupIdentityKeys(ctx.policy) + [ZprAddr] ==> !Carries(ctx, auth, unauth, k)
  }

  ghost function HashAttr(ctx: Context, auth: seq<Attribute>, unauth: seq<Attribute>): Attribute {
    Internal(ActorHash, [ctx.hash(Stamped(ctx, auth, unauth))], ctx.now)
  }

  predicate WrittenKey(ctx: Context, auth: seq<Attribute>, unauth: seq<Attribute>, k: Key) {
    k in STAMPED || (k == ActorHash && NeedsHash(ctx, auth, unauth))
  }

  /** What admission writes under a key. */
  ghost function StampFor(ctx: Context, auth: seq<Attribute>, unauth: seq<Attribute>, k: Key): (r: Option<Attribute>)
    ensures r.Some? ==> r.value.key == k && WrittenKey(ctx, auth, unauth, k)
  {
    var matched := Matched(ctx, Elements(Query(auth, unauth)));
    match k
    case Role => Some(RoleAttr(IsNode in FlagsOf(matched), ctx.now))
    case Vinst => Some(Internal(Vinst, [ToDecimal(ctx.policy.vinst)], ctx.now))
    case Services => if ServicesOf(matched) == {} then None else Some(ServicesAttr(matched, ctx.now))
    case ActorHash => if NeedsHash(ctx, auth, unauth) then Some(HashAttr(ctx, auth, unauth)) else None
    case _ => None
  }

  ghost function Stamps(ctx: Context, auth: seq<Attribute>, unauth: seq<Attribute>): set<Attribute> {
    set k | k in STAMPED + {ActorHash} && StampFor(ctx, auth, unauth, k).Some? :: StampFor(ctx, auth, unauth, k).value
  }

  lemma StampsMeans(ctx: Context, auth: seq<Attribute>, unauth: seq<Attribute>, a: Attribute)
    ensures a in Stamps(ctx, auth, unauth) <==> StampFor(ctx, auth, unauth, a.key) == Some(a)
  {
    if StampFor(ctx, auth, unauth, a.key) == Some(a) { assert a.key in STAMPED + {ActorHash}; }
  }

  /** The claims with the stamps in place: what a re-check will read. */
  ghost function Seen(ctx: Context, auth: seq<Attribute>, unauth: seq<Attribute>): set<Attribute> {
    (set a | a in Query(auth, unauth) && !WrittenKey(ctx, auth, unauth, a.key)) + Stamps(ctx, auth, unauth)
  }

  /** Off the stamped keys, the actor before its identity carries exactly the claims that were matched. */
  lemma StampedCarriesClaims(ctx: Context, auth: seq<Attribute>, unauth: seq<Attribute>, k: Key)
    requires CleanConnect(ctx, auth, unauth) && k !in STAMPED
    ensures forall a :: Stamped(ctx, auth, unauth).Get(k) == Some(a) <==> a in Query(auth, unauth) && a.key == k
  {
    var query, claimed := Query(auth, unauth), Claimed(ctx, auth, unauth);
    assert Committed(ctx, auth, unauth) == query by {
      if Requested(unauth) == [] { assert auth + [] == auth; }
    }
    AddAllSound(ctx.parse, query);
    CleanClaimsCommitExactly(ctx.parse, query);
    StampedSound(ctx, auth, unauth);
    assert Stamped(ctx, auth, unauth).Get(k) == claimed.Get(k);
    forall a ensures claimed.Get(k) == Some(a) <==> a in query && a.key == k {
      if claimed.Get(k) == Some(a) { assert a in query && a.key == k; }
    }
  }

  lemma StampedHas(ctx: Context, auth: seq<Attribute>, unauth: seq<Attribute>, k: Key)
    requires k in STAMPED
    ensures Stamped(ctx, auth, unauth).Get(k) == StampFor(ctx, auth, unauth, k)
  {
    StampSets(ctx, Claimed(ctx, auth, unauth), Matched(ctx, Elements(Query(auth, unauth))));
  }

  lemma StampedCarries(ctx: Context, auth: seq<Attribute>, unauth: seq<Attribute>, k: Key)
    requires CleanConnect(ctx, auth, unauth)
    ensures k in Stamped(ctx, auth, unauth).attrs <==> Carries(ctx, auth, unauth, k)
  {
    var b := Stamped(ctx, auth, unauth);
    if k in STAMPED {
      StampedHas(ctx, auth, unauth, k);
    } else {
      StampedCarriesClaims(ctx, auth, unauth, k);
      if k in b.attrs { assert b.Get(k) == Some(b.attrs[k]); }
    }
  }

  /** A hash is stamped exactly if nothing else can carry the identity. */
  lemma HashExactly(ctx: Context, auth: seq<Attribute>, unauth: seq<Attribute>)
    requires CleanConnect(ctx, auth, unauth)
    ensures var b := Stamped(ctx, auth, unauth);
      Approve(ctx, auth, unauth).attrs ==
        if NeedsHash(ctx, auth, unauth) then b.attrs[ActorHash := HashAttr(ctx, auth, unauth)] else b.attrs
  {
    var b, keys := Stamped(ctx, auth, unauth), LookupIdentityKeys(ctx.policy);
    StampedSound(ctx, auth, unauth);
    forall k ensures k in b.attrs <==> Carries(ctx, auth, unauth, k) { StampedCarries(ctx, auth, unauth, k); }
    var present := Present(b.attrs, keys);
    assert b.identityKeys + present == present;
    if present != [] { assert present[0] in present; }
  }

  lemma SeenUnread(ctx: Context, auth: seq<Attribute>, unauth: seq<Attribute>, k: Key)
    requires !WrittenKey(ctx, auth, unauth, k)
    ensures Under(Seen(ctx, auth, unauth), k) == Under(Elements(Query(auth, unauth)), k)
  {
    forall a: Attribute | a.key == k ensures a !in Stamps(ctx, auth, unauth) { StampsMeans(ctx, auth, unauth, a); }
  }

  lemma SeenWritten(ctx: Context, auth: seq<Attribute>, unauth: seq<Attribute>, k: Key)
    requires WrittenKey(ctx, auth, unauth, k)
    ensures forall a :: a in Under(Seen(ctx, auth, unauth), k) <==> StampFor(ctx, auth, unauth, k) == Some(a)
  {
    forall a: Attribute | a.key == k
      ensures a in Stamps(ctx, auth, unauth) <==> StampFor(ctx, auth, unauth, k) == Some(a)
    {
      StampsMeans(ctx, auth, unauth, a);
    }
  }

  /** The stamps are on the actor, and nothing else is under their keys. */
  lemma ApprovedStamps(ctx: Context, auth: seq<Attribute>, unauth: seq<Attribute>, k: Key)
    requires CleanConnect(ctx, auth, unauth) && WrittenKey(ctx, auth, unauth, k)
    ensures Approve(ctx, auth, unauth).Get(k) == StampFor(ctx, auth, unauth, k)
  {
    HashExactly(ctx, auth, unauth);
    if k in STAMPED { StampedHas(ctx, auth, unauth, k); }
  }

  /** An admitted actor carries exactly its claims with the stamps in place. */
  lemma ApprovedCarriesClaims(ctx: Context, auth: seq<Attribute>, unauth: seq<Attribute>, k: Key)
    requires CleanConnect(ctx, auth, unauth)
    ensures Under(Approve(ctx, auth, unauth).Claims(), k) == Under(Seen(ctx, auth, unauth), k)
  {
    var actor := Approve(ctx, auth, unauth);
    ApprovedValid(ctx, auth, unauth);
    UnderIsGet(actor, k);
    if WrittenKey(ctx, auth, unauth, k) {
      SeenWritten(ctx, auth, unauth, k);
      ApprovedStamps(ctx, auth, unauth, k);
    } else {
      SeenUnread(ctx, auth, unauth, k);
      ApprovedUnwritten(ctx, auth, unauth, k);
    }
  }

  lemma ApprovedUnwritten(ctx: Context, auth: seq<Attribute>, unauth: seq<Attribute>, k: Key)
    requires CleanConnect(ctx, auth, unauth) && !WrittenKey(ctx, auth, unauth, k)
    ensures forall a :: Approve(ctx, auth, unauth).Get(k) == Some(a) <==> a in Query(auth, unauth) && a.key == k
  {
    HashExactly(ctx, auth, unauth);
    StampedCarriesClaims(ctx, auth, unauth, k);
    assert Approve(ctx, auth, unauth).Get(k) == Stamped(ctx, auth, unauth).Get(k);
  }

  lemma UnderIsGet(actor: Actor, k: Key)
    requires actor.Keyed()
    ensures forall a :: a in Under(actor.Claims(), k) <==> actor.Get(k) == Some(a)
  {}

  lemma ApprovedMatchesExactly(ctx: Context, auth: seq<Attribute>, unauth: seq<Attribute>)
    requires CleanConnect(ctx, auth, unauth)
    ensures Matched(ctx, Approve(ctx, auth, unauth).Claims()) == Matched(ctx, Seen(ctx, auth, unauth))
  {
    var c1, c2 := Approve(ctx, auth, unauth).Claims(), Seen(ctx, auth, unauth);
    forall jp, exp | jp in ctx.policy.joinPolicies && exp in jp.matches
      ensures Under(c1, exp.key) == Under(c2, exp.key)
    {
      ApprovedCarriesClaims(ctx, auth, unauth, exp.key);
    }
    MatchingReadsOnlyNamedKeys(ctx.policy.joinPolicies, c1, c2, ctx.now);
  }

  /** No join policy reads a key admission writes; the hash counts only for an actor that gets one. */
  predicate StampsUnread(ctx: Context, auth: seq<Attribute>, unauth: seq<Attribute>) {
    && !Mentions(ctx.policy.joinPolicies, STAMPED)
    && (Mentions(ctx.policy.joinPolicies, {ActorHash}) ==> !NeedsHash(ctx, auth, unauth))
  }

  lemma UnreadStampsMatchAlike(ctx: Context, auth: seq<Attribute>, unauth: seq<Attribute>)
    requires StampsUnread(ctx, auth, unauth)
    ensures Matched(ctx, Seen(ctx, auth, unauth)) == Matched(ctx, Elements(Query(auth, unauth)))
  {
    var c1, c2 := Seen(ctx, auth, unauth), Elements(Query(auth, unauth));
    forall jp, exp | jp in ctx.policy.joinPolicies && exp in jp.matches
      ensures Under(c1, exp.key) == Under(c2, exp.key)
    {
      SeenUnread(ctx, auth, unauth, exp.key);
    }
    MatchingReadsOnlyNamedKeys(ctx.policy.joinPolicies, c1, c2, ctx.now);
  }

  lemma ApprovedMatchesAsConnected(ctx: Context, auth: seq<Attribute>, unauth: seq<Attribute>)
    requires CleanConnect(ctx, auth, unauth) && StampsUnread(ctx, auth, unauth)
    ensures Matched(ctx, Approve(ctx, auth, unauth).Claims()) == Matched(ctx, Elements(Query(auth, unauth)))
  {
    ApprovedMatchesExactly(ctx, auth, unauth);
    UnreadStampsMatchAlike(ctx, auth, unauth);
  }

  lemma SameRoleAndServices(a: Actor, b: Actor)
    requires a.Get(Role) == b.Get(Role) && a.Get(Services) == b.Get(Services)
    ensures a.IsNode() == b.IsNode() && a.ServiceSet() == b.ServiceSet()
  {}

  lemma StampedRoleAndServices(ctx: Context, a: Actor, matched: seq<JPolicy>)
    ensures var b := Stamp(ctx, a, matched);
      b.IsNode() == (IsNode in FlagsOf(matched)) && b.ServiceSet() == ServicesOf(matched)
  {
    StampSets(ctx, a, matched);
    assert |ROLE_NODE| != |ROLE_ADAPTER|;
  }

  lemma ApprovedRoleAndServices(ctx: Context, auth: seq<Attribute>, unauth: seq<Attribute>)
    ensures var a, matched := Approve(ctx, auth, unauth), Matched(ctx, Elements(Query(auth, unauth)));
      && a.IsNode() == (IsNode in FlagsOf(matched))
      && a.ServiceSet() == ServicesOf(matched)
      && a.Get(Vinst) == Some(Internal(Vinst, [ToDecimal(ctx.policy.vinst)], ctx.now))
  {
    var a, b := Approve(ctx, auth, unauth), Stamped(ctx, auth, unauth);
    StampedSound(ctx, auth, unauth);
    IdentifyKeeps(ctx, b);
    SameRoleAndServices(a, b);
    StampedRoleAndServices(ctx, Claimed(ctx, auth, unauth), Matched(ctx, Elements(Query(auth, unauth))));
    StampedHas(ctx, auth, unauth, Vinst);
  }

  /** What the stamps let match bears out what the claims alone were granted. */
  ghost predicate StampsBearOut(ctx: Context, auth: seq<Attribute>, unauth: seq<Attribute>) {
    var before, after := Matched(ctx, Elements(Query(auth, unauth))), Matched(ctx, Seen(ctx, auth, unauth));
    if after == [] then IsNode !in FlagsOf(before)
    else (IsNode in FlagsOf(before) <==> IsNode in FlagsOf(after)) && ServicesOf(before) <= ServicesOf(after)
  }

  /** The re-check of a freshly admitted actor succeeds exactly if its own stamps do not speak against it. */
  lemma RecheckExactly(ctx: Context, auth: seq<Attribute>, unauth: seq<Attribute>)
    requires CleanConnect(ctx, auth, unauth)
    ensures StillApproved(ctx, Approve(ctx, auth, unauth)) <==> StampsBearOut(ctx, auth, unauth)
  {
    ApprovedMatchesExactly(ctx, auth, unauth);
    ApprovedRoleAndServices(ctx, auth, unauth);
  }

  /** Connect and re-check agree: what admission builds, the same policy still approves. */
  lemma RecheckAgreesWithConnect(ctx: Context, auth: seq<Attribute>, unauth: seq<Attribute>)
    requires CleanConnect(ctx, auth, unauth) && StampsUnread(ctx, auth, unauth)
    ensures StillApproved(ctx, Approve(ctx, auth, unauth))
  {
    ApprovedMatchesAsConnected(ctx, auth, unauth);
    ApprovedRoleAndServices(ctx, auth, unauth);
  }

  // ------------------------------------------------------ when the fallback hash is read

  const HASH_EXP := AttrExp(ActorHash, Has, [])

  /** The one join policy asks for the fallback hash and nothing else. */
  predicate AsksForHash(ctx: Context, jp: JPolicy) {
    jp.matches == [HASH_EXP] && ctx.policy == Policy([jp], [], 1, NoReader)
  }

  lemma NothingClaimedNothingMatched(ctx: Context, jp: JPolicy)
    requires AsksForHash(ctx, jp)
    ensures Matched(ctx, Elements(Query([], []))) == []
  {
    var none := Elements(Query([], []));
    assert HASH_EXP in jp.matches && !Satisfied(HASH_EXP, none, ctx.now);
    assert !Matches(jp, none, ctx.now);
    assert ctx.policy.joinPolicies == [jp] && [jp][..0] == [];
    assert Matching([], none, ctx.now) == [];
    assert Matching([jp], none, ctx.now) == [];
  }

  lemma AnonymousGetsHash(ctx: Context, jp: JPolicy)
    requires AsksForHash(ctx, jp)
    ensures Approve(ctx, [], []).Get(ActorHash).Some?
    ensures !Approve(ctx, [], []).Get(ActorHash).value.IsExpired(ctx.now)
  {
    NothingClaimedNothingMatched(ctx, jp);
    assert Committed(ctx, [], []) == [];
    StampKeeps(ctx, NEW_ACTOR, []);
    var b := Stamp(ctx, NEW_ACTOR, []);
    assert b.Get(Cn) == NEW_ACTOR.Get(Cn) && b.Get(ZprAddr) == NEW_ACTOR.Get(ZprAddr);
    assert LookupIdentityKeys(ctx.policy) == [Cn] && [Cn][..0] == [];
    assert Present(b.attrs, [Cn]) == [];
  }

  lemma HashIsMatched(ctx: Context, jp: JPolicy, claims: set<Attribute>, h: Attribute)
    requires AsksForHash(ctx, jp) && !h.IsExpired(ctx.now)
    requires forall a :: a in Under(claims, ActorHash) <==> a == h
    ensures jp in Matched(ctx, claims)
  {
    assert h in Under(claims, ActorHash);
    forall x | x in claims && x.key == ActorHash ensures x == h { assert x in Under(claims, ActorHash); }
    assert Satisfied(HASH_EXP, claims, ctx.now);
  }

  lemma AnonymousMatchesAfterwards(ctx: Context, jp: JPolicy)
    requires AsksForHash(ctx, jp)
    ensures jp in Matched(ctx, Approve(ctx, [], []).Claims())
  {
    var a := Approve(ctx, [], []);
    AnonymousGetsHash(ctx, jp);
    ApprovedValid(ctx, [], []);
    UnderIsGet(a, ActorHash);
    HashIsMatched(ctx, jp, a.Claims(), a.Get(ActorHash).value);
  }

  lemma AskingForHashIsPlain(ctx: Context, jp: JPolicy)
    requires AsksForHash(ctx, jp)
    ensures ctx.policy.Valid() && !Mentions(ctx.policy.joinPolicies, POLICY_STAMPED)
  {}

  lemma NoClaimsAreClean(ctx: Context)
    ensures CleanConnect(ctx, [], [])
  {}

  lemma AnonymousIsPlainAdapter(ctx: Context, jp: JPolicy)
    requires AsksForHash(ctx, jp)
    ensures !Approve(ctx, [], []).IsNode() && Approve(ctx, [], []).ServiceSet() == {}
  {
    NothingClaimedNothingMatched(ctx, jp);
    ApprovedRoleAndServices(ctx, [], []);
  }

  const HASH_JOIN := JPolicy([HASH_EXP], {IsNode}, None)

  /**
   The restriction reaches beyond the keys the code lists as policy-stamped: a join policy that
   asks for the fallback actor hash matches only after admission, and the re-check rejects.
   */
  lemma RecheckCanRejectOnActorHash(ctx: Context)
    requires AsksForHash(ctx, HASH_JOIN)
    ensures ctx.policy.Valid() && !Mentions(ctx.policy.joinPolicies, POLICY_STAMPED)
    ensures CleanConnect(ctx, [], []) && !StillApproved(ctx, Approve(ctx, [], []))
  {
    AskingForHashIsPlain(ctx, HASH_JOIN);
    NoClaimsAreClean(ctx);
    AnonymousIsPlainAdapter(ctx, HASH_JOIN);
    AnonymousMatchesAfterwards(ctx, HASH_JOIN);
    NodePolicyRejectsAdapter(ctx, Approve(ctx, [], []), HASH_JOIN);
  }

  lemma NodePolicyRejectsAdapter(ctx: Context, a: Actor, jp: JPolicy)
    requires jp in Matched(ctx, a.Claims()) && IsNode in jp.flags && !a.IsNode()
    ensures !StillApproved(ctx, a)
  {}
}
