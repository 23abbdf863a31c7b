/**
 A decoded policy (libeval/src/policy.rs): its join policies, what they grant, and the
 identity keys it declares. Decoding the binary form is not part of this model.
 */
module Policies {
  import opened Text
  import opened Attributes
  import opened JoinPolicies

  // ------------------------------------------------------- communication policies

  datatype PortSpec = Port(num: nat) | PortRange(low: nat, high: nat) | NotInSchema

  datatype Scope = Scope(protocol: nat, ports: PortSpec, udpOneWay: bool)

  datatype Signal = Signal(message: string, service: string)

  datatype ComPolicy = ComPolicy(
    allow: bool,
    serviceId: string,
    scopes: seq<Scope>,
    clientConds: seq<AttrExp>,
    serviceConds: seq<AttrExp>,
    signal: Option<Signal>)

  /** `NoReader`: no policy bytes at all; `NoneDefined`: bytes without communication policies. */
  datatype ComPolicies = NoReader | NoneDefined | Defined(list: seq<ComPolicy>)

  datatype Policy = Policy(
    joinPolicies: seq<JPolicy>,
    identityAttrKeys: seq<Key>,
    vinst: nat,
    com: ComPolicies)
  {
    /** What loading guarantees: declared identity keys are resolved without repeats. */
    predicate Valid() { Distinct(identityAttrKeys) && vinst < U64_LIMIT }
  }

  predicate Distinct(keys: seq<Key>) {
    forall i, j :: 0 <= i < j < |keys| ==> keys[i] != keys[j]
  }

  // ------------------------------------------------------------- matching and grants

  function Matching(jps: seq<JPolicy>, claims: set<Attribute>, now: Time): (r: seq<JPolicy>)
    ensures forall jp :: jp in r <==> jp in jps && Matches(jp, claims, now)
  {
    if jps == [] then []
    else
      var init := Matching(jps[..|jps| - 1], claims, now);
      if Matches(jps[|jps| - 1], claims, now) then init + [jps[|jps| - 1]] else init
  }

  method MatchJoinPolicies(jps: seq<JPolicy>, attrs: seq<Attribute>, now: Time) returns (r: seq<JPolicy>)
    ensures r == Matching(jps, Elements(attrs), now)
  {
    r := [];
    for i := 0 to |jps|
      invariant r == Matching(jps[..i], Elements(attrs), now)
    {
      var b := DecideMatch(jps[i], attrs, now);
      assert jps[..i + 1][..i] == jps[..i];
      if b { r := r + [jps[i]]; }
    }
    assert jps[..|jps|] == jps;
  }

  function Grants(jp: JPolicy): set<string> {
    if jp.services.Some? then set s | s in jp.services.value else {}
  }

  function FlagsOf(matched: seq<JPolicy>): set<JFlag> {
    set jp, f | jp in matched && f in jp.flags :: f
  }

  function ServicesOf(matched: seq<JPolicy>): set<string> {
    set jp, s | jp in matched && s in Grants(jp) :: s
  }

  /** What connect grants: the union over every matching join policy. */
  function JoinServices(policy: Policy, claims: set<Attribute>, now: Time): set<string> {
    ServicesOf(Matching(policy.joinPolicies, claims, now))
  }

  /** What a refresh grants an actor whose role was fixed at connect. */
  function JoinServicesForRole(policy: Policy, claims: set<Attribute>, isNode: bool, now: Time): set<string> {
    var matched := Matching(policy.joinPolicies, claims, now);
    if isNode && IsNode !in FlagsOf(matched) then {}
    else set jp, s | jp in matched && (isNode || IsNode !in jp.flags) && s in Grants(jp) :: s
  }

  /** For the role connect would assign, the refresh grant is the connect grant. */
  lemma RoleGrantIsConnectGrant(policy: Policy, claims: set<Attribute>, now: Time)
    ensures
      var isNode := IsNode in FlagsOf(Matching(policy.joinPolicies, claims, now));
      JoinServicesForRole(policy, claims, isNode, now) == JoinServices(policy, claims, now)
  {}

  /** A role never widens a grant, and an adapter's grant holds no service only nodes may have. */
  lemma RoleGrantIsBounded(policy: Policy, claims: set<Attribute>, isNode: bool, now: Time)
    ensures JoinServicesForRole(policy, claims, isNode, now) <= JoinServices(policy, claims, now)
    ensures forall s :: s in JoinServicesForRole(policy, claims, false, now) ==>
              exists jp :: jp in policy.joinPolicies && IsNode !in jp.flags && s in Grants(jp)
  {}

  /** Waiting never adds a matched join policy, nor a service for either role. */
  lemma GrantsFadeWithTime(policy: Policy, claims: set<Attribute>, isNode: bool, t1: Time, t2: Time)
    requires t1 <= t2
    ensures forall jp :: jp in Matching(policy.joinPolicies, claims, t2) ==>
              jp in Matching(policy.joinPolicies, claims, t1)
    ensures JoinServicesForRole(policy, claims, isNode, t2) <= JoinServicesForRole(policy, claims, isNode, t1)
  {}

  /** Claims no join expression names do not matter to what matches. */
  lemma {:induction false} MatchingReadsOnlyNamedKeys(
      jps: seq<JPolicy>, c1: set<Attribute>, c2: set<Attribute>, now: Time)
    requires forall jp, exp :: jp in jps && exp in jp.matches ==> Under(c1, exp.key) == Under(c2, exp.key)
    ensures Matching(jps, c1, now) == Matching(jps, c2, now)
    decreases |jps|
  {
    if jps != [] {
      var init, last := jps[..|jps| - 1], jps[|jps| - 1];
      assert last in jps && forall jp :: jp in init ==> jp in jps;
      MatchingReadsOnlyNamedKeys(init, c1, c2, now);
      MatchReadsOnlyNamedKeys(last, c1, c2, now);
    }
  }

  // ------------------------------------------------------------------ identity keys

  /** One `returns_attributes` entry: the service's name for an attribute and where it lands. */
  datatype Mapping = Mapping(serviceAttrKey: string, key: Key, isTag: bool, isMultiValued: bool)

  datatype TrustedService = TrustedService(identityAttrs: seq<string>, returnsAttrs: seq<Mapping>)

  /** The first mapping for a service-side name, when it can carry an identity value. */
  function ResolveEntry(mappings: seq<Mapping>, entry: string): Option<Key> {
    if mappings == [] then None
    else if mappings[0].serviceAttrKey == entry then
      (if mappings[0].isTag || mappings[0].isMultiValued then None else Some(mappings[0].key))
    else ResolveEntry(mappings[1..], entry)
  }

  function ResolvedEntries(ts: TrustedService, entries: seq<string>): seq<Key> {
    if entries == [] then []
    else
      var init := ResolvedEntries(ts, entries[..|entries| - 1]);
      match ResolveEntry(ts.returnsAttrs, entries[|entries| - 1])
      case Some(k) => init + [k]
      case None => init
  }

  /** Everything the listed services declare, repeats included, in the order visited. */
  function Declared(services: map<string, TrustedService>, ids: seq<string>): seq<Key>
    requires forall id :: id in ids ==> id in services
  {
    if ids == [] then []
    else
      var last := services[ids[|ids| - 1]];
      Declared(services, ids[..|ids| - 1]) + ResolvedEntries(last, last.identityAttrs)
  }

  lemma DeclaredGrows(services: map<string, TrustedService>, ids: seq<string>, i: nat)
    requires i < |ids| && forall id :: id in ids ==> id in services
    ensures Declared(services, ids[..i + 1]) ==
      Declared(services, ids[..i]) + ResolvedEntries(services[ids[i]], services[ids[i]].identityAttrs)
  {
    assert ids[..i + 1][..i] == ids[..i];
  }

  /** Append a key unless the list has it. */
  function Push(keys: seq<Key>, k: Key): (r: seq<Key>)
    ensures Distinct(keys) ==> Distinct(r)
  {
    if k in keys then keys else keys + [k]
  }

  /** Keep the first of each repeated key. */
  function Dedup(keys: seq<Key>): (r: seq<Key>)
    ensures Distinct(r)
  {
    if keys == [] then [] else Push(Dedup(keys[..|keys| - 1]), keys[|keys| - 1])
  }

  lemma {:induction false} DedupKeepsMembers(keys: seq<Key>)
    ensures forall k :: k in Dedup(keys) <==> k in keys
    decreases |keys|
  {
    if keys != [] {
      DedupKeepsMembers(keys[..|keys| - 1]);
      assert keys == keys[..|keys| - 1] + [keys[|keys| - 1]];
    }
  }

  /** First come, first kept: what a shorter list yields is a prefix of what the longer one yields. */
  lemma {:induction false} DedupKeepsFirstOrder(keys: seq<Key>, n: nat)
    requires n <= |keys|
    ensures Dedup(keys[..n]) <= Dedup(keys)
    decreases |keys|
  {
    if n == |keys| {
      assert keys[..n] == keys;
    } else {
      DedupKeepsFirstOrder(keys[..|keys| - 1], n);
      assert keys[..|keys| - 1][..n] == keys[..n];
    }
  }

  /** The identity keys of a policy: a function of the service table, not of hash order. */
  ghost function IdentityAttrKeys(services: map<string, TrustedService>): seq<Key> {
    Dedup(Declared(services, Sorted(services.Keys)))
  }

  method ResolveIdentityAttrKeys(services: map<string, TrustedService>) returns (keys: seq<Key>)
    ensures keys == IdentityAttrKeys(services)
    ensures Distinct(keys)
  {
    var ids := SortSet(services.Keys);
    keys := [];
    for i := 0 to |ids|
      invariant keys == Dedup(Declared(services, ids[..i]))
    {
      DeclaredGrows(services, ids, i);
      keys := ResolveService(services[ids[i]], keys, Declared(services, ids[..i]));
    }
    assert ids[..|ids|] == ids;
  }

  /** The inner loop of the resolution: one service's declared identities, in declared order. */
  method ResolveService(ts: TrustedService, sofar: seq<Key>, ghost visited: seq<Key>) returns (keys: seq<Key>)
    requires sofar == Dedup(visited)
    ensures keys == Dedup(visited + ResolvedEntries(ts, ts.identityAttrs))
  {
    var entries := ts.identityAttrs;
    keys := sofar;
    assert visited + ResolvedEntries(ts, entries[..0]) == visited;
    for j := 0 to |entries|
      invariant keys == Dedup(visited + ResolvedEntries(ts, entries[..j]))
    {
      ghost var before := visited + ResolvedEntries(ts, entries[..j]);
      assert entries[..j + 1][..j] == entries[..j];
      var found := ResolveEntry(ts.returnsAttrs, entries[j]);
      if found.Some? {
        assert visited + ResolvedEntries(ts, entries[..j + 1]) == before + [found.value];
        assert (before + [found.value])[..|before|] == before;
        if found.value !in keys { keys := keys + [found.value]; }
      }
    }
    assert entries[..|entries|] == entries;
  }

  function WithoutCn(keys: seq<Key>): (r: seq<Key>)
    ensures forall k :: k in r <==> k in keys && k != Cn
  {
    if keys == [] then []
    else
      var init := WithoutCn(keys[..|keys| - 1]);
      assert keys == keys[..|keys| - 1] + [keys[|keys| - 1]];
      if keys[|keys| - 1] == Cn then init else init + [keys[|keys| - 1]]
  }

  lemma {:induction false} WithoutCnDistinct(keys: seq<Key>)
    requires Distinct(keys)
    ensures Distinct(WithoutCn(keys))
    decreases |keys|
  {
    if keys != [] {
      var init, last := keys[..|keys| - 1], keys[|keys| - 1];
      WithoutCnDistinct(init);
      assert last !in init;
      assert last !in WithoutCn(init);
    }
  }

  /** The CN first, then the policy's identity keys in policy order. */
  function LookupIdentityKeys(policy: Policy): seq<Key> {
    [Cn] + WithoutCn(policy.identityAttrKeys)
  }

  lemma LookupKeysDistinct(policy: Policy)
    requires policy.Valid()
    ensures Distinct(LookupIdentityKeys(policy))
    ensures forall k :: k in LookupIdentityKeys(policy) <==> k == Cn || k in policy.identityAttrKeys
  {
    WithoutCnDistinct(policy.identityAttrKeys);
    assert Cn !in WithoutCn(policy.identityAttrKeys);
  }

  method ListLookupIdentityKeys(policy: Policy) returns (r: seq<Key>)
    ensures r == LookupIdentityKeys(policy)
  {
    r := [Cn];
    var keys := policy.identityAttrKeys;
    for i := 0 to |keys|
      invariant r == [Cn] + WithoutCn(keys[..i])
    {
      assert keys[..i + 1][..i] == keys[..i];
      if keys[i] != Cn { r := r + [keys[i]]; }
    }
    assert keys[..|keys|] == keys;
  }
}
