/**
 Actors (libeval/src/actor.rs): an attribute map, an ordered list of identity keys and the
 cached ZPR address. `Actor` is the value the evaluator reads; `ActorRecord` is the object
 whose methods update it in place.
 */
module Actors {
  import opened Text
  import opened Attributes

  datatype Actor = Actor(attrs: map<Key, Attribute>, identityKeys: seq<Key>, zprAddr: Option<Addr>) {

    /** Every attribute sits under its own key. */
    predicate Keyed() { forall k :: k in attrs ==> attrs[k].key == k }

    /** The cached address is what the stored attribute parses to. */
    predicate AddrAgrees(parse: AddrParser) {
      if ZprAddr in attrs
      then zprAddr.Some? && zprAddr == AddrIn(parse, attrs[ZprAddr])
      else zprAddr.None?
    }

    predicate Valid(parse: AddrParser) { Keyed() && AddrAgrees(parse) }

    /** Identity keys name attributes that are there, each once. */
    predicate IdentityPresent() { forall k :: k in identityKeys ==> k in attrs }

    predicate IdentityDistinct() {
      forall i, j :: 0 <= i < j < |identityKeys| ==> identityKeys[i] != identityKeys[j]
    }

    function Get(k: Key): Option<Attribute> {
      if k in attrs then Some(attrs[k]) else None
    }

    function Single(k: Key): Option<string> {
      if k in attrs then attrs[k].First() else None
    }

    predicate IsNode() { Single(Role) == Some(ROLE_NODE) }

    predicate Provides(service: string) {
      Services in attrs && service in attrs[Services].value
    }

    function ServiceSet(): set<string> {
      if Services in attrs then set s | s in attrs[Services].value else {}
    }

    function Claims(): set<Attribute> { attrs.Values }
  }

  const NEW_ACTOR := Actor(map[], [], None)

  function AddrIn(parse: AddrParser, attr: Attribute): Option<Addr> {
    parse(if attr.value == [] then "" else attr.value[0])
  }

  /** Whether `add_attribute` takes the attribute: addresses must parse, roles must be known. */
  predicate Accepts(parse: AddrParser, attr: Attribute) {
    match attr.key
    case ZprAddr => AddrIn(parse, attr).Some?
    case Role => attr.First() == Some(ROLE_ADAPTER) || attr.First() == Some(ROLE_NODE)
    case _ => true
  }

  /** A rejected attribute leaves the actor alone. */
  function Add(parse: AddrParser, a: Actor, attr: Attribute): Actor {
    if !Accepts(parse, attr) then a
    else a.(attrs := a.attrs[attr.key := attr],
            zprAddr := if attr.key == ZprAddr then AddrIn(parse, attr) else a.zprAddr)
  }

  function AddAll(parse: AddrParser, a: Actor, attrs: seq<Attribute>): Actor {
    if attrs == [] then a
    else Add(parse, AddAll(parse, a, attrs[..|attrs| - 1]), attrs[|attrs| - 1])
  }

  function Without(keys: seq<Key>, k: Key): (r: seq<Key>)
    ensures forall x :: x in r <==> x in keys && x != k
  {
    if keys == [] then []
    else (if keys[0] == k then [] else [keys[0]]) + Without(keys[1..], k)
  }

  function Remove(a: Actor, k: Key): Actor {
    if k !in a.attrs then a
    else Actor(a.attrs - {k}, Without(a.identityKeys, k), if k == ZprAddr then None else a.zprAddr)
  }

  function AddIdentityKey(a: Actor, order: nat, k: Key): Actor {
    if k !in a.attrs then a
    else if order >= |a.identityKeys| then a.(identityKeys := a.identityKeys + [k])
    else a.(identityKeys := a.identityKeys[..order] + [k] + a.identityKeys[order..])
  }

  ghost function SetServices(a: Actor, services: set<string>, now: Time): Actor {
    var cleared := a.attrs - {Services};
    if services == {} then a.(attrs := cleared)
    else a.(attrs := cleared[Services := Internal(Services, Sorted(services), now)])
  }

  // ------------------------------------------------ what every operation keeps

  datatype Op =
    | OpAdd(attr: Attribute)
    | OpRemove(key: Key)
    | OpIdentity(order: nat, key: Key)
    | OpServices(services: set<string>, now: Time)

  ghost function Apply(parse: AddrParser, a: Actor, op: Op): Actor {
    match op
    case OpAdd(attr) => Add(parse, a, attr)
    case OpRemove(k) => Remove(a, k)
    case OpIdentity(order, k) => AddIdentityKey(a, order, k)
    case OpServices(services, now) => SetServices(a, services, now)
  }

  ghost function Run(parse: AddrParser, a: Actor, ops: seq<Op>): Actor
    decreases |ops|
  {
    if ops == [] then a else Run(parse, Apply(parse, a, ops[0]), ops[1..])
  }

  /** The cached address and the attribute map agree after any sequence of operations. */
  lemma {:induction false} AddressCacheAgrees(parse: AddrParser, a: Actor, ops: seq<Op>)
    requires a.Valid(parse)
    ensures Run(parse, a, ops).Valid(parse)
    decreases |ops|
  {
    if ops != [] {
      AddressCacheAgrees(parse, Apply(parse, a, ops[0]), ops[1..]);
    }
  }

  /** The one operation that can leave an identity key dangling, and exactly when it does. */
  predicate KeepsIdentity(a: Actor, op: Op) {
    op.OpServices? && op.services == {} ==> Services !in a.identityKeys
  }

  lemma IdentityPresentExactly(parse: AddrParser, a: Actor, op: Op)
    requires a.IdentityPresent()
    ensures Apply(parse, a, op).IdentityPresent() <==> KeepsIdentity(a, op)
  {}

  /** It can happen: clearing services that serve as an identity leaves the key without an attribute. */
  lemma ClearedServicesCanDangle(parse: AddrParser)
    ensures exists a: Actor ::
      a.Valid(parse) && a.IdentityPresent() && !Apply(parse, a, OpServices({}, 0)).IdentityPresent()
  {
    var a := Actor(map[Services := Attribute(Services, ["w"], 0, SOURCE_ZPR)], [Services], None);
    IdentityPresentExactly(parse, a, OpServices({}, 0));
    assert a.Valid(parse) && a.IdentityPresent();
  }

  /** `set_services` and `services_iter` are inverse: the services read back are those set. */
  lemma ServicesRoundTrip(a: Actor, services: set<string>, now: Time)
    ensures SetServices(a, services, now).ServiceSet() == services
  {}

  // ----------------------------------------------- when authentication expires

  /** The attributes authentication rests on: the two authorities, then the identity keys. */
  function Credentials(a: Actor): seq<Key> {
    [DeviceAuthority, UserAuthority] + a.identityKeys
  }

  /** `min_by_key` over the credentials that are present: the earliest, the first on a tie. */
  function EarliestFrom(a: Actor, keys: seq<Key>): Option<(Time, Key)>
  {
    if keys == [] then None
    else
      var rest := EarliestFrom(a, keys[..|keys| - 1]);
      var k := keys[|keys| - 1];
      if k !in a.attrs then rest
      else if rest.None? || a.attrs[k].expiresAt < rest.value.0 then Some((a.attrs[k].expiresAt, k))
      else rest
  }

  function AuthExpirationWithGate(a: Actor): Option<(Time, Key)> {
    EarliestFrom(a, Credentials(a))
  }

  function AuthExpiration(a: Actor): Option<Time> {
    match AuthExpirationWithGate(a)
    case None => None
    case Some(e) => Some(e.0)
  }

  lemma {:induction false} EarliestIsMinimum(a: Actor, keys: seq<Key>)
    ensures EarliestFrom(a, keys).None? <==> forall k :: k in keys ==> k !in a.attrs
    ensures var e := EarliestFrom(a, keys);
            e.Some? ==>
              && e.value.1 in keys && e.value.1 in a.attrs && a.attrs[e.value.1].expiresAt == e.value.0
              && forall k :: k in keys && k in a.attrs ==> e.value.0 <= a.attrs[k].expiresAt
    decreases |keys|
  {
    if keys != [] {
      var init, last := keys[..|keys| - 1], keys[|keys| - 1];
      EarliestIsMinimum(a, init);
      assert forall k :: k in keys <==> k in init || k == last;
    }
  }

  /** On a tie the gate is the credential listed first. */
  lemma {:induction false} GateIsFirst(a: Actor, keys: seq<Key>) returns (i: nat)
    requires EarliestFrom(a, keys).Some?
    ensures i < |keys| && keys[i] == EarliestFrom(a, keys).value.1
    ensures forall j :: 0 <= j < i && keys[j] in a.attrs ==> EarliestFrom(a, keys).value.0 < a.attrs[keys[j]].expiresAt
    decreases |keys|
  {
    var init := keys[..|keys| - 1];
    EarliestIsMinimum(a, init);
    if EarliestFrom(a, keys) == EarliestFrom(a, init) {
      i := GateIsFirst(a, init);
      assert forall j :: 0 <= j <= i ==> init[j] == keys[j];
    } else {
      i := |keys| - 1;
      assert forall j :: 0 <= j < i ==> keys[j] == init[j] && keys[j] in init;
    }
  }

  // ------------------------------------------------------------------ the object

  class ActorRecord {
    const parse: AddrParser
    var attrs: map<Key, Attribute>
    var identityKeys: seq<Key>
    var zprAddr: Option<Addr>

    function Value(): Actor
      reads this
    {
      Actor(attrs, identityKeys, zprAddr)
    }

    constructor (parse: AddrParser)
      ensures Value() == NEW_ACTOR && this.parse == parse
    {
      this.parse := parse;
      attrs, identityKeys, zprAddr := map[], [], None;
    }

    method AddAttribute(attr: Attribute) returns (ok: bool)
      modifies this
      ensures ok == Accepts(parse, attr)
      ensures Value() == Add(parse, old(Value()), attr)
    {
      var first := if attr.value == [] then "" else attr.value[0];
      match attr.key {
        case ZprAddr =>
          var ip := parse(first);
          if ip.None? { return false; }
          zprAddr := ip;
        case Role =>
          if first != ROLE_ADAPTER && first != ROLE_NODE { return false; }
        case _ =>
      }
      attrs := attrs[attr.key := attr];
      return true;
    }

    method RemoveAttribute(k: Key) returns (removed: Option<Attribute>)
      modifies this
      ensures removed == old(Value()).Get(k)
      ensures Value() == Remove(old(Value()), k)
    {
      if k !in attrs { return None; }
      removed := Some(attrs[k]);
      attrs := attrs - {k};
      if k == ZprAddr { zprAddr := None; }
      identityKeys := Without(identityKeys, k);
    }

    method PlaceIdentityKey(order: nat, k: Key) returns (ok: bool)
      modifies this
      ensures ok == (k in old(attrs))
      ensures Value() == AddIdentityKey(old(Value()), order, k)
    {
      if k !in attrs { return false; }
      if order >= |identityKeys| {
        identityKeys := identityKeys + [k];
      } else {
        identityKeys := identityKeys[..order] + [k] + identityKeys[order..];
      }
      return true;
    }

    method ReplaceServices(services: set<string>, now: Time)
      modifies this
      ensures Value() == SetServices(old(Value()), services, now)
      ensures Value().ServiceSet() == services
    {
      ServicesRoundTrip(Value(), services, now);
      attrs := attrs - {Services};
      if services == {} { return; }
      var listed := SortSet(services);
      attrs := attrs[Services := Internal(Services, listed, now)];
    }
  }
}
