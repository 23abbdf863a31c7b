/**
 Attributes (libeval/src/attribute.rs). A key the code names has a constructor of its own;
 every other key string is `Other`.
 */
module Attributes {
  import opened Text

  /** IP addresses, as numbers under their total order. */
  type Addr = nat

  /** Seconds on the wall clock. */
  type Time = int

  /** `str::parse::<IpAddr>`: a parameter, since address syntax is the standard library's. */
  type AddrParser = string -> Option<Addr>

  datatype Key =
    | ZprAddr
    | Role
    | Services
    | Vinst
    | ConfigId
    | ActorHash
    | Cn
    | DeviceAuthority
    | UserAuthority
    | LinkCost
    | Other(name: string)

  const SOURCE_ZPR := "zpr"
  const ROLE_NODE := "node"
  const ROLE_ADAPTER := "adapter"
  const AUTHORITY_METHOD_BOOTSTRAP := "zpr-bootstrap"

  /** The code's constant, not its comment: it multiplies by 60 once too often for 100 years. */
  const NEVER_EXPIRES: Time := 60 * 60 * 60 * 24 * 365 * 100

  /** Keys that policy stamps onto an actor rather than taking from a claim. */
  const POLICY_STAMPED: set<Key> := {Role, Services, Vinst, ConfigId}

  datatype Attribute = Attribute(key: Key, value: seq<string>, expiresAt: Time, source: string) {

    predicate IsExpired(now: Time) { now > expiresAt }

    predicate IsSingleValue(v: string) { value == [v] }

    function SingleValue(): Option<string> {
      if |value| == 1 then Some(value[0]) else None
    }

    function First(): Option<string> {
      if value == [] then None else Some(value[0])
    }

    predicate HasAll(vs: seq<string>) { forall v :: v in vs ==> v in value }

    predicate HasAny(vs: seq<string>) { exists v :: v in vs && v in value }
  }

  /** An internal attribute, as `Attribute::builder(key).expires_in(NEVER_EXPIRES)` makes it. */
  function Internal(key: Key, value: seq<string>, now: Time): Attribute {
    Attribute(key, value, now + NEVER_EXPIRES, SOURCE_ZPR)
  }

  /** The attributes of a list, with order and repetition forgotten. */
  function Elements(s: seq<Attribute>): set<Attribute> { set a | a in s }

  /** Keys in the `user.` namespace. */
  predicate InUserNamespace(k: Key) {
    k == UserAuthority || (k.Other? && "user." <= k.name)
  }
}
