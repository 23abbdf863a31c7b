/**
 The communication-policy evaluator (libeval/src/eval.rs): a deny pass, then an allow pass,
 each inferring the direction of a packet from port scopes and provided services, and the
 visa ports granted for a hit.
 */
module Evaluator {
  import opened Text
  import opened Attributes
  import opened Actors
  import opened JoinPolicies
  import opened Policies

  const TCP := 6
  const UDP := 17
  const IPV6_ICMP := 58

  datatype Packet = Packet(srcAddr: Addr, dstAddr: Addr, protocol: nat, srcPort: nat, dstPort: nat)

  datatype Direction = Forward | Reverse

  datatype Route = Route(hops: seq<Addr>)

  datatype Hit = Hit(idx: nat, direction: Direction, signal: Option<Signal>, route: Option<Route>)

  datatype EvalResult = DenyNoMatch | DenyHits(hits: seq<Hit>) | AllowHits(hits: seq<Hit>)

  /** Two actors, a packet between them and the time of evaluation. */
  datatype Request = Request(src: Actor, dst: Actor, pkt: Packet, now: Time)

  // ------------------------------------------------------------------ conditions

  /** `match_condition_to_actor`, branch for branch. */
  predicate ConditionMet(cond: AttrExp, actor: Actor, forAllow: bool, now: Time) {
    var k := cond.key;
    if forAllow && k in actor.attrs && actor.attrs[k].IsExpired(now) then false
    else match cond.op
      case Eq =>
        if |cond.value| != 1 then !forAllow
        else k in actor.attrs && actor.attrs[k].IsSingleValue(cond.value[0])
      case Ne =>
        if |cond.value| != 1 then !forAllow
        else !(k in actor.attrs && actor.attrs[k].IsSingleValue(cond.value[0]))
      case Has =>
        if cond.value == [] || cond.value == [""] then k in actor.attrs
        else k in actor.attrs && actor.attrs[k].HasAll(cond.value)
      case Excludes =>
        if cond.value == [] then !forAllow
        else !(k in actor.attrs && actor.attrs[k].HasAny(cond.value))
  }

  /** The three ways a condition can read on an actor when expiry is left out of account. */
  datatype Reading = Holds | Fails | Malformed

  function Read(cond: AttrExp, actor: Actor): Reading {
    var values := if cond.key in actor.attrs then actor.attrs[cond.key].value else [];
    var present := cond.key in actor.attrs;
    match cond.op
    case Eq => if |cond.value| != 1 then Malformed else if present && values == cond.value then Holds else Fails
    case Ne => if |cond.value| != 1 then Malformed else if present && values == cond.value then Fails else Holds
    case Has =>
      var wanted := if cond.value == [""] then {} else set v | v in cond.value;
      if present && (forall v :: v in wanted ==> v in values) then Holds else Fails
    case Excludes =>
      if cond.value == [] then Malformed
      else if present && (exists v :: v in cond.value && v in values) then Fails else Holds
  }

  predicate KeyExpired(cond: AttrExp, actor: Actor, now: Time) {
    cond.key in actor.attrs && actor.attrs[cond.key].IsExpired(now)
  }

  /** An allow needs a condition that holds on a live value; a deny needs only that it not fail. */
  lemma ConditionReadings(cond: AttrExp, actor: Actor, now: Time)
    ensures ConditionMet(cond, actor, true, now) <==> Read(cond, actor) == Holds && !KeyExpired(cond, actor, now)
    ensures ConditionMet(cond, actor, false, now) <==> Read(cond, actor) != Fails
  {}

  predicate ConditionsMet(cp: ComPolicy, client: Actor, server: Actor, forAllow: bool, now: Time) {
    && (forall c :: c in cp.clientConds ==> ConditionMet(c, client, forAllow, now))
    && (forall c :: c in cp.serviceConds ==> ConditionMet(c, server, forAllow, now))
  }

  // ---------------------------------------------------------------------- scopes

  predicate ScopeMatches(pkt: Packet, scope: Scope, want: Direction) {
    && scope.protocol == pkt.protocol
    && (match scope.ports
        case Port(num) =>
          if pkt.protocol == IPV6_ICMP then want == Forward && pkt.srcPort == num
          else (if want == Forward then pkt.dstPort else pkt.srcPort) == num
        case PortRange(low, high) =>
          if pkt.protocol == IPV6_ICMP then pkt.srcPort == (if want == Forward then low else high)
          else low <= (if want == Forward then pkt.dstPort else pkt.srcPort) <= high
        case NotInSchema => false)
    && !(pkt.protocol == UDP && want == Reverse && scope.udpOneWay)
  }

  predicate InScope(pkt: Packet, cp: ComPolicy, want: Direction) {
    exists s :: s in cp.scopes && ScopeMatches(pkt, s, want)
  }

  // ------------------------------------------------------------------------ hits

  /** How a policy fires on a request: forward is tried against every scope before reverse. */
  function Firing(cp: ComPolicy, r: Request, forAllow: bool): Option<Direction> {
    if InScope(r.pkt, cp, Forward) && r.dst.Provides(cp.serviceId) then
      if ConditionsMet(cp, r.src, r.dst, forAllow, r.now) then Some(Forward) else None
    else if InScope(r.pkt, cp, Reverse) && r.src.Provides(cp.serviceId) then
      if ConditionsMet(cp, r.dst, r.src, forAllow, r.now) then Some(Reverse) else None
    else None
  }

  function HitAt(list: seq<ComPolicy>, i: nat, r: Request, allows: bool): Option<Hit>
    requires i < |list|
  {
    if list[i].allow != allows then None
    else match Firing(list[i], r, allows)
      case Some(d) => Some(Hit(i, d, list[i].signal, None))
      case None => None
  }

  function HitsUpTo(list: seq<ComPolicy>, n: nat, r: Request, allows: bool): seq<Hit>
    requires n <= |list|
  {
    if n == 0 then []
    else
      var init := HitsUpTo(list, n - 1, r, allows);
      match HitAt(list, n - 1, r, allows)
      case Some(h) => init + [h]
      case None => init
  }

  function Hits(list: seq<ComPolicy>, r: Request, allows: bool): seq<Hit> {
    HitsUpTo(list, |list|, r, allows)
  }

  method MatchPolicies(list: seq<ComPolicy>, r: Request, allows: bool) returns (hits: seq<Hit>)
    ensures hits == Hits(list, r, allows)
  {
    hits := [];
    for i := 0 to |list|
      invariant hits == HitsUpTo(list, i, r, allows)
    {
      var cp := list[i];
      if allows == cp.allow {
        var direction := Firing(cp, r, allows);
        if direction.Some? {
          hits := hits + [Hit(i, direction.value, cp.signal, None)];
        }
      }
    }
  }

  /** The hits are exactly the policies that fire. */
  lemma {:induction false} HitsAreFirings(list: seq<ComPolicy>, n: nat, r: Request, allows: bool)
    requires n <= |list|
    ensures forall h :: h in HitsUpTo(list, n, r, allows) ==> h.idx < n && HitAt(list, h.idx, r, allows) == Some(h)
    ensures forall i :: 0 <= i < n && HitAt(list, i, r, allows).Some? ==>
              HitAt(list, i, r, allows).value in HitsUpTo(list, n, r, allows)
  {
    if n > 0 {
      HitsAreFirings(list, n - 1, r, allows);
      var init := HitsUpTo(list, n - 1, r, allows);
      forall i | 0 <= i < n && HitAt(list, i, r, allows).Some?
        ensures HitAt(list, i, r, allows).value in HitsUpTo(list, n, r, allows)
      {
        if i < n - 1 { assert HitAt(list, i, r, allows).value in init; }
      }
    }
  }

  predicate Ascending(hits: seq<Hit>) {
    forall i, j :: 0 <= i < j < |hits| ==> hits[i].idx < hits[j].idx
  }

  /** They come in policy order, each policy once. */
  lemma {:induction false} HitsAscend(list: seq<ComPolicy>, n: nat, r: Request, allows: bool)
    requires n <= |list|
    ensures Ascending(HitsUpTo(list, n, r, allows))
  {
    if n > 0 {
      HitsAscend(list, n - 1, r, allows);
      HitsAreFirings(list, n - 1, r, allows);
      var init := HitsUpTo(list, n - 1, r, allows);
      forall i | 0 <= i < |init| ensures init[i].idx < n - 1 { assert init[i] in init; }
    }
  }

  predicate SomeFires(list: seq<ComPolicy>, r: Request, allows: bool) {
    exists i :: 0 <= i < |list| && HitAt(list, i, r, allows).Some?
  }

  lemma NoHitsMeansNoneFires(list: seq<ComPolicy>, r: Request, allows: bool)
    ensures Hits(list, r, allows) != [] <==> SomeFires(list, r, allows)
  {
    HitsAreFirings(list, |list|, r, allows);
    var hits := Hits(list, r, allows);
    if hits != [] {
      assert hits[0] in hits;
      assert HitAt(list, hits[0].idx, r, allows).Some?;
    }
  }

  // -------------------------------------------------------------------- decision

  function EvalRequest(policy: Policy, r: Request): EvalResult {
    if r.pkt.protocol != TCP && r.pkt.protocol != UDP && r.pkt.protocol != IPV6_ICMP then DenyNoMatch
    else if !policy.com.Defined? then DenyNoMatch
    else
      var denies := Hits(policy.com.list, r, false);
      if denies != [] then DenyHits(denies)
      else
        var allows := Hits(policy.com.list, r, true);
        if allows != [] then AllowHits(allows) else DenyNoMatch
  }

  predicate Supported(policy: Policy, r: Request) {
    policy.com.Defined? && r.pkt.protocol in {TCP, UDP, IPV6_ICMP}
  }

  /** A request is allowed exactly when no deny policy fires and some allow policy does. */
  lemma AllowExactly(policy: Policy, r: Request)
    ensures EvalRequest(policy, r).AllowHits? <==>
              Supported(policy, r) && !SomeFires(policy.com.list, r, false) && SomeFires(policy.com.list, r, true)
    ensures EvalRequest(policy, r).DenyHits? <==>
              Supported(policy, r) && SomeFires(policy.com.list, r, false)
    ensures EvalRequest(policy, r).AllowHits? ==>
              EvalRequest(policy, r).hits == Hits(policy.com.list, r, true) != []
  {
    if policy.com.Defined? {
      NoHitsMeansNoneFires(policy.com.list, r, false);
      NoHitsMeansNoneFires(policy.com.list, r, true);
    }
  }

  /** Whatever would fire as an allow would also fire, the same way, as a deny. */
  lemma AllowReadingImpliesDenyReading(cp: ComPolicy, r: Request)
    requires Firing(cp, r, true).Some?
    ensures Firing(cp, r, false) == Firing(cp, r, true)
  {}

  // ------------------------------------------------------------------------ time

  lemma FiringOverTime(cp: ComPolicy, r: Request, later: Request)
    requires later == r.(now := later.now) && r.now <= later.now
    ensures Firing(cp, later, false) == Firing(cp, r, false)
    ensures Firing(cp, later, true).Some? ==> Firing(cp, r, true) == Firing(cp, later, true)
  {}

  lemma {:induction false} DenyHitsTimeless(list: seq<ComPolicy>, n: nat, r: Request, later: Request)
    requires n <= |list| && later == r.(now := later.now) && r.now <= later.now
    ensures HitsUpTo(list, n, later, false) == HitsUpTo(list, n, r, false)
  {
    if n > 0 {
      DenyHitsTimeless(list, n - 1, r, later);
      FiringOverTime(list[n - 1], r, later);
    }
  }

  /** Time never grants: an allow now was an allow before, with at least these hits. */
  lemma TimeNeverGrants(policy: Policy, r: Request, later: Request)
    requires later == r.(now := later.now) && r.now <= later.now
    requires EvalRequest(policy, later).AllowHits?
    ensures EvalRequest(policy, r).AllowHits?
    ensures forall h :: h in EvalRequest(policy, later).hits ==> h in EvalRequest(policy, r).hits
  {
    var list := policy.com.list;
    DenyHitsTimeless(list, |list|, r, later);
    HitsAreFirings(list, |list|, r, true);
    HitsAreFirings(list, |list|, later, true);
    forall h | h in Hits(list, later, true) ensures h in Hits(list, r, true) {
      FiringOverTime(list[h.idx], r, later);
      assert HitAt(list, h.idx, r, true) == Some(h);
    }
    var some := Hits(list, later, true)[0];
    assert some in Hits(list, later, true);
  }

  // ----------------------------------------------------------------- visa ports

  datatype VisaProps = VisaProps(srcAddr: Addr, dstAddr: Addr, protocol: nat, srcPort: nat, dstPort: nat)

  datatype VisaResult = Granted(visa: VisaProps) | EmptyPolicy | NotAnAllow | UnsupportedProtocol

  /** An ephemeral client port is granted as 0, which stands for any client port. */
  function ClientPort(p: nat): nat { if p > 1023 then 0 else p }

  function VisaInfoForHit(policy: Policy, hit: Hit, pkt: Packet): VisaResult
    requires !policy.com.NoReader? ==> policy.com.Defined? && hit.idx < |policy.com.list|
  {
    if policy.com.NoReader? then EmptyPolicy
    else if !policy.com.list[hit.idx].allow then NotAnAllow
    else if pkt.protocol == TCP || pkt.protocol == UDP then
      match hit.direction
      case Forward =>
        Granted(VisaProps(pkt.srcAddr, pkt.dstAddr, pkt.protocol, ClientPort(pkt.srcPort), pkt.dstPort))
      case Reverse =>
        Granted(VisaProps(pkt.srcAddr, pkt.dstAddr, pkt.protocol, pkt.srcPort, ClientPort(pkt.dstPort)))
    else if pkt.protocol == IPV6_ICMP then
      Granted(VisaProps(pkt.srcAddr, pkt.dstAddr, pkt.protocol, pkt.srcPort, pkt.dstPort))
    else UnsupportedProtocol
  }

  /** The packets a visa lets through: the service port exactly, the client port unless it is 0. */
  predicate Covers(v: VisaProps, d: Direction, p: Packet) {
    && v.srcAddr == p.srcAddr && v.dstAddr == p.dstAddr && v.protocol == p.protocol
    && (v.srcPort == p.srcPort || (d == Forward && v.srcPort == 0))
    && (v.dstPort == p.dstPort || (d == Reverse && v.dstPort == 0))
  }

  /** A visa covers its own packet, and other client ports exactly when the port was ephemeral or 0. */
  lemma VisaCoversExactly(policy: Policy, hit: Hit, pkt: Packet, q: Packet)
    requires policy.com.Defined? && hit.idx < |policy.com.list| && policy.com.list[hit.idx].allow
    requires pkt.protocol in {TCP, UDP}
    ensures VisaInfoForHit(policy, hit, pkt).Granted?
    ensures Covers(VisaInfoForHit(policy, hit, pkt).visa, hit.direction, q) <==>
      && SameButClientPort(pkt, q, hit.direction)
      && var client := if hit.direction == Forward then pkt.srcPort else pkt.dstPort;
         (q == pkt || client == 0 || client > 1023)
  {}

  /** The actor provides none of the services the policy names: it can only be a client. */
  predicate ClientOnly(list: seq<ComPolicy>, a: Actor) {
    forall cp :: cp in list ==> !a.Provides(cp.serviceId)
  }

  /** Packets that differ at most in the port on the client's side. */
  predicate SameButClientPort(p: Packet, q: Packet, d: Direction) {
    match d
    case Forward => q == p.(srcPort := q.srcPort)
    case Reverse => q == p.(dstPort := q.dstPort)
  }

  function Client(r: Request, d: Direction): Actor { if d == Forward then r.src else r.dst }

  lemma {:induction false} HitsIgnoreClientPort(
      list: seq<ComPolicy>, n: nat, r: Request, q: Packet, d: Direction, allows: bool)
    requires n <= |list| && r.pkt.protocol in {TCP, UDP}
    requires ClientOnly(list, Client(r, d)) && SameButClientPort(r.pkt, q, d)
    ensures HitsUpTo(list, n, r.(pkt := q), allows) == HitsUpTo(list, n, r, allows)
    ensures forall h :: h in HitsUpTo(list, n, r, allows) ==> h.direction == d
  {
    if n > 0 {
      HitsIgnoreClientPort(list, n - 1, r, q, d, allows);
      var cp := list[n - 1];
      assert cp in list;
      forall s: Scope | d == Forward ensures ScopeMatches(r.pkt, s, Forward) == ScopeMatches(q, s, Forward) {}
      forall s: Scope | d == Reverse ensures ScopeMatches(r.pkt, s, Reverse) == ScopeMatches(q, s, Reverse) {}
    }
  }

  /** The whole decision is blind to the port of an actor that can only be a client. */
  lemma DecisionIgnoresClientPort(policy: Policy, r: Request, q: Packet, d: Direction)
    requires r.pkt.protocol in {TCP, UDP} && policy.com.Defined?
    requires ClientOnly(policy.com.list, Client(r, d)) && SameButClientPort(r.pkt, q, d)
    ensures EvalRequest(policy, r.(pkt := q)) == EvalRequest(policy, r)
  {
    var list := policy.com.list;
    HitsIgnoreClientPort(list, |list|, r, q, d, false);
    HitsIgnoreClientPort(list, |list|, r, q, d, true);
  }

  /** Widening is sound: every packet the granted visa covers is itself allowed by the same hit. */
  lemma WidenedVisaIsSound(policy: Policy, r: Request, h: Hit, d: Direction, q: Packet)
    requires r.pkt.protocol in {TCP, UDP} && EvalRequest(policy, r).AllowHits?
    requires ClientOnly(policy.com.list, Client(r, d))
    requires h in EvalRequest(policy, r).hits
    ensures h.idx < |policy.com.list| && VisaInfoForHit(policy, h, r.pkt).Granted?
    ensures Covers(VisaInfoForHit(policy, h, r.pkt).visa, h.direction, r.pkt)
    ensures Covers(VisaInfoForHit(policy, h, r.pkt).visa, h.direction, q) ==>
              EvalRequest(policy, r.(pkt := q)) == EvalRequest(policy, r)
  {
    var list := policy.com.list;
    HitsAreFirings(list, |list|, r, true);
    HitsIgnoreClientPort(list, |list|, r, r.pkt, d, true);
    if Covers(VisaInfoForHit(policy, h, r.pkt).visa, h.direction, q) {
      DecisionIgnoresClientPort(policy, r, q, d);
    }
  }

  /** The policy reads the packet as a request to a service the destination provides. */
  predicate ReadsForward(cp: ComPolicy, r: Request) { InScope(r.pkt, cp, Forward) && r.dst.Provides(cp.serviceId) }

  /**
   Without that restriction a hit survives a change of client port exactly if no deny policy fires
   and, for a hit on a reply, its policy does not read the packet as a request instead.
   */
  lemma WideningSurvivesExactly(policy: Policy, r: Request, h: Hit, q: Packet)
    requires r.pkt.protocol in {TCP, UDP} && EvalRequest(policy, r).AllowHits?
    requires h in EvalRequest(policy, r).hits && SameButClientPort(r.pkt, q, h.direction)
    ensures h.idx < |policy.com.list|
    ensures (EvalRequest(policy, r.(pkt := q)).AllowHits? && h in EvalRequest(policy, r.(pkt := q)).hits)
      <==> && !SomeFires(policy.com.list, r.(pkt := q), false)
           && (h.direction == Reverse ==> !ReadsForward(policy.com.list[h.idx], r.(pkt := q)))
  {
    var list, r' := policy.com.list, r.(pkt := q);
    HitsAreFirings(list, |list|, r, true);
    HitsAreFirings(list, |list|, r', true);
    forall s: Scope ensures ScopeMatches(r.pkt, s, h.direction) == ScopeMatches(q, s, h.direction) {}
    assert InScope(r.pkt, list[h.idx], h.direction) == InScope(q, list[h.idx], h.direction);
    assert HitAt(list, h.idx, r', true) == Some(h) <==>
      (h.direction == Reverse ==> !ReadsForward(list[h.idx], r'));
    AllowExactly(policy, r');
  }

  function Provider(service: string): Actor {
    Actor(map[Services := Attribute(Services, [service], 0, SOURCE_ZPR)], [], None)
  }

  /** A client that also serves: the visa for its port 5000 covers port 2222, which is denied. */
  lemma WideningCanOverCover()
    ensures exists policy: Policy, r: Request, h: Hit, q: Packet ::
              && EvalRequest(policy, r).AllowHits? && h in EvalRequest(policy, r).hits
              && h.idx < |policy.com.list| && VisaInfoForHit(policy, h, r.pkt).Granted?
              && Covers(VisaInfoForHit(policy, h, r.pkt).visa, h.direction, q)
              && EvalRequest(policy, r.(pkt := q)).DenyHits?
  {
    var web := ComPolicy(true, "w", [Scope(TCP, Port(80), false)], [], [], None);
    var ssh := ComPolicy(false, "ss", [Scope(TCP, Port(2222), false)], [], [], None);
    var list := [web, ssh];
    var policy := Policy([], [], 1, Defined(list));
    var p := Packet(1, 2, TCP, 5000, 80);
    var q := p.(srcPort := 2222);
    var r := Request(Provider("ss"), Provider("w"), p, 0);
    var r' := r.(pkt := q);
    var h := Hit(0, Forward, None, None);
    assert ScopeMatches(p, web.scopes[0], Forward);
    assert ScopeMatches(q, ssh.scopes[0], Reverse);
    assert !InScope(p, ssh, Forward) && !InScope(p, ssh, Reverse) && !InScope(q, ssh, Forward);
    assert r.dst.Provides("w") && r.src.Provides("ss");
    assert HitAt(list, 0, r, true) == Some(h);
    assert HitAt(list, 1, r', false).Some?;
    assert HitAt(list, 0, r, false).None? && HitAt(list, 1, r, false).None?;
    AllowExactly(policy, r);
    AllowExactly(policy, r');
    HitsAreFirings(list, 2, r, true);
    assert Covers(VisaInfoForHit(policy, h, p).visa, Forward, q);
  }

  /**
   A reply to a named client: the visa for its port 5000 covers port 80, where the same policy
   reads a request from the unnamed other side, and nothing matches although nothing is denied.
   */
  lemma WideningCanLoseAReply()
    ensures exists policy: Policy, r: Request, h: Hit, q: Packet ::
              && EvalRequest(policy, r).AllowHits? && h in EvalRequest(policy, r).hits && h.direction == Reverse
              && h.idx < |policy.com.list| && VisaInfoForHit(policy, h, r.pkt).Granted?
              && Covers(VisaInfoForHit(policy, h, r.pkt).visa, h.direction, q)
              && EvalRequest(policy, r.(pkt := q)) == DenyNoMatch
  {
    var named := AttrExp(Cn, Has, []);
    var web := ComPolicy(true, "w", [Scope(TCP, Port(80), false)], [named], [], None);
    var list := [web];
    var policy := Policy([], [], 1, Defined(list));
    var p := Packet(1, 2, TCP, 80, 5000);
    var q := p.(dstPort := 80);
    var server := Provider("w");
    var client := server.(attrs := server.attrs[Cn := Attribute(Cn, ["c"], 0, SOURCE_ZPR)]);
    var r := Request(server, client, p, 0);
    var r' := r.(pkt := q);
    var h := Hit(0, Reverse, None, None);
    assert ScopeMatches(p, web.scopes[0], Reverse) && !InScope(p, web, Forward);
    assert ScopeMatches(q, web.scopes[0], Forward);
    assert r.src.Provides("w") && r.dst.Provides("w");
    assert named in web.clientConds && !ConditionMet(named, server, true, 0) && ConditionMet(named, client, true, 0);
    assert HitAt(list, 0, r, true) == Some(h) && HitAt(list, 0, r', true).None?;
    assert HitAt(list, 0, r, false).None? && HitAt(list, 0, r', false).None?;
    AllowExactly(policy, r);
    AllowExactly(policy, r');
    HitsAreFirings(list, 1, r, true);
    assert Covers(VisaInfoForHit(policy, h, p).visa, Reverse, q);
  }

  // ---------------------------------------------------------------------- mirror

  function Reply(p: Packet): Packet { Packet(p.dstAddr, p.srcAddr, p.protocol, p.dstPort, p.srcPort) }

  function ReplyTo(r: Request): Request { Request(r.dst, r.src, Reply(r.pkt), r.now) }

  function Flip(d: Direction): Direction { if d == Forward then Reverse else Forward }

  function Mirrored(hits: seq<Hit>): seq<Hit> {
    seq(|hits|, i requires 0 <= i < |hits| => hits[i].(direction := Flip(hits[i].direction)))
  }

  /** Some scope that lets the request in also lets its reply out. */
  predicate Answerable(cp: ComPolicy, p: Packet) {
    exists s :: s in cp.scopes && ScopeMatches(p, s, Forward) && !(p.protocol == UDP && s.udpOneWay)
  }

  lemma ReplyFiring(cp: ComPolicy, r: Request, forAllow: bool)
    requires r.pkt.protocol in {TCP, UDP} && !r.src.Provides(cp.serviceId)
    ensures Firing(cp, r, forAllow) in {None, Some(Forward)}
    ensures Firing(cp, ReplyTo(r), forAllow) ==
              if Firing(cp, r, forAllow).Some? && Answerable(cp, r.pkt) then Some(Reverse) else None
  {}

  /** Every policy that fires on the request can be answered. */
  predicate AllAnswerable(list: seq<ComPolicy>, n: nat, r: Request, allows: bool)
    requires n <= |list|
  {
    forall i :: 0 <= i < n && HitAt(list, i, r, allows).Some? ==> Answerable(list[i], r.pkt)
  }

  /** The reply hits exactly the mirror of the request's hits, unless a one-way scope stands in the way. */
  lemma {:induction false} ReplyMirrorsExactly(list: seq<ComPolicy>, n: nat, r: Request, allows: bool)
    requires n <= |list| && r.pkt.protocol in {TCP, UDP} && ClientOnly(list, r.src)
    ensures (HitsUpTo(list, n, ReplyTo(r), allows) == Mirrored(HitsUpTo(list, n, r, allows)))
              <==> AllAnswerable(list, n, r, allows)
    ensures |HitsUpTo(list, n, ReplyTo(r), allows)| <= |HitsUpTo(list, n, r, allows)|
    ensures forall h :: h in HitsUpTo(list, n, r, allows) ==> h.direction == Forward
  {
    if n > 0 {
      ReplyMirrorsExactly(list, n - 1, r, allows);
      assert list[n - 1] in list;
      ReplyFiring(list[n - 1], r, allows);
      var a, b := HitsUpTo(list, n - 1, r, allows), HitsUpTo(list, n - 1, ReplyTo(r), allows);
      var hit := HitAt(list, n - 1, r, allows);
      if hit.Some? {
        var m := hit.value.(direction := Reverse);
        assert Mirrored(a + [hit.value]) == Mirrored(a) + [m];
        if Answerable(list[n - 1], r.pkt) {
          assert HitsUpTo(list, n, ReplyTo(r), allows) == b + [m];
          assert (b + [m] == Mirrored(a) + [m]) <==> b == Mirrored(a) by {
            if b + [m] == Mirrored(a) + [m] { assert (b + [m])[..|b|] == b; }
          }
        }
      }
    }
  }

  predicate NoOneWay(list: seq<ComPolicy>) {
    forall cp, s :: cp in list && s in cp.scopes ==> !s.udpOneWay
  }

  lemma NoOneWayIsAnswerable(list: seq<ComPolicy>, r: Request, allows: bool)
    requires r.pkt.protocol == TCP || (r.pkt.protocol == UDP && NoOneWay(list))
    requires ClientOnly(list, r.src)
    ensures AllAnswerable(list, |list|, r, allows)
  {}

  function MirrorVisa(v: VisaProps): VisaProps {
    VisaProps(v.dstAddr, v.srcAddr, v.protocol, v.dstPort, v.srcPort)
  }

  /** A reply is decided as its request was, hit for hit, and each hit's visa is the mirror image. */
  lemma ReplyDecisionMirrors(policy: Policy, r: Request)
    requires policy.com.Defined? && ClientOnly(policy.com.list, r.src)
    requires r.pkt.protocol == TCP || (r.pkt.protocol == UDP && NoOneWay(policy.com.list))
    ensures EvalRequest(policy, ReplyTo(r)) ==
              match EvalRequest(policy, r)
              case DenyNoMatch => DenyNoMatch
              case DenyHits(hits) => DenyHits(Mirrored(hits))
              case AllowHits(hits) => AllowHits(Mirrored(hits))
    ensures forall h :: EvalRequest(policy, r).AllowHits? && h in EvalRequest(policy, r).hits ==>
              && h.idx < |policy.com.list| && VisaInfoForHit(policy, h, r.pkt).Granted?
              && VisaInfoForHit(policy, h.(direction := Reverse), Reply(r.pkt))
                   == Granted(MirrorVisa(VisaInfoForHit(policy, h, r.pkt).visa))
  {
    var list := policy.com.list;
    forall allows: bool ensures Hits(list, ReplyTo(r), allows) == Mirrored(Hits(list, r, allows)) {
      NoOneWayIsAnswerable(list, r, allows);
      ReplyMirrorsExactly(list, |list|, r, allows);
    }
    HitsAreFirings(list, |list|, r, true);
    ReplyMirrorsExactly(list, |list|, r, true);
  }
}
