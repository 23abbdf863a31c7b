/**
 The shared decision core (vs/src/visa_policy.rs): expiry, docking, routing, then policy.
 */
module VisaPolicy {
  import opened Text
  import opened Attributes
  import opened Actors
  import opened Policies
  import opened Evaluator
  import Docking

  datatype DenyCode = NoMatch | Denied | SourceNotFound | DestNotFound | SourceAuthError | DestAuthError | NoRoute

  datatype Outcome =
    | Allow(hits: seq<Hit>, defaultRoute: Option<Route>, srcDock: Addr, dstDock: Addr)
    | Deny(code: DenyCode)

  /** Where actors dock: adapters by the connection table, anonymous ones by the AAA table. */
  datatype Docks = Docks(connections: map<Addr, Addr>, aaa: map<Addr, (Addr, Time)>)

  /** What a decision reads besides the two actors and the packet. */
  datatype Fabric = Fabric(docks: Docks, bestRoute: (Addr, Addr) -> Option<Route>, policy: Policy)

  /** An AAA entry counts only while it has not expired. */
  function DockOfAaa(docks: Docks, addr: Addr, now: Time): Option<Addr> {
    if addr in docks.aaa && docks.aaa[addr].1 > now then Some(docks.aaa[addr].0) else None
  }

  function ResolveDock(docks: Docks, a: Actor, addr: Addr, now: Time): Option<Addr> {
    var d := Docking.DockForActor(docks.connections, a);
    if d.Some? then d else DockOfAaa(docks, addr, now)
  }

  predicate AuthLapsed(a: Actor, now: Time) {
    AuthExpiration(a).Some? && AuthExpiration(a).value < now
  }

  function Evaluate(f: Fabric, r: Request, srcZpr: Addr, dstZpr: Addr): Outcome {
    if AuthLapsed(r.src, r.now) then Deny(SourceAuthError)
    else if AuthLapsed(r.dst, r.now) then Deny(DestAuthError)
    else
      var a := ResolveDock(f.docks, r.src, srcZpr, r.now);
      if a.None? then Deny(SourceNotFound)
      else
        var b := ResolveDock(f.docks, r.dst, dstZpr, r.now);
        if b.None? then Deny(DestNotFound)
        else
          var route := f.bestRoute(a.value, b.value);
          if route.None? then Deny(NoRoute)
          else match EvalRequest(f.policy, r)
            case DenyNoMatch => Deny(NoMatch)
            case DenyHits(_) => Deny(Denied)
            case AllowHits(hits) => Allow(hits, route, a.value, b.value)
  }

  predicate Reachable(f: Fabric, r: Request, srcZpr: Addr, dstZpr: Addr) {
    var a, b := ResolveDock(f.docks, r.src, srcZpr, r.now), ResolveDock(f.docks, r.dst, dstZpr, r.now);
    a.Some? && b.Some? && f.bestRoute(a.value, b.value).Some?
  }

  /** What each answer says about the request, down to the policies that fired. */
  lemma DecisionExactly(f: Fabric, r: Request, srcZpr: Addr, dstZpr: Addr)
    ensures var o := Evaluate(f, r, srcZpr, dstZpr);
      var current := !AuthLapsed(r.src, r.now) && !AuthLapsed(r.dst, r.now);
      var judged := current && Reachable(f, r, srcZpr, dstZpr);
      var denied := Supported(f.policy, r) && SomeFires(f.policy.com.list, r, false);
      var allowed := Supported(f.policy, r) && SomeFires(f.policy.com.list, r, true);
      && (o.Allow? <==> judged && allowed && !denied)
      && (o == Deny(Denied) <==> judged && denied)
      && (o == Deny(NoMatch) <==> judged && !allowed && !denied)
      && (o in {Deny(SourceAuthError), Deny(DestAuthError)} <==> !current)
      && (o == Deny(SourceAuthError) <==> AuthLapsed(r.src, r.now))
      && (o in {Deny(SourceNotFound), Deny(DestNotFound), Deny(NoRoute)} <==> current && !judged)
      && (o == Deny(SourceNotFound) <==> current && ResolveDock(f.docks, r.src, srcZpr, r.now).None?)
      && (o == Deny(DestNotFound) ==> ResolveDock(f.docks, r.dst, dstZpr, r.now).None?)
  {
    AllowExactly(f.policy, r);
  }

  /** The first hit's own route if it has one, else the default. `None` is the internal error. */
  function RouteForAllow(hits: seq<Hit>, defaultRoute: Option<Route>): Option<Route>
    requires hits != []
  {
    if hits[0].route.Some? then hits[0].route else defaultRoute
  }

  /** An allowed request always has a route, and it is the best one between the resolved docks. */
  lemma AllowAlwaysHasRoute(f: Fabric, r: Request, srcZpr: Addr, dstZpr: Addr)
    requires Evaluate(f, r, srcZpr, dstZpr).Allow?
    ensures var o := Evaluate(f, r, srcZpr, dstZpr);
      && o.hits != [] && RouteForAllow(o.hits, o.defaultRoute).Some?
      && RouteForAllow(o.hits, o.defaultRoute) == f.bestRoute(o.srcDock, o.dstDock)
  {
    var o := Evaluate(f, r, srcZpr, dstZpr);
    AllowExactly(f.policy, r);
    HitsAreFirings(f.policy.com.list, |f.policy.com.list|, r, true);
    assert o.hits[0] in o.hits;
  }

  /** Time never grants: with everything else fixed, an allow later is an allow earlier. */
  lemma TimeNeverGrantsAVisa(f: Fabric, r: Request, later: Request, srcZpr: Addr, dstZpr: Addr)
    requires later == r.(now := later.now) && r.now <= later.now
    requires Evaluate(f, later, srcZpr, dstZpr).Allow?
    ensures var late, early := Evaluate(f, later, srcZpr, dstZpr), Evaluate(f, r, srcZpr, dstZpr);
      && early.Allow?
      && early.(hits := late.hits) == late
      && forall h :: h in late.hits ==> h in early.hits
  {
    TimeNeverGrants(f.policy, r, later);
  }

  // ------------------------------------------------------------------ the AAA table

  /** `get_docking_node_for_aaa` drops an expired entry as it looks it up. */
  class AaaTable {
    var entries: map<Addr, (Addr, Time)>

    constructor ()
      ensures entries == map[]
    {
      entries := map[];
    }

    method Register(addr: Addr, dock: Addr, expiry: Time)
      modifies this
      ensures entries == old(entries)[addr := (dock, expiry)]
      ensures forall t :: DockOfAaa(Docks(map[], entries), addr, t) == if t < expiry then Some(dock) else None
      ensures forall a, t :: a != addr ==>
        DockOfAaa(Docks(map[], entries), a, t) == DockOfAaa(Docks(map[], old(entries)), a, t)
    {
      entries := entries[addr := (dock, expiry)];
    }

    method Lookup(addr: Addr, now: Time) returns (dock: Option<Addr>)
      modifies this
      ensures dock == DockOfAaa(Docks(map[], old(entries)), addr, now)
      ensures forall a, t :: t >= now ==>
        DockOfAaa(Docks(map[], entries), a, t) == DockOfAaa(Docks(map[], old(entries)), a, t)
      ensures dock.None? ==> addr !in entries
    {
      if addr in entries && entries[addr].1 > now {
        return Some(entries[addr].0);
      }
      if addr in entries && entries[addr].1 <= now {
        entries := entries - {addr};
      }
      return None;
    }
  }
}
