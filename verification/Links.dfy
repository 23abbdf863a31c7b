/**
 The link index (libeval/src/policy.rs): the peer table and the links described from it.
 */
module Links {
  import opened Text
  import opened Attributes
  import opened JoinPolicies

  const DEFAULT_LINK_COST: nat := 1

  datatype Peering = Peering(
    linkId: string, nodeA: Addr, nodeB: Addr, substrateA: string, substrateB: string, attributes: seq<AttrExp>)
  {
    predicate Joins(a: Addr, b: Addr) { (nodeA == a && nodeB == b) || (nodeA == b && nodeB == a) }
  }

  /** A link seen from one end. */
  datatype Peer = Peer(linkId: string, remote: Addr, remoteSubstrate: string, localSubstrate: string)

  datatype LinkDescription = LinkDescription(linkId: string, attrs: seq<Attribute>, cost: nat)

  // ----------------------------------------------------------------- the peer table

  function FromA(p: Peering): Peer { Peer(p.linkId, p.nodeB, p.substrateB, p.substrateA) }

  function FromB(p: Peering): Peer { Peer(p.linkId, p.nodeA, p.substrateA, p.substrateB) }

  /** How a node sees one peering: a self-link is seen twice. */
  function Views(p: Peering, node: Addr): seq<Peer> {
    (if p.nodeA == node then [FromA(p)] else []) + (if p.nodeB == node then [FromB(p)] else [])
  }

  /** A node's peers, in peering order. */
  function PeersOf(ps: seq<Peering>, node: Addr): seq<Peer> {
    if ps == [] then [] else PeersOf(ps[..|ps| - 1], node) + Views(ps[|ps| - 1], node)
  }

  function Nodes(ps: seq<Peering>): set<Addr> {
    if ps == [] then {} else Nodes(ps[..|ps| - 1]) + {ps[|ps| - 1].nodeA, ps[|ps| - 1].nodeB}
  }

  function PeerTable(ps: seq<Peering>): map<Addr, seq<Peer>> {
    map n | n in Nodes(ps) :: PeersOf(ps, n)
  }

  function Push(table: map<Addr, seq<Peer>>, node: Addr, peer: Peer): map<Addr, seq<Peer>> {
    table[node := (if node in table then table[node] else []) + [peer]]
  }

  lemma PeersOfStrangers(ps: seq<Peering>, node: Addr)
    ensures PeersOf(ps, node) != [] <==> node in Nodes(ps)
    decreases |ps|
  {}

  lemma TableGrows(ps: seq<Peering>, p: Peering)
    ensures Push(Push(PeerTable(ps), p.nodeA, FromA(p)), p.nodeB, FromB(p)) == PeerTable(ps + [p])
  {
    var all := ps + [p];
    var table := Push(Push(PeerTable(ps), p.nodeA, FromA(p)), p.nodeB, FromB(p));
    assert all[..|ps|] == ps;
    assert Nodes(all) == Nodes(ps) + {p.nodeA, p.nodeB};
    assert table.Keys == Nodes(all);
    forall n | n in table ensures table[n] == PeersOf(all, n) {
      PeersOfStrangers(ps, n);
      assert PeersOf(all, n) == PeersOf(ps, n) + Views(p, n);
    }
  }

  method LoadPeerTable(ps: seq<Peering>) returns (table: map<Addr, seq<Peer>>)
    ensures table == PeerTable(ps)
  {
    table := map[];
    for i := 0 to |ps|
      invariant table == PeerTable(ps[..i])
    {
      TableGrows(ps[..i], ps[i]);
      assert ps[..i + 1] == ps[..i] + [ps[i]];
      table := Push(table, ps[i].nodeA, FromA(ps[i]));
      table := Push(table, ps[i].nodeB, FromB(ps[i]));
    }
    assert ps[..|ps|] == ps;
  }

  // ---------------------------------------------------------- finding the first link

  /** The first peering that joins two nodes, whichever way round. */
  function FirstJoining(ps: seq<Peering>, a: Addr, b: Addr): Option<Peering> {
    if ps == [] then None
    else
      var init := FirstJoining(ps[..|ps| - 1], a, b);
      if init.Some? then init else if ps[|ps| - 1].Joins(a, b) then Some(ps[|ps| - 1]) else None
  }

  /** The peering found joins the nodes and no earlier one does. */
  lemma {:induction false} FirstJoiningIsFirst(ps: seq<Peering>, a: Addr, b: Addr) returns (i: nat)
    requires FirstJoining(ps, a, b).Some?
    ensures i < |ps| && ps[i] == FirstJoining(ps, a, b).value && ps[i].Joins(a, b)
    ensures forall j :: 0 <= j < i ==> !ps[j].Joins(a, b)
    decreases |ps|
  {
    var init := ps[..|ps| - 1];
    if FirstJoining(init, a, b).Some? {
      i := FirstJoiningIsFirst(init, a, b);
      assert forall j :: 0 <= j <= i ==> init[j] == ps[j];
    } else {
      i := |ps| - 1;
      forall j | 0 <= j < i ensures !ps[j].Joins(a, b) { NoneJoins(init, a, b, j); }
    }
  }

  lemma {:induction false} NoneJoins(ps: seq<Peering>, a: Addr, b: Addr, j: nat)
    requires j < |ps| && FirstJoining(ps, a, b).None?
    ensures !ps[j].Joins(a, b)
    decreases |ps|
  {
    if j < |ps| - 1 { NoneJoins(ps[..|ps| - 1], a, b, j); }
  }

  function FirstTo(peers: seq<Peer>, b: Addr): Option<Peer> {
    if peers == [] then None else if peers[0].remote == b then Some(peers[0]) else FirstTo(peers[1..], b)
  }

  lemma {:induction false} FirstToConcat(x: seq<Peer>, y: seq<Peer>, b: Addr)
    ensures FirstTo(x + y, b) == if FirstTo(x, b).Some? then FirstTo(x, b) else FirstTo(y, b)
  {
    if x == [] {
      assert x + y == y;
    } else {
      assert (x + y)[1..] == x[1..] + y;
      FirstToConcat(x[1..], y, b);
    }
  }

  function ViewFrom(p: Peering, a: Addr): Peer { if p.nodeA == a then FromA(p) else FromB(p) }

  lemma ViewsFind(p: Peering, a: Addr, b: Addr)
    ensures FirstTo(Views(p, a), b) == if p.Joins(a, b) then Some(ViewFrom(p, a)) else None
  {
    var x, y := if p.nodeA == a then [FromA(p)] else [], if p.nodeB == a then [FromB(p)] else [];
    FirstToConcat(x, y, b);
  }

  /** Looking a link up in the index finds the first peering of the list. */
  lemma {:induction false} IndexFindsFirst(ps: seq<Peering>, a: Addr, b: Addr)
    ensures FirstTo(PeersOf(ps, a), b) ==
              match FirstJoining(ps, a, b) case None => None case Some(p) => Some(ViewFrom(p, a))
    ensures FirstJoining(ps, a, b).Some? <==> exists p :: p in ps && p.Joins(a, b)
    decreases |ps|
  {
    if ps != [] {
      var init, last := ps[..|ps| - 1], ps[|ps| - 1];
      IndexFindsFirst(init, a, b);
      FirstToConcat(PeersOf(init, a), Views(last, a), b);
      ViewsFind(last, a, b);
      assert ps == init + [last];
    }
  }

  lemma {:induction false} FirstJoiningIsSymmetric(ps: seq<Peering>, a: Addr, b: Addr)
    ensures FirstJoining(ps, a, b) == FirstJoining(ps, b, a)
    decreases |ps|
  {
    if ps != [] { FirstJoiningIsSymmetric(ps[..|ps| - 1], a, b); }
  }

  // --------------------------------------------------------------------- describing

  /** Attributes by link id; of two peerings with one id, the later wins. */
  function LinkAttrs(ps: seq<Peering>): map<string, seq<AttrExp>> {
    if ps == [] then map[] else LinkAttrs(ps[..|ps| - 1])[ps[|ps| - 1].linkId := ps[|ps| - 1].attributes]
  }

  function AttributesForLink(ps: seq<Peering>, linkId: string, now: Time): seq<Attribute> {
    if linkId !in LinkAttrs(ps) then []
    else
      var exps := LinkAttrs(ps)[linkId];
      seq(|exps|, i requires 0 <= i < |exps| => Internal(exps[i].key, exps[i].value, now))
  }

  /** `get_link_cost`: the first cost attribute if it is one positive `i32`, else the default. */
  function LinkCostOf(attrs: seq<Attribute>): nat {
    if attrs == [] then DEFAULT_LINK_COST
    else if attrs[0].key != LinkCost then LinkCostOf(attrs[1..])
    else match attrs[0].SingleValue()
      case None => DEFAULT_LINK_COST
      case Some(text) =>
        match ParseI32(text)
        case None => DEFAULT_LINK_COST
        case Some(n) => if n > 0 then n else DEFAULT_LINK_COST
  }

  lemma {:induction false} CostIsAtLeastOne(attrs: seq<Attribute>)
    ensures 1 <= LinkCostOf(attrs) < I32_LIMIT
  {
    if attrs != [] { CostIsAtLeastOne(attrs[1..]); }
  }

  function Describe(ps: seq<Peering>, linkId: string, now: Time): LinkDescription {
    var attrs := AttributesForLink(ps, linkId, now);
    LinkDescription(linkId, attrs, LinkCostOf(attrs))
  }

  /** `describe_link`: a lookup in the peer table, then a scan of the node's peers. */
  function DescribeLink(topology: Option<seq<Peering>>, a: Addr, b: Addr, now: Time): Option<LinkDescription> {
    if topology.None? then None
    else
      var table := PeerTable(topology.value);
      match FirstTo(if a in table then table[a] else [], b)
      case None => None
      case Some(peer) => Some(Describe(topology.value, peer.linkId, now))
  }

  /** The index agrees with the peering list: first joining link, both ways round, cost at least 1. */
  lemma DescriptionAgreesWithPeerings(ps: seq<Peering>, a: Addr, b: Addr, now: Time)
    ensures DescribeLink(Some(ps), a, b, now).Some? <==> exists p :: p in ps && p.Joins(a, b)
    ensures FirstJoining(ps, a, b).Some? ==>
      DescribeLink(Some(ps), a, b, now) == Some(Describe(ps, FirstJoining(ps, a, b).value.linkId, now))
    ensures DescribeLink(Some(ps), a, b, now) == DescribeLink(Some(ps), b, a, now)
    ensures DescribeLink(Some(ps), a, b, now).Some? ==> DescribeLink(Some(ps), a, b, now).value.cost >= 1
  {
    IndexFindsFirst(ps, a, b);
    IndexFindsFirst(ps, b, a);
    FirstJoiningIsSymmetric(ps, a, b);
    PeersOfStrangers(ps, a);
    PeersOfStrangers(ps, b);
    if FirstJoining(ps, a, b).Some? {
      CostIsAtLeastOne(AttributesForLink(ps, FirstJoining(ps, a, b).value.linkId, now));
    }
  }
}
