/**
 The network report (`get_network`, vs/src/admin_service.rs): the declared topology, marked
 with what nodes report, plus what they report undeclared.
 */
module Network {
  import opened Text
  import opened Attributes
  import opened Links

  datatype Status = UP | DOWN | INVALID

  datatype NodeConnection = NodeConnection(a: Addr, b: Addr, status: Status, linkId: string, cost: nat)
  {
    predicate IsLinkBetween(x: Addr, y: Addr) { (a == x && b == y) || (a == y && b == x) }
  }

  type Pair = (Addr, Addr)

  /** An unordered pair, smaller address first. */
  function Ordered(a: Addr, b: Addr): Pair { if a < b then (a, b) else (b, a) }

  function PairOf(nc: NodeConnection): Pair { Ordered(nc.a, nc.b) }

  lemma LinkIsPair(nc: NodeConnection, x: Addr, y: Addr)
    ensures nc.IsLinkBetween(x, y) <==> PairOf(nc) == Ordered(x, y)
  {}

  /** What nodes report: the listed nodes, each with its peers. */
  datatype Reports = Reports(nodes: seq<Addr>, peers: Addr -> seq<Addr>)

  predicate Declared(ps: seq<Peering>, q: Pair) { FirstJoining(ps, q.0, q.1).Some? }

  predicate Reported(r: Reports, q: Pair) {
    exists n :: n in r.nodes && ((n == q.0 && q.1 in r.peers(n)) || (n == q.1 && q.0 in r.peers(n)))
  }

  // ------------------------------------------------------------------- the topology

  predicate DistinctPairs(topo: seq<NodeConnection>) {
    forall i, j :: 0 <= i < j < |topo| ==> PairOf(topo[i]) != PairOf(topo[j])
  }

  function Pairs(topo: seq<NodeConnection>): set<Pair> { set nc | nc in topo :: PairOf(nc) }

  /** A declared entry carries the first declared link of its pair. */
  predicate EntryFromPolicy(ps: seq<Peering>, nc: NodeConnection, now: Time) {
    && DescribeLink(Some(ps), nc.a, nc.b, now).Some?
    && nc.linkId == DescribeLink(Some(ps), nc.a, nc.b, now).value.linkId
    && nc.cost == DescribeLink(Some(ps), nc.a, nc.b, now).value.cost
  }

  predicate TopologySound(ps: seq<Peering>, topo: seq<NodeConnection>, now: Time) {
    && DistinctPairs(topo)
    && forall nc :: nc in topo ==> nc.status == DOWN && EntryFromPolicy(ps, nc, now)
  }

  /** The pairs a node's first `n` peers make with it. */
  function PeerPairs(node: Addr, peers: seq<Peer>): set<Pair> {
    set p | p in peers :: Ordered(node, p.remote)
  }

  /** One node's peers: each new pair becomes an entry. */
  method AddNodeLinks(ps: seq<Peering>, node: Addr, start: seq<NodeConnection>, seen: set<Pair>, now: Time)
    returns (topo: seq<NodeConnection>, pairs: set<Pair>)
    requires TopologySound(ps, start, now) && seen == Pairs(start)
    ensures TopologySound(ps, topo, now) && pairs == Pairs(topo)
    ensures pairs == seen + PeerPairs(node, PeersOf(ps, node))
  {
    topo, pairs := start, seen;
    var peers := PeersOf(ps, node);
    for i := 0 to |peers|
      invariant TopologySound(ps, topo, now) && pairs == Pairs(topo)
      invariant pairs == seen + PeerPairs(node, peers[..i])
    {
      var peer := peers[i];
      PeerPairsGrow(node, peers, i);
      var pair := Ordered(node, peer.remote);
      if pair !in pairs {
        NewPairIsFirstLink(ps, node, i, now);
        var link := DescribeLink(Some(ps), node, peer.remote, now);
        var cost := if link.Some? then link.value.cost else 0;
        var nc := NodeConnection(node, peer.remote, DOWN, peer.linkId, cost);
        TopologyGrows(ps, topo, nc, now);
        topo, pairs := topo + [nc], pairs + {pair};
      }
    }
    assert peers[..|peers|] == peers;
  }

  lemma PeerPairsGrow(node: Addr, peers: seq<Peer>, i: nat)
    requires i < |peers|
    ensures PeerPairs(node, peers[..i + 1]) == PeerPairs(node, peers[..i]) + {Ordered(node, peers[i].remote)}
  {}

  /** The first peer that makes a new pair is the link `describe_link` finds for it. */
  lemma NewPairIsFirstLink(ps: seq<Peering>, node: Addr, i: nat, now: Time)
    requires var peers := PeersOf(ps, node);
      i < |peers| && Ordered(node, peers[i].remote) !in PeerPairs(node, peers[..i])
    ensures var peer := PeersOf(ps, node)[i];
      var link := DescribeLink(Some(ps), node, peer.remote, now);
      link.Some? && link.value.linkId == peer.linkId
  {
    var peers := PeersOf(ps, node);
    FirstOfItsPair(peers, i, node);
    IndexFindsFirst(ps, node, peers[i].remote);
    DescriptionAgreesWithPeerings(ps, node, peers[i].remote, now);
  }

  lemma FirstOfItsPair(peers: seq<Peer>, i: nat, node: Addr)
    requires i < |peers| && Ordered(node, peers[i].remote) !in PeerPairs(node, peers[..i])
    ensures FirstTo(peers, peers[i].remote) == Some(peers[i])
  {
    forall j | 0 <= j < i ensures peers[j].remote != peers[i].remote {
      assert peers[j] in peers[..i];
    }
    FirstAt(peers, i, peers[i].remote);
  }

  lemma {:induction false} FirstAt(peers: seq<Peer>, i: nat, b: Addr)
    requires i < |peers| && peers[i].remote == b && forall j :: 0 <= j < i ==> peers[j].remote != b
    ensures FirstTo(peers, b) == Some(peers[i])
  {
    if i > 0 { FirstAt(peers[1..], i - 1, b); }
  }

  lemma TopologyGrows(ps: seq<Peering>, topo: seq<NodeConnection>, nc: NodeConnection, now: Time)
    requires TopologySound(ps, topo, now) && PairOf(nc) !in Pairs(topo)
    requires nc.status == DOWN && EntryFromPolicy(ps, nc, now)
    ensures TopologySound(ps, topo + [nc], now) && Pairs(topo + [nc]) == Pairs(topo) + {PairOf(nc)}
  {
    PairsGrow(topo, nc);
  }

  lemma PairsGrow(topo: seq<NodeConnection>, nc: NodeConnection)
    ensures Pairs(topo + [nc]) == Pairs(topo) + {PairOf(nc)}
    ensures DistinctPairs(topo) && PairOf(nc) !in Pairs(topo) ==> DistinctPairs(topo + [nc])
  {}

  /** Every link the listed nodes have is among the pairs. */
  predicate Visited(ps: seq<Peering>, order: seq<Addr>, pairs: set<Pair>) {
    forall n :: n in order ==> PeerPairs(n, PeersOf(ps, n)) <= pairs
  }

  lemma VisitedGrows(ps: seq<Peering>, order: seq<Addr>, i: nat, before: set<Pair>, pairs: set<Pair>)
    requires i < |order| && Visited(ps, order[..i], before)
    requires pairs == before + PeerPairs(order[i], PeersOf(ps, order[i]))
    ensures Visited(ps, order[..i + 1], pairs)
  {}

  /** The declared half of the report; `order` is the peer table's key order. */
  method DeclaredTopology(ps: seq<Peering>, order: seq<Addr>, now: Time) returns (topo: seq<NodeConnection>)
    requires forall n :: n in order <==> n in PeerTable(ps)
    ensures TopologySound(ps, topo, now) && BaseIsDeclared(ps, topo)
  {
    topo := VisitNodes(ps, order, now);
    TopologyIsDeclared(ps, order, topo, now);
  }

  method VisitNodes(ps: seq<Peering>, order: seq<Addr>, now: Time) returns (topo: seq<NodeConnection>)
    ensures TopologySound(ps, topo, now) && Visited(ps, order, Pairs(topo))
  {
    topo := [];
    var pairs := {};
    for i := 0 to |order|
      invariant TopologySound(ps, topo, now) && pairs == Pairs(topo)
      invariant Visited(ps, order[..i], pairs)
    {
      ghost var before := pairs;
      topo, pairs := AddNodeLinks(ps, order[i], topo, pairs, now);
      VisitedGrows(ps, order, i, before, pairs);
    }
    assert order[..|order|] == order;
  }

  lemma TopologyIsDeclared(ps: seq<Peering>, order: seq<Addr>, topo: seq<NodeConnection>, now: Time)
    requires forall n :: n in order <==> n in PeerTable(ps)
    requires TopologySound(ps, topo, now) && Visited(ps, order, Pairs(topo))
    ensures forall q: Pair :: q == Ordered(q.0, q.1) ==> (q in Pairs(topo) <==> Declared(ps, q))
  {
    forall q: Pair | q == Ordered(q.0, q.1) ensures q in Pairs(topo) <==> Declared(ps, q) {
      if Declared(ps, q) { DeclaredIsVisited(ps, order, q, Pairs(topo)); }
      if q in Pairs(topo) { EntryIsDeclared(ps, topo, q, now); }
    }
  }

  lemma DeclaredIsVisited(ps: seq<Peering>, order: seq<Addr>, q: Pair, pairs: set<Pair>)
    requires forall n :: n in order <==> n in PeerTable(ps)
    requires Visited(ps, order, pairs)
    requires q == Ordered(q.0, q.1) && Declared(ps, q)
    ensures q in pairs
  {
    IndexFindsFirst(ps, q.0, q.1);
    PeersOfStrangers(ps, q.0);
    FirstToIsPeer(PeersOf(ps, q.0), q.1);
    assert q.0 in PeerTable(ps);
    assert q in PeerPairs(q.0, PeersOf(ps, q.0));
  }

  lemma EntryIsDeclared(ps: seq<Peering>, topo: seq<NodeConnection>, q: Pair, now: Time)
    requires TopologySound(ps, topo, now) && q in Pairs(topo)
    ensures Declared(ps, q)
  {
    var nc :| nc in topo && PairOf(nc) == q;
    DescriptionAgreesWithPeerings(ps, nc.a, nc.b, now);
    IndexFindsFirst(ps, nc.a, nc.b);
    FirstJoiningIsSymmetric(ps, nc.a, nc.b);
  }

  lemma {:induction false} FirstToIsPeer(peers: seq<Peer>, b: Addr)
    requires FirstTo(peers, b).Some?
    ensures FirstTo(peers, b).value in peers && FirstTo(peers, b).value.remote == b
  {
    if peers[0].remote != b { FirstToIsPeer(peers[1..], b); }
  }

  // ------------------------------------------------------------------- what is up

  /** The report after some pairs were reported: declared entries first, strangers after. */
  predicate Marked(base: seq<NodeConnection>, topo: seq<NodeConnection>, seen: set<Pair>) {
    && |base| <= |topo| && DistinctPairs(topo)
    && (forall i :: 0 <= i < |base| ==>
          topo[i] == base[i].(status := if PairOf(base[i]) in seen then UP else DOWN))
    && (forall i :: |base| <= i < |topo| ==> topo[i].status == INVALID && PairOf(topo[i]) in seen)
    && seen <= Pairs(topo)
  }

  /** The inner loop: set matching declared entries up, and say whether anything matched. */
  method MarkUp(topo: seq<NodeConnection>, declared: nat, x: Addr, y: Addr)
    returns (r: seq<NodeConnection>, matched: bool)
    requires declared <= |topo|
    ensures |r| == |topo|
    ensures forall i :: 0 <= i < |topo| ==>
      r[i] == if i < declared && PairOf(topo[i]) == Ordered(x, y) then topo[i].(status := UP) else topo[i]
    ensures matched <==> Ordered(x, y) in Pairs(topo)
  {
    r, matched := topo, false;
    for i := 0 to |topo|
      invariant |r| == |topo|
      invariant forall j :: 0 <= j < i ==>
        r[j] == if j < declared && PairOf(topo[j]) == Ordered(x, y) then topo[j].(status := UP) else topo[j]
      invariant forall j :: i <= j < |topo| ==> r[j] == topo[j]
      invariant matched <==> exists j :: 0 <= j < i && PairOf(topo[j]) == Ordered(x, y)
    {
      LinkIsPair(topo[i], x, y);
      if topo[i].IsLinkBetween(x, y) {
        if i < declared { r := r[i := r[i].(status := UP)]; }
        matched := true;
      }
    }
    if matched {
      var j :| 0 <= j < |topo| && PairOf(topo[j]) == Ordered(x, y);
      assert topo[j] in topo;
    }
    if Ordered(x, y) in Pairs(topo) {
      var nc :| nc in topo && PairOf(nc) == Ordered(x, y);
      var j :| 0 <= j < |topo| && topo[j] == nc;
    }
  }

  /** One reported link: mark it, or list it as invalid. */
  method Report(base: seq<NodeConnection>, topo: seq<NodeConnection>, ghost seen: set<Pair>, x: Addr, y: Addr)
    returns (r: seq<NodeConnection>)
    requires Marked(base, topo, seen)
    ensures Marked(base, r, seen + {Ordered(x, y)})
  {
    var matched;
    r, matched := MarkUp(topo, |base|, x, y);
    assert forall i :: 0 <= i < |topo| ==> PairOf(r[i]) == PairOf(topo[i]);
    SamePairs(topo, r);
    if !matched {
      var nc := NodeConnection(x, y, INVALID, "", 0);
      PairsGrow(r, nc);
      r := r + [nc];
    }
    if matched { MatchedIsKnown(base, topo, seen, Ordered(x, y)); }
  }

  lemma SamePairs(s: seq<NodeConnection>, t: seq<NodeConnection>)
    requires |s| == |t| && forall i :: 0 <= i < |s| ==> PairOf(s[i]) == PairOf(t[i])
    ensures Pairs(s) == Pairs(t)
  {}

  lemma MatchedIsKnown(base: seq<NodeConnection>, topo: seq<NodeConnection>, seen: set<Pair>, q: Pair)
    requires Marked(base, topo, seen) && q in Pairs(topo)
    ensures exists i :: 0 <= i < |topo| && PairOf(topo[i]) == q && (i < |base| || q in seen)
  {}

  // ------------------------------------------------------------------- the report

  /** Pairs reported by the first `n` nodes. */
  function SeenBy(r: Reports, n: nat): set<Pair>
    requires n <= |r.nodes|
  {
    set i, y | 0 <= i < n && y in r.peers(r.nodes[i]) :: Ordered(r.nodes[i], y)
  }

  method ReportNode(
      base: seq<NodeConnection>, topo: seq<NodeConnection>, ghost seen: set<Pair>, x: Addr, peers: seq<Addr>)
    returns (r: seq<NodeConnection>)
    requires Marked(base, topo, seen)
    ensures Marked(base, r, seen + set y | y in peers :: Ordered(x, y))
  {
    r := topo;
    assert seen + (set y | y in peers[..0] :: Ordered(x, y)) == seen;
    for i := 0 to |peers|
      invariant Marked(base, r, seen + set y | y in peers[..i] :: Ordered(x, y))
    {
      ghost var before := seen + set y | y in peers[..i] :: Ordered(x, y);
      r := Report(base, r, before, x, peers[i]);
      assert peers[..i + 1] == peers[..i] + [peers[i]];
      assert before + {Ordered(x, peers[i])} == seen + set y | y in peers[..i + 1] :: Ordered(x, y);
    }
    assert peers[..|peers|] == peers;
  }

  /** What the report means: every pair declared or reported, once, with the right status. */
  ghost predicate Classified(ps: seq<Peering>, r: Reports, topo: seq<NodeConnection>) {
    && DistinctPairs(topo)
    && (forall q: Pair :: q == Ordered(q.0, q.1) ==> (q in Pairs(topo) <==> Declared(ps, q) || Reported(r, q)))
    && (forall nc :: nc in topo ==>
          nc.status == if !Declared(ps, PairOf(nc)) then INVALID else if Reported(r, PairOf(nc)) then UP else DOWN)
  }

  lemma SeenIsReported(r: Reports, q: Pair)
    requires q == Ordered(q.0, q.1)
    ensures q in SeenBy(r, |r.nodes|) <==> Reported(r, q)
  {}

  /** The base entries are the declared pairs. */
  ghost predicate BaseIsDeclared(ps: seq<Peering>, base: seq<NodeConnection>) {
    forall q: Pair :: q == Ordered(q.0, q.1) ==> (q in Pairs(base) <==> Declared(ps, q))
  }

  lemma EntryStatus(ps: seq<Peering>, r: Reports, base: seq<NodeConnection>, topo: seq<NodeConnection>, i: nat)
    requires Marked(base, topo, SeenBy(r, |r.nodes|)) && BaseIsDeclared(ps, base) && i < |topo|
    ensures var q := PairOf(topo[i]);
      && (Declared(ps, q) || Reported(r, q))
      && topo[i].status == if !Declared(ps, q) then INVALID else if Reported(r, q) then UP else DOWN
  {
    var q := PairOf(topo[i]);
    SeenIsReported(r, q);
    if i < |base| {
      assert base[i] in base && PairOf(base[i]) == q;
    } else {
      forall j | 0 <= j < |base| ensures PairOf(base[j]) != q { assert PairOf(topo[j]) == PairOf(base[j]); }
      assert q !in Pairs(base);
    }
  }

  lemma PairIsListed(ps: seq<Peering>, r: Reports, base: seq<NodeConnection>, topo: seq<NodeConnection>, q: Pair)
    requires Marked(base, topo, SeenBy(r, |r.nodes|)) && BaseIsDeclared(ps, base)
    requires q == Ordered(q.0, q.1) && (Declared(ps, q) || Reported(r, q))
    ensures q in Pairs(topo)
  {
    SeenIsReported(r, q);
    if Declared(ps, q) {
      var nc :| nc in base && PairOf(nc) == q;
      var i :| 0 <= i < |base| && base[i] == nc;
      assert topo[i] in topo && PairOf(topo[i]) == q;
    }
  }

  lemma MarkedIsClassified(ps: seq<Peering>, r: Reports, base: seq<NodeConnection>, topo: seq<NodeConnection>)
    requires Marked(base, topo, SeenBy(r, |r.nodes|)) && BaseIsDeclared(ps, base)
    ensures Classified(ps, r, topo)
  {
    forall i | 0 <= i < |topo|
      ensures var q := PairOf(topo[i]);
        && (Declared(ps, q) || Reported(r, q))
        && topo[i].status == if !Declared(ps, q) then INVALID else if Reported(r, q) then UP else DOWN
    {
      EntryStatus(ps, r, base, topo, i);
    }
    forall q: Pair | q == Ordered(q.0, q.1) && (Declared(ps, q) || Reported(r, q)) ensures q in Pairs(topo) {
      PairIsListed(ps, r, base, topo, q);
    }
  }

  /** `get_network` classifies every pair, whatever order tables and reports come in. */
  method GetNetwork(ps: seq<Peering>, order: seq<Addr>, r: Reports, now: Time) returns (topo: seq<NodeConnection>)
    requires forall n :: n in order <==> n in PeerTable(ps)
    ensures Classified(ps, r, topo)
    ensures forall nc :: nc in topo && nc.status != INVALID ==> EntryFromPolicy(ps, nc, now)
  {
    var base := DeclaredTopology(ps, order, now);
    topo := base;
    assert SeenBy(r, 0) == {};
    for i := 0 to |r.nodes|
      invariant Marked(base, topo, SeenBy(r, i))
    {
      var peers := r.peers(r.nodes[i]);
      topo := ReportNode(base, topo, SeenBy(r, i), r.nodes[i], peers);
      assert SeenBy(r, i) + (set y | y in peers :: Ordered(r.nodes[i], y)) == SeenBy(r, i + 1);
    }
    MarkedIsClassified(ps, r, base, topo);
    forall nc | nc in topo && nc.status != INVALID ensures EntryFromPolicy(ps, nc, now) {
      var i :| 0 <= i < |topo| && topo[i] == nc;
      assert base[i] in base;
    }
  }
}
