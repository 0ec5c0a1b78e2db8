/** The node table and the order in which nodes are tried. */
module Scheduling {
  import opened Wrappers
  import opened Addresses

  datatype NodeStatus = Online | Degraded | Offline

  datatype NodeInfo = NodeInfo(
    address: SocketAddr, bandwidth: real, latency: real, lossRate: real, load: real, status: NodeStatus)

  /** How a node is scored; always a finite number here. */
  type Score = NodeInfo -> real

  function Rank(s: NodeStatus): nat {
    match s case Online => 0 case Degraded => 1 case Offline => 2
  }

  /** Higher score first, then lower address. */
  predicate Preferred(score: Score, a: NodeInfo, b: NodeInfo) {
    score(a) > score(b) || (score(a) == score(b) && Less(a.address, b.address))
  }

  predicate Before(score: Score, a: NodeInfo, b: NodeInfo) {
    Rank(a.status) < Rank(b.status) || (a.status == b.status && Preferred(score, a, b))
  }

  predicate Ordered(score: Score, list: seq<NodeInfo>) {
    forall i, j :: 0 <= i < j < |list| ==> Before(score, list[i], list[j])
  }

  ghost predicate IsRanking(score: Score, nodes: map<SocketAddr, NodeInfo>, list: seq<NodeInfo>) {
    Ordered(score, list) && forall n :: n in list <==> n in nodes.Values
  }

  /** A measured number: floating point also yields infinities and not-a-number. */
  datatype Measure = Finite(value: real) | NotFinite

  function Sanitize(m: Measure, min: real, max: real, old_: real): real {
    if m.Finite? && min <= m.value <= max then m.value else old_
  }

  const MAX_STAT := 1_000_000.0

  /** Statistics a score can be computed from. */
  predicate InRange(n: NodeInfo) {
    0.0 <= n.bandwidth <= MAX_STAT && 0.0 <= n.latency <= MAX_STAT && 0.0 <= n.lossRate <= 1.0 && 0.0 <= n.load <= 1.0
  }

  /** Each statistic is replaced by itself or by the measurement, and only by one in its range. */
  predicate Refreshed(before: NodeInfo, after: NodeInfo,
                      bandwidth: Measure, latency: Measure, lossRate: Measure, load: Measure) {
    && after.address == before.address && after.status == before.status
    && after.bandwidth == Sanitize(bandwidth, 0.0, MAX_STAT, before.bandwidth)
    && after.latency == Sanitize(latency, 0.0, MAX_STAT, before.latency)
    && after.lossRate == Sanitize(lossRate, 0.0, 1.0, before.lossRate)
    && after.load == Sanitize(load, 0.0, 1.0, before.load)
  }

  /** Every node sits under its own address. */
  predicate Keyed(nodes: map<SocketAddr, NodeInfo>) {
    forall a <- nodes :: nodes[a].address == a
  }

  /** One pass over the table, in whatever order the map happens to yield it. */
  ghost predicate Enumerates(order: seq<SocketAddr>, nodes: map<SocketAddr, NodeInfo>) {
    && (forall i, j :: 0 <= i < j < |order| ==> order[i] != order[j])
    && (forall a :: a in order <==> a in nodes)
  }

  /** Sorted insertion, standing in for the library's stable sort. */
  function Insert(score: Score, n: NodeInfo, list: seq<NodeInfo>): seq<NodeInfo> {
    if list == [] then [n]
    else if Before(score, n, list[0]) then [n] + list
    else [list[0]] + Insert(score, n, list[1..])
  }

  function Sort(score: Score, list: seq<NodeInfo>): seq<NodeInfo> {
    if list == [] then [] else Insert(score, list[0], Sort(score, list[1..]))
  }

  predicate DistinctAddresses(list: seq<NodeInfo>) {
    forall i, j :: 0 <= i < j < |list| ==> list[i].address != list[j].address
  }

  lemma BeforeIsTotal(score: Score, a: NodeInfo, b: NodeInfo)
    requires a.address != b.address
    ensures Before(score, a, b) != Before(score, b, a)
  {
    LessIsTotal(a.address, b.address);
  }

  lemma {:induction false} InsertKeeps(score: Score, n: NodeInfo, list: seq<NodeInfo>)
    requires Ordered(score, list) && forall m <- list :: m.address != n.address
    ensures Ordered(score, Insert(score, n, list))
    ensures forall m :: m in Insert(score, n, list) <==> m == n || m in list
  {
    if list != [] && !Before(score, n, list[0]) {
      var tail := list[1..];
      InsertKeeps(score, n, tail);
      BeforeIsTotal(score, n, list[0]);
      var inserted := Insert(score, n, tail);
      forall j | 0 <= j < |inserted| ensures Before(score, list[0], inserted[j]) {
        assert inserted[j] in inserted;
        if inserted[j] != n {
          var k :| 0 <= k < |tail| && tail[k] == inserted[j];
          assert tail[k] == list[k + 1];
        }
      }
    }
  }

  lemma {:induction false} SortSorts(score: Score, list: seq<NodeInfo>)
    requires DistinctAddresses(list)
    ensures Ordered(score, Sort(score, list))
    ensures forall m :: m in Sort(score, list) <==> m in list
  {
    if list != [] {
      var tail := list[1..];
      SortSorts(score, tail);
      forall m | m in Sort(score, tail) ensures m.address != list[0].address {
        var k :| 0 <= k < |tail| && tail[k] == m;
        assert tail[k] == list[k + 1];
      }
      InsertKeeps(score, list[0], Sort(score, tail));
    }
  }

  lemma OrderedIsIrreflexive(score: Score, list: seq<NodeInfo>, i: nat, j: nat)
    requires Ordered(score, list) && i < |list| && j < |list| && list[i] == list[j]
    ensures i == j
  {
    LessIsTotal(list[i].address, list[i].address);
  }

  lemma {:induction false} OrderedListsAgree(score: Score, xs: seq<NodeInfo>, ys: seq<NodeInfo>)
    requires Ordered(score, xs) && Ordered(score, ys)
    requires forall n :: n in xs <==> n in ys
    ensures xs == ys
  {
    SameMembersBothEmpty(xs, ys);
    if xs != [] {
      HeadsAgree(score, xs, ys);
      TailMembers(score, xs);
      TailMembers(score, ys);
      OrderedListsAgree(score, xs[1..], ys[1..]);
      assert xs == [xs[0]] + xs[1..] && ys == [ys[0]] + ys[1..];
    }
  }

  lemma SameMembersBothEmpty(xs: seq<NodeInfo>, ys: seq<NodeInfo>)
    requires forall n :: n in xs <==> n in ys
    ensures xs == [] <==> ys == []
  {
    if xs != [] {
      assert xs[0] in xs;
    }
    if ys != [] {
      assert ys[0] in ys;
    }
  }

  lemma HeadsAgree(score: Score, xs: seq<NodeInfo>, ys: seq<NodeInfo>)
    requires Ordered(score, xs) && Ordered(score, ys) && xs != [] && ys != []
    requires forall n :: n in xs <==> n in ys
    ensures xs[0] == ys[0]
  {
    assert xs[0] in xs && ys[0] in ys;
    var i :| 0 <= i < |ys| && ys[i] == xs[0];
    var j :| 0 <= j < |xs| && xs[j] == ys[0];
    if i != 0 && j != 0 {
      assert Before(score, xs[0], xs[j]) && Before(score, ys[0], ys[i]);
      LessIsTotal(xs[0].address, ys[0].address);
      assert false;
    }
  }

  lemma TailMembers(score: Score, list: seq<NodeInfo>)
    requires Ordered(score, list) && list != []
    ensures forall n :: n in list[1..] <==> n in list && n != list[0]
  {
    forall n ensures n in list[1..] <==> n in list && n != list[0] {
      if n in list[1..] {
        var k :| 0 <= k < |list[1..]| && list[1..][k] == n;
        assert list[k + 1] == n;
        if n == list[0] {
          OrderedIsIrreflexive(score, list, 0, k + 1);
        }
      }
      if n in list && n != list[0] {
        var k :| 0 <= k < |list| && list[k] == n;
        assert list[1..][k - 1] == n;
      }
    }
  }

  /**
   The ranking is a function of the node table: any two ranked lists of it are the same
   list, whatever order the map was walked in and whatever sort produced them.
   */
  lemma RankingIsUnique(score: Score, nodes: map<SocketAddr, NodeInfo>, xs: seq<NodeInfo>, ys: seq<NodeInfo>)
    requires IsRanking(score, nodes, xs) && IsRanking(score, nodes, ys)
    ensures xs == ys
  {
    OrderedListsAgree(score, xs, ys);
  }

  /** The head of the ranking is an Online node exactly when there is one. */
  lemma HeadIsOnlineIffAny(score: Score, nodes: map<SocketAddr, NodeInfo>, list: seq<NodeInfo>)
    requires IsRanking(score, nodes, list)
    ensures (exists n :: n in nodes.Values && n.status.Online?) <==> list != [] && list[0].status.Online?
  {
    if n :| n in nodes.Values && n.status.Online? {
      assert n in list;
      var k :| 0 <= k < |list| && list[k] == n;
      assert k > 0 ==> Before(score, list[0], list[k]);
    }
    if list != [] {
      assert list[0] in list;
    }
  }

  class Scheduler {
    var nodes: map<SocketAddr, NodeInfo>
    const score: Score

    constructor (score: Score)
      ensures nodes == map[] && this.score == score
    {
      nodes, this.score := map[], score;
    }

    predicate Valid() reads this { Keyed(nodes) }

    method AddNode(n: NodeInfo)
      requires Valid()
      modifies this`nodes
      ensures Valid() && nodes == old(nodes)[n.address := n]
    {
      nodes := nodes[n.address := n];
    }

    /** The status of a known node changes and nothing else does; others are ignored. */
    method UpdateNodeStatus(a: SocketAddr, status: NodeStatus)
      requires Valid()
      modifies this`nodes
      ensures Valid() && nodes.Keys == old(nodes).Keys
      ensures a in nodes ==> nodes[a] == old(nodes)[a].(status := status)
      ensures forall b <- nodes :: b != a ==> nodes[b] == old(nodes)[b]
    {
      if a in nodes {
        nodes := nodes[a := nodes[a].(status := status)];
      }
    }

    /** Whatever was measured, statistics that were in range stay in range. */
    method UpdateNodeStats(a: SocketAddr, bandwidth: Measure, latency: Measure, lossRate: Measure, load: Measure)
      requires Valid()
      modifies this`nodes
      ensures Valid() && nodes.Keys == old(nodes).Keys
      ensures a in nodes ==> Refreshed(old(nodes)[a], nodes[a], bandwidth, latency, lossRate, load)
      ensures forall b <- nodes :: b != a ==> nodes[b] == old(nodes)[b]
      ensures (forall b <- old(nodes) :: InRange(old(nodes)[b])) ==> forall b <- nodes :: InRange(nodes[b])
    {
      if a in nodes {
        var n := nodes[a];
        nodes := nodes[a := n.(
          bandwidth := Sanitize(bandwidth, 0.0, MAX_STAT, n.bandwidth),
          latency := Sanitize(latency, 0.0, MAX_STAT, n.latency),
          lossRate := Sanitize(lossRate, 0.0, 1.0, n.lossRate),
          load := Sanitize(load, 0.0, 1.0, n.load))];
      }
    }

    method MarkNodeOffline(a: SocketAddr)
      requires Valid()
      modifies this`nodes
      ensures Valid() && nodes.Keys == old(nodes).Keys
      ensures a in nodes ==> nodes[a] == old(nodes)[a].(status := Offline)
      ensures forall b <- nodes :: b != a ==> nodes[b] == old(nodes)[b]
    {
      UpdateNodeStatus(a, Offline);
    }

    /** All nodes, best first; `order` is the order in which the map yields them. */
    method GetNodesByPriority(order: seq<SocketAddr>) returns (list: seq<NodeInfo>)
      requires Valid() && Enumerates(order, nodes)
      ensures IsRanking(score, nodes, list)
    {
      forall i | 0 <= i < |order| ensures order[i] in nodes {
        assert order[i] in order;
      }
      var values := seq(|order|, i requires 0 <= i < |order| && order[i] in nodes reads this => nodes[order[i]]);
      SortSorts(score, values);
      list := Sort(score, values);
      forall n ensures n in values <==> n in nodes.Values {
        if n in nodes.Values {
          var a :| a in nodes && nodes[a] == n;
          var i :| 0 <= i < |order| && order[i] == a;
          assert values[i] == n;
        }
      }
    }

    /** The best Online node: the head of the ranking, if that is an Online node. */
    method GetBestNode(order: seq<SocketAddr>) returns (best: Option<NodeInfo>)
      requires Valid() && Enumerates(order, nodes)
      ensures best.Some? <==> exists n :: n in nodes.Values && n.status.Online?
      ensures best.Some? ==> best.value in nodes.Values && best.value.status.Online?
      ensures best.Some? ==>
                forall list :: IsRanking(score, nodes, list) ==> list != [] && list[0] == best.value
    {
      best := None;
      for i := 0 to |order|
        invariant best.None? ==> forall k :: 0 <= k < i ==> order[k] in nodes && !nodes[order[k]].status.Online?
        invariant best.Some? ==> best.value in nodes.Values && best.value.status.Online?
        invariant best.Some? ==> forall k :: 0 <= k < i ==>
                    order[k] in nodes &&
                    (nodes[order[k]].status.Online? && nodes[order[k]] != best.value
                     ==> Preferred(score, best.value, nodes[order[k]]))
      {
        assert order[i] in order;
        var n := nodes[order[i]];
        if n.status.Online? {
          if best.None? {
            best := Some(n);
          } else {
            LessIsTotal(best.value.address, n.address);
            if !Preferred(score, best.value, n) {
              best := Some(n);
            }
          }
        }
      }
      forall n | n in nodes.Values && n.status.Online?
        ensures best.Some? && (n == best.value || Preferred(score, best.value, n))
      {
        var a :| a in nodes && nodes[a] == n;
        var k :| 0 <= k < |order| && order[k] == a;
      }
      if best.Some? {
        forall list: seq<NodeInfo> | IsRanking(score, nodes, list) ensures list != [] && list[0] == best.value {
          HeadIsOnlineIffAny(score, nodes, list);
          assert list[0] in list && best.value in list;
          var j :| 0 <= j < |list| && list[j] == best.value;
          if j != 0 {
            assert Before(score, list[0], list[j]);
            LessIsTotal(list[0].address, list[j].address);
          }
        }
      }
    }
  }

  /**
   What it means to stand earlier: an Online node before all others, an Offline one after all
   others, and among equals the higher score, then the lower address.
   */
  lemma RankingMeans(score: Score, nodes: map<SocketAddr, NodeInfo>, list: seq<NodeInfo>, i: nat, j: nat)
    requires IsRanking(score, nodes, list) && i < j < |list|
    ensures var a, b := list[i], list[j];
            && (b.status.Online? ==> a.status.Online?) && (a.status.Offline? ==> b.status.Offline?)
            && (a.status == b.status ==> score(a) >= score(b))
            && (a.status == b.status && score(a) == score(b) ==> Less(a.address, b.address))
  {
    assert Before(score, list[i], list[j]);
  }

  /** A measured number in its range is taken over, and any other leaves what was there. */
  lemma MeasuresAreTaken(before: NodeInfo, after: NodeInfo,
                         bandwidth: Measure, latency: Measure, lossRate: Measure, load: Measure)
    requires Refreshed(before, after, bandwidth, latency, lossRate, load)
    ensures if bandwidth.Finite? && 0.0 <= bandwidth.value <= 1_000_000.0
            then after.bandwidth == bandwidth.value else after.bandwidth == before.bandwidth
    ensures if latency.Finite? && 0.0 <= latency.value <= 1_000_000.0
            then after.latency == latency.value else after.latency == before.latency
    ensures if lossRate.Finite? && 0.0 <= lossRate.value <= 1.0
            then after.lossRate == lossRate.value else after.lossRate == before.lossRate
    ensures if load.Finite? && 0.0 <= load.value <= 1.0 then after.load == load.value else after.load == before.load
  {
  }
}
