/**
 What the pool's own checkouts answer, over whole runs: the books of every node are books of
 these answers, so what was handed in bounds what is answered, over all nodes together.
 */
module PoolAnswers {
  import opened Wrappers
  import opened Addresses
  import opened ChannelPool
  import opened PoolOwnership
  import opened PoolAdmission

  // --------------------------------------------------------------- one checkout

  /**
   A slot's channels are those that expire, the one the checkout answers with, and those it
   leaves, each counted as often as it occurs.
   */
  lemma CheckoutConserves(p: PoolState, n: SocketAddr, now: nat, channel: Channel)
    ensures Held(SlotOf(p.inner, n), channel)
         == Held(Expired(SlotOf(p.inner, n), now), channel) + Once(Taken(p, n, now) == Some(channel))
          + Held(SlotOf(AfterCheckout(p, n, now).inner, n), channel)
  {
    SweepSplits(SlotOf(p.inner, n), now, channel);
  }

  // ------------------------------------------------------------------- whole runs

  /** What the last operation of a run answers. */
  function Answer(events: seq<Event>): Option<Channel>
    requires events != []
  {
    var e := events[|events| - 1];
    if e.Checkout? then Taken(PoolAt(events[..|events| - 1]), e.node, e.now) else None
  }

  /** How often a run's checkouts answer with a channel, whatever the node. */
  function TimesAnswered(channel: Channel, events: seq<Event>): nat {
    if events == [] then 0
    else TimesAnswered(channel, events[..|events| - 1]) + Once(Answer(events) == Some(channel))
  }

  /** The deliveries in a node's books are the answers its checkouts give. */
  lemma DeliveriesAreAnswers(n: SocketAddr, channel: Channel, events: seq<Event>)
    requires events != []
    ensures var before, e := events[..|events| - 1], events[|events| - 1];
            Deliver(Run(n, channel, before).slot, n, e)
            == if IsCheckout(e, n) then Answer(events) else None
  {
    var before, e := events[..|events| - 1], events[|events| - 1];
    SlotOfRun(n, channel, before);
    PoolIsItsAccounts(before);
    assert SlotOf(PoolAt(before).inner, n) == SlotAt(n, before);
  }

  predicate Distinct(nodes: seq<SocketAddr>) { forall i, j :: 0 <= i < j < |nodes| ==> nodes[i] != nodes[j] }

  /** The nodes a run mentions, each once. */
  function NodesOf(events: seq<Event>): (nodes: seq<SocketAddr>)
    ensures Distinct(nodes)
    ensures forall e <- events :: !e.Evict? ==> e.node in nodes
  {
    if events == [] then []
    else
      var before, e := NodesOf(events[..|events| - 1]), events[|events| - 1];
      assert forall f <- events :: f == e || f in events[..|events| - 1];
      if e.Evict? || e.node in before then before else before + [e.node]
  }

  /** The books of several nodes, added up. */
  function AllDelivered(nodes: seq<SocketAddr>, channel: Channel, events: seq<Event>): nat {
    if nodes == [] then 0
    else AllDelivered(nodes[1..], channel, events) + Run(nodes[0], channel, events).delivered
  }

  function AllHandedIn(nodes: seq<SocketAddr>, channel: Channel, events: seq<Event>): nat {
    if nodes == [] then 0
    else AllHandedIn(nodes[1..], channel, events) + Run(nodes[0], channel, events).handedIn
  }

  lemma {:induction false} DeliveredAtMostHandedIn(nodes: seq<SocketAddr>, channel: Channel, events: seq<Event>)
    ensures AllDelivered(nodes, channel, events) <= AllHandedIn(nodes, channel, events)
  {
    if nodes != [] {
      DeliveredAtMostHandedIn(nodes[1..], channel, events);
      Conservation(nodes[0], channel, events);
    }
  }

  lemma DeliveredMoves(n: SocketAddr, channel: Channel, events: seq<Event>)
    requires events != []
    ensures var before, e := events[..|events| - 1], events[|events| - 1];
            Run(n, channel, events).delivered == Run(n, channel, before).delivered
              + Once(IsCheckout(e, n) && Answer(events) == Some(channel))
  {
    DeliveriesAreAnswers(n, channel, events);
  }

  /** One more operation adds its answer to the books of its own node. */
  lemma {:induction false} AllDeliveredMove(nodes: seq<SocketAddr>, channel: Channel, events: seq<Event>)
    requires events != [] && Distinct(nodes)
    ensures var before, e := events[..|events| - 1], events[|events| - 1];
            AllDelivered(nodes, channel, events) == AllDelivered(nodes, channel, before)
              + Once(e.Checkout? && e.node in nodes && Answer(events) == Some(channel))
  {
    if nodes != [] {
      AllDeliveredMove(nodes[1..], channel, events);
      DeliveredMoves(nodes[0], channel, events);
      assert nodes == [nodes[0]] + nodes[1..];
      assert nodes[0] !in nodes[1..];
    }
  }

  lemma {:induction false} AllHandedInMove(nodes: seq<SocketAddr>, channel: Channel, events: seq<Event>)
    requires events != [] && Distinct(nodes)
    ensures var before, e := events[..|events| - 1], events[|events| - 1];
            AllHandedIn(nodes, channel, events) == AllHandedIn(nodes, channel, before)
              + Once(e.Checkin? && e.node in nodes && e.channel == channel)
  {
    if nodes != [] {
      AllHandedInMove(nodes[1..], channel, events);
      assert nodes == [nodes[0]] + nodes[1..];
      assert nodes[0] !in nodes[1..];
    }
  }

  lemma {:induction false} NothingYet(nodes: seq<SocketAddr>, channel: Channel)
    ensures AllDelivered(nodes, channel, []) == AllHandedIn(nodes, channel, []) == 0
  {
    if nodes != [] {
      NothingYet(nodes[1..], channel);
    }
  }

  lemma {:induction false} TotalsAreBooks(nodes: seq<SocketAddr>, channel: Channel, events: seq<Event>)
    requires Distinct(nodes) && forall e <- events :: !e.Evict? ==> e.node in nodes
    ensures TimesAnswered(channel, events) == AllDelivered(nodes, channel, events)
    ensures TimesHandedIn(channel, events) == AllHandedIn(nodes, channel, events)
  {
    NothingYet(nodes, channel);
    if events != [] {
      TotalsAreBooks(nodes, channel, events[..|events| - 1]);
      assert events[|events| - 1] in events;
      AllDeliveredMove(nodes, channel, events);
      AllHandedInMove(nodes, channel, events);
    }
  }

  /**
   Over any run of the pool and over all nodes together, a channel is answered at most as often
   as it was handed in; handed in once, it is answered at most once.
   */
  lemma NeverAnsweredTwice(channel: Channel, events: seq<Event>)
    ensures TimesAnswered(channel, events) <= TimesHandedIn(channel, events)
  {
    var nodes := NodesOf(events);
    TotalsAreBooks(nodes, channel, events);
    DeliveredAtMostHandedIn(nodes, channel, events);
  }

  /** Every answer of a run was handed in for its own node, less than a minute before, and is the oldest such. */
  lemma AnswersAreYoungAndOwn(n: SocketAddr, events: seq<Event>, now: nat, channel: Channel) returns (j: int)
    requires Orderly(events) && Clock(events) <= now && Taken(PoolAt(events), n, now) == Some(channel)
    ensures 0 <= j < |events| && events[j].Checkin? && events[j].node == n && events[j].channel == channel
    ensures events[j].now <= now < events[j].now + 60
    ensures forall e <- SlotOf(PoolAt(events).inner, n) :: Young(e, now) ==> events[j].now <= e.warmedAt
  {
    var more := events + [Checkout(n, now)];
    assert more[..|more| - 1] == events;
    DeliveredMoves(n, channel, more);
    SlotOfRun(n, channel, events);
    PoolIsItsAccounts(events);
    assert SlotOf(PoolAt(events).inner, n) == SlotAt(n, events);
    j := DeliveriesAreYoungAndOwn(n, events, now, channel);
  }
}
