/**
 Who owns a warm channel, over whole runs of the pool: every channel handed in is
 delivered once, expired, refused or still idle, and is delivered only to its own node,
 young enough.
 */
module PoolOwnership {
  import opened Wrappers
  import opened Addresses
  import opened ChannelPool

  /** How often a slot holds a channel. */
  function Held(slot: seq<Idle>, channel: Channel): nat {
    if slot == [] then 0 else (if slot[0].channel == channel then 1 else 0) + Held(slot[1..], channel)
  }

  /** The books kept for one channel at one node. */
  datatype Ledger = Ledger(slot: seq<Idle>, handedIn: nat, delivered: nat, expired: nat, refused: nat)

  function Once(b: bool): nat { if b then 1 else 0 }

  /** What an operation hands over, drops as too old, accepts to consider, or turns away. */
  function Deliver(slot: seq<Idle>, n: SocketAddr, e: Event): Option<Channel> {
    if e.Checkout? && e.node == n && Live(slot, e.now) != [] then Some(Live(slot, e.now)[0].channel) else None
  }

  function Expire(slot: seq<Idle>, n: SocketAddr, e: Event): seq<Idle> {
    if e.Evict? || (e.Checkout? && e.node == n) then Expired(slot, e.now) else []
  }

  predicate Offers(n: SocketAddr, channel: Channel, e: Event) {
    e.Checkin? && e.node == n && e.channel == channel
  }

  predicate Refuses(slot: seq<Idle>, e: Event) {
    e.Checkin? && |slot| >= e.cap
  }

  function Account(l: Ledger, n: SocketAddr, channel: Channel, e: Event): Ledger {
    Ledger(
      SlotAfter(l.slot, n, e),
      l.handedIn + Once(Offers(n, channel, e)),
      l.delivered + Once(Deliver(l.slot, n, e) == Some(channel)),
      l.expired + Held(Expire(l.slot, n, e), channel),
      l.refused + Once(Offers(n, channel, e) && Refuses(l.slot, e)))
  }

  function Run(n: SocketAddr, channel: Channel, events: seq<Event>): Ledger {
    if events == [] then Ledger([], 0, 0, 0, 0)
    else Account(Run(n, channel, events[..|events| - 1]), n, channel, events[|events| - 1])
  }

  function SlotAt(n: SocketAddr, events: seq<Event>): seq<Idle> {
    if events == [] then [] else SlotAfter(SlotAt(n, events[..|events| - 1]), n, events[|events| - 1])
  }

  lemma {:induction false} SlotOfRun(n: SocketAddr, channel: Channel, events: seq<Event>)
    ensures Run(n, channel, events).slot == SlotAt(n, events)
  {
    if events != [] {
      SlotOfRun(n, channel, events[..|events| - 1]);
    }
  }

  /** The clock never goes back, and capacities were read from the pool. */
  predicate Orderly(events: seq<Event>) {
    && (forall i, j :: 0 <= i < j < |events| ==> events[i].now <= events[j].now)
    && forall e <- events :: e.Checkin? ==> IDLE_CAP_BASE <= e.cap <= IDLE_CAP_MAX
  }

  function Clock(events: seq<Event>): nat {
    if events == [] then 0 else events[|events| - 1].now
  }

  // ------------------------------------------------------------ conservation

  lemma {:induction false} HeldSplit(a: seq<Idle>, b: seq<Idle>, channel: Channel)
    ensures Held(a + b, channel) == Held(a, channel) + Held(b, channel)
  {
    if a == [] {
      assert a + b == b;
    } else {
      assert (a + b)[1..] == a[1..] + b;
      HeldSplit(a[1..], b, channel);
    }
  }

  lemma {:induction false} SweepSplits(slot: seq<Idle>, now: nat, channel: Channel)
    ensures Held(slot, channel) == Held(Expired(slot, now), channel) + Held(Live(slot, now), channel)
  {
    if slot != [] {
      SweepSplits(slot[1..], now, channel);
      HeldSplit([slot[0]], Live(slot[1..], now), channel);
      HeldSplit([slot[0]], Expired(slot[1..], now), channel);
      HeldSplit([], Live(slot[1..], now), channel);
      HeldSplit([], Expired(slot[1..], now), channel);
    }
  }

  lemma StepConserves(slot: seq<Idle>, n: SocketAddr, channel: Channel, e: Event)
    ensures Once(Offers(n, channel, e)) + Held(slot, channel)
         == Once(Deliver(slot, n, e) == Some(channel)) + Held(Expire(slot, n, e), channel)
          + Once(Offers(n, channel, e) && Refuses(slot, e)) + Held(SlotAfter(slot, n, e), channel)
  {
    if e.Checkin? {
      HeldSplit(slot, [Idle(e.channel, e.now)], channel);
    } else {
      SweepSplits(slot, e.now, channel);
    }
  }

  /** Nothing is lost and nothing is made up: for any run, any node and any channel. */
  lemma {:induction false} Conservation(n: SocketAddr, channel: Channel, events: seq<Event>)
    ensures var l := Run(n, channel, events);
            l.handedIn == l.delivered + l.expired + l.refused + Held(l.slot, channel)
  {
    if events != [] {
      Conservation(n, channel, events[..|events| - 1]);
      StepConserves(Run(n, channel, events[..|events| - 1]).slot, n, channel, events[|events| - 1]);
    }
  }

  /** How often a channel was handed in, whatever the node. */
  function TimesHandedIn(channel: Channel, events: seq<Event>): nat {
    if events == [] then 0
    else
      var e := events[|events| - 1];
      TimesHandedIn(channel, events[..|events| - 1]) + if e.Checkin? && e.channel == channel then 1 else 0
  }

  lemma {:induction false} HandedInIsCounted(n: SocketAddr, m: SocketAddr, channel: Channel, events: seq<Event>)
    requires n != m
    ensures Run(n, channel, events).handedIn + Run(m, channel, events).handedIn <= TimesHandedIn(channel, events)
  {
    if events != [] {
      HandedInIsCounted(n, m, channel, events[..|events| - 1]);
    }
  }

  /** A channel handed in once is delivered at most once, counting every two nodes together. */
  lemma {:induction false} NeverDeliveredTwice(n: SocketAddr, m: SocketAddr, channel: Channel, events: seq<Event>)
    requires n != m && TimesHandedIn(channel, events) <= 1
    ensures Run(n, channel, events).delivered + Run(m, channel, events).delivered <= 1
    ensures var l := Run(n, channel, events);
            l.delivered == 1 ==> l.expired == l.refused == Held(l.slot, channel) == 0
  {
    HandedInIsCounted(n, m, channel, events);
    Conservation(n, channel, events);
    Conservation(m, channel, events);
  }

  // ------------------------------------------------------- age and provenance

  lemma StepKeepsGood(slot: seq<Idle>, clock: nat, n: SocketAddr, e: Event)
    requires Good(slot, clock) && clock <= e.now
    requires e.Checkin? ==> e.cap <= IDLE_CAP_MAX
    ensures Good(SlotAfter(slot, n, e), e.now)
  {
    if !e.Checkin? {
      LiveIsGood(slot, clock, e.now);
      var live := Live(slot, e.now);
      SuffixIsGood(live, e.now, e.now, if live == [] then 0 else 1);
      SuffixIsGood(slot, clock, e.now, 0);
    }
  }

  /** Slots stay bounded and in warming order in every run. */
  lemma {:induction false} SlotsStayGood(n: SocketAddr, events: seq<Event>)
    requires Orderly(events)
    ensures Good(SlotAt(n, events), Clock(events))
  {
    if events != [] {
      var before := events[..|events| - 1];
      SlotsStayGood(n, before);
      assert events[|events| - 1] in events;
      StepKeepsGood(SlotAt(n, before), Clock(before), n, events[|events| - 1]);
    }
  }

  /** Event `j` handed in, for node `n`, the channel of this entry at the time it carries. */
  predicate Source(n: SocketAddr, events: seq<Event>, e: Idle, j: int) {
    0 <= j < |events| && events[j].Checkin? && events[j].node == n
    && events[j].channel == e.channel && events[j].now == e.warmedAt
  }

  lemma {:induction false} LiveIsPart(slot: seq<Idle>, now: nat)
    ensures forall e <- Live(slot, now) :: e in slot && IsLive(e, now)
  {
    if slot != [] {
      LiveIsPart(slot[1..], now);
    }
  }

  lemma {:induction false} IdleWasHandedIn(n: SocketAddr, events: seq<Event>, e: Idle) returns (j: int)
    requires e in SlotAt(n, events)
    ensures Source(n, events, e, j)
  {
    if events == [] {
      assert false;
    } else {
      var before, last := events[..|events| - 1], events[|events| - 1];
      var slot := SlotAt(n, before);
      if e in slot {
        j := IdleWasHandedIn(n, before, e);
      } else {
        LiveIsPart(slot, last.now);
        j := |events| - 1;
      }
    }
  }

  /**
   Whenever a checkout of a run delivers a channel, that channel was handed in earlier, for
   the same node, less than 60 seconds before, and no live channel of that node is older.
   */
  lemma {:induction false} DeliveriesAreYoungAndOwn(n: SocketAddr, events: seq<Event>, now: nat, channel: Channel)
    returns (j: int)
    requires Orderly(events) && Clock(events) <= now
    requires Run(n, channel, events + [Checkout(n, now)]).delivered > Run(n, channel, events).delivered
    ensures 0 <= j < |events| && events[j].Checkin? && events[j].node == n && events[j].channel == channel
    ensures events[j].now <= now < events[j].now + IDLE_TTL
    ensures forall e <- Run(n, channel, events).slot :: IsLive(e, now) ==> events[j].now <= e.warmedAt
  {
    assert (events + [Checkout(n, now)])[..|events|] == events;
    SlotOfRun(n, channel, events);
    var slot := SlotAt(n, events);
    var live := Live(slot, now);
    LiveIsPart(slot, now);
    SlotsStayGood(n, events);
    j := IdleWasHandedIn(n, events, live[0]);
    OldestLive(slot, now);
  }

  // -------------------------------------------------------- sweeping early or late

  lemma {:induction false} LiveTwice(slot: seq<Idle>, now: nat, later: nat)
    requires now <= later
    ensures Live(Live(slot, now), later) == Live(slot, later)
  {
    if slot != [] {
      LiveTwice(slot[1..], now, later);
      assert [] + Live(slot[1..], now) == Live(slot[1..], now);
      assert [] + Live(slot[1..], later) == Live(slot[1..], later);
      if IsLive(slot[0], now) {
        assert Live(slot, now)[1..] == Live(slot[1..], now);
      }
    }
  }

  /**
   A sweep is invisible to every later checkout: same channel, same slot afterwards. It is
   visible to a check-in exactly when expired channels were filling the slot up to the cap:
   the check-in is refused without the sweep.
   */
  lemma SweepAndCheckout(slot: seq<Idle>, n: SocketAddr, now: nat, later: nat, channel: Channel, cap: nat)
    requires now <= later
    ensures var swept := SlotAfter(slot, n, Evict(now));
            && Deliver(swept, n, Checkout(n, later)) == Deliver(slot, n, Checkout(n, later))
            && SlotAfter(swept, n, Checkout(n, later)) == SlotAfter(slot, n, Checkout(n, later))
            && (Refuses(swept, Checkin(n, channel, cap, later)) != Refuses(slot, Checkin(n, channel, cap, later))
                <==> |Live(slot, now)| < cap <= |slot|)
  {
    LiveTwice(slot, now, later);
    LiveShrinks(slot, now);
  }

  lemma {:induction false} LiveShrinks(slot: seq<Idle>, now: nat)
    ensures |Live(slot, now)| <= |slot|
  {
    if slot != [] {
      LiveShrinks(slot[1..], now);
    }
  }
}
