/**
 The pool over whole runs: its table and its demand together. A check-in reads its cap first and
 uses it later, while other requests move the demand; when demand has been quiet for long enough,
 every cap read from then on is the base, and the slot drains to it.
 */
module PoolAdmission {
  import opened Wrappers
  import opened Addresses
  import opened ChannelPool
  import opened PoolOwnership
  import opened ElasticCap

  /** The pool after a run from empty. */
  function PoolAt(events: seq<Event>): PoolState {
    if events == [] then EMPTY_POOL else After(PoolAt(events[..|events| - 1]), events[|events| - 1])
  }

  /** The demand after a run: a checkout is a miss when the node has no channel at all, else a hit. */
  function PeaksAt(events: seq<Event>): Peaks {
    if events == [] then map[]
    else
      var before, e := events[..|events| - 1], events[|events| - 1];
      if !e.Checkout? then PeaksAt(before)
      else if SlotAt(e.node, before) == [] then AfterMiss(PeaksAt(before), e.node)
      else AfterHit(PeaksAt(before), e.node)
  }

  /** The table, as the slots of all nodes tell it. */
  ghost predicate HasSlots(inner: Slots, events: seq<Event>) {
    NoEmptySlot(inner) && forall n :: SlotOf(inner, n) == SlotAt(n, events)
  }

  lemma AfterHasSlots(p: PoolState, events: seq<Event>, e: Event)
    requires HasSlots(p.inner, events)
    ensures HasSlots(After(p, e).inner, events + [e])
  {
    assert (events + [e])[..|events|] == events;
    forall n ensures SlotOf(After(p, e).inner, n) == SlotAt(n, events + [e]) {
      assert SlotOf(p.inner, n) == SlotAt(n, events);
    }
  }

  /** The pool of a run is what the accounts of its nodes and of its demand say. */
  lemma {:induction false} PoolIsItsAccounts(events: seq<Event>)
    ensures HasSlots(PoolAt(events).inner, events) && PoolAt(events).peak == PeaksAt(events)
  {
    if events != [] {
      var before, e := events[..|events| - 1], events[|events| - 1];
      PoolIsItsAccounts(before);
      AfterHasSlots(PoolAt(before), before, e);
      assert before + [e] == events;
      if e.Checkout? {
        assert e.node in PoolAt(before).inner <==> SlotOf(PoolAt(before).inner, e.node) != [];
      }
    }
  }

  // ------------------------------------------------------------------ caps read early

  predicate OnClock(events: seq<Event>) {
    forall i, j :: 0 <= i < j < |events| ==> events[i].now <= events[j].now
  }

  /** The cap of the check-in at `j` is the one of its node when `r` operations had happened. */
  predicate CapReadAt(events: seq<Event>, j: nat, r: nat) {
    j < |events| && events[j].Checkin? && r <= j && events[j].cap == CapFor(PeaksAt(events[..r]), events[j].node)
  }

  /** Every check-in carries a cap that was read at or before it. */
  ghost predicate CapsWereRead(events: seq<Event>) {
    forall j: nat :: j < |events| && events[j].Checkin? ==> exists r: nat :: CapReadAt(events, j, r)
  }

  lemma CapInRange(peaks: Peaks, node: SocketAddr)
    ensures IDLE_CAP_BASE <= CapFor(peaks, node) <= IDLE_CAP_MAX
  {
  }

  /** A run on a clock whose caps were read is an orderly one. */
  lemma ReadCapsAreOrderly(events: seq<Event>)
    requires CapsWereRead(events) && OnClock(events)
    ensures Orderly(events)
  {
    forall e | e in events && e.Checkin? ensures IDLE_CAP_BASE <= e.cap <= IDLE_CAP_MAX {
      var j: nat :| j < |events| && events[j] == e;
      var r: nat :| CapReadAt(events, j, r);
      CapInRange(PeaksAt(events[..r]), e.node);
    }
  }

  // ------------------------------------------------------------------- demand over time

  predicate IsCheckout(e: Event, n: SocketAddr) { e.Checkout? && e.node == n }

  /** How often the node is checked out from one operation to another. */
  function Checkouts(events: seq<Event>, n: SocketAddr, from: nat, until: nat): nat
    requires from <= until <= |events|
    decreases until
  {
    if from == until then 0
    else Checkouts(events, n, from, until - 1) + if IsCheckout(events[until - 1], n) then 1 else 0
  }

  /** The two agree on what they have on record for one node. */
  predicate SameDemand(p: Peaks, q: Peaks, n: SocketAddr) {
    (n in p <==> n in q) && (n in p ==> p[n] == q[n])
  }

  /** Every checkout of the node in the interval finds it with channels; anything else may happen in between. */
  predicate NoMiss(events: seq<Event>, n: SocketAddr, from: nat, until: nat)
    requires until <= |events|
  {
    forall i: nat :: from <= i < until && IsCheckout(events[i], n) ==> SlotAt(n, events[..i]) != []
  }

  lemma HitIsOwn(p: Peaks, q: Peaks, n: SocketAddr)
    requires SameDemand(p, q, n)
    ensures SameDemand(AfterHit(p, n), AfterHit(q, n), n)
  {
  }

  lemma OthersAreOwn(p: Peaks, n: SocketAddr, other: SocketAddr)
    requires n != other
    ensures SameDemand(AfterHit(p, other), p, n) && SameDemand(AfterMiss(p, other), p, n)
  {
  }

  /** Only checkouts of a node move its demand. */
  lemma {:induction false} DemandIsOwn(before: seq<Event>, later: seq<Event>, n: SocketAddr)
    requires forall e <- later :: !IsCheckout(e, n)
    ensures SameDemand(PeaksAt(before + later), PeaksAt(before), n)
  {
    if later == [] {
      assert before + later == before;
    } else {
      var init, e := later[..|later| - 1], later[|later| - 1];
      assert e in later && (before + later)[..|before + later| - 1] == before + init;
      DemandIsOwn(before, init, n);
      if e.Checkout? {
        OthersAreOwn(PeaksAt(before + init), n, e.node);
      }
    }
  }

  lemma ServedStep(events: seq<Event>, n: SocketAddr, i: nat, q: Peaks)
    requires i < |events| && SameDemand(PeaksAt(events[..i]), q, n)
    requires IsCheckout(events[i], n) ==> SlotAt(n, events[..i]) != []
    ensures SameDemand(PeaksAt(events[..i + 1]), if IsCheckout(events[i], n) then AfterHit(q, n) else q, n)
  {
    assert events[..i + 1][..i] == events[..i];
    if IsCheckout(events[i], n) {
      HitIsOwn(PeaksAt(events[..i]), q, n);
    } else if events[i].Checkout? {
      OthersAreOwn(PeaksAt(events[..i]), n, events[i].node);
    }
  }

  /** Over an interval without a miss, a node's demand decays once for each of its checkouts. */
  lemma {:induction false} ServedAreHits(events: seq<Event>, n: SocketAddr, from: nat, until: nat)
    requires from <= until <= |events| && NoMiss(events, n, from, until)
    ensures SameDemand(PeaksAt(events[..until]), Hits(PeaksAt(events[..from]), n, Checkouts(events, n, from, until)), n)
    decreases until
  {
    if from < until {
      ServedAreHits(events, n, from, until - 1);
      ServedStep(events, n, until - 1, Hits(PeaksAt(events[..from]), n, Checkouts(events, n, from, until - 1)));
    }
  }

  /**
   A demand of at most 2 + 0.1 * 2^m is forgotten once the node has been checked out 14 m times
   (once, when m is 0) without a miss, whatever else happened meanwhile.
   */
  lemma DemandIsForgotten(events: seq<Event>, n: SocketAddr, from: nat, until: nat, m: nat)
    requires from <= until <= |events| && NoMiss(events, n, from, until)
    requires PeakOf(PeaksAt(events[..from]), n) <= 2.0 + Doubled(0.1, m)
    requires Checkouts(events, n, from, until) >= 14 * m && Checkouts(events, n, from, until) >= 1
    ensures n !in PeaksAt(events[..until])
  {
    var peaks, k := PeaksAt(events[..from]), Checkouts(events, n, from, until);
    ServedAreHits(events, n, from, until);
    if n in peaks {
      QuietForgets(peaks, n, m, k);
    } else {
      ForgottenStays(peaks, n, 0, k);
    }
  }

  lemma StaysForgotten(events: seq<Event>, n: SocketAddr, from: nat, until: nat)
    requires from <= until <= |events| && NoMiss(events, n, from, until) && n !in PeaksAt(events[..from])
    ensures n !in PeaksAt(events[..until]) && CapFor(PeaksAt(events[..until]), n) == IDLE_CAP_BASE
  {
    ServedAreHits(events, n, from, until);
    ForgottenStays(PeaksAt(events[..from]), n, 0, Checkouts(events, n, from, until));
  }

  // -------------------------------------------------------------------- the slot drains

  /** Check-ins of the node in the interval carry caps that were read in it. */
  ghost predicate CapsReadSince(events: seq<Event>, n: SocketAddr, from: nat, until: nat)
    requires until <= |events|
  {
    forall j: nat :: from <= j < until && events[j].Checkin? && events[j].node == n ==>
      exists r: nat :: from <= r && CapReadAt(events, j, r)
  }

  /** What is left of `held` channels after `taken` were taken, but for the base. */
  function Drained(held: nat, taken: nat): nat {
    if held > IDLE_CAP_BASE + taken then held - taken else IDLE_CAP_BASE
  }

  lemma DrainStep(slot: seq<Idle>, n: SocketAddr, e: Event, held: nat, taken: nat)
    requires |slot| <= Drained(held, taken) && (IsCheckout(e, n) ==> slot != [])
    requires e.Checkin? && e.node == n ==> e.cap == IDLE_CAP_BASE
    ensures |SlotAfter(slot, n, e)| <= Drained(held, taken + if IsCheckout(e, n) then 1 else 0)
  {
    LiveShrinks(slot, e.now);
  }

  lemma SlotStep(events: seq<Event>, n: SocketAddr, i: nat)
    requires i < |events|
    ensures SlotAt(n, events[..i + 1]) == SlotAfter(SlotAt(n, events[..i]), n, events[i])
  {
    assert events[..i + 1][..i] == events[..i];
  }

  /** Check-ins of the node in the interval carry the base cap. */
  predicate BaseCaps(events: seq<Event>, n: SocketAddr, from: nat, until: nat)
    requires until <= |events|
  {
    forall j: nat :: from <= j < until && events[j].Checkin? && events[j].node == n ==> events[j].cap == IDLE_CAP_BASE
  }

  lemma DrainAt(events: seq<Event>, n: SocketAddr, i: nat, held: nat, taken: nat)
    requires i < |events| && |SlotAt(n, events[..i])| <= Drained(held, taken)
    requires IsCheckout(events[i], n) ==> SlotAt(n, events[..i]) != []
    requires events[i].Checkin? && events[i].node == n ==> events[i].cap == IDLE_CAP_BASE
    ensures |SlotAt(n, events[..i + 1])| <= Drained(held, taken + if IsCheckout(events[i], n) then 1 else 0)
  {
    SlotStep(events, n, i);
    DrainStep(SlotAt(n, events[..i]), n, events[i], held, taken);
  }

  lemma {:induction false} BaseCapsDrain(events: seq<Event>, n: SocketAddr, from: nat, until: nat)
    requires from <= until <= |events| && NoMiss(events, n, from, until) && BaseCaps(events, n, from, until)
    ensures |SlotAt(n, events[..until])| <= Drained(|SlotAt(n, events[..from])|, Checkouts(events, n, from, until))
    decreases until
  {
    if from < until {
      BaseCapsDrain(events, n, from, until - 1);
      DrainAt(events, n, until - 1, |SlotAt(n, events[..from])|, Checkouts(events, n, from, until - 1));
    }
  }

  /**
   Quiet drains the slot. In any run on a clock whose caps were read: once a node's demand, at
   most 2 + 0.1 * 2^m, has seen 14 m checkouts without a miss, and as long as no miss follows,
   every check-in whose cap is read from then on is refused exactly when two channels are idle,
   every further checkout brings the slot nearer to two, and after six of them it is there.
   */
  lemma QuietDrainsTheSlot(events: seq<Event>, n: SocketAddr, from: nat, quiet: nat, until: nat, m: nat)
    requires CapsWereRead(events) && OnClock(events)
    requires from <= quiet <= until <= |events| && NoMiss(events, n, from, until)
    requires PeakOf(PeaksAt(events[..from]), n) <= 2.0 + Doubled(0.1, m)
    requires Checkouts(events, n, from, quiet) >= 14 * m && Checkouts(events, n, from, quiet) >= 1
    requires CapsReadSince(events, n, quiet, until)
    ensures forall j: nat :: quiet <= j < until && events[j].Checkin? && events[j].node == n ==>
              (Refuses(SlotAt(n, events[..j]), events[j]) <==> |SlotAt(n, events[..j])| >= IDLE_CAP_BASE)
    ensures |SlotAt(n, events[..until])| <= Drained(|SlotAt(n, events[..quiet])|, Checkouts(events, n, quiet, until))
    ensures Checkouts(events, n, quiet, until) >= 6 ==> |SlotAt(n, events[..until])| <= IDLE_CAP_BASE
  {
    DemandIsForgotten(events, n, from, quiet, m);
    QuietCapsAreBase(events, n, quiet, until);
    BaseCapsDrain(events, n, quiet, until);
    SlotIsSmall(events, n, quiet);
  }

  lemma QuietCapsAreBase(events: seq<Event>, n: SocketAddr, quiet: nat, until: nat)
    requires quiet <= until <= |events| && NoMiss(events, n, quiet, until) && n !in PeaksAt(events[..quiet])
    requires CapsReadSince(events, n, quiet, until)
    ensures BaseCaps(events, n, quiet, until)
  {
    forall j: nat | quiet <= j < until && events[j].Checkin? && events[j].node == n
      ensures events[j].cap == IDLE_CAP_BASE
    {
      var r: nat :| quiet <= r && CapReadAt(events, j, r);
      StaysForgotten(events, n, quiet, r);
    }
  }

  lemma SlotIsSmall(events: seq<Event>, n: SocketAddr, k: nat)
    requires CapsWereRead(events) && OnClock(events) && k <= |events|
    ensures |SlotAt(n, events[..k])| <= IDLE_CAP_MAX
  {
    ReadCapsAreOrderly(events);
    assert forall e <- events[..k] :: e in events;
    SlotsStayGood(n, events[..k]);
  }

  // ------------------------------------------------------------- such runs exist

  /** A burst of `k` misses, then `i` times: a channel is handed in, under the cap of the moment, and taken. */
  function BurstThenPairs(n: SocketAddr, k: nat, i: nat): seq<Event> {
    if i == 0 then seq(k, _ => Checkout(n, 0))
    else
      var run := BurstThenPairs(n, k, i - 1);
      run + [Checkin(n, i, CapFor(PeaksAt(run), n), 0), Checkout(n, 0)]
  }

  /** What such a run keeps up, pair by pair. */
  ghost predicate Paired(run: seq<Event>, n: SocketAddr, k: nat, i: nat) {
    && |run| == k + 2 * i && SlotAt(n, run) == [] && Checkouts(run, n, k, |run|) == i
    && (forall j :: 0 <= j < |run| ==> run[j].now == 0)
    && (forall j: nat :: j < |run| && run[j].Checkin? ==> CapReadAt(run, j, j))
    && NoMiss(run, n, k, |run|)
  }

  lemma {:induction false} BurstIsPaired(n: SocketAddr, k: nat)
    ensures var run := BurstThenPairs(n, k, 0);
            Paired(run, n, k, 0) && PeaksAt(run) == Misses(map[], n, k)
  {
    var run := BurstThenPairs(n, k, 0);
    if k > 0 {
      BurstIsPaired(n, k - 1);
      assert run[..k - 1] == BurstThenPairs(n, k - 1, 0);
    }
  }

  /** A channel is handed in, under the cap of the moment, and taken again. */
  predicate IsPair(run: seq<Event>, n: SocketAddr, e: Event, f: Event) {
    f == Checkout(n, 0) && e.Checkin? && e.node == n && e.now == 0 && e.cap == CapFor(PeaksAt(run), n)
  }

  lemma PairLeavesNothing(run: seq<Event>, n: SocketAddr, e: Event, f: Event)
    requires SlotAt(n, run) == [] && IsPair(run, n, e, f)
    ensures SlotAt(n, run + [e]) != [] && SlotAt(n, run + [e, f]) == []
  {
    CapInRange(PeaksAt(run), n);
    assert (run + [e])[..|run|] == run && (run + [e, f])[..|run| + 1] == run + [e];
    var idle := Idle(e.channel, 0);
    assert SlotAt(n, run + [e]) == [idle];
    LiveOfFresh([idle], 0);
    assert [idle][1..] == [];
  }

  lemma {:induction false} CheckoutsOfPrefix(run: seq<Event>, longer: seq<Event>, n: SocketAddr, from: nat, until: nat)
    requires from <= until <= |run| && run <= longer
    ensures Checkouts(longer, n, from, until) == Checkouts(run, n, from, until)
    decreases until
  {
    if from < until {
      CheckoutsOfPrefix(run, longer, n, from, until - 1);
    }
  }

  lemma {:induction false} CheckoutsAddUp(events: seq<Event>, n: SocketAddr, from: nat, mid: nat, until: nat)
    requires from <= mid <= until <= |events|
    ensures Checkouts(events, n, from, until) == Checkouts(events, n, from, mid) + Checkouts(events, n, mid, until)
    decreases until
  {
    if mid < until {
      CheckoutsAddUp(events, n, from, mid, until - 1);
    }
  }

  lemma PairCounts(run: seq<Event>, n: SocketAddr, k: nat, e: Event, f: Event)
    requires k <= |run| && IsPair(run, n, e, f)
    ensures Checkouts(run + [e, f], n, k, |run| + 2) == Checkouts(run, n, k, |run|) + 1
  {
    CheckoutsOfPrefix(run, run + [e, f], n, k, |run|);
  }

  lemma PairCapsWereRead(run: seq<Event>, n: SocketAddr, e: Event, f: Event)
    requires IsPair(run, n, e, f)
    requires forall j: nat :: j < |run| && run[j].Checkin? ==> CapReadAt(run, j, j)
    ensures forall j: nat :: j < |run| + 2 && (run + [e, f])[j].Checkin? ==> CapReadAt(run + [e, f], j, j)
  {
    forall j: nat | j < |run| + 2 && (run + [e, f])[j].Checkin? ensures CapReadAt(run + [e, f], j, j) {
      assert (run + [e, f])[..j] == if j < |run| then run[..j] else run;
    }
  }

  lemma PairIsServed(run: seq<Event>, n: SocketAddr, k: nat, e: Event, f: Event)
    requires NoMiss(run, n, k, |run|) && IsPair(run, n, e, f) && SlotAt(n, run + [e]) != []
    ensures NoMiss(run + [e, f], n, k, |run| + 2)
  {
    var after := run + [e, f];
    forall j: nat | k <= j < |after| && IsCheckout(after[j], n) ensures SlotAt(n, after[..j]) != [] {
      assert after[..j] == if j < |run| then run[..j] else run + [e];
    }
  }

  lemma PairIsAtZero(run: seq<Event>, n: SocketAddr, e: Event, f: Event)
    requires IsPair(run, n, e, f) && forall j :: 0 <= j < |run| ==> run[j].now == 0
    ensures forall j :: 0 <= j < |run| + 2 ==> (run + [e, f])[j].now == 0
  {
  }

  lemma PairIsPaired(run: seq<Event>, n: SocketAddr, k: nat, i: nat, e: Event, f: Event)
    requires Paired(run, n, k, i) && IsPair(run, n, e, f)
    ensures Paired(run + [e, f], n, k, i + 1)
  {
    var after := run + [e, f];
    assert |after| == |run| + 2;
    PairIsAtZero(run, n, e, f);
    PairLeavesNothing(run, n, e, f);
    PairCounts(run, n, k, e, f);
    PairCapsWereRead(run, n, e, f);
    PairIsServed(run, n, k, e, f);
  }

  lemma {:induction false} RunsArePaired(n: SocketAddr, k: nat, i: nat)
    ensures Paired(BurstThenPairs(n, k, i), n, k, i)
  {
    if i == 0 {
      BurstIsPaired(n, k);
    } else {
      RunsArePaired(n, k, i - 1);
      var run := BurstThenPairs(n, k, i - 1);
      PairIsPaired(run, n, k, i - 1, Checkin(n, i, CapFor(PeaksAt(run), n), 0), Checkout(n, 0));
    }
  }

  lemma {:induction false} ShorterIsPrefix(n: SocketAddr, k: nat, i: nat, less: nat)
    requires less <= i
    ensures BurstThenPairs(n, k, less) <= BurstThenPairs(n, k, i)
  {
    if less < i {
      ShorterIsPrefix(n, k, i - 1, less);
    }
  }

  lemma PairsOnTheWay(n: SocketAddr, k: nat, i: nat, less: nat, run: seq<Event>, at: nat)
    requires less <= i && run == BurstThenPairs(n, k, i) && at == k + 2 * less
    ensures k <= at <= |run| && Checkouts(run, n, k, at) == less && Checkouts(run, n, at, |run|) == i - less
  {
    RunsArePaired(n, k, i);
    RunsArePaired(n, k, less);
    ShorterIsPrefix(n, k, i, less);
    CheckoutsOfPrefix(BurstThenPairs(n, k, less), run, n, k, at);
    CheckoutsAddUp(run, n, k, at, |run|);
  }

  lemma BurstOnTheWay(n: SocketAddr, k: nat, i: nat, run: seq<Event>)
    requires run == BurstThenPairs(n, k, i)
    ensures k <= |run| && PeakOf(PeaksAt(run[..k]), n) == k as real * 0.5
    ensures k >= 5 ==> CapFor(PeaksAt(run[..k]), n) > IDLE_CAP_BASE
  {
    BurstIsPaired(n, k);
    ShorterIsPrefix(n, k, i, 0);
    assert run[..k] == BurstThenPairs(n, k, 0);
    BurstRaises(n, k);
    CeilBounds(k as real * 0.5);
  }

  lemma PairedIsReadOnTheSpot(run: seq<Event>, n: SocketAddr, k: nat, i: nat, from: nat)
    requires Paired(run, n, k, i) && from <= |run|
    ensures CapsWereRead(run) && OnClock(run) && NoMiss(run, n, k, |run|) && CapsReadSince(run, n, from, |run|)
  {
  }

  /** A run that starts with a raised cap and meets everything above: quiet sets in at `quiet`. */
  ghost predicate IsQuietRun(events: seq<Event>, n: SocketAddr, k: nat, quiet: nat, m: nat) {
    && CapsWereRead(events) && OnClock(events)
    && k <= quiet <= |events| && NoMiss(events, n, k, |events|)
    && CapFor(PeaksAt(events[..k]), n) > IDLE_CAP_BASE
    && PeakOf(PeaksAt(events[..k]), n) <= 2.0 + Doubled(0.1, m)
    && Checkouts(events, n, k, quiet) >= 14 * m && Checkouts(events, n, k, quiet) >= 1
    && CapsReadSince(events, n, quiet, |events|) && Checkouts(events, n, quiet, |events|) >= 6
  }

  lemma QuietRunsDrain(events: seq<Event>, n: SocketAddr, k: nat, quiet: nat, m: nat)
    requires IsQuietRun(events, n, k, quiet, m)
    ensures |SlotAt(n, events)| <= IDLE_CAP_BASE
  {
    QuietDrainsTheSlot(events, n, k, quiet, |events|, m);
    assert events[..|events|] == events;
  }

  /**
   Such runs exist for every burst that raises the cap, that is of five misses or more: m has
   only to be large enough for the peak of k/2.
   */
  lemma QuietIsReachable(n: SocketAddr, k: nat, m: nat) returns (events: seq<Event>, quiet: nat)
    requires k >= 5 && k as real * 0.5 <= 2.0 + Doubled(0.1, m)
    ensures m >= 1 && IsQuietRun(events, n, k, quiet, m)
  {
    var less := 14 * m;
    var i := less + 6;
    events, quiet := BurstThenPairs(n, k, i), k + 2 * less;
    RunsArePaired(n, k, i);
    PairedIsReadOnTheSpot(events, n, k, i, quiet);
    PairsOnTheWay(n, k, i, less, events, quiet);
    BurstOnTheWay(n, k, i, events);
  }
}
