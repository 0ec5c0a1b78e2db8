/**
 The pool of warm channels: per node a short list of idle handshaken channels, evicted
 lazily, with a capacity that follows recent demand.
 */
module ChannelPool {
  import opened Wrappers
  import opened Addresses

  const IDLE_CAP_BASE := 2
  const IDLE_CAP_MAX := 8
  const IDLE_TTL := 60

  type Channel = nat

  datatype Idle = Idle(channel: Channel, warmedAt: nat)

  type Slots = map<SocketAddr, seq<Idle>>

  type Peaks = map<SocketAddr, real>

  // ---------------------------------------------------------------- one slot

  predicate IsLive(e: Idle, now: nat) {
    now < e.warmedAt + IDLE_TTL
  }

  /** What a full sweep keeps. */
  function Live(slot: seq<Idle>, now: nat): seq<Idle> {
    if slot == [] then []
    else (if IsLive(slot[0], now) then [slot[0]] else []) + Live(slot[1..], now)
  }

  /** What a full sweep drops. */
  function Expired(slot: seq<Idle>, now: nat): seq<Idle> {
    if slot == [] then []
    else (if IsLive(slot[0], now) then [] else [slot[0]]) + Expired(slot[1..], now)
  }

  predicate Sorted(slot: seq<Idle>) {
    forall i, j :: 0 <= i < j < |slot| ==> slot[i].warmedAt <= slot[j].warmedAt
  }

  lemma {:induction false} LiveOfFresh(slot: seq<Idle>, now: nat)
    requires forall e <- slot :: IsLive(e, now)
    ensures Live(slot, now) == slot && Expired(slot, now) == []
  {
    if slot != [] {
      LiveOfFresh(slot[1..], now);
    }
  }

  /** In a sorted slot the live entries are what remains after the expired heads. */
  lemma {:induction false} LiveIsSuffix(slot: seq<Idle>, now: nat) returns (k: nat)
    requires Sorted(slot)
    ensures k <= |slot| && Live(slot, now) == slot[k..] && Expired(slot, now) == slot[..k]
  {
    if slot == [] {
      k := 0;
    } else if IsLive(slot[0], now) {
      LiveOfFresh(slot, now);
      k := 0;
    } else {
      var n := LiveIsSuffix(slot[1..], now);
      k := n + 1;
      assert slot[1..][n..] == slot[k..] && slot[..k] == [slot[0]] + slot[1..][..n];
    }
  }

  /** Bounded, in the order of warming, and nothing from the future. */
  predicate Good(slot: seq<Idle>, clock: nat) {
    |slot| <= IDLE_CAP_MAX && Sorted(slot) && forall e <- slot :: e.warmedAt <= clock
  }

  lemma SuffixIsGood(slot: seq<Idle>, clock: nat, now: nat, k: nat)
    requires Good(slot, clock) && clock <= now && k <= |slot|
    ensures Good(slot[k..], now)
  {
  }

  lemma LiveIsGood(slot: seq<Idle>, clock: nat, now: nat)
    requires Good(slot, clock) && clock <= now
    ensures Good(Live(slot, now), now)
  {
    var k := LiveIsSuffix(slot, now);
    SuffixIsGood(slot, clock, now, k);
  }

  /** Drop expired heads only; the result is what a full sweep would keep. */
  method DropExpiredHeads(slot: seq<Idle>, now: nat) returns (rest: seq<Idle>)
    requires Sorted(slot)
    ensures rest == Live(slot, now)
  {
    rest := slot;
    while rest != [] && !IsLive(rest[0], now)
      invariant Sorted(rest) && Live(rest, now) == Live(slot, now)
    {
      rest := rest[1..];
    }
    if rest != [] {
      LiveOfFresh(rest, now);
    }
  }

  /** Drop the expired heads, then hand out the head of what is left. */
  method TakeOldest(slot: seq<Idle>, now: nat) returns (out: Option<Channel>, rest: seq<Idle>)
    requires Good(slot, now)
    ensures var live := Live(slot, now);
            && out == (if live == [] then None else Some(live[0].channel))
            && rest == (if live == [] then [] else live[1..])
    ensures Good(rest, now)
  {
    LiveIsGood(slot, now, now);
    rest := DropExpiredHeads(slot, now);
    if rest == [] {
      out := None;
    } else {
      out := Some(rest[0].channel);
      SuffixIsGood(rest, now, now, 1);
      rest := rest[1..];
    }
  }

  // ------------------------------------------------------------- elastic cap

  function Ceil(x: real): int { -((-x).Floor) }

  function PeakOf(peaks: Peaks, node: SocketAddr): real {
    if node in peaks then peaks[node] else 0.0
  }

  /** The demand, rounded up and kept between the base and the maximum. */
  function CapOfPeak(peak: real): nat {
    var wanted := Ceil(peak);
    if wanted < IDLE_CAP_BASE then IDLE_CAP_BASE else if wanted > IDLE_CAP_MAX then IDLE_CAP_MAX else wanted
  }

  function CapFor(peaks: Peaks, node: SocketAddr): nat { CapOfPeak(PeakOf(peaks, node)) }

  function AfterMiss(peaks: Peaks, node: SocketAddr): Peaks {
    var cur := PeakOf(peaks, node);
    peaks[node := cur * 0.5 + (cur + 1.0) * 0.5]
  }

  function Decayed(cur: real): real {
    (if cur - 2.0 > 0.0 then cur - 2.0 else 0.0) * 0.95 + 2.0
  }

  function AfterHit(peaks: Peaks, node: SocketAddr): Peaks {
    if node !in peaks then peaks
    else if Decayed(peaks[node]) <= 2.1 then peaks - {node}
    else peaks[node := Decayed(peaks[node])]
  }

  // ------------------------------------------------------------ pool events

  /** One operation on the pool; `cap` is whatever the capacity was when it was read. */
  datatype Event =
    | Checkin(node: SocketAddr, channel: Channel, cap: nat, now: nat)
    | Checkout(node: SocketAddr, now: nat)
    | Evict(now: nat)

  /** What one operation does to the slot of node `n`. */
  function SlotAfter(slot: seq<Idle>, n: SocketAddr, e: Event): seq<Idle> {
    match e
    case Checkin(node, channel, cap, now) =>
      if node == n && |slot| < cap then slot + [Idle(channel, now)] else slot
    case Checkout(node, now) =>
      if node != n then slot
      else if Live(slot, now) == [] then []
      else Live(slot, now)[1..]
    case Evict(now) => Live(slot, now)
  }

  // -------------------------------------------------------------- the pool

  /** A node's slot, the empty one when it has no entry. */
  function SlotOf(inner: Slots, node: SocketAddr): seq<Idle> {
    if node in inner then inner[node] else []
  }

  /** The table never holds an empty slot. */
  function WithSlot(inner: Slots, node: SocketAddr, slot: seq<Idle>): Slots {
    if slot == [] then inner - {node} else inner[node := slot]
  }

  /** The table and the demand, as one value. */
  datatype PoolState = PoolState(inner: Slots, peak: Peaks)

  const EMPTY_POOL := PoolState(map[], map[])

  /** The channel a checkout hands out: the oldest live one. */
  function Taken(p: PoolState, node: SocketAddr, now: nat): Option<Channel> {
    var live := Live(SlotOf(p.inner, node), now);
    if live == [] then None else Some(live[0].channel)
  }

  /** What a checkout leaves; finding only expired channels still counts as a hit. */
  function AfterCheckout(p: PoolState, node: SocketAddr, now: nat): PoolState {
    var live := Live(SlotOf(p.inner, node), now);
    if node !in p.inner then p.(peak := AfterMiss(p.peak, node))
    else PoolState(WithSlot(p.inner, node, if live == [] then [] else live[1..]), AfterHit(p.peak, node))
  }

  /** What any operation leaves. */
  function After(p: PoolState, e: Event): PoolState {
    match e
    case Checkin(node, channel, cap, now) =>
      p.(inner := WithSlot(p.inner, node, SlotAfter(SlotOf(p.inner, node), node, e)))
    case Checkout(node, now) => AfterCheckout(p, node, now)
    case Evict(now) =>
      p.(inner := map n | n in p.inner && Live(p.inner[n], now) != [] :: Live(p.inner[n], now))
  }

  /**
   A checkout that hands out nothing is a miss exactly when its node has no entry at all; with
   an entry of expired channels it counts as a hit.
   */
  lemma EmptyHandedIsMissExactly(p: PoolState, node: SocketAddr, now: nat)
    requires Taken(p, node, now).None?
    ensures AfterCheckout(p, node, now).peak == AfterMiss(p.peak, node) <==> node !in p.inner
    ensures node in p.inner ==> AfterCheckout(p, node, now).peak == AfterHit(p.peak, node)
  {
    assert node in AfterMiss(p.peak, node);
    if AfterHit(p.peak, node) == AfterMiss(p.peak, node) {
      assert PeakOf(AfterHit(p.peak, node), node) == PeakOf(AfterMiss(p.peak, node), node);
    }
  }

  /** One channel, handed in at the start and never asked for: a minute later it is such an entry. */
  lemma ExpiredOnlyIsReachable(node: SocketAddr, channel: Channel)
    ensures var p := After(EMPTY_POOL, Checkin(node, channel, IDLE_CAP_BASE, 0));
            && Taken(p, node, IDLE_TTL).None? && node in p.inner
            && AfterCheckout(p, node, IDLE_TTL).peak == map[] != AfterMiss(p.peak, node)
  {
    var p := After(EMPTY_POOL, Checkin(node, channel, IDLE_CAP_BASE, 0));
    assert p.inner[node] == [Idle(channel, 0)];
    assert Live(p.inner[node], IDLE_TTL) == [];
    assert node in AfterMiss(p.peak, node);
  }

  /** Handed in less than a minute ago. */
  predicate Young(e: Idle, now: nat) { now < e.warmedAt + 60 }

  /** The entry the answer comes from: no entry that is young as well was warmed before it. */
  predicate IsOldestYoung(slot: seq<Idle>, now: nat, e: Idle) {
    e in slot && Young(e, now) && forall f <- slot :: Young(f, now) ==> e.warmedAt <= f.warmedAt
  }

  lemma {:induction false} LiveAreYoung(slot: seq<Idle>, now: nat)
    ensures forall e :: e in Live(slot, now) <==> e in slot && Young(e, now)
  {
    if slot != [] {
      LiveAreYoung(slot[1..], now);
      assert slot == [slot[0]] + slot[1..];
    }
  }

  lemma {:induction false} OldestLive(slot: seq<Idle>, now: nat)
    requires Sorted(slot) && Live(slot, now) != []
    ensures forall e <- slot :: IsLive(e, now) ==> Live(slot, now)[0].warmedAt <= e.warmedAt
  {
    if !IsLive(slot[0], now) {
      OldestLive(slot[1..], now);
    }
  }

  /** A checkout answers with an oldest young channel, and with none exactly when none is young. */
  lemma AnswerIsOldestYoung(p: PoolState, n: SocketAddr, now: nat)
    requires Sorted(SlotOf(p.inner, n))
    ensures Taken(p, n, now).None? <==> forall e <- SlotOf(p.inner, n) :: !Young(e, now)
    ensures Taken(p, n, now).Some? ==>
              exists e :: IsOldestYoung(SlotOf(p.inner, n), now, e) && e.channel == Taken(p, n, now).value
  {
    var slot := SlotOf(p.inner, n);
    var live := Live(slot, now);
    LiveAreYoung(slot, now);
    if live != [] {
      assert live[0] in live;
      OldestLive(slot, now);
      assert IsOldestYoung(slot, now, live[0]);
    }
  }

  /** A checkout changes the slot of its own node and no other. */
  lemma CheckoutIsLocal(p: PoolState, node: SocketAddr, now: nat, n: SocketAddr)
    ensures SlotOf(AfterCheckout(p, node, now).inner, n) == SlotAfter(SlotOf(p.inner, n), n, Checkout(node, now))
    ensures n != node ==> forall later :: Taken(AfterCheckout(p, node, now), n, later) == Taken(p, n, later)
  {
    assert n != node ==> SlotOf(AfterCheckout(p, node, now).inner, n) == SlotOf(p.inner, n);
  }

  /** How many channels a sweep drops, over the given nodes. */
  function ExpiredCount(inner: Slots, nodes: seq<SocketAddr>, now: nat): nat {
    if nodes == [] then 0
    else ExpiredCount(inner, nodes[..|nodes| - 1], now) + |Expired(SlotOf(inner, nodes[|nodes| - 1]), now)|
  }

  /** One pass over the nodes of the table, in whatever order the map yields them. */
  ghost predicate PassesOver(order: seq<SocketAddr>, inner: Slots) {
    && (forall i, j :: 0 <= i < j < |order| ==> order[i] != order[j])
    && (forall n :: n in order <==> n in inner)
  }

  lemma {:induction false} LiveAndExpired(slot: seq<Idle>, now: nat)
    ensures |Live(slot, now)| + |Expired(slot, now)| == |slot|
  {
    if slot != [] {
      LiveAndExpired(slot[1..], now);
    }
  }

  /** Keep what has not expired, wherever it stands. */
  method Retain(slot: seq<Idle>, now: nat) returns (kept: seq<Idle>)
    ensures kept == Live(slot, now)
  {
    kept := [];
    for i := 0 to |slot|
      invariant kept + Live(slot[i..], now) == Live(slot, now)
    {
      assert slot[i..][1..] == slot[i + 1..];
      if IsLive(slot[i], now) {
        kept := kept + [slot[i]];
      }
    }
  }

  ghost predicate AllGood(inner: Slots, clock: nat) {
    NoEmptySlot(inner) && forall n <- inner :: Good(inner[n], clock)
  }

  predicate NoEmptySlot(inner: Slots) { forall n <- inner :: inner[n] != [] }

  lemma AllGoodLater(inner: Slots, clock: nat, now: nat)
    requires AllGood(inner, clock) && clock <= now
    ensures AllGood(inner, now)
  {
    forall n <- inner ensures Good(inner[n], now) {
      SuffixIsGood(inner[n], clock, now, 0);
    }
  }

  lemma PutBackIsGood(inner: Slots, clock: nat, node: SocketAddr, rest: seq<Idle>)
    requires AllGood(inner, clock) && Good(rest, clock)
    ensures AllGood(WithSlot(inner, node, rest), clock)
    ensures rest != [] ==> (inner - {node})[node := rest] == WithSlot(inner, node, rest)
  {
    if rest != [] {
      assert (inner - {node})[node := rest] == inner[node := rest];
    }
  }

  class Pool {
    var inner: Slots
    var peak: Peaks
    /** No operation so far was later than this. */
    ghost var clock: nat

    constructor ()
      ensures Valid() && inner == map[] && peak == map[] && clock == 0
    {
      inner, peak, clock := map[], map[], 0;
    }

    ghost predicate Valid()
      reads this
    {
      AllGood(inner, clock)
    }

    ghost function Value(): PoolState
      reads this`inner, this`peak
    {
      PoolState(inner, peak)
    }

    method Cap(node: SocketAddr) returns (cap: nat)
      ensures cap == CapFor(peak, node)
    {
      var p := if node in peak then peak[node] else 0.0;
      cap := CapOfPeak(p);
    }

    method NoteMiss(node: SocketAddr)
      modifies this`peak
      ensures peak == AfterMiss(old(peak), node)
    {
      var cur := if node in peak then peak[node] else 0.0;
      peak := peak[node := cur * 0.5 + (cur + 1.0) * 0.5];
    }

    method NoteHit(node: SocketAddr)
      modifies this`peak
      ensures peak == AfterHit(old(peak), node)
    {
      if node in peak {
        var cur := Decayed(peak[node]);
        peak := if cur <= 2.1 then peak - {node} else peak[node := cur];
      }
    }

    /**
     Take the oldest live channel of a node. Only expired heads are looked at, yet what
     remains is what a full sweep of the slot would leave. A node whose channels have all
     expired yields nothing and still counts as served.
     */
    method Checkout(node: SocketAddr, now: nat) returns (out: Option<Channel>)
      requires Valid() && clock <= now
      modifies this
      ensures Valid() && clock == now
      ensures out == Taken(old(Value()), node, now) && Value() == AfterCheckout(old(Value()), node, now)
    {
      AllGoodLater(inner, clock, now);
      clock := now;
      if node !in inner {
        NoteMiss(node);
        return None;
      }
      out := TakeWarm(node, now);
      NoteHit(node);
    }

    /** The slot is taken out of the table, and put back when something is left in it. */
    method TakeWarm(node: SocketAddr, now: nat) returns (out: Option<Channel>)
      requires AllGood(inner, now) && node in inner
      modifies this`inner
      ensures AllGood(inner, now)
      ensures var live := Live(old(inner)[node], now);
              && out == (if live == [] then None else Some(live[0].channel))
              && inner == WithSlot(old(inner), node, if live == [] then [] else live[1..])
    {
      var slot := inner[node];
      out, slot := TakeOldest(slot, now);
      PutBackIsGood(inner, now, node, slot);
      inner := inner - {node};
      if slot != [] {
        inner := inner[node := slot];
      }
    }

    /** Keep a channel unless the node's slot has reached a cap that may have been read earlier. */
    method Admit(node: SocketAddr, channel: Channel, cap: nat, now: nat) returns (kept: bool)
      requires Valid() && clock <= now && IDLE_CAP_BASE <= cap <= IDLE_CAP_MAX
      modifies this`inner, this`clock
      ensures Valid() && clock == now
      ensures kept <==> |SlotOf(old(inner), node)| < cap
      ensures inner == if kept then old(inner)[node := SlotOf(old(inner), node) + [Idle(channel, now)]] else old(inner)
      ensures forall n ::
                SlotOf(inner, n) == SlotAfter(SlotOf(old(inner), n), n, Event.Checkin(node, channel, cap, now))
      ensures Value() == After(old(Value()), Event.Checkin(node, channel, cap, now))
    {
      clock := now;
      var slot := if node in inner then inner[node] else [];
      kept := |slot| < cap;
      if kept {
        inner := inner[node := slot + [Idle(channel, now)]];
      }
    }

    /** Read the cap, then admit: with nothing in between, a channel is kept while the slot is below it. */
    method Checkin(node: SocketAddr, channel: Channel, now: nat) returns (kept: bool)
      requires Valid() && clock <= now
      modifies this`inner, this`clock
      ensures Valid() && clock == now
      ensures kept <==> |SlotOf(old(inner), node)| < CapFor(peak, node)
      ensures inner == if kept then old(inner)[node := SlotOf(old(inner), node) + [Idle(channel, now)]] else old(inner)
      ensures Value() == After(old(Value()), Event.Checkin(node, channel, CapFor(peak, node), now))
    {
      var cap := Cap(node);
      kept := Admit(node, channel, cap, now);
    }

    /** Sweep one node: its slot keeps the live channels, or goes. */
    method SweepNode(node: SocketAddr, now: nat) returns (removed: nat)
      requires NoEmptySlot(inner) && node in inner
      modifies this`inner
      ensures NoEmptySlot(inner) && removed == |Expired(old(inner)[node], now)|
      ensures inner == WithSlot(old(inner), node, Live(old(inner)[node], now))
    {
      var slot := inner[node];
      var kept := Retain(slot, now);
      LiveAndExpired(slot, now);
      removed := |slot| - |kept|;
      inner := if kept == [] then inner - {node} else inner[node := kept];
    }

    /** The periodic sweep, and how many channels it closed. */
    method EvictExpired(order: seq<SocketAddr>, now: nat) returns (removed: nat)
      requires Valid() && clock <= now && PassesOver(order, inner)
      modifies this`inner, this`clock
      ensures Valid() && clock == now
      ensures forall n :: SlotOf(inner, n) == SlotAfter(SlotOf(old(inner), n), n, Event.Evict(now))
      ensures removed == ExpiredCount(old(inner), order, now)
      ensures Value() == After(old(Value()), Event.Evict(now))
    {
      ghost var before := inner;
      removed := SweepAll(order, now);
      SweptIsGood(before, inner, clock, now);
      SweptIsAfter(before, inner, peak, now);
      clock := now;
    }

    method SweepAll(order: seq<SocketAddr>, now: nat) returns (removed: nat)
      requires NoEmptySlot(inner) && PassesOver(order, inner)
      modifies this`inner
      ensures NoEmptySlot(inner)
      ensures forall n :: SlotOf(inner, n) == SlotAfter(SlotOf(old(inner), n), n, Event.Evict(now))
      ensures removed == ExpiredCount(old(inner), order, now)
    {
      ghost var before := inner;
      ghost var done: set<SocketAddr> := {};
      removed := 0;
      for i := 0 to |order|
        invariant NoEmptySlot(inner) && SweptSoFar(before, inner, done, now) && DoneUpTo(order, i, done)
        invariant removed == ExpiredCount(before, order[..i], now)
      {
        CountOneMore(before, order, i, now);
        NextIsUntouched(before, inner, done, order, i, now);
        var gone := SweepNode(order[i], now);
        removed, done := removed + gone, done + {order[i]};
      }
      AllSwept(before, inner, done, order, now);
    }
  }

  lemma SweptIsAfter(before: Slots, inner: Slots, peak: Peaks, now: nat)
    requires NoEmptySlot(before) && NoEmptySlot(inner)
    requires forall n :: SlotOf(inner, n) == SlotAfter(SlotOf(before, n), n, Event.Evict(now))
    ensures PoolState(inner, peak) == After(PoolState(before, peak), Event.Evict(now))
  {
    var swept := map n | n in before && Live(before[n], now) != [] :: Live(before[n], now);
    forall n ensures n in inner <==> n in swept {
      assert n in inner <==> SlotOf(inner, n) != [];
    }
    forall n | n in inner ensures inner[n] == swept[n] {
      assert inner[n] == SlotOf(inner, n);
    }
  }

  lemma SweptIsGood(before: Slots, inner: Slots, clock: nat, now: nat)
    requires AllGood(before, clock) && clock <= now && NoEmptySlot(inner)
    requires forall n :: SlotOf(inner, n) == SlotAfter(SlotOf(before, n), n, Evict(now))
    ensures AllGood(inner, now)
  {
    forall n <- inner ensures Good(inner[n], now) {
      assert SlotOf(inner, n) == Live(SlotOf(before, n), now);
      LiveIsGood(SlotOf(before, n), clock, now);
    }
  }

  ghost predicate DoneUpTo(order: seq<SocketAddr>, i: nat, done: set<SocketAddr>) {
    forall k :: 0 <= k < |order| ==> (order[k] in done <==> k < i)
  }

  /** The nodes done hold what a full sweep leaves, the others what they held before. */
  ghost predicate SweptSoFar(before: Slots, inner: Slots, done: set<SocketAddr>, now: nat) {
    forall n :: SlotOf(inner, n) == if n in done then Live(SlotOf(before, n), now) else SlotOf(before, n)
  }

  lemma NextIsUntouched(before: Slots, inner: Slots, done: set<SocketAddr>, order: seq<SocketAddr>, i: nat, now: nat)
    requires SweptSoFar(before, inner, done, now) && PassesOver(order, before) && DoneUpTo(order, i, done)
    requires i < |order| && NoEmptySlot(before)
    ensures order[i] in inner && inner[order[i]] == SlotOf(before, order[i])
    ensures DoneUpTo(order, i + 1, done + {order[i]})
    ensures SweptSoFar(before, WithSlot(inner, order[i], Live(inner[order[i]], now)), done + {order[i]}, now)
  {
    var node := order[i];
    assert node in order && SlotOf(inner, node) == SlotOf(before, node);
    var after := WithSlot(inner, node, Live(inner[node], now));
    forall n ensures SlotOf(after, n)
                  == if n in done + {node} then Live(SlotOf(before, n), now) else SlotOf(before, n) {
      assert n != node ==> SlotOf(after, n) == SlotOf(inner, n);
    }
  }

  lemma AllSwept(before: Slots, inner: Slots, done: set<SocketAddr>, order: seq<SocketAddr>, now: nat)
    requires SweptSoFar(before, inner, done, now) && PassesOver(order, before) && DoneUpTo(order, |order|, done)
    ensures forall n :: SlotOf(inner, n) == SlotAfter(SlotOf(before, n), n, Evict(now))
    ensures order[..|order|] == order
  {
    forall n ensures SlotOf(inner, n) == Live(SlotOf(before, n), now) {
      assert SlotOf(inner, n) == if n in done then Live(SlotOf(before, n), now) else SlotOf(before, n);
      if n in before {
        assert n in order;
      }
    }
  }

  lemma CountOneMore(inner: Slots, order: seq<SocketAddr>, i: nat, now: nat)
    requires i < |order|
    ensures ExpiredCount(inner, order[..i + 1], now)
         == ExpiredCount(inner, order[..i], now) + |Expired(SlotOf(inner, order[i]), now)|
  {
    assert order[..i + 1][..i] == order[..i];
  }
}
