/**
 The recovery prober: counters of failed probes per node, and the status transitions they
 drive. A probe looks at a node's status when it starts and is applied when it ends; in
 between the data plane may mark the node offline.
 */
module Probing {
  import opened Wrappers
  import opened Addresses
  import opened Scheduling

  const MAX_CONSECUTIVE_FAILURES := 3

  /** One node as the prober sees it; a counter that has no entry is zero. */
  datatype NodeState = NodeState(status: NodeStatus, online: nat, offline: nat)

  const FRESH := NodeState(Online, 0, 0)

  /** A finished probe of a node that was online when the probe began. */
  function OnlineProbe(s: NodeState, ok: bool): NodeState {
    if ok then s.(online := 0)
    else if s.online + 1 >= MAX_CONSECUTIVE_FAILURES then s.(status := Degraded, online := 0)
    else s.(online := s.online + 1)
  }

  /** A finished probe of a node that was not. */
  function OfflineProbe(s: NodeState, ok: bool): NodeState {
    if ok then s.(status := Online, offline := 0)
    else
      var count := s.offline + 1;
      s.(offline := count, status := if count < MAX_CONSECUTIVE_FAILURES then s.status else Offline)
  }

  /** How a probe ended: with the round-trip it took, or not at all. */
  datatype ProbeOutcome = Reachable(rtt: Measure) | Failed | TimedOut

  /** A measurement, or what the node showed when the probe began. */
  function MeasuredOr(m: Option<Measure>, shown: real): Measure {
    match m case Some(x) => x case None => Finite(shown)
  }

  function RoundTrip(o: ProbeOutcome): Option<Measure> {
    match o case Reachable(rtt) => Some(rtt) case _ => None
  }

  /** The statistics a probe of an online node writes back: `shown` is the node when the probe began. */
  predicate OnlineMeasured(before: NodeInfo, after: NodeInfo, shown: NodeInfo, outcome: ProbeOutcome,
                           bandwidth: Option<Measure>, loss: Measure) {
    Refreshed(before, after, MeasuredOr(bandwidth, shown.bandwidth), MeasuredOr(RoundTrip(outcome), shown.latency),
              loss, Finite(shown.load))
  }

  /** A recovered node gets its round-trip and keeps the rest as shown. */
  predicate RecoveryMeasured(before: NodeInfo, after: NodeInfo, shown: NodeInfo, rtt: Measure) {
    Refreshed(before.(status := Online), after,
              Finite(shown.bandwidth), rtt, Finite(shown.lossRate), Finite(shown.load))
  }

  /** What the probe of an online node makes of its statistics: nothing if it has just been degraded. */
  predicate OnlineStats(speedtest: bool, degrades: bool, before: NodeInfo, after: NodeInfo, shown: NodeInfo,
                        outcome: ProbeOutcome, bandwidth: Option<Measure>, loss: Measure) {
    if speedtest && !degrades then OnlineMeasured(before, after, shown, outcome, bandwidth, loss)
    else after == before.(status := after.status)
  }

  predicate OfflineStats(speedtest: bool, before: NodeInfo, after: NodeInfo, shown: NodeInfo, outcome: ProbeOutcome) {
    if speedtest && outcome.Reachable? then RecoveryMeasured(before, after, shown, outcome.rtt)
    else after == before.(status := after.status)
  }

  /**
   The prober alone writes statistics, so what a probe was shown is still there when it ends.
   Then only what was measured, and is a sane number, moves.
   */
  lemma OnlyMeasurementsMove(before: NodeInfo, after: NodeInfo, shown: NodeInfo, outcome: ProbeOutcome,
                             bandwidth: Option<Measure>, loss: Measure)
    requires before == shown.(status := before.status) && InRange(before)
    requires OnlineMeasured(before, after, shown, outcome, bandwidth, loss)
    ensures InRange(after) && after.load == before.load && after.status == before.status
    ensures after.bandwidth != before.bandwidth ==> bandwidth == Some(Finite(after.bandwidth))
    ensures after.latency != before.latency ==> outcome == Reachable(Finite(after.latency))
    ensures after.lossRate != before.lossRate ==> loss == Finite(after.lossRate)
  {
  }

  function Counted(m: map<SocketAddr, nat>, a: SocketAddr): nat { if a in m then m[a] else 0 }

  /** This failure is the one that degrades the node. */
  predicate Degrades(failures: map<SocketAddr, nat>, a: SocketAddr, outcome: ProbeOutcome) {
    !outcome.Reachable? && Counted(failures, a) + 1 >= MAX_CONSECUTIVE_FAILURES
  }

  function Noted(failed: map<SocketAddr, nat>, a: SocketAddr, now: nat, isFailure: bool): map<SocketAddr, nat> {
    if isFailure then failed[a := now] else failed
  }

  class Prober {
    const scheduler: Scheduler
    var onlineFailures: map<SocketAddr, nat>
    var consecutiveFailures: map<SocketAddr, nat>
    /** When a node last failed a probe, kept for the speed test. */
    var lastFailure: map<SocketAddr, nat>

    constructor (scheduler: Scheduler)
      ensures this.scheduler == scheduler
      ensures onlineFailures == map[] && consecutiveFailures == map[] && lastFailure == map[]
    {
      this.scheduler := scheduler;
      onlineFailures, consecutiveFailures, lastFailure := map[], map[], map[];
    }

    /** Time since the node's last failure, if it has had one. */
    function Since(a: SocketAddr, now: nat): Option<nat>
      reads this
    {
      if a in lastFailure then Some(if lastFailure[a] <= now then now - lastFailure[a] else 0) else None
    }

    ghost function View(a: SocketAddr): NodeState
      requires a in scheduler.nodes
      reads this, scheduler
    {
      NodeState(scheduler.nodes[a].status, Counted(onlineFailures, a), Counted(consecutiveFailures, a))
    }

    /** Nothing changed but what is kept for `a`; a node no longer in the table is not put back. */
    ghost predicate Untouched(a: SocketAddr, nodes: map<SocketAddr, NodeInfo>,
                              online: map<SocketAddr, nat>, offline: map<SocketAddr, nat>)
      reads this, scheduler
    {
      && (forall b <- scheduler.nodes :: b != a ==> b in nodes && scheduler.nodes[b] == nodes[b])
      && (forall b :: b != a ==> Counted(onlineFailures, b) == Counted(online, b))
      && (forall b :: b != a ==> Counted(consecutiveFailures, b) == Counted(offline, b))
      && (a !in nodes ==> scheduler.nodes == nodes)
    }

    /** Count one more outcome against a node that was online; the third failure in a row degrades it. */
    method CountOnline(a: SocketAddr, ok: bool) returns (degraded: bool)
      requires scheduler.Valid()
      modifies this`onlineFailures, scheduler`nodes
      ensures scheduler.Valid() && scheduler.nodes.Keys == old(scheduler.nodes).Keys
      ensures degraded <==> !ok && Counted(old(onlineFailures), a) + 1 >= MAX_CONSECUTIVE_FAILURES
      ensures a in scheduler.nodes ==> View(a) == OnlineProbe(old(View(a)), ok)
      ensures Untouched(a, old(scheduler.nodes), old(onlineFailures), old(consecutiveFailures))
      ensures a in scheduler.nodes ==>
                scheduler.nodes[a]
                == if degraded then old(scheduler.nodes)[a].(status := Degraded) else old(scheduler.nodes)[a]
    {
      degraded := false;
      if ok {
        onlineFailures := onlineFailures - {a};
      } else {
        var fails := Counted(onlineFailures, a) + 1;
        onlineFailures := onlineFailures[a := fails];
        if fails >= MAX_CONSECUTIVE_FAILURES {
          scheduler.UpdateNodeStatus(a, Degraded);
          onlineFailures := onlineFailures - {a};
          degraded := true;
        }
      }
    }

    /**
     The probe of a node that was online when it began: three failures in a row degrade it, and
     unless they just have, an enabled speed test writes back what was measured. `bandwidth` is
     what the node's throughput window gives, if anything; `lossAfter` estimates the loss from
     the time since the node's last failure.
     */
    method ApplyOnlineProbe(node: NodeInfo, outcome: ProbeOutcome, speedtest: bool, now: nat,
                            bandwidth: Option<Measure>, lossAfter: Option<nat> -> Measure)
      requires scheduler.Valid()
      modifies this`onlineFailures, this`lastFailure, scheduler`nodes
      ensures scheduler.Valid() && scheduler.nodes.Keys == old(scheduler.nodes).Keys
      ensures node.address in scheduler.nodes ==>
                View(node.address) == OnlineProbe(old(View(node.address)), outcome.Reachable?)
      ensures Untouched(node.address, old(scheduler.nodes), old(onlineFailures), old(consecutiveFailures))
      ensures lastFailure == Noted(old(lastFailure), node.address, now, speedtest && !outcome.Reachable?)
      ensures node.address in scheduler.nodes ==>
                OnlineStats(speedtest, Degrades(old(onlineFailures), node.address, outcome),
                            old(scheduler.nodes)[node.address], scheduler.nodes[node.address],
                            node, outcome, bandwidth, lossAfter(Since(node.address, now)))
    {
      var a := node.address;
      var degraded := CountOnline(a, outcome.Reachable?);
      if speedtest {
        if !outcome.Reachable? {
          lastFailure := lastFailure[a := now];
        }
        if !degraded {
          var mbps, latency := MeasuredOr(bandwidth, node.bandwidth), MeasuredOr(RoundTrip(outcome), node.latency);
          scheduler.UpdateNodeStats(a, mbps, latency, lossAfter(Since(a, now)), Finite(node.load));
        }
      }
    }

    method ApplyOfflineProbe(node: NodeInfo, outcome: ProbeOutcome, speedtest: bool, now: nat)
      requires scheduler.Valid()
      modifies this`consecutiveFailures, this`lastFailure, scheduler`nodes
      ensures scheduler.Valid() && scheduler.nodes.Keys == old(scheduler.nodes).Keys
      ensures node.address in scheduler.nodes ==>
                View(node.address) == OfflineProbe(old(View(node.address)), outcome.Reachable?)
      ensures Untouched(node.address, old(scheduler.nodes), old(onlineFailures), old(consecutiveFailures))
      ensures lastFailure == Noted(old(lastFailure), node.address, now, speedtest && !outcome.Reachable?)
      ensures node.address in scheduler.nodes ==>
                OfflineStats(speedtest, old(scheduler.nodes)[node.address], scheduler.nodes[node.address],
                             node, outcome)
    {
      match outcome {
        case Reachable(rtt) =>
          consecutiveFailures := consecutiveFailures - {node.address};
          scheduler.UpdateNodeStatus(node.address, Online);
          if speedtest {
            scheduler.UpdateNodeStats(node.address, Finite(node.bandwidth), rtt,
                                      Finite(node.lossRate), Finite(node.load));
          }
        case _ =>
          if speedtest {
            lastFailure := lastFailure[node.address := now];
          }
          RecordFailure(node.address);
      }
    }

    method RecordFailure(a: SocketAddr)
      requires scheduler.Valid()
      modifies this`consecutiveFailures, scheduler`nodes
      ensures scheduler.Valid() && scheduler.nodes.Keys == old(scheduler.nodes).Keys
      ensures a in scheduler.nodes ==> View(a) == OfflineProbe(old(View(a)), false)
      ensures Untouched(a, old(scheduler.nodes), old(onlineFailures), old(consecutiveFailures))
      ensures a in scheduler.nodes ==>
                scheduler.nodes[a] == old(scheduler.nodes)[a].(status := scheduler.nodes[a].status)
    {
      var count := Counted(consecutiveFailures, a) + 1;
      consecutiveFailures := consecutiveFailures[a := count];
      if count >= MAX_CONSECUTIVE_FAILURES {
        scheduler.UpdateNodeStatus(a, Offline);
      }
    }

    /** A probe result is applied by the status the node had when the probe started. */
    method ApplyProbe(node: NodeInfo, outcome: ProbeOutcome, speedtest: bool, now: nat,
                      bandwidth: Option<Measure>, lossAfter: Option<nat> -> Measure)
      requires scheduler.Valid()
      modifies this, scheduler`nodes
      ensures scheduler.Valid() && scheduler.nodes.Keys == old(scheduler.nodes).Keys
      ensures node.address in scheduler.nodes ==>
                View(node.address) == Applied(old(View(node.address)), node.status, outcome.Reachable?)
      ensures Untouched(node.address, old(scheduler.nodes), old(onlineFailures), old(consecutiveFailures))
      ensures node.address in scheduler.nodes ==>
                var before, after := old(scheduler.nodes)[node.address], scheduler.nodes[node.address];
                if node.status.Online? then
                  OnlineStats(speedtest, Degrades(old(onlineFailures), node.address, outcome), before, after,
                              node, outcome, bandwidth, lossAfter(Since(node.address, now)))
                else OfflineStats(speedtest, before, after, node, outcome)
    {
      if node.status.Online? {
        ApplyOnlineProbe(node, outcome, speedtest, now, bandwidth, lossAfter);
      } else {
        ApplyOfflineProbe(node, outcome, speedtest, now);
      }
    }
  }

  function Applied(s: NodeState, seen: NodeStatus, ok: bool): NodeState {
    if seen.Online? then OnlineProbe(s, ok) else OfflineProbe(s, ok)
  }

  // --------------------------------------------------------------------- runs

  /** For one node: a probe starts, ends with an outcome, is lost; the data plane marks it. */
  datatype Event = Start | Finish(ok: bool) | Lose | Mark

  /** The node, and the status the probe under way saw, if there is one. */
  datatype Run = Run(node: NodeState, seen: Option<NodeStatus>)

  const START := Run(FRESH, None)

  /** A round waits for all its probes, so a node has one probe at a time. */
  function Step(r: Run, e: Event): Option<Run> {
    match e
    case Start => if r.seen.Some? then None else Some(r.(seen := Some(r.node.status)))
    case Finish(ok) => if r.seen.None? then None else Some(Run(Applied(r.node, r.seen.value, ok), None))
    case Lose => if r.seen.None? then None else Some(r.(seen := None))
    case Mark => Some(r.(node := r.node.(status := Offline)))
  }

  function Trace(events: seq<Event>): Option<Run> {
    if events == [] then Some(START)
    else
      match Trace(events[..|events| - 1])
      case None => None
      case Some(r) => Step(r, events[|events| - 1])
  }

  /** How many probes have failed since the last success; lost probes do not count. */
  function FailureRun(events: seq<Event>): nat {
    if events == [] then 0
    else
      var before := FailureRun(events[..|events| - 1]);
      match events[|events| - 1]
      case Finish(ok) => if ok then 0 else before + 1
      case _ => before
  }

  predicate NoMarks(events: seq<Event>) { Mark !in events }

  /** Two failures are forgiven, three degrade, six take the node offline. */
  function Settled(r: nat): NodeState {
    if r <= 2 then NodeState(Online, r, 0)
    else if r <= 5 then NodeState(Degraded, 0, r - 3)
    else NodeState(Offline, 0, r - 3)
  }

  /**
   Left alone by the data plane, a node's status and counters are a function of its trailing
   run of failures - one success makes it as good as new.
   */
  lemma {:induction false} ClosedForm(events: seq<Event>)
    requires NoMarks(events) && Trace(events).Some?
    ensures Trace(events).value.node == Settled(FailureRun(events))
    ensures Trace(events).value.seen in {None, Some(Settled(FailureRun(events)).status)}
  {
    if events != [] {
      var before, last := events[..|events| - 1], events[|events| - 1];
      assert last in events;
      assert forall e <- before :: e in events;
      ClosedForm(before);
    }
  }

  /** What holds with the data plane marking nodes at any moment, probes under way included. */
  predicate Sound(r: Run) {
    && r.node.online < MAX_CONSECUTIVE_FAILURES
    && (r.node.status.Online? ==> r.node.offline == 0)
    && (r.seen.Some? && !r.seen.value.Online? ==> !r.node.status.Online?)
  }

  lemma {:induction false} EveryRunIsSound(events: seq<Event>)
    requires Trace(events).Some?
    ensures Sound(Trace(events).value)
  {
    if events != [] {
      EveryRunIsSound(events[..|events| - 1]);
    }
  }

  // ----------------------------------------------------------------- recovery

  /** Failed probes in a row of a node nobody marks. */
  function Failing(s: NodeState, n: nat): NodeState {
    if n == 0 then s else Applied(Failing(s, n - 1), Failing(s, n - 1).status, false)
  }

  lemma {:induction false} FailuresUntilDegraded(s: NodeState, n: nat)
    requires s.status.Online? && s.online < MAX_CONSECUTIVE_FAILURES && n <= MAX_CONSECUTIVE_FAILURES - s.online
    ensures Failing(s, n).status.Online? <==> n < MAX_CONSECUTIVE_FAILURES - s.online
    ensures n < MAX_CONSECUTIVE_FAILURES - s.online ==> Failing(s, n).online == s.online + n
  {
    if n > 0 {
      FailuresUntilDegraded(s, n - 1);
    }
  }

  /**
   A success brings an offline or degraded node back online but leaves the counter of failures
   it had while online: it comes back as good as new exactly when that counter was empty, and
   otherwise is degraded after fewer than three failures.
   */
  lemma RecoveryKeepsOldFailures(s: NodeState)
    requires !s.status.Online? && s.online < MAX_CONSECUTIVE_FAILURES
    ensures var back := Applied(s, s.status, true);
            && back.status.Online? && back.offline == 0
            && (back == FRESH <==> s.online == 0)
            && !Failing(back, MAX_CONSECUTIVE_FAILURES - s.online).status.Online?
            && (forall n :: 0 <= n < MAX_CONSECUTIVE_FAILURES - s.online ==> Failing(back, n).status.Online?)
  {
    var back := Applied(s, s.status, true);
    FailuresUntilDegraded(back, MAX_CONSECUTIVE_FAILURES - s.online);
    forall n | 0 <= n < MAX_CONSECUTIVE_FAILURES - s.online ensures Failing(back, n).status.Online? {
      FailuresUntilDegraded(back, n);
    }
  }

  const MARKED_LATE := [Start, Finish(false), Start, Finish(false), Mark, Start, Finish(true), Start, Finish(false)]

  /** Such a counter is reachable: marked after two failures, recovered, degraded by the next one. */
  lemma OneFailureDegrades()
    ensures Trace(MARKED_LATE[..7]) == Some(Run(NodeState(Online, 2, 0), None))
    ensures Trace(MARKED_LATE) == Some(Run(NodeState(Degraded, 0, 0), None))
  {
    var e := MARKED_LATE;
    TraceSnoc(e, 0);
    TraceSnoc(e, 1);
    TraceSnoc(e, 2);
    TraceSnoc(e, 3);
    TraceSnoc(e, 4);
    TraceSnoc(e, 5);
    TraceSnoc(e, 6);
    TraceSnoc(e, 7);
    TraceSnoc(e, 8);
    assert e[..9] == e;
  }

  lemma TraceSnoc(events: seq<Event>, k: nat)
    requires k < |events|
    ensures Trace(events[..0]) == Some(START)
    ensures Trace(events[..k]).Some? ==> Trace(events[..k + 1]) == Step(Trace(events[..k]).value, events[k])
  {
    assert events[..k + 1][..k] == events[..k];
  }

  /** What a probe of an online node measured is what it shows next, if in range and the probe did not degrade it. */
  lemma MeasurementsAreShown(before: NodeInfo, after: NodeInfo, shown: NodeInfo, rtt: real, bandwidth: real, loss: real)
    requires OnlineStats(true, false, before, after, shown,
                         Reachable(Finite(rtt)), Some(Finite(bandwidth)), Finite(loss))
    requires 0.0 <= rtt <= 1_000_000.0 && 0.0 <= bandwidth <= 1_000_000.0 && 0.0 <= loss <= 1.0
    ensures after.latency == rtt && after.bandwidth == bandwidth && after.lossRate == loss
    ensures after.address == before.address && after.status == before.status
  {
  }

  /** A recovered node shows its round-trip, and for the rest what it showed when the probe began. */
  lemma RecoveryIsShown(before: NodeInfo, after: NodeInfo, shown: NodeInfo, rtt: real)
    requires OfflineStats(true, before, after, shown, Reachable(Finite(rtt)))
    requires InRange(shown) && 0.0 <= rtt <= 1_000_000.0
    ensures after == shown.(address := before.address, status := Online, latency := rtt)
  {
  }

  /**
   A probe that began while the node was Online never brings a node back that the data plane has
   marked since; one that began while it was not does so whenever it succeeds, marked or not.
   */
  lemma StaleProbesDoNotRevive(events: seq<Event>, ok: bool)
    requires Trace(events).Some? && Trace(events).value.seen.Some?
    ensures var r, after := Trace(events).value, Trace(events + [Finish(ok)]);
            && after.Some? && after.value.seen.None?
            && (r.seen.value.Online? && r.node.status.Offline? ==> !after.value.node.status.Online?)
            && (!r.seen.value.Online? && ok ==> after.value.node.status.Online? && after.value.node.offline == 0)
  {
    assert (events + [Finish(ok)])[..|events|] == events;
  }
}
