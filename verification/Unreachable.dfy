/**
 The process-wide table of consecutive "target unreachable" failures, which now and then
 grants a request one retry on another node.
 */
module Unreachable {
  import opened Wrappers

  type Target = string

  const TTL := 60
  const MAX_ENTRIES := 100_000
  const FAILOVER_THRESHOLD := 3
  const U32_MAX := 0xFFFF_FFFF

  /** The count, and when it was last written. */
  datatype Entry = Entry(count: nat, at: nat)

  type Counts = map<Target, Entry>

  /** Time elapsed on a clock that never yields a negative duration. */
  function Elapsed(now: nat, since: nat): nat {
    if since <= now then now - since else 0
  }

  function Fresh(counts: Counts, now: nat): Counts {
    map t | t in counts && Elapsed(now, counts[t].at) < TTL :: counts[t]
  }

  /** Room for a new entry: expired ones go first, and if that is not enough all go. */
  function MakeRoom(counts: Counts, now: nat): Counts {
    if |counts| < MAX_ENTRIES then counts
    else if |Fresh(counts, now)| < MAX_ENTRIES then Fresh(counts, now)
    else map[]
  }

  /** The count after one more failure of `t`. */
  function NextCount(counts: Counts, t: Target, now: nat): nat {
    if t in counts && Elapsed(now, counts[t].at) < TTL then Min(counts[t].count + 1, U32_MAX) else 1
  }

  function Recorded(counts: Counts, t: Target, now: nat): Counts {
    var room := MakeRoom(counts, now);
    room[t := Entry(NextCount(room, t, now), now)]
  }

  function Cleared(counts: Counts, t: Target): Counts { counts - {t} }

  class UnreachableTable {
    var counts: Counts

    constructor ()
      ensures counts == map[]
    {
      counts := map[];
    }

    /** One more failure of `t`; the count it now stands at. */
    method Record(t: Target, now: nat) returns (count: nat)
      requires |counts| <= MAX_ENTRIES
      modifies this
      ensures counts == Recorded(old(counts), t, now) && |counts| <= MAX_ENTRIES
      ensures t in counts && counts[t] == Entry(count, now)
    {
      RecordedFits(counts, t, now);
      if |counts| >= MAX_ENTRIES {
        counts := map u | u in counts && Elapsed(now, counts[u].at) < TTL :: counts[u];
        if |counts| >= MAX_ENTRIES {
          counts := map[];
        }
      }
      var entry := if t in counts then counts[t] else Entry(0, now);
      if Elapsed(now, entry.at) >= TTL {
        entry := entry.(count := 0);
      }
      entry := Entry(Min(entry.count + 1, U32_MAX), now);
      counts := counts[t := entry];
      count := entry.count;
    }

    method Clear(t: Target)
      modifies this
      ensures counts == Cleared(old(counts), t)
    {
      counts := counts - {t};
    }

    /** Record a failure; at the threshold, start over and allow one retry elsewhere. */
    method RecordAndShouldFailover(t: Target, now: nat) returns (retry: bool)
      requires |counts| <= MAX_ENTRIES
      modifies this
      ensures |counts| <= MAX_ENTRIES
      ensures retry <==> Recorded(old(counts), t, now)[t].count >= FAILOVER_THRESHOLD
      ensures counts == var after := Recorded(old(counts), t, now); if retry then Cleared(after, t) else after
    {
      var consecutive := Record(t, now);
      retry := consecutive >= FAILOVER_THRESHOLD;
      if retry {
        ClearedShrinks(counts, t);
        Clear(t);
      }
    }
  }

  lemma RoomIsMade(counts: Counts, now: nat)
    requires |counts| <= MAX_ENTRIES
    ensures |MakeRoom(counts, now)| < MAX_ENTRIES
  {
  }

  lemma AddingOne(room: Counts, t: Target, e: Entry)
    ensures |room[t := e]| <= |room| + 1
  {
    assert room[t := e].Keys == room.Keys + {t};
  }

  /** The table never outgrows its bound. */
  lemma RecordedFits(counts: Counts, t: Target, now: nat)
    requires |counts| <= MAX_ENTRIES
    ensures |Recorded(counts, t, now)| <= MAX_ENTRIES
  {
    var room := MakeRoom(counts, now);
    RoomIsMade(counts, now);
    AddingOne(room, t, Entry(NextCount(room, t, now), now));
  }

  // ------------------------------------------------------ concurrent requests

  /**
   Recording and clearing are two locked sections, so requests interleave between them. A
   grant is a `Record` that finds the threshold reached; its `Reset` comes some time later.
   `Success` is a request of any kind reaching its target.
   */
  datatype Event =
    | Record(t: Target, now: nat)
    | Reset(t: Target)
    | Success(t: Target)

  /**
   A run seen from one target `t`: `streak` counts its failures since the table last forgot
   it, `pending` its granted requests that have not reset the count yet.
   */
  datatype View = View(counts: Counts, streak: nat, pending: nat, failures: nat, grants: nat)

  function TableStep(counts: Counts, ev: Event): Counts {
    match ev
    case Record(u, now) => Recorded(counts, u, now)
    case Reset(u) => Cleared(counts, u)
    case Success(u) => Cleared(counts, u)
  }

  /** The table after a run from empty. */
  function Table(events: seq<Event>): Counts {
    if events == [] then map[] else TableStep(Table(events[..|events| - 1]), events[|events| - 1])
  }

  predicate FailureOf(ev: Event, t: Target) { ev.Record? && ev.t == t }

  /** A failure of `t` now finds its entry still there, and not timed out. */
  predicate Continues(counts: Counts, t: Target, now: nat) {
    var room := MakeRoom(counts, now);
    t in room && Elapsed(now, room[t].at) < TTL
  }

  /** One more failure of `t`, with or without a grant, that leaves the table at `after`. */
  function OwnFailed(v: View, t: Target, after: Counts, continues: bool): View
    requires t in after
  {
    var granted := after[t].count >= FAILOVER_THRESHOLD;
    View(after, if continues then v.streak + 1 else 1, if granted then v.pending + 1 else v.pending,
         v.failures + 1, if granted then v.grants + 1 else v.grants)
  }

  function Step(v: View, t: Target, ev: Event): Option<View> {
    var after := TableStep(v.counts, ev);
    match ev
    case Record(u, now) =>
      if u != t then
        Some(v.(counts := after, streak := if t in after then v.streak else 0))
      else
        Some(OwnFailed(v, t, after, Continues(v.counts, t, now)))
    case Reset(u) =>
      if u != t then Some(v.(counts := after))
      else if v.pending == 0 then None
      else Some(v.(counts := after, streak := 0, pending := v.pending - 1))
    case Success(u) =>
      Some(v.(counts := after, streak := if u == t then 0 else v.streak))
  }

  function Run(t: Target, events: seq<Event>): Option<View> {
    if events == [] then Some(View(map[], 0, 0, 0, 0)) else
    match Run(t, events[..|events| - 1])
    case None => None
    case Some(v) => Step(v, t, events[|events| - 1])
  }

  /** The table's entry for `t` is the streak. */
  predicate Tells(counts: Counts, t: Target, streak: nat) {
    (t in counts <==> streak > 0) && (t in counts ==> counts[t].count == Min(streak, U32_MAX))
  }

  /** The grants of a streak: all failures but its first two. */
  function GrantsIn(streak: nat): nat { if streak > 2 then streak - 2 else 0 }

  /** Grants before the present streak are paid for by two failures each streak that granted nothing. */
  predicate Balanced(streak: nat, pending: nat, failures: nat, grants: nat, c: nat) {
    && streak <= pending + 2 && streak <= failures && GrantsIn(streak) <= grants
    && (c + 2) * (grants - GrantsIn(streak)) <= c * (failures - streak)
  }

  predicate Accounted(v: View, t: Target, c: nat) {
    Tells(v.counts, t, v.streak) && Balanced(v.streak, v.pending, v.failures, v.grants, c)
  }

  /** No more than `c` requests for `t` are ever between their grant and its reset. */
  predicate AtMostPending(t: Target, events: seq<Event>, c: nat) {
    forall n :: 0 <= n <= |events| ==> PendingAt(t, events, n) <= c
  }

  function PendingAt(t: Target, events: seq<Event>, n: nat): nat
    requires n <= |events|
  {
    match Run(t, events[..n]) case None => 0 case Some(v) => v.pending
  }

  lemma MakeRoomKeepsEntries(counts: Counts, now: nat)
    ensures var room := MakeRoom(counts, now);
      room.Keys <= counts.Keys && forall u <- room :: room[u] == counts[u]
  {
  }

  /** Two failures that granted nothing pay for the grants of one streak. */
  lemma ForgettingIsPaidFor(streak: nat, pending: nat, failures: nat, grants: nat, c: nat)
    requires Balanced(streak, pending, failures, grants, c) && pending <= c
    ensures (c + 2) * grants <= c * failures
  {
    var open := GrantsIn(streak);
    assert (c + 2) * open <= c * streak by {
      if streak > 2 {
        assert (c + 2) * open == c * streak - 2 * c + 2 * open;
      }
    }
    assert (c + 2) * grants == (c + 2) * (grants - open) + (c + 2) * open;
    assert c * failures == c * (failures - streak) + c * streak;
  }

  lemma BalancedOnce(streak: nat, pending: nat, failures: nat, grants: nat, c: nat)
    requires Balanced(streak, pending, failures, grants, c)
    ensures var g := if streak >= 2 then 1 else 0;
            Balanced(streak + 1, pending + g, failures + 1, grants + g, c)
  {
    var g := if streak >= 2 then 1 else 0;
    assert grants + g - GrantsIn(streak + 1) == grants - GrantsIn(streak);
    assert failures + 1 - (streak + 1) == failures - streak;
  }

  lemma BalancedAnew(pending: nat, failures: nat, grants: nat, c: nat)
    requires (c + 2) * grants <= c * failures
    ensures Balanced(1, pending, failures + 1, grants, c)
  {
    assert failures + 1 - 1 == failures && grants - GrantsIn(1) == grants;
  }

  lemma OwnFailure(counts: Counts, t: Target, now: nat)
    ensures t in Recorded(counts, t, now)
    ensures Recorded(counts, t, now)[t].count
         == if Continues(counts, t, now) then Min(MakeRoom(counts, now)[t].count + 1, U32_MAX) else 1
    ensures Continues(counts, t, now) ==> t in counts && MakeRoom(counts, now)[t] == counts[t]
  {
    MakeRoomKeepsEntries(counts, now);
  }

  lemma OtherFailure(counts: Counts, u: Target, now: nat, t: Target)
    requires u != t
    ensures t in Recorded(counts, u, now) ==> t in counts && Recorded(counts, u, now)[t] == counts[t]
  {
    MakeRoomKeepsEntries(counts, now);
  }

  /** What the table and the streak say after one more failure of `t`. */
  lemma OwnFailureTells(counts: Counts, t: Target, now: nat, streak: nat)
    requires Tells(counts, t, streak)
    ensures Continues(counts, t, now) ==> streak > 0
    ensures Tells(Recorded(counts, t, now), t, if Continues(counts, t, now) then streak + 1 else 1)
  {
    OwnFailure(counts, t, now);
  }

  lemma OwnFailedKeepsAccounts(v: View, t: Target, after: Counts, continues: bool, c: nat)
    requires Balanced(v.streak, v.pending, v.failures, v.grants, c) && v.pending <= c
    requires (continues ==> v.streak > 0) && Tells(after, t, if continues then v.streak + 1 else 1)
    ensures t in after && Accounted(OwnFailed(v, t, after, continues), t, c)
  {
    if continues {
      BalancedOnce(v.streak, v.pending, v.failures, v.grants, c);
    } else {
      ForgettingIsPaidFor(v.streak, v.pending, v.failures, v.grants, c);
      BalancedAnew(v.pending, v.failures, v.grants, c);
    }
  }

  lemma OtherStepKeepsAccounts(v: View, t: Target, ev: Event, c: nat)
    requires Accounted(v, t, c) && v.pending <= c && !FailureOf(ev, t) && Step(v, t, ev).Some?
    ensures Accounted(Step(v, t, ev).value, t, c)
  {
    ForgettingIsPaidFor(v.streak, v.pending, v.failures, v.grants, c);
    if ev.Record? {
      OtherFailure(v.counts, ev.t, ev.now, t);
    }
  }

  lemma StepKeepsAccounts(v: View, t: Target, ev: Event, c: nat)
    requires Accounted(v, t, c) && v.pending <= c && Step(v, t, ev).Some?
    ensures Accounted(Step(v, t, ev).value, t, c)
  {
    if FailureOf(ev, t) {
      OwnFailureTells(v.counts, t, ev.now, v.streak);
      OwnFailedKeepsAccounts(v, t, Recorded(v.counts, t, ev.now), Continues(v.counts, t, ev.now), c);
    } else {
      OtherStepKeepsAccounts(v, t, ev, c);
    }
  }

  lemma {:induction false} RunIsAccounted(t: Target, events: seq<Event>, c: nat)
    requires Run(t, events).Some? && AtMostPending(t, events, c)
    ensures Accounted(Run(t, events).value, t, c)
  {
    if events != [] {
      var n := |events| - 1;
      forall m | 0 <= m <= n ensures PendingAt(t, events[..n], m) <= c {
        assert events[..n][..m] == events[..m];
        assert PendingAt(t, events, m) <= c;
      }
      assert PendingAt(t, events, n) <= c;
      RunIsAccounted(t, events[..n], c);
      StepKeepsAccounts(Run(t, events[..n]).value, t, events[n], c);
    }
  }

  /**
   Accounting of grants under any interleaving: when at most `c` granted requests for a target
   wait to reset its count, (c + 2) times the grants never exceed c times the failures. With
   one at a time this is the intended three failures per grant.
   */
  lemma GrantsPerFailures(t: Target, events: seq<Event>, c: nat)
    requires Run(t, events).Some? && AtMostPending(t, events, c)
    ensures (c + 2) * Run(t, events).value.grants <= c * Run(t, events).value.failures
  {
    RunIsAccounted(t, events, c);
    assert events[..|events|] == events;
    assert PendingAt(t, events, |events|) <= c;
    var v := Run(t, events).value;
    ForgettingIsPaidFor(v.streak, v.pending, v.failures, v.grants, c);
  }

  /** `n` requests fail for `t` at once, before any of them gets to reset the count. */
  function Burst(t: Target, n: nat): seq<Event> { seq(n, _ => Record(t, 0)) }

  function BurstView(t: Target, n: nat): View {
    var open := if n > 2 then n - 2 else 0;
    View(if n == 0 then map[] else map[t := Entry(Min(n, U32_MAX), 0)], n, open, n, open)
  }

  lemma BurstStep(t: Target, n: nat)
    ensures Step(BurstView(t, n), t, Record(t, 0)) == Some(BurstView(t, n + 1))
  {
    var before := BurstView(t, n).counts;
    if n > 0 {
      assert |before| == 1;
    }
    assert Recorded(before, t, 0) == BurstView(t, n + 1).counts;
  }

  lemma {:induction false} BurstRun(t: Target, n: nat)
    ensures Run(t, Burst(t, n)) == Some(BurstView(t, n))
  {
    if n > 0 {
      BurstRun(t, n - 1);
      assert Burst(t, n)[..n - 1] == Burst(t, n - 1);
      BurstStep(t, n - 1);
    }
  }

  /**
   The bound is tight: c + 2 failures at once give c grants, so two concurrent requests on a
   target already get more than one grant for every three failures.
   */
  lemma BurstIsTight(t: Target, c: nat)
    ensures AtMostPending(t, Burst(t, c + 2), c)
    ensures var r := Run(t, Burst(t, c + 2));
      && r.Some? && r.value.grants == c && r.value.failures == c + 2
      && (c >= 2 ==> 3 * r.value.grants > r.value.failures)
  {
    BurstRun(t, c + 2);
    var events := Burst(t, c + 2);
    forall m | 0 <= m <= c + 2 ensures PendingAt(t, events, m) <= c {
      assert events[..m] == Burst(t, m);
      BurstRun(t, m);
    }
  }

  /** Every run with at most `c` requests of `t` between grant and reset costs three failures a grant. */
  ghost predicate ThreeFailuresPerGrant(t: Target, c: nat) {
    forall events :: Run(t, events).Some? && AtMostPending(t, events, c) ==>
      3 * Run(t, events).value.grants <= Run(t, events).value.failures
  }

  /** Three failures for every grant: exactly when at most one request at a time is between grant and reset. */
  lemma ThreeFailuresPerGrantIff(t: Target, c: nat)
    ensures ThreeFailuresPerGrant(t, c) <==> c <= 1
  {
    if c <= 1 {
      forall events | Run(t, events).Some? && AtMostPending(t, events, c)
        ensures 3 * Run(t, events).value.grants <= Run(t, events).value.failures
      {
        assert AtMostPending(t, events, 1) by {
          assert forall n :: 0 <= n <= |events| ==> PendingAt(t, events, n) <= c;
        }
        GrantsPerFailures(t, events, 1);
      }
    } else {
      BurstIsTight(t, c);
    }
  }

  // ------------------------------------------------- what a grant is based on

  /** Nothing happens to `t` at positions `from` to `to`. */
  predicate Quiet(events: seq<Event>, t: Target, from: nat, to: nat) {
    forall m :: from <= m < to && m < |events| ==> events[m].t != t
  }

  lemma RecordedEntries(counts: Counts, u: Target, now: nat, t: Target)
    requires t in Recorded(counts, u, now)
    ensures var e := Recorded(counts, u, now)[t];
      if u == t then
        e.at == now &&
        (e.count > 1 ==> t in counts && Elapsed(now, counts[t].at) < TTL && e.count <= counts[t].count + 1)
      else t in counts && e == counts[t]
  {
    MakeRoomKeepsEntries(counts, now);
  }

  lemma StepFollowsTable(v: View, t: Target, ev: Event)
    requires Step(v, t, ev).Some?
    ensures Step(v, t, ev).value.counts == TableStep(v.counts, ev)
  {
  }

  lemma {:induction false} RunFollowsTable(t: Target, events: seq<Event>)
    requires Run(t, events).Some?
    ensures Run(t, events).value.counts == Table(events)
  {
    if events != [] {
      var n := |events| - 1;
      RunFollowsTable(t, events[..n]);
      StepFollowsTable(Run(t, events[..n]).value, t, events[n]);
    }
  }

  /** What the last event, a failure of `t`, made of its entry. */
  lemma LastIsFailure(t: Target, events: seq<Event>, n: nat)
    requires n + 1 == |events| && FailureOf(events[n], t)
    ensures t in Table(events) && Table(events)[t].at == events[n].now
    ensures Table(events)[t].count > 1 ==>
              var before := Table(events[..n]);
              && t in before && Elapsed(events[n].now, before[t].at) < TTL
              && Table(events)[t].count <= before[t].count + 1
  {
    RecordedEntries(Table(events[..n]), t, events[n].now, t);
  }

  lemma LastIsOther(t: Target, events: seq<Event>, n: nat)
    requires n + 1 == |events| && !FailureOf(events[n], t) && t in Table(events)
    ensures events[n].t != t && t in Table(events[..n]) && Table(events)[t] == Table(events[..n])[t]
  {
    if events[n].Record? {
      RecordedEntries(Table(events[..n]), events[n].t, events[n].now, t);
    }
  }

  /**
   The table's entry for `t` is its failure at `k`: nothing about `t` happened after it, and a
   count above one continues the entry it found, less than the time-out old.
   */
  predicate EntryIs(t: Target, events: seq<Event>, k: nat) {
    && k < |events| && FailureOf(events[k], t) && Quiet(events, t, k + 1, |events|)
    && t in Table(events) && Table(events)[t].at == events[k].now
    && (Table(events)[t].count > 1 ==>
          var before := Table(events[..k]);
          && t in before && Elapsed(events[k].now, before[t].at) < TTL
          && Table(events)[t].count <= before[t].count + 1)
  }

  lemma EntryStays(t: Target, events: seq<Event>, n: nat, k: nat)
    requires n + 1 == |events| && EntryIs(t, events[..n], k) && events[n].t != t
    requires t in Table(events) && Table(events)[t] == Table(events[..n])[t]
    ensures EntryIs(t, events, k)
  {
    assert events[..n][..k] == events[..k];
    QuietInPrefix(events, t, n, k + 1, n);
  }

  /** The table's entry for `t` is its last failure. */
  lemma {:induction false} EntryIsLastFailure(t: Target, events: seq<Event>) returns (k: nat)
    requires t in Table(events)
    ensures EntryIs(t, events, k)
  {
    var n := |events| - 1;
    if FailureOf(events[n], t) {
      k := n;
      LastIsFailure(t, events, n);
    } else {
      LastIsOther(t, events, n);
      k := EntryIsLastFailure(t, events[..n]);
      EntryStays(t, events, n, k);
    }
  }

  /** Three failures of `t` in a row, neighbours less than the time-out apart, and then nothing about it. */
  ghost predicate ThreeInARow(events: seq<Event>, t: Target, i: nat, j: nat, k: nat) {
    && i < j < k < |events|
    && FailureOf(events[i], t) && FailureOf(events[j], t) && FailureOf(events[k], t)
    && Elapsed(events[j].now, events[i].now) < TTL && Elapsed(events[k].now, events[j].now) < TTL
    && Quiet(events, t, i + 1, j) && Quiet(events, t, j + 1, k) && Quiet(events, t, k + 1, |events|)
  }

  lemma CountRestsOnThreeFailures(t: Target, events: seq<Event>) returns (i: nat, j: nat, k: nat)
    requires t in Table(events) && Table(events)[t].count >= FAILOVER_THRESHOLD
    ensures ThreeInARow(events, t, i, j, k)
  {
    k := EntryIsLastFailure(t, events);
    i, j := TwoFailures(t, events[..k]);
    QuietInPrefix(events, t, k, i + 1, j);
    QuietInPrefix(events, t, k, j + 1, k);
  }

  /** A grant is counted where a failure of the target brings its count to the threshold. */
  lemma GrantIsAThird(t: Target, events: seq<Event>)
    requires events != [] && Run(t, events).Some?
    requires Run(t, events).value.grants > Run(t, events[..|events| - 1]).value.grants
    ensures FailureOf(events[|events| - 1], t)
    ensures t in Table(events) && Table(events)[t].count >= FAILOVER_THRESHOLD
  {
    RunFollowsTable(t, events[..|events| - 1]);
    RunFollowsTable(t, events);
  }

  /**
   Every grant a run counts rests on three failures of its target in a row, the last of them
   the one that is granted, neighbours less than the time-out apart, with no success and no
   reset for that target in between.
   */
  lemma GrantRestsOnThreeFailures(t: Target, events: seq<Event>) returns (i: nat, j: nat, k: nat)
    requires events != [] && Run(t, events).Some?
    requires Run(t, events).value.grants > Run(t, events[..|events| - 1]).value.grants
    ensures ThreeInARow(events, t, i, j, k) && k == |events| - 1
  {
    GrantIsAThird(t, events);
    i, j, k := CountRestsOnThreeFailures(t, events);
  }

  lemma TwoFailures(t: Target, events: seq<Event>) returns (i: nat, j: nat)
    requires t in Table(events) && Table(events)[t].count >= 2
    ensures i < j < |events| && FailureOf(events[i], t) && FailureOf(events[j], t)
    ensures Elapsed(events[j].now, events[i].now) < TTL && Table(events)[t].at == events[j].now
    ensures Quiet(events, t, i + 1, j) && Quiet(events, t, j + 1, |events|)
  {
    j := EntryIsLastFailure(t, events);
    i := EntryIsLastFailure(t, events[..j]);
    QuietInPrefix(events, t, j, i + 1, j);
  }

  lemma QuietInPrefix(events: seq<Event>, t: Target, n: nat, from: nat, to: nat)
    requires to <= n <= |events|
    ensures Quiet(events[..n], t, from, to) <==> Quiet(events, t, from, to)
  {
    if Quiet(events[..n], t, from, to) {
      forall m | from <= m < to ensures events[m].t != t {
        assert events[..n][m].t != t;
      }
    }
  }

  lemma {:induction false} TableStaysBounded(events: seq<Event>)
    ensures |Table(events)| <= MAX_ENTRIES
  {
    if events != [] {
      var n := |events| - 1;
      TableStaysBounded(events[..n]);
      match events[n] {
        case Record(u, now) => RecordedFits(Table(events[..n]), u, now);
        case Reset(u) => ClearedShrinks(Table(events[..n]), u);
        case Success(u) => ClearedShrinks(Table(events[..n]), u);
      }
    }
  }

  lemma ClearedShrinks(counts: Counts, t: Target)
    ensures |Cleared(counts, t)| <= |counts|
  {
    assert Cleared(counts, t).Keys == counts.Keys - {t};
    assert |counts.Keys - {t}| <= |counts.Keys|;
  }

  /** The targets that failed less than a minute ago. */
  function Young(counts: Counts, now: nat): set<Target> {
    set u | u in counts && (now < counts[u].at || now - counts[u].at < 60)
  }

  /**
   Whose count survives when another target fails: everyone's while fewer than 100000 targets
   are known; in a full table the young ones', if fewer than 100000 are young; else nobody's.
   */
  lemma SurvivesExactly(counts: Counts, t: Target, now: nat, u: Target)
    requires u != t
    ensures u in Recorded(counts, t, now) <==>
              u in counts && (|counts| < 100_000 || (u in Young(counts, now) && |Young(counts, now)| < 100_000))
    ensures u in Recorded(counts, t, now) ==> Recorded(counts, t, now)[u] == counts[u]
  {
    assert Fresh(counts, now).Keys == Young(counts, now);
    assert |Fresh(counts, now)| == |Fresh(counts, now).Keys|;
  }
}
