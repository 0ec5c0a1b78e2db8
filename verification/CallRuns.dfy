/**
 Calls one after another, with pool traffic between them: what they tell the table of unreachable
 targets is a run of it, so retries on another node are paid for, and the third failure buys one.
 */
module CallRuns {
  import opened Wrappers
  import opened Addresses
  import opened Scheduling
  import opened Unreachable
  import opened OpenTarget
  import opened PooledOpen
  import opened CallAccounts
  import Pool = ChannelPool

  /** The call an event makes. */
  function CallOf(rank: Ranker, s: Tables, pool: PoolState, e: PooledOpen.Event): Opened
    requires e.Call?
  {
    OpenPooled(Actual(e.warm, e.cold, e.t, e.clock), rank(s.nodes), pool, s.counts).call
  }

  /** What the table is told by one event. */
  function TellsTable(rank: Ranker, s: Tables, pool: PoolState, e: PooledOpen.Event): seq<TableEvent> {
    match e
    case Traffic(_) => []
    case Call(warm, cold, t, clock) =>
      var tried := Tried(rank(s.nodes));
      Told(warm, cold, t, clock, tried, pool, Min(CallOf(rank, s, pool, e).tried, |tried|), s.counts)
  }

  function RunTold(rank: Ranker, s: Tables, pool: PoolState, events: seq<PooledOpen.Event>): seq<TableEvent>
    decreases |events|
  {
    if events == [] then []
    else
      var n := Next(rank, s, pool, events[0]);
      TellsTable(rank, s, pool, events[0]) + RunTold(rank, n.0, n.1, events[1..])
  }

  /** The retries on another node that calls for `t` were granted. */
  function Retries(rank: Ranker, s: Tables, pool: PoolState, events: seq<PooledOpen.Event>, t: Target): nat
    decreases |events|
  {
    if events == [] then 0
    else
      var n := Next(rank, s, pool, events[0]);
      RetriesOf(rank, s, pool, events[0], t) + Retries(rank, n.0, n.1, events[1..], t)
  }

  function RetriesOf(rank: Ranker, s: Tables, pool: PoolState, e: PooledOpen.Event, t: Target): nat {
    if e.Call? && e.t == t then CallOf(rank, s, pool, e).grants else 0
  }

  /** How often a node reported `t` unreachable. */
  function Failures(events: seq<TableEvent>, t: Target): nat {
    if events == [] then 0
    else Failures(events[..|events| - 1], t) + if FailureOf(events[|events| - 1], t) then 1 else 0
  }

  // ------------------------------------------------------------------------ one event

  predicate AllOf(events: seq<TableEvent>, t: Target) { forall ev <- events :: ev.t == t }

  ghost predicate SpeaksOf(tell: Telling, t: Target) {
    forall pool, a, now, counts :: AllOf(tell(pool, a, now, counts), t)
  }

  lemma {:induction false} CallSpeaksOf(w: Ways, tell: Telling, books: Books, c: seq<SocketAddr>, pool: PoolState,
                                        i: nat, k: nat, counts: Counts, t: Target)
    requires SpeaksOf(tell, t) && k <= |c|
    ensures AllOf(CallEvents(w, tell, books, c, pool, i, k, counts), t)
    decreases k - i
  {
    if i < k {
      var here := tell(pool, c[i], w.clock(i), counts);
      assert AllOf(here, t);
      CallSpeaksOf(w, tell, books, c, w.take(pool, c[i], w.clock(i)).1, i + 1, k, books(counts, here).0, t);
    }
  }

  lemma {:induction false} OthersAreNotReset(events: seq<TableEvent>, t: Target, u: Target)
    requires AllOf(events, t) && u != t
    ensures Resets(events, u) == 0
  {
    if events != [] {
      assert events[|events| - 1] in events;
      OthersAreNotReset(events[..|events| - 1], t, u);
    }
  }

  lemma OpenIsTold(warm: Replies, cold: Handshakes, t: Target, clock: nat -> nat, ranking: seq<NodeInfo>,
                   pool: PoolState, counts: Counts, o: Opened)
    requires o == OpenPooled(Actual(warm, cold, t, clock), ranking, pool, counts).call
    ensures o.tried <= |Tried(ranking)|
    ensures var told := Told(warm, cold, t, clock, Tried(ranking), pool, o.tried, counts);
            o.counts == TableFrom(counts, told) && o.grants == Resets(told, t)
  {
    CallIsItsEvents(warm, cold, t, clock, Tried(ranking), pool, counts, NEVER_REPORTED);
  }

  lemma ToldSpeaksOf(warm: Replies, cold: Handshakes, t: Target, clock: nat -> nat, c: seq<SocketAddr>,
                     pool: PoolState, k: nat, counts: Counts)
    requires k <= |c|
    ensures AllOf(Told(warm, cold, t, clock, c, pool, k, counts), t)
  {
    var tell := TellingOf(warm, cold, t);
    assert SpeaksOf(tell, t);
    CallSpeaksOf(Actual(warm, cold, t, clock), tell, BooksOf(STEP, t), c, pool, 0, k, counts, t);
  }

  /** An event tells the table what its counts become, and resets what it grants retries for. */
  lemma EventIsTold(rank: Ranker, s: Tables, pool: PoolState, e: PooledOpen.Event, t: Target)
    ensures var told := TellsTable(rank, s, pool, e);
            && Next(rank, s, pool, e).0.counts == TableFrom(s.counts, told)
            && Resets(told, t) == RetriesOf(rank, s, pool, e, t)
  {
    if e.Call? {
      var o, ranking := CallOf(rank, s, pool, e), rank(s.nodes);
      OpenIsTold(e.warm, e.cold, e.t, e.clock, ranking, pool, s.counts, o);
      ToldSpeaksOf(e.warm, e.cold, e.t, e.clock, Tried(ranking), pool, o.tried, s.counts);
      if e.t != t {
        OthersAreNotReset(Told(e.warm, e.cold, e.t, e.clock, Tried(ranking), pool, o.tried, s.counts), e.t, t);
      }
    }
  }

  // ----------------------------------------------------------------------- whole runs

  /** What has been told so far is a run of the table after which no request waits to reset `t`. */
  ghost predicate InStep(s: Tables, told: seq<TableEvent>, t: Target) {
    NoneWaits(t, told) && s.counts == Table(told)
  }

  lemma EventKeepsStep(rank: Ranker, s: Tables, pool: PoolState, e: PooledOpen.Event, sofar: seq<TableEvent>, t: Target)
    requires InStep(s, sofar, t)
    ensures InStep(Next(rank, s, pool, e).0, sofar + TellsTable(rank, s, pool, e), t)
  {
    EventIsTold(rank, s, pool, e, t);
    match e
    case Traffic(_) =>
      assert sofar + [] == sofar;
    case Call(warm, cold, u, clock) =>
      var c := Tried(rank(s.nodes));
      CallKeepsNoneWaiting(t, sofar, warm, cold, u, clock, c, pool, Min(CallOf(rank, s, pool, e).tried, |c|));
  }

  lemma Regroup(a: seq<TableEvent>, b: seq<TableEvent>, c: seq<TableEvent>)
    ensures a + (b + c) == a + b + c
  {
  }

  lemma {:induction false} RunKeepsStep(rank: Ranker, s: Tables, pool: PoolState, events: seq<PooledOpen.Event>,
                                        sofar: seq<TableEvent>, t: Target)
    requires InStep(s, sofar, t)
    ensures InStep(WithPool(rank, s, pool, events).0, sofar + RunTold(rank, s, pool, events), t)
    ensures Resets(RunTold(rank, s, pool, events), t) == Retries(rank, s, pool, events, t)
    decreases |events|
  {
    if events == [] {
      assert sofar + [] == sofar;
    } else {
      var n, told := Next(rank, s, pool, events[0]), TellsTable(rank, s, pool, events[0]);
      EventIsTold(rank, s, pool, events[0], t);
      EventKeepsStep(rank, s, pool, events[0], sofar, t);
      RunKeepsStep(rank, n.0, n.1, events[1..], sofar + told, t);
      ResetsOfSum(told, RunTold(rank, n.0, n.1, events[1..]), t);
      Regroup(sofar, told, RunTold(rank, n.0, n.1, events[1..]));
    }
  }

  /** The grants a run of the table counts are its resets and the requests still to reset. */
  lemma {:induction false} ViewCounts(t: Target, events: seq<TableEvent>)
    requires Run(t, events).Some?
    ensures var v := Run(t, events).value;
            v.grants == Resets(events, t) + v.pending && v.failures == Failures(events, t)
  {
    if events != [] {
      ViewCounts(t, events[..|events| - 1]);
      StepCounts(Run(t, events[..|events| - 1]).value, t, events[|events| - 1]);
    }
  }

  lemma StepCounts(v: View, t: Target, ev: TableEvent)
    requires Step(v, t, ev).Some?
    ensures var w := Step(v, t, ev).value;
            && w.grants - w.pending == v.grants - v.pending + (if ev == Reset(t) then 1 else 0)
            && w.failures == v.failures + if FailureOf(ev, t) then 1 else 0
  {
  }

  lemma WaitingForNoneIsPaid(t: Target, told: seq<TableEvent>)
    requires NoneWaits(t, told)
    ensures 3 * Resets(told, t) <= Failures(told, t)
  {
    ViewCounts(t, told);
    GrantsPerFailures(t, told, 1);
  }

  /**
   Calls made one after another, over any pool and with any traffic in between: the table is the
   one their outcomes tell of, and for every target three reports of a node that it is
   unreachable pay for each retry on another node.
   */
  lemma CallsPayForRetries(rank: Ranker, s: Tables, pool: PoolState, events: seq<PooledOpen.Event>, t: Target,
                           told: seq<TableEvent>)
    requires s.counts == map[] && told == RunTold(rank, s, pool, events)
    ensures WithPool(rank, s, pool, events).0.counts == Table(told)
    ensures 3 * Retries(rank, s, pool, events, t) <= Failures(told, t)
  {
    NothingWaits(t);
    RunKeepsStep(rank, s, pool, events, [], t);
    assert [] + told == told;
    WaitingForNoneIsPaid(t, told);
  }

  lemma NothingWaits(t: Target)
    ensures NoneWaits(t, [])
  {
    assert forall n :: 0 <= n <= 0 ==> PendingAt(t, [], n) <= 1;
  }

  // ------------------------------------------------------------------ three in a row

  /** The count of `t`, where a table has one that is no minute old. */
  predicate Stands(counts: Counts, t: Target, count: nat, at: nat) { t in counts && counts[t] == Entry(count, at) }

  lemma NextFailure(counts: Counts, t: Target, now: nat)
    requires |counts| < 100_000
    ensures t !in counts ==> Stands(Recorded(counts, t, now), t, 1, now)
    ensures t in counts && counts[t].at <= now < counts[t].at + 60 && counts[t].count < 3 ==>
              Stands(Recorded(counts, t, now), t, counts[t].count + 1, now)
    ensures t in counts ==> |Recorded(counts, t, now)| == |counts|
    ensures |Recorded(counts, t, now)| <= |counts| + 1
  {
    var after := Recorded(counts, t, now);
    assert after.Keys == counts.Keys + {t};
    if t in counts {
      assert after.Keys == counts.Keys;
    }
  }

  /** A call for a target that the best node cannot reach and the second can. */
  predicate BestFails(ranking: seq<NodeInfo>, cold: Handshakes, d: string) {
    && |ranking| >= 2 && cold(ranking[0].address) == Err(TargetUnreachable(d))
    && cold(ranking[1].address) == Ok(())
  }

  lemma RefusedCall(ranking: seq<NodeInfo>, cold: Handshakes, t: Target, clock: nat -> nat, counts: Counts, d: string)
    requires BestFails(ranking, cold, d) && !IsThird(counts, t, clock(0))
    ensures var o := Open(ranking, Judging(cold, t), clock, counts);
            o.result == Err(Refused(TargetUnreachable(d))) && o.counts == Recorded(counts, t, clock(0))
  {
    OwnFailure(counts, t, clock(0));
  }

  lemma RetriedCall(ranking: seq<NodeInfo>, cold: Handshakes, t: Target, clock: nat -> nat, counts: Counts, d: string)
    requires BestFails(ranking, cold, d) && IsThird(counts, t, clock(0))
    ensures var o := Open(ranking, Judging(cold, t), clock, counts);
            o.result == Ok(ranking[1].address) && o.tried == 2 && o.marks == [] && t !in o.counts
  {
    OwnFailure(counts, t, clock(0));
    var c, judge := Tried(ranking), Judging(cold, t);
    var after := Cleared(Recorded(counts, t, clock(0)), t);
    assert c[0] == ranking[0].address && c[1] == ranking[1].address;
    assert OpenFrom(c, judge, clock, 1, after, TargetUnreachable(d))
        == Opened(Ok(c[1]), [], Cleared(after, t), 1, 0);
  }

  /**
   Three calls within a minute for a target without a count, which the best node cannot reach and
   the second best can: two fail with the best node's report, the third returns the second best,
   and the target has no count again.
   */
  lemma ThirdCallMovesOn(ranking: seq<NodeInfo>, cold: Handshakes, t: Target, first: nat -> nat, second: nat -> nat,
                         third: nat -> nat, counts: Counts, d: string)
    requires BestFails(ranking, cold, d) && t !in counts && |counts| + 1 < 100_000
    requires first(0) <= second(0) <= third(0)
    requires second(0) < first(0) + 60 && third(0) < second(0) + 60
    ensures var judge := Judging(cold, t);
            var one := Open(ranking, judge, first, counts);
            var two := Open(ranking, judge, second, one.counts);
            var three := Open(ranking, judge, third, two.counts);
            && one.result == two.result == Err(Refused(TargetUnreachable(d)))
            && three.result == Ok(ranking[1].address) && three.tried == 2 && three.marks == [] && t !in three.counts
  {
    NextFailure(counts, t, first(0));
    RefusedCall(ranking, cold, t, first, counts, d);
    var one := Recorded(counts, t, first(0));
    NextFailure(one, t, second(0));
    RefusedCall(ranking, cold, t, second, one, d);
    var two := Recorded(one, t, second(0));
    NextFailure(two, t, third(0));
    RetriedCall(ranking, cold, t, third, two, d);
  }
}
