/**
 What calls do to the table of unreachable targets: exactly the events their outcomes stand for.
 So the accounting of grants holds of calls, and three failing calls buy a retry.
 */
module CallAccounts {
  import opened Wrappers
  import opened Addresses
  import opened Scheduling
  import opened Unreachable
  import opened OpenTarget
  import opened PooledOpen
  import Pool = ChannelPool

  type TableEvent = Unreachable.Event

  /** What one event makes of a table. */
  type Stepper = (Counts, TableEvent) -> Counts

  const STEP: Stepper := (counts, ev) => TableStep(counts, ev)

  function Folded(step: Stepper, counts: Counts, events: seq<TableEvent>): Counts {
    if events == [] then counts
    else step(Folded(step, counts, events[..|events| - 1]), events[|events| - 1])
  }

  lemma {:induction false} FoldedSum(step: Stepper, counts: Counts, a: seq<TableEvent>, b: seq<TableEvent>)
    ensures Folded(step, counts, a + b) == Folded(step, Folded(step, counts, a), b)
  {
    if b == [] {
      assert a + b == a;
    } else {
      assert (a + b)[..|a + b| - 1] == a + b[..|b| - 1];
      FoldedSum(step, counts, a, b[..|b| - 1]);
    }
  }

  /** The table after some events, from any table. */
  function TableFrom(counts: Counts, events: seq<TableEvent>): Counts { Folded(STEP, counts, events) }

  lemma {:induction false} TableIsFromEmpty(events: seq<TableEvent>)
    ensures TableFrom(map[], events) == Table(events)
  {
    if events != [] {
      TableIsFromEmpty(events[..|events| - 1]);
    }
  }

  // ------------------------------------------------------------------ one candidate

  /** A failure of `t` now would be its third or later in a row. */
  predicate IsThird(counts: Counts, t: Target, now: nat) {
    var after := TableStep(counts, Record(t, now));
    t in after && after[t].count >= 3
  }

  /**
   What the table is told of one candidate: an answer is a success, an unreachable target a
   failure, followed by a reset when it is the third; anything else is the node's own affair.
   */
  function EventsOf(outcome: Outcome, t: Target, now: nat, counts: Counts): seq<TableEvent> {
    match outcome
    case Ok(_) => [Success(t)]
    case Err(TargetUnreachable(_)) =>
      if IsThird(counts, t, now) then [Record(t, now), Reset(t)] else [Record(t, now)]
    case Err(_) => []
  }

  lemma FoldedOnce(step: Stepper, counts: Counts, ev: TableEvent)
    ensures Folded(step, counts, [ev]) == step(counts, ev)
  {
    assert [ev][..0] == [];
  }

  lemma FoldedTwice(step: Stepper, counts: Counts, ev: TableEvent, then_: TableEvent)
    ensures Folded(step, counts, [ev, then_]) == step(step(counts, ev), then_)
  {
    FoldedOnce(step, counts, ev);
    assert [ev, then_][..1] == [ev];
  }

  lemma EventsMake(outcome: Outcome, t: Target, now: nat, counts: Counts, after: Counts)
    requires after == Recorded(counts, t, now)
    ensures TableFrom(counts, EventsOf(outcome, t, now, counts))
         == if outcome.Ok? then Cleared(counts, t)
            else if !IsUnreachable(outcome) then counts
            else if IsThird(counts, t, now) then Cleared(after, t) else after
  {
    FoldedOnce(STEP, counts, Success(t));
    FoldedOnce(STEP, counts, Record(t, now));
    FoldedTwice(STEP, counts, Record(t, now), Reset(t));
  }

  lemma AttemptIsItsEvents(a: SocketAddr, outcome: Outcome, t: Target, now: nat, counts: Counts)
    ensures var v := AttemptAt(a, outcome, t, now, counts);
            && v.counts == TableFrom(counts, EventsOf(outcome, t, now, counts))
            && (IsRetry(v) <==> IsUnreachable(outcome) && IsThird(counts, t, now))
  {
    EventsMake(outcome, t, now, counts, Recorded(counts, t, now));
    AttemptMakes(a, outcome, t, now, counts, Recorded(counts, t, now));
  }

  lemma AttemptMakes(a: SocketAddr, outcome: Outcome, t: Target, now: nat, counts: Counts, after: Counts)
    requires after == Recorded(counts, t, now)
    ensures AttemptAt(a, outcome, t, now, counts).counts
         == if outcome.Ok? then Cleared(counts, t)
            else if !IsUnreachable(outcome) then counts
            else if IsThird(counts, t, now) then Cleared(after, t) else after
    ensures IsRetry(AttemptAt(a, outcome, t, now, counts)) <==> IsUnreachable(outcome) && IsThird(counts, t, now)
  {
  }

  // ----------------------------------------------------------------------- one call

  /** What the table is told of a candidate, asked through the pool as it is. */
  type Telling = (PoolState, SocketAddr, nat, Counts) -> seq<TableEvent>

  /** What some events make of a table, and how often they reset the target of a call. */
  type Books = (Counts, seq<TableEvent>) -> (Counts, nat)

  function TellingOf(warm: Replies, cold: Handshakes, t: Target): Telling {
    (pool: PoolState, a: SocketAddr, now: nat, counts: Counts) =>
      EventsOf(Answer(pool, a, now, warm, cold), t, now, counts)
  }

  /** How often `t` is reset. */
  function Resets(events: seq<TableEvent>, t: Target): nat {
    if events == [] then 0
    else Resets(events[..|events| - 1], t) + if events[|events| - 1] == Reset(t) then 1 else 0
  }

  function BooksOf(step: Stepper, t: Target): Books {
    (counts: Counts, events: seq<TableEvent>) => (Folded(step, counts, events), Resets(events, t))
  }

  /** What the table is told by candidates `i` to `k`. */
  function CallEvents(w: Ways, tell: Telling, books: Books, c: seq<SocketAddr>, pool: PoolState, i: nat, k: nat,
                      counts: Counts): seq<TableEvent>
    requires k <= |c|
    decreases k - i
  {
    if i >= k then []
    else
      var here := tell(pool, c[i], w.clock(i), counts);
      here + CallEvents(w, tell, books, c, w.take(pool, c[i], w.clock(i)).1, i + 1, k, books(counts, here).0)
  }

  /** Books of one run after another. */
  ghost predicate Additive(books: Books) {
    && (forall counts :: books(counts, []) == (counts, 0))
    && forall counts, a, b :: AddUp(books, counts, a, b)
  }

  predicate AddUp(books: Books, counts: Counts, a: seq<TableEvent>, b: seq<TableEvent>) {
    var (mid, n) := books(counts, a);
    var (end, m) := books(mid, b);
    books(counts, a + b) == (end, n + m)
  }

  lemma {:induction false} ResetsOfSum(a: seq<TableEvent>, b: seq<TableEvent>, t: Target)
    ensures Resets(a + b, t) == Resets(a, t) + Resets(b, t)
  {
    if b == [] {
      assert a + b == a;
    } else {
      assert (a + b)[..|a + b| - 1] == a + b[..|b| - 1];
      ResetsOfSum(a, b[..|b| - 1], t);
    }
  }

  lemma BooksAddUp(step: Stepper, t: Target)
    ensures Additive(BooksOf(step, t))
  {
    var books := BooksOf(step, t);
    forall counts, a, b ensures AddUp(books, counts, a, b) {
      FoldedSum(step, counts, a, b);
      ResetsOfSum(a, b, t);
    }
  }

  /** The verdict leaves the table as the events say, and is a retry where they reset. */
  predicate ToldTurn(v: Attempt, books: Books, counts: Counts, here: seq<TableEvent>) {
    books(counts, here) == (v.counts, if IsRetry(v) then 1 else 0)
  }

  ghost predicate Tells(w: Ways, tell: Telling, books: Books) {
    forall pool, a, now, counts ::
      ToldTurn(TurnAt(w, a, now, pool, counts).attempt, books, counts, tell(pool, a, now, counts))
  }

  lemma ResetsOfEvents(outcome: Outcome, t: Target, now: nat, counts: Counts)
    ensures Resets(EventsOf(outcome, t, now, counts), t)
         == if IsUnreachable(outcome) && IsThird(counts, t, now) then 1 else 0
  {
    assert Resets([], t) == 0 && [Success(t)][..0] == [] && [Record(t, now)][..0] == [];
    assert [Record(t, now), Reset(t)][..1] == [Record(t, now)];
  }

  lemma TurnIsItsEvents(warm: Replies, cold: Handshakes, t: Target, clock: nat -> nat, pool: PoolState,
                        a: SocketAddr, now: nat, counts: Counts)
    ensures ToldTurn(TurnAt(Actual(warm, cold, t, clock), a, now, pool, counts).attempt, BooksOf(STEP, t), counts,
                     TellingOf(warm, cold, t)(pool, a, now, counts))
  {
    var outcome := Answer(pool, a, now, warm, cold);
    TurnIsAnswer(warm, cold, t, clock, a, now, pool, counts);
    AttemptIsItsEvents(a, outcome, t, now, counts);
    ResetsOfEvents(outcome, t, now, counts);
  }

  lemma ActualTells(warm: Replies, cold: Handshakes, t: Target, clock: nat -> nat)
    ensures Tells(Actual(warm, cold, t, clock), TellingOf(warm, cold, t), BooksOf(STEP, t))
  {
    var w, tell, books := Actual(warm, cold, t, clock), TellingOf(warm, cold, t), BooksOf(STEP, t);
    forall pool, a, now, counts
      ensures ToldTurn(TurnAt(w, a, now, pool, counts).attempt, books, counts, tell(pool, a, now, counts))
    {
      TurnIsItsEvents(warm, cold, t, clock, pool, a, now, counts);
    }
  }

  /** What a call made of candidate `i` and the later ones is what these were told. */
  predicate Accounts(w: Ways, tell: Telling, books: Books, c: seq<SocketAddr>, pool: PoolState, i: nat,
                     counts: Counts, o: Opened) {
    && i + o.tried <= |c|
    && books(counts, CallEvents(w, tell, books, c, pool, i, i + o.tried, counts)) == (o.counts, o.grants)
  }

  lemma CallGoesOn(w: Ways, tell: Telling, books: Books, c: seq<SocketAddr>, pool: PoolState, i: nat, counts: Counts,
                   v: Attempt, left: PoolState, rest: Opened, here: seq<TableEvent>)
    requires i < |c| && here == tell(pool, c[i], w.clock(i), counts) && left == w.take(pool, c[i], w.clock(i)).1
    requires Additive(books) && v.Skip? && ToldTurn(v, books, counts, here)
    requires Accounts(w, tell, books, c, left, i + 1, v.counts, rest)
    ensures Accounts(w, tell, books, c, pool, i, counts, Past(c[i], v.error, rest))
  {
    assert AddUp(books, counts, here, CallEvents(w, tell, books, c, left, i + 1, i + 1 + rest.tried, v.counts));
  }

  lemma CallStops(w: Ways, tell: Telling, books: Books, c: seq<SocketAddr>, pool: PoolState, i: nat, counts: Counts,
                  v: Attempt, here: seq<TableEvent>)
    requires i < |c| && here == tell(pool, c[i], w.clock(i), counts)
    requires v.Stop? && ToldTurn(v, books, counts, here)
    ensures Accounts(w, tell, books, c, pool, i, counts, Opened(v.result, [], v.counts, 1, 0))
  {
    assert here + [] == here;
  }

  lemma TurnLeaves(w: Ways, a: SocketAddr, now: nat, pool: PoolState, counts: Counts)
    ensures TurnAt(w, a, now, pool, counts).pool == w.take(pool, a, now).1
  {
  }

  lemma {:induction false} CallIsTold(w: Ways, tell: Telling, books: Books, c: seq<SocketAddr>, pool: PoolState,
                                      i: nat, counts: Counts, last: ConnectError)
    requires Tells(w, tell, books) && Additive(books) && i <= |c|
    ensures Accounts(w, tell, books, c, pool, i, counts, PooledFrom(w, c, pool, i, counts, last).call)
    decreases |c| - i, 1
  {
    if i < |c| {
      var turn := TurnAt(w, c[i], w.clock(i), pool, counts);
      assert ToldTurn(turn.attempt, books, counts, tell(pool, c[i], w.clock(i), counts));
      TurnLeaves(w, c[i], w.clock(i), pool, counts);
      CallGivenTurn(w, tell, books, c, pool, i, counts, last, turn);
    }
  }

  lemma {:induction false} CallGivenTurn(w: Ways, tell: Telling, books: Books, c: seq<SocketAddr>, pool: PoolState,
                                         i: nat, counts: Counts, last: ConnectError, turn: Turn)
    requires Tells(w, tell, books) && Additive(books)
    requires i < |c| && turn == TurnAt(w, c[i], w.clock(i), pool, counts)
    requires turn.pool == w.take(pool, c[i], w.clock(i)).1
    requires ToldTurn(turn.attempt, books, counts, tell(pool, c[i], w.clock(i), counts))
    ensures Accounts(w, tell, books, c, pool, i, counts, PooledFrom(w, c, pool, i, counts, last).call)
    decreases |c| - i, 0
  {
    var v, here := turn.attempt, tell(pool, c[i], w.clock(i), counts);
    LoopTakesTurn(w, c, pool, i, counts, last, turn);
    if v.Skip? {
      CallIsTold(w, tell, books, c, turn.pool, i + 1, v.counts, v.error);
      var rest := PooledFrom(w, c, turn.pool, i + 1, v.counts, v.error).call;
      CallGoesOn(w, tell, books, c, pool, i, counts, v, turn.pool, rest, here);
    } else {
      CallStops(w, tell, books, c, pool, i, counts, v, here);
    }
  }

  /** What the table is told by the first `k` candidates of a call. */
  function Told(warm: Replies, cold: Handshakes, t: Target, clock: nat -> nat, c: seq<SocketAddr>, pool: PoolState,
                k: nat, counts: Counts): seq<TableEvent>
    requires k <= |c|
  {
    CallEvents(Actual(warm, cold, t, clock), TellingOf(warm, cold, t), BooksOf(STEP, t), c, pool, 0, k, counts)
  }

  /**
   The counts a call leaves are the table after the events its candidates' outcomes stand for,
   and its retries are the resets among them, whatever the pool holds and answers.
   */
  lemma CallIsItsEvents(warm: Replies, cold: Handshakes, t: Target, clock: nat -> nat, c: seq<SocketAddr>,
                        pool: PoolState, counts: Counts, last: ConnectError)
    ensures var o := PooledFrom(Actual(warm, cold, t, clock), c, pool, 0, counts, last).call;
            && o.tried <= |c|
            && var told := Told(warm, cold, t, clock, c, pool, o.tried, counts);
               o.counts == TableFrom(counts, told) && o.grants == Resets(told, t)
  {
    ActualTells(warm, cold, t, clock);
    BooksAddUp(STEP, t);
    CallIsTold(Actual(warm, cold, t, clock), TellingOf(warm, cold, t), BooksOf(STEP, t), c, pool, 0, counts, last);
  }

  // -------------------------------------------------------------- calls one after another

  /** The events are a run as seen from `t`, with at most one request between grant and reset, and none at the end. */
  ghost predicate NoneWaits(t: Target, events: seq<TableEvent>) {
    && Run(t, events).Some? && Run(t, events).value.pending == 0
    && AtMostPending(t, events, 1)
  }

  lemma PrefixPending(t: Target, events: seq<TableEvent>, ev: TableEvent, n: nat)
    requires n <= |events|
    ensures PendingAt(t, events + [ev], n) == PendingAt(t, events, n)
  {
    assert (events + [ev])[..n] == events[..n];
  }

  lemma PendingOfMore(t: Target, events: seq<TableEvent>, ev: TableEvent, v: View, next: View)
    requires AtMostPending(t, events, 1) && Run(t, events) == Some(v)
    requires Step(v, t, ev) == Some(next) && next.pending <= 1
    ensures Run(t, events + [ev]) == Some(next) && AtMostPending(t, events + [ev], 1)
  {
    var more := events + [ev];
    assert more[..|more| - 1] == events && more[..|more|] == more;
    forall n | 0 <= n <= |more| ensures PendingAt(t, more, n) <= 1 {
      if n <= |events| {
        PrefixPending(t, events, ev, n);
      }
    }
  }

  lemma RecordIsGrantedIfThird(v: View, t: Target, u: Target, now: nat)
    ensures Step(v, t, Record(u, now)).Some?
    ensures Step(v, t, Record(u, now)).value.pending
         == v.pending + if u == t && IsThird(v.counts, t, now) then 1 else 0
  {
    OwnFailure(v.counts, t, now);
  }

  lemma OneMoreKept(t: Target, events: seq<TableEvent>, ev: TableEvent)
    requires NoneWaits(t, events) && !ev.Reset?
    requires ev.Record? && ev.t == t ==> !IsThird(Table(events), t, ev.now)
    ensures NoneWaits(t, events + [ev])
  {
    var v := Run(t, events).value;
    RunFollowsTable(t, events);
    if ev.Record? {
      RecordIsGrantedIfThird(v, t, ev.t, ev.now);
    }
    PendingOfMore(t, events, ev, v, Step(v, t, ev).value);
  }

  lemma GrantAndResetKept(t: Target, u: Target, events: seq<TableEvent>, now: nat)
    requires NoneWaits(t, events) && IsThird(Table(events), u, now)
    ensures NoneWaits(t, events + [Record(u, now), Reset(u)])
  {
    var v := Run(t, events).value;
    RunFollowsTable(t, events);
    RecordIsGrantedIfThird(v, t, u, now);
    var granted := Step(v, t, Record(u, now)).value;
    PendingOfMore(t, events, Record(u, now), v, granted);
    PendingOfMore(t, events + [Record(u, now)], Reset(u), granted, Step(granted, t, Reset(u)).value);
    assert events + [Record(u, now)] + [Reset(u)] == events + [Record(u, now), Reset(u)];
  }

  /** What one candidate tells the table leaves no request waiting to reset. */
  lemma EventsKeepNoneWaiting(t: Target, events: seq<TableEvent>, outcome: Outcome, u: Target, now: nat)
    requires NoneWaits(t, events)
    ensures NoneWaits(t, events + EventsOf(outcome, u, now, Table(events)))
  {
    match outcome
    case Ok(_) => OneMoreKept(t, events, Success(u));
    case Err(TargetUnreachable(_)) =>
      if IsThird(Table(events), u, now) {
        GrantAndResetKept(t, u, events, now);
      } else {
        OneMoreKept(t, events, Record(u, now));
      }
    case Err(_) => assert events + [] == events;
  }

  /** `good` holds of what has happened so far, and any candidate's events keep it so. */
  ghost predicate Keeps(tell: Telling, good: seq<TableEvent> -> bool, at: seq<TableEvent> -> Counts) {
    forall pool, a, now, events :: KeptHere(tell, good, at, pool, a, now, events)
  }

  ghost predicate KeptHere(tell: Telling, good: seq<TableEvent> -> bool, at: seq<TableEvent> -> Counts,
                           pool: PoolState, a: SocketAddr, now: nat, events: seq<TableEvent>) {
    good(events) ==> good(events + tell(pool, a, now, at(events)))
  }

  /** `at` is the table after what has happened so far. */
  ghost predicate Tracks(books: Books, at: seq<TableEvent> -> Counts) {
    forall events, here :: TracksHere(books, at, events, here)
  }

  predicate TracksHere(books: Books, at: seq<TableEvent> -> Counts, events: seq<TableEvent>, here: seq<TableEvent>) {
    at(events + here) == books(at(events), here).0
  }

  lemma {:induction false} CallKeeps(w: Ways, tell: Telling, books: Books, good: seq<TableEvent> -> bool,
      at: seq<TableEvent> -> Counts, c: seq<SocketAddr>, pool: PoolState, i: nat, k: nat, events: seq<TableEvent>)
    requires Keeps(tell, good, at) && Tracks(books, at) && good(events) && k <= |c|
    ensures good(events + CallEvents(w, tell, books, c, pool, i, k, at(events)))
    decreases k - i
  {
    if i >= k {
      assert events + [] == events;
    } else {
      var here := tell(pool, c[i], w.clock(i), at(events));
      var left := w.take(pool, c[i], w.clock(i)).1;
      assert KeptHere(tell, good, at, pool, c[i], w.clock(i), events) && TracksHere(books, at, events, here);
      CallKeeps(w, tell, books, good, at, c, left, i + 1, k, events + here);
      KeptSoFar(w, tell, books, good, c, pool, i, k, at(events), events, here,
                CallEvents(w, tell, books, c, left, i + 1, k, at(events + here)));
    }
  }

  lemma KeptSoFar(w: Ways, tell: Telling, books: Books, good: seq<TableEvent> -> bool, c: seq<SocketAddr>,
                  pool: PoolState, i: nat, k: nat, counts: Counts, events: seq<TableEvent>,
                  here: seq<TableEvent>, later: seq<TableEvent>)
    requires i < k <= |c| && here == tell(pool, c[i], w.clock(i), counts) && good(events + here + later)
    requires later == CallEvents(w, tell, books, c, w.take(pool, c[i], w.clock(i)).1, i + 1, k, books(counts, here).0)
    ensures good(events + CallEvents(w, tell, books, c, pool, i, k, counts))
  {
    assert events + here + later == events + (here + later);
  }

  lemma TableTracks(t: Target, at: seq<TableEvent> -> Counts)
    requires at == ((events: seq<TableEvent>) => TableFrom(map[], events))
    ensures Tracks(BooksOf(STEP, t), at)
  {
    forall events, here ensures TracksHere(BooksOf(STEP, t), at, events, here) {
      FoldedSum(STEP, map[], events, here);
    }
  }

  /** A call leaves no request waiting to reset, and adds its events to the table's. */
  lemma CallKeepsNoneWaiting(u: Target, events: seq<TableEvent>, warm: Replies, cold: Handshakes, t: Target,
                         clock: nat -> nat, c: seq<SocketAddr>, pool: PoolState, k: nat)
    requires NoneWaits(u, events) && k <= |c|
    ensures var told := Told(warm, cold, t, clock, c, pool, k, Table(events));
            NoneWaits(u, events + told) && Table(events + told) == TableFrom(Table(events), told)
  {
    var good: seq<TableEvent> -> bool := sofar => NoneWaits(u, sofar);
    var at: seq<TableEvent> -> Counts := sofar => TableFrom(map[], sofar);
    var tell := TellingOf(warm, cold, t);
    forall p, a, now, sofar ensures KeptHere(tell, good, at, p, a, now, sofar) {
      if good(sofar) {
        TableIsFromEmpty(sofar);
        EventsKeepNoneWaiting(u, sofar, Answer(p, a, now, warm, cold), t, now);
      }
    }
    TableTracks(t, at);
    TableIsFromEmpty(events);
    CallKeeps(Actual(warm, cold, t, clock), tell, BooksOf(STEP, t), good, at, c, pool, 0, k, events);
    var told := Told(warm, cold, t, clock, c, pool, k, Table(events));
    TableIsFromEmpty(events + told);
    FoldedSum(STEP, map[], events, told);
  }
}
