/**
 Opening a target with the pool in front: each candidate's oldest warm channel is asked first,
 and whatever it answers short of success is forgotten.
 */
module PooledOpen {
  import opened Wrappers
  import opened Addresses
  import opened Scheduling
  import opened Unreachable
  import opened OpenTarget
  import Pool = ChannelPool

  type PoolState = Pool.PoolState

  /** What a checkout hands out and leaves behind. */
  type Take = (PoolState, SocketAddr, nat) -> (Option<Pool.Channel>, PoolState)

  const CHECKOUT: Take := (pool, a, now) => (Pool.Taken(pool, a, now), Pool.AfterCheckout(pool, a, now))

  /** What a request for the target on each warm channel would yield: any outcome, of any kind. */
  type Replies = Pool.Channel -> Outcome

  /** How candidates are tried: the pool they check out from and the judge of fresh handshakes. */
  datatype Ways = Ways(take: Take, warm: Replies, judge: Judge, t: Target, clock: nat -> nat)

  /** One candidate: its verdict, the pool it leaves and the channel it used up. */
  datatype Turn = Turn(attempt: Attempt, pool: PoolState, used: Option<Pool.Channel>)

  function TurnAt(w: Ways, a: SocketAddr, now: nat, pool: PoolState, counts: Counts): Turn {
    var (used, left) := w.take(pool, a, now);
    Turn(
      match used
      case Some(channel) =>
        (match w.warm(channel)
         case Ok(_) => Stop(Ok(a), Cleared(counts, w.t))
         case Err(_) => w.judge(a, now, counts))
      case None => w.judge(a, now, counts),
      left,
      used)
  }

  datatype Pooled = Pooled(call: Opened, pool: PoolState, used: seq<Pool.Channel>)

  function Listed(channel: Option<Pool.Channel>): seq<Pool.Channel> {
    if channel.Some? then [channel.value] else []
  }

  /** The candidate loop from candidate `i` on. */
  function PooledFrom(w: Ways, c: seq<SocketAddr>, pool: PoolState, i: nat, counts: Counts, last: ConnectError): Pooled
    decreases |c| - i
  {
    if i >= |c| then Pooled(Opened(Err(Refused(last)), [], counts, 0, 0), pool, [])
    else
      var turn := TurnAt(w, c[i], w.clock(i), pool, counts);
      match turn.attempt
      case Stop(result, after) => Pooled(Opened(result, [], after, 1, 0), turn.pool, Listed(turn.used))
      case Skip(e, after) =>
        var rest := PooledFrom(w, c, turn.pool, i + 1, after, e);
        Pooled(Past(c[i], e, rest.call), rest.pool, Listed(turn.used) + rest.used)
  }

  function OpenPooled(w: Ways, ranking: seq<NodeInfo>, pool: PoolState, counts: Counts): Pooled {
    if ranking == [] then Pooled(Opened(Err(NoAvailableNodes), [], counts, 0, 0), pool, [])
    else PooledFrom(w, Tried(ranking), pool, 0, counts, NEVER_REPORTED)
  }

  // --------------------------------------------------------------- in place

  /** What the program does: the pool's own checkout, and fresh handshakes judged as they are. */
  function Actual(warm: Replies, cold: Handshakes, t: Target, clock: nat -> nat): Ways {
    Ways(CHECKOUT, warm, Judging(cold, t), t, clock)
  }

  /** Time does not go back during a call, nor behind what the pool has seen. */
  ghost predicate Ticks(clock: nat -> nat, from: nat) {
    from <= clock(0) && forall i: nat, j: nat :: i <= j ==> clock(i) <= clock(j)
  }

  /** What a candidate's own attempt does to the table and to the node's status. */
  method TryFresh(scheduler: Scheduler, table: UnreachableTable, a: SocketAddr, cold: Handshakes, now: nat, t: Target)
    returns (v: Attempt)
    requires scheduler.Valid() && |table.counts| <= MAX_ENTRIES
    modifies scheduler`nodes, table
    ensures scheduler.Valid() && |table.counts| <= MAX_ENTRIES
    ensures v == AttemptAt(a, cold(a), t, now, old(table.counts)) && table.counts == v.counts
    ensures scheduler.nodes == Marked(old(scheduler.nodes), Blamed(a, v))
  {
    assert Marked(scheduler.nodes, []) == scheduler.nodes;
    match cold(a) {
      case Ok(_) =>
        ClearedShrinks(table.counts, t);
        table.Clear(t);
        v := Stop(Ok(a), table.counts);
      case Err(TargetUnreachable(d)) =>
        var retry := table.RecordAndShouldFailover(t, now);
        if retry {
          v := Skip(TargetUnreachable(d), table.counts);
        } else {
          v := Stop(Err(Refused(TargetUnreachable(d))), table.counts);
        }
      case Err(ProtocolError(d)) =>
        v := Stop(Err(Refused(ProtocolError(d))), table.counts);
      case Err(NodeFault(d)) =>
        scheduler.MarkNodeOffline(a);
        v := Skip(NodeFault(d), table.counts);
    }
  }

  /** A candidate: a warm channel if the pool has one, and a fresh handshake unless it answers. */
  method TryNode(scheduler: Scheduler, table: UnreachableTable, channels: Pool.Pool, a: SocketAddr,
                 warm: Replies, cold: Handshakes, clock: nat -> nat, now: nat, t: Target)
    returns (v: Attempt, ghost used: Option<Pool.Channel>)
    requires scheduler.Valid() && |table.counts| <= MAX_ENTRIES && channels.Valid() && channels.clock <= now
    modifies scheduler`nodes, table, channels
    ensures scheduler.Valid() && |table.counts| <= MAX_ENTRIES && channels.Valid() && channels.clock == now
    ensures Turn(v, channels.Value(), used)
         == TurnAt(Actual(warm, cold, t, clock), a, now, old(channels.Value()), old(table.counts))
    ensures table.counts == v.counts
    ensures scheduler.nodes == Marked(old(scheduler.nodes), Blamed(a, v))
  {
    var channel := channels.Checkout(a, now);
    used := channel;
    if channel.Some? {
      match warm(channel.value) {
        case Ok(_) =>
          assert Marked(scheduler.nodes, []) == scheduler.nodes;
          ClearedShrinks(table.counts, t);
          table.Clear(t);
          return Stop(Ok(a), table.counts), used;
        case Err(_) =>
          // stale: dropped without a trace
      }
    }
    v := TryFresh(scheduler, table, a, cold, now, t);
  }

  /** `whole` is what has been marked and used so far followed by `rest`. */
  ghost predicate Continues(whole: Pooled, marks: seq<SocketAddr>, used: seq<Pool.Channel>, rest: Pooled) {
    && whole.call.result == rest.call.result && whole.call.counts == rest.call.counts
    && whole.call.marks == marks + rest.call.marks
    && whole.pool == rest.pool && whole.used == used + rest.used
  }

  /** What the loop makes of the turn of candidate `i`. */
  lemma LoopTakesTurn(w: Ways, c: seq<SocketAddr>, pool: PoolState, i: nat, counts: Counts, last: ConnectError,
                      turn: Turn)
    requires i < |c| && turn == TurnAt(w, c[i], w.clock(i), pool, counts)
    ensures turn.attempt.Stop? ==>
              PooledFrom(w, c, pool, i, counts, last)
              == Pooled(Opened(turn.attempt.result, [], turn.attempt.counts, 1, 0), turn.pool, Listed(turn.used))
    ensures turn.attempt.Skip? ==>
              var rest := PooledFrom(w, c, turn.pool, i + 1, turn.attempt.counts, turn.attempt.error);
              PooledFrom(w, c, pool, i, counts, last)
              == Pooled(Past(c[i], turn.attempt.error, rest.call), rest.pool, Listed(turn.used) + rest.used)
  {
  }

  lemma StopsHere(whole: Pooled, marks: seq<SocketAddr>, used: seq<Pool.Channel>, turn: Turn, here: Pooled)
    requires turn.attempt.Stop? && Continues(whole, marks, used, here)
    requires here
          == Pooled(Opened(turn.attempt.result, [], turn.attempt.counts, 1, 0), turn.pool, Listed(turn.used))
    ensures whole.call.result == turn.attempt.result && whole.call.counts == turn.attempt.counts
    ensures whole.call.marks == marks && whole.pool == turn.pool && whole.used == used + Listed(turn.used)
  {
    assert marks + [] == marks;
  }

  lemma ContinuesPast(whole: Pooled, marks: seq<SocketAddr>, used: seq<Pool.Channel>, a: SocketAddr, turn: Turn,
                      rest: Pooled, here: Pooled)
    requires turn.attempt.Skip? && Continues(whole, marks, used, here)
    requires here == Pooled(Past(a, turn.attempt.error, rest.call), rest.pool, Listed(turn.used) + rest.used)
    ensures Continues(whole, marks + Blamed(a, turn.attempt), used + Listed(turn.used), rest)
  {
    var blamed := Blamed(a, turn.attempt);
    assert marks + (blamed + rest.call.marks) == marks + blamed + rest.call.marks;
    assert used + (Listed(turn.used) + rest.used) == used + Listed(turn.used) + rest.used;
  }

  lemma MarkedInTurn(nodes: map<SocketAddr, NodeInfo>, marks: seq<SocketAddr>, more: seq<SocketAddr>)
    ensures Marked(Marked(nodes, marks), more) == Marked(nodes, marks + more)
  {
  }

  /** The candidate loop. */
  method TryCandidates(scheduler: Scheduler, table: UnreachableTable, channels: Pool.Pool, tried: seq<SocketAddr>,
                       warm: Replies, cold: Handshakes, clock: nat -> nat, t: Target)
    returns (r: Result<SocketAddr, OpenError>, ghost used: seq<Pool.Channel>)
    requires scheduler.Valid() && |table.counts| <= MAX_ENTRIES && channels.Valid() && Ticks(clock, channels.clock)
    modifies scheduler`nodes, table, channels
    ensures scheduler.Valid() && |table.counts| <= MAX_ENTRIES && channels.Valid()
    ensures var w := Actual(warm, cold, t, clock);
      var o := PooledFrom(w, tried, old(channels.Value()), 0, old(table.counts), NEVER_REPORTED);
      && r == o.call.result && table.counts == o.call.counts && channels.Value() == o.pool && used == o.used
      && scheduler.nodes == Marked(old(scheduler.nodes), o.call.marks)
  {
    var last := NEVER_REPORTED;
    ghost var marks: seq<SocketAddr> := [];
    ghost var w := Actual(warm, cold, t, clock);
    ghost var whole := PooledFrom(w, tried, channels.Value(), 0, table.counts, last);
    used := [];
    NothingYet(whole, scheduler.nodes);
    for i := 0 to |tried|
      invariant scheduler.Valid() && |table.counts| <= MAX_ENTRIES
      invariant channels.Valid() && channels.clock <= clock(i)
      invariant scheduler.nodes == Marked(old(scheduler.nodes), marks)
      invariant Continues(whole, marks, used, PooledFrom(w, tried, channels.Value(), i, table.counts, last))
    {
      ghost var pool, counts := channels.Value(), table.counts;
      var v, channel := TryNode(scheduler, table, channels, tried[i], warm, cold, clock, clock(i), t);
      ghost var turn, here := Turn(v, channels.Value(), channel), PooledFrom(w, tried, pool, i, counts, last);
      LoopTakesTurn(w, tried, pool, i, counts, last, turn);
      MarkedInTurn(old(scheduler.nodes), marks, Blamed(tried[i], v));
      ghost var before := used;
      used := used + Listed(channel);
      if v.Stop? {
        StopsHere(whole, marks, before, turn, here);
        return v.result, used;
      }
      ghost var rest := PooledFrom(w, tried, turn.pool, i + 1, v.counts, v.error);
      ContinuesPast(whole, marks, before, tried[i], turn, rest, here);
      last, marks := v.error, marks + Blamed(tried[i], v);
      assert clock(i) <= clock(i + 1);
    }
    assert marks + [] == marks && used + [] == used;
    r := Err(Refused(last));
  }

  lemma NothingYet(whole: Pooled, nodes: map<SocketAddr, NodeInfo>)
    ensures Continues(whole, [], [], whole) && Marked(nodes, []) == nodes
  {
    assert [] + whole.call.marks == whole.call.marks && [] + whole.used == whole.used;
  }

  /** A whole call: rank the nodes, then try the best. */
  method OpenThrough(scheduler: Scheduler, table: UnreachableTable, channels: Pool.Pool, order: seq<SocketAddr>,
                     warm: Replies, cold: Handshakes, clock: nat -> nat, t: Target)
    returns (r: Result<SocketAddr, OpenError>, ghost used: seq<Pool.Channel>)
    requires scheduler.Valid() && Enumerates(order, scheduler.nodes) && |table.counts| <= MAX_ENTRIES
    requires channels.Valid() && Ticks(clock, channels.clock)
    modifies scheduler`nodes, table, channels
    ensures forall ranking :: IsRanking(scheduler.score, old(scheduler.nodes), ranking) ==>
              var o := OpenPooled(Actual(warm, cold, t, clock), ranking, old(channels.Value()), old(table.counts));
              && r == o.call.result && table.counts == o.call.counts && channels.Value() == o.pool && used == o.used
              && scheduler.nodes == Marked(old(scheduler.nodes), o.call.marks)
    ensures scheduler.Valid() && |table.counts| <= MAX_ENTRIES && channels.Valid()
  {
    var candidates := scheduler.GetNodesByPriority(order);
    forall ranking | IsRanking(scheduler.score, scheduler.nodes, ranking) ensures ranking == candidates {
      RankingIsUnique(scheduler.score, scheduler.nodes, ranking, candidates);
    }
    if candidates == [] {
      assert Marked(scheduler.nodes, []) == scheduler.nodes;
      return Err(NoAvailableNodes), [];
    }
    r, used := TryCandidates(scheduler, table, channels, Tried(candidates), warm, cold, clock, t);
  }

  // ------------------------------------------------------- the pool is never noticed

  predicate Failing(slot: seq<Pool.Idle>, warm: Replies) {
    forall e <- slot :: warm(e.channel).Err?
  }

  /** Every idle channel fails, each in its own way: unreachable target, protocol error or fault. */
  ghost predicate Stale(pool: PoolState, warm: Replies) {
    forall n: SocketAddr :: n in pool.inner ==> Failing(pool.inner[n], warm)
  }

  lemma {:induction false} LiveIsSome(slot: seq<Pool.Idle>, now: nat)
    ensures forall e <- Pool.Live(slot, now) :: e in slot
  {
    if slot != [] {
      LiveIsSome(slot[1..], now);
    }
  }

  /** A stale pool hands out only channels that fail, and stays stale. */
  lemma StaleTakes(pool: PoolState, a: SocketAddr, now: nat, warm: Replies)
    requires Stale(pool, warm)
    ensures Pool.Taken(pool, a, now).Some? ==> warm(Pool.Taken(pool, a, now).value).Err?
    ensures Stale(Pool.AfterCheckout(pool, a, now), warm)
  {
    var slot := Pool.SlotOf(pool.inner, a);
    var after := Pool.AfterCheckout(pool, a, now);
    LiveIsSome(slot, now);
    if Pool.Live(slot, now) != [] {
      assert Pool.Live(slot, now)[0] in slot;
    }
    forall n: SocketAddr | n in after.inner ensures Failing(after.inner[n], warm) {
      assert n in pool.inner && Failing(pool.inner[n], warm);
      assert forall e <- after.inner[n] :: e in pool.inner[n];
    }
  }

  /** Taking from a stale pool: what comes out fails, and what is left is stale. */
  ghost predicate TakesStale(w: Ways) {
    forall pool, a, now :: Stale(pool, w.warm) ==> StaleTurn(w.take(pool, a, now), w.warm)
  }

  ghost predicate StaleTurn(taken: (Option<Pool.Channel>, PoolState), warm: Replies) {
    (taken.0.Some? ==> warm(taken.0.value).Err?) && Stale(taken.1, warm)
  }

  lemma CheckoutTakesStale(warm: Replies, cold: Handshakes, t: Target, clock: nat -> nat)
    ensures TakesStale(Actual(warm, cold, t, clock))
  {
    var w := Actual(warm, cold, t, clock);
    forall pool, a, now | Stale(pool, warm) ensures StaleTurn(w.take(pool, a, now), warm) {
      StaleTakes(pool, a, now, warm);
    }
  }

  lemma {:induction false} StaleCallsAreBare(w: Ways, c: seq<SocketAddr>, pool: PoolState, i: nat, counts: Counts,
                                             last: ConnectError)
    requires TakesStale(w) && Stale(pool, w.warm)
    ensures PooledFrom(w, c, pool, i, counts, last).call == OpenFrom(c, w.judge, w.clock, i, counts, last)
    ensures Stale(PooledFrom(w, c, pool, i, counts, last).pool, w.warm)
    decreases |c| - i
  {
    if i < |c| {
      var turn := TurnAt(w, c[i], w.clock(i), pool, counts);
      assert StaleTurn(w.take(pool, c[i], w.clock(i)), w.warm);
      if turn.attempt.Skip? {
        StaleCallsAreBare(w, c, turn.pool, i + 1, turn.attempt.counts, turn.attempt.error);
      }
    }
  }

  /**
   The pool is a pure optimisation: whatever it holds, and however its channels fail - even
   with an unreachable target or a protocol error - result, marks and counters are those of a
   call with an empty pool, which are those of fresh handshakes alone.
   */
  lemma StalePoolIsInvisible(ranking: seq<NodeInfo>, pool: PoolState, warm: Replies, cold: Handshakes, t: Target,
                             clock: nat -> nat, counts: Counts)
    requires Stale(pool, warm)
    ensures var w := Actual(warm, cold, t, clock);
            && OpenPooled(w, ranking, pool, counts).call
               == OpenPooled(w, ranking, Pool.EMPTY_POOL, counts).call
               == Open(ranking, Judging(cold, t), clock, counts)
            && Stale(OpenPooled(w, ranking, pool, counts).pool, warm)
  {
    var w := Actual(warm, cold, t, clock);
    if ranking != [] {
      CheckoutTakesStale(warm, cold, t, clock);
      StaleCallsAreBare(w, Tried(ranking), pool, 0, counts, NEVER_REPORTED);
      StaleCallsAreBare(w, Tried(ranking), Pool.EMPTY_POOL, 0, counts, NEVER_REPORTED);
    }
  }

  // -------------------------------------------------------- with any pool whatever

  /** What candidate `a` amounts to: its oldest live channel if that answers, else itself. */
  function Answer(pool: PoolState, a: SocketAddr, now: nat, warm: Replies, cold: Handshakes): Outcome {
    var used := Pool.Taken(pool, a, now);
    if used.Some? && warm(used.value).Ok? then Ok(()) else cold(a)
  }

  /** `f` gives the answer of every candidate from `i` on. */
  ghost predicate Answers(f: Handshakes, c: seq<SocketAddr>, pool: PoolState, warm: Replies, cold: Handshakes,
                          clock: nat -> nat, i: nat) {
    forall j: nat :: i <= j < |c| ==> f(c[j]) == Answer(pool, c[j], clock(j), warm, cold)
  }

  predicate DistinctFrom(c: seq<SocketAddr>, i: nat) {
    forall j, k :: i <= j < k < |c| ==> c[j] != c[k]
  }

  lemma AnswersLater(f: Handshakes, c: seq<SocketAddr>, pool: PoolState, warm: Replies, cold: Handshakes,
                     clock: nat -> nat, i: nat)
    requires i < |c| && DistinctFrom(c, i) && Answers(f, c, pool, warm, cold, clock, i)
    ensures Answers(f, c, Pool.AfterCheckout(pool, c[i], clock(i)), warm, cold, clock, i + 1)
  {
    forall j: nat | i < j < |c|
      ensures f(c[j]) == Answer(Pool.AfterCheckout(pool, c[i], clock(i)), c[j], clock(j), warm, cold)
    {
      Pool.CheckoutIsLocal(pool, c[i], clock(i), c[j]);
    }
  }

  /** One candidate of a pooled call is judged like its answer. */
  lemma TurnIsAnswer(warm: Replies, cold: Handshakes, t: Target, clock: nat -> nat, a: SocketAddr, now: nat,
                     pool: PoolState, counts: Counts)
    ensures TurnAt(Actual(warm, cold, t, clock), a, now, pool, counts)
         == Turn(AttemptAt(a, Answer(pool, a, now, warm, cold), t, now, counts),
                 Pool.AfterCheckout(pool, a, now), Pool.Taken(pool, a, now))
  {
  }

  /**
   With any pool, a call does what the handshakes alone would do if each candidate whose
   oldest live channel answers had answered. So everything proved of those holds of it.
   */
  lemma {:induction false} PooledCallIsBareCall(c: seq<SocketAddr>, pool: PoolState, warm: Replies, cold: Handshakes,
      f: Handshakes, t: Target, clock: nat -> nat, i: nat, counts: Counts, last: ConnectError)
    requires DistinctFrom(c, i) && Answers(f, c, pool, warm, cold, clock, i)
    ensures PooledFrom(Actual(warm, cold, t, clock), c, pool, i, counts, last).call
         == OpenFrom(c, Judging(f, t), clock, i, counts, last)
    decreases |c| - i
  {
    if i < |c| {
      TurnIsAnswer(warm, cold, t, clock, c[i], clock(i), pool, counts);
      var v := AttemptAt(c[i], f(c[i]), t, clock(i), counts);
      assert f(c[i]) == Answer(pool, c[i], clock(i), warm, cold);
      if v.Skip? {
        AnswersLater(f, c, pool, warm, cold, clock, i);
        var left := Pool.AfterCheckout(pool, c[i], clock(i));
        PooledCallIsBareCall(c, left, warm, cold, f, t, clock, i + 1, v.counts, v.error);
      }
    }
  }

  // ------------------------------------------------------------ what a call consumes

  /** The pool once candidates `i` to `k` have each checked out. */
  function PoolAfter(w: Ways, pool: PoolState, c: seq<SocketAddr>, i: nat, k: nat): PoolState
    requires k <= |c|
    decreases k - i
  {
    if i >= k then pool else PoolAfter(w, w.take(pool, c[i], w.clock(i)).1, c, i + 1, k)
  }

  function UsedBy(w: Ways, pool: PoolState, c: seq<SocketAddr>, i: nat, k: nat): seq<Pool.Channel>
    requires k <= |c|
    decreases k - i
  {
    if i >= k then []
    else Listed(w.take(pool, c[i], w.clock(i)).0) + UsedBy(w, w.take(pool, c[i], w.clock(i)).1, c, i + 1, k)
  }

  /** A call checks out once for every candidate it tries, whatever the channels answer, and for no other. */
  lemma {:induction false} CallChecksOut(w: Ways, c: seq<SocketAddr>, pool: PoolState, i: nat, counts: Counts,
                                         last: ConnectError)
    requires i <= |c|
    ensures var o := PooledFrom(w, c, pool, i, counts, last);
            && i + o.call.tried <= |c|
            && o.pool == PoolAfter(w, pool, c, i, i + o.call.tried)
            && o.used == UsedBy(w, pool, c, i, i + o.call.tried)
    decreases |c| - i
  {
    if i < |c| {
      var turn := TurnAt(w, c[i], w.clock(i), pool, counts);
      match turn.attempt
      case Skip(e, after) =>
        CallChecksOut(w, c, turn.pool, i + 1, after, e);
      case Stop(_, _) =>
        assert Listed(turn.used) + [] == Listed(turn.used);
    }
  }

  /** What each of the candidates `i` to `k` would be handed, all from the pool as it stands. */
  function Oldest(w: Ways, pool: PoolState, c: seq<SocketAddr>, i: nat, k: nat): seq<Pool.Channel>
    requires k <= |c|
    decreases k - i
  {
    if i >= k then [] else Listed(w.take(pool, c[i], w.clock(i)).0) + Oldest(w, pool, c, i + 1, k)
  }

  /** Taking for one node does not change what another is handed. */
  ghost predicate Local(take: Take) {
    forall pool, a, now, b, n :: a != b ==> take(take(pool, a, now).1, b, n).0 == take(pool, b, n).0
  }

  lemma CheckoutIsLocalTake()
    ensures Local(CHECKOUT)
  {
    forall pool, a, now, b, n | a != b ensures CHECKOUT(CHECKOUT(pool, a, now).1, b, n).0 == CHECKOUT(pool, b, n).0 {
      Pool.CheckoutIsLocal(pool, a, now, b);
    }
  }

  lemma {:induction false} OldestElsewhere(w: Ways, pool: PoolState, a: SocketAddr, now: nat, c: seq<SocketAddr>,
                                           i: nat, k: nat)
    requires Local(w.take) && k <= |c| && forall j :: i <= j < k ==> c[j] != a
    ensures Oldest(w, w.take(pool, a, now).1, c, i, k) == Oldest(w, pool, c, i, k)
    decreases k - i
  {
    if i < k {
      OldestElsewhere(w, pool, a, now, c, i + 1, k);
    }
  }

  lemma {:induction false} UsedAreAsItStands(w: Ways, pool: PoolState, c: seq<SocketAddr>, i: nat, k: nat)
    requires Local(w.take) && k <= |c| && DistinctFrom(c, i)
    ensures UsedBy(w, pool, c, i, k) == Oldest(w, pool, c, i, k)
    decreases k - i
  {
    if i < k {
      UsedAreAsItStands(w, w.take(pool, c[i], w.clock(i)).1, c, i + 1, k);
      OldestElsewhere(w, pool, c[i], w.clock(i), c, i + 1, k);
    }
  }

  /** `used` is the channel of an entry warmed first among those under a minute old, or none if all are older. */
  ghost predicate UsesOldest(slot: seq<Pool.Idle>, now: nat, used: Option<Pool.Channel>) {
    match used
    case None => forall e <- slot :: !Pool.Young(e, now)
    case Some(channel) => exists e :: Pool.IsOldestYoung(slot, now, e) && e.channel == channel
  }

  /** Distinct candidates use up exactly the oldest live channel each had when the call began. */
  lemma UsedAreOldest(w: Ways, pool: PoolState, c: seq<SocketAddr>, i: nat, k: nat)
    requires w.take == CHECKOUT && k <= |c| && DistinctFrom(c, i)
    requires forall n <- pool.inner :: Pool.Sorted(pool.inner[n])
    ensures UsedBy(w, pool, c, i, k) == Oldest(w, pool, c, i, k)
    ensures forall j :: i <= j < k ==>
              UsesOldest(Pool.SlotOf(pool.inner, c[j]), w.clock(j), w.take(pool, c[j], w.clock(j)).0)
  {
    CheckoutIsLocalTake();
    UsedAreAsItStands(w, pool, c, i, k);
    forall j | i <= j < k
      ensures UsesOldest(Pool.SlotOf(pool.inner, c[j]), w.clock(j), w.take(pool, c[j], w.clock(j)).0)
    {
      Pool.AnswerIsOldestYoung(pool, c[j], w.clock(j));
    }
  }

  /** The slot of a node that is not among the candidates stays as it was. */
  lemma {:induction false} OthersKeepTheirSlots(w: Ways, pool: PoolState, c: seq<SocketAddr>, i: nat, k: nat,
                                                n: SocketAddr)
    requires w.take == CHECKOUT && k <= |c| && forall j :: i <= j < k ==> c[j] != n
    ensures Pool.SlotOf(PoolAfter(w, pool, c, i, k).inner, n) == Pool.SlotOf(pool.inner, n)
    decreases k - i
  {
    if i < k {
      Pool.CheckoutIsLocal(pool, c[i], w.clock(i), n);
      OthersKeepTheirSlots(w, Pool.AfterCheckout(pool, c[i], w.clock(i)), c, i + 1, k, n);
    }
  }

  /** And a candidate's loses its expired channels and its oldest live one, nothing else. */
  lemma {:induction false} CandidatesLoseOne(w: Ways, pool: PoolState, c: seq<SocketAddr>, i: nat, k: nat, m: nat)
    requires w.take == CHECKOUT && i <= m < k <= |c| && DistinctFrom(c, i)
    ensures Pool.SlotOf(PoolAfter(w, pool, c, i, k).inner, c[m])
         == Pool.SlotAfter(Pool.SlotOf(pool.inner, c[m]), c[m], Pool.Checkout(c[m], w.clock(m)))
    decreases k - i
  {
    var next := Pool.AfterCheckout(pool, c[i], w.clock(i));
    Pool.CheckoutIsLocal(pool, c[i], w.clock(i), c[m]);
    if i == m {
      OthersKeepTheirSlots(w, next, c, i + 1, k, c[m]);
    } else {
      CandidatesLoseOne(w, next, c, i + 1, k, m);
    }
  }

  // ----------------------------------------------------------------- many calls

  /** A call with everything it depends on but the tables, or the pool's own traffic between calls. */
  datatype Event =
    | Call(warm: Replies, cold: Handshakes, t: Target, clock: nat -> nat)
    | Traffic(pool: Pool.Event)

  /** The nodes and the unreachable targets as calls leave them, and the answers given. */
  datatype Tables = Tables(
    nodes: map<SocketAddr, NodeInfo>, counts: Counts, answers: seq<Result<SocketAddr, OpenError>>)

  /** Whatever ranks the nodes. */
  type Ranker = map<SocketAddr, NodeInfo> -> seq<NodeInfo>

  function Settled(s: Tables, call: Opened): Tables {
    Tables(Marked(s.nodes, call.marks), call.counts, s.answers + [call.result])
  }

  /** One event with a pool, and without. */
  function Next(rank: Ranker, s: Tables, pool: PoolState, e: Event): (Tables, PoolState) {
    match e
    case Call(warm, cold, t, clock) =>
      var o := OpenPooled(Actual(warm, cold, t, clock), rank(s.nodes), pool, s.counts);
      (Settled(s, o.call), o.pool)
    case Traffic(op) => (s, Pool.After(pool, op))
  }

  function NextBare(rank: Ranker, s: Tables, e: Event): Tables {
    match e
    case Call(_, cold, t, clock) => Settled(s, Open(rank(s.nodes), Judging(cold, t), clock, s.counts))
    case Traffic(_) => s
  }

  function WithPool(rank: Ranker, s: Tables, pool: PoolState, events: seq<Event>): (Tables, PoolState)
    decreases |events|
  {
    if events == [] then (s, pool)
    else
      var n := Next(rank, s, pool, events[0]);
      WithPool(rank, n.0, n.1, events[1..])
  }

  function WithoutPool(rank: Ranker, s: Tables, events: seq<Event>): Tables
    decreases |events|
  {
    if events == [] then s else WithoutPool(rank, NextBare(rank, s, events[0]), events[1..])
  }

  /** At every call of the run, no channel idle at that moment answers. */
  ghost predicate AlwaysStale(rank: Ranker, s: Tables, pool: PoolState, events: seq<Event>)
    decreases |events|
  {
    events == [] ||
    (var n := Next(rank, s, pool, events[0]);
     (events[0].Call? ==> Stale(pool, events[0].warm)) && AlwaysStale(rank, n.0, n.1, events[1..]))
  }

  lemma StaleStep(rank: Ranker, s: Tables, pool: PoolState, e: Event)
    requires e.Call? ==> Stale(pool, e.warm)
    ensures Next(rank, s, pool, e).0 == NextBare(rank, s, e)
  {
    if e.Call? {
      StalePoolIsInvisible(rank(s.nodes), pool, e.warm, e.cold, e.t, e.clock, s.counts);
    }
  }

  /**
   Over any sequence of calls, with channels checked in, taken and swept between them, a pool
   whose channels never answer leaves every answer, every mark and every count as if there
   were no pool at all.
   */
  lemma {:induction false} StalePoolIsInvisibleForever(rank: Ranker, s: Tables, pool: PoolState, events: seq<Event>)
    requires AlwaysStale(rank, s, pool, events)
    ensures WithPool(rank, s, pool, events).0 == WithoutPool(rank, s, events)
    decreases |events|
  {
    if events != [] {
      StaleStep(rank, s, pool, events[0]);
      var n := Next(rank, s, pool, events[0]);
      StalePoolIsInvisibleForever(rank, n.0, n.1, events[1..]);
    }
  }
}
