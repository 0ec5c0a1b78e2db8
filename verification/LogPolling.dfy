/** What the ring means for its readers: run-length encoding, numbering, and the polling cursor. */
module LogPolling {
  import opened Decimals
  import opened Wrappers
  import opened LogRing

  // -------------------------------------------- run-length encoding, and only that

  datatype Line = Line(level: Level, message: string)

  /** The lines logged since the last reset, repeats included. */
  function Session(history: seq<Event>): seq<Line> {
    if history == [] then []
    else
      match history[|history| - 1]
      case Reset => []
      case Logged(level, message, _) => Session(history[..|history| - 1]) + [Line(level, message)]
  }

  function LineOf(r: LogRun): Line { Line(r.level, r.message) }

  function Repeat(l: Line, n: nat): seq<Line> { seq(n, _ => l) }

  function Expand(runs: seq<LogRun>): seq<Line> {
    if runs == [] then [] else Repeat(LineOf(runs[0]), runs[0].count) + Expand(runs[1..])
  }

  /** No empty run, and no two neighbours that should be one. */
  predicate Maximal(runs: seq<LogRun>) {
    && (forall i :: 0 <= i < |runs| ==> runs[i].count >= 1)
    && (forall i :: 0 < i < |runs| ==> LineOf(runs[i - 1]) != LineOf(runs[i]))
  }

  lemma {:induction false} ExpandAppends(runs: seq<LogRun>, r: LogRun)
    ensures Expand(runs + [r]) == Expand(runs) + Repeat(LineOf(r), r.count)
  {
    if runs == [] {
      assert ([] + [r])[1..] == [];
      assert Expand([r]) == Repeat(LineOf(r), r.count) + [];
    } else {
      assert (runs + [r])[1..] == runs[1..] + [r];
      ExpandAppends(runs[1..], r);
      assert Expand(runs + [r])
          == Repeat(LineOf(runs[0]), runs[0].count) + Expand(runs[1..]) + Repeat(LineOf(r), r.count);
    }
  }

  lemma {:induction false} ExpandExtended(runs: seq<LogRun>, ts: nat)
    requires runs != []
    ensures Expand(Extended(runs, ts)) == Expand(runs) + [LineOf(runs[|runs| - 1])]
  {
    var n := |runs| - 1;
    var last, init := runs[n], runs[..n];
    var longer := last.(count := last.count + 1, ts := ts);
    ExpandAppends(init, last);
    ExpandAppends(init, longer);
    assert init + [last] == runs && init + [longer] == Extended(runs, ts);
    assert Repeat(LineOf(last), last.count + 1) == Repeat(LineOf(last), last.count) + [LineOf(last)];
  }

  lemma AfterLogIsMaximal(runs: seq<LogRun>, level: Level, message: string, ts: nat)
    requires Maximal(runs)
    ensures Maximal(AfterLog(runs, level, message, ts))
  {
  }

  lemma {:induction false} ExpandAfterLog(runs: seq<LogRun>, level: Level, message: string, ts: nat)
    ensures Expand(AfterLog(runs, level, message, ts)) == Expand(runs) + [Line(level, message)]
  {
    if Extends(runs, level, message) {
      ExpandExtended(runs, ts);
    } else {
      var single := LogRun(level, message, 1, ts);
      ExpandAppends(runs, single);
      assert Repeat(LineOf(single), 1) == [Line(level, message)];
    }
  }

  /** The runs are a run-length encoding of the session. */
  lemma {:induction false} RunsEncodeSession(history: seq<Event>)
    ensures Maximal(Runs(history)) && Expand(Runs(history)) == Session(history)
  {
    if history != [] {
      var before := history[..|history| - 1];
      RunsEncodeSession(before);
      match history[|history| - 1]
      case Reset =>
      case Logged(level, message, ts) =>
        AfterLogIsMaximal(Runs(before), level, message, ts);
        ExpandAfterLog(Runs(before), level, message, ts);
    }
  }

  /** How often a list repeats its first line before anything else. */
  function Lead(lines: seq<Line>): nat {
    if lines == [] then 0
    else if |lines| > 1 && lines[1] == lines[0] then 1 + Lead(lines[1..]) else 1
  }

  lemma {:induction false} LeadOfRun(l: Line, n: nat, rest: seq<Line>)
    requires n >= 1 && (rest == [] || rest[0] != l)
    ensures Lead(Repeat(l, n) + rest) == n
  {
    var lines := Repeat(l, n) + rest;
    if n == 1 {
      assert lines == [l] + rest;
    } else {
      assert lines[1..] == Repeat(l, n - 1) + rest;
      LeadOfRun(l, n - 1, rest);
    }
  }

  lemma {:induction false} FirstRun(runs: seq<LogRun>)
    requires Maximal(runs) && runs != []
    ensures var lines := Expand(runs);
      && lines != [] && lines[0] == LineOf(runs[0]) && Lead(lines) == runs[0].count
      && Maximal(runs[1..]) && Expand(runs[1..]) == lines[runs[0].count..]
  {
    var rest := Expand(runs[1..]);
    if |runs| > 1 {
      assert rest[0] == LineOf(runs[1]);
    }
    LeadOfRun(LineOf(runs[0]), runs[0].count, rest);
  }

  predicate SameRuns(xs: seq<LogRun>, ys: seq<LogRun>) {
    |xs| == |ys| && forall i :: 0 <= i < |xs| ==> LineOf(xs[i]) == LineOf(ys[i]) && xs[i].count == ys[i].count
  }

  /** Any maximal runs with the session's lines are the ring's runs: the encoding is unique. */
  lemma {:induction false} EncodingIsUnique(xs: seq<LogRun>, ys: seq<LogRun>)
    requires Maximal(xs) && Maximal(ys) && Expand(xs) == Expand(ys)
    ensures SameRuns(xs, ys)
  {
    if xs != [] {
      FirstRun(xs);
    }
    if ys != [] {
      FirstRun(ys);
    }
    if xs != [] && ys != [] {
      EncodingIsUnique(xs[1..], ys[1..]);
      assert xs == [xs[0]] + xs[1..] && ys == [ys[0]] + ys[1..];
    }
  }

  // ------------------------------------------------------------------- numbering

  /** The ring's entries are numbered without gaps and end just below the next number. */
  lemma RingIsContiguous(history: seq<Event>)
    ensures var ring := RingOf(history);
      && |ring| == Min(|Runs(history)|, CAPACITY) && |ring| < NextSeq(history)
      && forall i :: 0 <= i < |ring| ==> ring[i].seq_ == NextSeq(history) - |ring| + i
  {
  }

  lemma NumbersNeverGoBack(history: seq<Event>, ev: Event)
    ensures NextSeq(history) <= NextSeq(history + [ev]) <= NextSeq(history) + 1
  {
    HistoryGrows(history, ev);
  }

  // --------------------------------------------------------------------- polling

  /** The ring's writers and one poller, in any order. */
  datatype Action = Write(ev: Event) | Poll

  datatype Poller = Poller(history: seq<Event>, cursor: nat, received: seq<nat>)

  function Numbers(entries: seq<LogEntry>): seq<nat> {
    seq(|entries|, i requires 0 <= i < |entries| => entries[i].seq_)
  }

  /** The poller takes what is after its cursor and moves the cursor to the last of it. */
  function PollStep(p: Poller): Poller {
    var got := Since(RingOf(p.history), p.cursor);
    Poller(p.history, if got == [] then p.cursor else got[|got| - 1].seq_, p.received + Numbers(got))
  }

  function Act(p: Poller, a: Action): Poller {
    match a
    case Write(ev) => p.(history := p.history + [ev])
    case Poll => PollStep(p)
  }

  function After(actions: seq<Action>): Poller {
    if actions == [] then Poller([], 0, []) else Act(After(actions[..|actions| - 1]), actions[|actions| - 1])
  }

  /** The numbers `from`, ..., `to` - 1. */
  function Range(from: nat, to: nat): seq<nat>
    requires from <= to
  {
    seq(to - from, i requires 0 <= i < to - from => from + i)
  }

  /** Numbers after `cursor` among the last `held` numbers before `next`. */
  function FreshAmong(next: nat, held: nat, cursor: nat): seq<nat> {
    var oldest := next - Min(held, next);
    var from := if cursor + 1 > oldest then cursor + 1 else oldest;
    if from <= next then Range(from, next) else []
  }

  /** Numbers after the cursor that the ring still holds. */
  function Fresh(p: Poller): seq<nat> {
    FreshAmong(NextSeq(p.history), |RingOf(p.history)|, p.cursor)
  }

  lemma {:induction false} SinceKeepsAll(entries: seq<LogEntry>, cursor: nat)
    requires forall e <- entries :: e.seq_ > cursor
    ensures Since(entries, cursor) == entries
  {
    if entries != [] {
      SinceKeepsAll(entries[1..], cursor);
    }
  }

  lemma {:induction false} SinceSkips(entries: seq<LogEntry>, cursor: nat, k: nat)
    requires k <= |entries|
    requires forall i :: 0 <= i < |entries| ==> (entries[i].seq_ > cursor <==> i >= k)
    ensures Since(entries, cursor) == entries[k..]
  {
    if k == 0 {
      SinceKeepsAll(entries, cursor);
    } else {
      var rest := entries[1..];
      forall i | 0 <= i < |rest| ensures rest[i].seq_ > cursor <==> i >= k - 1 {
        assert rest[i] == entries[i + 1];
      }
      SinceSkips(rest, cursor, k - 1);
      assert rest[k - 1..] == entries[k..];
    }
  }

  lemma FreshRange(next: nat, held: nat, cursor: nat, from: nat)
    requires held <= next && cursor < next && from == if cursor + 1 > next - held then cursor + 1 else next - held
    ensures FreshAmong(next, held, cursor) == Range(from, next)
  {
  }

  lemma ContiguousSuffix(ring: seq<LogEntry>, oldest: nat, next: nat, cursor: nat, from: nat)
    requires next == oldest + |ring| && forall i :: 0 <= i < |ring| ==> ring[i].seq_ == oldest + i
    requires cursor < next && from == if cursor + 1 > oldest then cursor + 1 else oldest
    ensures var got := Since(ring, cursor);
      Numbers(got) == Range(from, next) && (got != [] ==> got[|got| - 1].seq_ == next - 1)
  {
    SinceSkips(ring, cursor, from - oldest);
  }

  /** In a ring numbered without gaps up to `next`, what follows the cursor. */
  lemma FreshSuffix(ring: seq<LogEntry>, next: nat, cursor: nat)
    requires |ring| <= next && cursor < next
    requires forall i :: 0 <= i < |ring| ==> ring[i].seq_ == next - |ring| + i
    ensures var got := Since(ring, cursor);
      Numbers(got) == FreshAmong(next, |ring|, cursor) && (got != [] ==> got[|got| - 1].seq_ == next - 1)
  {
    var oldest := next - |ring|;
    var from := if cursor + 1 > oldest then cursor + 1 else oldest;
    ContiguousSuffix(ring, oldest, next, cursor, from);
    FreshRange(next, |ring|, cursor, from);
  }

  lemma DeliveryIsFresh(p: Poller)
    requires p.cursor < NextSeq(p.history)
    ensures var got := Since(RingOf(p.history), p.cursor);
      && Numbers(got) == Fresh(p)
      && (got != [] ==> got[|got| - 1].seq_ == NextSeq(p.history) - 1)
  {
    RingIsContiguous(p.history);
    FreshSuffix(RingOf(p.history), NextSeq(p.history), p.cursor);
  }

  /** A poll delivers exactly what is after the cursor and still in the ring. */
  lemma {:induction false} PollDeliversTheRing(p: Poller)
    requires p.cursor < NextSeq(p.history)
    ensures PollStep(p).received == p.received + Fresh(p)
    ensures PollStep(p).cursor == if Fresh(p) == [] then p.cursor else NextSeq(p.history) - 1
  {
    var got := Since(RingOf(p.history), p.cursor);
    DeliveryIsFresh(p);
    assert |Numbers(got)| == |got|;
  }

  predicate Increasing(s: seq<nat>) {
    forall i, j :: 0 <= i < j < |s| ==> s[i] < s[j]
  }

  ghost predicate PollerInv(p: Poller) {
    && p.cursor < NextSeq(p.history) && Increasing(p.received)
    && forall s <- p.received :: 1 <= s <= p.cursor
  }

  /**
   Whatever the interleaving of logging, folding, resets and polls, the numbers the poller
   receives strictly increase over all its polls.
   */
  lemma {:induction false} ReceivedNumbersIncrease(actions: seq<Action>)
    ensures PollerInv(After(actions))
  {
    if actions != [] {
      var p := After(actions[..|actions| - 1]);
      ReceivedNumbersIncrease(actions[..|actions| - 1]);
      match actions[|actions| - 1]
      case Write(ev) => NumbersNeverGoBack(p.history, ev);
      case Poll =>
        PollDeliversTheRing(p);
        RingIsContiguous(p.history);
        AppendRange(p.received, Fresh(p), p.cursor);
    }
  }

  lemma AppendRange(s: seq<nat>, more: seq<nat>, bound: nat)
    requires Increasing(s) && Increasing(more)
    requires (forall x <- s :: x <= bound) && forall x <- more :: bound < x
    ensures Increasing(s + more)
  {
    forall i, j | 0 <= i < j < |s + more| ensures (s + more)[i] < (s + more)[j] {
      if i < |s| <= j {
        assert s[i] in s && more[j - |s|] in more;
      }
    }
  }

  predicate InRing(history: seq<Event>, s: nat) {
    exists e <- RingOf(history) :: e.seq_ == s
  }

  lemma FreshMembers(p: Poller, s: nat)
    requires PollerInv(p)
    ensures s in Fresh(p) <==> p.cursor < s && InRing(p.history, s)
  {
    RingIsContiguous(p.history);
    var ring, next := RingOf(p.history), NextSeq(p.history);
    if p.cursor < s && InRing(p.history, s) {
      var from := if p.cursor + 1 > next - |ring| then p.cursor + 1 else next - |ring|;
      assert Fresh(p)[s - from] == s;
    }
    if s in Fresh(p) {
      assert ring[s - (next - |ring|)].seq_ == s;
    }
  }

  /**
   A number the cursor has passed without being received had left the ring, by eviction or
   by a reset, before the poll that passed it.
   */
  lemma {:induction false} SkippedNumberWasGone(actions: seq<Action>, s: nat) returns (n: nat)
    requires 1 <= s <= After(actions).cursor && s !in After(actions).received
    ensures n < |actions| && actions[n].Poll?
    ensures var p := After(actions[..n]); p.cursor < s < NextSeq(p.history) && !InRing(p.history, s)
  {
    var k := |actions| - 1;
    var p := After(actions[..k]);
    ReceivedNumbersIncrease(actions[..k]);
    if s <= p.cursor {
      if actions[k].Poll? {
        PollDeliversTheRing(p);
      }
      n := SkippedNumberWasGone(actions[..k], s);
      assert actions[..k][..n] == actions[..n];
    } else {
      n := k;
      PollDeliversTheRing(p);
      FreshMembers(p, s);
    }
  }

  /** `writes` holds neither polls nor resets. */
  predicate OnlyLogs(writes: seq<Action>) {
    forall a <- writes :: a.Write? && a.ev.Logged?
  }

  /** After a poll: whatever the ring holds has been delivered. */
  predicate CaughtUp(p: Poller) {
    RingOf(p.history) == [] || p.cursor == NextSeq(p.history) - 1
  }

  lemma {:induction false} AfterWrite(actions: seq<Action>, ev: Event)
    ensures var p, q := After(actions), After(actions + [Write(ev)]);
      && q == p.(history := p.history + [ev])
      && NextSeq(p.history) <= NextSeq(q.history)
      && (ev.Logged? ==> ClosedRuns(q.history) == ClosedRuns(p.history))
  {
    assert (actions + [Write(ev)])[..|actions|] == actions;
    NumbersNeverGoBack(After(actions).history, ev);
    HistoryGrows(After(actions).history, ev);
  }

  lemma {:induction false} LogsOnlyAdd(actions: seq<Action>, writes: seq<Action>)
    requires OnlyLogs(writes)
    ensures var p, q := After(actions), After(actions + writes);
      && q.cursor == p.cursor && q.received == p.received
      && NextSeq(p.history) <= NextSeq(q.history)
      && ClosedRuns(q.history) == ClosedRuns(p.history)
  {
    if writes == [] {
      assert actions + writes == actions;
    } else {
      var n := |writes| - 1;
      var before := actions + writes[..n];
      assert actions + writes == before + [writes[n]] && writes[n] in writes;
      LogsOnlyAdd(actions, writes[..n]);
      AfterWrite(before, writes[n].ev);
    }
  }

  lemma AfterPoll(actions: seq<Action>)
    ensures After(actions + [Poll]).received == After(actions).received + Fresh(After(actions))
    ensures After(actions + [Poll]).history == After(actions).history
    ensures After(actions + [Poll]).cursor ==
            if Fresh(After(actions)) == [] then After(actions).cursor else NextSeq(After(actions).history) - 1
  {
    assert (actions + [Poll])[..|actions|] == actions;
    ReceivedNumbersIncrease(actions);
    PollDeliversTheRing(After(actions));
  }

  /** What is fresh for a poller that was caught up when the numbering stood at `from`. */
  lemma FreshSince(p: Poller, q: Poller)
    requires CaughtUp(p) && p.cursor < NextSeq(p.history) && q.cursor == p.cursor
    requires NextSeq(p.history) <= NextSeq(q.history) <= NextSeq(p.history) + CAPACITY
    requires ClosedRuns(q.history) == ClosedRuns(p.history)
    ensures Fresh(q) == Range(NextSeq(p.history), NextSeq(q.history))
  {
    RingIsContiguous(q.history);
    RingIsContiguous(p.history);
  }

  /**
   Nothing is skipped at a sane pace: with no reset and at most a ring's worth of new entries
   since the previous poll, the next poll receives every one of them, and nothing else.
   */
  lemma NothingSkippedAtPace(actions: seq<Action>, writes: seq<Action>)
    requires OnlyLogs(writes) && CaughtUp(After(actions))
    requires NextSeq(After(actions + writes).history) <= NextSeq(After(actions).history) + CAPACITY
    ensures NextSeq(After(actions).history) <= NextSeq(After(actions + writes).history)
    ensures After(actions + writes + [Poll]).received
         == After(actions).received + Range(NextSeq(After(actions).history), NextSeq(After(actions + writes).history))
  {
    LogsOnlyAdd(actions, writes);
    ReceivedNumbersIncrease(actions);
    AfterPoll(actions + writes);
    FreshSince(After(actions), After(actions + writes));
  }

  /** Every poll leaves the poller caught up, so the previous lemma chains from poll to poll. */
  lemma PollCatchesUp(actions: seq<Action>)
    ensures CaughtUp(After(actions + [Poll]))
  {
    ReceivedNumbersIncrease(actions);
    AfterPoll(actions);
    RingIsContiguous(After(actions).history);
  }

  lemma FoldChangesNewest(runs: seq<LogRun>, first: nat, ts: nat)
    requires runs != [] && Maximal(runs)
    ensures Window(Extended(runs, ts), first) != Window(runs, first)
  {
    var last := runs[|runs| - 1];
    WindowExtended(runs, first, ts);
    NewestEntry(runs, first);
    if Decimal(last.count) == Decimal(last.count + 1) {
      DecimalIsInjective(last.count, last.count + 1);
    }
    assert Folded(last.message, last.count + 1) != Text(last) by {
      assert |Folded(last.message, last.count + 1)| > |last.message|;
      if last.count > 1 {
        assert Folded(last.message, last.count)[|last.message| + 2..] == Decimal(last.count);
        assert Folded(last.message, last.count + 1)[|last.message| + 2..] == Decimal(last.count + 1);
      }
    }
  }

  lemma RingShowsRuns(history: seq<Event>, runs: seq<LogRun>, closed: nat)
    requires Runs(history) == runs && ClosedRuns(history) == closed
    ensures RingOf(history) == Window(runs, closed + 1) && NextSeq(history) == 1 + closed + |runs|
  {
  }

  lemma RepeatKeepsNumbers(history: seq<Event>, level: Level, message: string, ts: nat)
    requires Extends(Runs(history), level, message)
    ensures var longer := history + [Logged(level, message, ts)];
      NextSeq(longer) == NextSeq(history) && ClosedRuns(longer) == ClosedRuns(history)
  {
    LoggedGrows(history, level, message, ts);
  }

  lemma RunsAreMaximal(history: seq<Event>)
    ensures Maximal(Runs(history))
  {
    RunsEncodeSession(history);
  }

  lemma ExtendedShows(history: seq<Event>, longer: seq<Event>, runs: seq<LogRun>, ts: nat, closed: nat)
    requires Runs(history) == runs && runs != [] && Runs(longer) == Extended(runs, ts)
    requires ClosedRuns(history) == closed && ClosedRuns(longer) == closed
    ensures RingOf(longer) != RingOf(history)
  {
    RunsAreMaximal(history);
    RingShowsRuns(history, runs, closed);
    RingShowsRuns(longer, Extended(runs, ts), closed);
    FoldChangesNewest(runs, closed + 1, ts);
  }

  lemma RepeatChangesTheRing(history: seq<Event>, level: Level, message: string, ts: nat)
    requires Extends(Runs(history), level, message)
    ensures RingOf(history + [Logged(level, message, ts)]) != RingOf(history)
  {
    LoggedGrows(history, level, message, ts);
    ExtendedShows(history, history + [Logged(level, message, ts)], Runs(history), ts, ClosedRuns(history));
  }

  /** A caught-up poller finds nothing new while the numbering stands still. */
  lemma NothingNewToPoll(actions: seq<Action>, p: Poller)
    requires CaughtUp(p) && p.cursor < NextSeq(p.history)
    requires After(actions).cursor == p.cursor && After(actions).received == p.received
    requires NextSeq(After(actions).history) == NextSeq(p.history)
    requires ClosedRuns(After(actions).history) == ClosedRuns(p.history)
    ensures After(actions + [Poll]).received == p.received
  {
    FreshSince(p, After(actions));
    AfterPoll(actions);
  }

  /**
   The price of stable numbers: a repeat folded into an entry that was already delivered is
   never delivered again, so the poller keeps the count it saw first.
   */
  lemma FoldAfterPollIsNotRedelivered(actions: seq<Action>, level: Level, message: string, ts: nat)
    requires CaughtUp(After(actions)) && Extends(Runs(After(actions).history), level, message)
    ensures var repeat := actions + [Write(Logged(level, message, ts))];
      && After(repeat + [Poll]).received == After(actions).received
      && RingOf(After(repeat).history) != RingOf(After(actions).history)
  {
    AfterWrite(actions, Logged(level, message, ts));
    RepeatKeepsNumbers(After(actions).history, level, message, ts);
    RepeatChangesTheRing(After(actions).history, level, message, ts);
    ReceivedNumbersIncrease(actions);
    NothingNewToPoll(actions + [Write(Logged(level, message, ts))], After(actions));
  }

  // ------------------------------------------------------------- what a repeat shows

  /** The same line logged again and again, at these times. */
  function Repeats(level: Level, message: string, times: seq<nat>): seq<Event> {
    seq(|times|, i requires 0 <= i < |times| => Logged(level, message, times[i]))
  }

  lemma RepeatsOfMore(history: seq<Event>, level: Level, message: string, times: seq<nat>, n: nat)
    requires n + 1 == |times|
    ensures history + Repeats(level, message, times)
         == history + Repeats(level, message, times[..n]) + [Logged(level, message, times[n])]
  {
  }

  /** These runs, and one of a line repeated `n` times. */
  predicate EndsInRun(h: seq<Event>, runs: seq<LogRun>, closed: nat, last: LogRun) {
    Runs(h) == runs + [last] && ClosedRuns(h) == closed
  }

  lemma {:induction false} RepeatsAreOneRun(history: seq<Event>, level: Level, message: string, times: seq<nat>,
                                            runs: seq<LogRun>, closed: nat)
    requires times != [] && runs == Runs(history) && closed == ClosedRuns(history) && !Extends(runs, level, message)
    ensures EndsInRun(history + Repeats(level, message, times), runs, closed,
                      LogRun(level, message, |times|, times[|times| - 1]))
  {
    var n := |times| - 1;
    var before := history + Repeats(level, message, times[..n]);
    RepeatsOfMore(history, level, message, times, n);
    OneMoreLogged(before, level, message, times[n]);
    if n == 0 {
      assert before == history;
    } else {
      RepeatsAreOneRun(history, level, message, times[..n], runs, closed);
      OneMoreRepeat(runs, LogRun(level, message, n, times[n - 1]), times[n]);
    }
  }

  lemma OneMoreLogged(before: seq<Event>, level: Level, message: string, ts: nat)
    ensures var h := before + [Logged(level, message, ts)];
            Runs(h) == AfterLog(Runs(before), level, message, ts) && ClosedRuns(h) == ClosedRuns(before)
  {
    assert (before + [Logged(level, message, ts)])[..|before|] == before;
  }

  lemma OneMoreRepeat(runs: seq<LogRun>, last: LogRun, ts: nat)
    ensures AfterLog(runs + [last], last.level, last.message, ts)
         == runs + [LogRun(last.level, last.message, last.count + 1, ts)]
  {
  }

  /**
   A line logged k times in a row, where it did not continue the one before, is shown once, under
   the next number: by itself if k is 1, else followed by a multiplication sign and k, with the
   time of its last repeat.
   */
  lemma RepeatsAreShown(history: seq<Event>, level: Level, message: string, times: seq<nat>)
    requires times != [] && !Extends(Runs(history), level, message)
    ensures var ring := RingOf(history + Repeats(level, message, times));
            && ring != []
            && ring[|ring| - 1].seq_ == NextSeq(history) && ring[|ring| - 1].level == level
            && ring[|ring| - 1].ts == times[|times| - 1]
            && ring[|ring| - 1].message
               == if |times| == 1 then message else message + [' ', '\U{D7}'] + Decimal(|times|)
  {
    RepeatsAreOneRun(history, level, message, times, Runs(history), ClosedRuns(history));
    assert " \U{D7}" == [' ', '\U{D7}'];
  }
}
