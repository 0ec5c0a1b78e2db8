/** The text a polling reader ends up with: its copy of an entry, and the entry as it is now. */
module LogCopies {
  import opened Decimals
  import opened Wrappers
  import opened LogRing
  import opened LogPolling

  /** What the poller has received, in order. */
  function Received(actions: seq<Action>): seq<LogEntry> {
    if actions == [] then []
    else
      var before := actions[..|actions| - 1];
      var p := After(before);
      if actions[|actions| - 1].Poll? then Received(before) + Since(RingOf(p.history), p.cursor) else Received(before)
  }

  lemma {:induction false} ReceivedAreNumbered(actions: seq<Action>)
    ensures Numbers(Received(actions)) == After(actions).received
  {
    if actions != [] {
      ReceivedAreNumbered(actions[..|actions| - 1]);
    }
  }

  /** Numbers of the current session. */
  predicate Current(history: seq<Event>, s: nat) { ClosedRuns(history) < s < NextSeq(history) }

  function RunAt(history: seq<Event>, s: nat): LogRun
    requires Current(history, s)
  {
    Runs(history)[s - 1 - ClosedRuns(history)]
  }

  /** What the entry of a number says now. */
  function EntryNow(history: seq<Event>, s: nat): LogEntry
    requires Current(history, s)
  {
    EntryOf(RunAt(history, s), s)
  }

  lemma RingShowsNow(history: seq<Event>, k: nat)
    requires k < |RingOf(history)|
    ensures var e := RingOf(history)[k]; Current(history, e.seq_) && e == EntryNow(history, e.seq_)
  {
  }

  lemma {:induction false} SinceIsPart(entries: seq<LogEntry>, cursor: nat, e: LogEntry)
    ensures e in Since(entries, cursor) <==> e in entries && e.seq_ > cursor
  {
    if entries != [] {
      SinceIsPart(entries[1..], cursor, e);
      assert entries == [entries[0]] + entries[1..];
    }
  }

  /** The copy a poll delivers of a fresh number is the entry as it stands. */
  lemma FreshIsCopied(actions: seq<Action>, s: nat)
    requires s in Fresh(After(actions))
    ensures Current(After(actions).history, s)
    ensures EntryNow(After(actions).history, s) in Received(actions + [Poll])
  {
    var p := After(actions);
    ReceivedNumbersIncrease(actions);
    FreshMembers(p, s);
    RingHolds(p.history, s);
    SinceIsPart(RingOf(p.history), p.cursor, EntryNow(p.history, s));
    PollReceives(actions);
  }

  lemma RingHolds(history: seq<Event>, s: nat)
    requires InRing(history, s)
    ensures Current(history, s) && EntryNow(history, s) in RingOf(history)
  {
    var k :| 0 <= k < |RingOf(history)| && RingOf(history)[k].seq_ == s;
    RingShowsNow(history, k);
  }

  lemma PollReceives(actions: seq<Action>)
    ensures var p := After(actions);
            Received(actions + [Poll]) == Received(actions) + Since(RingOf(p.history), p.cursor)
  {
    assert (actions + [Poll])[..|actions|] == actions;
  }

  // ------------------------------------------------------------- folds after the poll

  predicate NoResets(later: seq<Action>) { forall a <- later :: a.Write? ==> a.ev.Logged? }

  /** This action folds a repeat into the entry numbered `s`. */
  predicate FoldsInto(history: seq<Event>, a: Action, s: nat) {
    a.Write? && a.ev.Logged? && Extends(Runs(history), a.ev.level, a.ev.message) && s == NextSeq(history) - 1
  }

  /** Some action of `later`, run after `base`, folds a repeat into `s`. */
  predicate FoldedLater(base: seq<Action>, later: seq<Action>, s: nat) {
    later != [] &&
    (var init := later[..|later| - 1];
     FoldsInto(After(base + init).history, later[|later| - 1], s) || FoldedLater(base, init, s))
  }

  lemma RunStep(history: seq<Event>, level: Level, message: string, ts: nat, s: nat)
    requires Current(history, s)
    ensures var longer := history + [Logged(level, message, ts)];
            && Current(longer, s)
            && RunAt(longer, s) == if FoldsInto(history, Write(Logged(level, message, ts)), s)
                                   then RunAt(history, s).(count := RunAt(history, s).count + 1, ts := ts)
                                   else RunAt(history, s)
  {
    LoggedGrows(history, level, message, ts);
  }

  lemma HistoryStep(actions: seq<Action>, a: Action)
    ensures After(actions + [a]).history == if a.Write? then After(actions).history + [a.ev] else After(actions).history
  {
    assert (actions + [a])[..|actions|] == actions;
  }

  /** Folds count up, and nothing else touches the run of a number. */
  lemma {:induction false} CountsTell(base: seq<Action>, later: seq<Action>, s: nat)
    requires NoResets(later) && Current(After(base).history, s)
    ensures Current(After(base + later).history, s)
    ensures var was, now := RunAt(After(base).history, s), RunAt(After(base + later).history, s);
            && now.message == was.message && now.count >= was.count
            && (now.count > was.count <==> FoldedLater(base, later, s))
            && (now.count == was.count ==> now == was)
  {
    if later == [] {
      assert base + later == base;
    } else {
      var init, a := later[..|later| - 1], later[|later| - 1];
      assert a in later && base + later == base + init + [a];
      CountsTell(base, init, s);
      HistoryStep(base + init, a);
      if a.Write? {
        RunStep(After(base + init).history, a.ev.level, a.ev.message, a.ev.ts, s);
      }
    }
  }

  lemma TextTellsCount(r: LogRun, q: LogRun)
    requires r.message == q.message && 1 <= r.count && 1 <= q.count && Text(r) == Text(q)
    ensures r.count == q.count
  {
    if r.count > 1 && q.count > 1 {
      SuffixOfFolded(r.message, r.count);
      SuffixOfFolded(q.message, q.count);
      DecimalIsInjective(r.count, q.count);
    } else {
      assert |Folded(r.message, r.count)| > |r.message| && |Folded(q.message, q.count)| > |q.message|;
    }
  }

  lemma SuffixOfFolded(message: string, count: nat)
    ensures Folded(message, count)[|message| + 2..] == Decimal(count)
  {
  }

  /**
   The copy delivered by a poll stays what the log shows exactly as long as no repeat is
   folded into the entry: with no reset since, the entry now differs from the copy if and only
   if some later action folded a repeat into it.
   */
  lemma CopyIsCurrentIff(actions: seq<Action>, later: seq<Action>, s: nat)
    requires s in Fresh(After(actions)) && NoResets(later)
    ensures Current(After(actions).history, s) && Current(After(actions + [Poll] + later).history, s)
    ensures EntryNow(After(actions).history, s) in Received(actions + [Poll])
    ensures EntryNow(After(actions + [Poll] + later).history, s) == EntryNow(After(actions).history, s)
       <==> !FoldedLater(actions + [Poll], later, s)
  {
    FreshIsCopied(actions, s);
    HistoryStep(actions, Poll);
    CountsTell(actions + [Poll], later, s);
    var was, now := After(actions).history, After(actions + [Poll] + later).history;
    RunsEncodeSession(was);
    RunsEncodeSession(now);
    CountsArePositive(was, s);
    CountsArePositive(now, s);
    if Text(RunAt(was, s)) == Text(RunAt(now, s)) {
      TextTellsCount(RunAt(was, s), RunAt(now, s));
    }
  }

  lemma CountsArePositive(history: seq<Event>, s: nat)
    requires Current(history, s) && Maximal(Runs(history))
    ensures RunAt(history, s).count >= 1
  {
  }
}
