/**
 The kernel-log ring: bounded, folding consecutive repeats into one entry, numbering
 entries without ever going back, and read by a polling cursor.
 */
module LogRing {
  import opened Decimals
  import opened Wrappers

  const CAPACITY := 500

  datatype Level = Info | Warn | Error

  datatype LogEntry = LogEntry(seq_: nat, level: Level, message: string, ts: nat)

  /** What happens to the ring. */
  datatype Event = Logged(level: Level, message: string, ts: nat) | Reset

  // ------------------------------------------------- the history, run-length encoded

  /** `count` consecutive log calls with one level and message; `ts` is the last one's time. */
  datatype LogRun = LogRun(level: Level, message: string, count: nat, ts: nat)

  predicate Extends(runs: seq<LogRun>, level: Level, message: string) {
    runs != [] && runs[|runs| - 1].level == level && runs[|runs| - 1].message == message
  }

  function Extended(runs: seq<LogRun>, ts: nat): seq<LogRun>
    requires runs != []
  {
    var last := runs[|runs| - 1];
    runs[|runs| - 1 := last.(count := last.count + 1, ts := ts)]
  }

  /** The runs of everything logged since the last reset. */
  function Runs(history: seq<Event>): seq<LogRun> {
    if history == [] then []
    else
      var before := Runs(history[..|history| - 1]);
      match history[|history| - 1]
      case Reset => []
      case Logged(level, message, ts) => AfterLog(before, level, message, ts)
  }

  function AfterLog(runs: seq<LogRun>, level: Level, message: string, ts: nat): seq<LogRun> {
    if Extends(runs, level, message) then Extended(runs, ts) else runs + [LogRun(level, message, 1, ts)]
  }

  /** How many runs ended with a reset. */
  function ClosedRuns(history: seq<Event>): nat {
    if history == [] then 0
    else
      var before := history[..|history| - 1];
      ClosedRuns(before) + (if history[|history| - 1].Reset? then |Runs(before)| else 0)
  }

  function NextSeq(history: seq<Event>): nat {
    1 + ClosedRuns(history) + |Runs(history)|
  }

  function Folded(message: string, count: nat): string {
    message + " \U{D7}" + Decimal(count)
  }

  function Text(r: LogRun): string {
    if r.count <= 1 then r.message else Folded(r.message, r.count)
  }

  function EntryOf(r: LogRun, number: nat): LogEntry {
    LogEntry(number, r.level, Text(r), r.ts)
  }

  /** The last `CAPACITY` runs, numbered by their position in the whole history. */
  function RingOf(history: seq<Event>): seq<LogEntry> {
    Window(Runs(history), ClosedRuns(history) + 1)
  }

  function Window(runs: seq<LogRun>, first: nat): (w: seq<LogEntry>)
    ensures |w| == Min(|runs|, CAPACITY)
    ensures forall i :: 0 <= i < |w| ==> w[i] == EntryOf(runs[|runs| - |w| + i], first + |runs| - |w| + i)
  {
    var dropped := if |runs| > CAPACITY then |runs| - CAPACITY else 0;
    seq(|runs| - dropped, i requires 0 <= i < |runs| - dropped => EntryOf(runs[dropped + i], first + dropped + i))
  }

  /** Entries numbered after a cursor. */
  function Since(entries: seq<LogEntry>, cursor: nat): seq<LogEntry> {
    if entries == [] then []
    else (if entries[0].seq_ > cursor then [entries[0]] else []) + Since(entries[1..], cursor)
  }

  lemma {:induction false} SinceAppends(entries: seq<LogEntry>, i: nat, cursor: nat)
    requires i < |entries|
    ensures Since(entries[..i + 1], cursor)
         == Since(entries[..i], cursor) + if entries[i].seq_ > cursor then [entries[i]] else []
  {
    if i == 0 {
      assert entries[..1][1..] == [];
    } else {
      assert entries[..i + 1][1..] == entries[1..][..i] && entries[..i][1..] == entries[1..][..i - 1];
      SinceAppends(entries[1..], i - 1, cursor);
    }
  }

  // -------------------------------------------------------------------- the ring

  /** The ring's state for these runs: the fold state is the last one, and none is empty. */
  ghost predicate Displays(runs: seq<LogRun>, first: nat, entries: seq<LogEntry>, nextSeq: nat,
                           lastLevel: Option<Level>, lastMessage: Option<string>, lastCount: nat, lastSeq: nat) {
    && entries == Window(runs, first) && nextSeq == first + |runs|
    && (forall r <- runs :: r.count >= 1)
    && if runs == [] then lastCount == 0
       else
         var last := runs[|runs| - 1];
         && lastCount == last.count && lastLevel == Some(last.level) && lastMessage == Some(last.message)
         && lastSeq == nextSeq - 1
  }

  class Ring {
    var entries: seq<LogEntry>
    var nextSeq: nat
    var lastLevel: Option<Level>
    var lastMessage: Option<string>
    var lastCount: nat
    var lastSeq: nat
    ghost var history: seq<Event>

    constructor ()
      ensures Valid() && history == []
    {
      entries, nextSeq := [], 1;
      lastLevel, lastMessage, lastCount, lastSeq := None, None, 0, 0;
      history := [];
    }

    /** The ring is its whole history, run-length encoded and cut to capacity. */
    ghost predicate Valid()
      reads this
    {
      Shows(Runs(history), ClosedRuns(history) + 1)
    }

    ghost predicate Shows(runs: seq<LogRun>, first: nat)
      reads `entries, `nextSeq, `lastLevel, `lastMessage, `lastCount, `lastSeq
    {
      Displays(runs, first, entries, nextSeq, lastLevel, lastMessage, lastCount, lastSeq)
    }

    lemma ShowsHistory(runs: seq<LogRun>, first: nat)
      requires Shows(runs, first) && Runs(history) == runs && ClosedRuns(history) + 1 == first
      ensures Valid()
    {
    }

    /** Look for an entry by number, newest first. */
    method FindNewest(number: nat) returns (at: Option<nat>)
      ensures match at
              case Some(i) => i < |entries| && entries[i].seq_ == number
              case None => forall e <- entries :: e.seq_ != number
    {
      var i := |entries|;
      while i > 0
        invariant 0 <= i <= |entries|
        invariant forall k :: i <= k < |entries| ==> entries[k].seq_ != number
      {
        i := i - 1;
        if entries[i].seq_ == number {
          return Some(i);
        }
      }
      at := None;
    }

    /** Count one more repeat of the last run in its entry, which is always found. */
    method FoldNewest(message: string, ts: nat, ghost runs: seq<LogRun>, ghost first: nat)
      requires Shows(runs, first) && runs != [] && runs[|runs| - 1].message == message
      modifies this`entries, this`lastCount
      ensures Shows(Extended(runs, ts), first)
    {
      NewestEntry(runs, first);
      WindowExtended(runs, first, ts);
      var count := lastCount + 1;
      var target := FindNewest(lastSeq);
      match target {
        case Some(i) =>
          entries := entries[i := entries[i].(message := Folded(message, count), ts := ts)];
          lastCount := count;
        case None =>
          // logging the repeat as a new entry instead is never needed
          assert false;
      }
    }

    method Append(level: Level, message: string, ts: nat, ghost runs: seq<LogRun>, ghost first: nat)
      requires entries == Window(runs, first) && nextSeq == first + |runs| && forall r <- runs :: r.count >= 1
      modifies this
      ensures Shows(runs + [LogRun(level, message, 1, ts)], first) && history == old(history)
    {
      WindowAppended(runs, first, LogRun(level, message, 1, ts));
      if |entries| >= CAPACITY {
        entries := entries[1..];
      }
      var number := nextSeq;
      nextSeq := nextSeq + 1;
      lastLevel, lastMessage, lastCount, lastSeq := Some(level), Some(message), 1, number;
      entries := entries + [LogEntry(number, level, message, ts)];
    }

    /** A repeat of the last run rewrites the newest entry, anything else becomes a new one. */
    method Record(level: Level, message: string, ts: nat, ghost runs: seq<LogRun>, ghost first: nat)
      requires Shows(runs, first)
      modifies this
      ensures Shows(AfterLog(runs, level, message, ts), first) && history == old(history)
    {
      if lastCount > 0 && lastLevel == Some(level) && lastMessage == Some(message) {
        FoldNewest(message, ts, runs, first);
      } else {
        Append(level, message, ts, runs, first);
      }
    }

    method Push(level: Level, message: string, ts: nat)
      requires Valid()
      modifies this
      ensures Valid() && history == old(history) + [Logged(level, message, ts)]
    {
      ghost var longer, first := history + [Logged(level, message, ts)], ClosedRuns(history) + 1;
      ghost var grown := AfterLog(Runs(history), level, message, ts);
      LoggedGrows(history, level, message, ts);
      Record(level, message, ts, Runs(history), first);
      history := longer;
      ShowsHistory(grown, first);
    }

    /** A new session: the ring is empty, the numbering goes on. */
    method ResetLogs()
      requires Valid()
      modifies this
      ensures Valid() && history == old(history) + [Reset] && entries == [] && nextSeq == old(nextSeq)
    {
      HistoryGrows(history, Reset);
      history := history + [Reset];
      entries := [];
      lastLevel, lastMessage, lastCount, lastSeq := None, None, 0, 0;
    }

    method LogsSince(cursor: nat) returns (fresh_: seq<LogEntry>)
      ensures fresh_ == Since(entries, cursor)
    {
      fresh_ := [];
      for i := 0 to |entries|
        invariant fresh_ == Since(entries[..i], cursor)
      {
        SinceAppends(entries, i, cursor);
        if entries[i].seq_ > cursor {
          fresh_ := fresh_ + [entries[i]];
        }
      }
      assert entries[..|entries|] == entries;
    }
  }

  lemma HistoryGrows(history: seq<Event>, ev: Event)
    ensures (history + [ev])[..|history|] == history && (history + [ev])[|history|] == ev
  {
  }

  lemma LoggedGrows(history: seq<Event>, level: Level, message: string, ts: nat)
    ensures var longer := history + [Logged(level, message, ts)];
      Runs(longer) == AfterLog(Runs(history), level, message, ts) && ClosedRuns(longer) == ClosedRuns(history)
  {
    HistoryGrows(history, Logged(level, message, ts));
  }

  /** The newest entry carries the last number, and no other entry does. */
  lemma NewestEntry(runs: seq<LogRun>, first: nat)
    requires runs != []
    ensures var w := Window(runs, first);
      && w != [] && w[|w| - 1] == EntryOf(runs[|runs| - 1], first + |runs| - 1)
      && forall i :: 0 <= i < |w| && w[i].seq_ == first + |runs| - 1 ==> i == |w| - 1
  {
  }

  lemma WindowExtended(runs: seq<LogRun>, first: nat, ts: nat)
    requires runs != [] && runs[|runs| - 1].count >= 1
    ensures var w, last := Window(runs, first), runs[|runs| - 1];
      && w != []
      && Window(Extended(runs, ts), first)
      == w[|w| - 1 := w[|w| - 1].(message := Folded(last.message, last.count + 1), ts := ts)]
  {
    var w, last, longer := Window(runs, first), runs[|runs| - 1], Extended(runs, ts);
    var folded := w[|w| - 1].(message := Folded(last.message, last.count + 1), ts := ts);
    forall i | 0 <= i < |w| ensures Window(longer, first)[i] == w[|w| - 1 := folded][i] {
      if i < |w| - 1 {
        assert longer[|runs| - |w| + i] == runs[|runs| - |w| + i];
      }
    }
  }

  lemma WindowAppended(runs: seq<LogRun>, first: nat, r: LogRun)
    ensures var w := Window(runs, first);
      Window(runs + [r], first)
        == (if |w| >= CAPACITY then w[1..] else w) + [EntryOf(r, first + |runs|)]
  {
    var w, longer := Window(runs, first), runs + [r];
    var kept := if |w| >= CAPACITY then w[1..] else w;
    forall i | 0 <= i < |kept| ensures Window(longer, first)[i] == kept[i] {
      var j := |longer| - (|kept| + 1) + i;
      assert longer[j] == runs[j];
    }
  }
}
