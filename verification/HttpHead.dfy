/**
 Reading an HTTP request head: bytes are appended until the first blank line shows up, the
 buffer outgrows its limit, the peer closes, or a read fails. How the stream is cut into
 reads is up to the network, so the arrivals are an oracle.
 */
module HttpHead {
  import opened Wrappers

  const MAX_HTTP_HEAD := 64 * 1024
  const READ_BUF := 4096
  const BLANK_LINE: seq<Byte> := [13, 10, 13, 10]

  /** One read: it wishes for some bytes, or fails (an I/O error or either deadline). */
  datatype ReadEvent = Arrives(wish: nat) | Fails

  type Arrivals = nat -> ReadEvent

  datatype HeadOutcome =
    | Head(raw: seq<Byte>, end: Option<nat>)
    | TooLarge(raw: seq<Byte>)
    | ReadFailed(raw: seq<Byte>)

  /** A read returns nothing only at the end of the stream. */
  function ReadSize(wish: nat, available: nat): (n: nat)
    ensures n <= available && n <= READ_BUF && (n == 0 <==> available == 0)
  {
    if available == 0 then 0
    else if wish == 0 then 1
    else Min(wish, Min(available, READ_BUF))
  }

  predicate BlankLineAt(raw: seq<Byte>, i: nat) {
    i + 4 <= |raw| && raw[i..i + 4] == BLANK_LINE
  }

  function FindFrom(raw: seq<Byte>, i: nat): Option<nat>
    decreases |raw| - i
  {
    if |raw| < i + 4 then None
    else if BlankLineAt(raw, i) then Some(i)
    else FindFrom(raw, i + 1)
  }

  /** Where the first blank line starts. */
  function FindHeaderEnd(raw: seq<Byte>): Option<nat> { FindFrom(raw, 0) }

  lemma {:induction false} FindFromIsFirst(raw: seq<Byte>, i: nat, p: nat)
    requires i <= p
    ensures FindFrom(raw, i) == Some(p) <==> BlankLineAt(raw, p) && forall j :: i <= j < p ==> !BlankLineAt(raw, j)
    decreases |raw| - i
  {
    if i + 4 <= |raw| && !BlankLineAt(raw, i) && i < p {
      FindFromIsFirst(raw, i + 1, p);
    }
    if i + 4 <= |raw| && !BlankLineAt(raw, i) && i == p {
      FindFromIsLater(raw, i + 1);
    }
  }

  lemma {:induction false} FindFromIsLater(raw: seq<Byte>, i: nat)
    ensures FindFrom(raw, i).Some? ==> i <= FindFrom(raw, i).value
    decreases |raw| - i
  {
    if i + 4 <= |raw| && !BlankLineAt(raw, i) {
      FindFromIsLater(raw, i + 1);
    }
  }

  /** The search returns the least position of a blank line, and finds one if there is any. */
  lemma FindHeaderEndIsFirst(raw: seq<Byte>, p: nat)
    ensures FindHeaderEnd(raw) == Some(p) <==> BlankLineAt(raw, p) && forall j: nat :: j < p ==> !BlankLineAt(raw, j)
  {
    FindFromIsFirst(raw, 0, p);
  }

  /** What a prefix of the stream shows is the stream's own blank line, once it is complete. */
  lemma PrefixShowsTheSameEnd(stream: seq<Byte>, n: nat)
    requires n <= |stream|
    ensures FindHeaderEnd(stream[..n]) ==
            var whole := FindHeaderEnd(stream);
            if whole.Some? && whole.value + 4 <= n then whole else None
  {
    var raw := stream[..n];
    forall j: nat ensures BlankLineAt(raw, j) <==> BlankLineAt(stream, j) && j + 4 <= n {
      if j + 4 <= n {
        assert raw[j..j + 4] == stream[j..j + 4];
      }
    }
    if FindHeaderEnd(raw).Some? {
      FindHeaderEndIsFirst(raw, FindHeaderEnd(raw).value);
      FindHeaderEndIsFirst(stream, FindHeaderEnd(raw).value);
    } else if FindHeaderEnd(stream).Some? {
      FindHeaderEndIsFirst(stream, FindHeaderEnd(stream).value);
      FindHeaderEndIsFirst(raw, FindHeaderEnd(stream).value);
    }
  }

  // --------------------------------------------------------------- the loop

  /** The loop from a buffer `raw` with `live` still to come; `k` counts the reads done. */
  function HeadLoop(raw: seq<Byte>, live: seq<Byte>, arrivals: Arrivals, k: nat): HeadOutcome
    decreases |live|
  {
    if FindHeaderEnd(raw).Some? then Head(raw, FindHeaderEnd(raw))
    else if |raw| > MAX_HTTP_HEAD then TooLarge(raw)
    else
      match arrivals(k)
      case Fails => ReadFailed(raw)
      case Arrives(wish) =>
        var n := ReadSize(wish, |live|);
        if n == 0 then Head(raw, None) else HeadLoop(raw + live[..n], live[n..], arrivals, k + 1)
  }

  /** What a caller can see of an outcome: the head's end, or why there is none. */
  datatype Verdict = BlankLine(at: nat) | EndOfStream | Oversized | Unreadable

  function VerdictOf(o: HeadOutcome): Verdict {
    match o
    case Head(_, Some(p)) => BlankLine(p)
    case Head(_, None) => EndOfStream
    case TooLarge(_) => Oversized
    case ReadFailed(_) => Unreadable
  }

  function HeadVerdict(stream: seq<Byte>, first: nat, arrivals: Arrivals): Verdict
    requires first <= |stream|
  {
    VerdictOf(HeadLoop(stream[..first], stream[first..], arrivals, 0))
  }

  /** The verdict for a stream whose blank line, if any, is not in the grey zone. */
  function SettledVerdict(stream: seq<Byte>): Verdict {
    match FindHeaderEnd(stream)
    case Some(p) => if p + 4 <= MAX_HTTP_HEAD + 1 then BlankLine(p) else Oversized
    case None => if |stream| <= MAX_HTTP_HEAD then EndOfStream else Oversized
  }

  /** The blank line ends past the limit but within one read of it. */
  predicate GreyZone(stream: seq<Byte>) {
    var end := FindHeaderEnd(stream);
    end.Some? && MAX_HTTP_HEAD + 1 < end.value + 4 <= MAX_HTTP_HEAD + READ_BUF
  }

  lemma {:induction false} SettledLoop(stream: seq<Byte>, n: nat, arrivals: Arrivals, k: nat)
    requires n <= |stream| && n <= MAX_HTTP_HEAD + READ_BUF && !GreyZone(stream)
    ensures VerdictOf(HeadLoop(stream[..n], stream[n..], arrivals, k)) in {SettledVerdict(stream), Unreadable}
    ensures (forall i :: arrivals(i).Arrives?) ==>
              VerdictOf(HeadLoop(stream[..n], stream[n..], arrivals, k)) == SettledVerdict(stream)
    decreases |stream| - n
  {
    PrefixShowsTheSameEnd(stream, n);
    assert stream[..|stream|] == stream;
    if FindHeaderEnd(stream[..n]).None? && n <= MAX_HTTP_HEAD && arrivals(k).Arrives? && n < |stream| {
      var more := ReadSize(arrivals(k).wish, |stream[n..]|);
      assert stream[..n] + stream[n..][..more] == stream[..n + more];
      assert stream[n..][more..] == stream[n + more..];
      SettledLoop(stream, n + more, arrivals, k + 1);
    }
  }

  /**
   Outside the grey zone the verdict is a function of the stream: no cut of it into reads
   changes it, and only a failing read can replace it.
   */
  lemma VerdictIgnoresCuts(stream: seq<Byte>, first: nat, arrivals: Arrivals)
    requires first <= |stream| && first <= READ_BUF && !GreyZone(stream)
    ensures HeadVerdict(stream, first, arrivals) in {SettledVerdict(stream), Unreadable}
    ensures (forall i :: arrivals(i).Arrives?) ==> HeadVerdict(stream, first, arrivals) == SettledVerdict(stream)
  {
    SettledLoop(stream, first, arrivals, 0);
  }

  /** Single bytes up to `until`, then full buffers. */
  function Trickle(until: nat): Arrivals {
    (k: nat) => if k + 1 < until then Arrives(1) else Arrives(READ_BUF)
  }

  lemma {:induction false} TrickleReaches(stream: seq<Byte>, until: nat, k: nat)
    requires 1 <= k + 1 <= until <= MAX_HTTP_HEAD + 1 && until <= |stream|
    requires FindHeaderEnd(stream).Some? && FindHeaderEnd(stream).value + 4 > until
    ensures HeadLoop(stream[..k + 1], stream[k + 1..], Trickle(until), k)
         == HeadLoop(stream[..until], stream[until..], Trickle(until), until - 1)
    decreases until - k
  {
    if k + 1 < until {
      PrefixShowsTheSameEnd(stream, k + 1);
      assert stream[..k + 1] + stream[k + 1..][..1] == stream[..k + 2];
      assert stream[k + 1..][1..] == stream[k + 2..];
      TrickleReaches(stream, until, k + 1);
    }
  }

  lemma TrickleIsOversized(stream: seq<Byte>, p: nat)
    requires FindHeaderEnd(stream) == Some(p) && p + 4 > MAX_HTTP_HEAD + 1
    ensures |stream| > MAX_HTTP_HEAD && HeadVerdict(stream, 1, Trickle(MAX_HTTP_HEAD + 1)) == Oversized
  {
    FindHeaderEndIsFirst(stream, p);
    TrickleReaches(stream, MAX_HTTP_HEAD + 1, 0);
    PrefixShowsTheSameEnd(stream, MAX_HTTP_HEAD + 1);
  }

  /** A full read that brings in the blank line, from a buffer that may still be read into. */
  lemma LastRead(stream: seq<Byte>, until: nat, arrivals: Arrivals, k: nat, p: nat)
    requires FindHeaderEnd(stream) == Some(p) && until < p + 4 <= until + READ_BUF
    requires until <= MAX_HTTP_HEAD && until <= |stream| && arrivals(k) == Arrives(READ_BUF)
    ensures VerdictOf(HeadLoop(stream[..until], stream[until..], arrivals, k)) == BlankLine(p)
  {
    FindHeaderEndIsFirst(stream, p);
    PrefixShowsTheSameEnd(stream, until);
    var raw, live := stream[..until], stream[until..];
    var n := ReadSize(READ_BUF, |live|);
    assert raw + live[..n] == stream[..until + n];
    PrefixShowsTheSameEnd(stream, until + n);
  }

  lemma LastReadIsAccepted(stream: seq<Byte>, p: nat)
    requires FindHeaderEnd(stream) == Some(p) && MAX_HTTP_HEAD < p + 4 <= MAX_HTTP_HEAD + READ_BUF
    ensures |stream| > MAX_HTTP_HEAD && HeadVerdict(stream, 1, Trickle(MAX_HTTP_HEAD)) == BlankLine(p)
  {
    FindHeaderEndIsFirst(stream, p);
    TrickleReaches(stream, MAX_HTTP_HEAD, 0);
    LastRead(stream, MAX_HTTP_HEAD, Trickle(MAX_HTTP_HEAD), MAX_HTTP_HEAD - 1, p);
  }

  /**
   In the grey zone the cut decides: a client sending byte by byte is turned away as
   oversized, the same bytes arriving in one last full read are accepted.
   */
  lemma GreyZoneDependsOnCuts(stream: seq<Byte>)
    requires GreyZone(stream)
    ensures HeadVerdict(stream, 1, Trickle(MAX_HTTP_HEAD + 1)) == Oversized
    ensures HeadVerdict(stream, 1, Trickle(MAX_HTTP_HEAD)) == BlankLine(FindHeaderEnd(stream).value)
  {
    TrickleIsOversized(stream, FindHeaderEnd(stream).value);
    LastReadIsAccepted(stream, FindHeaderEnd(stream).value);
  }

  /** The head loop is independent of the cut exactly outside the grey zone. */
  lemma CutIndependentIffSettled(stream: seq<Byte>)
    requires stream != []
    ensures !GreyZone(stream) <==>
            forall first: nat, arrivals: Arrivals
              | first <= |stream| && first <= READ_BUF && (forall i :: arrivals(i).Arrives?)
              :: HeadVerdict(stream, first, arrivals) == SettledVerdict(stream)
  {
    if GreyZone(stream) {
      GreyZoneDependsOnCuts(stream);
      assert forall i: nat :: Trickle(MAX_HTTP_HEAD)(i).Arrives?;
    } else {
      forall first: nat, arrivals: Arrivals
        | first <= |stream| && first <= READ_BUF && (forall i :: arrivals(i).Arrives?)
        ensures HeadVerdict(stream, first, arrivals) == SettledVerdict(stream)
      {
        VerdictIgnoresCuts(stream, first, arrivals);
      }
    }
  }

  lemma {:induction false} LoopKeepsBytes(raw: seq<Byte>, live: seq<Byte>, arrivals: Arrivals, k: nat)
    ensures var o := HeadLoop(raw, live, arrivals, k); raw <= o.raw <= raw + live
    decreases |live|
  {
    if FindHeaderEnd(raw).None? && |raw| <= MAX_HTTP_HEAD && arrivals(k).Arrives? && live != [] {
      var n := ReadSize(arrivals(k).wish, |live|);
      assert raw + live[..n] + live[n..] == raw + live;
      LoopKeepsBytes(raw + live[..n], live[n..], arrivals, k + 1);
    }
  }
}
