/** Sorting the signals a proxy thread sends while it starts and runs. */
module StartSignals {
  import opened Wrappers
  import opened Addresses

  /** A listening address, or an error; errors of the TUN layer are recognisable. */
  datatype Signal = Ready(addr: SocketAddr) | Fault(tun: bool, text: string)

  datatype Batch = Batch(
    readys: seq<SocketAddr>, failure: Option<string>, degraded: seq<string>, deadErrors: seq<string>)

  const NOTHING := Batch([], None, [], [])

  /** A signal that ends the batch: the proxy itself failed before it was ever ready. */
  predicate Fatal(s: Signal, sawReady: bool) { s.Fault? && !s.tun && !sawReady }

  /** What one signal that does not end the batch contributes. */
  function Sorted(s: Signal, disconnected: bool): Batch {
    match s
    case Ready(addr) => Batch([addr], None, [], [])
    case Fault(tun, text) => if tun || !disconnected then Batch([], None, [text], []) else Batch([], None, [], [text])
  }

  function Join(a: Batch, b: Batch): Batch {
    Batch(a.readys + b.readys, b.failure, a.degraded + b.degraded, a.deadErrors + b.deadErrors)
  }

  function Classify(msgs: seq<Signal>, sawReady: bool, disconnected: bool): Batch {
    if msgs == [] then NOTHING
    else if Fatal(msgs[0], sawReady) then NOTHING.(failure := Some(msgs[0].text))
    else Join(Sorted(msgs[0], disconnected), Classify(msgs[1..], sawReady || msgs[0].Ready?, disconnected))
  }

  lemma JoinIsAssociative(a: Batch, b: Batch, c: Batch)
    ensures Join(Join(a, b), c) == Join(a, Join(b, c))
  {
    assert a.readys + b.readys + c.readys == a.readys + (b.readys + c.readys);
    assert a.degraded + b.degraded + c.degraded == a.degraded + (b.degraded + c.degraded);
    assert a.deadErrors + b.deadErrors + c.deadErrors == a.deadErrors + (b.deadErrors + c.deadErrors);
  }

  lemma JoinNothing(a: Batch)
    ensures Join(NOTHING, a) == a
    ensures a.failure.None? ==> Join(a, NOTHING) == a
  {
    assert a.readys + [] == a.readys && a.degraded + [] == a.degraded && a.deadErrors + [] == a.deadErrors;
  }

  method ClassifySignals(msgs: seq<Signal>, proxyRunning: bool, disconnected: bool) returns (b: Batch)
    ensures b == Classify(msgs, proxyRunning, disconnected)
  {
    b := NOTHING;
    var sawReady := proxyRunning;
    JoinNothing(Classify(msgs, proxyRunning, disconnected));
    assert msgs[0..] == msgs;
    for i := 0 to |msgs|
      invariant b.failure.None?
      invariant Join(b, Classify(msgs[i..], sawReady, disconnected)) == Classify(msgs, proxyRunning, disconnected)
    {
      var s := msgs[i];
      assert msgs[i..][1..] == msgs[i + 1..];
      ghost var rest := Classify(msgs[i + 1..], sawReady || s.Ready?, disconnected);
      if Fatal(s, sawReady) {
        FailureEnds(b, s.text);
        b := b.(failure := Some(s.text));
        return;
      }
      JoinIsAssociative(b, Sorted(s, disconnected), rest);
      b := Add(b, s, disconnected);
      sawReady := sawReady || s.Ready?;
    }
    JoinNothing(b);
  }

  /** Push one signal onto the list it belongs to. */
  method Add(before: Batch, s: Signal, disconnected: bool) returns (b: Batch)
    ensures b == Join(before, Sorted(s, disconnected))
  {
    match s {
      case Ready(addr) => b := before.(readys := before.readys + [addr], failure := None);
      case Fault(tun, text) =>
        if tun || !disconnected {
          b := before.(degraded := before.degraded + [text], failure := None);
        } else {
          b := before.(deadErrors := before.deadErrors + [text], failure := None);
        }
    }
    JoinNothing(before.(failure := None));
  }

  lemma FailureEnds(b: Batch, text: string)
    ensures Join(b, NOTHING.(failure := Some(text))) == b.(failure := Some(text))
  {
    assert b.readys + [] == b.readys && b.degraded + [] == b.degraded && b.deadErrors + [] == b.deadErrors;
  }

  // ------------------------------------------------------------------- what it means

  /** Message `k` is the proxy's own error, and nothing said it was ready before. */
  predicate FatalAt(msgs: seq<Signal>, proxyRunning: bool, k: nat) {
    && k < |msgs| && !proxyRunning && msgs[k].Fault? && !msgs[k].tun
    && forall j :: 0 <= j < k ==> msgs[j].Fault? && msgs[j].tun
  }

  /** A batch fails exactly when such a message is in it, and then contains no ready signal. */
  lemma {:induction false} FailureMeansNeverReady(msgs: seq<Signal>, proxyRunning: bool, disconnected: bool)
    ensures var b := Classify(msgs, proxyRunning, disconnected);
            && (b.failure.Some? <==> exists k: nat :: FatalAt(msgs, proxyRunning, k))
            && (b.failure.Some? ==> b.readys == [] && b.deadErrors == [] && !proxyRunning)
  {
    var b := Classify(msgs, proxyRunning, disconnected);
    if msgs == [] {
    } else if Fatal(msgs[0], proxyRunning) {
      assert FatalAt(msgs, proxyRunning, 0);
    } else {
      var saw := proxyRunning || msgs[0].Ready?;
      FailureMeansNeverReady(msgs[1..], saw, disconnected);
      if b.failure.Some? {
        var k: nat :| FatalAt(msgs[1..], saw, k);
        assert FatalAt(msgs, proxyRunning, k + 1);
      }
      forall k: nat | FatalAt(msgs, proxyRunning, k) ensures FatalAt(msgs[1..], saw, k - 1) {
        assert msgs[0].Fault? && msgs[0].tun;
      }
    }
  }

  /** Without a failure every signal is in one of the lists. */
  lemma {:induction false} NothingIsLost(msgs: seq<Signal>, proxyRunning: bool, disconnected: bool)
    requires Classify(msgs, proxyRunning, disconnected).failure.None?
    ensures var b := Classify(msgs, proxyRunning, disconnected);
            && |b.readys| + |b.degraded| + |b.deadErrors| == |msgs|
            && (b.readys != [] <==> exists k :: 0 <= k < |msgs| && msgs[k].Ready?)
  {
    if msgs != [] {
      NothingIsLost(msgs[1..], proxyRunning || msgs[0].Ready?, disconnected);
    }
  }

  /**
   How the signals are cut into batches does not matter: if the first part does not fail, the
   whole is the parts side by side, the second one knowing whether the first saw a ready.
   */
  lemma {:induction false} BatchingDoesNotMatter(a: seq<Signal>, b: seq<Signal>, proxyRunning: bool, disconnected: bool)
    requires Classify(a, proxyRunning, disconnected).failure.None?
    ensures var first := Classify(a, proxyRunning, disconnected);
            Classify(a + b, proxyRunning, disconnected)
            == Join(first, Classify(b, proxyRunning || first.readys != [], disconnected))
  {
    if a == [] {
      assert a + b == b;
      JoinNothing(Classify(b, proxyRunning, disconnected));
    } else {
      var saw := proxyRunning || a[0].Ready?;
      var rest := Classify(a[1..], saw, disconnected);
      assert (a + b)[1..] == a[1..] + b;
      BatchingDoesNotMatter(a[1..], b, saw, disconnected);
      JoinIsAssociative(Sorted(a[0], disconnected), rest, Classify(b, saw || rest.readys != [], disconnected));
    }
  }

  /** And if the first part fails, what follows is not looked at. */
  lemma {:induction false} FailureCutsTheRest(a: seq<Signal>, b: seq<Signal>, proxyRunning: bool, disconnected: bool)
    requires Classify(a, proxyRunning, disconnected).failure.Some?
    ensures Classify(a + b, proxyRunning, disconnected) == Classify(a, proxyRunning, disconnected)
  {
    if !Fatal(a[0], proxyRunning) {
      assert (a + b)[1..] == a[1..] + b;
      FailureCutsTheRest(a[1..], b, proxyRunning || a[0].Ready?, disconnected);
    }
  }

  /** The texts of the errors that stem from TUN, or of the others, in order. */
  function Texts(msgs: seq<Signal>, tun: bool): seq<string> {
    if msgs == [] then []
    else (if msgs[0].Fault? && msgs[0].tun == tun then [msgs[0].text] else []) + Texts(msgs[1..], tun)
  }

  function AddressesOf(msgs: seq<Signal>): seq<SocketAddr> {
    if msgs == [] then [] else (if msgs[0].Ready? then [msgs[0].addr] else []) + AddressesOf(msgs[1..])
  }

  /**
   Once the thread is gone, errors of TUN degrade the session and the others are its last words;
   the ready signals are its addresses in order.
   */
  lemma {:induction false} LastWordsAreSorted(msgs: seq<Signal>, proxyRunning: bool)
    requires Classify(msgs, proxyRunning, true).failure.None?
    ensures var b := Classify(msgs, proxyRunning, true);
            b.readys == AddressesOf(msgs) && b.degraded == Texts(msgs, true) && b.deadErrors == Texts(msgs, false)
  {
    if msgs != [] {
      LastWordsAreSorted(msgs[1..], proxyRunning || msgs[0].Ready?);
    }
  }

  /** While it lives, no error is a last word. */
  lemma {:induction false} LivingThreadsHaveNoLastWords(msgs: seq<Signal>, proxyRunning: bool)
    ensures var b := Classify(msgs, proxyRunning, false);
            && b.deadErrors == []
            && (b.failure.None? ==> |b.degraded| == |Texts(msgs, true)| + |Texts(msgs, false)|)
  {
    if msgs != [] {
      LivingThreadsHaveNoLastWords(msgs[1..], proxyRunning || msgs[0].Ready?);
    }
  }
}
