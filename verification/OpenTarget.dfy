/**
 Opening a target through the best nodes, given what each node would answer: at most three
 nodes, with failed nodes marked offline and unreachable targets counted.
 */
module OpenTarget {
  import opened Wrappers
  import opened Addresses
  import opened Scheduling
  import opened Unreachable

  const MAX_NODE_ATTEMPTS := 3

  /** Every error that is neither of the first two counts as the node's fault. */
  datatype ConnectError =
    | TargetUnreachable(detail: string)
    | ProtocolError(detail: string)
    | NodeFault(detail: string)

  type Outcome = Result<(), ConnectError>

  /** What asking each node for the target would yield during this call. */
  type Handshakes = SocketAddr -> Outcome

  datatype OpenError = NoAvailableNodes | Refused(error: ConnectError)

  datatype Opened = Opened(
    result: Result<SocketAddr, OpenError>, marks: seq<SocketAddr>, counts: Counts, tried: nat, grants: nat)

  /**
   What one candidate does, given the outcome of its handshake: it ends the call, or it is
   passed over, marked if the node is to blame, or at the price of the target's one retry.
   */
  datatype Attempt =
    | Stop(result: Result<SocketAddr, OpenError>, counts: Counts)
    | Skip(error: ConnectError, counts: Counts)

  function AttemptAt(a: SocketAddr, outcome: Outcome, t: Target, now: nat, counts: Counts): Attempt {
    match outcome
    case Ok(_) => Stop(Ok(a), Cleared(counts, t))
    case Err(TargetUnreachable(d)) =>
      var after := Recorded(counts, t, now);
      if after[t].count >= FAILOVER_THRESHOLD then Skip(TargetUnreachable(d), Cleared(after, t))
      else Stop(Err(Refused(TargetUnreachable(d))), after)
    case Err(ProtocolError(d)) => Stop(Err(Refused(ProtocolError(d))), counts)
    case Err(NodeFault(d)) => Skip(NodeFault(d), counts)
  }

  /** How a candidate is judged at a time, given the counts so far. */
  type Judge = (SocketAddr, nat, Counts) -> Attempt

  function Judging(outcome: Handshakes, t: Target): Judge {
    (a: SocketAddr, now: nat, counts: Counts) => AttemptAt(a, outcome(a), t, now, counts)
  }

  predicate IsFault(o: Outcome) { o.Err? && o.error.NodeFault? }

  predicate IsUnreachable(o: Outcome) { o.Err? && o.error.TargetUnreachable? }

  predicate IsRetry(v: Attempt) { v.Skip? && v.error.TargetUnreachable? }

  /** The verdict `v` on `a` is what its outcome calls for, and the target's count pays for a retry. */
  predicate Fits(v: Attempt, a: SocketAddr, outcome: Outcome, t: Target, counts: Counts) {
    match v
    case Stop(Ok(b), _) => outcome.Ok? && b == a
    case Stop(Err(e), _) => e.Refused? && outcome.Err? && !IsFault(outcome) && outcome.error == e.error
    case Skip(e, after) =>
      && outcome == Err(e)
      && (if e.NodeFault? then after == counts else e.TargetUnreachable? && t in counts && t !in after)
  }

  ghost predicate Follows(judge: Judge, outcome: Handshakes, t: Target) {
    forall a, now, counts :: Fits(judge(a, now, counts), a, outcome(a), t, counts)
  }

  /** A target without a count is far from the threshold. */
  lemma FirstCountIsOne(t: Target, now: nat, counts: Counts)
    requires t !in counts
    ensures Recorded(counts, t, now)[t].count < FAILOVER_THRESHOLD
  {
    MakeRoomKeepsEntries(counts, now);
  }

  lemma AttemptFits(a: SocketAddr, outcome: Outcome, t: Target, now: nat, counts: Counts)
    ensures Fits(AttemptAt(a, outcome, t, now, counts), a, outcome, t, counts)
    ensures IsRetry(AttemptAt(a, outcome, t, now, counts)) <==>
              IsUnreachable(outcome) && Recorded(counts, t, now)[t].count >= FAILOVER_THRESHOLD
  {
    if t !in counts {
      FirstCountIsOne(t, now, counts);
    }
  }

  /** The judge of the candidate loop is such a one. */
  lemma JudgingFollows(outcome: Handshakes, t: Target)
    ensures Follows(Judging(outcome, t), outcome, t)
  {
    forall a, now, counts ensures Fits(Judging(outcome, t)(a, now, counts), a, outcome(a), t, counts) {
      AttemptFits(a, outcome(a), t, now, counts);
    }
  }

  /** A candidate passed over for error `e`, followed by the rest of the call. */
  function Past(a: SocketAddr, e: ConnectError, rest: Opened): Opened {
    Opened(rest.result, (if e.NodeFault? then [a] else []) + rest.marks, rest.counts,
           rest.tried + 1, rest.grants + (if e.TargetUnreachable? then 1 else 0))
  }

  /** The node an attempt marks, if it does. */
  function Blamed(a: SocketAddr, v: Attempt): seq<SocketAddr> {
    if v.Skip? && v.error.NodeFault? then [a] else []
  }

  /** The attempts from candidate `i` on; `last` is the error passed over last. */
  function OpenFrom(c: seq<SocketAddr>, judge: Judge, clock: nat -> nat, i: nat, counts: Counts,
                    last: ConnectError): Opened
    decreases |c| - i
  {
    if i >= |c| then Opened(Err(Refused(last)), [], counts, 0, 0)
    else
      match judge(c[i], clock(i), counts)
      case Stop(result, after) => Opened(result, [], after, 1, 0)
      case Skip(e, after) => Past(c[i], e, OpenFrom(c, judge, clock, i + 1, after, e))
  }

  /** The first three addresses of a ranking. */
  function Tried(ranking: seq<NodeInfo>): seq<SocketAddr> {
    seq(Min(MAX_NODE_ATTEMPTS, |ranking|), i requires 0 <= i < |ranking| => ranking[i].address)
  }

  const NEVER_REPORTED := NodeFault("All nodes failed")

  function Open(ranking: seq<NodeInfo>, judge: Judge, clock: nat -> nat, counts: Counts): Opened {
    if ranking == [] then Opened(Err(NoAvailableNodes), [], counts, 0, 0)
    else OpenFrom(Tried(ranking), judge, clock, 0, counts, NEVER_REPORTED)
  }

  function Marked(nodes: map<SocketAddr, NodeInfo>, marks: seq<SocketAddr>): map<SocketAddr, NodeInfo> {
    map a | a in nodes :: if a in marks then nodes[a].(status := Offline) else nodes[a]
  }

  // ----------------------------------------------------------------- results

  /** The candidates `i` to `k` whose handshake failed through the node's own fault. */
  function Faulty(c: seq<SocketAddr>, outcome: Handshakes, i: nat, k: nat): seq<SocketAddr>
    requires k <= |c|
    decreases k - i
  {
    if i >= k then [] else (if IsFault(outcome(c[i])) then [c[i]] else []) + Faulty(c, outcome, i + 1, k)
  }

  /**
   The node returned is the last one tried and its handshake succeeded; a failed call with
   candidates reports one of their errors.
   */
  lemma {:induction false} WinnerIsLastTried(c: seq<SocketAddr>, judge: Judge, outcome: Handshakes, t: Target,
                                             clock: nat -> nat, i: nat, counts: Counts, last: ConnectError)
    requires i <= |c| && Follows(judge, outcome, t)
    ensures var o := OpenFrom(c, judge, clock, i, counts, last);
      && i + o.tried <= |c|
      && (o.result.Ok? ==> o.tried >= 1 && o.result.value == c[i + o.tried - 1] && outcome(o.result.value).Ok?)
      && (o.result.Err? ==>
            if i == |c| then o.result.error == Refused(last)
            else o.tried >= 1 && o.result.error.Refused? && outcome(c[i + o.tried - 1]) == Err(o.result.error.error))
    decreases |c| - i
  {
    if i < |c| {
      var v := judge(c[i], clock(i), counts);
      assert Fits(v, c[i], outcome(c[i]), t, counts);
      if v.Skip? {
        WinnerIsLastTried(c, judge, outcome, t, clock, i + 1, v.counts, v.error);
      }
    }
  }

  /**
   The marks are exactly the tried nodes whose handshake failed for a reason of their own,
   in the order they were tried.
   */
  lemma {:induction false} MarksAreTheFaultyNodes(c: seq<SocketAddr>, judge: Judge, outcome: Handshakes, t: Target,
                                                  clock: nat -> nat, i: nat, counts: Counts, last: ConnectError)
    requires i <= |c| && Follows(judge, outcome, t)
    ensures var o := OpenFrom(c, judge, clock, i, counts, last);
      i + o.tried <= |c| && o.marks == Faulty(c, outcome, i, i + o.tried)
    decreases |c| - i
  {
    if i < |c| {
      var v := judge(c[i], clock(i), counts);
      assert Fits(v, c[i], outcome(c[i]), t, counts);
      if v.Skip? {
        MarksAreTheFaultyNodes(c, judge, outcome, t, clock, i + 1, v.counts, v.error);
      }
    }
  }

  lemma {:induction false} FaultyMembers(c: seq<SocketAddr>, outcome: Handshakes, i: nat, k: nat)
    requires i <= k <= |c|
    ensures |Faulty(c, outcome, i, k)| <= k - i
    ensures forall a <- Faulty(c, outcome, i, k) :: IsFault(outcome(a)) && exists j :: i <= j < k && c[j] == a
    decreases k - i
  {
    if i < k {
      FaultyMembers(c, outcome, i + 1, k);
    }
  }

  /** At most three nodes are marked, each of them for its own fault, and never the winner. */
  lemma MarksAreFewAndNeverTheWinner(ranking: seq<NodeInfo>, outcome: Handshakes, t: Target,
                                     clock: nat -> nat, counts: Counts)
    ensures var o := Open(ranking, Judging(outcome, t), clock, counts);
      && |o.marks| <= MAX_NODE_ATTEMPTS
      && (forall a <- o.marks :: IsFault(outcome(a)) && exists k :: 0 <= k < |ranking| && ranking[k].address == a)
      && (o.result.Ok? ==> o.result.value !in o.marks)
  {
    JudgingFollows(outcome, t);
    FewMarks(ranking, Judging(outcome, t), outcome, t, clock, counts);
  }

  lemma FewMarks(ranking: seq<NodeInfo>, judge: Judge, outcome: Handshakes, t: Target, clock: nat -> nat,
                 counts: Counts)
    requires Follows(judge, outcome, t)
    ensures var o := Open(ranking, judge, clock, counts);
      && |o.marks| <= MAX_NODE_ATTEMPTS
      && (forall a <- o.marks :: IsFault(outcome(a)) && exists k :: 0 <= k < |ranking| && ranking[k].address == a)
      && (o.result.Ok? ==> o.result.value !in o.marks)
  {
    if ranking != [] {
      var c := Tried(ranking);
      var o := OpenFrom(c, judge, clock, 0, counts, NEVER_REPORTED);
      WinnerIsLastTried(c, judge, outcome, t, clock, 0, counts, NEVER_REPORTED);
      MarksAreTheFaultyNodes(c, judge, outcome, t, clock, 0, counts, NEVER_REPORTED);
      FaultyAreRanked(ranking, outcome, o.tried, o.marks);
    }
  }

  /** The faulty ones among the first `k` tried: few, each at fault and ranked. */
  lemma FaultyAreRanked(ranking: seq<NodeInfo>, outcome: Handshakes, k: nat, marks: seq<SocketAddr>)
    requires k <= |Tried(ranking)| && marks == Faulty(Tried(ranking), outcome, 0, k)
    ensures |marks| <= MAX_NODE_ATTEMPTS
    ensures forall a <- marks ::
              && IsFault(outcome(a)) && (exists j :: 0 <= j < |ranking| && ranking[j].address == a)
              && a in Tried(ranking)[..k]
  {
    FaultyMembers(Tried(ranking), outcome, 0, k);
    forall a | a in marks ensures exists j :: 0 <= j < |ranking| && ranking[j].address == a {
      MarkedIsRanked(ranking, outcome, k, a);
    }
  }

  lemma MarkedIsRanked(ranking: seq<NodeInfo>, outcome: Handshakes, k: nat, a: SocketAddr)
    requires k <= |Tried(ranking)| && a in Faulty(Tried(ranking), outcome, 0, k)
    ensures exists j :: 0 <= j < |ranking| && ranking[j].address == a
  {
    FaultyMembers(Tried(ranking), outcome, 0, k);
    var j :| 0 <= j < k && Tried(ranking)[j] == a;
    assert ranking[j].address == a;
  }

  /** A target with no count cannot reach the threshold again within the call. */
  lemma {:induction false} NoGrantFromZero(c: seq<SocketAddr>, judge: Judge, outcome: Handshakes, t: Target,
                                           clock: nat -> nat, i: nat, counts: Counts, last: ConnectError)
    requires Follows(judge, outcome, t) && t !in counts
    ensures OpenFrom(c, judge, clock, i, counts, last).grants == 0
    decreases |c| - i
  {
    if i < |c| {
      var v := judge(c[i], clock(i), counts);
      assert Fits(v, c[i], outcome(c[i]), t, counts);
      if v.Skip? {
        NoGrantFromZero(c, judge, outcome, t, clock, i + 1, v.counts, v.error);
      }
    }
  }

  /** One call uses up at most one retry on another node. */
  lemma {:induction false} AtMostOneGrant(c: seq<SocketAddr>, judge: Judge, outcome: Handshakes, t: Target,
                                          clock: nat -> nat, i: nat, counts: Counts, last: ConnectError)
    requires Follows(judge, outcome, t)
    ensures OpenFrom(c, judge, clock, i, counts, last).grants <= 1
    decreases |c| - i
  {
    if i < |c| {
      var v := judge(c[i], clock(i), counts);
      assert Fits(v, c[i], outcome(c[i]), t, counts);
      if IsRetry(v) {
        NoGrantFromZero(c, judge, outcome, t, clock, i + 1, v.counts, v.error);
      } else if v.Skip? {
        AtMostOneGrant(c, judge, outcome, t, clock, i + 1, v.counts, v.error);
      }
    }
  }

  predicate AllFaulty(c: seq<SocketAddr>, outcome: Handshakes, i: nat, k: nat)
    requires k <= |c|
  {
    forall j :: i <= j < k ==> IsFault(outcome(c[j]))
  }

  /** Candidates `i` to `k` can all be passed over: faulty nodes, but for at most one retry. */
  ghost predicate Passable(c: seq<SocketAddr>, judge: Judge, outcome: Handshakes, clock: nat -> nat,
                           i: nat, k: nat, counts: Counts)
    requires k <= |c|
  {
    || AllFaulty(c, outcome, i, k)
    || exists j: nat :: RetryAt(c, judge, outcome, clock, i, k, counts, j)
  }

  /** Candidate `j` uses the target's retry, and the others are faulty nodes. */
  ghost predicate RetryAt(c: seq<SocketAddr>, judge: Judge, outcome: Handshakes, clock: nat -> nat,
                          i: nat, k: nat, counts: Counts, j: nat)
    requires k <= |c|
  {
    && i <= j < k && IsRetry(judge(c[j], clock(j), counts))
    && AllFaulty(c, outcome, i, j) && AllFaulty(c, outcome, j + 1, k)
  }

  /** The `n`-th candidate tried answered. */
  predicate WinsAt(o: Opened, n: nat) { o.result.Ok? && o.tried == n }

  /** How one candidate shifts the question of who wins. */
  lemma WinnerFromHere(c: seq<SocketAddr>, judge: Judge, outcome: Handshakes, t: Target, clock: nat -> nat,
                       i: nat, n: nat, counts: Counts, last: ConnectError)
    requires i < |c| && n >= 1 && Follows(judge, outcome, t)
    ensures var o, v := OpenFrom(c, judge, clock, i, counts, last), judge(c[i], clock(i), counts);
      && (IsFault(outcome(c[i])) <==> v.Skip? && v.error.NodeFault?)
      && (v.Skip? ==> (WinsAt(o, n + 1) <==> WinsAt(OpenFrom(c, judge, clock, i + 1, v.counts, v.error), n)))
      && (v.Stop? ==> !WinsAt(o, n + 1))
  {
    assert Fits(judge(c[i], clock(i), counts), c[i], outcome(c[i]), t, counts);
  }

  lemma {:induction false} WinnerAfterRetry(c: seq<SocketAddr>, judge: Judge, outcome: Handshakes, t: Target,
      clock: nat -> nat, i: nat, k: nat, counts: Counts, last: ConnectError)
    requires i <= k < |c| && t !in counts && Follows(judge, outcome, t)
    ensures WinsAt(OpenFrom(c, judge, clock, i, counts, last), k - i + 1)
       <==> outcome(c[k]).Ok? && AllFaulty(c, outcome, i, k)
    decreases |c| - i
  {
    var v := judge(c[i], clock(i), counts);
    assert Fits(v, c[i], outcome(c[i]), t, counts);
    if i == k {
      WinnerIsLastTried(c, judge, outcome, t, clock, i, counts, last);
    } else {
      WinnerFromHere(c, judge, outcome, t, clock, i, k - i, counts, last);
      if v.Skip? {
        WinnerAfterRetry(c, judge, outcome, t, clock, i + 1, k, counts, v.error);
      }
      assert AllFaulty(c, outcome, i, k) <==> IsFault(outcome(c[i])) && AllFaulty(c, outcome, i + 1, k);
    }
  }

  /**
   Which candidate wins, in both directions: the first that answers, provided everything
   before it can be passed over.
   */
  lemma {:induction false} WinnerIsFirstPastPassable(c: seq<SocketAddr>, judge: Judge, outcome: Handshakes, t: Target,
      clock: nat -> nat, i: nat, k: nat, counts: Counts, last: ConnectError)
    requires i <= k < |c| && Follows(judge, outcome, t)
    ensures WinsAt(OpenFrom(c, judge, clock, i, counts, last), k - i + 1)
       <==> outcome(c[k]).Ok? && Passable(c, judge, outcome, clock, i, k, counts)
    decreases |c| - i
  {
    var v := judge(c[i], clock(i), counts);
    assert Fits(v, c[i], outcome(c[i]), t, counts);
    if i == k {
      WinnerIsLastTried(c, judge, outcome, t, clock, i, counts, last);
      assert AllFaulty(c, outcome, i, k);
    } else {
      WinnerFromHere(c, judge, outcome, t, clock, i, k - i, counts, last);
      PassableFromHere(c, judge, outcome, t, clock, i, k, counts);
      if IsRetry(v) {
        WinnerAfterRetry(c, judge, outcome, t, clock, i + 1, k, v.counts, v.error);
      } else if v.Skip? {
        WinnerIsFirstPastPassable(c, judge, outcome, t, clock, i + 1, k, counts, v.error);
      }
    }
  }

  lemma PassableFromHere(c: seq<SocketAddr>, judge: Judge, outcome: Handshakes, t: Target, clock: nat -> nat,
                         i: nat, k: nat, counts: Counts)
    requires i < k <= |c| && Follows(judge, outcome, t)
    ensures var v := judge(c[i], clock(i), counts);
            Passable(c, judge, outcome, clock, i, k, counts) <==>
              || (IsFault(outcome(c[i])) && Passable(c, judge, outcome, clock, i + 1, k, counts))
              || (IsRetry(v) && AllFaulty(c, outcome, i + 1, k))
  {
    var v := judge(c[i], clock(i), counts);
    assert Fits(v, c[i], outcome(c[i]), t, counts);
    AllFaultyFromHere(c, outcome, i, k);
    if Passable(c, judge, outcome, clock, i, k, counts) && !AllFaulty(c, outcome, i, k) {
      var j: nat :| RetryAt(c, judge, outcome, clock, i, k, counts, j);
      if j > i {
        AllFaultyFromHere(c, outcome, i, j);
        assert RetryAt(c, judge, outcome, clock, i + 1, k, counts, j);
      }
    }
    if && IsFault(outcome(c[i])) && Passable(c, judge, outcome, clock, i + 1, k, counts)
       && !AllFaulty(c, outcome, i + 1, k)
    {
      var j: nat :| RetryAt(c, judge, outcome, clock, i + 1, k, counts, j);
      AllFaultyFromHere(c, outcome, i, j);
      assert RetryAt(c, judge, outcome, clock, i, k, counts, j);
    }
    if IsRetry(v) && AllFaulty(c, outcome, i + 1, k) {
      assert RetryAt(c, judge, outcome, clock, i, k, counts, i);
    }
  }

  lemma AllFaultyFromHere(c: seq<SocketAddr>, outcome: Handshakes, i: nat, k: nat)
    requires i < k <= |c|
    ensures AllFaulty(c, outcome, i, k) <==> IsFault(outcome(c[i])) && AllFaulty(c, outcome, i + 1, k)
  {
  }

  /**
   Less than Online is used only as a last resort: when the call returns a node that was not
   Online, every Online node was tried before it and failed, and there were at most two.
   */
  lemma OnlineNodesComeFirst(score: Score, nodes: map<SocketAddr, NodeInfo>, ranking: seq<NodeInfo>,
                             outcome: Handshakes, t: Target, clock: nat -> nat, counts: Counts, k: nat)
    requires Keyed(nodes) && IsRanking(score, nodes, ranking)
    requires WinsAt(Open(ranking, Judging(outcome, t), clock, counts), k + 1)
    requires k < |ranking| && !ranking[k].status.Online?
    ensures k < MAX_NODE_ATTEMPTS
    ensures forall n :: n in nodes.Values && n.status.Online? ==> n in ranking[..k] && outcome(n.address).Err?
  {
    JudgingFollows(outcome, t);
    var c, judge := Tried(ranking), Judging(outcome, t);
    PassedOverFailed(c, judge, outcome, t, clock, k, counts);
    forall n | n in nodes.Values && n.status.Online? ensures n in ranking[..k] && outcome(n.address).Err? {
      assert n in ranking;
      var j :| 0 <= j < |ranking| && ranking[j] == n;
      assert j < k;
      assert ranking[..k][j] == n && c[j] == n.address;
    }
  }

  lemma PassedOverFailed(c: seq<SocketAddr>, judge: Judge, outcome: Handshakes, t: Target, clock: nat -> nat,
                         k: nat, counts: Counts)
    requires Follows(judge, outcome, t) && WinsAt(OpenFrom(c, judge, clock, 0, counts, NEVER_REPORTED), k + 1)
    ensures k < |c| && forall j :: 0 <= j < k ==> outcome(c[j]).Err?
  {
    WinnerIsLastTried(c, judge, outcome, t, clock, 0, counts, NEVER_REPORTED);
    WinnerIsFirstPastPassable(c, judge, outcome, t, clock, 0, k, counts, NEVER_REPORTED);
    if AllFaulty(c, outcome, 0, k) {
      forall m | 0 <= m < k ensures outcome(c[m]).Err? {
        assert IsFault(outcome(c[m]));
      }
    } else {
      var j: nat :| RetryAt(c, judge, outcome, clock, 0, k, counts, j);
      assert Fits(judge(c[j], clock(j), counts), c[j], outcome(c[j]), t, counts);
      forall m | 0 <= m < k ensures outcome(c[m]).Err? {
        assert m != j ==> IsFault(outcome(c[m]));
      }
    }
  }

  /** The first `k` of a ranking are faulty and the next one answers. */
  predicate AnswersAfter(ranking: seq<NodeInfo>, outcome: Handshakes, k: nat) {
    && k < |ranking| && outcome(ranking[k].address).Ok?
    && forall j :: 0 <= j < k ==> IsFault(outcome(ranking[j].address))
  }

  /**
   A second and a third candidate are tried, and no fourth: with `k` faulty nodes before the
   first that answers, that one is returned if and only if k is at most two.
   */
  lemma ThreeAreTried(ranking: seq<NodeInfo>, outcome: Handshakes, t: Target, clock: nat -> nat, counts: Counts, k: nat)
    requires AnswersAfter(ranking, outcome, k)
    ensures var o := Open(ranking, Judging(outcome, t), clock, counts);
            && (k <= 2 ==> o.result == Ok(ranking[k].address) && o.tried == k + 1 && |o.marks| == k)
            && (k > 2 ==> o.result.Err? && o.tried == 3 && |o.marks| == 3)
  {
    FaultyFrom(Tried(ranking), Judging(outcome, t), outcome, t, clock, 0, Min(k, 3), counts, NEVER_REPORTED);
  }

  /** Faulty candidates are passed over one by one, up to the first that answers or the end of the list. */
  lemma {:induction false} FaultyFrom(c: seq<SocketAddr>, judge: Judge, outcome: Handshakes, t: Target,
                                      clock: nat -> nat, i: nat, k: nat, counts: Counts, last: ConnectError)
    requires Follows(judge, outcome, t) && i <= k <= |c|
    requires (forall j :: i <= j < k ==> IsFault(outcome(c[j]))) && (k < |c| ==> outcome(c[k]).Ok?)
    ensures var o := OpenFrom(c, judge, clock, i, counts, last);
            && |o.marks| == k - i
            && (k < |c| ==> o.result == Ok(c[k]) && o.tried == k - i + 1)
            && (k == |c| ==> o.result.Err? && o.tried == k - i)
    decreases k - i
  {
    if i < |c| {
      var v := judge(c[i], clock(i), counts);
      assert Fits(v, c[i], outcome(c[i]), t, counts);
      if i < k {
        FaultyFrom(c, judge, outcome, t, clock, i + 1, k, v.counts, v.error);
      }
    }
  }
}
