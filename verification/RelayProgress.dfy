/**
 What the relay can always still do: peers that go on reading, writing and ending their streams
 get both streams whole, whichever side has closed first; and how each failure comes out.
 */
module RelayProgress {
  import opened Wrappers
  import opened Relay

  // ------------------------------------------------------------------- one pump

  predicate Reads(e: LaneEvent) { e.Read? || e.ReadEof? || e.Write? }

  function LaneRun(link: Link, isUp: bool, lane: Lane, steps: seq<LaneEvent>): Option<Lane> {
    if steps == [] then Some(lane)
    else
      match LaneRun(link, isUp, lane, steps[..|steps| - 1])
      case None => None
      case Some(mid) => LaneStep(link, isUp, false, mid, steps[|steps| - 1])
  }

  /** Neither failed, nor panicked, nor aborted. */
  predicate Sound(lane: Lane) { lane.phase.Reading? || lane.phase.Writing? || Clean(lane) }

  ghost predicate Gets(link: Link, isUp: bool, lane: Lane, steps: seq<LaneEvent>, to_: Lane) {
    (forall e <- steps :: Reads(e)) && LaneRun(link, isUp, lane, steps) == Some(to_)
  }

  lemma GetsFurther(link: Link, isUp: bool, lane: Lane, steps: seq<LaneEvent>, mid: Lane, e: LaneEvent)
    requires Gets(link, isUp, lane, steps, mid) && Reads(e) && LaneStep(link, isUp, false, mid, e).Some?
    ensures Gets(link, isUp, lane, steps + [e], LaneStep(link, isUp, false, mid, e).value)
  {
    assert (steps + [e])[..|steps|] == steps;
  }

  /** The next thing a sound pump does when its peers let it. */
  function Eager(lane: Lane): LaneEvent {
    if lane.phase.Writing? then Write(|lane.phase.rest|)
    else if lane.unread == [] then ReadEof
    else Read(Min(RELAY_BUF, |lane.unread|))
  }

  lemma EagerSteps(link: Link, isUp: bool, stream: seq<Byte>, lane: Lane)
    requires LaneInv(stream, lane) && Sound(lane) && !Clean(lane)
    ensures var next := LaneStep(link, isUp, false, lane, Eager(lane));
            && next.Some? && LaneInv(stream, next.value) && Sound(next.value)
            && (Clean(next.value) || |next.value.unread| < |lane.unread|
                || (|next.value.unread| == |lane.unread| && lane.phase.Writing? && next.value.phase.Reading?))
  {
    LaneStepKeepsInv(link, isUp, false, stream, lane, Eager(lane));
  }

  /** A sound pump can carry its whole stream to the end. */
  lemma {:induction false} PumpCanFinish(link: Link, isUp: bool, stream: seq<Byte>, start: Lane,
                                         steps: seq<LaneEvent>, lane: Lane)
    returns (all: seq<LaneEvent>, end: Lane)
    requires Gets(link, isUp, start, steps, lane) && LaneInv(stream, lane) && Sound(lane)
    ensures Gets(link, isUp, start, all, end) && LaneInv(stream, end) && Clean(end)
    decreases |lane.unread|, if lane.phase.Writing? then 1 else 0
  {
    if Clean(lane) {
      all, end := steps, lane;
    } else {
      EagerSteps(link, isUp, stream, lane);
      var next := LaneStep(link, isUp, false, lane, Eager(lane)).value;
      GetsFurther(link, isUp, start, steps, lane, Eager(lane));
      if Clean(next) {
        all, end := steps + [Eager(lane)], next;
      } else {
        all, end := PumpCanFinish(link, isUp, stream, start, steps + [Eager(lane)], next);
      }
    }
  }

  // -------------------------------------------------------------- the whole relay

  /** Reads, writes, ends of stream, and the main task joining what has ended: no failure, no expiry. */
  predicate Peaceful(ev: Event) {
    match ev
    case Up(e) => Reads(e)
    case Down(e) => Reads(e)
    case SelectUp => true
    case SelectDown => true
    case DrainJoins => true
    case _ => false
  }

  function Ups(steps: seq<LaneEvent>): seq<Event> { seq(|steps|, i requires 0 <= i < |steps| => Up(steps[i])) }

  function Downs(steps: seq<LaneEvent>): seq<Event> { seq(|steps|, i requires 0 <= i < |steps| => Down(steps[i])) }

  lemma {:induction false} UpRuns(link: Link, s: State, steps: seq<LaneEvent>)
    requires !s.main.StoppingUp? && LaneRun(link, true, s.up, steps).Some?
    ensures Run(link, s, Ups(steps)) == Some(s.(up := LaneRun(link, true, s.up, steps).value))
  {
    if steps != [] {
      UpRuns(link, s, steps[..|steps| - 1]);
      assert Ups(steps)[..|steps| - 1] == Ups(steps[..|steps| - 1]);
    }
  }

  lemma {:induction false} DownRuns(link: Link, s: State, steps: seq<LaneEvent>)
    requires !s.main.StoppingDown? && LaneRun(link, false, s.down, steps).Some?
    ensures Run(link, s, Downs(steps)) == Some(s.(down := LaneRun(link, false, s.down, steps).value))
  {
    if steps != [] {
      DownRuns(link, s, steps[..|steps| - 1]);
      assert Downs(steps)[..|steps| - 1] == Downs(steps[..|steps| - 1]);
    }
  }

  /** No pump has failed, no window has expired, and the main task waits for one pump or for the other. */
  predicate AllIsWell(s: State) {
    Sound(s.up) && Sound(s.down) && (s.main.Selecting? || s.main.DrainingDown? || s.main.DrainingUp?)
  }

  ghost predicate Leads(link: Link, s: State, events: seq<Event>, end: State) {
    (forall ev <- events :: Peaceful(ev)) && Run(link, s, events) == Some(end)
  }

  lemma LeadsOn(link: Link, s: State, first: seq<Event>, mid: State, second: seq<Event>, end: State)
    requires Leads(link, s, first, mid) && Leads(link, mid, second, end)
    ensures Leads(link, s, first + second, end)
  {
    RunComposes(link, s, first, second);
  }

  lemma OneStep(link: Link, s: State, ev: Event)
    requires Peaceful(ev) && Step(link, s, ev).Some?
    ensures Leads(link, s, [ev], Step(link, s, ev).value)
  {
    assert [ev][..0] == [];
  }

  lemma UploadFinishes(link: Link, s: State) returns (rest: seq<Event>, end: State)
    requires Inv(link, s) && AllIsWell(s)
    ensures Leads(link, s, rest, end) && end == s.(up := end.up)
    ensures Clean(end.up) && LaneInv(link.Upstream(), end.up)
  {
    var steps, lane := PumpCanFinish(link, true, link.Upstream(), s.up, [], s.up);
    UpRuns(link, s, steps);
    rest, end := Ups(steps), s.(up := lane);
  }

  lemma DownloadFinishes(link: Link, s: State) returns (rest: seq<Event>, end: State)
    requires LaneInv(link.remote, s.down) && AllIsWell(s)
    ensures Leads(link, s, rest, end) && end == s.(down := end.down)
    ensures Clean(end.down) && LaneInv(link.remote, end.down)
  {
    var steps, lane := PumpCanFinish(link, false, link.remote, s.down, [], s.down);
    DownRuns(link, s, steps);
    rest, end := Downs(steps), s.(down := lane);
  }

  /** With both pumps done the main task joins them. */
  lemma MainFinishes(link: Link, s: State) returns (rest: seq<Event>, end: State)
    requires AllIsWell(s) && Clean(s.up) && Clean(s.down)
    ensures Leads(link, s, rest, end) && end.main == Exited(Ok(())) && end.up == s.up && end.down == s.down
  {
    if s.main.Selecting? {
      OneStep(link, s, SelectUp);
      var mid := Step(link, s, SelectUp).value;
      OneStep(link, mid, DrainJoins);
      end := Step(link, mid, DrainJoins).value;
      LeadsOn(link, s, [SelectUp], mid, [DrainJoins], end);
      rest := [SelectUp] + [DrainJoins];
    } else {
      OneStep(link, s, DrainJoins);
      rest, end := [DrainJoins], Step(link, s, DrainJoins).value;
    }
  }

  /**
   Half-closing loses nothing: from every reachable state in which no pump has failed and no
   window has expired - the client may have closed its side, or the remote its own - reads,
   writes and ends of stream can still bring the relay to success with both streams whole.
   */
  lemma BothStreamsCanFinish(link: Link, others: nat, events: seq<Event>) returns (rest: seq<Event>)
    requires Run(link, Start(link, others), events).Some?
    requires AllIsWell(Run(link, Start(link, others), events).value)
    ensures forall ev <- rest :: Peaceful(ev)
    ensures var end := Run(link, Start(link, others), events + rest);
            && end.Some? && end.value.main == Exited(Ok(()))
            && end.value.up.delivered == link.pendingUp + link.client && end.value.down.delivered == link.remote
  {
    RunKeepsInv(link, others, events);
    var s := Run(link, Start(link, others), events).value;
    var up, afterUp := UploadFinishes(link, s);
    var down, afterBoth := DownloadFinishes(link, afterUp);
    var join, end := MainFinishes(link, afterBoth);
    LeadsOn(link, s, up, afterUp, down, afterBoth);
    LeadsOn(link, s, up + down, afterBoth, join, end);
    rest := up + down + join;
    RunComposes(link, Start(link, others), events, rest);
    CleanLaneIsWhole(link.Upstream(), end.up);
    CleanLaneIsWhole(link.remote, end.down);
  }

  // ------------------------------------------------------------- how failures come out

  /** Something goes wrong in a pump, and what the user is told of it. */
  datatype Mishap = ClientRead | RemoteWrite | RemoteRead | ClientWrite | UploadPanics | DownloadPanics

  function Occurs(m: Mishap): Event {
    match m
    case ClientRead => Up(ReadError)
    case RemoteWrite => Up(WriteError)
    case UploadPanics => Up(Panic)
    case RemoteRead => Down(ReadError)
    case ClientWrite => Down(WriteError)
    case DownloadPanics => Down(Panic)
  }

  /** Only the socket to a directly connected remote has errors of its own; all else is the transport. */
  function Told(link: Link, m: Mishap): RelayError {
    if link.direct && (m.RemoteWrite? || m.RemoteRead?) then LocalIo else Transport
  }

  ghost predicate EndsIn(link: Link, s: State, rest: seq<Event>, failure: Failure) {
    && (forall ev <- rest :: Unaided(ev))
    && Run(link, s, rest).Some? && Run(link, s, rest).value.main == Exited(Err(failure))
  }

  lemma EndsEarlier(link: Link, s: State, ev: Event, rest: seq<Event>, failure: Failure)
    requires Unaided(ev) && Step(link, s, ev).Some? && EndsIn(link, Step(link, s, ev).value, rest, failure)
    ensures EndsIn(link, s, [ev] + rest, failure)
  {
    assert [ev][..0] == [];
    RunComposes(link, s, [ev], rest);
  }

  lemma Stops(link: Link, s: State, failure: Failure) returns (rest: seq<Event>)
    requires s.main == StoppingDown(Err(failure)) || s.main == StoppingUp(Err(failure))
    ensures |rest| <= 2 && EndsIn(link, s, rest, failure)
  {
    assert EndsIn(link, s.(main := Exited(Err(failure))), [], failure);
    if (if s.main.StoppingDown? then s.down else s.up).Stopped() {
      EndsEarlier(link, s, StoppedTaskJoins, [], failure);
      rest := [StoppedTaskJoins] + [];
    } else {
      var abort := if s.main.StoppingDown? then Down(AbortTakesEffect) else Up(AbortTakesEffect);
      var mid := Step(link, s, abort).value;
      EndsEarlier(link, mid, StoppedTaskJoins, [], failure);
      EndsEarlier(link, s, abort, [StoppedTaskJoins] + [], failure);
      rest := [abort] + ([StoppedTaskJoins] + []);
    }
  }

  /** The first mishap while neither side has ended: the relay stops the other pump and reports it. */
  lemma FirstMishapIsReported(link: Link, s: State, m: Mishap) returns (rest: seq<Event>)
    requires s.main.Selecting? && Step(link, s, Occurs(m)).Some?
    ensures |rest| <= 3 && EndsIn(link, Step(link, s, Occurs(m)).value, rest, Broken(Told(link, m)))
  {
    var failed := Step(link, s, Occurs(m)).value;
    var select := if Occurs(m).Up? then SelectUp else SelectDown;
    rest := Stops(link, Step(link, failed, select).value, Broken(Told(link, m)));
    EndsEarlier(link, failed, select, rest, Broken(Told(link, m)));
    rest := [select] + rest;
  }

  /** A mishap of the pump a drain window is kept open for; only a panic of the download is told as one. */
  lemma DrainMishapIsReported(link: Link, s: State, m: Mishap)
    requires if Occurs(m).Up? then s.main.DrainingUp? else s.main.DrainingDown?
    requires Step(link, s, Occurs(m)).Some?
    ensures EndsIn(link, Step(link, s, Occurs(m)).value, [DrainJoins],
                   if m.DownloadPanics? then TaskPanicked else Broken(Told(link, m)))
  {
    var failed := Step(link, s, Occurs(m)).value;
    var failure := if m.DownloadPanics? then TaskPanicked else Broken(Told(link, m));
    EndsEarlier(link, failed, DrainJoins, [], failure);
    assert [DrainJoins] + [] == [DrainJoins];
  }

  /** A window that expires: the download's loss is an error, the rest of an upload is only given up. */
  lemma ExpiryIsReported(link: Link, s: State) returns (rest: seq<Event>)
    requires Inv(link, s) && AllIsWell(s) && !s.main.Selecting?
    requires !(if s.main.DrainingDown? then s.down else s.up).Stopped()
    ensures |rest| <= 3 && Run(link, s, rest).Some?
    ensures Run(link, s, rest).value.main == Exited(if s.main.DrainingDown? then Err(DrainTimeout) else Ok(()))
  {
    var expired := Step(link, s, DrainExpires).value;
    var abort := if s.main.DrainingDown? then Down(AbortTakesEffect) else Up(AbortTakesEffect);
    var stopped := Step(link, expired, abort).value;
    rest := [DrainExpires, abort, StoppedTaskJoins];
    assert Run(link, s, [DrainExpires]) == Some(expired) by {
      assert [DrainExpires][..0] == [];
    }
    assert Run(link, s, [DrainExpires, abort]) == Some(stopped) by {
      assert [DrainExpires, abort][..1] == [DrainExpires];
    }
    assert rest[..2] == [DrainExpires, abort];
  }
}
