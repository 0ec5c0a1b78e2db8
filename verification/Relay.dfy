/**
 The bidirectional relay: two pump tasks copy bytes between a client and a remote, a main
 task joins them, with one drain window per direction. Every await point of the three tasks
 is a separate step, so a run is an arbitrary interleaving of reads, partial writes,
 failures, panics, timeouts and aborts.
 */
module Relay {
  import opened Wrappers

  const RELAY_BUF := 16 * 1024

  datatype RelayError = Transport | LocalIo

  /** How a pump task ended on its own. */
  datatype TaskEnd = Finished(total: nat) | Failed(error: RelayError) | Panicked

  datatype Phase =
    | Reading
    | Writing(rest: seq<Byte>)
    | Ended(end: TaskEnd)
    | Aborted

  /**
   One direction. `owed` is the size of the early data that is counted only once written;
   bytes read later are counted before they are written. `lost` is what a pump that
   stopped in the middle of a write had taken from its source and not delivered.
   */
  datatype Lane = Lane(
    unread: seq<Byte>, phase: Phase, delivered: seq<Byte>, lost: seq<Byte>,
    owed: nat, total: nat, counted: nat)
  {
    predicate Stopped() { phase.Ended? || phase.Aborted? }

    function InFlight(): seq<Byte> {
      if phase.Writing? then phase.rest else lost
    }
  }

  datatype Failure = Broken(error: RelayError) | TaskPanicked | DrainTimeout

  datatype Main =
    | Selecting
    | DrainingDown
    | DrainingUp
    | StoppingDown(result: Result<(), Failure>)
    | StoppingUp(result: Result<(), Failure>)
    | Exited(result: Result<(), Failure>)

  /** What is fixed for one relay: the link kind and the bytes each side will ever send. */
  datatype Link = Link(direct: bool, pendingUp: seq<Byte>, client: seq<Byte>, remote: seq<Byte>)
  {
    function Upstream(): seq<Byte> { pendingUp + client }
  }

  datatype State = State(
    up: Lane, down: Lane, main: Main,
    entryActive: bool, activeRelays: int, otherRelays: nat,
    upExpired: bool, downExpired: bool)

  datatype LaneEvent =
    | Read(n: nat)
    | ReadEof
    | ReadError
    | Write(n: nat)
    | WriteError
    | Panic
    | AbortTakesEffect

  datatype Event =
    | Up(up: LaneEvent)
    | Down(down: LaneEvent)
    | SelectUp
    | SelectDown
    | DrainJoins
    | DrainExpires
    | StoppedTaskJoins
    | OtherRelays(count: nat)

  // ------------------------------------------------------------------- pumps

  function ReadFailure(link: Link, isUp: bool): RelayError {
    if !isUp && link.direct then LocalIo else Transport
  }

  function WriteFailure(link: Link, isUp: bool): RelayError {
    if isUp && link.direct then LocalIo else Transport
  }

  /** A pump stops without finishing: what it was writing is lost. */
  function Cut(lane: Lane, phase: Phase): Lane {
    lane.(phase := phase, lost := lane.InFlight())
  }

  function LaneStep(link: Link, isUp: bool, abortRequested: bool, lane: Lane, ev: LaneEvent): Option<Lane> {
    if lane.Stopped() then None else
    match ev
    case Read(n) =>
      if lane.phase.Reading? && 1 <= n <= Min(RELAY_BUF, |lane.unread|) then
        Some(lane.(unread := lane.unread[n..], phase := Writing(lane.unread[..n]),
                   total := lane.total + n, counted := lane.counted + n))
      else None
    case ReadEof =>
      if lane.phase.Reading? && lane.unread == [] then
        Some(lane.(phase := Ended(Finished(lane.total))))
      else None
    case ReadError =>
      if lane.phase.Reading? then
        Some(lane.(phase := Ended(Failed(ReadFailure(link, isUp)))))
      else None
    case Write(n) =>
      if lane.phase.Writing? && 1 <= n <= |lane.phase.rest| then
        var rest := lane.phase.rest;
        var sent := lane.(delivered := lane.delivered + rest[..n]);
        if n < |rest| then
          Some(sent.(phase := Writing(rest[n..])))
        else
          Some(sent.(phase := Reading, owed := 0,
                     total := lane.total + lane.owed, counted := lane.counted + lane.owed))
      else None
    case WriteError =>
      if lane.phase.Writing? then
        Some(Cut(lane, Ended(Failed(WriteFailure(link, isUp)))))
      else None
    case Panic =>
      Some(Cut(lane, Ended(Panicked)))
    case AbortTakesEffect =>
      if abortRequested then Some(Cut(lane, Aborted)) else None
  }

  // --------------------------------------------------------------- main task

  /** A clean end is no error; a panicked task reads as a transport failure. */
  function JoinRelayResult(end: TaskEnd): Option<RelayError> {
    match end
    case Finished(_) => None
    case Failed(e) => Some(e)
    case Panicked => Some(Transport)
  }

  /** The relay returns: the registry entry is closed and the guard gives its slot back. */
  function Exit(s: State, result: Result<(), Failure>): Option<State> {
    Some(s.(main := Exited(result), entryActive := false, activeRelays := s.activeRelays - 1))
  }

  function Step(link: Link, s: State, ev: Event): Option<State> {
    match ev
    case Up(e) =>
      (match LaneStep(link, true, s.main.StoppingUp?, s.up, e)
       case None => None
       case Some(lane) => Some(s.(up := lane)))
    case Down(e) =>
      (match LaneStep(link, false, s.main.StoppingDown?, s.down, e)
       case None => None
       case Some(lane) => Some(s.(down := lane)))
    case SelectUp =>
      if s.main.Selecting? && s.up.phase.Ended? then
        match JoinRelayResult(s.up.phase.end)
        case None => Some(s.(main := DrainingDown))
        case Some(e) => Some(s.(main := StoppingDown(Err(Broken(e)))))
      else None
    case SelectDown =>
      if s.main.Selecting? && s.down.phase.Ended? then
        match JoinRelayResult(s.down.phase.end)
        case None => Some(s.(main := DrainingUp))
        case Some(e) => Some(s.(main := StoppingUp(Err(Broken(e)))))
      else None
    case DrainJoins =>
      if s.main.DrainingDown? && s.down.phase.Ended? then
        match s.down.phase.end
        case Finished(_) => Exit(s, Ok(()))
        case Failed(e) => Exit(s, Err(Broken(e)))
        case Panicked => Exit(s, Err(TaskPanicked))
      else if s.main.DrainingUp? && s.up.phase.Ended? then
        match JoinRelayResult(s.up.phase.end)
        case None => Exit(s, Ok(()))
        case Some(e) => Exit(s, Err(Broken(e)))
      else None
    case DrainExpires =>
      if s.main.DrainingDown? && !s.down.Stopped() then
        Some(s.(main := StoppingDown(Err(DrainTimeout)), downExpired := true))
      else if s.main.DrainingUp? && !s.up.Stopped() then
        // an upload cut short after the remote's FIN is only logged
        Some(s.(main := StoppingUp(Ok(())), upExpired := true))
      else None
    case StoppedTaskJoins =>
      if s.main.StoppingDown? && s.down.Stopped() then Exit(s, s.main.result)
      else if s.main.StoppingUp? && s.up.Stopped() then Exit(s, s.main.result)
      else None
    case OtherRelays(n) =>
      Some(s.(otherRelays := n, activeRelays := s.activeRelays - s.otherRelays + n))
  }

  function NewLane(early: seq<Byte>, unread: seq<Byte>): Lane {
    Lane(unread, if early == [] then Reading else Writing(early), [], [], |early|, 0, 0)
  }

  /** The state right after the relay took its slot and registered its connection. */
  function Start(link: Link, others: nat): State {
    State(NewLane(link.pendingUp, link.client), NewLane([], link.remote), Selecting,
          true, others + 1, others, false, false)
  }

  function Run(link: Link, s: State, events: seq<Event>): Option<State> {
    if events == [] then Some(s) else
    match Run(link, s, events[..|events| - 1])
    case None => None
    case Some(mid) => Step(link, mid, events[|events| - 1])
  }

  // --------------------------------------------------------------- invariant

  ghost predicate LaneInv(stream: seq<Byte>, lane: Lane) {
    && stream == lane.delivered + lane.InFlight() + lane.unread
    && lane.counted == lane.total
    && lane.counted + lane.owed == |lane.delivered| + |lane.InFlight()|
    && (lane.phase.Writing? ==> lane.phase.rest != [] && lane.lost == [])
    && (lane.phase.Reading? ==> lane.owed == 0 && lane.lost == [])
    && (lane.phase.Ended? && lane.phase.end.Finished? ==>
          lane.unread == [] && lane.lost == [] && lane.owed == 0 && lane.phase.end.total == lane.total)
    && (lane.owed == 0 ==> |lane.InFlight()| <= RELAY_BUF)
  }

  predicate Clean(lane: Lane) { lane.phase.Ended? && lane.phase.end.Finished? }

  /** `e` is what some pump reported, a panic counting as a transport failure. */
  predicate Reported(s: State, e: RelayError) {
    || (s.up.phase.Ended? && JoinRelayResult(s.up.phase.end) == Some(e))
    || (s.down.phase.Ended? && JoinRelayResult(s.down.phase.end) == Some(e))
  }

  ghost predicate MainInv(s: State) {
    match s.main
    case Selecting =>
      !s.up.phase.Aborted? && !s.down.phase.Aborted? && !s.upExpired && !s.downExpired
    case DrainingDown =>
      Clean(s.up) && !s.down.phase.Aborted? && !s.upExpired && !s.downExpired
    case DrainingUp =>
      Clean(s.down) && !s.up.phase.Aborted? && !s.upExpired && !s.downExpired
    case StoppingDown(r) =>
      && s.up.phase.Ended? && !s.upExpired && r.Err?
      && (s.downExpired <==> r.error.DrainTimeout?)
      && (s.downExpired <==> Clean(s.up))
      && (!s.downExpired ==> r.error.Broken? && JoinRelayResult(s.up.phase.end) == Some(r.error.error))
    case StoppingUp(r) =>
      && s.down.phase.Ended? && !s.downExpired
      && (s.upExpired <==> r.Ok?)
      && (s.upExpired <==> Clean(s.down))
      && (!s.upExpired ==> r.error.Broken? && JoinRelayResult(s.down.phase.end) == Some(r.error.error))
    case Exited(r) =>
      && s.up.Stopped() && s.down.Stopped()
      && !(s.upExpired && s.downExpired)
      && (s.upExpired ==> Clean(s.down))
      && (s.downExpired ==> Clean(s.up))
      && (r.Ok? <==> Clean(s.down) && (s.upExpired || (Clean(s.up) && !s.downExpired)))
      && (r.Err? ==>
            match r.error
            case Broken(e) => !s.downExpired && Reported(s, e)
            case TaskPanicked => !s.downExpired && s.down.phase == Ended(Panicked)
            case DrainTimeout => s.downExpired)
  }

  ghost predicate Inv(link: Link, s: State) {
    && LaneInv(link.Upstream(), s.up)
    && LaneInv(link.remote, s.down) && s.down.owed == 0
    && MainInv(s)
    && (s.entryActive <==> !s.main.Exited?)
    && s.activeRelays == s.otherRelays + (if s.main.Exited? then 0 else 1)
  }

  lemma ReadSplits(stream: seq<Byte>, delivered: seq<Byte>, unread: seq<Byte>, n: nat)
    requires stream == delivered + [] + unread && n <= |unread|
    ensures stream == delivered + unread[..n] + unread[n..]
  {
    assert unread == unread[..n] + unread[n..];
    assert delivered + (unread[..n] + unread[n..]) == delivered + unread[..n] + unread[n..];
  }

  lemma WriteSplits(stream: seq<Byte>, delivered: seq<Byte>, rest: seq<Byte>, unread: seq<Byte>, n: nat)
    requires stream == delivered + rest + unread && n <= |rest|
    ensures stream == delivered + rest[..n] + rest[n..] + unread
  {
    assert rest == rest[..n] + rest[n..];
    assert delivered + (rest[..n] + rest[n..]) == delivered + rest[..n] + rest[n..];
  }

  lemma LaneStepKeepsInv(link: Link, isUp: bool, abort: bool, stream: seq<Byte>, lane: Lane, ev: LaneEvent)
    requires LaneInv(stream, lane)
    requires LaneStep(link, isUp, abort, lane, ev).Some?
    ensures LaneInv(stream, LaneStep(link, isUp, abort, lane, ev).value)
  {
    match ev
    case Read(n) => ReadSplits(stream, lane.delivered, lane.unread, n);
    case Write(n) => WriteSplits(stream, lane.delivered, lane.phase.rest, lane.unread, n);
    case _ =>
  }

  lemma PumpStepKeepsInv(link: Link, s: State, ev: Event)
    requires Inv(link, s) && (ev.Up? || ev.Down?) && Step(link, s, ev).Some?
    ensures Inv(link, Step(link, s, ev).value)
  {
    match ev
    case Up(e) => LaneStepKeepsInv(link, true, s.main.StoppingUp?, link.Upstream(), s.up, e);
    case Down(e) => LaneStepKeepsInv(link, false, s.main.StoppingDown?, link.remote, s.down, e);
  }

  lemma StepKeepsInv(link: Link, s: State, ev: Event)
    requires Inv(link, s) && Step(link, s, ev).Some?
    ensures Inv(link, Step(link, s, ev).value)
  {
    if ev.Up? || ev.Down? {
      PumpStepKeepsInv(link, s, ev);
    } else {
      var next := Step(link, s, ev).value;
      assert next.up == s.up && next.down == s.down;
      assert MainInv(next);
    }
  }

  lemma {:induction false} RunKeepsInv(link: Link, others: nat, events: seq<Event>)
    requires Run(link, Start(link, others), events).Some?
    ensures Inv(link, Run(link, Start(link, others), events).value)
  {
    if events == [] {
    } else {
      RunKeepsInv(link, others, events[..|events| - 1]);
      StepKeepsInv(link, Run(link, Start(link, others), events[..|events| - 1]).value, events[|events| - 1]);
    }
  }

  // ----------------------------------------------------------------- results

  /**
   Nothing is reordered, duplicated or invented, whatever the interleaving: at every moment
   what the remote holds, what one pump is carrying and what is still unread make up the
   early data followed by the client's bytes, and likewise the other way.
   */
  lemma RelayedBytesArePrefixes(link: Link, others: nat, events: seq<Event>)
    requires Run(link, Start(link, others), events).Some?
    ensures var s := Run(link, Start(link, others), events).value;
      && s.up.delivered + s.up.InFlight() + s.up.unread == link.Upstream()
      && s.down.delivered + s.down.InFlight() + s.down.unread == link.remote
      && s.up.delivered <= link.Upstream()
      && s.down.delivered <= link.remote
  {
    RunKeepsInv(link, others, events);
    var s := Run(link, Start(link, others), events).value;
    PrefixOfSum(s.up.delivered, s.up.InFlight(), s.up.unread);
    PrefixOfSum(s.down.delivered, s.down.InFlight(), s.down.unread);
  }

  lemma PrefixOfSum(a: seq<Byte>, b: seq<Byte>, c: seq<Byte>)
    ensures a <= a + b + c
  {
  }

  /**
   The registry never misses more than early data still being written, and never counts
   more than one buffer that was read and not delivered.
   */
  lemma CountsFollowDelivery(link: Link, others: nat, events: seq<Event>)
    requires Run(link, Start(link, others), events).Some?
    ensures var s := Run(link, Start(link, others), events).value;
      && |s.down.delivered| <= s.down.counted <= |s.down.delivered| + RELAY_BUF
      && |s.up.delivered| <= s.up.counted + s.up.owed
      && s.up.counted <= |s.up.delivered| + RELAY_BUF
      && s.up.owed <= |link.pendingUp|
  {
    RunKeepsInv(link, others, events);
    OwedIsEarlyData(link, others, events);
  }

  /** Early data is all still owed and nothing is counted, or none of it is owed. */
  predicate OwesEarly(lane: Lane, early: nat) { lane.owed == 0 || (lane.owed == early && lane.counted == 0) }

  lemma LaneStepOwes(link: Link, abort: bool, stream: seq<Byte>, lane: Lane, ev: LaneEvent, early: nat)
    requires LaneInv(stream, lane) && OwesEarly(lane, early)
    requires LaneStep(link, true, abort, lane, ev).Some?
    ensures OwesEarly(LaneStep(link, true, abort, lane, ev).value, early)
  {
  }

  lemma StepOwes(link: Link, s: State, ev: Event, early: nat)
    requires LaneInv(link.Upstream(), s.up) && OwesEarly(s.up, early) && Step(link, s, ev).Some?
    ensures OwesEarly(Step(link, s, ev).value.up, early)
  {
    if ev.Up? {
      LaneStepOwes(link, s.main.StoppingUp?, link.Upstream(), s.up, ev.up, early);
    }
  }

  lemma {:induction false} OwedIsEarlyData(link: Link, others: nat, events: seq<Event>)
    requires Run(link, Start(link, others), events).Some?
    ensures OwesEarly(Run(link, Start(link, others), events).value.up, |link.pendingUp|)
  {
    if events != [] {
      var init := events[..|events| - 1];
      OwedIsEarlyData(link, others, init);
      RunKeepsInv(link, others, init);
      StepOwes(link, Run(link, Start(link, others), init).value, events[|events| - 1], |link.pendingUp|);
    }
  }

  /**
   On every exit both pumps have stopped, the registry entry is closed and the count of
   active relays is what it would be had this relay never run.
   */
  lemma ExitLeavesNothingBehind(link: Link, others: nat, events: seq<Event>)
    requires Run(link, Start(link, others), events).Some?
    ensures var s := Run(link, Start(link, others), events).value;
      && (s.main.Exited? ==> s.up.Stopped() && s.down.Stopped())
      && (s.main.Exited? <==> !s.entryActive)
      && s.activeRelays == s.otherRelays + (if s.main.Exited? then 0 else 1)
  {
    RunKeepsInv(link, others, events);
  }

  /** Exactly when the relay reports success, and what each reported failure stands for. */
  lemma OkExactlyWhen(link: Link, others: nat, events: seq<Event>)
    requires Run(link, Start(link, others), events).Some?
    requires Run(link, Start(link, others), events).value.main.Exited?
    ensures var s := Run(link, Start(link, others), events).value;
      && (s.main.result.Ok? <==> Clean(s.down) && (s.upExpired || (Clean(s.up) && !s.downExpired)))
      && !(s.upExpired && s.downExpired)
      && (s.main.result.Err? && s.main.result.error.Broken? ==> Reported(s, s.main.result.error.error))
      && (s.main.result == Err(TaskPanicked) ==> s.down.phase == Ended(Panicked))
      && (s.main.result == Err(DrainTimeout) <==> s.downExpired)
  {
    RunKeepsInv(link, others, events);
  }

  /**
   A success with no expired window means both streams arrived whole and the registry
   counted every byte; with the upload window expired the download is still whole.
   */
  lemma OkMeansWholeStreams(link: Link, others: nat, events: seq<Event>)
    requires Run(link, Start(link, others), events).Some?
    requires Run(link, Start(link, others), events).value.main == Exited(Ok(()))
    ensures var s := Run(link, Start(link, others), events).value;
      && s.down.delivered == link.remote
      && s.down.counted == |link.remote|
      && (!s.upExpired ==>
            s.up.delivered == link.Upstream() && s.up.counted == |link.pendingUp| + |link.client|)
  {
    RunKeepsInv(link, others, events);
    var s := Run(link, Start(link, others), events).value;
    CleanLaneIsWhole(link.remote, s.down);
    if !s.upExpired {
      CleanLaneIsWhole(link.Upstream(), s.up);
    }
  }

  lemma CleanLaneIsWhole(stream: seq<Byte>, lane: Lane)
    requires LaneInv(stream, lane) && Clean(lane)
    ensures lane.delivered == stream && lane.counted == |stream|
  {
    assert lane.delivered + [] + [] == lane.delivered;
  }

  /** Running two lists of events one after the other. */
  lemma {:induction false} RunComposes(link: Link, s: State, first: seq<Event>, then_: seq<Event>)
    requires Run(link, s, first).Some?
    ensures Run(link, s, first + then_) == Run(link, Run(link, s, first).value, then_)
  {
    if then_ == [] {
      assert first + then_ == first;
    } else {
      var n := |then_| - 1;
      assert (first + then_)[..|first + then_| - 1] == first + then_[..n];
      RunComposes(link, s, first, then_[..n]);
    }
  }

  /** Steps that need nothing from either peer. */
  predicate Unaided(ev: Event) {
    match ev
    case Up(e) => e.AbortTakesEffect?
    case Down(e) => e.AbortTakesEffect?
    case OtherRelays(_) => false
    case _ => true
  }

  ghost predicate LeadsToExit(link: Link, s: State, rest: seq<Event>) {
    && (forall ev <- rest :: Unaided(ev))
    && Run(link, s, rest).Some? && Run(link, s, rest).value.main.Exited?
  }

  lemma Prepend(link: Link, s: State, ev: Event, rest: seq<Event>)
    requires Unaided(ev) && Step(link, s, ev).Some?
    requires LeadsToExit(link, Step(link, s, ev).value, rest)
    ensures LeadsToExit(link, s, [ev] + rest)
  {
    assert Run(link, s, []) == Some(s);
    assert [ev][..0] == [];
    RunComposes(link, s, [ev], rest);
  }

  /** A state that only has to reap an aborted pump. */
  lemma StoppingExits(link: Link, s: State) returns (rest: seq<Event>)
    requires Inv(link, s) && (s.main.StoppingDown? || s.main.StoppingUp?)
    ensures |rest| <= 2 && LeadsToExit(link, s, rest)
  {
    if (if s.main.StoppingDown? then s.down else s.up).Stopped() {
      Prepend(link, s, StoppedTaskJoins, []);
      rest := [StoppedTaskJoins] + [];
    } else {
      var abort := if s.main.StoppingDown? then Down(AbortTakesEffect) else Up(AbortTakesEffect);
      StepKeepsInv(link, s, abort);
      Prepend(link, Step(link, s, abort).value, StoppedTaskJoins, []);
      Prepend(link, s, abort, [StoppedTaskJoins] + []);
      rest := [abort] + ([StoppedTaskJoins] + []);
    }
  }

  /** A drain window ends by a clean join or by its expiry. */
  lemma DrainingExits(link: Link, s: State) returns (rest: seq<Event>)
    requires Inv(link, s) && (s.main.DrainingDown? || s.main.DrainingUp?)
    ensures |rest| <= 3 && LeadsToExit(link, s, rest)
  {
    if (if s.main.DrainingDown? then s.down else s.up).Stopped() {
      Prepend(link, s, DrainJoins, []);
      rest := [DrainJoins] + [];
    } else {
      StepKeepsInv(link, s, DrainExpires);
      rest := StoppingExits(link, Step(link, s, DrainExpires).value);
      Prepend(link, s, DrainExpires, rest);
      rest := [DrainExpires] + rest;
    }
  }

  lemma SelectingExits(link: Link, s: State) returns (rest: seq<Event>)
    requires Inv(link, s) && s.main.Selecting? && (s.up.Stopped() || s.down.Stopped())
    ensures |rest| <= 4 && LeadsToExit(link, s, rest)
  {
    var select := if s.up.Stopped() then SelectUp else SelectDown;
    StepKeepsInv(link, s, select);
    var next := Step(link, s, select).value;
    if next.main.DrainingDown? || next.main.DrainingUp? {
      rest := DrainingExits(link, next);
    } else {
      rest := StoppingExits(link, next);
    }
    Prepend(link, s, select, rest);
    rest := [select] + rest;
  }

  /**
   No deadlock: as soon as one pump has stopped, the relay can reach its exit in at most
   four steps of its own, so a silent peer cannot keep it alive.
   */
  lemma OneStoppedPumpIsEnoughToExit(link: Link, others: nat, events: seq<Event>) returns (rest: seq<Event>)
    requires Run(link, Start(link, others), events).Some?
    requires var s := Run(link, Start(link, others), events).value; s.up.Stopped() || s.down.Stopped()
    ensures |rest| <= 4 && (forall ev <- rest :: Unaided(ev))
    ensures var end := Run(link, Start(link, others), events + rest); end.Some? && end.value.main.Exited?
  {
    RunKeepsInv(link, others, events);
    var s := Run(link, Start(link, others), events).value;
    match s.main {
      case Exited(_) => rest := [];
      case Selecting => rest := SelectingExits(link, s);
      case DrainingDown => rest := DrainingExits(link, s);
      case DrainingUp => rest := DrainingExits(link, s);
      case _ => rest := StoppingExits(link, s);
    }
    RunComposes(link, Start(link, others), events, rest);
  }
}
