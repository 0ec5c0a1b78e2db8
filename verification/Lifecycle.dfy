/**
 The life of the proxy thread as the GUI sees it: button clicks and per-frame polls on one
 side, the thread and its two channels on the other, in any order.
 */
module Lifecycle {
  import opened Wrappers
  import opened Addresses
  import opened StartChecks
  import opened StartSignals

  /** Each start makes a new thread, with its own stop flag and channels: its generation. */
  type Gen = nat

  /** The fields of the application that the steps below read and write. */
  datatype Ui = Ui(
    running: bool,
    starting: bool,
    stopFlag: Option<Gen>,
    startRx: Option<Gen>,
    exitRx: Option<Gen>,
    bound: Option<SocketAddr>,
    systemProxy: bool,
    stopped: set<Gen>)

  const IDLE := Ui(false, false, None, None, None, None, false, {})

  function Tell(flag: Option<Gen>): set<Gen> { if flag.Some? then {flag.value} else {} }

  function Startable(u: Ui): bool { !u.running && !u.starting && u.exitRx.None? }

  function Started(u: Ui, g: Gen): Ui {
    u.(starting := true, stopFlag := Some(g), startRx := Some(g), exitRx := Some(g))
  }

  /** A session is over: the thread is told to stop, but its exit has still to be seen. */
  function Converged(u: Ui): Ui {
    u.(running := false, starting := false, stopFlag := None, systemProxy := false,
       stopped := u.stopped + Tell(u.stopFlag))
  }

  function Stopped(u: Ui): Ui { Converged(u).(startRx := None) }

  /** The first ready signal makes the session run, and points the system at it unless TUN does. */
  function Readied(u: Ui, addr: SocketAddr, tun: bool): Ui {
    if u.running then u
    else u.(running := true, starting := false, bound := Some(addr), systemProxy := u.systemProxy || !tun)
  }

  function AllReadied(u: Ui, addrs: seq<SocketAddr>, tun: bool): Ui {
    if addrs == [] then u else Readied(AllReadied(u, addrs[..|addrs| - 1], tun), addrs[|addrs| - 1], tun)
  }

  function Applied(u: Ui, b: Batch, disconnected: bool, tun: bool): Ui {
    var ready := AllReadied(u, b.readys, tun);
    if b.failure.Some? then Stopped(ready)
    else if b.degraded != [] && ready.running && !disconnected then
      ready.(systemProxy := ready.systemProxy || ready.bound.Some?)
    else ready
  }

  /** One poll of the start channel: all it holds, and whether its other end is gone. */
  function Polled(u: Ui, msgs: seq<Signal>, disconnected: bool, tun: bool): Ui {
    if msgs == [] then if disconnected then Stopped(u) else u
    else Applied(u, Classify(msgs, u.running, disconnected), disconnected, tun)
  }

  /** There is a thread to stop or to wait for. */
  predicate Active(u: Ui) { u.running || u.stopFlag.Some? || u.exitRx.Some? }

  function ExitSeen(u: Ui): Ui {
    if !u.running && u.stopFlag.None? then u.(exitRx := None) else u
  }

  function DeathSeen(u: Ui): Ui { if u.running then Converged(u) else u }

  /** Why a click on start does nothing. */
  datatype NotStarted = AlreadyRunning | AlreadyStarting | StillExiting | Unfit(check: Refusal)

  predicate WhyNot(u: Ui, c: Settings, why: NotStarted) {
    match why
    case AlreadyRunning => u.running
    case AlreadyStarting => !u.running && u.starting
    case StillExiting => !u.running && !u.starting && u.exitRx.Some?
    case Unfit(check) => Startable(u) && FailsFirst(c, check)
  }

  class HydraApp {
    var proxyRunning: bool
    var proxyStarting: bool
    var stopFlag: Option<Gen>
    var proxyStartReceiver: Option<Gen>
    var proxyExitReceiver: Option<Gen>
    var proxyBoundAddr: Option<SocketAddr>
    var systemProxy: bool
    ghost var stopped: set<Gen>

    ghost function Value(): Ui
      reads this
    {
      Ui(proxyRunning, proxyStarting, stopFlag, proxyStartReceiver, proxyExitReceiver, proxyBoundAddr,
         systemProxy, stopped)
    }

    /**
     Start a thread, unless one runs, is starting, or has not finished exiting, or a check fails;
     the answer says which of these came first.
     */
    method StartProxy(c: Settings, g: Gen) returns (launch: Result<Launch, NotStarted>)
      modifies this
      ensures launch.Ok? <==> old(Startable(Value())) && Launchable(c)
      ensures launch.Ok? ==> launch.value.nodes == Parsed(Valid(c.nodes, c.parse), c.parse)
      ensures launch.Err? ==> WhyNot(old(Value()), c, launch.error)
      ensures Value() == if launch.Ok? then Started(old(Value()), g) else old(Value())
    {
      if proxyRunning {
        return Err(AlreadyRunning);
      }
      if proxyStarting {
        return Err(AlreadyStarting);
      }
      if proxyExitReceiver.Some? {
        return Err(StillExiting);
      }
      var checked := Check(c);
      match checked {
        case Err(check) => launch := Err(Unfit(check));
        case Ok(value) =>
          stopFlag := Some(g);
          proxyExitReceiver := Some(g);
          proxyStartReceiver := Some(g);
          proxyStarting := true;
          launch := Ok(value);
      }
    }

    method ConvergeDeadSession()
      modifies this
      ensures Value() == Converged(old(Value()))
    {
      if stopFlag.Some? {
        stopped := stopped + {stopFlag.value};
        stopFlag := None;
      }
      proxyRunning := false;
      proxyStarting := false;
      systemProxy := false;
    }

    method StopProxy()
      modifies this
      ensures Value() == Stopped(old(Value()))
    {
      if stopFlag.Some? {
        stopped := stopped + {stopFlag.value};
      }
      proxyRunning := false;
      proxyStarting := false;
      proxyStartReceiver := None;
      stopFlag := None;
      systemProxy := false;
    }

    method ApplyReady(addrs: seq<SocketAddr>, tun: bool)
      modifies this
      ensures Value() == AllReadied(old(Value()), addrs, tun)
    {
      for i := 0 to |addrs|
        invariant Value() == AllReadied(old(Value()), addrs[..i], tun)
      {
        assert addrs[..i + 1][..i] == addrs[..i];
        if !proxyRunning {
          proxyRunning := true;
          proxyStarting := false;
          proxyBoundAddr := Some(addrs[i]);
          if !tun {
            systemProxy := true;
          }
        }
      }
      assert addrs[..|addrs|] == addrs;
    }

    /** Drain the start channel and act on what it held. */
    method PollStartReceiver(msgs: seq<Signal>, disconnected: bool, tun: bool)
      modifies this
      ensures Value() == Polled(old(Value()), msgs, disconnected, tun)
    {
      var batch := ClassifySignals(msgs, proxyRunning, disconnected);
      if msgs == [] {
        if disconnected {
          ConvergeDeadSession();
          proxyStartReceiver := None;
        }
        return;
      }
      ApplyReady(batch.readys, tun);
      if batch.failure.Some? {
        ConvergeDeadSession();
        proxyStartReceiver := None;
        return;
      }
      if batch.degraded != [] && proxyRunning && !disconnected {
        if proxyBoundAddr.Some? {
          systemProxy := true;
        }
      }
    }

    /**
     Leaving the program: stop, then look at the exit channel until it is readable or the time
     is up. `looks` are the answers it gives; when one is yes the thread is forgotten.
     */
    method ShutdownAndWaitForExit(looks: seq<bool>) returns (exited: bool)
      modifies this
      ensures var u := old(Value());
              && (exited <==> !Active(u) || (looks != [] && (u.exitRx.None? || true in looks)))
              && Value() == if !Active(u) then u else if exited then ExitSeen(Stopped(u)) else Stopped(u)
    {
      if !proxyRunning && stopFlag.None? && proxyExitReceiver.None? {
        return true;
      }
      StopProxy();
      exited := false;
      for i := 0 to |looks|
        invariant Value() == Stopped(old(Value())) && !exited
        invariant i > 0 ==> proxyExitReceiver.Some? && true !in looks[..i]
      {
        if proxyExitReceiver.None? || looks[i] {
          exited := true;
          break;
        }
        assert looks[..i + 1] == looks[..i] + [looks[i]];
      }
      if exited {
        proxyExitReceiver := None;
      } else {
        assert looks[..|looks|] == looks;
      }
    }

    /** The exit channel is readable: forget the thread, once the session is over. */
    method ClearExited()
      modifies this
      ensures Value() == ExitSeen(old(Value()))
    {
      if !proxyRunning && stopFlag.None? {
        proxyExitReceiver := None;
      }
    }

    /** The exit channel is readable although the session runs: the thread died. */
    method CheckDead()
      modifies this
      ensures Value() == DeathSeen(old(Value()))
    {
      if proxyRunning {
        ConvergeDeadSession();
      }
    }
  }

  // --------------------------------------------------------------------- machine

  /** Serving: can still send. Closing: the start channel is closed. Gone: the exit was signalled. */
  datatype Phase = Serving | Closing | Gone

  /** A thread, what waits in its start channel, and whether it has sent its one ready signal. */
  datatype Worker = Worker(phase: Phase, inbox: seq<Signal>, announced: bool)

  datatype State = State(ui: Ui, workers: seq<Worker>)

  datatype Event =
    | Start(configured: bool)  // whether the checks of a start pass
    | Stop
    | Shutdown
    | Poll(tun: bool)
    | ClearExit
    | CheckDeath
    | Toggle(on: bool, tun: bool)
    | Send(g: Gen, signal: Signal)
    | Close(g: Gen)
    | Exit(g: Gen)

  predicate Readable(s: State, rx: Option<Gen>) {
    rx.Some? && rx.value < |s.workers| && s.workers[rx.value].phase.Gone?
  }

  function PollChannel(s: State, tun: bool): State
    requires s.ui.startRx.Some? && s.ui.startRx.value < |s.workers|
  {
    var g := s.ui.startRx.value;
    var w := s.workers[g];
    State(Polled(s.ui, w.inbox, !w.phase.Serving?, tun), s.workers[g := w.(inbox := [])])
  }

  function PollStep(s: State, tun: bool): State {
    if s.ui.startRx.Some? && s.ui.startRx.value < |s.workers| then PollChannel(s, tun) else s
  }

  function WorkerStep(s: State, g: Gen, w: Worker): Option<State> {
    if g < |s.workers| then Some(s.(workers := s.workers[g := w])) else None
  }

  function Step(s: State, e: Event): Option<State> {
    match e
    case Start(configured) =>
      if Startable(s.ui) && configured
      then Some(State(Started(s.ui, |s.workers|), s.workers + [Worker(Serving, [], false)]))
      else Some(s)
    case Stop => Some(s.(ui := Stopped(s.ui)))
    case Shutdown =>
      if !Active(s.ui) then Some(s)
      else if s.ui.exitRx.None? || Readable(s, s.ui.exitRx) then Some(s.(ui := ExitSeen(Stopped(s.ui))))
      else Some(s.(ui := Stopped(s.ui)))
    case Poll(tun) =>
      Some(PollStep(s, tun))
    case ClearExit => if Readable(s, s.ui.exitRx) then Some(s.(ui := ExitSeen(s.ui))) else Some(s)
    case CheckDeath => if Readable(s, s.ui.exitRx) then Some(s.(ui := DeathSeen(s.ui))) else Some(s)
    case Toggle(on, tun) => if s.ui.running && !tun then Some(s.(ui := s.ui.(systemProxy := on))) else Some(s)
    case Send(g, signal) =>
      if g < |s.workers| && s.workers[g].phase.Serving? && !(signal.Ready? && s.workers[g].announced)
      then WorkerStep(s, g, s.workers[g].(inbox := s.workers[g].inbox + [signal],
                                          announced := s.workers[g].announced || signal.Ready?))
      else None
    case Close(g) =>
      if g < |s.workers| && s.workers[g].phase.Serving? then WorkerStep(s, g, s.workers[g].(phase := Closing)) else None
    case Exit(g) => if g < |s.workers| then WorkerStep(s, g, s.workers[g].(phase := Gone)) else None
  }

  function Run(events: seq<Event>): Option<State> {
    if events == [] then Some(State(IDLE, []))
    else
      match Run(events[..|events| - 1])
      case None => None
      case Some(s) => Step(s, events[|events| - 1])
  }

  // ------------------------------------------------------------------- invariant

  /** What the GUI's own fields keep. */
  predicate UiSound(u: Ui) {
    && !(u.running && u.starting)
    && (u.systemProxy ==> u.running)
    && (u.running ==> u.bound.Some?)
    && (u.stopFlag.Some? <==> u.running || u.starting)
    && (u.stopFlag.Some? ==> u.stopFlag == u.exitRx)
    && (u.starting ==> u.startRx == u.stopFlag)
  }

  /** The ready signal has been sent and taken out of the channel. */
  predicate ReadyTaken(w: Worker) { w.announced && forall m <- w.inbox :: m.Fault? }

  /** How the GUI's fields and the threads fit together. */
  ghost predicate ThreadsSound(u: Ui, workers: seq<Worker>) {
    && (u.exitRx.Some? ==> u.exitRx.value < |workers|)
    && (u.startRx.Some? ==> u.startRx.value < |workers|)
    && (u.startRx.Some? && !u.starting ==> ReadyTaken(workers[u.startRx.value]))
    && (forall g: nat :: g < |workers| && !workers[g].phase.Gone? ==> Watched(u, g))
    && (forall g: nat :: g < |workers| ==> Announces(workers[g]))
  }

  /** A ready signal in the channel has been noted as sent. */
  predicate Announces(w: Worker) { (exists m :: m in w.inbox && m.Ready?) ==> w.announced }

  /** A live thread is the one whose exit is awaited, and is in session or told to stop. */
  predicate Watched(u: Ui, g: Gen) { u.exitRx == Some(g) && (u.stopFlag == Some(g) || g in u.stopped) }

  ghost predicate Inv(s: State) { UiSound(s.ui) && ThreadsSound(s.ui, s.workers) }

  lemma {:induction false} ReadiedKeeps(u: Ui, addrs: seq<SocketAddr>, tun: bool)
    requires UiSound(u) && (u.running || u.starting || addrs == [])
    ensures var after := AllReadied(u, addrs, tun);
            && UiSound(after) && after.exitRx == u.exitRx && after.startRx == u.startRx
            && after.stopFlag == u.stopFlag && after.stopped == u.stopped
            && (after.running <==> u.running || addrs != [])
            && (after.running || after.starting <==> u.running || u.starting)
  {
    if addrs != [] {
      ReadiedKeeps(u, addrs[..|addrs| - 1], tun);
    }
  }

  /** A batch without a ready signal yields none. */
  lemma {:induction false} FaultsAreNotReady(msgs: seq<Signal>, sawReady: bool, disconnected: bool)
    requires forall m <- msgs :: m.Fault?
    ensures Classify(msgs, sawReady, disconnected).readys == []
  {
    if msgs != [] {
      assert msgs[0] in msgs;
      FaultsAreNotReady(msgs[1..], sawReady || msgs[0].Ready?, disconnected);
    }
  }

  /** A batch with no ready and no failure leaves the session as it was. */
  lemma {:induction false} ReadyWasInInbox(msgs: seq<Signal>, sawReady: bool, disconnected: bool)
    requires Classify(msgs, sawReady, disconnected).readys != []
    ensures exists m :: m in msgs && m.Ready?
  {
    if forall m <- msgs :: m.Fault? {
      FaultsAreNotReady(msgs, sawReady, disconnected);
    }
  }

  /** A step of the GUI that keeps or tells the thread, and at most empties its own channel. */
  lemma ThreadsKept(u: Ui, after: Ui, workers: seq<Worker>, later: seq<Worker>)
    requires ThreadsSound(u, workers) && |later| == |workers|
    requires forall g: nat :: g < |workers| ==> later[g].phase == workers[g].phase && Announces(later[g])
    requires after.exitRx == u.exitRx && (after.startRx == u.startRx || after.startRx.None?)
    requires || (after.stopFlag == u.stopFlag && after.stopped == u.stopped)
             || after.stopped == u.stopped + Tell(u.stopFlag)
    requires after.startRx.Some? && !after.starting ==> ReadyTaken(later[after.startRx.value])
    ensures ThreadsSound(after, later)
  {
    forall g: nat | g < |later| && !later[g].phase.Gone? ensures Watched(after, g) {
      assert Watched(u, g);
    }
  }

  /** What a poll leaves in the GUI's fields. */
  lemma AppliedKeeps(u: Ui, b: Batch, disconnected: bool, tun: bool)
    requires UiSound(u) && (b.readys == [] || u.running || u.starting) && (b.failure.Some? ==> b.readys == [])
    ensures var after := Applied(u, b, disconnected, tun);
            && UiSound(after) && after.exitRx == u.exitRx
            && (after.startRx == u.startRx || after.startRx.None?)
            && (b.failure.Some? ==> after == Stopped(u))
            && (b.failure.None? ==> after.stopFlag == u.stopFlag && after.stopped == u.stopped)
            && (after.startRx.Some? && !after.starting ==> b.readys != [] || !u.starting)
  {
    ReadiedKeeps(u, b.readys, tun);
  }

  lemma PollKeepsInv(s: State, tun: bool)
    requires Inv(s) && s.ui.startRx.Some?
    ensures Inv(PollChannel(s, tun))
  {
    var g := s.ui.startRx.value;
    var w := s.workers[g];
    var after := PollChannel(s, tun);
    if w.inbox == [] {
      ThreadsKept(s.ui, after.ui, s.workers, after.workers);
    } else {
      PollAppliesBatch(s.ui, w, tun);
      ThreadsKept(s.ui, after.ui, s.workers, after.workers);
    }
  }

  lemma PollAppliesBatch(u: Ui, w: Worker, tun: bool)
    requires UiSound(u) && w.inbox != [] && Announces(w) && (!u.starting ==> ReadyTaken(w))
    ensures var after := Polled(u, w.inbox, !w.phase.Serving?, tun);
            && UiSound(after) && after.exitRx == u.exitRx
            && (after.startRx == u.startRx || after.startRx.None?)
            && (|| (after.stopFlag == u.stopFlag && after.stopped == u.stopped)
                || after.stopped == u.stopped + Tell(u.stopFlag))
            && (after.startRx.Some? && !after.starting ==> w.announced)
  {
    var disconnected := !w.phase.Serving?;
    var b := Classify(w.inbox, u.running, disconnected);
    FailureMeansNeverReady(w.inbox, u.running, disconnected);
    if b.readys != [] {
      ReadyWasInInbox(w.inbox, u.running, disconnected);
    }
    if !u.starting {
      FaultsAreNotReady(w.inbox, u.running, disconnected);
    }
    AppliedKeeps(u, b, disconnected, tun);
  }

  lemma StartKeepsInv(s: State)
    requires Inv(s) && Startable(s.ui)
    ensures Inv(State(Started(s.ui, |s.workers|), s.workers + [Worker(Serving, [], false)]))
  {
    NobodyLives(s);
  }

  /** Once the exit channel is readable, or nobody waits for it, all threads are gone. */
  lemma NobodyLives(s: State)
    requires Inv(s) && (s.ui.exitRx.None? || Readable(s, s.ui.exitRx))
    ensures forall g: nat :: g < |s.workers| ==> s.workers[g].phase.Gone?
  {
  }

  lemma WorkerKeepsInv(s: State, g: Gen, w: Worker)
    requires Inv(s) && g < |s.workers| && Announces(w)
    requires w.phase.Gone? || !s.workers[g].phase.Gone?
    requires ReadyTaken(s.workers[g]) ==> ReadyTaken(w)
    ensures Inv(s.(workers := s.workers[g := w]))
  {
    var later := s.workers[g := w];
    forall h: nat | h < |later| && !later[h].phase.Gone? ensures Watched(s.ui, h) {
      assert !s.workers[h].phase.Gone?;
    }
  }

  lemma SendIsHonest(w: Worker, signal: Signal)
    requires Announces(w) && !(signal.Ready? && w.announced)
    ensures var after := w.(inbox := w.inbox + [signal], announced := w.announced || signal.Ready?);
            Announces(after) && (ReadyTaken(w) ==> ReadyTaken(after))
  {
    var after := w.(inbox := w.inbox + [signal], announced := w.announced || signal.Ready?);
    if exists m :: m in after.inbox && m.Ready? {
      var m :| m in after.inbox && m.Ready?;
      assert m in w.inbox || m == signal;
    }
  }

  /** Leaving the program is a stop followed by one look at the exit channel. */
  lemma ShutdownIsStopThenClear(s: State)
    ensures Active(s.ui) ==> Step(s, Shutdown) == Step(Step(s, Stop).value, ClearExit)
    ensures !Active(s.ui) ==> Step(s, Shutdown) == Some(s)
  {
  }

  lemma ShutdownKeepsInv(s: State)
    requires Inv(s)
    ensures Inv(Step(s, Shutdown).value)
  {
    ShutdownIsStopThenClear(s);
    if Active(s.ui) {
      GuiStepKeepsInv(s, Stop);
      GuiStepKeepsInv(Step(s, Stop).value, ClearExit);
    }
  }

  lemma GuiStepKeepsInv(s: State, e: Event)
    requires Inv(s) && Step(s, e).Some? && !e.Shutdown? && !e.Send? && !e.Close? && !e.Exit? && !e.Start? && !e.Poll?
    ensures Inv(Step(s, e).value)
  {
    var after := Step(s, e).value;
    if e.ClearExit? && Readable(s, s.ui.exitRx) {
      NobodyLives(s);
    } else {
      ThreadsKept(s.ui, after.ui, s.workers, s.workers);
    }
  }

  lemma StepKeepsInv(s: State, e: Event)
    requires Inv(s) && Step(s, e).Some?
    ensures Inv(Step(s, e).value)
  {
    match e
    case Start(configured) =>
      if Startable(s.ui) && configured {
        StartKeepsInv(s);
      }
    case Poll(tun) =>
      if s.ui.startRx.Some? && s.ui.startRx.value < |s.workers| {
        PollKeepsInv(s, tun);
      }
    case Shutdown => ShutdownKeepsInv(s);
    case Send(g, signal) =>
      var w := s.workers[g];
      SendIsHonest(w, signal);
      WorkerKeepsInv(s, g, w.(inbox := w.inbox + [signal], announced := w.announced || signal.Ready?));
    case Close(g) => WorkerKeepsInv(s, g, s.workers[g].(phase := Closing));
    case Exit(g) => WorkerKeepsInv(s, g, s.workers[g].(phase := Gone));
    case _ => GuiStepKeepsInv(s, e);
  }

  lemma {:induction false} RunKeepsInv(events: seq<Event>)
    requires Run(events).Some?
    ensures Inv(Run(events).value)
  {
    if events != [] {
      RunKeepsInv(events[..|events| - 1]);
      StepKeepsInv(Run(events[..|events| - 1]).value, events[|events| - 1]);
    }
  }

  // -------------------------------------------------------------------- theorems

  predicate Live(s: State, g: Gen) { g < |s.workers| && !s.workers[g].phase.Gone? }

  /**
   In every interleaving: at most one thread lives; while one lives no other is started; it is
   in session or has been told to stop; the GUI is never running and starting at once; and the
   system proxy switch is on only while running.
   */
  lemma LifecycleIsSafe(events: seq<Event>, g: Gen, h: Gen)
    requires Run(events).Some?
    ensures var s := Run(events).value;
            && (Live(s, g) && Live(s, h) ==> g == h)
            && (Live(s, g) ==> !Startable(s.ui) && (s.ui.stopFlag == Some(g) || g in s.ui.stopped))
            && !(s.ui.running && s.ui.starting)
            && (s.ui.systemProxy ==> s.ui.running)
  {
    var s := Run(events).value;
    RunKeepsInv(events);
    if Live(s, g) {
      assert Watched(s.ui, g);
    }
    if Live(s, h) {
      assert Watched(s.ui, h);
    }
  }

  /** The GUI's next looks: two polls of the start channel, then the exit channel twice. */
  function Settle(s: State, tun: bool): State {
    var polled := PollStep(PollStep(s, tun), tun);
    polled.(ui := ExitSeen(DeathSeen(polled.ui)))
  }

  lemma PollOfDead(s: State, tun: bool)
    requires Inv(s) && Readable(s, s.ui.exitRx)
    ensures var after := PollStep(s, tun);
            && Inv(after) && Readable(after, after.ui.exitRx)
            && (after.ui.starting ==> s.ui.starting && after.ui.startRx == s.ui.startRx
                                      && after.workers[after.ui.startRx.value].inbox == [])
            && (s.ui.starting && s.workers[s.ui.startRx.value].inbox == [] ==> !after.ui.starting)
  {
    if s.ui.startRx.Some? {
      PollKeepsInv(s, tun);
      var w := s.workers[s.ui.startRx.value];
      if w.inbox != [] {
        PollAppliesBatch(s.ui, w, tun);
        FailureMeansNeverReady(w.inbox, s.ui.running, !w.phase.Serving?);
        if !s.ui.starting {
          FaultsAreNotReady(w.inbox, s.ui.running, !w.phase.Serving?);
        }
        AppliedKeepsStarting(s.ui, Classify(w.inbox, s.ui.running, !w.phase.Serving?), !w.phase.Serving?, tun);
      }
    }
  }

  lemma AppliedKeepsStarting(u: Ui, b: Batch, disconnected: bool, tun: bool)
    requires UiSound(u) && (b.readys == [] || u.running || u.starting) && (b.failure.Some? ==> b.readys == [])
    ensures Applied(u, b, disconnected, tun).starting ==> u.starting
  {
    ReadiedKeeps(u, b.readys, tun);
  }

  /**
   A thread that is gone cannot wedge the GUI: two polls of the start channel and a look at
   the exit channel later a new start is possible and the system proxy is off.
   */
  lemma DeadThreadIsForgotten(s: State, tun: bool)
    requires Inv(s) && Readable(s, s.ui.exitRx)
    ensures Startable(Settle(s, tun).ui) && !Settle(s, tun).ui.systemProxy
  {
    PollOfDead(s, tun);
    PollOfDead(PollStep(s, tun), tun);
  }

  // ------------------------------------------------------------- who the system is pointed at

  /** The start channel brings the first ready signal: the session runs, and the system proxy is on unless TUN is. */
  lemma FirstReadyStartsSession(u: Ui, addr: SocketAddr, disconnected: bool, tun: bool)
    requires !u.running && !u.systemProxy
    ensures var after := Polled(u, [Ready(addr)], disconnected, tun);
            && after.running && !after.starting && after.bound == Some(addr)
            && (after.systemProxy <==> !tun)
            && after.stopFlag == u.stopFlag && after.exitRx == u.exitRx && after.stopped == u.stopped
  {
    var msgs := [Ready(addr)];
    assert msgs[1..] == [] && [addr] + [] == [addr] && [addr][..0] == [];
    assert Classify(msgs, false, disconnected) == Batch([addr], None, [], []);
    assert AllReadied(u, [addr], tun) == Readied(u, addr, tun);
  }

  /** TUN failing during a session that lives turns the system proxy on; one that has ended keeps it as it was. */
  lemma TunFailureFallsBack(u: Ui, text: string, disconnected: bool, tun: bool)
    requires u.running && u.bound.Some?
    ensures var after := Polled(u, [Fault(true, text)], disconnected, tun);
            && after.running && after.bound == u.bound
            && (after.systemProxy <==> u.systemProxy || !disconnected)
  {
    var msgs := [Fault(true, text)];
    assert msgs[1..] == [] && [text] + [] == [text];
    assert Classify(msgs, true, disconnected) == Batch([], None, [text], []);
  }

  /** TUN failing in the same poll as the first ready signal falls back too, whichever comes first. */
  lemma TunFailureWithReady(u: Ui, addr: SocketAddr, text: string, tun: bool, readyFirst: bool)
    requires !u.running
    ensures var msgs := if readyFirst then [Ready(addr), Fault(true, text)] else [Fault(true, text), Ready(addr)];
            var after := Polled(u, msgs, false, tun);
            after.running && after.bound == Some(addr) && after.systemProxy
  {
    if readyFirst {
      TwoSignals(Ready(addr), Fault(true, text), false, false);
    } else {
      TwoSignals(Fault(true, text), Ready(addr), false, false);
    }
    assert [addr] + [] == [addr] && [] + [addr] == [addr] && [text] + [] == [text] && [] + [text] == [text];
    AppliedFallsBack(u, Batch([addr], None, [text], []), addr, text, tun);
  }

  lemma AppliedFallsBack(u: Ui, b: Batch, addr: SocketAddr, text: string, tun: bool)
    requires !u.running && b == Batch([addr], None, [text], [])
    ensures var after := Applied(u, b, false, tun); after.running && after.bound == Some(addr) && after.systemProxy
  {
    assert [addr][..0] == [];
    assert AllReadied(u, [addr], tun) == Readied(u, addr, tun);
  }

  /** A batch of two signals of which neither ends it. */
  lemma TwoSignals(s: Signal, r: Signal, sawReady: bool, disconnected: bool)
    requires !Fatal(s, sawReady) && !Fatal(r, sawReady || s.Ready?)
    ensures Classify([s, r], sawReady, disconnected) == Join(Sorted(s, disconnected), Sorted(r, disconnected))
  {
    NextSignal(s, [r], sawReady, disconnected);
    NextSignal(r, [], sawReady || s.Ready?, disconnected);
    JoinNothing(Sorted(r, disconnected));
    assert [s] + [r] == [s, r] && [r] + [] == [r];
  }

  lemma NextSignal(s: Signal, rest: seq<Signal>, sawReady: bool, disconnected: bool)
    requires !Fatal(s, sawReady)
    ensures Classify([s] + rest, sawReady, disconnected)
         == Join(Sorted(s, disconnected), Classify(rest, sawReady || s.Ready?, disconnected))
  {
    assert ([s] + rest)[1..] == rest;
  }

  /** The proxy's own error before it was ready ends the start: nothing runs and the system proxy is off. */
  lemma FailureEndsStart(u: Ui, text: string, disconnected: bool, tun: bool)
    requires !u.running
    ensures var after := Polled(u, [Fault(false, text)], disconnected, tun);
            && !after.running && !after.starting && !after.systemProxy && after.startRx.None?
            && after.stopFlag.None? && after.exitRx == u.exitRx
            && (u.stopFlag.Some? ==> u.stopFlag.value in after.stopped)
  {
  }
}
