/**
 How two punched-through peers verify each other: who runs which side of the handshake, and
 the exchange itself as two programs over two first-in first-out streams.
 */
module PeerVerification {
  import opened Wrappers
  import opened Addresses

  // --------------------------------------------------------------------- roles

  /** The end with the lower address initiates; without usable addresses the direction decides. */
  function RoleByAddr(local: Option<SocketAddr>, peer: Option<SocketAddr>, outbound: bool): bool {
    if local.Some? && peer.Some? && local.value != peer.value then Less(local.value, peer.value) else outbound
  }

  /** When both ends see the same two distinct addresses, exactly one of them initiates. */
  lemma RolesAreOpposite(a: SocketAddr, b: SocketAddr, outboundA: bool, outboundB: bool)
    requires a != b
    ensures RoleByAddr(Some(a), Some(b), outboundA) != RoleByAddr(Some(b), Some(a), outboundB)
  {
    LessIsTotal(a, b);
  }

  /** An end comes first: its address is the lower of the two it sees, or they are one and it dials. */
  predicate IsBelow(own: SocketAddr, seen: SocketAddr, dials: bool) { if own == seen then dials else Less(own, seen) }

  /** An end comes last: its address is the higher of the two it sees, or they are one and it is dialled. */
  predicate IsAbove(own: SocketAddr, seen: SocketAddr, dials: bool) { if own == seen then !dials else Less(seen, own) }

  /**
   Address translation shows an end under another address than its own: A has `ownA` and is
   seen as `seenA`, and so for B. Exactly one of them initiates if and only if A's address is
   below the one it sees precisely when B's is above the one it sees; where an end sees its own
   address, the direction decides.
   */
  lemma RolesAreOppositeExactly(ownA: SocketAddr, seenA: SocketAddr, ownB: SocketAddr, seenB: SocketAddr,
                                outboundA: bool, outboundB: bool)
    ensures RoleByAddr(Some(ownA), Some(seenB), outboundA) != RoleByAddr(Some(ownB), Some(seenA), outboundB)
       <==> (IsBelow(ownA, seenB, outboundA) <==> IsAbove(ownB, seenA, outboundB))
  {
    LessIsTotal(ownB, seenA);
  }

  /** Both wait when both own addresses are above both seen ones, both begin when they are below. */
  lemma TranslationCanMakeRolesEqual(ownA: SocketAddr, seenA: SocketAddr, ownB: SocketAddr, seenB: SocketAddr,
                                     outboundA: bool, outboundB: bool)
    ensures Less(seenB, ownA) && Less(seenA, ownB) ==>
              !RoleByAddr(Some(ownA), Some(seenB), outboundA) && !RoleByAddr(Some(ownB), Some(seenA), outboundB)
    ensures Less(ownA, seenB) && Less(ownB, seenA) ==>
              RoleByAddr(Some(ownA), Some(seenB), outboundA) && RoleByAddr(Some(ownB), Some(seenA), outboundB)
  {
    LessIsTotal(seenB, ownA);
    LessIsTotal(seenA, ownB);
  }

  // ------------------------------------------------------------------ messages

  type Key = nat

  type Nonce = nat

  /**
   The opening message is read under any key; the other handshake messages carry the key they
   were made with, and another key cannot read them.
   */
  datatype Msg =
    | Hello
    | Reply(key: Key)
    | ConfirmC(key: Key)
    | ConfirmS(key: Key)
    | Mine(nonce: Nonce)
    | Echo(nonce: Nonce)

  /** One end's part: whether it initiates, its key and its nonce. */
  datatype Peer = Peer(initiator: bool, key: Key, nonce: Nonce)

  const LAST := 8

  /**
   Eight steps for either role. Initiator: Hello out, Reply in, ConfirmC out, ConfirmS in; the
   other end: Hello in, Reply out, ConfirmC in, ConfirmS out. Then both: nonce out, nonce in,
   echo out, echo in.
   */
  predicate CanSend(initiator: bool, pc: nat) {
    if pc >= 4 then pc == 4 || pc == 6
    else if initiator then pc == 0 || pc == 2
    else pc == 1 || pc == 3
  }

  function Outgoing(initiator: bool, pc: nat, me: Peer, heard: Nonce): Msg
    requires pc < LAST && CanSend(initiator, pc)
  {
    if pc == 4 then Mine(me.nonce)
    else if pc == 6 then Echo(heard)
    else if pc == 0 then Hello
    else if pc == 1 then Reply(me.key)
    else if pc == 2 then ConfirmC(me.key)
    else ConfirmS(me.key)
  }

  /** Whether a received message lets the step pass: the right kind, under the right key or nonce. */
  predicate Passes(initiator: bool, pc: nat, me: Peer, m: Msg)
    requires pc < LAST && !CanSend(initiator, pc)
  {
    if pc == 5 then m.Mine? && m.nonce != me.nonce
    else if pc == 7 then m == Echo(me.nonce)
    else if pc == 0 then m == Hello
    else if pc == 1 then m == Reply(me.key)
    else if pc == 2 then m == ConfirmC(me.key)
    else m == ConfirmS(me.key)
  }

  // -------------------------------------------------------------------- machine

  /** One end: its next step, whether it gave up, and the nonce it was told. */
  datatype End = End(pc: nat, failed: bool, heard: Nonce)

  predicate Accepted(e: End) { !e.failed && e.pc == LAST }

  /** Both ends; `up` is what A has sent and B has not read yet, `down` the other way. */
  datatype State = State(a: End, b: End, up: seq<Msg>, down: seq<Msg>)

  const BEGIN := State(End(0, false, 0), End(0, false, 0), [], [])

  /** One end makes one step: new end, rest of what it reads, what it writes. */
  function Advance(initiator: bool, e: End, me: Peer, incoming: seq<Msg>): Option<(End, seq<Msg>, seq<Msg>)> {
    if e.failed || e.pc >= LAST then None
    else if CanSend(initiator, e.pc) then
      Some((e.(pc := e.pc + 1), incoming, [Outgoing(initiator, e.pc, me, e.heard)]))
    else if incoming == [] then None
    else if !Passes(initiator, e.pc, me, incoming[0]) then Some((e.(failed := true), incoming, []))
    else
      var heard := if incoming[0].Mine? then incoming[0].nonce else e.heard;
      Some((End(e.pc + 1, false, heard), incoming[1..], []))
  }

  /** An end steps, or breaks off because the other end has closed the connection. */
  datatype Event = StepA | StepB | BreakA | BreakB

  function Next(s: State, e: Event, a: Peer, b: Peer): Option<State> {
    match e
    case StepA =>
      (match Advance(a.initiator, s.a, a, s.down)
       case None => None
       case Some((end, rest, out)) => Some(State(end, s.b, s.up + out, rest)))
    case StepB =>
      (match Advance(b.initiator, s.b, b, s.up)
       case None => None
       case Some((end, rest, out)) => Some(State(s.a, end, rest, s.down + out)))
    case BreakA => if s.b.failed && !s.a.failed && s.a.pc < LAST then Some(s.(a := s.a.(failed := true))) else None
    case BreakB => if s.a.failed && !s.b.failed && s.b.pc < LAST then Some(s.(b := s.b.(failed := true))) else None
  }

  function Run(events: seq<Event>, a: Peer, b: Peer): Option<State> {
    if events == [] then Some(BEGIN)
    else
      match Run(events[..|events| - 1], a, b)
      case None => None
      case Some(s) => Next(s, events[|events| - 1], a, b)
  }

  // ------------------------------------------------------------------ invariant

  /** Steps before `pc` that send. */
  function Sent(initiator: bool, pc: nat): nat {
    if pc == 0 then 0 else Sent(initiator, pc - 1) + if CanSend(initiator, pc - 1) then 1 else 0
  }

  function Heard(initiator: bool, pc: nat): nat { if Sent(initiator, pc) <= pc then pc - Sent(initiator, pc) else 0 }

  /** All that an honest end ever sends, in order. */
  function Script(initiator: bool, me: Peer, other: Peer): seq<Msg> {
    (if initiator then [Hello, ConfirmC(me.key)] else [Reply(me.key), ConfirmS(me.key)])
    + [Mine(me.nonce), Echo(other.nonce)]
  }

  predicate Honest(e: End, other: Peer) { e.pc <= LAST && (e.pc > 5 ==> e.heard == other.nonce) }

  /** An end that read a message under a key shares the key; past the nonces, they differ. */
  predicate Passed(initiator: bool, e: End, me: Peer, other: Peer) {
    && (Heard(initiator, e.pc) > (if initiator then 0 else 1) ==> me.key == other.key)
    && (e.pc > 5 ==> me.nonce != other.nonce)
  }

  /** What is under way is exactly what one end has sent and the other has not read. */
  predicate InFlight(queue: seq<Msg>, from: nat, to: nat, script: seq<Msg>) {
    from <= to <= |script| && queue == script[from..to]
  }

  predicate Compatible(a: Peer, b: Peer) { a.key == b.key && a.nonce != b.nonce }

  predicate Inv(s: State, a: Peer, b: Peer) {
    && Honest(s.a, b) && Honest(s.b, a)
    && Passed(a.initiator, s.a, a, b) && Passed(b.initiator, s.b, b, a)
    && InFlight(s.up, Heard(b.initiator, s.b.pc), Sent(a.initiator, s.a.pc), Script(a.initiator, a, b))
    && InFlight(s.down, Heard(a.initiator, s.a.pc), Sent(b.initiator, s.b.pc), Script(b.initiator, b, a))
    && (s.a.failed || s.b.failed ==> !Compatible(a, b))
  }

  lemma Counts(initiator: bool, pc: nat)
    requires pc < LAST
    ensures CanSend(initiator, pc) ==> Sent(initiator, pc) < 4
    ensures Sent(initiator, pc) <= pc && Sent(initiator, pc + 1) <= pc + 1
    ensures CanSend(initiator, pc) ==>
              Sent(initiator, pc + 1) == Sent(initiator, pc) + 1 && Heard(initiator, pc + 1) == Heard(initiator, pc)
    ensures !CanSend(initiator, pc) ==>
              Sent(initiator, pc + 1) == Sent(initiator, pc) && Heard(initiator, pc + 1) == Heard(initiator, pc) + 1
  {
    assert Sent(initiator, 1) == if initiator then 1 else 0;
    assert Sent(initiator, 2) == 1;
    assert Sent(initiator, 3) == if initiator then 2 else 1;
    assert Sent(initiator, 4) == 2;
    assert Sent(initiator, 5) == 3 && Sent(initiator, 6) == 3 && Sent(initiator, 7) == 4 && Sent(initiator, 8) == 4;
  }

  /** What an end sends is its script, item by item. */
  lemma SendsScript(initiator: bool, e: End, me: Peer, other: Peer)
    requires Honest(e, other) && e.pc < LAST && CanSend(initiator, e.pc)
    ensures Sent(initiator, e.pc) < 4
    ensures Outgoing(initiator, e.pc, me, e.heard) == Script(initiator, me, other)[Sent(initiator, e.pc)]
  {
    Counts(initiator, e.pc);
    SentTable(initiator);
  }

  lemma SentTable(initiator: bool)
    ensures Sent(initiator, 0) == 0 && Sent(initiator, 1) == (if initiator then 1 else 0) && Sent(initiator, 2) == 1
    ensures Sent(initiator, 3) == (if initiator then 2 else 1) && Sent(initiator, 4) == 2
    ensures Sent(initiator, 5) == 3 && Sent(initiator, 6) == 3 && Sent(initiator, 7) == 4 && Sent(initiator, 8) == 4
  {
    Counts(initiator, 0);
    Counts(initiator, 1);
    Counts(initiator, 2);
    Counts(initiator, 3);
    Counts(initiator, 4);
    Counts(initiator, 5);
    Counts(initiator, 6);
    Counts(initiator, 7);
  }

  /** What an end reads is the other's script; the check that can fail is of the key or the nonce. */
  lemma ReadsScript(initiator: bool, pc: nat, me: Peer, other: Peer)
    requires pc < LAST && !CanSend(initiator, pc)
    ensures Heard(initiator, pc) < 4
    ensures var m := Script(!initiator, other, me)[Heard(initiator, pc)];
            && (m.Mine? <==> pc == 5) && (m.Mine? ==> m.nonce == other.nonce)
            && (Passes(initiator, pc, me, m) <==> if pc == 7 || pc == 0 then true
                                                  else if pc == 5 then me.nonce != other.nonce
                                                  else me.key == other.key)
  {
    SentTable(initiator);
  }

  lemma SendKeeps(initiator: bool, e: End, me: Peer, other: Peer)
    requires Honest(e, other) && Passed(initiator, e, me, other) && e.pc < LAST && CanSend(initiator, e.pc)
    ensures Honest(e.(pc := e.pc + 1), other) && Passed(initiator, e.(pc := e.pc + 1), me, other)
    ensures Sent(initiator, e.pc) < Sent(initiator, e.pc + 1) <= 4
    ensures [Outgoing(initiator, e.pc, me, e.heard)]
         == Script(initiator, me, other)[Sent(initiator, e.pc)..Sent(initiator, e.pc + 1)]
  {
    Counts(initiator, e.pc);
    SendsScript(initiator, e, me, other);
    var script, n := Script(initiator, me, other), Sent(initiator, e.pc);
    assert script[n..n + 1] == [script[n]];
  }

  /** What a step must leave: `end`, the rest of what it reads, and what it wrote. */
  predicate Kept(initiator: bool, e: End, me: Peer, other: Peer, to: nat, end: End, rest: seq<Msg>, out: seq<Msg>) {
    && Honest(end, other) && Passed(initiator, end, me, other)
    && InFlight(rest, Heard(initiator, end.pc), to, Script(!initiator, other, me))
    && Sent(initiator, e.pc) <= Sent(initiator, end.pc) <= 4
    && out == Script(initiator, me, other)[Sent(initiator, e.pc)..Sent(initiator, end.pc)]
    && (end.failed ==> !Compatible(me, other))
  }

  lemma SendStep(initiator: bool, e: End, me: Peer, other: Peer, incoming: seq<Msg>, to: nat)
    requires Honest(e, other) && Passed(initiator, e, me, other) && !e.failed && e.pc < LAST && CanSend(initiator, e.pc)
    requires InFlight(incoming, Heard(initiator, e.pc), to, Script(!initiator, other, me))
    ensures Kept(initiator, e, me, other, to, e.(pc := e.pc + 1), incoming, [Outgoing(initiator, e.pc, me, e.heard)])
  {
    Counts(initiator, e.pc);
    SendKeeps(initiator, e, me, other);
  }

  lemma ReadStep(initiator: bool, e: End, me: Peer, other: Peer, incoming: seq<Msg>, to: nat)
    requires Honest(e, other) && Passed(initiator, e, me, other)
    requires !e.failed && e.pc < LAST && !CanSend(initiator, e.pc)
    requires InFlight(incoming, Heard(initiator, e.pc), to, Script(!initiator, other, me)) && incoming != []
    requires Passes(initiator, e.pc, me, incoming[0])
    ensures var heard := if incoming[0].Mine? then incoming[0].nonce else e.heard;
            Kept(initiator, e, me, other, to, End(e.pc + 1, false, heard), incoming[1..], [])
  {
    Counts(initiator, e.pc);
    SentBound(initiator, e.pc);
    ReadsScript(initiator, e.pc, me, other);
    assert incoming[0] == Script(!initiator, other, me)[Heard(initiator, e.pc)];
  }

  lemma GiveUpStep(initiator: bool, e: End, me: Peer, other: Peer, incoming: seq<Msg>, to: nat)
    requires Honest(e, other) && Passed(initiator, e, me, other)
    requires !e.failed && e.pc < LAST && !CanSend(initiator, e.pc)
    requires InFlight(incoming, Heard(initiator, e.pc), to, Script(!initiator, other, me)) && incoming != []
    requires !Passes(initiator, e.pc, me, incoming[0])
    ensures Kept(initiator, e, me, other, to, e.(failed := true), incoming, [])
  {
    SentBound(initiator, e.pc);
    ReadsScript(initiator, e.pc, me, other);
    assert incoming[0] == Script(!initiator, other, me)[Heard(initiator, e.pc)];
  }

  lemma SentBound(initiator: bool, pc: nat)
    requires pc <= LAST
    ensures Sent(initiator, pc) <= 4
  {
    SentTable(initiator);
  }

  /** One step of either end keeps its side of the invariant. */
  lemma AdvanceKeeps(initiator: bool, e: End, me: Peer, other: Peer, incoming: seq<Msg>, to: nat)
    requires Honest(e, other) && Passed(initiator, e, me, other) && Advance(initiator, e, me, incoming).Some?
    requires InFlight(incoming, Heard(initiator, e.pc), to, Script(!initiator, other, me))
    ensures var (end, rest, out) := Advance(initiator, e, me, incoming).value;
            Kept(initiator, e, me, other, to, end, rest, out)
  {
    if CanSend(initiator, e.pc) {
      SendStep(initiator, e, me, other, incoming, to);
    } else if Passes(initiator, e.pc, me, incoming[0]) {
      ReadStep(initiator, e, me, other, incoming, to);
    } else {
      GiveUpStep(initiator, e, me, other, incoming, to);
    }
  }

  lemma FlightGrows(queue: seq<Msg>, from: nat, to: nat, more: nat, script: seq<Msg>)
    requires InFlight(queue, from, to, script) && to <= more <= |script|
    ensures InFlight(queue + script[to..more], from, more, script)
  {
  }

  lemma StepOfA(s: State, a: Peer, b: Peer, end: End, rest: seq<Msg>, out: seq<Msg>)
    requires a.initiator != b.initiator && Inv(s, a, b)
    requires Kept(a.initiator, s.a, a, b, Sent(b.initiator, s.b.pc), end, rest, out)
    ensures Inv(State(end, s.b, s.up + out, rest), a, b)
  {
    FlightGrows(s.up, Heard(b.initiator, s.b.pc), Sent(a.initiator, s.a.pc), Sent(a.initiator, end.pc),
                Script(a.initiator, a, b));
  }

  lemma StepOfB(s: State, a: Peer, b: Peer, end: End, rest: seq<Msg>, out: seq<Msg>)
    requires a.initiator != b.initiator && Inv(s, a, b)
    requires Kept(b.initiator, s.b, b, a, Sent(a.initiator, s.a.pc), end, rest, out)
    ensures Inv(State(s.a, end, rest, s.down + out), a, b)
  {
    FlightGrows(s.down, Heard(a.initiator, s.a.pc), Sent(b.initiator, s.b.pc), Sent(b.initiator, end.pc),
                Script(b.initiator, b, a));
  }

  lemma NextKeepsInv(s: State, e: Event, a: Peer, b: Peer)
    requires a.initiator != b.initiator && Inv(s, a, b) && Next(s, e, a, b).Some?
    ensures Inv(Next(s, e, a, b).value, a, b)
  {
    match e
    case StepA =>
      var (end, rest, out) := Advance(a.initiator, s.a, a, s.down).value;
      AdvanceKeeps(a.initiator, s.a, a, b, s.down, Sent(b.initiator, s.b.pc));
      StepOfA(s, a, b, end, rest, out);
    case StepB =>
      var (end, rest, out) := Advance(b.initiator, s.b, b, s.up).value;
      AdvanceKeeps(b.initiator, s.b, b, a, s.up, Sent(a.initiator, s.a.pc));
      StepOfB(s, a, b, end, rest, out);
    case _ =>
  }

  lemma {:induction false} RunKeepsInv(events: seq<Event>, a: Peer, b: Peer)
    requires a.initiator != b.initiator && Run(events, a, b).Some?
    ensures Inv(Run(events, a, b).value, a, b)
  {
    if events != [] {
      RunKeepsInv(events[..|events| - 1], a, b);
      NextKeepsInv(Run(events[..|events| - 1], a, b).value, events[|events| - 1], a, b);
    }
  }

  // ------------------------------------------------------------------- theorems

  /** Nothing can happen any more. */
  ghost predicate Stuck(s: State, a: Peer, b: Peer) {
    forall e :: Next(s, e, a, b) == None
  }

  /** An end can take its next step: it sends, or there is something to read. */
  predicate CanMove(initiator: bool, e: End, incoming: seq<Msg>) {
    !e.failed && e.pc < LAST && (CanSend(initiator, e.pc) || incoming != [])
  }

  lemma CanMoveSteps(s: State, a: Peer, b: Peer)
    ensures CanMove(a.initiator, s.a, s.down) ==> Next(s, StepA, a, b).Some?
    ensures CanMove(b.initiator, s.b, s.up) ==> Next(s, StepB, a, b).Some?
  {
  }

  /** Of two positions that are not both the last, one sends or has been sent more than it read. */
  lemma OneCanMove(initiator: bool, pc: nat, pd: nat)
    requires pc <= LAST && pd <= LAST && (pc < LAST || pd < LAST)
    requires Heard(initiator, pc) <= Sent(!initiator, pd) && Heard(!initiator, pd) <= Sent(initiator, pc)
    ensures || (pc < LAST && (CanSend(initiator, pc) || Heard(initiator, pc) < Sent(!initiator, pd)))
            || (pd < LAST && (CanSend(!initiator, pd) || Heard(!initiator, pd) < Sent(initiator, pc)))
  {
    SentTable(initiator);
    SentTable(!initiator);
  }

  /** The queues hold exactly what the positions say is under way. */
  predicate Queued(initiator: bool, s: State) {
    && s.a.pc <= LAST && s.b.pc <= LAST
    && Heard(initiator, s.a.pc) <= Sent(!initiator, s.b.pc) && Heard(!initiator, s.b.pc) <= Sent(initiator, s.a.pc)
    && (s.down != [] <==> Heard(initiator, s.a.pc) < Sent(!initiator, s.b.pc))
    && (s.up != [] <==> Heard(!initiator, s.b.pc) < Sent(initiator, s.a.pc))
  }

  lemma InvIsQueued(s: State, a: Peer, b: Peer)
    requires a.initiator != b.initiator && Inv(s, a, b)
    ensures Queued(a.initiator, s)
  {
  }

  lemma QueuedMoves(initiator: bool, s: State)
    requires Queued(initiator, s) && !s.a.failed && !s.b.failed && (s.a.pc < LAST || s.b.pc < LAST)
    ensures CanMove(initiator, s.a, s.down) || CanMove(!initiator, s.b, s.up)
  {
    OneCanMove(initiator, s.a.pc, s.b.pc);
  }

  /** Two ends that have not given up never wait for each other. */
  lemma NoDeadlock(s: State, a: Peer, b: Peer)
    requires a.initiator != b.initiator && Inv(s, a, b)
    requires !s.a.failed && !s.b.failed && (s.a.pc < LAST || s.b.pc < LAST)
    ensures Next(s, StepA, a, b).Some? || Next(s, StepB, a, b).Some?
  {
    InvIsQueued(s, a, b);
    QueuedMoves(a.initiator, s);
    CanMoveSteps(s, a, b);
  }

  lemma AcceptanceIsEarned(initiator: bool, e: End, me: Peer, other: Peer)
    requires Passed(initiator, e, me, other) && Accepted(e)
    ensures Compatible(me, other)
  {
    SentTable(initiator);
  }

  /** An end that gives up takes the other with it. */
  lemma FailureSpreads(s: State, a: Peer, b: Peer)
    requires Inv(s, a, b) && (s.a.failed || s.b.failed)
    requires Next(s, BreakA, a, b) == None && Next(s, BreakB, a, b) == None
    ensures s.a.failed && s.b.failed
  {
    if Accepted(s.a) {
      AcceptanceIsEarned(a.initiator, s.a, a, b);
    }
    if Accepted(s.b) {
      AcceptanceIsEarned(b.initiator, s.b, b, a);
    }
  }

  /**
   However the steps interleave, when nothing can happen any more both ends have accepted if
   their keys agree and their nonces differ, and otherwise both have given up.
   */
  lemma OutcomeIsAgreed(events: seq<Event>, a: Peer, b: Peer)
    requires a.initiator != b.initiator
    requires Run(events, a, b).Some? && Stuck(Run(events, a, b).value, a, b)
    ensures var s := Run(events, a, b).value;
            if Compatible(a, b) then Accepted(s.a) && Accepted(s.b) else s.a.failed && s.b.failed
  {
    var s := Run(events, a, b).value;
    RunKeepsInv(events, a, b);
    if !s.a.failed && !s.b.failed {
      if s.a.pc < LAST || s.b.pc < LAST {
        NoDeadlock(s, a, b);
      }
      AcceptanceIsEarned(a.initiator, s.a, a, b);
    } else {
      FailureSpreads(s, a, b);
    }
  }

  /** At every moment of every run: who has accepted was right to, and then nobody gives up. */
  lemma AcceptedMeansCompatible(events: seq<Event>, a: Peer, b: Peer)
    requires a.initiator != b.initiator
    requires Run(events, a, b).Some?
    ensures var s := Run(events, a, b).value;
            && (Accepted(s.a) || Accepted(s.b) ==> Compatible(a, b) && !s.a.failed && !s.b.failed)
            && (s.a.failed || s.b.failed ==> !Compatible(a, b))
  {
    var s := Run(events, a, b).value;
    RunKeepsInv(events, a, b);
    if Accepted(s.a) {
      AcceptanceIsEarned(a.initiator, s.a, a, b);
    }
    if Accepted(s.b) {
      AcceptanceIsEarned(b.initiator, s.b, b, a);
    }
  }

  function Progress(e: End): nat { e.pc + if e.failed then 1 else 0 }

  predicate InBounds(e: End) { e.pc <= LAST && (e.failed ==> e.pc < LAST) }

  lemma NextIsProgress(s: State, e: Event, a: Peer, b: Peer)
    requires InBounds(s.a) && InBounds(s.b) && Next(s, e, a, b).Some?
    ensures var t := Next(s, e, a, b).value;
            InBounds(t.a) && InBounds(t.b) && Progress(t.a) + Progress(t.b) == Progress(s.a) + Progress(s.b) + 1
  {
  }

  /** Every run ends: each event is a step forward, and there are at most eight for each end. */
  lemma {:induction false} RunsAreShort(events: seq<Event>, a: Peer, b: Peer)
    requires Run(events, a, b).Some?
    ensures var s := Run(events, a, b).value;
            InBounds(s.a) && InBounds(s.b) && |events| == Progress(s.a) + Progress(s.b) <= 2 * LAST
  {
    if events != [] {
      var init := events[..|events| - 1];
      RunsAreShort(init, a, b);
      NextIsProgress(Run(init, a, b).value, events[|events| - 1], a, b);
    }
  }

  // ------------------------------------------------------------------ equal roles

  /** Two ends that both wait: the very first state is the last. */
  lemma TwoResponders(a: Peer, b: Peer)
    requires !a.initiator && !b.initiator
    ensures Stuck(BEGIN, a, b)
    ensures forall events :: Run(events, a, b).Some? ==> Run(events, a, b).value == BEGIN
  {
    forall events | Run(events, a, b).Some? ensures Run(events, a, b).value == BEGIN {
      RespondersStay(events, a, b);
    }
  }

  lemma {:induction false} RespondersStay(events: seq<Event>, a: Peer, b: Peer)
    requires !a.initiator && !b.initiator && Run(events, a, b).Some?
    ensures Run(events, a, b).value == BEGIN
  {
    if events != [] {
      RespondersStay(events[..|events| - 1], a, b);
    }
  }

  /** Two ends that both begin: each sends its greeting and cannot take the other's for an answer. */
  predicate BothBegan(s: State, a: Peer, b: Peer) {
    && s.a.pc <= 1 && s.b.pc <= 1
    && s.up == (if s.a.pc == 1 then [Hello] else [])
    && s.down == (if s.b.pc == 1 then [Hello] else [])
  }

  lemma {:induction false} InitiatorsStay(events: seq<Event>, a: Peer, b: Peer)
    requires a.initiator && b.initiator && Run(events, a, b).Some?
    ensures BothBegan(Run(events, a, b).value, a, b)
  {
    if events != [] {
      InitiatorsStay(events[..|events| - 1], a, b);
    }
  }

  lemma TwoInitiators(events: seq<Event>, a: Peer, b: Peer)
    requires a.initiator && b.initiator && Run(events, a, b).Some?
    ensures var s := Run(events, a, b).value;
            && !Accepted(s.a) && !Accepted(s.b)
            && (Stuck(s, a, b) ==> s.a.failed && s.b.failed)
  {
    var s := Run(events, a, b).value;
    InitiatorsStay(events, a, b);
    if Stuck(s, a, b) {
      assert Next(s, StepA, a, b) == None && Next(s, StepB, a, b) == None;
      assert Next(s, BreakA, a, b) == None && Next(s, BreakB, a, b) == None;
    }
  }

  // --------------------------------------------------------- when it works at all

  lemma OneMore(events: seq<Event>, e: Event, a: Peer, b: Peer)
    requires Run(events, a, b).Some? && Next(Run(events, a, b).value, e, a, b).Some?
    ensures Run(events + [e], a, b).Some? && |events| < 2 * LAST
  {
    assert (events + [e])[..|events|] == events;
    RunsAreShort(events + [e], a, b);
  }

  lemma NotStuck(s: State, a: Peer, b: Peer) returns (e: Event)
    requires !Stuck(s, a, b)
    ensures Next(s, e, a, b).Some?
  {
    e :| Next(s, e, a, b) != None;
  }

  /** The run is one, and nothing can happen after it. */
  ghost predicate RunsOut(events: seq<Event>, a: Peer, b: Peer) {
    Run(events, a, b).Some? && Stuck(Run(events, a, b).value, a, b)
  }

  lemma SumsAgree(events: seq<Event>, e: Event, rest: seq<Event>)
    ensures events + ([e] + rest) == events + [e] + rest
  {
  }

  /** Any run can be carried on until nothing can happen any more. */
  lemma {:induction false} RunsOn(events: seq<Event>, a: Peer, b: Peer) returns (more: seq<Event>)
    requires Run(events, a, b).Some?
    ensures RunsOut(events + more, a, b)
    decreases 2 * LAST - |events|
  {
    RunsAreShort(events, a, b);
    if RunsOut(events, a, b) {
      more := [];
      assert events + [] == events;
    } else {
      var e := NotStuck(Run(events, a, b).value, a, b);
      OneMore(events, e, a, b);
      var rest := RunsOn(events + [e], a, b);
      more := [e] + rest;
      SumsAgree(events, e, rest);
    }
  }

  ghost predicate BothAccept(events: seq<Event>, a: Peer, b: Peer) {
    Run(events, a, b).Some? && Accepted(Run(events, a, b).value.a) && Accepted(Run(events, a, b).value.b)
  }

  /**
   Two ends can reach acceptance if and only if their roles are opposite, their keys agree and
   their nonces differ.
   */
  lemma AcceptanceIsReachableExactly(a: Peer, b: Peer)
    ensures (exists events :: BothAccept(events, a, b)) <==> a.initiator != b.initiator && Compatible(a, b)
  {
    if a.initiator != b.initiator && Compatible(a, b) {
      var events := RunsOn([], a, b);
      assert [] + events == events;
      OutcomeIsAgreed(events, a, b);
      assert BothAccept(events, a, b);
    }
    forall events | BothAccept(events, a, b) ensures a.initiator != b.initiator && Compatible(a, b) {
      NobodyAcceptsOtherwise(events, a, b);
    }
  }

  lemma NobodyAcceptsOtherwise(events: seq<Event>, a: Peer, b: Peer)
    requires Run(events, a, b).Some?
    requires Accepted(Run(events, a, b).value.a) || Accepted(Run(events, a, b).value.b)
    ensures a.initiator != b.initiator && Compatible(a, b)
  {
    if a.initiator != b.initiator {
      AcceptedMeansCompatible(events, a, b);
    } else if a.initiator {
      TwoInitiators(events, a, b);
    } else {
      RespondersStay(events, a, b);
    }
  }

  /**
   Role selection and exchange together: two ends, each with its own address and the address
   it sees, can verify each other if and only if their keys agree, their nonces differ and one
   is below what it sees exactly when the other is above.
   */
  lemma VerificationWorksExactly(ownA: SocketAddr, seenA: SocketAddr, ownB: SocketAddr, seenB: SocketAddr,
                                 outboundA: bool, outboundB: bool, keyA: Key, keyB: Key, nonceA: Nonce, nonceB: Nonce)
    ensures var a := Peer(RoleByAddr(Some(ownA), Some(seenB), outboundA), keyA, nonceA);
            var b := Peer(RoleByAddr(Some(ownB), Some(seenA), outboundB), keyB, nonceB);
            (exists events :: BothAccept(events, a, b))
            <==> keyA == keyB && nonceA != nonceB
                 && (IsBelow(ownA, seenB, outboundA) <==> IsAbove(ownB, seenA, outboundB))
  {
    var a := Peer(RoleByAddr(Some(ownA), Some(seenB), outboundA), keyA, nonceA);
    var b := Peer(RoleByAddr(Some(ownB), Some(seenA), outboundB), keyB, nonceB);
    RolesAreOppositeExactly(ownA, seenA, ownB, seenB, outboundA, outboundB);
    AcceptanceIsReachableExactly(a, b);
  }

  /** Ends that do not both know an address of their own and of the other: the one that dials initiates. */
  lemma DirectionDecides(local: Option<SocketAddr>, seen: Option<SocketAddr>, dials: bool)
    requires local.None? || seen.None?
    ensures RoleByAddr(local, seen, dials) <==> dials
  {
  }
}
