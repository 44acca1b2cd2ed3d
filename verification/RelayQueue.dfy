/**
 The outgoing queue of one relay client, as the goroutines that use it see it.

 Any number of goroutines enqueue packets and any number close the client, while its writer
 empties the queue. Each goroutine has a program counter; a move is one of its atomic actions,
 and a run is any interleaving of moves. A send on a closed channel and a second close of a
 channel are modelled as what they are, a panic.
 */
module RelayQueue {

  const PACKET_BYTES := 112
  const QUEUE_LENGTH := 256
  const TYPE_DATA := 5

  type Packet = raw: seq<int> | |raw| == PACKET_BYTES witness seq(PACKET_BYTES, _ => 0)

  predicate IsData(pkt: Packet) { pkt[5] == TYPE_DATA }

  /** How an enqueue ended: sent as the index-th packet, dropped with so many queued, turned away
      because the client was closed, or given up because it closed while the sender waited. */
  datatype Outcome = Accepted(index: nat) | Dropped(queued: nat) | Refused | Abandoned

  datatype Pc =
    // enqueue
    | Entering(pkt: Packet) | Checking(pkt: Packet) | Sending(pkt: Packet) | Waiting(pkt: Packet)
    | Leaving(pkt: Packet, outcome: Outcome) | Sent(pkt: Packet, outcome: Outcome)
    // closeClient
    | Calling | ClosingDone | WantingLock | Marking | ClosingOut | ClosingConn | Unlocking | Finishing | Returned

  datatype Lock = Free | Held(owner: nat)
  datatype Once = Fresh | Running(caller: nat) | Finished
  datatype Writer = Ready | Writing(pkt: Packet) | Failed(lost: Packet) | Exited

  datatype Client = Client(
    outMu: Lock, once: Once, out: seq<Packet>, outClosed: bool, doneClosed: bool, closed: bool, connClosed: bool,
    accepted: seq<Packet>, dropped: nat, panicked: bool)

  datatype State = State(threads: seq<Pc>, c: Client, writer: Writer, emitted: seq<Packet>)

  datatype Move =
    | Enqueue(pkt: Packet) | Close | Step(t: nat, viaDone: bool)
    | Take | Write | Fail | Exit

  function Initial(): State {
    State([], Client(Free, Fresh, [], false, false, false, false, [], 0, false), Ready, [])
  }

  // ------------------------------------------------------------------ moves

  /** Whether a thread can take its next action; a waiting sender has two ways to go on. */
  predicate CanStep(pc: Pc, c: Client, viaDone: bool) {
    match pc
    case Entering(_) => c.outMu == Free
    case Waiting(_) => if viaDone then c.doneClosed else c.outClosed || |c.out| < QUEUE_LENGTH
    case Calling => !c.once.Running?
    case WantingLock => c.outMu == Free
    case Sent(_, _) => false
    case Returned => false
    case _ => true
  }

  /** Whether the next action of a thread is a send, and whether it panics. */
  predicate Sends(pc: Pc, c: Client, viaDone: bool) {
    || (pc.Sending? && (c.outClosed || |c.out| < QUEUE_LENGTH))
    || (pc.Waiting? && !viaDone)
  }

  predicate Panics(pc: Pc, c: Client, viaDone: bool) {
    (Sends(pc, c, viaDone) && c.outClosed) || (pc.ClosingDone? && c.doneClosed) || (pc.ClosingOut? && c.outClosed)
  }

  /** Where a thread is after its next action. */
  function NextPc(pc: Pc, c: Client, viaDone: bool): Pc {
    if Sends(pc, c, viaDone) then Leaving(pc.pkt, Accepted(|c.accepted|)) else
    match pc
    case Entering(pkt) => Checking(pkt)
    case Checking(pkt) => if c.closed then Leaving(pkt, Refused) else Sending(pkt)
    case Sending(pkt) => if IsData(pkt) then Leaving(pkt, Dropped(|c.out|)) else Waiting(pkt)
    case Waiting(pkt) => Leaving(pkt, Abandoned)
    case Leaving(pkt, outcome) => Sent(pkt, outcome)
    case Calling => if c.once == Fresh then ClosingDone else Returned
    case ClosingDone => WantingLock
    case WantingLock => Marking
    case Marking => ClosingOut
    case ClosingOut => ClosingConn
    case ClosingConn => Unlocking
    case Unlocking => Finishing
    case Finishing => Returned
    case _ => pc
  }

  /** The client after the next action of thread t. */
  function NextClient(pc: Pc, c: Client, t: nat, viaDone: bool): Client {
    if Panics(pc, c, viaDone) then c.(panicked := true)
    else if Sends(pc, c, viaDone) then c.(out := c.out + [pc.pkt], accepted := c.accepted + [pc.pkt])
    else match pc
      case Entering(_) => c.(outMu := Held(t))
      case Sending(pkt) => if IsData(pkt) then c.(dropped := c.dropped + 1) else c
      case Leaving(_, _) => c.(outMu := Free)
      case Calling => if c.once == Fresh then c.(once := Running(t)) else c
      case ClosingDone => c.(doneClosed := true)
      case WantingLock => c.(outMu := Held(t))
      case Marking => c.(closed := true)
      case ClosingOut => c.(outClosed := true)
      case ClosingConn => c.(connClosed := true)
      case Unlocking => c.(outMu := Free)
      case Finishing => c.(once := Finished)
      case _ => c
  }

  predicate Enabled(s: State, m: Move) {
    !s.c.panicked &&
    match m
    case Enqueue(_) => true
    case Close => true
    case Step(t, viaDone) => t < |s.threads| && CanStep(s.threads[t], s.c, viaDone)
    case Take => s.writer == Ready && |s.c.out| > 0
    case Write => s.writer.Writing? && !s.c.connClosed
    case Fail => s.writer.Writing?
    case Exit => s.writer == Ready && |s.c.out| == 0 && s.c.outClosed
  }

  function Fire(s: State, m: Move): State
    requires Enabled(s, m)
  {
    match m
    case Enqueue(pkt) => s.(threads := s.threads + [Entering(pkt)])
    case Close => s.(threads := s.threads + [Calling])
    case Step(t, viaDone) =>
      var pc := s.threads[t];
      s.(threads := s.threads[t := NextPc(pc, s.c, viaDone)], c := NextClient(pc, s.c, t, viaDone))
    case Take => s.(writer := Writing(s.c.out[0]), c := s.c.(out := s.c.out[1..]))
    case Write => s.(writer := Ready, emitted := s.emitted + [s.writer.pkt])
    case Fail => s.(writer := Failed(s.writer.pkt), c := s.c.(connClosed := true))
    case Exit => s.(writer := Exited)
  }

  /** The moves lead from s to s', each enabled when it is made. */
  ghost predicate Run(s: State, moves: seq<Move>, s': State)
    decreases |moves|
  {
    if |moves| == 0 then s == s' else Enabled(s, moves[0]) && Run(Fire(s, moves[0]), moves[1..], s')
  }

  // ------------------------------------------------------------------ invariants

  /** The program counters between locking and unlocking outMu. */
  predicate InLock(pc: Pc) {
    pc.Checking? || pc.Sending? || pc.Waiting? || pc.Leaving? || pc.Marking? || pc.ClosingOut? || pc.ClosingConn? || pc.Unlocking?
  }

  /** The program counters inside closeOnce.Do. */
  predicate InOnce(pc: Pc) {
    pc.ClosingDone? || pc.WantingLock? || pc.Marking? || pc.ClosingOut? || pc.ClosingConn? || pc.Unlocking? || pc.Finishing?
  }

  predicate MaySend(pc: Pc) { pc.Sending? || pc.Waiting? }

  predicate WasAccepted(pc: Pc) { (pc.Leaving? || pc.Sent?) && pc.outcome.Accepted? }

  predicate WasDropped(pc: Pc) { (pc.Leaving? || pc.Sent?) && pc.outcome.Dropped? }

  /** How far a thread inside closeOnce has come. */
  function Stage(pc: Pc): nat {
    match pc
    case WantingLock => 1
    case Marking => 1
    case ClosingOut => 2
    case ClosingConn => 3
    case Unlocking => 4
    case Finishing => 4
    case _ => 0
  }

  function Progress(s: State): nat {
    match s.c.once
    case Fresh => 0
    case Finished => 4
    case Running(caller) => if caller < |s.threads| then Stage(s.threads[caller]) else 0
  }

  ghost predicate LockInv(threads: seq<Pc>, outMu: Lock) {
    && (outMu.Held? ==> outMu.owner < |threads|)
    && forall t :: 0 <= t < |threads| ==> (InLock(threads[t]) <==> outMu == Held(t))
  }

  ghost predicate OnceInv(threads: seq<Pc>, once: Once) {
    && (once.Running? ==> once.caller < |threads|)
    && (forall t :: 0 <= t < |threads| ==> (InOnce(threads[t]) <==> once == Running(t)))
    && forall t :: 0 <= t < |threads| && threads[t].Returned? ==> once == Finished
  }

  /** Every flag that a stage implies is set, and no other. */
  ghost predicate FlagsAt(c: Client, stage: nat) {
    && (c.doneClosed <==> stage >= 1) && (c.closed <==> stage >= 2) && (c.outClosed <==> stage >= 3)
    && (stage >= 4 ==> c.connClosed)
  }

  ghost predicate FlagInv(s: State) {
    FlagsAt(s.c, Progress(s)) && forall t :: 0 <= t < |s.threads| && MaySend(s.threads[t]) ==> !s.c.closed
  }

  /** The packet that the writer has taken and not written. */
  function InHand(w: Writer): seq<Packet> {
    match w case Writing(p) => [p] case Failed(p) => [p] case _ => []
  }

  ghost predicate QueueInv(s: State) {
    && s.c.accepted == s.emitted + InHand(s.writer) + s.c.out && |s.c.out| <= QUEUE_LENGTH
    && (s.writer == Exited ==> s.c.outClosed && s.c.out == [])
    && (s.writer.Failed? ==> s.c.connClosed)
  }

  /** An outcome was reached for its reason, and a sender that waits has no DATA. */
  ghost predicate OutcomeInv(pc: Pc, accepted: seq<Packet>, doneClosed: bool) {
    && (pc.Waiting? ==> !IsData(pc.pkt))
    && (pc.Leaving? || pc.Sent? ==>
      match pc.outcome
      case Accepted(i) => i < |accepted| && accepted[i] == pc.pkt
      case Dropped(queued) => queued == QUEUE_LENGTH && IsData(pc.pkt)
      case Refused => doneClosed
      case Abandoned => doneClosed && !IsData(pc.pkt))
  }

  ghost predicate ThreadInv(s: State) {
    && (forall t :: 0 <= t < |s.threads| ==> OutcomeInv(s.threads[t], s.c.accepted, s.c.doneClosed))
    && (forall t, u :: 0 <= t < u < |s.threads| && WasAccepted(s.threads[t]) && WasAccepted(s.threads[u]) ==>
      s.threads[t].outcome.index != s.threads[u].outcome.index)
  }

  datatype Measure = Acceptances | Drops | Work

  /** What one thread adds to a measure; its work is a bound on the actions it has left. */
  function Weight(measure: Measure, pc: Pc): nat {
    match measure
    case Acceptances => if WasAccepted(pc) then 1 else 0
    case Drops => if WasDropped(pc) then 1 else 0
    case Work =>
      match pc
      case Entering(_) => 5
      case Checking(_) => 4
      case Sending(_) => 3
      case Waiting(_) => 2
      case Leaving(_, _) => 1
      case Sent(_, _) => 0
      case Calling => 8
      case ClosingDone => 7
      case WantingLock => 6
      case Marking => 5
      case ClosingOut => 4
      case ClosingConn => 3
      case Unlocking => 2
      case Finishing => 1
      case Returned => 0
  }

  function Total(measure: Measure, threads: seq<Pc>): nat {
    if |threads| == 0 then 0
    else Total(measure, threads[..|threads| - 1]) + Weight(measure, threads[|threads| - 1])
  }

  ghost predicate CountInv(s: State) {
    Total(Acceptances, s.threads) == |s.c.accepted| && Total(Drops, s.threads) == s.c.dropped
  }

  ghost predicate Inv(s: State) {
    && !s.c.panicked && LockInv(s.threads, s.c.outMu) && OnceInv(s.threads, s.c.once)
    && FlagInv(s) && QueueInv(s) && ThreadInv(s) && CountInv(s)
  }

  // ------------------------------------------------------------------ what one action changes

  ghost predicate LockEffect(pc: Pc, pc': Pc, t: nat, outMu: Lock, outMu': Lock) {
    || (InLock(pc) == InLock(pc') && outMu' == outMu)
    || (!InLock(pc) && InLock(pc') && outMu == Free && outMu' == Held(t))
    || (InLock(pc) && !InLock(pc') && outMu' == Free)
  }

  lemma StepLocks(pc: Pc, c: Client, t: nat, viaDone: bool)
    requires CanStep(pc, c, viaDone) && !Panics(pc, c, viaDone)
    ensures LockEffect(pc, NextPc(pc, c, viaDone), t, c.outMu, NextClient(pc, c, t, viaDone).outMu)
  {
    if !Sends(pc, c, viaDone) {
      match pc
      case Entering(_) =>
      case Checking(_) =>
      case Sending(_) =>
      case Calling =>
      case WantingLock =>
      case Unlocking =>
      case Finishing =>
      case _ =>
    }
  }

  ghost predicate OnceEffect(pc: Pc, pc': Pc, t: nat, once: Once, once': Once) {
    && (pc'.Returned? ==> once' == Finished)
    && (|| (InOnce(pc) == InOnce(pc') && once' == once)
        || (!InOnce(pc) && InOnce(pc') && once == Fresh && once' == Running(t) && Stage(pc') == 0)
        || (InOnce(pc) && !InOnce(pc') && once' == Finished && Stage(pc) == 4))
  }

  lemma StepOnces(pc: Pc, c: Client, t: nat, viaDone: bool)
    requires CanStep(pc, c, viaDone) && !Panics(pc, c, viaDone)
    requires InOnce(pc) ==> c.once == Running(t)
    ensures OnceEffect(pc, NextPc(pc, c, viaDone), t, c.once, NextClient(pc, c, t, viaDone).once)
  {
    if !Sends(pc, c, viaDone) {
      match pc
      case Entering(_) =>
      case Checking(_) =>
      case Sending(_) =>
      case Calling =>
      case WantingLock =>
      case Unlocking =>
      case Finishing =>
      case _ =>
    }
  }

  ghost predicate FlagEffect(pc: Pc, pc': Pc, c: Client, c': Client) {
    && (if InOnce(pc) then FlagsAt(c, Stage(pc)) ==> FlagsAt(c', if InOnce(pc') then Stage(pc') else 4)
        else c'.doneClosed == c.doneClosed && c'.closed == c.closed && c'.outClosed == c.outClosed && c'.connClosed == c.connClosed)
    && (MaySend(pc') ==> (MaySend(pc) || !c.closed) && c'.closed == c.closed) && (c'.closed == c.closed || InLock(pc))
    && (c.doneClosed ==> c'.doneClosed) && (c.closed ==> c'.closed)
    && (c.outClosed ==> c'.outClosed) && (c.connClosed ==> c'.connClosed)
  }

  lemma StepFlags(pc: Pc, c: Client, t: nat, viaDone: bool)
    requires CanStep(pc, c, viaDone) && !Panics(pc, c, viaDone)
    ensures FlagEffect(pc, NextPc(pc, c, viaDone), c, NextClient(pc, c, t, viaDone))
  {
  }

  /** The queue grows by the packet of the thread that sends it, and only then. */
  ghost predicate QueueEffect(pc: Pc, pc': Pc, c: Client, c': Client) {
    if WasAccepted(pc') && !WasAccepted(pc) then
      && MaySend(pc) && pc'.pkt == pc.pkt && pc'.outcome.index == |c.accepted| && !c.outClosed && !WasDropped(pc)
      && c'.accepted == c.accepted + [pc.pkt] && c'.out == c.out + [pc.pkt] && |c.out| < QUEUE_LENGTH && c'.dropped == c.dropped
    else
      && c'.accepted == c.accepted && c'.out == c.out && WasAccepted(pc') == WasAccepted(pc)
      && (WasAccepted(pc) ==> pc'.pkt == pc.pkt && pc'.outcome == pc.outcome)
      && c'.dropped == c.dropped + (if WasDropped(pc') then 1 else 0) - (if WasDropped(pc) then 1 else 0)
  }

  lemma StepQueues(pc: Pc, c: Client, t: nat, viaDone: bool)
    requires CanStep(pc, c, viaDone) && !Panics(pc, c, viaDone)
    ensures QueueEffect(pc, NextPc(pc, c, viaDone), c, NextClient(pc, c, t, viaDone))
  {
  }

  /** A thread reaches an outcome only for its reason. */
  lemma StepDecides(pc: Pc, c: Client, t: nat, viaDone: bool)
    requires CanStep(pc, c, viaDone) && !Panics(pc, c, viaDone) && |c.out| <= QUEUE_LENGTH && (c.closed ==> c.doneClosed)
    requires OutcomeInv(pc, c.accepted, c.doneClosed)
    ensures var c' := NextClient(pc, c, t, viaDone); OutcomeInv(NextPc(pc, c, viaDone), c'.accepted, c'.doneClosed)
  {
  }

  /** A closed channel is never sent on and no channel is closed twice. */
  lemma StepIsSafe(s: State, t: nat, viaDone: bool)
    requires t < |s.threads| && OnceInv(s.threads, s.c.once) && FlagInv(s) && CanStep(s.threads[t], s.c, viaDone)
    ensures !Panics(s.threads[t], s.c, viaDone)
  {
  }

  // ------------------------------------------------------------------ every move keeps the invariants

  lemma Arriving(pc: Pc)
    requires pc.Entering? || pc.Calling?
    ensures !InLock(pc) && !InOnce(pc) && !MaySend(pc) && !WasAccepted(pc) && !WasDropped(pc)
  {
  }

  lemma LockKept(s: State, m: Move)
    requires LockInv(s.threads, s.c.outMu) && Enabled(s, m) && (m.Step? ==> !Panics(s.threads[m.t], s.c, m.viaDone))
    ensures LockInv(Fire(s, m).threads, Fire(s, m).c.outMu)
  {
    hide NextPc, NextClient, Panics, CanStep, InLock;
    match m
    case Enqueue(pkt) => Arriving(Entering(pkt));
    case Close => Arriving(Calling);
    case Step(t, viaDone) => StepLocks(s.threads[t], s.c, t, viaDone);
    case _ =>
  }

  lemma OnceKept(s: State, m: Move)
    requires OnceInv(s.threads, s.c.once) && Enabled(s, m) && (m.Step? ==> !Panics(s.threads[m.t], s.c, m.viaDone))
    ensures OnceInv(Fire(s, m).threads, Fire(s, m).c.once)
  {
    hide NextPc, NextClient, Panics, CanStep, InOnce;
    match m
    case Enqueue(pkt) => Arriving(Entering(pkt));
    case Close => Arriving(Calling);
    case Step(t, viaDone) => StepOnces(s.threads[t], s.c, t, viaDone);
    case _ =>
  }

  lemma SendersLock(pc: Pc)
    ensures MaySend(pc) ==> InLock(pc)
  {
  }

  lemma FlagKept(s: State, m: Move)
    requires LockInv(s.threads, s.c.outMu) && OnceInv(s.threads, s.c.once) && FlagInv(s) && Enabled(s, m)
    requires m.Step? ==> !Panics(s.threads[m.t], s.c, m.viaDone)
    ensures FlagInv(Fire(s, m))
  {
    hide NextPc, NextClient, Panics, CanStep, InOnce, InLock, MaySend, Stage;
    var s' := Fire(s, m);
    match m
    case Enqueue(pkt) => Arriving(Entering(pkt));
    case Close => Arriving(Calling);
    case Step(t, viaDone) =>
      StepOnces(s.threads[t], s.c, t, viaDone);
      StepFlags(s.threads[t], s.c, t, viaDone);
      forall u | 0 <= u < |s'.threads| && MaySend(s'.threads[u]) ensures !s'.c.closed {
        if u != t {
          SendersLock(s.threads[u]);
          assert InLock(s.threads[u]) && !InLock(s.threads[t]);
        }
      }
    case _ =>
  }

  lemma QueueKept(s: State, m: Move)
    requires QueueInv(s) && Enabled(s, m) && (m.Step? ==> !Panics(s.threads[m.t], s.c, m.viaDone))
    ensures QueueInv(Fire(s, m))
  {
    hide NextPc, NextClient, Panics, CanStep, Sends;
    var s' := Fire(s, m);
    match m
    case Take => assert s.c.out == [s.c.out[0]] + s.c.out[1..];
    case Step(t, viaDone) =>
      StepQueues(s.threads[t], s.c, t, viaDone);
      StepFlags(s.threads[t], s.c, t, viaDone);
      assert s'.c.accepted == s.emitted + InHand(s.writer) + s'.c.out;
    case _ =>
  }

  lemma ThreadKept(s: State, m: Move)
    requires ThreadInv(s) && Enabled(s, m) && |s.c.out| <= QUEUE_LENGTH && (s.c.closed ==> s.c.doneClosed)
    requires m.Step? ==> !Panics(s.threads[m.t], s.c, m.viaDone)
    ensures ThreadInv(Fire(s, m))
  {
    hide NextPc, NextClient, Panics, CanStep, Sends;
    match m
    case Step(t, viaDone) =>
      StepQueues(s.threads[t], s.c, t, viaDone);
      StepDecides(s.threads[t], s.c, t, viaDone);
      StepFlags(s.threads[t], s.c, t, viaDone);
    case _ =>
  }

  lemma TotalAppend(measure: Measure, threads: seq<Pc>, pc: Pc)
    ensures Total(measure, threads + [pc]) == Total(measure, threads) + Weight(measure, pc)
  {
    assert (threads + [pc])[..|threads|] == threads;
  }

  lemma {:induction false} TotalUpdate(measure: Measure, threads: seq<Pc>, t: nat, pc: Pc)
    requires t < |threads|
    ensures Total(measure, threads[t := pc]) + Weight(measure, threads[t]) == Total(measure, threads) + Weight(measure, pc)
  {
    hide Weight;
    var n, after := |threads| - 1, threads[t := pc];
    if t == n {
      assert after[..n] == threads[..n];
    } else {
      assert after[..n] == threads[..n][t := pc];
      TotalUpdate(measure, threads[..n], t, pc);
    }
  }

  lemma CountKept(s: State, m: Move)
    requires CountInv(s) && Enabled(s, m) && (m.Step? ==> !Panics(s.threads[m.t], s.c, m.viaDone))
    ensures CountInv(Fire(s, m))
  {
    hide NextPc, NextClient, Panics, CanStep, Sends, Total, MaySend, WasAccepted, WasDropped;
    match m
    case Enqueue(pkt) =>
      Arriving(Entering(pkt));
      TotalAppend(Acceptances, s.threads, Entering(pkt));
      TotalAppend(Drops, s.threads, Entering(pkt));
    case Close =>
      Arriving(Calling);
      TotalAppend(Acceptances, s.threads, Calling);
      TotalAppend(Drops, s.threads, Calling);
    case Step(t, viaDone) =>
      var pc' := NextPc(s.threads[t], s.c, viaDone);
      StepQueues(s.threads[t], s.c, t, viaDone);
      NotBoth(s.threads[t]);
      NotBoth(pc');
      TotalUpdate(Acceptances, s.threads, t, pc');
      TotalUpdate(Drops, s.threads, t, pc');
    case _ =>
  }

  lemma NotBoth(pc: Pc)
    ensures !(WasAccepted(pc) && WasDropped(pc))
  {
  }

  lemma InvKept(s: State, m: Move)
    requires Inv(s) && Enabled(s, m)
    ensures Inv(Fire(s, m))
  {
    hide LockInv, OnceInv, QueueInv, ThreadInv, CountInv, NextPc, CanStep, Sends, FlagInv;
    if m.Step? {
      StepIsSafe(s, m.t, m.viaDone);
      NoPanic(s.threads[m.t], s.c, m.t, m.viaDone);
    }
    hide NextClient;
    LockKept(s, m);
    OnceKept(s, m);
    FlagKept(s, m);
    QueueKept(s, m);
    Facts(s);
    ThreadKept(s, m);
    CountKept(s, m);
  }

  lemma NoPanic(pc: Pc, c: Client, t: nat, viaDone: bool)
    requires !Panics(pc, c, viaDone) && !c.panicked
    ensures !NextClient(pc, c, t, viaDone).panicked
  {
  }

  lemma Facts(s: State)
    requires QueueInv(s) && FlagInv(s)
    ensures |s.c.out| <= QUEUE_LENGTH && (s.c.closed ==> s.c.doneClosed)
  {
  }

  lemma {:induction false} RunKeepsInv(s: State, moves: seq<Move>, s': State)
    requires Inv(s) && Run(s, moves, s')
    ensures Inv(s')
    decreases |moves|
  {
    hide Inv, Fire, Enabled;
    if |moves| > 0 {
      InvKept(s, moves[0]);
      RunKeepsInv(Fire(s, moves[0]), moves[1..], s');
    }
  }

  // ------------------------------------------------------------------ safety of every run

  /** In every interleaving: no panic; the writer has emitted, in order, a prefix of what was
      accepted; the queue never overflows; every acceptance is one packet of one sender, and
      every drop is counted. */
  lemma EveryRunIsSafe(moves: seq<Move>, s: State)
    requires Run(Initial(), moves, s)
    ensures !s.c.panicked && s.emitted <= s.c.accepted && |s.c.out| <= 256
    ensures s.writer == Exited ==> s.emitted == s.c.accepted
    ensures |s.c.accepted| == Total(Acceptances, s.threads) && s.c.dropped == Total(Drops, s.threads)
    ensures forall t :: 0 <= t < |s.threads| && WasAccepted(s.threads[t]) ==>
      var at := s.threads[t].outcome.index; at < |s.c.accepted| && s.c.accepted[at] == s.threads[t].pkt
    ensures forall t, u :: 0 <= t < u < |s.threads| && WasAccepted(s.threads[t]) && WasAccepted(s.threads[u]) ==>
      s.threads[t].outcome.index != s.threads[u].outcome.index
    ensures forall t :: 0 <= t < |s.threads| && s.threads[t].Returned? ==> s.c.doneClosed && s.c.outClosed && s.c.connClosed
  {
    hide LockInv, OnceInv, FlagInv, CountInv, Run;
    StartsSafe();
    RunKeepsInv(Initial(), moves, s);
    CountsAre(s);
    ReturnedIsClosed(s);
  }

  lemma ReturnedIsClosed(s: State)
    requires OnceInv(s.threads, s.c.once) && FlagInv(s)
    ensures forall t :: 0 <= t < |s.threads| && s.threads[t].Returned? ==> s.c.doneClosed && s.c.outClosed && s.c.connClosed
  {
  }

  lemma CountsAre(s: State)
    requires CountInv(s)
    ensures |s.c.accepted| == Total(Acceptances, s.threads) && s.c.dropped == Total(Drops, s.threads)
  {
  }

  lemma StartsSafe()
    ensures Inv(Initial())
  {
  }

  /** Control packets are never dropped: one that was handled before the client began to close
      was accepted. DATA is dropped only with a full queue. */
  lemma EveryOutcomeHasItsReason(moves: seq<Move>, s: State, t: nat)
    requires Run(Initial(), moves, s) && t < |s.threads| && s.threads[t].Sent?
    ensures s.threads[t].outcome.Dropped? ==> s.threads[t].pkt[5] == 5 && s.threads[t].outcome.queued == 256
    ensures s.threads[t].pkt[5] != 5 && !s.c.doneClosed ==> s.threads[t].outcome.Accepted?
    ensures s.threads[t].pkt[5] == 5 ==> !s.threads[t].outcome.Abandoned?
  {
    hide LockInv, OnceInv, FlagInv, CountInv, QueueInv, Run;
    StartsSafe();
    RunKeepsInv(Initial(), moves, s);
    assert OutcomeInv(s.threads[t], s.c.accepted, s.c.doneClosed);
  }

  /** From any state on: what was accepted or emitted stays, and once the client is marked
      closed nothing more is accepted. */
  lemma {:induction false} HistoryOnlyGrows(s: State, moves: seq<Move>, s': State)
    requires Inv(s) && Run(s, moves, s')
    ensures s.c.accepted <= s'.c.accepted && s.emitted <= s'.emitted
    ensures s.c.closed ==> s'.c.closed && s'.c.accepted == s.c.accepted
    decreases |moves|
  {
    hide Inv, Fire, Enabled;
    if |moves| > 0 {
      InvKept(s, moves[0]);
      MoveGrows(s, moves[0]);
      HistoryOnlyGrows(Fire(s, moves[0]), moves[1..], s');
    }
  }

  lemma MoveGrows(s: State, m: Move)
    requires Inv(s) && Enabled(s, m)
    ensures var s' := Fire(s, m); s.c.accepted <= s'.c.accepted && s.emitted <= s'.emitted
    ensures var s' := Fire(s, m); s.c.closed ==> s'.c.closed && s'.c.accepted == s.c.accepted
  {
    hide LockInv, OnceInv, QueueInv, ThreadInv, CountInv, NextPc, NextClient, CanStep, Sends, Panics;
    if m.Step? {
      StepIsSafe(s, m.t, m.viaDone);
      StepQueues(s.threads[m.t], s.c, m.t, m.viaDone);
      StepFlags(s.threads[m.t], s.c, m.t, m.viaDone);
    }
  }

  // ------------------------------------------------------------------ progress

  ghost predicate SomeStep(s: State) {
    exists t, viaDone :: 0 <= t < |s.threads| && Enabled(s, Step(t, viaDone))
  }

  predicate Done(pc: Pc) { pc.Sent? || pc.Returned? }

  predicate Closer(pc: Pc) { InOnce(pc) || pc.Calling? || pc.Returned? }

  /** The holder of the lock is stuck exactly when it waits, before closing, on a full queue. */
  lemma HolderIsStuckIff(s: State, h: nat)
    requires Inv(s) && s.c.outMu == Held(h)
    ensures h < |s.threads|
    ensures (exists viaDone :: Enabled(s, Step(h, viaDone))) <==>
      !(s.threads[h].Waiting? && |s.c.out| == 256 && !s.c.doneClosed)
  {
    hide OnceInv, ThreadInv, CountInv, FlagInv;
    assert InLock(s.threads[h]);
    if s.threads[h].Waiting? {
      WaiterFacts(s, h);
      if s.c.doneClosed {
        assert Enabled(s, Step(h, true));
      } else if |s.c.out| < QUEUE_LENGTH {
        assert Enabled(s, Step(h, false));
      }
    } else {
      assert Enabled(s, Step(h, true));
    }
  }

  lemma WaiterFacts(s: State, h: nat)
    requires FlagInv(s) && h < |s.threads| && s.threads[h].Waiting?
    ensures !s.c.outClosed && !s.c.closed
  {
  }

  /** With a closeClient call about, a call that has not returned means that someone can act. */
  lemma DoneOrSomeStep(s: State, k: nat, t: nat)
    requires Inv(s) && k < |s.threads| && Closer(s.threads[k]) && t < |s.threads|
    ensures Done(s.threads[t]) || SomeStep(s)
  {
    hide QueueInv, ThreadInv, CountInv;
    if !Done(s.threads[t]) {
      if s.c.outMu.Held? {
        HolderIsStuckIff(s, s.c.outMu.owner);
        if s.threads[s.c.outMu.owner].Waiting? && !s.c.doneClosed {
          CloserCanBegin(s, k);
        }
      } else if s.c.once.Running? {
        assert Enabled(s, Step(s.c.once.caller, true));
      } else {
        assert Enabled(s, Step(t, true));
      }
    }
  }

  lemma CloserCanBegin(s: State, k: nat)
    requires Inv(s) && k < |s.threads| && Closer(s.threads[k]) && !s.c.doneClosed
    ensures SomeStep(s)
  {
    hide QueueInv, ThreadInv, CountInv, LockInv;
    var first := if s.c.once == Fresh then k else s.c.once.caller;
    assert Enabled(s, Step(first, true));
  }

  /** A state where no goroutine can act is then one where all calls have returned: none is stuck
      behind a lock, a full queue or another closer. */
  lemma QuietMeansDone(s: State, k: nat)
    requires Inv(s) && k < |s.threads| && Closer(s.threads[k]) && !SomeStep(s)
    ensures forall t :: 0 <= t < |s.threads| ==> Done(s.threads[t])
    ensures s.c.doneClosed && s.c.outClosed && s.c.connClosed
  {
    hide LockInv, OnceInv, QueueInv, ThreadInv, CountInv, SomeStep, FlagInv;
    forall t | 0 <= t < |s.threads| ensures Done(s.threads[t]) {
      DoneOrSomeStep(s, k, t);
    }
    ReturnedIsClosed(s);
  }

  /** Steps cannot go on for ever: each uses up some of the work that is left, and only new calls add any. */
  lemma {:induction false} StepsAreBounded(s: State, moves: seq<Move>, s': State)
    requires Inv(s) && Run(s, moves, s')
    ensures Steps(moves) + Total(Work, s'.threads) <= Total(Work, s.threads) + 8 * Arrivals(moves)
    decreases |moves|
  {
    hide Inv, Fire, Enabled, Total;
    if |moves| > 0 {
      InvKept(s, moves[0]);
      MoveWorks(s, moves[0]);
      StepsAreBounded(Fire(s, moves[0]), moves[1..], s');
    }
  }

  function Steps(moves: seq<Move>): nat {
    if |moves| == 0 then 0 else (if moves[0].Step? then 1 else 0) + Steps(moves[1..])
  }

  function Arrivals(moves: seq<Move>): nat {
    if |moves| == 0 then 0 else (if moves[0].Enqueue? || moves[0].Close? then 1 else 0) + Arrivals(moves[1..])
  }

  lemma MoveWorks(s: State, m: Move)
    requires Inv(s) && Enabled(s, m)
    ensures Total(Work, Fire(s, m).threads) + (if m.Step? then 1 else 0) <=
      Total(Work, s.threads) + if m.Enqueue? || m.Close? then 8 else 0
  {
    hide LockInv, QueueInv, ThreadInv, CountInv, NextPc, NextClient, CanStep, Sends, Panics, Total;
    match m
    case Enqueue(pkt) => TotalAppend(Work, s.threads, Entering(pkt));
    case Close => TotalAppend(Work, s.threads, Calling);
    case Step(t, viaDone) =>
      StepIsSafe(s, t, viaDone);
      StepWorks(s.threads[t], s.c, viaDone);
      TotalUpdate(Work, s.threads, t, NextPc(s.threads[t], s.c, viaDone));
    case _ =>
  }

  lemma StepWorks(pc: Pc, c: Client, viaDone: bool)
    requires CanStep(pc, c, viaDone) && !Panics(pc, c, viaDone)
    ensures Weight(Work, NextPc(pc, c, viaDone)) < Weight(Work, pc)
  {
  }

  /** So closeClient completes: from every state in which it was called, some run of goroutine
      actions alone brings every call to its end. */
  lemma {:induction false} ClosingCompletes(s: State, k: nat) returns (moves: seq<Move>, s': State)
    requires Inv(s) && k < |s.threads| && Closer(s.threads[k])
    ensures Run(s, moves, s') && |moves| <= Total(Work, s.threads) && |s'.threads| == |s.threads|
    ensures forall i :: 0 <= i < |moves| ==> moves[i].Step?
    ensures forall t :: 0 <= t < |s'.threads| ==> Done(s'.threads[t])
    ensures s'.c.doneClosed && s'.c.outClosed && s'.c.connClosed
    decreases Total(Work, s.threads)
  {
    hide Inv, Total, Closer, Enabled, CanStep, NextPc, NextClient, Done;
    if SomeStep(s) {
      var t, viaDone :| 0 <= t < |s.threads| && Enabled(s, Step(t, viaDone));
      var m := Step(t, viaDone);
      InvKept(s, m);
      MoveWorks(s, m);
      CloserStays(s, t, viaDone, k);
      StepKeepsThreads(s, m);
      hide Fire;
      var rest;
      rest, s' := ClosingCompletes(Fire(s, m), k);
      moves := [m] + rest;
      assert moves[1..] == rest;
    } else {
      QuietMeansDone(s, k);
      moves, s' := [], s;
    }
  }

  lemma StepKeepsThreads(s: State, m: Move)
    requires Enabled(s, m) && m.Step?
    ensures |Fire(s, m).threads| == |s.threads|
  {
  }

  lemma CloserStays(s: State, t: nat, viaDone: bool, k: nat)
    requires Enabled(s, Step(t, viaDone)) && k < |s.threads| && Closer(s.threads[k])
    ensures Closer(Fire(s, Step(t, viaDone)).threads[k])
  {
    hide NextClient;
  }
}
