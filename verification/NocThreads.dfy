// projects/noc_test/linux/hwSwIf/reconosNoC.c: the three threads of the SW -> HW interface. They agree
// through three flags, under two mutexes, on who still has to pass the write pointer to the hardware.
module NocThreads {

  datatype Owner = Free | Processing | Timer | Exchange

  /** packetProcessingThread: the statement it executes next. */
  datatype Proc =
    | PWait            // sem_wait for a packet
    | PLockTimer | PLockPointers
    | PCheck           // enough space?
    | PSpaceWait(woken: bool)  // cond_wait(offsetUpdateCond, pointersMutex); the timer mutex stays locked
    | PWrite
    | PDecide          // latencyCritical || almost full?
    | PTestRunning | PStopTimer | PClearStart | PSetDirty   // urgent
    | PTestIdle | PSetStart                                 // not urgent
    | PUnlockPointers | PUnlockTimer

  /** timerThread */
  datatype Tim =
    | TLock
    | TCheckStart
    | TStartWait(woken: bool)  // cond_wait(startTimerCond, timerMutex)
    | TClearStart | TSetRunning
    | TTimedWait(woken: bool)  // cond_timedwait(abortTimerCond, timerMutex)
    | TTestRunning | TLockPointers | TSetDirty | TUnlockPointers | TClearRunning

  /** pointerExchangeThread */
  datatype Exch =
    | ELock
    | ETestDirty
    | EDirtyWait(woken: bool)  // cond_wait(exchangePointersCond, pointersMutex), once
    | EClearDirty | EFetch | EUnlock
    | EHardware                // mbox_put and mbox_get
    | ERelock(offset: nat) | EStore(offset: nat)

  datatype State = State(
    writeOffset: nat, hwWriteOffset: nat, readOffset: nat,
    dirty: bool, startTimer: bool, timerRunning: bool,
    timerMutex: Owner, pointersMutex: Owner,
    proc: Proc, tim: Tim, exch: Exch)

  /** A zeroed interface whose threads have just been created. */
  predicate Init(s: State) {
    && s.writeOffset == s.hwWriteOffset == s.readOffset == 0 && !s.dirty && !s.startTimer && !s.timerRunning
    && s.timerMutex == s.pointersMutex == Free
    && s.proc == PWait && s.tim == TLock && s.exch == ELock
  }

  /** One statement of one thread. The outcomes of tests on packets, the offset after a write, and the
      hardware's answer are arbitrary parameters; waits can end without a signal. */
  datatype Action =
    | Process
    | FitsNot                     // PCheck fails
    | WriteTo(offset: nat)        // PWrite
    | Urgent                      // PDecide succeeds
    | TimerStep | Expire
    | ExchangeStep | Answer(offset: nat)
    | Spurious(thread: Owner)     // a condition wait ends without a signal

  predicate Can(s: State, a: Action) {
    match a
    case Process =>
      (match s.proc
       case PLockTimer => s.timerMutex == Free
       case PLockPointers => s.pointersMutex == Free
       case PSpaceWait(woken) => woken && s.pointersMutex == Free
       case PWrite => false
       case _ => true)
    case FitsNot => s.proc == PCheck
    case WriteTo(_) => s.proc == PWrite
    case Urgent => s.proc == PDecide
    case TimerStep =>
      (match s.tim
       case TLock => s.timerMutex == Free
       case TStartWait(woken) => woken && s.timerMutex == Free
       case TTimedWait(woken) => woken && s.timerMutex == Free
       case TLockPointers => s.pointersMutex == Free
       case _ => true)
    case Expire => s.tim == TTimedWait(false)
    case ExchangeStep =>
      (match s.exch
       case ELock => s.pointersMutex == Free
       case EDirtyWait(woken) => woken && s.pointersMutex == Free
       case EHardware => false
       case ERelock(_) => s.pointersMutex == Free
       case _ => true)
    case Answer(_) => s.exch == EHardware
    case Spurious(t) => (t == Processing && s.proc == PSpaceWait(false)) || (t == Timer && s.tim == TStartWait(false))
                        || (t == Exchange && s.exch == EDirtyWait(false))
  }

  /** pthread_cond_signal wakes the thread if it is waiting there. */
  function SignalSpace(p: Proc): Proc { if p.PSpaceWait? then PSpaceWait(true) else p }
  function SignalStart(t: Tim): Tim { if t.TStartWait? then TStartWait(true) else t }
  function SignalAbort(t: Tim): Tim { if t.TTimedWait? then TTimedWait(true) else t }
  function SignalExchange(e: Exch): Exch { if e.EDirtyWait? then EDirtyWait(true) else e }

  function ProcStep(s: State): State
    requires Can(s, Process)
  {
    match s.proc
    case PWait => s.(proc := PLockTimer)
    case PLockTimer => s.(timerMutex := Processing, proc := PLockPointers)
    case PLockPointers => s.(pointersMutex := Processing, proc := PCheck)
    case PCheck => s.(proc := PWrite)
    case PSpaceWait(_) => s.(pointersMutex := Processing, proc := PWrite)
    case PWrite => s
    case PDecide => s.(proc := PTestIdle)
    case PTestRunning => s.(proc := if s.timerRunning then PStopTimer else PClearStart)
    case PStopTimer => s.(timerRunning := false, tim := SignalAbort(s.tim), proc := PClearStart)
    case PClearStart => s.(startTimer := false, proc := PSetDirty)
    case PSetDirty => s.(dirty := true, exch := SignalExchange(s.exch), proc := PUnlockPointers)
    case PTestIdle => s.(proc := if s.timerRunning then PUnlockPointers else PSetStart)
    case PSetStart => s.(startTimer := true, tim := SignalStart(s.tim), proc := PUnlockPointers)
    case PUnlockPointers => s.(pointersMutex := Free, proc := PUnlockTimer)
    case PUnlockTimer => s.(timerMutex := Free, proc := PWait)
  }

  function TimStep(s: State): State
    requires Can(s, TimerStep)
  {
    match s.tim
    case TLock => s.(timerMutex := Timer, tim := TCheckStart)
    case TCheckStart => if s.startTimer then s.(tim := TClearStart) else s.(timerMutex := Free, tim := TStartWait(false))
    case TStartWait(_) => s.(timerMutex := Timer, tim := TCheckStart)
    case TClearStart => s.(startTimer := false, tim := TSetRunning)
    case TSetRunning => s.(timerRunning := true, timerMutex := Free, tim := TTimedWait(false))
    case TTimedWait(_) => s.(timerMutex := Timer, tim := TTestRunning)
    case TTestRunning => s.(tim := if s.timerRunning then TLockPointers else TClearRunning)
    case TLockPointers => s.(pointersMutex := Timer, tim := TSetDirty)
    case TSetDirty => s.(dirty := true, exch := SignalExchange(s.exch), tim := TUnlockPointers)
    case TUnlockPointers => s.(pointersMutex := Free, tim := TClearRunning)
    case TClearRunning => s.(timerRunning := false, tim := TCheckStart)
  }

  function ExchStep(s: State): State
    requires Can(s, ExchangeStep)
  {
    match s.exch
    case ELock => s.(pointersMutex := Exchange, exch := ETestDirty)
    case ETestDirty => if s.dirty then s.(exch := EClearDirty) else s.(pointersMutex := Free, exch := EDirtyWait(false))
    case EDirtyWait(_) => s.(pointersMutex := Exchange, exch := EClearDirty)
    case EClearDirty => s.(dirty := false, exch := EFetch)
    case EFetch => s.(hwWriteOffset := s.writeOffset / 4, exch := EUnlock)
    case EUnlock => s.(pointersMutex := Free, exch := EHardware)
    case EHardware => s
    case ERelock(r) => s.(pointersMutex := Exchange, exch := EStore(r))
    case EStore(r) => s.(readOffset := r, proc := SignalSpace(s.proc), exch := ETestDirty)
  }

  function Do(s: State, a: Action): State
    requires Can(s, a)
  {
    match a
    case Process => ProcStep(s)
    case FitsNot => s.(pointersMutex := Free, proc := PSpaceWait(false))
    case WriteTo(offset) => s.(writeOffset := offset, proc := PDecide)
    case Urgent => s.(proc := PTestRunning)
    case TimerStep => TimStep(s)
    case Expire => s.(tim := TTimedWait(true))
    case ExchangeStep => ExchStep(s)
    case Answer(r) => s.(exch := ERelock(r))
    case Spurious(t) => if t == Processing then s.(proc := PSpaceWait(true))
                        else if t == Timer then s.(tim := TStartWait(true)) else s.(exch := EDirtyWait(true))
  }

  // ---- The invariant ----

  predicate HoldsTimer(p: Proc) { !p.PWait? && !p.PLockTimer? }

  predicate HoldsPointers(p: Proc) { HoldsTimer(p) && !p.PLockPointers? && !p.PSpaceWait? && !p.PUnlockTimer? }

  predicate TimHoldsTimer(t: Tim) { !t.TLock? && !t.TStartWait? && !t.TTimedWait? }

  predicate ExchHoldsPointers(e: Exch) { e.ETestDirty? || e.EClearDirty? || e.EFetch? || e.EUnlock? || e.EStore? }

  /** Each mutex is held by the one thread that stands between its lock and its unlock. */
  predicate Owners(s: State) {
    && (s.timerMutex == Processing <==> HoldsTimer(s.proc))
    && (s.timerMutex == Timer <==> TimHoldsTimer(s.tim))
    && s.timerMutex != Exchange
    && (s.pointersMutex == Processing <==> HoldsPointers(s.proc))
    && (s.pointersMutex == Timer <==> s.tim.TSetDirty? || s.tim.TUnlockPointers?)
    && (s.pointersMutex == Exchange <==> ExchHoldsPointers(s.exch))
  }

  /** The hardware has the current write pointer, or the exchange is asked for now. */
  predicate Asked(s: State) { s.writeOffset / 4 == s.hwWriteOffset || s.dirty || s.startTimer }

  /** ... or will be asked for when the timer expires. */
  predicate Remembered(s: State) { Asked(s) || s.timerRunning }

  /** A thread that holds a mutex has moved a pointer or a flag and not yet set the next flag. */
  predicate InTransit(s: State) {
    || s.proc.PDecide? || s.proc.PTestRunning? || s.proc.PStopTimer? || s.proc.PClearStart? || s.proc.PSetDirty?
    || s.proc.PTestIdle? || s.proc.PSetStart?
    || s.tim.TSetRunning?
    || s.exch.EFetch?
  }

  /** A pending write pointer has left a trace. */
  predicate Traced(s: State) {
    InTransit(s) || (Remembered(s) && (s.tim.TUnlockPointers? || s.tim.TClearRunning? ==> Asked(s)))
  }

  /** A flag that is set has reached the thread that acts on it. At most one of the timer flags is set; an urgent packet
      has stopped the timer before it asks for the exchange. */
  predicate Heard(s: State) {
    && (s.exch == EDirtyWait(false) ==> !s.dirty)
    && (s.tim == TStartWait(false) ==> !s.startTimer)
    && (s.tim == TTimedWait(false) ==> s.timerRunning)
    && (s.tim.TLock? || s.tim.TCheckStart? || s.tim.TStartWait? || s.tim.TClearStart? || s.tim.TSetRunning? ==> !s.timerRunning)
    && (s.tim.TSetRunning? ==> !s.startTimer)
    && (s.proc.PSetStart? || s.proc.PClearStart? || s.proc.PSetDirty? ==> !s.timerRunning)
    && (s.proc.PSetDirty? ==> !s.startTimer)
    && !(s.startTimer && s.timerRunning)
  }

  predicate Inv(s: State) { Owners(s) && Traced(s) && Heard(s) }

  lemma ProcKeepsOwners(s: State)
    requires Owners(s) && Can(s, Process)
    ensures Owners(ProcStep(s))
  {
  }

  lemma ProcKeepsInv(s: State)
    requires Inv(s) && Can(s, Process)
    ensures Inv(ProcStep(s))
  {
    hide ProcStep, Owners, Traced, Heard;
    ProcKeepsOwners(s);
    ProcKeepsTraced(s);
    ProcKeepsHeard(s);
  }

  lemma ProcKeepsHeard(s: State)
    requires Owners(s) && Heard(s) && Can(s, Process)
    ensures Heard(ProcStep(s))
  {
  }

  lemma ProcKeepsTraced(s: State)
    requires Owners(s) && Traced(s) && Can(s, Process)
    ensures Traced(ProcStep(s))
  {
  }

  lemma TimKeepsInv(s: State)
    requires Inv(s) && Can(s, TimerStep)
    ensures Inv(TimStep(s))
  {
    hide Heard;
    TimKeepsHeard(s);
  }

  lemma TimKeepsHeard(s: State)
    requires Owners(s) && Heard(s) && Can(s, TimerStep)
    ensures Heard(TimStep(s))
  {
  }

  lemma ExchKeepsInv(s: State)
    requires Inv(s) && Can(s, ExchangeStep)
    ensures Inv(ExchStep(s))
  {
    hide Heard;
    ExchKeepsHeard(s);
  }

  lemma ExchKeepsHeard(s: State)
    requires Owners(s) && Heard(s) && Can(s, ExchangeStep)
    ensures Heard(ExchStep(s))
  {
  }

  lemma StepKeepsInv(s: State, a: Action)
    requires Inv(s) && Can(s, a)
    ensures Inv(Do(s, a))
  {
    hide ProcStep, TimStep, ExchStep;
    match a {
      case Process => ProcKeepsInv(s);
      case TimerStep => TimKeepsInv(s);
      case ExchangeStep => ExchKeepsInv(s);
      case _ =>
    }
  }

  predicate Runs(s: State, run: seq<Action>)
    decreases |run|
  {
    run == [] || (Can(s, run[0]) && Runs(Do(s, run[0]), run[1..]))
  }

  function After(s: State, run: seq<Action>): State
    requires Runs(s, run)
    decreases |run|
  {
    if run == [] then s else After(Do(s, run[0]), run[1..])
  }

  lemma {:induction false} RunKeepsInv(s: State, run: seq<Action>)
    requires Inv(s) && Runs(s, run)
    ensures Inv(After(s, run))
    decreases |run|
  {
    if run != [] {
      StepKeepsInv(s, run[0]);
      RunKeepsInv(Do(s, run[0]), run[1..]);
    }
  }

  /** A pending write pointer is never forgotten: whenever both mutexes are free and the hardware does not
      have the current write pointer, one of the three flags is set, and the thread that acts on it is awake or has a
      timeout; in every interleaving, with aborted timers and spurious wake-ups. */
  lemma PendingPointerIsNeverForgotten(s: State, run: seq<Action>)
    requires Init(s) && Runs(s, run)
    ensures var e := After(s, run);
            e.timerMutex == Free && e.pointersMutex == Free && e.writeOffset / 4 != e.hwWriteOffset
            ==> || (e.dirty && e.exch != EDirtyWait(false))
                || (e.startTimer && e.tim != TStartWait(false))
                || (e.timerRunning && e.tim.TTimedWait?)
  {
    RunKeepsInv(s, run);
  }

  // ---- Without new packets the pointer gets to the hardware ----

  /** A packet arrives: sem_wait returns. */
  predicate Arrival(s: State, a: Action) { a == Process && s.proc == PWait }

  /** No packet arrives and no thread wakes up without a signal or a timeout. */
  predicate Undisturbed(s: State, run: seq<Action>)
    requires Runs(s, run)
    decreases |run|
  {
    run == [] || (!run[0].Spurious? && !Arrival(s, run[0]) && Undisturbed(Do(s, run[0]), run[1..]))
  }

  /** Only a new packet or a wake-up for no reason could let a thread go on. */
  ghost predicate AtRest(s: State) { forall a | Can(s, a) :: a.Spurious? || Arrival(s, a) }

  function ProcRank(p: Proc): nat {
    match p
    case PWait => 0 case PUnlockTimer => 1 case PUnlockPointers => 2
    case PSetDirty => 19 case PClearStart => 20 case PStopTimer => 21 case PTestRunning => 22
    case PSetStart => 33 case PTestIdle => 34
    case PDecide => 35 case PWrite => 36 case PSpaceWait(woken) => (if woken then 37 else 38) case PCheck => 39
    case PLockPointers => 40 case PLockTimer => 41
  }

  function TimRank(t: Tim): nat {
    match t
    case TStartWait(woken) => (if woken then 2 else 0) case TLock => 2 case TCheckStart => 1
    case TClearRunning => 2 case TUnlockPointers => 3 case TSetDirty => 20 case TLockPointers => 21 case TTestRunning => 22
    case TTimedWait(woken) => (if woken then 23 else 24) case TSetRunning => 25 case TClearStart => 26
  }

  function ExchRank(e: Exch): nat {
    match e
    case EDirtyWait(woken) => (if woken then 8 else 0) case ETestDirty => 1 case ELock => 2
    case EStore(_) => 2 case ERelock(_) => 3 case EHardware => 4 case EUnlock => 5 case EFetch => 6 case EClearDirty => 7
  }

  /** Statements that are left; a flag pays for what it makes its thread do. */
  function Rank(s: State): nat {
    ProcRank(s.proc) + TimRank(s.tim) + ExchRank(s.exch)
    + (if s.dirty && !s.exch.EClearDirty? then 7 else 0)
    + (if s.startTimer && !s.tim.TClearStart? then 27 else 0)
  }

  lemma StepLowersRank(s: State, a: Action)
    requires Inv(s) && Can(s, a) && !a.Spurious? && !Arrival(s, a)
    ensures Rank(Do(s, a)) < Rank(s)
  {
    hide Traced, Heard, ProcStep, TimStep, ExchStep;
    match a {
      case Process => ProcLowersRank(s);
      case TimerStep => TimLowersRank(s);
      case ExchangeStep => ExchLowersRank(s);
      case _ =>
    }
  }

  lemma ProcLowersRank(s: State)
    requires Owners(s) && Can(s, Process) && !s.proc.PWait?
    ensures Rank(ProcStep(s)) < Rank(s)
  {
    hide TimRank, ExchRank, SignalStart, SignalAbort, SignalExchange;
    SignalCosts(s.tim, s.exch);
  }

  lemma SignalCosts(t: Tim, e: Exch)
    ensures SignalStart(t).TClearStart? == SignalAbort(t).TClearStart? == t.TClearStart?
    ensures SignalExchange(e).EClearDirty? == e.EClearDirty?
    ensures TimRank(SignalStart(t)) <= TimRank(t) + 2 && TimRank(SignalAbort(t)) <= TimRank(t)
    ensures ExchRank(SignalExchange(e)) <= ExchRank(e) + 8
  {
  }

  lemma TimLowersRank(s: State)
    requires Owners(s) && Can(s, TimerStep)
    ensures Rank(TimStep(s)) < Rank(s)
  {
  }

  lemma ExchLowersRank(s: State)
    requires Owners(s) && Can(s, ExchangeStep)
    ensures Rank(ExchStep(s)) < Rank(s)
  {
  }

  lemma {:induction false} UndisturbedRunsEnd(s: State, run: seq<Action>)
    requires Inv(s) && Runs(s, run) && Undisturbed(s, run)
    ensures |run| <= Rank(s)
    decreases |run|
  {
    hide Inv, Do, Rank;
    if run != [] {
      StepKeepsInv(s, run[0]);
      StepLowersRank(s, run[0]);
      UndisturbedRunsEnd(Do(s, run[0]), run[1..]);
    }
  }

  /** Where the threads rest after the last packet. */
  lemma RestingPlaces(s: State)
    requires Inv(s) && s.proc == PWait && AtRest(s)
    ensures s.tim == TStartWait(false) && s.exch == EDirtyWait(false) && s.timerMutex == s.pointersMutex == Free
  {
    hide Traced, Heard;
    assert !Can(s, TimerStep) && !Can(s, Expire) && !Can(s, ExchangeStep) && !Can(s, Answer(0));
  }

  lemma NotAtRest(s: State, a: Action)
    requires Can(s, a) && !a.Spurious? && !Arrival(s, a)
    ensures !AtRest(s)
  {
  }

  /** Delivery: after every run, if no further packet arrives, the threads come to rest within a bounded number of
      statements; and when they rest with no packet in hand, the hardware has the current write pointer, no flag is set
      and no timer runs. With a packet in hand they rest in a deadlock alone. */
  lemma PointerIsDelivered(s0: State, run: seq<Action>, more: seq<Action>)
    requires Init(s0) && Runs(s0, run) && Runs(After(s0, run), more) && Undisturbed(After(s0, run), more)
    ensures |more| <= Rank(After(s0, run))
    ensures var e := After(After(s0, run), more);
            AtRest(e) && e.proc == PWait ==>
              && e.hwWriteOffset == e.writeOffset / 4 && !e.dirty && !e.startTimer && !e.timerRunning
              && e.exch == EDirtyWait(false) && e.tim == TStartWait(false)
    ensures var e := After(After(s0, run), more); AtRest(e) && e.proc != PWait ==> AllWait(e)
  {
    RunKeepsInv(s0, run);
    UndisturbedRunsEnd(After(s0, run), more);
    RunKeepsInv(After(s0, run), more);
    var e := After(After(s0, run), more);
    hide Runs, After, Undisturbed, AtRest, Rank;
    if AtRest(e) && e.proc == PWait {
      RestingPlaces(e);
    }
    if e.proc != PWait && !AllWait(e) {
      var a := SomebodyCanMove(e);
      assert !AtRest(e) by { NotAtRest(e, a); }
    }
  }

  /** An urgent packet stops the timer: as it asks for the exchange, no timer runs, none is about to start, and the timer
      thread is not left in its timed wait. */
  lemma UrgentStopsTheTimer(s0: State, run: seq<Action>)
    requires Init(s0) && Runs(s0, run) && After(s0, run).proc == PSetDirty
    ensures var e := After(s0, run); !e.timerRunning && !e.startTimer && e.tim != TTimedWait(false)
  {
    RunKeepsInv(s0, run);
  }

  // ---- What the flags do not give: the wait for space can block everybody ----

  /** No thread wakes up without a signal or a timeout. */
  predicate Signalled(run: seq<Action>) {
    forall i | 0 <= i < |run| :: !run[i].Spurious?
  }

  /** Only a wake-up without a signal could let any thread continue. */
  ghost predicate Deadlocked(s: State) {
    forall a | Can(s, a) :: a.Spurious?
  }

  lemma {:induction false} RunsAppend(s: State, run: seq<Action>, more: seq<Action>)
    requires Runs(s, run) && Runs(After(s, run), more)
    ensures Runs(s, run + more) && After(s, run + more) == After(After(s, run), more)
    decreases |run|
  {
    if run == [] {
      assert run + more == more;
    } else {
      assert (run + more)[1..] == run[1..] + more;
      RunsAppend(Do(s, run[0]), run[1..], more);
    }
  }

  lemma OneMore(s: State, run: seq<Action>, a: Action) returns (longer: seq<Action>)
    requires Runs(s, run) && Can(After(s, run), a)
    ensures Runs(s, longer) && After(s, longer) == Do(After(s, run), a)
    ensures Signalled(run) && !a.Spurious? ==> Signalled(longer)
  {
    var e := After(s, run);
    assert Runs(Do(e, a), []) && [a][1..] == [];
    assert Runs(e, [a]) && After(e, [a]) == Do(e, a);
    RunsAppend(s, run, [a]);
    longer := run + [a];
  }

  /** Exchange and timer thread go to their waits. */
  lemma OthersSettle(s: State) returns (run: seq<Action>)
    requires Init(s)
    ensures Signalled(run) && Runs(s, run) && After(s, run) == s.(exch := EDirtyWait(false), tim := TStartWait(false))
  {
    run := OneMore(s, [], ExchangeStep);
    run := OneMore(s, run, ExchangeStep);
    run := OneMore(s, run, TimerStep);
    run := OneMore(s, run, TimerStep);
  }

  /** A packet of 36 bytes is written. */
  lemma PacketWritten(s: State) returns (run: seq<Action>)
    requires s.proc == PWait && s.timerMutex == s.pointersMutex == Free
    ensures Signalled(run) && Runs(s, run)
    ensures After(s, run) == s.(writeOffset := 36, timerMutex := Processing, pointersMutex := Processing, proc := PDecide)
  {
    run := OneMore(s, [], Process);
    run := OneMore(s, run, Process);
    run := OneMore(s, run, Process);
    run := OneMore(s, run, Process);
    run := OneMore(s, run, WriteTo(36));
  }

  /** It is not urgent, so the processing thread starts the timer. */
  lemma TimerStarted(s: State) returns (run: seq<Action>)
    requires s.proc == PDecide && s.timerMutex == s.pointersMutex == Processing && !s.timerRunning && s.tim == TStartWait(false)
    ensures Signalled(run) && Runs(s, run)
    ensures After(s, run) == s.(timerMutex := Free, pointersMutex := Free, proc := PWait, startTimer := true, tim := TStartWait(true))
  {
    run := OneMore(s, [], Process);
    run := OneMore(s, run, Process);
    run := OneMore(s, run, Process);
    run := OneMore(s, run, Process);
    run := OneMore(s, run, Process);
  }

  /** The timer starts, then a packet arrives that does not fit, then the timer expires. */
  lemma SecondPacket(s: State) returns (run: seq<Action>)
    requires s.proc == PWait && s.timerMutex == s.pointersMutex == Free && s.startTimer && s.tim == TStartWait(true)
    ensures Signalled(run) && Runs(s, run)
    ensures After(s, run) == s.(startTimer := false, timerRunning := true, timerMutex := Processing,
                                proc := PSpaceWait(false), tim := TTimedWait(true))
  {
    run := OneMore(s, [], TimerStep);
    run := OneMore(s, run, TimerStep);
    run := OneMore(s, run, TimerStep);
    run := OneMore(s, run, TimerStep);
    run := OneMore(s, run, Process);
    run := OneMore(s, run, Process);
    run := OneMore(s, run, Process);
    run := OneMore(s, run, FitsNot);
    run := OneMore(s, run, Expire);
  }

  /** Because the timer mutex stays locked during the wait for space, the write pointer that would make
      room can stay unsent: a packet of 36 bytes that starts the timer, then one that does not fit.
      From then on no signal ever comes. */
  lemma WaitingForSpaceCanDeadlock(s: State)
    requires Init(s)
    ensures exists run :: && Runs(s, run) && Signalled(run)
                          && Deadlocked(After(s, run)) && After(s, run).proc == PSpaceWait(false)
                          && After(s, run).writeOffset / 4 != After(s, run).hwWriteOffset
  {
    hide Runs, After, ProcStep, TimStep, ExchStep;
    var r1 := OthersSettle(s);
    var s1 := After(s, r1);
    var r2 := PacketWritten(s1);
    var s2 := After(s1, r2);
    var r3 := TimerStarted(s2);
    var s3 := After(s2, r3);
    var r4 := SecondPacket(s3);
    RunsAppend(s2, r3, r4);
    RunsAppend(s1, r2, r3 + r4);
    RunsAppend(s, r1, r2 + (r3 + r4));
    var run := r1 + (r2 + (r3 + r4));
    assert Deadlocked(After(s, run));
  }

  // ---- When the wait for space ends, and which states are deadlocks ----

  predicate Waiting(s: State) { s.proc == PSpaceWait(false) }

  /** The exchange thread is on its way to the statement that signals new space. */
  predicate SignalComing(s: State) {
    || s.exch == EDirtyWait(true) || s.exch.EClearDirty? || s.exch.EFetch? || s.exch.EUnlock?
    || s.exch.EHardware? || s.exch.ERelock? || s.exch.EStore?
    || (s.dirty && (s.exch.ELock? || s.exch.ETestDirty?))
  }

  /** How many statements the other threads can execute before they wait or signal. */
  function WaitRank(s: State): nat {
    (match s.exch
     case ELock => 9 case ETestDirty => 8 case EDirtyWait(woken) => if woken then 8 else 0 case EClearDirty => 7
     case EFetch => 6 case EUnlock => 5 case EHardware => 4 case ERelock(_) => 3 case EStore(_) => 2)
    + (if s.tim == TTimedWait(false) then 1 else 0)
  }

  /** While the processing thread waits for space it keeps the timer mutex, so the timer thread can at most time
      out, and only the exchange thread runs. */
  lemma WaitStep(s: State, a: Action)
    requires Inv(s) && Waiting(s) && Can(s, a) && !a.Spurious?
    ensures var s' := Do(s, a);
            if Waiting(s') then SignalComing(s') == SignalComing(s) && WaitRank(s') < WaitRank(s)
            else s'.proc == PSpaceWait(true) && SignalComing(s)
  {
    hide ProcStep, Traced;
  }

  /** In some state of the run the processing thread has been woken. */
  predicate EverWoken(s: State, run: seq<Action>)
    requires Runs(s, run)
    decreases |run|
  {
    !Waiting(s) || (run != [] && EverWoken(Do(s, run[0]), run[1..]))
  }

  lemma {:induction false} UnwokenRun(s: State, run: seq<Action>)
    requires Inv(s) && Waiting(s) && Runs(s, run) && Signalled(run) && !EverWoken(s, run)
    ensures Inv(After(s, run)) && Waiting(After(s, run)) && SignalComing(After(s, run)) == SignalComing(s)
    ensures |run| <= WaitRank(s)
    decreases |run|
  {
    hide Inv, Do, WaitRank, SignalComing;
    if run != [] {
      StepKeepsInv(s, run[0]);
      WaitStep(s, run[0]);
      assert forall i | 0 <= i < |run[1..]| :: run[1..][i] == run[i + 1];
      UnwokenRun(Do(s, run[0]), run[1..]);
    }
  }

  lemma {:induction false} WokenMeansComing(s: State, run: seq<Action>)
    requires Inv(s) && Waiting(s) && Runs(s, run) && Signalled(run) && EverWoken(s, run)
    ensures SignalComing(s)
    decreases |run|
  {
    hide Inv, Do, WaitRank, SignalComing;
    StepKeepsInv(s, run[0]);
    WaitStep(s, run[0]);
    if Waiting(Do(s, run[0])) {
      assert forall i | 0 <= i < |run[1..]| :: run[1..][i] == run[i + 1];
      WokenMeansComing(Do(s, run[0]), run[1..]);
    }
  }

  /** A signal on its way is not held up: its next statement is enabled. */
  lemma SignalCanMove(s: State) returns (a: Action)
    requires Inv(s) && Waiting(s) && SignalComing(s)
    ensures Can(s, a) && !a.Spurious?
  {
    a := if s.exch.EHardware? then Answer(0) else ExchangeStep;
  }

  lemma {:induction false} ComingWakes(s: State) returns (run: seq<Action>)
    requires Inv(s) && Waiting(s) && SignalComing(s)
    ensures Runs(s, run) && Signalled(run) && EverWoken(s, run)
    decreases WaitRank(s)
  {
    hide Inv, Do, WaitRank, SignalComing, Can;
    var a := SignalCanMove(s);
    StepKeepsInv(s, a);
    WaitStep(s, a);
    var rest: seq<Action> := [];
    if Waiting(Do(s, a)) {
      rest := ComingWakes(Do(s, a));
    } else {
      assert Runs(Do(s, a), []) && EverWoken(Do(s, a), []);
    }
    run := [a] + rest;
    assert run[1..] == rest && run[0] == a;
  }

  /** The wait for space is answered exactly when a signal is on its way as it begins. Then no run gets stuck before
      the signal and every run reaches it after a bounded number of steps; otherwise no run ever does. */
  lemma WaitIsAnsweredIff(s: State)
    requires Inv(s) && Waiting(s)
    ensures SignalComing(s) <==> exists run :: Runs(s, run) && Signalled(run) && EverWoken(s, run)
    ensures forall run | Runs(s, run) && Signalled(run) && !EverWoken(s, run) ::
              |run| <= WaitRank(s) && (SignalComing(s) ==> !Deadlocked(After(s, run)))
  {
    hide Inv, Do, WaitRank, SignalComing, Can;
    if SignalComing(s) {
      var run := ComingWakes(s);
    }
    if run :| Runs(s, run) && Signalled(run) && EverWoken(s, run) {
      WokenMeansComing(s, run);
    }
    forall run | Runs(s, run) && Signalled(run) && !EverWoken(s, run)
      ensures |run| <= WaitRank(s) && (SignalComing(s) ==> !Deadlocked(After(s, run)))
    {
      UnwokenRun(s, run);
      if SignalComing(s) {
        var a := SignalCanMove(After(s, run));
      }
    }
  }

  /** What the exchange thread must be doing when the space check fails. */
  predicate Answering(s: State) {
    s.exch.EHardware? || s.exch.ERelock? || s.exch == EDirtyWait(true) || (s.exch.ELock? && s.dirty)
  }

  /** A failed space check in any state of any run is answered, without a wake-up for no reason, if and only if the
      exchange thread is already talking to the hardware or about to. */
  lemma FailedCheckIsAnsweredIff(s0: State, run: seq<Action>)
    requires Init(s0) && Runs(s0, run) && Can(After(s0, run), FitsNot)
    ensures var s := Do(After(s0, run), FitsNot);
            (exists more :: Runs(s, more) && Signalled(more) && EverWoken(s, more)) <==> Answering(After(s0, run))
  {
    RunKeepsInv(s0, run);
    StepKeepsInv(After(s0, run), FitsNot);
    WaitIsAnsweredIff(Do(After(s0, run), FitsNot));
    hide Runs, Signalled, EverWoken;
  }

  /** Everybody waits: for space, for a pointer to exchange, for the timer mutex. */
  predicate AllWait(s: State) {
    s.proc == PSpaceWait(false) && s.exch == EDirtyWait(false) && (s.tim.TLock? || s.tim.TStartWait? || s.tim == TTimedWait(true))
  }

  /** Outside that situation some thread can go on by itself. */
  lemma SomebodyCanMove(s: State) returns (a: Action)
    requires Inv(s) && !AllWait(s)
    ensures Can(s, a) && !a.Spurious?
  {
    hide Traced;
    if ExchHoldsPointers(s.exch) || (s.pointersMutex == Free && (s.exch.ELock? || s.exch == EDirtyWait(true) || s.exch.ERelock?)) {
      a := ExchangeStep;
    } else if s.exch.EHardware? {
      a := Answer(0);
    } else if s.pointersMutex == Processing {
      a := if s.proc.PWrite? then WriteTo(0) else Process;
    } else if s.pointersMutex == Timer || (s.proc.PLockTimer? && s.timerMutex == Timer) {
      a := TimerStep;
    } else if Waiting(s) {
      a := Expire;
    } else {
      a := Process;
    }
  }

  /** The deadlocks among all reachable states. */
  lemma ReachableDeadlocks(s0: State, run: seq<Action>)
    requires Init(s0) && Runs(s0, run)
    ensures Deadlocked(After(s0, run)) <==> AllWait(After(s0, run))
  {
    RunKeepsInv(s0, run);
    var s := After(s0, run);
    hide Runs, After, Traced;
    if !AllWait(s) {
      var a := SomebodyCanMove(s);
    }
  }

  // ---- The interface and its threads as they are written, each while the others do what they want ----

  /** Some run of the machine leads from s to e. */
  ghost predicate RunsTo(s: State, e: State) {
    exists run :: Runs(s, run) && After(s, run) == e
  }

  lemma RunsToSelf(s: State)
    ensures RunsTo(s, s)
  {
    assert Runs(s, []) && After(s, []) == s;
  }

  lemma RunsThrough(s: State, m: State, e: State)
    requires RunsTo(s, m) && RunsTo(m, e)
    ensures RunsTo(s, e)
  {
    var first :| Runs(s, first) && After(s, first) == m;
    var second :| Runs(m, second) && After(m, second) == e;
    RunsAppend(s, first, second);
  }

  /** On the way from s to e the processing thread executed the statement p. */
  ghost predicate Passes(s: State, e: State, p: Proc) {
    exists m :: RunsTo(s, m) && m.proc == p && RunsTo(m, e)
  }

  lemma PassesOn(s: State, e: State, e': State, p: Proc)
    requires Passes(s, e, p) && RunsTo(e, e')
    ensures Passes(s, e', p)
  {
    hide RunsTo;
    var m :| RunsTo(s, m) && m.proc == p && RunsTo(m, e);
    RunsThrough(m, e, e');
  }

  lemma PassesBy(s: State, m: State, e: State)
    requires RunsTo(s, m) && RunsTo(m, e)
    ensures Passes(s, e, m.proc)
  {
    hide RunsTo;
  }

  /** One more step, which keeps the invariant. */
  lemma OneStep(s: State, e: State, a: Action)
    requires RunsTo(s, e) && Inv(e) && Can(e, a)
    ensures RunsTo(s, Do(e, a)) && Inv(Do(e, a))
  {
    hide Inv, Do, Can;
    var run :| Runs(s, run) && After(s, run) == e;
    var longer := OneMore(s, run, a);
    StepKeepsInv(e, a);
  }

  lemma ProcMoves(s: State, e: State)
    requires RunsTo(s, e) && Inv(e) && Can(e, Process)
    ensures RunsTo(s, ProcStep(e)) && Inv(ProcStep(e))
  {
    hide Inv, RunsTo, ProcStep;
    OneStep(s, e, Process);
  }

  lemma TimMoves(s: State, e: State)
    requires RunsTo(s, e) && Inv(e) && Can(e, TimerStep)
    ensures RunsTo(s, TimStep(e)) && Inv(TimStep(e))
  {
    hide Inv, RunsTo, TimStep;
    OneStep(s, e, TimerStep);
  }

  lemma ExchMoves(s: State, e: State)
    requires RunsTo(s, e) && Inv(e) && Can(e, ExchangeStep)
    ensures RunsTo(s, ExchStep(e)) && Inv(ExchStep(e))
  {
    hide Inv, RunsTo, ExchStep;
    OneStep(s, e, ExchangeStep);
  }

  lemma DoesNotFit(s: State, e: State)
    requires RunsTo(s, e) && Inv(e) && e.proc == PCheck
    ensures var e' := e.(pointersMutex := Free, proc := PSpaceWait(false)); RunsTo(s, e') && Inv(e')
  {
    hide Inv, RunsTo;
    OneStep(s, e, FitsNot);
  }

  lemma Writes(s: State, e: State, offset: nat)
    requires RunsTo(s, e) && Inv(e) && e.proc == PWrite
    ensures var e' := e.(writeOffset := offset, proc := PDecide); RunsTo(s, e') && Inv(e')
  {
    hide Inv, RunsTo;
    OneStep(s, e, WriteTo(offset));
  }

  lemma Decides(s: State, e: State)
    requires RunsTo(s, e) && Inv(e) && e.proc == PDecide
    ensures var e' := e.(proc := PTestRunning); RunsTo(s, e') && Inv(e')
  {
    hide Inv, RunsTo;
    OneStep(s, e, Urgent);
  }

  lemma Answers(s: State, e: State, answer: nat)
    requires RunsTo(s, e) && Inv(e) && e.exch == EHardware
    ensures var e' := e.(exch := ERelock(answer)); RunsTo(s, e') && Inv(e')
  {
    hide Inv, RunsTo;
    OneStep(s, e, Answer(answer));
  }

  /** The action is not a statement of the thread. */
  predicate ByOthers(me: Owner, a: Action) {
    match a
    case TimerStep => me != Timer
    case ExchangeStep => me != Exchange
    case Answer(_) => me != Exchange
    case Expire => true
    case Spurious(_) => true
    case _ => me != Processing
  }

  /** What the other threads leave alone: where the thread stands, but for a wake-up, and the offsets it owns. */
  predicate Kept(me: Owner, s: State, e: State) {
    match me
    case Free => true
    case Processing =>
      e.writeOffset == s.writeOffset && (e.proc == s.proc || (s.proc.PSpaceWait? && e.proc == PSpaceWait(true)))
    case Timer =>
      e.tim == s.tim || (s.tim.TStartWait? && e.tim == TStartWait(true)) || (s.tim.TTimedWait? && e.tim == TTimedWait(true))
    case Exchange =>
      e.hwWriteOffset == s.hwWriteOffset && e.readOffset == s.readOffset
      && (e.exch == s.exch || (s.exch.EDirtyWait? && e.exch == EDirtyWait(true)))
  }

  lemma OthersKeep(me: Owner, s: State, a: Action)
    requires Can(s, a) && ByOthers(me, a)
    ensures Kept(me, s, Do(s, a))
  {
  }

  /** On the way from s to e the timer thread looked at startTimer n times and found it not set. */
  ghost predicate Fruitless(s: State, e: State, n: nat)
    decreases n
  {
    if n == 0 then RunsTo(s, e)
    else exists m :: Fruitless(s, m, n - 1) && m.tim == TCheckStart && !m.startTimer && RunsTo(TimStep(m), e)
  }

  lemma NoLook(s: State, e: State)
    requires RunsTo(s, e)
    ensures Fruitless(s, e, 0)
  {
  }

  lemma OneLook(s: State, m: State, n: nat)
    requires Fruitless(s, m, n) && m.tim == TCheckStart && !m.startTimer
    ensures Fruitless(s, TimStep(m), n + 1)
  {
    RunsToSelf(TimStep(m));
    hide RunsTo;
  }

  lemma FruitlessOn(s: State, e: State, e': State, n: nat)
    requires Fruitless(s, e, n) && RunsTo(e, e')
    ensures Fruitless(s, e', n)
  {
    hide RunsTo;
    if n == 0 {
      RunsThrough(s, e, e');
    } else {
      var m :| Fruitless(s, m, n - 1) && m.tim == TCheckStart && !m.startTimer && RunsTo(TimStep(m), e);
      RunsThrough(TimStep(m), e, e');
    }
  }

  class Sw2HwInterface {
    var writeOffset: nat
    var hwWriteOffset: nat
    var readOffset: nat
    var dirty: bool
    var startTimer: bool
    var timerRunning: bool
    var timerMutex: Owner
    var pointersMutex: Owner
    var proc: Proc  // where the threads stand
    var tim: Tim
    var exch: Exch

    function View(): State
      reads this
    {
      State(writeOffset, hwWriteOffset, readOffset, dirty, startTimer, timerRunning,
            timerMutex, pointersMutex, proc, tim, exch)
    }

    constructor ()
      ensures Init(View())
    {
      writeOffset, hwWriteOffset, readOffset := 0, 0, 0;
      dirty, startTimer, timerRunning := false, false, false;
      timerMutex, pointersMutex := Owner.Free, Owner.Free;
      proc, tim, exch := PWait, TLock, ELock;
    }

    /** The other threads execute those of the statements that they can. */
    method Others(ghost d0: State, me: Owner, acts: seq<Action>)
      requires RunsTo(d0, View()) && Inv(View())
      modifies this
      ensures RunsTo(d0, View()) && Inv(View()) && Kept(me, old(View()), View())
    {
      hide Inv, RunsTo, Do, Can;
      var i := 0;
      while i < |acts|
        invariant 0 <= i <= |acts|
        invariant RunsTo(d0, View()) && Inv(View()) && Kept(me, old(View()), View())
      {
        if ByOthers(me, acts[i]) && Can(View(), acts[i]) {
          OneStep(d0, View(), acts[i]);
          OthersKeep(me, View(), acts[i]);
          var s := Do(View(), acts[i]);
          writeOffset, hwWriteOffset, readOffset := s.writeOffset, s.hwWriteOffset, s.readOffset;
          dirty, startTimer, timerRunning := s.dirty, s.startTimer, s.timerRunning;
          timerMutex, pointersMutex, proc, tim, exch := s.timerMutex, s.pointersMutex, s.proc, s.tim, s.exch;
          assert View() == s;
        }
        i := i + 1;
      }
    }

    // -- packetProcessingThread --

    /** One round of the loop for a packet; false: the thread is blocked. `fits` and `urgent` are the answers of the
        space check and of the test in line 378, `offset` is where the packet ends. */
    method ProcessPacket(fits: bool, offset: nat, urgent: bool, env: nat -> seq<Action>) returns (done: bool)
      requires Inv(View()) && proc == PWait
      modifies this
      ensures Inv(View()) && RunsTo(old(View()), View())
      ensures done ==> proc == PWait && writeOffset == offset
      ensures done ==> timerMutex != Processing && pointersMutex != Processing
      ensures !done ==> (proc.PLockTimer? || proc.PLockPointers? || proc.PSpaceWait?) && !Can(View(), Action.Process)
      // without space the thread has waited for it; an urgent packet has asked for the exchange, any other for the timer
      ensures done && !fits ==> Passes(old(View()), View(), PSpaceWait(false))
      ensures !done && proc.PSpaceWait? ==> !fits
      ensures done ==> Passes(old(View()), View(), if urgent then PSetDirty else PTestIdle)
    {
      hide Inv, RunsTo, Do, Can, Passes;
      ghost var d0 := View();
      RunsToSelf(d0);
      done := LockBoth(d0, env(0), env(1), env(2));
      if done {
        done := AwaitSpace(d0, fits, env(3), env(4));
      }
      if !done {
        return;
      }
      ghost var d1 := View();
      RunsToSelf(d1);
      WriteThePacket(d1, offset, env(5));
      ghost var m;
      if urgent {
        m := Announce(d1, env(6), env(7), env(8), env(9), env(10));
      } else {
        m := StartTheTimer(d1, env(6), env(7), env(8));
      }
      UnlockBoth(m, env(11), env(12));
      RunsThrough(d0, d1, m);
      RunsThrough(d0, m, View());
      PassesBy(d0, m, View());
      RunsThrough(d1, m, View());
      if !fits {
        PassesOn(d0, d1, View(), PSpaceWait(false));
      }
      FreeAtTheEnd(View());
    }

    method LockBoth(ghost d0: State, acts0: seq<Action>, acts1: seq<Action>, acts2: seq<Action>) returns (done: bool)
      requires RunsTo(d0, View()) && Inv(View()) && proc == PWait
      modifies this
      ensures RunsTo(d0, View()) && Inv(View())
      ensures if done then proc == PCheck else (proc.PLockTimer? || proc.PLockPointers?) && !Can(View(), Action.Process)
    {
      hide Inv, RunsTo, Do, TimStep, ExchStep;
      Others(d0, Processing, acts0);
      ProcMoves(d0, View());
      proc := PLockTimer;
      Others(d0, Processing, acts1);
      if timerMutex != Owner.Free {
        return false;
      }
      ProcMoves(d0, View());
      timerMutex := Processing;
      proc := PLockPointers;
      Others(d0, Processing, acts2);
      if pointersMutex != Owner.Free {
        return false;
      }
      ProcMoves(d0, View());
      pointersMutex := Processing;
      proc := PCheck;
      return true;
    }

    /** The check and the wait for space, which is not repeated. */
    method AwaitSpace(ghost d0: State, fits: bool, acts0: seq<Action>, acts1: seq<Action>) returns (done: bool)
      requires RunsTo(d0, View()) && Inv(View()) && proc == PCheck
      modifies this
      ensures RunsTo(d0, View()) && Inv(View())
      ensures if done then proc == PWrite else proc.PSpaceWait? && !Can(View(), Action.Process)
      ensures fits ==> done
      ensures !fits ==> Passes(d0, View(), PSpaceWait(false))
    {
      hide Inv, RunsTo, Do, TimStep, ExchStep, Passes;
      Others(d0, Processing, acts0);
      if fits {
        ProcMoves(d0, View());
        proc := PWrite;
        return true;
      }
      DoesNotFit(d0, View());
      pointersMutex := Owner.Free;
      proc := PSpaceWait(false);
      ghost var m := View();
      RunsToSelf(m);
      Others(m, Processing, acts1);
      RunsThrough(d0, m, View());
      PassesBy(d0, m, View());
      if proc == PSpaceWait(false) || pointersMutex != Owner.Free {
        return false;
      }
      ProcMoves(m, View());
      pointersMutex := Processing;
      proc := PWrite;
      RunsThrough(d0, m, View());
      PassesBy(d0, m, View());
      return true;
    }

    method WriteThePacket(ghost d0: State, offset: nat, acts: seq<Action>)
      requires RunsTo(d0, View()) && Inv(View()) && proc == PWrite
      modifies this
      ensures RunsTo(d0, View()) && Inv(View()) && proc == PDecide && writeOffset == offset
    {
      hide Inv, RunsTo, Do, TimStep, ExchStep, ProcStep;
      Others(d0, Processing, acts);
      Writes(d0, View(), offset);
      writeOffset := offset;
      proc := PDecide;
    }

    /** The packet is urgent: stop the timer and ask for the exchange. */
    method Announce(ghost d0: State, acts0: seq<Action>, acts1: seq<Action>, acts2: seq<Action>, acts3: seq<Action>, acts4: seq<Action>)
      returns (ghost m: State)
      requires RunsTo(d0, View()) && Inv(View()) && proc == PDecide
      modifies this
      ensures RunsTo(m, View()) && Inv(View()) && proc == PUnlockPointers && writeOffset == old(writeOffset)
      ensures RunsTo(d0, m) && m.proc == PSetDirty
    {
      hide Inv, RunsTo, Do, TimStep, ExchStep;
      Others(d0, Processing, acts0);
      Decides(d0, View());
      proc := PTestRunning;
      StopTheTimer(d0, acts1, acts2);
      m := MarkDirty(d0, acts3, acts4);
    }

    method MarkDirty(ghost d0: State, acts0: seq<Action>, acts1: seq<Action>) returns (ghost m: State)
      requires RunsTo(d0, View()) && Inv(View()) && proc == PClearStart
      modifies this
      ensures RunsTo(m, View()) && Inv(View()) && proc == PUnlockPointers && writeOffset == old(writeOffset)
      ensures RunsTo(d0, m) && m.proc == PSetDirty
    {
      hide Inv, RunsTo, Do, TimStep, ExchStep;
      Others(d0, Processing, acts0);
      ProcMoves(d0, View());
      startTimer := false;
      proc := PSetDirty;
      m := View();
      RunsToSelf(m);
      Others(m, Processing, acts1);
      ProcMoves(m, View());
      dirty := true;
      exch := SignalExchange(exch);
      proc := PUnlockPointers;
    }

    method StopTheTimer(ghost d0: State, acts0: seq<Action>, acts1: seq<Action>)
      requires RunsTo(d0, View()) && Inv(View()) && proc == PTestRunning
      modifies this
      ensures RunsTo(d0, View()) && Inv(View()) && proc == PClearStart && writeOffset == old(writeOffset)
    {
      hide Inv, RunsTo, Do, TimStep, ExchStep;
      Others(d0, Processing, acts0);
      ProcMoves(d0, View());
      if timerRunning {
        proc := PStopTimer;
        Others(d0, Processing, acts1);
        ProcMoves(d0, View());
        timerRunning := false;
        tim := SignalAbort(tim);
        proc := PClearStart;
      } else {
        proc := PClearStart;
      }
    }

    /** The packet is not urgent: the timer will ask for the exchange. */
    method StartTheTimer(ghost d0: State, acts0: seq<Action>, acts1: seq<Action>, acts2: seq<Action>) returns (ghost m: State)
      requires RunsTo(d0, View()) && Inv(View()) && proc == PDecide
      modifies this
      ensures RunsTo(m, View()) && Inv(View()) && proc == PUnlockPointers && writeOffset == old(writeOffset)
      ensures RunsTo(d0, m) && m.proc == PTestIdle
    {
      hide Inv, RunsTo, Do, TimStep, ExchStep;
      Others(d0, Processing, acts0);
      ProcMoves(d0, View());
      proc := PTestIdle;
      m := View();
      RunsToSelf(m);
      Others(m, Processing, acts1);
      ProcMoves(m, View());
      if !timerRunning {
        proc := PSetStart;
        Others(m, Processing, acts2);
        ProcMoves(m, View());
        startTimer := true;
        tim := SignalStart(tim);
        proc := PUnlockPointers;
      } else {
        proc := PUnlockPointers;
      }
    }

    method UnlockBoth(ghost d0: State, acts0: seq<Action>, acts1: seq<Action>)
      requires RunsTo(d0, View()) && Inv(View()) && proc == PUnlockPointers
      modifies this
      ensures RunsTo(d0, View()) && Inv(View()) && proc == PWait && writeOffset == old(writeOffset)
    {
      hide Inv, RunsTo, Do, TimStep, ExchStep;
      Others(d0, Processing, acts0);
      ProcMoves(d0, View());
      pointersMutex := Owner.Free;
      proc := PUnlockTimer;
      Others(d0, Processing, acts1);
      ProcMoves(d0, View());
      timerMutex := Owner.Free;
      proc := PWait;
    }

    // -- timerThread --

    /** One round of the loop, which looks at startTimer at most `patience` times; false: no timer was started, or it is
        still running, or the thread waits for a mutex. After a round the hardware has the write pointer, or its
        exchange is asked for or under way. */
    method TimerRound(patience: nat, env: nat -> seq<Action>) returns (done: bool)
      requires Inv(View()) && tim == TCheckStart
      modifies this
      ensures Inv(View()) && RunsTo(old(View()), View())
      ensures done ==> tim == TCheckStart && !timerRunning && timerMutex == Timer
      ensures done ==> Asked(View()) || exch.EFetch?
      ensures !done ==> !Can(View(), TimerStep) || Fruitless(old(View()), View(), patience)
    {
      hide Inv, RunsTo, Do, Can, Fruitless;
      ghost var d0 := View();
      RunsToSelf(d0);
      done := AwaitStart(d0, patience, env);
      if done {
        done := AwaitExpiry(d0, env(0), env(1), env(2));
      }
      if done {
        done := AskIfRunning(d0, env(3), env(4), env(5), env(6));
      }
      if done {
        EndRound(d0, env(7));
        RoundIsOver(View());
      }
    }

    /** The inner loop: wait until startTimer is set. */
    method AwaitStart(ghost d0: State, patience: nat, env: nat -> seq<Action>) returns (started: bool)
      requires RunsTo(d0, View()) && Inv(View()) && tim == TCheckStart
      modifies this
      ensures RunsTo(d0, View()) && Inv(View())
      ensures started ==> tim == TClearStart
      ensures !started ==> !Can(View(), TimerStep) || Fruitless(d0, View(), patience)
    {
      hide Inv, RunsTo, Do, ProcStep, ExchStep, Fruitless;
      NoLook(d0, View());
      var k := 0;
      while k < patience
        invariant k <= patience
        invariant RunsTo(d0, View()) && Inv(View()) && tim == TCheckStart
        invariant Fruitless(d0, View(), k)
      {
        ghost var s := View();
        RunsToSelf(s);
        Others(s, Timer, env(10 + 2 * k));
        RunsThrough(d0, s, View());
        FruitlessOn(d0, s, View(), k);
        ghost var m := View();
        TimMoves(d0, View());
        if startTimer {
          tim := TClearStart;
          return true;
        }
        timerMutex := Owner.Free;
        tim := TStartWait(false);
        OneLook(d0, m, k);
        s := View();
        RunsToSelf(s);
        Others(s, Timer, env(11 + 2 * k));
        RunsThrough(d0, s, View());
        if tim == TStartWait(false) || timerMutex != Owner.Free {
          return false;
        }
        TimMoves(s, View());
        timerMutex := Timer;
        tim := TCheckStart;
        RunsThrough(d0, s, View());
        FruitlessOn(d0, s, View(), k + 1);
        k := k + 1;
      }
      return false;
    }

    method AwaitExpiry(ghost d0: State, acts0: seq<Action>, acts1: seq<Action>, acts2: seq<Action>) returns (done: bool)
      requires RunsTo(d0, View()) && Inv(View()) && tim == TClearStart
      modifies this
      ensures RunsTo(d0, View()) && Inv(View())
      ensures if done then tim == TTestRunning else !Can(View(), TimerStep)
    {
      hide Inv, RunsTo, Do, ProcStep, ExchStep;
      Others(d0, Timer, acts0);
      TimMoves(d0, View());
      startTimer := false;
      tim := TSetRunning;
      Others(d0, Timer, acts1);
      TimMoves(d0, View());
      timerRunning := true;
      timerMutex := Owner.Free;
      tim := TTimedWait(false);
      Others(d0, Timer, acts2);
      if tim == TTimedWait(false) || timerMutex != Owner.Free {
        return false;
      }
      TimMoves(d0, View());
      timerMutex := Timer;
      tim := TTestRunning;
      return true;
    }

    /** Unless somebody has aborted the timer, ask for the exchange. */
    method AskIfRunning(ghost d0: State, acts0: seq<Action>, acts1: seq<Action>, acts2: seq<Action>, acts3: seq<Action>)
      returns (done: bool)
      requires RunsTo(d0, View()) && Inv(View()) && tim == TTestRunning
      modifies this
      ensures RunsTo(d0, View()) && Inv(View())
      ensures if done then tim == TClearRunning else !Can(View(), TimerStep)
    {
      hide Inv, RunsTo, Do, ProcStep, ExchStep;
      Others(d0, Timer, acts0);
      TimMoves(d0, View());
      if !timerRunning {
        tim := TClearRunning;
        return true;
      }
      tim := TLockPointers;
      Others(d0, Timer, acts1);
      if pointersMutex != Owner.Free {
        return false;
      }
      TimMoves(d0, View());
      pointersMutex := Timer;
      tim := TSetDirty;
      AskForExchange(d0, acts2, acts3);
      return true;
    }

    method AskForExchange(ghost d0: State, acts0: seq<Action>, acts1: seq<Action>)
      requires RunsTo(d0, View()) && Inv(View()) && tim == TSetDirty
      modifies this
      ensures RunsTo(d0, View()) && Inv(View()) && tim == TClearRunning
    {
      hide Inv, RunsTo, Do, ProcStep, ExchStep;
      Others(d0, Timer, acts0);
      TimMoves(d0, View());
      dirty := true;
      exch := SignalExchange(exch);
      tim := TUnlockPointers;
      Others(d0, Timer, acts1);
      TimMoves(d0, View());
      pointersMutex := Owner.Free;
      tim := TClearRunning;
    }

    method EndRound(ghost d0: State, acts: seq<Action>)
      requires RunsTo(d0, View()) && Inv(View()) && tim == TClearRunning
      modifies this
      ensures RunsTo(d0, View()) && Inv(View()) && tim == TCheckStart && !timerRunning
    {
      hide Inv, RunsTo, Do, ProcStep, ExchStep;
      Others(d0, Timer, acts);
      TimMoves(d0, View());
      timerRunning := false;
      tim := TCheckStart;
    }

    // -- pointerExchangeThread --

    /** One round of the loop; `answer` is what the hardware reports, `sent` what it was told. false: the thread waits.
        After a round a thread that waits for space has been woken. */
    method ExchangeRound(answer: nat, env: nat -> seq<Action>) returns (done: bool, sent: nat)
      requires Inv(View()) && exch == ETestDirty
      modifies this
      ensures Inv(View()) && RunsTo(old(View()), View())
      ensures done ==> exch == ETestDirty && readOffset == answer && hwWriteOffset == sent && !Waiting(View())
      ensures !done ==> !Can(View(), Action.ExchangeStep) && (exch.EDirtyWait? || exch == ERelock(answer))
    {
      hide Inv, RunsTo, Do, Can;
      ghost var d0 := View();
      RunsToSelf(d0);
      sent := 0;
      done := AwaitDirty(d0, env(0), env(1));
      if done {
        sent := FetchOffset(d0, env(2), env(3), env(4));
        done := Exchanged(d0, answer, env(5), env(6), env(7));
      }
    }

    /** The wait for a dirty write pointer, which is not repeated. */
    method AwaitDirty(ghost d0: State, acts0: seq<Action>, acts1: seq<Action>) returns (done: bool)
      requires RunsTo(d0, View()) && Inv(View()) && exch == ETestDirty
      modifies this
      ensures RunsTo(d0, View()) && Inv(View())
      ensures if done then exch == EClearDirty else exch.EDirtyWait? && !Can(View(), Action.ExchangeStep)
    {
      hide Inv, RunsTo, Do, ProcStep, TimStep;
      Others(d0, Exchange, acts0);
      ExchMoves(d0, View());
      if dirty {
        exch := EClearDirty;
        return true;
      }
      pointersMutex := Owner.Free;
      exch := EDirtyWait(false);
      Others(d0, Exchange, acts1);
      if exch == EDirtyWait(false) || pointersMutex != Owner.Free {
        return false;
      }
      ExchMoves(d0, View());
      pointersMutex := Exchange;
      exch := EClearDirty;
      return true;
    }

    method FetchOffset(ghost d0: State, acts0: seq<Action>, acts1: seq<Action>, acts2: seq<Action>) returns (sent: nat)
      requires RunsTo(d0, View()) && Inv(View()) && exch == EClearDirty
      modifies this
      ensures RunsTo(d0, View()) && Inv(View()) && exch == EHardware && sent == hwWriteOffset
    {
      hide Inv, RunsTo, Do, ProcStep, TimStep;
      Others(d0, Exchange, acts0);
      ExchMoves(d0, View());
      dirty := false;
      exch := EFetch;
      Others(d0, Exchange, acts1);
      ExchMoves(d0, View());
      hwWriteOffset := writeOffset / 4;
      exch := EUnlock;
      Others(d0, Exchange, acts2);
      ExchMoves(d0, View());
      pointersMutex := Owner.Free;
      exch := EHardware;
      sent := hwWriteOffset;
    }

    /** mbox_put and mbox_get, then the new read offset. */
    method Exchanged(ghost d0: State, answer: nat, acts0: seq<Action>, acts1: seq<Action>, acts2: seq<Action>)
      returns (done: bool)
      requires RunsTo(d0, View()) && Inv(View()) && exch == EHardware
      modifies this
      ensures RunsTo(d0, View()) && Inv(View()) && hwWriteOffset == old(hwWriteOffset)
      ensures if done then exch == ETestDirty && readOffset == answer && !Waiting(View())
              else exch == ERelock(answer) && !Can(View(), Action.ExchangeStep)
    {
      hide Inv, RunsTo, Do, ProcStep, TimStep;
      Others(d0, Exchange, acts0);
      Answers(d0, View(), answer);
      exch := ERelock(answer);
      Others(d0, Exchange, acts1);
      if pointersMutex != Owner.Free {
        return false;
      }
      ExchMoves(d0, View());
      pointersMutex := Exchange;
      exch := EStore(answer);
      Others(d0, Exchange, acts2);
      ExchMoves(d0, View());
      readOffset := answer;
      proc := SignalSpace(proc);
      exch := ETestDirty;
      return true;
    }
  }

  lemma FreeAtTheEnd(s: State)
    requires Inv(s) && s.proc == PWait
    ensures s.timerMutex != Processing && s.pointersMutex != Processing
  {
  }

  lemma RoundIsOver(s: State)
    requires Inv(s) && s.tim == TCheckStart && !s.timerRunning
    ensures s.timerMutex == Timer && (Asked(s) || s.exch.EFetch?)
  {
  }
}
