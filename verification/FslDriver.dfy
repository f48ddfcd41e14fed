// linux/fsl_driver/fsl.c: the blocking read, the interrupt handler and the device, one reader per device.
// The handler is atomic (uniprocessor); it can run between any two statements of fsl_read.
module FslDriver {
  import opened Words

  /** The statement fsl_read executes next for word i, or what the last call returned. */
  datatype Pc =
    | Setup                     // fsl_setup_dev between request_irq and irq_enabled = 1
    | Returned(value: int)
    | Test(i: nat)              // for: i < num_words
    | Get(i: nat)               // ngetfsl
    | Clear(i: nat)             // irq_count = 0
    | NonBlock(i: nat)          // O_NONBLOCK?
    | TestEnabled(i: nat)       // if(!dev->irq_enabled)
    | SetEnabled(i: nat)        // irq_enabled = 1
    | EnableIrq(i: nat)         // enable_irq
    | Waiting(i: nat)           // wait_event_interruptible(irq_count > 0)
    | Copy(i: nat, data: Word)  // copy_to_user

  const EINVAL: int := -22
  const EFAULT: int := -14
  const ERESTARTSYS: int := -512

  /** struct fsl_dev, the interrupt controller's disable depth for its line, the FIFO, the call in
      progress, and history: all words the device ever pushed, how many were popped, how many before
      this call, and whether the reader has just been woken. */
  datatype Dev = Dev(
    irqCount: nat, irqEnabled: bool, depth: nat, fifo: seq<Word>,
    pc: Pc, words: nat, nonblocking: bool, user: seq<Word>,
    pushed: seq<Word>, popped: nat, start: nat, woken: bool)

  datatype Action =
    | Push(word: Word)                     // the device delivers a word
    | Interrupt                            // the level-triggered line is served
    | SetupDone                            // irq_enabled = 1 in fsl_setup_dev
    | Read(count: nat, nonblocking: bool)  // the one reader calls fsl_read
    | Execute                              // the reader executes its next statement
    | Fault                                // copy_to_user fails
    | Signal                               // the wait is interrupted by a signal

  /** Freshly zeroed device whose interrupt line has just been requested. */
  predicate Boot(d: Dev) {
    && d.irqCount == 0 && !d.irqEnabled && d.depth == 0 && d.pc == Setup
    && d.fifo == d.user == d.pushed == [] && d.words == d.popped == d.start == 0 && !d.woken
  }

  predicate Can(d: Dev, a: Action) {
    match a
    case Push(_) => true
    case Interrupt => d.depth == 0 && d.fifo != []
    case SetupDone => d.pc.Setup?
    case Read(_, _) => d.pc.Returned?
    case Execute => !d.pc.Setup? && !d.pc.Returned? && (d.pc.Waiting? ==> d.irqCount > 0)
    case Fault => d.pc.Copy?
    case Signal => d.pc.Waiting?
  }

  function Do(d: Dev, a: Action): Dev
    requires Can(d, a)
  {
    match a
    case Push(w) => d.(fifo := d.fifo + [w], pushed := d.pushed + [w])
    case Interrupt => d.(irqCount := (d.irqCount + 1) % 0x1_0000, depth := d.depth + 1, irqEnabled := false)
    case SetupDone => d.(irqEnabled := true, pc := Returned(0))
    case Read(count, nb) =>
      if count % 4 != 0 then d.(pc := Returned(EINVAL))
      else d.(pc := Test(0), words := count / 4, nonblocking := nb, user := [], start := d.popped, woken := false)
    case Execute => Statement(d)
    case Fault => d.(pc := Returned(EFAULT))
    case Signal => d.(pc := Returned(ERESTARTSYS))
  }

  /** One statement of fsl_read. */
  function Statement(d: Dev): Dev
    requires Can(d, Execute)
  {
    match d.pc
    case Test(i) => d.(pc := if i < d.words then Get(i) else Returned(4 * d.words))
    case Get(i) =>
      if d.fifo == [] then d.(pc := Clear(i), woken := false)
      else d.(pc := Copy(i, d.fifo[0]), fifo := d.fifo[1..], popped := d.popped + 1, woken := false)
    case Clear(i) => d.(pc := NonBlock(i), irqCount := 0)
    case NonBlock(i) => d.(pc := if d.nonblocking then Returned(4 * i) else TestEnabled(i))
    case TestEnabled(i) => d.(pc := if d.irqEnabled then Waiting(i) else SetEnabled(i))
    case SetEnabled(i) => d.(pc := EnableIrq(i), irqEnabled := true)
    case EnableIrq(i) => d.(pc := Waiting(i), depth := if d.depth > 0 then d.depth - 1 else 0)
    case Waiting(i) => d.(pc := Test(i), woken := true)
    case Copy(i, x) => d.(pc := Test(i + 1), user := d.user + [x])
  }

  // ---- Runs ----

  predicate Runs(d: Dev, run: seq<Action>)
    decreases |run|
  {
    run == [] || (Can(d, run[0]) && Runs(Do(d, run[0]), run[1..]))
  }

  function After(d: Dev, run: seq<Action>): Dev
    requires Runs(d, run)
    decreases |run|
  {
    if run == [] then d else After(Do(d, run[0]), run[1..])
  }

  lemma {:induction false} RunsAppend(d: Dev, run: seq<Action>, more: seq<Action>)
    requires Runs(d, run) && Runs(After(d, run), more)
    ensures Runs(d, run + more) && After(d, run + more) == After(After(d, run), more)
    decreases |run|
  {
    if run == [] {
      assert run + more == more;
    } else {
      assert (run + more)[1..] == run[1..] + more;
      RunsAppend(Do(d, run[0]), run[1..], more);
    }
  }

  // ---- The invariant, indexed by the program counter ----

  /** irq_enabled tells the truth about the interrupt line, except between lines 197 and 198. */
  predicate FlagIsTrue(d: Dev) {
    if d.pc.EnableIrq? then d.irqEnabled && d.depth == 1 else d.irqEnabled <==> d.depth == 0
  }

  /** How many interrupts can be pending at each statement. */
  predicate Counts(d: Dev) {
    && d.depth <= 1 && d.irqCount <= 2
    && (d.depth == 0 ==> d.irqCount <= 1)
    && (d.pc.NonBlock? || d.pc.TestEnabled? ==> d.irqCount <= 1 && (d.depth == 0 ==> d.irqCount == 0))
    && (d.pc.SetEnabled? || d.pc.EnableIrq? ==> d.irqCount <= 1 && d.depth == 1)
    && (d.pc.Waiting? && d.irqCount == 0 ==> d.depth == 0)
  }

  /** An interrupt counted since the counter was cleared means that a word is there. */
  predicate CountedMeansData(d: Dev) {
    && (d.pc.NonBlock? || d.pc.TestEnabled? || d.pc.SetEnabled? || d.pc.EnableIrq? || d.pc.Waiting?
        ==> d.irqCount > 0 ==> d.fifo != [])
    && (d.woken && (d.pc.Test? || d.pc.Get?) ==> d.fifo != [])
    && (d.pc.Copy? ==> !d.woken)
  }

  /** No word is lost, duplicated or reordered on its way to the user buffer. */
  predicate Stream(d: Dev) {
    && d.popped <= |d.pushed| && d.fifo == d.pushed[d.popped..]
    && match d.pc
       case Setup => Delivered(d.pushed, d.popped, d.start, d.user, 0)
       case Returned(v) => v >= 0 ==> v % 4 == 0 && Delivered(d.pushed, d.popped, d.start, d.user, v / 4)
       case Copy(i, x) => i < d.words && d.popped > 0 && x == d.pushed[d.popped - 1] && Delivered(d.pushed, d.popped - 1, d.start, d.user, i)
       case Test(i) => i <= d.words && Delivered(d.pushed, d.popped, d.start, d.user, i)
       case _ => d.pc.i < d.words && Delivered(d.pushed, d.popped, d.start, d.user, d.pc.i)
  }

  /** The first i words of this call are in the user buffer and nothing else has been popped. */
  predicate Delivered(pushed: seq<Word>, popped: nat, start: nat, user: seq<Word>, i: nat) {
    popped == start + i <= |pushed| && user == pushed[start..start + i]
  }

  /** What holds in every state once a setup has ended in which no interrupt was handled. */
  predicate Inv(d: Dev) {
    !d.pc.Setup? && FlagIsTrue(d) && Counts(d) && CountedMeansData(d) && Stream(d)
  }

  lemma DeliveredGrows(pushed: seq<Word>, w: Word, popped: nat, start: nat, user: seq<Word>, i: nat)
    requires Delivered(pushed, popped, start, user, i)
    ensures Delivered(pushed + [w], popped, start, user, i)
  {
  }

  lemma PushKeepsStream(d: Dev, w: Word)
    requires Stream(d)
    ensures Stream(Do(d, Push(w)))
  {
    assert (d.pushed + [w])[d.popped..] == d.pushed[d.popped..] + [w];
    forall i: nat | Delivered(d.pushed, d.popped, d.start, d.user, i)
      ensures Delivered(d.pushed + [w], d.popped, d.start, d.user, i)
    {
      DeliveredGrows(d.pushed, w, d.popped, d.start, d.user, i);
    }
    if d.pc.Copy? {
      DeliveredGrows(d.pushed, w, d.popped - 1, d.start, d.user, d.pc.i);
    }
    hide Delivered;
  }

  lemma CopyKeepsStream(d: Dev)
    requires Stream(d) && d.pc.Copy?
    ensures Stream(Statement(d))
  {
    assert d.pushed[d.start..d.popped] == d.pushed[d.start..d.popped - 1] + [d.pushed[d.popped - 1]];
  }

  lemma GetKeepsStream(d: Dev)
    requires Stream(d) && d.pc.Get?
    ensures Stream(Statement(d))
  {
    hide Delivered;
    if d.fifo != [] {
      assert d.fifo[0] == d.pushed[d.popped];
      assert d.fifo[1..] == d.pushed[d.popped + 1..];
    }
  }

  lemma StatementKeepsStream(d: Dev)
    requires Stream(d) && Can(d, Execute)
    ensures Stream(Statement(d))
  {
    hide Delivered;
    if d.pc.Copy? {
      CopyKeepsStream(d);
    } else if d.pc.Get? {
      GetKeepsStream(d);
    } else if d.pc.Test? && d.pc.i == d.words {
      assert (4 * d.words) / 4 == d.words;
    } else if d.pc.NonBlock? {
      assert (4 * d.pc.i) / 4 == d.pc.i;
    }
  }

  lemma StreamStep(d: Dev, a: Action)
    requires Stream(d) && Can(d, a)
    ensures Stream(Do(d, a))
  {
    match a {
      case Push(w) => PushKeepsStream(d, w);
      case Execute => StatementKeepsStream(d);
      case _ => assert d.pushed[d.popped..d.popped] == [];
    }
  }

  lemma StatementKeepsAccounts(d: Dev)
    requires FlagIsTrue(d) && Counts(d) && CountedMeansData(d) && Can(d, Execute)
    ensures FlagIsTrue(Statement(d)) && Counts(Statement(d)) && CountedMeansData(Statement(d))
  {
  }

  lemma StepKeepsInv(d: Dev, a: Action)
    requires Inv(d) && Can(d, a)
    ensures Inv(Do(d, a))
  {
    StreamStep(d, a);
    if a == Execute {
      StatementKeepsAccounts(d);
    }
    hide Stream, Statement;
  }

  lemma {:induction false} RunKeepsInv(d: Dev, run: seq<Action>)
    requires Inv(d) && Runs(d, run)
    ensures Inv(After(d, run))
    decreases |run|
  {
    if run != [] {
      StepKeepsInv(d, run[0]);
      RunKeepsInv(Do(d, run[0]), run[1..]);
    }
  }

  // ---- Main results ----

  /** The reader waits, a word is there, and neither the reader nor the interrupt handler can ever run. */
  predicate Lost(d: Dev) {
    d.pc.Waiting? && d.fifo != [] && !Can(d, Execute) && !Can(d, Interrupt)
  }

  /** Lost is final: whatever the device does, only a signal gets the reader out. */
  lemma LostStaysLost(d: Dev, a: Action)
    requires Lost(d) && Can(d, a) && a != Signal
    ensures Lost(Do(d, a))
  {
  }

  /** A setup: things that can happen between request_irq and irq_enabled = 1. */
  predicate DuringSetup(run: seq<Action>) {
    forall a | a in run :: a.Push? || a == Interrupt
  }

  /** During setup at most one interrupt is handled, because nobody unmasks the line again. */
  lemma {:induction false} SetupState(d: Dev, run: seq<Action>)
    requires d.pc == Setup && Runs(d, run) && DuringSetup(run) && d.depth == d.irqCount <= 1 && !d.irqEnabled
    ensures var e := After(d, run);
            && e.pc == Setup && !e.irqEnabled && e.depth == e.irqCount <= 1 && e.words == d.words
            && (e.depth == 1 <==> d.depth == 1 || Interrupt in run)
            && e.popped == d.popped && e.start == d.start && e.user == d.user && (Stream(d) ==> Stream(e))
    decreases |run|
  {
    if run != [] {
      var a := run[0];
      assert forall b | b in run[1..] :: b in run;
      assert Interrupt in run <==> a == Interrupt || Interrupt in run[1..];
      if Stream(d) {
        StreamStep(d, a);
      }
      hide Stream;
      SetupState(Do(d, a), run[1..]);
    }
  }

  /** The reader pops what is there and then goes to sleep with the flag it found. */
  lemma {:induction false} DrainThenWait(d: Dev) returns (run: seq<Action>)
    requires d.pc.Test? && d.pc.i + |d.fifo| < d.words && !d.nonblocking && d.irqEnabled && d.depth == 1
    ensures Runs(d, run)
    ensures var e := After(d, run); e.pc.Waiting? && e.irqCount == 0 && e.depth == 1
    decreases |d.fifo|
  {
    var d1 := Statement(d);
    var d2 := Statement(d1);
    if d.fifo == [] {
      run := [];
      run := OneMore(d, run, Execute);
      run := OneMore(d, run, Execute);
      run := OneMore(d, run, Execute);
      run := OneMore(d, run, Execute);
      run := OneMore(d, run, Execute);
    } else {
      var d3 := Statement(d2);
      var rest := DrainThenWait(d3);
      run := [Execute, Execute, Execute] + rest;
      assert run[1..] == [Execute, Execute] + rest && run[1..][1..] == [Execute] + rest && run[1..][1..][1..] == rest;
      assert Runs(d2, run[1..][1..]) && After(d2, run[1..][1..]) == After(d3, rest);
      assert Runs(d1, run[1..]) && After(d1, run[1..]) == After(d3, rest);
    }
  }

  /** No lost wake-up, for every interleaving of the reader, the handler and the device, exactly when
      no interrupt was handled between request_irq and irq_enabled = 1 in fsl_setup_dev. */
  lemma NoWakeupIsLostIffSetupWasQuiet(boot: Dev, setup: seq<Action>)
    requires Boot(boot) && DuringSetup(setup) && Runs(boot, setup) && Can(After(boot, setup), SetupDone)
    ensures (forall run | Runs(Do(After(boot, setup), SetupDone), run) :: !Lost(After(Do(After(boot, setup), SetupDone), run)))
       <==> Interrupt !in setup
  {
    SetupState(boot, setup);
    var d := Do(After(boot, setup), SetupDone);
    if Interrupt !in setup {
      assert Inv(d);
      forall run | Runs(d, run) ensures !Lost(After(d, run)) {
        RunKeepsInv(d, run);
      }
    } else {
      var read := Read(4 * (|d.fifo| + 1), false);
      var d1 := Do(d, read);
      var rest := DrainThenWait(d1);
      var run := [read] + rest;
      assert run[1..] == rest;
      var e := After(d, run);
      assert Runs(e, [Push(0)]) && After(e, [Push(0)]) == Do(e, Push(0));
      RunsAppend(d, run, [Push(0)]);
      assert Lost(After(d, run + [Push(0)]));
    }
  }

  /** All states of the driver after a quiet setup. */
  ghost predicate Reachable(d: Dev) {
    exists boot, setup, run ::
      && Boot(boot) && DuringSetup(setup) && Interrupt !in setup && Runs(boot, setup) && Can(After(boot, setup), SetupDone)
      && Runs(Do(After(boot, setup), SetupDone), run) && After(Do(After(boot, setup), SetupDone), run) == d
  }

  lemma ReachableHasInv(d: Dev)
    requires Reachable(d)
    ensures Inv(d)
  {
    var boot, setup, run :|
      && Boot(boot) && DuringSetup(setup) && Interrupt !in setup && Runs(boot, setup) && Can(After(boot, setup), SetupDone)
      && Runs(Do(After(boot, setup), SetupDone), run) && After(Do(After(boot, setup), SetupDone), run) == d;
    SetupState(boot, setup);
    RunKeepsInv(Do(After(boot, setup), SetupDone), run);
  }

  /** A reader waiting without a counted interrupt has the line unmasked, so as soon as a word is there
      the handler runs and the reader can go on. */
  lemma WaitingReaderIsServed(d: Dev)
    requires Reachable(d) && d.pc.Waiting? && d.fifo != []
    ensures d.irqCount == 0 ==> d.depth == 0
    ensures Can(d, Execute) || (Can(d, Interrupt) && Can(Do(d, Interrupt), Execute))
  {
    ReachableHasInv(d);
  }

  /** Interrupt accounting: the flag is wrong only between lines 197 and 198, enable_irq is always
      balanced, the 16-bit counter never exceeds 2 and so never wraps. */
  lemma InterruptAccounts(d: Dev)
    requires Reachable(d)
    ensures d.irqEnabled == (d.depth == 0) <==> !d.pc.EnableIrq?
    ensures d.pc.EnableIrq? ==> d.depth == 1
    ensures d.irqCount <= 2 && d.depth <= 1
  {
    ReachableHasInv(d);
  }

  /** A retry after a wake-up always obtains a word. */
  lemma RetryObtainsWord(d: Dev)
    requires Reachable(d) && d.woken && d.pc.Get?
    ensures Statement(d).pc.Copy?
  {
    ReachableHasInv(d);
  }

  /** A read that ends with a count delivered the next count/4 words of the stream, in order, and
      consumed nothing else; a blocking read that is neither interrupted nor faulted ends with the full count. */
  lemma ReadReturnsStream(d: Dev)
    requires Reachable(d) && d.pc.Returned? && d.pc.value >= 0
    ensures d.pc.value % 4 == 0
    ensures d.popped == d.start + d.pc.value / 4 <= |d.pushed|
    ensures d.user == d.pushed[d.start..d.popped]
  {
    ReachableHasInv(d);
  }

  lemma BlockingReadReturnsAll(d: Dev)
    requires Reachable(d) && Can(d, Execute) && Statement(d).pc.Returned? && !d.nonblocking
    ensures Statement(d).pc == Returned(4 * d.words) && |Statement(d).user| == d.words
  {
    ReachableHasInv(d);
  }

  /** The bound 2 is reached: one interrupt between clearing the counter and testing the flag, one after
      unmasking. The comment in the structure says the count should never exceed 1. */
  lemma TwoInterruptsCanBePending(boot: Dev)
    requires Boot(boot)
    ensures exists d :: Reachable(d) && d.irqCount == 2
  {
    var s := Do(boot, SetupDone);
    var first := ReadFindsNothing(s);
    var second := InterruptTwice(After(s, first));
    RunsAppend(s, first, second);
    assert After(boot, []) == boot && Runs(boot, []);
    assert Reachable(After(s, first + second));
  }

  lemma ReadFindsNothing(d: Dev) returns (run: seq<Action>)
    requires d.pc.Returned? && d.fifo == [] && d.irqEnabled && d.depth == 0
    ensures Runs(d, run)
    ensures var e := After(d, run); e.pc.TestEnabled? && e.irqCount == 0 && e.depth == 0 && e.fifo == [] && e.irqEnabled
  {
    run := [];
    run := OneMore(d, run, Read(4, false));
    run := OneMore(d, run, Execute);
    run := OneMore(d, run, Execute);
    run := OneMore(d, run, Execute);
    run := OneMore(d, run, Execute);
  }

  lemma InterruptTwice(d: Dev) returns (run: seq<Action>)
    requires d.pc.TestEnabled? && d.irqCount == 0 && d.depth == 0 && d.fifo == [] && d.irqEnabled
    ensures Runs(d, run) && After(d, run).irqCount == 2
  {
    run := [];
    run := OneMore(d, run, Push(7));
    run := OneMore(d, run, Interrupt);
    run := OneMore(d, run, Execute);
    run := OneMore(d, run, Execute);
    run := OneMore(d, run, Execute);
    run := OneMore(d, run, Interrupt);
  }

  lemma OneMore(d: Dev, run: seq<Action>, a: Action) returns (longer: seq<Action>)
    requires Runs(d, run) && Can(After(d, run), a)
    ensures Runs(d, longer) && After(d, longer) == Do(After(d, run), a)
  {
    longer := run + [a];
    OneMoreStep(d, run, a);
  }

  // ---- The driver as it is written, while the device and the handler do what they want ----

  /** Some run of the machine leads from d to e. */
  ghost predicate RunsTo(d: Dev, e: Dev) {
    exists run :: Runs(d, run) && After(d, run) == e
  }

  lemma RunsToSelf(d: Dev)
    ensures RunsTo(d, d)
  {
    assert Runs(d, []) && After(d, []) == d;
  }

  /** One more step, which keeps the invariant. */
  lemma OneStep(d: Dev, e: Dev, a: Action)
    requires RunsTo(d, e) && Inv(e) && Can(e, a)
    ensures RunsTo(d, Do(e, a)) && Inv(Do(e, a))
  {
    hide Inv, Do, Can;
    var run :| Runs(d, run) && After(d, run) == e;
    var longer := OneMore(d, run, a);
    StepKeepsInv(e, a);
  }

  // The statements of fsl_read, one by one, as they extend a run.

  lemma LoopGoesOn(d0: Dev, d: Dev, i: nat)
    requires RunsTo(d0, d) && Inv(d) && d.pc == Test(i) && i < d.words
    ensures var e := d.(pc := Get(i)); RunsTo(d0, e) && Inv(e)
  {
    hide Inv, RunsTo;
    OneStep(d0, d, Action.Execute);
  }

  lemma LoopEnds(d0: Dev, d: Dev, i: nat)
    requires RunsTo(d0, d) && Inv(d) && d.pc == Test(i) && i >= d.words
    ensures var e := d.(pc := Returned(4 * d.words)); RunsTo(d0, e) && Inv(e)
  {
    hide Inv, RunsTo;
    OneStep(d0, d, Action.Execute);
  }

  lemma GetSomething(d0: Dev, d: Dev, i: nat)
    requires RunsTo(d0, d) && Inv(d) && d.pc == Get(i) && d.fifo != []
    ensures var e := d.(pc := Copy(i, d.fifo[0]), fifo := d.fifo[1..], popped := d.popped + 1, woken := false); RunsTo(d0, e) && Inv(e)
  {
    hide Inv, RunsTo;
    OneStep(d0, d, Action.Execute);
  }

  lemma GetNothing(d0: Dev, d: Dev, i: nat)
    requires RunsTo(d0, d) && Inv(d) && d.pc == Get(i) && d.fifo == []
    ensures var e := d.(pc := Clear(i), woken := false); RunsTo(d0, e) && Inv(e)
  {
    hide Inv, RunsTo;
    OneStep(d0, d, Action.Execute);
  }

  lemma ClearCount(d0: Dev, d: Dev, i: nat)
    requires RunsTo(d0, d) && Inv(d) && d.pc == Clear(i)
    ensures var e := d.(pc := NonBlock(i), irqCount := 0); RunsTo(d0, e) && Inv(e)
  {
    hide Inv, RunsTo;
    OneStep(d0, d, Action.Execute);
  }

  lemma GiveUp(d0: Dev, d: Dev, i: nat)
    requires RunsTo(d0, d) && Inv(d) && d.pc == NonBlock(i) && d.nonblocking
    ensures var e := d.(pc := Returned(4 * i)); RunsTo(d0, e) && Inv(e)
  {
    hide Inv, RunsTo;
    OneStep(d0, d, Action.Execute);
  }

  lemma Block(d0: Dev, d: Dev, i: nat)
    requires RunsTo(d0, d) && Inv(d) && d.pc == NonBlock(i) && !d.nonblocking
    ensures var e := d.(pc := TestEnabled(i)); RunsTo(d0, e) && Inv(e)
  {
    hide Inv, RunsTo;
    OneStep(d0, d, Action.Execute);
  }

  lemma Enabled(d0: Dev, d: Dev, i: nat)
    requires RunsTo(d0, d) && Inv(d) && d.pc == TestEnabled(i)
    ensures var e := d.(pc := if d.irqEnabled then Waiting(i) else SetEnabled(i)); RunsTo(d0, e) && Inv(e)
  {
    hide Inv, RunsTo;
    OneStep(d0, d, Action.Execute);
  }

  lemma Flag(d0: Dev, d: Dev, i: nat)
    requires RunsTo(d0, d) && Inv(d) && d.pc == SetEnabled(i)
    ensures var e := d.(pc := EnableIrq(i), irqEnabled := true); RunsTo(d0, e) && Inv(e)
  {
    hide Inv, RunsTo;
    OneStep(d0, d, Action.Execute);
  }

  lemma Unmask(d0: Dev, d: Dev, i: nat)
    requires RunsTo(d0, d) && Inv(d) && d.pc == EnableIrq(i)
    ensures d.depth == 1
    ensures var e := d.(pc := Waiting(i), depth := 0); RunsTo(d0, e) && Inv(e)
  {
    UnmaskedOnce(d, i);
    hide RunsTo;
    OneStep(d0, d, Action.Execute);
  }

  lemma Wake(d0: Dev, d: Dev, i: nat)
    requires RunsTo(d0, d) && Inv(d) && d.pc == Waiting(i) && d.irqCount > 0
    ensures var e := d.(pc := Test(i), woken := true); RunsTo(d0, e) && Inv(e)
  {
    hide Inv, RunsTo;
    OneStep(d0, d, Action.Execute);
  }

  lemma Interrupted(d0: Dev, d: Dev, i: nat)
    requires RunsTo(d0, d) && Inv(d) && d.pc == Waiting(i)
    ensures var e := d.(pc := Returned(ERESTARTSYS)); RunsTo(d0, e) && Inv(e)
  {
    hide Inv, RunsTo;
    OneStep(d0, d, Action.Signal);
  }

  lemma CopyOut(d0: Dev, d: Dev, i: nat, x: Word)
    requires RunsTo(d0, d) && Inv(d) && d.pc == Copy(i, x)
    ensures var e := d.(pc := Test(i + 1), user := d.user + [x]); RunsTo(d0, e) && Inv(e)
  {
    hide Inv, RunsTo;
    OneStep(d0, d, Action.Execute);
  }

  lemma CopyFails(d0: Dev, d: Dev, i: nat, x: Word)
    requires RunsTo(d0, d) && Inv(d) && d.pc == Copy(i, x)
    ensures var e := d.(pc := Returned(EFAULT)); RunsTo(d0, e) && Inv(e)
  {
    hide Inv, RunsTo;
    OneStep(d0, d, Action.Fault);
  }

  lemma UnmaskedOnce(d: Dev, i: nat)
    requires Inv(d) && d.pc == EnableIrq(i)
    ensures d.depth == 1
  {
  }

  /** The invariant gives a woken reader its word. */
  lemma WokenHasWord(d: Dev)
    requires Inv(d) && d.woken && (d.pc.Test? || d.pc.Get?)
    ensures d.fifo != []
  {
  }

  /** What the invariant says about a read that is over, and about one that waits. */
  lemma ReadOutcome(d: Dev)
    requires Inv(d)
    ensures d.pc.Returned? && d.pc.value >= 0 ==>
              && d.pc.value % 4 == 0 && d.popped == d.start + d.pc.value / 4 <= |d.pushed|
              && d.user == d.pushed[d.start..d.popped]
    ensures d.pc.Waiting? && d.irqCount == 0 ==> d.depth == 0
  {
  }

  lemma RunsThrough(d0: Dev, d: Dev, e: Dev)
    requires RunsTo(d0, d) && RunsTo(d, e)
    ensures RunsTo(d0, e)
  {
    var first :| Runs(d0, first) && After(d0, first) == d;
    var second :| Runs(d, second) && After(d, second) == e;
    RunsAppend(d0, first, second);
  }

  /** On the way to e the reader found the FIFO empty when it asked for word i. */
  ghost predicate FoundEmpty(d0: Dev, e: Dev, i: nat) {
    exists d :: RunsTo(d0, d) && d.pc == Clear(i) && d.fifo == [] && RunsTo(d, e)
  }

  /** A read hands over the word it has taken, after those before it. */
  lemma WordsSoFar(d: Dev)
    requires Inv(d)
    ensures d.pc.Copy? ==> d.popped == d.start + d.pc.i + 1 <= |d.pushed| && d.user == d.pushed[d.start..d.popped - 1]
    ensures d.pc.Waiting? ==> d.popped == d.start + d.pc.i <= |d.pushed| && d.user == d.pushed[d.start..d.popped]
  {
  }

  /** What happens besides the reader: before its n-th statement the device and the handler perform acts(n); a signal
      may end the wait, and user memory may refuse word i. */
  datatype Env = Env(acts: nat -> seq<Action>, signal: nat -> bool, fault: nat -> bool)

  /** Of the words that the read took from the FIFO all but the last are in the user's buffer, and that one user memory
      refused. */
  ghost predicate Refused(e: Dev, start: nat, words: nat, env: Env) {
    exists i: nat :: i < words && env.fault(i) && e.popped == start + i + 1 <= |e.pushed| && e.user == e.pushed[start..e.popped - 1]
  }

  /** A signal ended a wait; the words taken are in the user's buffer. */
  ghost predicate BrokenOff(e: Dev, start: nat, env: Env) {
    start <= e.popped <= |e.pushed| && e.user == e.pushed[start..e.popped] && exists n: nat :: env.signal(n)
  }

  /** What the machine knows beyond the structure: where the reader stands, and history. */
  datatype Reader = Reader(pc: Pc, words: nat, nonblocking: bool, pushed: seq<Word>, popped: nat, start: nat, woken: bool)

  /** struct fsl_dev and the FIFO. */
  class FslDevice {
    var irqCount: nat
    var irqEnabled: bool
    var depth: nat
    var fifo: seq<Word>
    var user: seq<Word>
    ghost var reader: Reader

    ghost function State(): Dev
      reads this
    {
      Dev(irqCount, irqEnabled, depth, fifo, reader.pc, reader.words, reader.nonblocking, user,
          reader.pushed, reader.popped, reader.start, reader.woken)
    }

    /** Only words were added and interrupts counted. */
    twostate predicate ReaderAsBefore()
      reads this
    {
      reader == old(reader).(pushed := reader.pushed) && user == old(user) && old(fifo) <= fifo
    }

    /** The zeroed device. */
    constructor ()
      ensures Boot(State())
    {
      irqCount, irqEnabled, depth, fifo, user := 0, false, 0, [], [];
      reader := Reader(Setup, 0, false, [], 0, 0, false);
    }

    /** fsl_interrupt; irq_count is an unsigned short */
    method Interrupt()
      requires Can(State(), Action.Interrupt)
      modifies this
      ensures State() == Do(old(State()), Action.Interrupt) && ReaderAsBefore()
    {
      irqCount := (irqCount + 1) % 0x1_0000;
      depth := depth + 1;
      irqEnabled := false;
    }

    /** the hardware side of the FIFO */
    method Push(word: Word)
      modifies this
      ensures State() == Do(old(State()), Action.Push(word)) && ReaderAsBefore()
    {
      fifo := fifo + [word];
      reader := reader.(pushed := reader.pushed + [word]);
    }

    /** The device delivers words and the handler runs whenever it can. */
    method Outside(acts: seq<Action>) returns (ghost run: seq<Action>)
      modifies this
      ensures DuringSetup(run) && Runs(old(State()), run) && After(old(State()), run) == State()
      ensures ReaderAsBefore()
    {
      hide Do, Runs, After;
      ghost var d0 := State();
      run := [];
      NoStep(d0);
      var i := 0;
      while i < |acts|
        invariant 0 <= i <= |acts|
        invariant DuringSetup(run) && Runs(d0, run) && After(d0, run) == State()
        invariant ReaderAsBefore()
      {
        if acts[i].Push? {
          ghost var more := OneMoreOutside(d0, run, acts[i]);
          Push(acts[i].word);
          run := more;
        } else if acts[i] == Action.Interrupt && depth == 0 && fifo != [] {
          ghost var more := OneMoreOutside(d0, run, acts[i]);
          Interrupt();
          run := more;
        }
        i := i + 1;
      }
    }

    /** fsl_setup_dev from request_irq on: the handler can already run before irq_enabled is set. */
    method SetUp(acts: seq<Action>)
      requires Boot(State())
      modifies this
      ensures reader.pc == Returned(0) && irqEnabled
      ensures Inv(State()) <==> irqCount == 0
      ensures irqCount > 0 ==> depth > 0
    {
      ghost var boot := State();
      ghost var run := Outside(acts);
      SetupState(boot, run);
      irqEnabled := true;
      reader := reader.(pc := Returned(0));
    }

    /** Outside between two statements of a read. */
    method Meanwhile(ghost d0: Dev, acts: seq<Action>)
      requires RunsTo(d0, State()) && Inv(State())
      modifies this
      ensures RunsTo(d0, State()) && Inv(State())
      ensures ReaderAsBefore()
    {
      hide Runs, After, Inv;
      ghost var d := State();
      ghost var run := Outside(acts);
      RunsOn(d0, d, run);
    }

    /** fsl_read. It returns a result, or is still waiting (None). A retry after a wake-up obtains a word, so the loop ends. */
    method Read(count: nat, flagNonblock: bool, env: Env) returns (result: Option<int>)
      requires Inv(State()) && reader.pc.Returned?
      modifies this
      ensures Inv(State()) && RunsTo(Do(old(State()), Action.Read(count, flagNonblock)), State())
      ensures result.Some? ==> reader.pc == Returned(result.value)
      ensures result.Some? && result.value >= 0 ==>
                && result.value % 4 == 0 && reader.popped == old(reader.popped) + result.value / 4 <= |reader.pushed|
                && user == reader.pushed[old(reader.popped)..reader.popped]
      ensures result.None? ==> reader.pc.Waiting? && irqCount == 0 && depth == 0
      ensures count % 4 != 0 <==> result == Some(EINVAL)
      // a read falls short of the count for one of three reasons
      ensures count % 4 == 0 && result.Some? && result.value != count ==>
                || (flagNonblock && 0 <= result.value < count
                    && FoundEmpty(Do(old(State()), Action.Read(count, flagNonblock)), State(), result.value / 4))
                || (result.value == EFAULT && Refused(State(), old(reader.popped), count / 4, env))
                || (result.value == ERESTARTSYS && !flagNonblock && BrokenOff(State(), old(reader.popped), env))
      // and it does not overlook them
      ensures result.Some? && result.value >= 0 ==> forall i: nat | 4 * i < result.value :: !env.fault(i)
      ensures result.None? ==> !flagNonblock && exists n: nat :: !env.signal(n)
    {
      hide Inv, RunsTo, Statement;
      ghost var d0 := Do(State(), Action.Read(count, flagNonblock));
      Enter(State(), count, flagNonblock);
      if count % 4 != 0 {
        reader := reader.(pc := Returned(EINVAL));
        return Some(EINVAL);
      }
      var numWords := count / 4;
      user := [];
      reader := reader.(pc := Test(0), words := numWords, nonblocking := flagNonblock, start := reader.popped, woken := false);
      result := ReadWords(d0, numWords, flagNonblock, env);
      ReadOutcome(State());
    }

    /** The loop of fsl_read. */
    method ReadWords(ghost d0: Dev, numWords: nat, flagNonblock: bool, env: Env) returns (result: Option<int>)
      requires RunsTo(d0, State()) && Inv(State())
      requires reader.pc == Test(0) && reader.words == numWords && reader.nonblocking == flagNonblock
      modifies this
      ensures RunsTo(d0, State()) && Inv(State()) && reader.start == old(reader.start)
      ensures if result.Some? then reader.pc == Returned(result.value) else reader.pc.Waiting? && irqCount == 0
      ensures result.Some? && result.value != 4 * numWords ==>
                || (flagNonblock && 0 <= result.value < 4 * numWords && FoundEmpty(d0, State(), result.value / 4))
                || (result.value == EFAULT && Refused(State(), reader.start, numWords, env))
                || (result.value == ERESTARTSYS && !flagNonblock && BrokenOff(State(), reader.start, env))
      ensures result.Some? && result.value >= 0 ==> forall j: nat | 4 * j < result.value :: !env.fault(j)
      ensures result.None? ==> !flagNonblock && exists n: nat :: !env.signal(n)
    {
      hide Inv, RunsTo, Do, Can;
      var i, n := 0, 0;
      while i < numWords
        invariant 0 <= i <= numWords && reader.pc == Test(i)
        invariant reader.words == numWords && reader.nonblocking == flagNonblock && reader.start == old(reader.start)
        invariant RunsTo(d0, State()) && Inv(State())
        invariant forall j: nat | j < i :: !env.fault(j)
        decreases numWords - i, if reader.woken then 0 else 1
      {
        var valid, data := GetWord(d0, i, env.acts(n));
        if !valid {
          ghost var d := State();
          RunsToSelf(d);
          var again;
          result, again := NoData(d, i, flagNonblock, env, n + 1);
          RunsThrough(d0, d, State());
          if !again {
            return;
          }
          i := i - 1;
        } else {
          var failed := CopyToUser(d0, i, data, env.acts(n + 1), env.fault(i));
          if failed {
            return Some(EFAULT);
          }
        }
        i, n := i + 1, n + 8;
      }
      LoopEnds(d0, State(), i);
      reader := reader.(pc := Returned(4 * numWords));
      return Some(4 * numWords);
    }

    /** The test of the loop, then ngetfsl. */
    method GetWord(ghost d0: Dev, i: nat, acts: seq<Action>) returns (valid: bool, data: Word)
      requires RunsTo(d0, State()) && Inv(State()) && reader.pc == Test(i) && i < reader.words
      modifies this
      ensures RunsTo(d0, State()) && Inv(State())
      ensures reader == old(reader).(pc := reader.pc, pushed := reader.pushed, popped := reader.popped, woken := false)
      ensures reader.pc == if valid then Copy(i, data) else Clear(i)
      ensures !valid ==> fifo == []
      ensures old(reader.woken) ==> valid
    {
      hide Inv, RunsTo, Do, Can;
      LoopGoesOn(d0, State(), i);
      reader := reader.(pc := Get(i));
      Meanwhile(d0, acts);
      if reader.woken {
        WokenHasWord(State());
      }
      if fifo == [] {
        GetNothing(d0, State(), i);
        reader := reader.(pc := Clear(i), woken := false);
        return false, 0;
      }
      GetSomething(d0, State(), i);
      valid, data := true, fifo[0];
      fifo := fifo[1..];
      reader := reader.(pc := Copy(i, data), popped := reader.popped + 1, woken := false);
    }

    method CopyToUser(ghost d0: Dev, i: nat, data: Word, acts: seq<Action>, fault: bool) returns (failed: bool)
      requires RunsTo(d0, State()) && Inv(State()) && reader.pc == Copy(i, data)
      modifies this
      ensures RunsTo(d0, State()) && Inv(State()) && failed == fault
      ensures failed ==> reader.popped == reader.start + i + 1 <= |reader.pushed| && user == reader.pushed[reader.start..reader.popped - 1]
      ensures reader == old(reader).(pc := if failed then Returned(EFAULT) else Test(i + 1), pushed := reader.pushed)
    {
      hide Inv, RunsTo, Do, Can;
      Meanwhile(d0, acts);
      WordsSoFar(State());
      if fault {
        CopyFails(d0, State(), i, data);
        reader := reader.(pc := Returned(EFAULT));
        return true;
      }
      CopyOut(d0, State(), i, data);
      user := user + [data];
      reader := reader.(pc := Test(i + 1));
      return false;
    }

    /** The branch of fsl_read that finds the FIFO empty: it returns a result, is still waiting, or was woken and
        the word is to be read again. */
    method NoData(ghost d0: Dev, i: nat, flagNonblock: bool, env: Env, n: nat)
      returns (result: Option<int>, again: bool)
      requires RunsTo(d0, State()) && Inv(State()) && reader.pc == Clear(i) && !reader.woken && reader.nonblocking == flagNonblock
      modifies this
      ensures RunsTo(d0, State()) && Inv(State())
      ensures reader == old(reader).(pc := reader.pc, pushed := reader.pushed, woken := again)
      ensures result.Some? ==> reader.pc == Returned(result.value)
      ensures if again then result == None && reader.pc == Test(i)
              else result.None? ==> reader.pc == Waiting(i) && irqCount == 0
      ensures flagNonblock ==> result == Some(4 * i)
      ensures !flagNonblock && !env.signal(n) ==> result == None
      ensures !flagNonblock && env.signal(n) ==>
                result == Some(ERESTARTSYS) && reader.start <= reader.popped <= |reader.pushed| && user == reader.pushed[reader.start..reader.popped]
    {
      hide Inv, RunsTo, Do, Can;
      Meanwhile(d0, env.acts(n));
      ClearCount(d0, State(), i);
      irqCount := 0;
      reader := reader.(pc := NonBlock(i));
      Meanwhile(d0, env.acts(n + 1));
      if flagNonblock {
        GiveUp(d0, State(), i);
        reader := reader.(pc := Returned(4 * i));
        return Some(4 * i), false;
      }
      Block(d0, State(), i);
      reader := reader.(pc := TestEnabled(i));
      EnsureUnmasked(d0, i, env.acts(n + 2), env.acts(n + 3), env.acts(n + 4));
      Meanwhile(d0, env.acts(n + 5));
      WordsSoFar(State());
      if env.signal(n) {
        Interrupted(d0, State(), i);
        reader := reader.(pc := Returned(ERESTARTSYS));
        return Some(ERESTARTSYS), false;
      }
      if irqCount == 0 {
        return None, false;
      }
      Wake(d0, State(), i);
      reader := reader.(pc := Test(i), woken := true);
      return None, true;
    }

    /** if(!dev->irq_enabled) { irq_enabled = 1; enable_irq } */
    method EnsureUnmasked(ghost d0: Dev, i: nat, acts1: seq<Action>, acts2: seq<Action>, acts3: seq<Action>)
      requires RunsTo(d0, State()) && Inv(State()) && reader.pc == TestEnabled(i)
      modifies this
      ensures RunsTo(d0, State()) && Inv(State())
      ensures reader == old(reader).(pc := Waiting(i), pushed := reader.pushed)
    {
      hide Inv, RunsTo, Do, Can;
      Meanwhile(d0, acts1);
      Enabled(d0, State(), i);
      if !irqEnabled {
        reader := reader.(pc := SetEnabled(i));
        Meanwhile(d0, acts2);
        Flag(d0, State(), i);
        irqEnabled := true;
        reader := reader.(pc := EnableIrq(i));
        Meanwhile(d0, acts3);
        Unmask(d0, State(), i);
        depth := depth - 1;
        reader := reader.(pc := Waiting(i));
      } else {
        reader := reader.(pc := Waiting(i));
      }
    }
  }

  /** The entry of a read. */
  lemma Enter(d: Dev, count: nat, nb: bool)
    requires Inv(d) && d.pc.Returned?
    ensures var e := Do(d, Read(count, nb)); RunsTo(e, e) && Inv(e)
  {
    RunsToSelf(Do(d, Read(count, nb)));
    hide Inv, RunsTo, Runs, After;
    StepKeepsInv(d, Read(count, nb));
  }

  lemma NoStep(d: Dev)
    ensures DuringSetup([]) && Runs(d, []) && After(d, []) == d
  {
  }

  lemma OneMoreOutside(d: Dev, run: seq<Action>, a: Action) returns (longer: seq<Action>)
    requires DuringSetup(run) && Runs(d, run) && Can(After(d, run), a) && (a.Push? || a == Interrupt)
    ensures DuringSetup(longer) && Runs(d, longer) && After(d, longer) == Do(After(d, run), a)
  {
    hide Runs, After, Do;
    longer := run + [a];
    OneMoreStep(d, run, a);
  }

  lemma OneMoreStep(d: Dev, run: seq<Action>, a: Action)
    requires Runs(d, run) && Can(After(d, run), a)
    ensures Runs(d, run + [a]) && After(d, run + [a]) == Do(After(d, run), a)
  {
    var e := After(d, run);
    assert Runs(Do(e, a), []) && [a][1..] == [];
    assert Runs(e, [a]) && After(e, [a]) == Do(e, a);
    RunsAppend(d, run, [a]);
  }

  lemma RunsOn(d0: Dev, d: Dev, run: seq<Action>)
    requires RunsTo(d0, d) && Inv(d) && Runs(d, run)
    ensures RunsTo(d0, After(d, run)) && Inv(After(d, run))
  {
    hide Inv;
    var first :| Runs(d0, first) && After(d0, first) == d;
    RunsAppend(d0, first, run);
    RunKeepsInv(d, run);
  }

  /** The master side: a FIFO of limited capacity. */
  class FslMaster {
    const capacity: nat
    var fifo: seq<Word>

    constructor (capacity: nat)
      ensures this.capacity == capacity && fifo == []
    {
      this.capacity := capacity;
      fifo := [];
    }

    /** nputfsl: 0 if the word was taken, 1 if the FIFO is full */
    method Put(word: Word) returns (invalid: bool)
      modifies this
      ensures invalid <==> |old(fifo)| >= capacity
      ensures fifo == if invalid then old(fifo) else old(fifo) + [word]
    {
      invalid := |fifo| >= capacity;
      if !invalid {
        fifo := fifo + [word];
      }
    }

    /** fsl_write: stops at the first word that user memory does not yield (a fault) or the FIFO does
        not take, and reports the bytes written only in the second case. */
    method Write(buf: seq<Word>, count: nat, faultAt: nat) returns (result: int)
      requires count / 4 <= |buf| && |fifo| <= capacity
      modifies this
      ensures |fifo| <= capacity
      ensures count % 4 != 0 ==> result == EINVAL && fifo == old(fifo)
      ensures count % 4 == 0 ==>
                var room, n := capacity - |old(fifo)|, count / 4;
                && fifo == old(fifo) + buf[..Least(n, room, faultAt)]
                && result == (if n <= room && n <= faultAt then count else if faultAt <= room then EFAULT else 4 * room)
    {
      if count % 4 != 0 {
        return EINVAL;
      }
      var numWords := count / 4;
      if numWords == 0 {
        return 0;
      }
      ghost var was := fifo;
      var i := 0;
      while i < numWords
        invariant 0 <= i <= numWords && i <= faultAt && i <= capacity - |was|
        invariant fifo == was + buf[..i]
      {
        if i == faultAt {
          return EFAULT;
        }
        var invalid := Put(buf[i]);
        if invalid {
          return 4 * i;
        }
        i := i + 1;
      }
      return count;
    }
  }

  function Least(a: nat, b: int, c: nat): int {
    if a <= b && a <= c then a else if b <= c then b else c
  }
}
