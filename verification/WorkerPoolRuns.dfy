// Whole runs of the sort demo: safety in every reachable state, no deadlock, termination.
module WorkerPoolRuns {
  import opened Words
  import opened Sorting
  import opened MB = Mailbox
  import opened WorkerPool
  import opened WorkerPoolProof

  // ---- Runs ----

  /** The threads named in the schedule can take their steps one after the other. */
  predicate Runs(c: Config, s: State, schedule: seq<nat>)
    decreases |schedule|
  {
    schedule == [] ||
    (Shape(c, s) && PoolSafe(c, s, schedule[0]) && PoolEnabled(c, s, schedule[0])
     && Runs(c, PoolStep(c, s, schedule[0]), schedule[1..]))
  }

  function After(c: Config, s: State, schedule: seq<nat>): State
    requires Runs(c, s, schedule)
    decreases |schedule|
  {
    if schedule == [] then s else After(c, PoolStep(c, s, schedule[0]), schedule[1..])
  }

  ghost predicate Reachable(c: Config, s: State, s': State) {
    exists schedule :: Runs(c, s, schedule) && After(c, s, schedule) == s'
  }

  /** No thread can execute anything. */
  predicate Stuck(c: Config, s: State)
    requires Shape(c, s)
  {
    forall t: nat | t <= c.workers :: !PoolEnabled(c, s, t)
  }

  lemma {:induction false} RunKeepsPoolInv(c: Config, s: State, schedule: seq<nat>)
    requires PoolInv(c, s) && Runs(c, s, schedule)
    ensures PoolInv(c, After(c, s, schedule))
    decreases |schedule|
  {
    if schedule != [] {
      StepKeepsPoolInv(c, s, schedule[0]);
      RunKeepsPoolInv(c, PoolStep(c, s, schedule[0]), schedule[1..]);
    }
  }

  // ---- Every run is finite ----

  /** Statements left in main's current call, counting the call itself and the return. */
  function CallRank(op: Op): (r: nat)
    ensures 1 <= r <= 9
  {
    match op
    case Idle => 9
    case PutDone => 1
    case GetDone(_) => 1
    case _ => 2 + Left(op)
  }

  function MainRank(c: Config, m: Main, p: Op, q: Op): nat {
    var b, w, e := |c.blocks|, c.workers, c.exits;
    match m
    case Creating(i) => (if i <= w then w - i else 0) + 20 * b + 10 * e + w + 60
    case Putting(i) => (if i <= b then 10 * (b - i) else 0) + CallRank(p) + 10 * b + 10 * e + w + 50
    case Collecting(i) => (if i <= b then 10 * (b - i) else 0) + CallRank(q) + 10 * e + w + 35
    case Merging => 10 * e + w + 30
    case Killing(i) => (if i <= e then 10 * (e - i) else 0) + CallRank(p) + w + 15
    case Joining(i) => (if i <= w then w - i else 0) + 5
    case Finished => 0
  }

  /** Steps of a worker until its next load from mb_start, or until it is back there. */
  function WorkerRank(k: Worker, p: Op, q: Op): (r: nat)
    ensures r <= 19
  {
    match k
    case Exited => 0
    case Top => 5
    case Getting => (match p case GetLock => 4 case GetWait => 3 case GetLoad => 2
                     case GetAdvance(_) => 19 case GetPost(_) => 18 case GetUnlock(_) => 17 case _ => 16)
    case Sorting(_) => 15
    case Acking => if q.PutDone? then 8 else 8 + Left(q)
  }

  function WorkerRanks(ks: seq<Worker>, ps: seq<Op>, qs: seq<Op>): seq<nat>
    requires |ks| <= |ps| && |ks| <= |qs|
  {
    seq(|ks|, w requires 0 <= w < |ks| => WorkerRank(ks[w], ps[w], qs[w]))
  }

  /** Messages of mb_start that nobody has loaded yet. */
  function Untaken(c: Config, s: State): nat {
    if |s.start.taken| <= |c.blocks| + c.exits then |c.blocks| + c.exits - |s.start.taken| else 0
  }

  function Rank(c: Config, s: State): nat
    requires Shape(c, s)
  {
    20 * Untaken(c, s) + MainRank(c, s.main, s.startOps[c.workers], s.stopOps[c.workers])
    + Sum(WorkerRanks(s.workers, s.startOps, s.stopOps))
  }

  lemma WorkerRanksUpdate(ks: seq<Worker>, ps: seq<Op>, qs: seq<Op>, w: nat, k: Worker, p: Op, q: Op)
    requires w < |ks| && |ks| <= |ps| && |ks| <= |qs|
    ensures Sum(WorkerRanks(ks[w := k], ps[w := p], qs[w := q]))
         == Sum(WorkerRanks(ks, ps, qs)) - WorkerRank(ks[w], ps[w], qs[w]) + WorkerRank(k, p, q)
  {
    assert WorkerRanks(ks[w := k], ps[w := p], qs[w := q]) == WorkerRanks(ks, ps, qs)[w := WorkerRank(k, p, q)];
    SumUpdate(WorkerRanks(ks, ps, qs), w, WorkerRank(k, p, q));
  }

  lemma StartStoredBound(c: Config, s: State)
    requires PoolInv(c, s)
    ensures |s.start.taken| <= |s.start.stored| <= |c.blocks| + c.exits
  {
    hide Blocks, Acknowledged, Pills;
  }

  /** A worker's own measure drops, except that a load pays with one untaken message. */
  lemma WorkerRankDrops(c: Config, s: State, w: nat)
    requires PoolInv(c, s) && w < c.workers && PoolSafe(c, s, w) && PoolEnabled(c, s, w)
    ensures Shape(c, WorkerStep(c, s, w))
    ensures var s' := WorkerStep(c, s, w);
            WorkerRank(s'.workers[w], s'.startOps[w], s'.stopOps[w]) + 20 * Untaken(c, s')
            < WorkerRank(s.workers[w], s.startOps[w], s.stopOps[w]) + 20 * Untaken(c, s)
  {
    hide MB.Inv, Blocks, Acknowledged, Pills, Histories, Handed;
    if s.workers[w].Getting? && !s.startOps[w].GetDone? {
      StepHistory(s.start, s.startOps, w);
      StartStoredBound(c, s);
    }
  }

  lemma WorkerStepLowersRank(c: Config, s: State, w: nat)
    requires PoolInv(c, s) && Shape(c, s) && w < c.workers && PoolSafe(c, s, w) && PoolEnabled(c, s, w)
    ensures Shape(c, WorkerStep(c, s, w)) && Rank(c, WorkerStep(c, s, w)) < Rank(c, s)
  {
    hide PoolInv, WorkerRank, Untaken;
    WorkerRankDrops(c, s, w);
    var s' := WorkerStep(c, s, w);
    assert s.workers[w := s'.workers[w]] == s'.workers;
    assert s.startOps[w := s'.startOps[w]] == s'.startOps;
    assert s.stopOps[w := s'.stopOps[w]] == s'.stopOps;
    WorkerRanksUpdate(s.workers, s.startOps, s.stopOps, w, s'.workers[w], s'.startOps[w], s'.stopOps[w]);
  }

  lemma MainRankDrops(c: Config, s: State)
    requires PoolInv(c, s) && Shape(c, s) && PoolSafe(c, s, c.workers) && PoolEnabled(c, s, c.workers)
    ensures Shape(c, MainStep(c, s))
    ensures var t, s' := c.workers, MainStep(c, s);
            MainRank(c, s'.main, s'.startOps[t], s'.stopOps[t]) < MainRank(c, s.main, s.startOps[t], s.stopOps[t])
  {
    hide PoolInv, PoolSafe, PoolEnabled, MainStep, MainRank;
    if MainInCall(c, s) {
      CallLowersMainRank(c, s);
    } else {
      MoveLowersMainRank(c, s);
    }
  }

  /** The next statement of main is one inside a mailbox operation. */
  predicate MainInCall(c: Config, s: State)
    requires Shape(c, s)
  {
    var p, q := s.startOps[c.workers], s.stopOps[c.workers];
    ((s.main.Putting? || s.main.Killing?) && !p.Idle? && !p.PutDone?) || (s.main.Collecting? && !q.Idle? && !q.GetDone?)
  }

  lemma CallLowersMainRank(c: Config, s: State)
    requires Shape(c, s) && PoolSafe(c, s, c.workers) && PoolEnabled(c, s, c.workers) && MainInCall(c, s)
    ensures Shape(c, MainStep(c, s))
    ensures var t, s' := c.workers, MainStep(c, s);
            MainRank(c, s'.main, s'.startOps[t], s'.stopOps[t]) < MainRank(c, s.main, s.startOps[t], s.stopOps[t])
  {
    hide MainFits, MB.Step;
    var t := c.workers;
    StatementLowersCallRank(s.start, t, s.startOps[t]);
    StatementLowersCallRank(s.stop, t, s.stopOps[t]);
  }

  lemma MoveLowersMainRank(c: Config, s: State)
    requires PoolInv(c, s) && PoolSafe(c, s, c.workers) && PoolEnabled(c, s, c.workers) && !MainInCall(c, s)
    ensures Shape(c, MainStep(c, s))
    ensures var t, s' := c.workers, MainStep(c, s);
            MainRank(c, s'.main, s'.startOps[t], s'.stopOps[t]) < MainRank(c, s.main, s.startOps[t], s.stopOps[t])
  {
    hide MB.Inv, Blocks, Acknowledged, Pills, Histories, Handed, Fitted, Lifetimes, MainFits, MB.Step;
  }

  lemma StatementLowersCallRank(mb: Mbox, t: nat, op: Op)
    ensures MB.Enabled(mb, op) && MB.Safe(mb, op) ==> CallRank(MB.Step(mb, t, op).1) < CallRank(op)
  {
  }

  lemma MainTakesNoJob(c: Config, s: State)
    requires PoolInv(c, s) && PoolSafe(c, s, c.workers) && PoolEnabled(c, s, c.workers)
    ensures MainStep(c, s).start.taken == s.start.taken && MainStep(c, s).workers == s.workers
  {
    hide MB.Inv, Blocks, Acknowledged, Pills, Histories, Handed;
  }

  lemma MainStepLowersRank(c: Config, s: State)
    requires PoolInv(c, s) && Shape(c, s) && PoolSafe(c, s, c.workers) && PoolEnabled(c, s, c.workers)
    ensures Shape(c, MainStep(c, s)) && Rank(c, MainStep(c, s)) < Rank(c, s)
  {
    hide PoolInv, MainRank;
    MainRankDrops(c, s);
    MainTakesNoJob(c, s);
    var s' := MainStep(c, s);
    assert WorkerRanks(s'.workers, s'.startOps, s'.stopOps) == WorkerRanks(s.workers, s.startOps, s.stopOps);
  }

  /** Every step of every thread lowers one common measure. */
  lemma StepLowersRank(c: Config, s: State, t: nat)
    requires PoolInv(c, s) && Shape(c, s) && PoolSafe(c, s, t) && PoolEnabled(c, s, t)
    ensures Shape(c, PoolStep(c, s, t)) && Rank(c, PoolStep(c, s, t)) < Rank(c, s)
  {
    hide PoolInv, Rank, PoolEnabled, WorkerStep, MainStep;
    if t < c.workers {
      WorkerStepLowersRank(c, s, t);
    } else {
      MainStepLowersRank(c, s);
    }
  }

  /** Hence the length of every run is bounded by the measure of its first state. */
  lemma {:induction false} RunsAreFinite(c: Config, s: State, schedule: seq<nat>)
    requires PoolInv(c, s) && Runs(c, s, schedule)
    ensures |schedule| <= Rank(c, s)
    decreases |schedule|
  {
    if schedule != [] {
      StepKeepsPoolInv(c, s, schedule[0]);
      StepLowersRank(c, s, schedule[0]);
      RunsAreFinite(c, PoolStep(c, s, schedule[0]), schedule[1..]);
    }
  }

  // ---- No deadlock ----

  /** Worker w cannot execute and waits for a job. */
  predicate AwaitsJob(s: State, w: nat)
    requires w < |s.workers| && w < |s.startOps|
  {
    s.workers[w].Getting? && (s.startOps[w].GetLock? || s.startOps[w].GetWait?)
  }

  /** mb_stop never blocks a worker that has an acknowledgement to put. */
  lemma AckingCanStep(c: Config, s: State, w: nat) returns (u: nat)
    requires PoolInv(c, s) && !s.main.Creating? && w < c.workers && s.workers[w].Acking?
    ensures u < c.workers && PoolEnabled(c, s, u)
  {
    hide Blocks, Pills, Handed;
    if s.stopOps[w].PutDone? {
      return w;
    }
    var flags := AckFlags(s.workers, s.stopOps);
    CountNone(flags);
    if s.stopOps[w].Unstored() {
      assert flags[w];
      assert |s.stop.stored| < |c.blocks|;
      assert s.stopOps[w].PutStore? || s.stop.mutexWrite.Some? || s.stop.semWrite > 0;
    }
    u := SomePutterCanStep(s.stop, s.stopOps, w);
    assert u != c.workers;
  }

  /** A worker waiting for a job can go on, or another one in its way can, as soon as a job is posted. */
  lemma GettingCanStep(c: Config, s: State, w: nat) returns (u: nat)
    requires PoolInv(c, s) && !s.main.Creating? && w < c.workers && AwaitsJob(s, w) && s.start.semRead > 0
    ensures u < c.workers && PoolEnabled(c, s, u)
  {
    hide Blocks, Pills, Acknowledged, Handed;
    u := SomeGetterCanStep(s.start, s.startOps, w);
    assert u != c.workers;
  }

  /** Unless some worker can execute, every worker has exited or waits for a job. */
  lemma WorkersWait(c: Config, s: State)
    requires PoolInv(c, s) && !s.main.Creating? && forall w: nat | w < c.workers :: !PoolEnabled(c, s, w)
    ensures forall w: nat | w < c.workers :: s.workers[w].Exited? || AwaitsJob(s, w)
    ensures Count(AckFlags(s.workers, s.stopOps)) == 0
  {
    hide MB.Inv, Blocks, Pills, Acknowledged, Handed, Histories;
    forall w: nat | w < c.workers ensures s.workers[w].Exited? || AwaitsJob(s, w) {
      assert WorkerOps(s.workers[w], s.startOps[w], s.stopOps[w]);
      assert !PoolEnabled(c, s, w);
      if s.workers[w].Acking? {
        var u := AckingCanStep(c, s, w);
      }
    }
    CountNone(AckFlags(s.workers, s.stopOps));
  }

  /** Then nobody is inside the critical sections that only workers enter, except at their entry. */
  lemma WaitingWorkersHoldNothing(c: Config, s: State)
    requires PoolInv(c, s) && forall w: nat | w < c.workers :: s.workers[w].Exited? || AwaitsJob(s, w)
    ensures var g := Getter(s.start, s.startOps); g.Idle? || g.GetWait?
    ensures Putter(s.stop, s.stopOps).Idle?
  {
    hide Blocks, Pills, Acknowledged, Handed, Histories;
    forall w: nat | w < c.workers ensures s.startOps[w].HoldsRead() ==> s.startOps[w].GetWait? {
      assert WorkerOps(s.workers[w], s.startOps[w], s.stopOps[w]);
    }
    NobodyAcknowledges(c, s);
  }

  lemma NobodyAcknowledges(c: Config, s: State)
    requires PoolInv(c, s) && forall w: nat | w < c.workers :: !s.workers[w].Acking?
    ensures Putter(s.stop, s.stopOps).Idle?
  {
    hide Blocks, Pills, Acknowledged, Handed, Histories;
    forall w: nat | w < c.workers ensures s.stopOps[w].Idle? {
      assert WorkerOps(s.workers[w], s.startOps[w], s.stopOps[w]);
    }
  }

  /** The waiting workers hold nothing, so the exit commands taken are those of the exited workers. */
  lemma SomeWorkerAwaits(c: Config, s: State) returns (w: nat)
    requires PoolInv(c, s) && forall w: nat | w < c.workers :: s.workers[w].Exited? || AwaitsJob(s, w)
    requires c.workers > 0 && |s.start.taken| < |c.blocks| + c.workers
    ensures w < c.workers && AwaitsJob(s, w)
  {
    hide MB.Inv, Blocks, Acknowledged, Handed;
    var flags := PillFlags(s.workers, s.startOps);
    CountAll(flags);
    w :| w < c.workers && !flags[w];
  }

  lemma PuttingIsNotStuck(c: Config, s: State)
    requires PoolInv(c, s) && s.main.Putting?
    ensures PoolEnabled(c, s, c.workers)
  {
    hide Blocks, Pills, Acknowledged, Handed;
    var t := c.workers;
    if s.startOps[t].IsPut() && !s.startOps[t].PutDone? {
      assert s.startOps[t].Unstored() ==> s.start.semWrite > 0 || s.startOps[t].PutStore?;
      var u := SomePutterCanStep(s.start, s.startOps, t);
      assert u == t;
    }
  }

  lemma CollectingIsNotStuck(c: Config, s: State) returns (u: nat)
    requires PoolInv(c, s) && s.main.Collecting? && c.workers > 0
    ensures u <= c.workers && PoolEnabled(c, s, u)
  {
    if t: nat :| t <= c.workers && PoolEnabled(c, s, t) {
      return t;
    }
    WorkersWait(c, s);
    WaitingWorkersHoldNothing(c, s);
    MainAwaitsAck(c, s);
    UnsortedIsQueued(c, s);
    var w := SomeWorkerAwaits(c, s);
    JobsLeft(c, s);
    u := GettingCanStep(c, s, w);
  }

  /** If main blocks while collecting, all stored acknowledgements have been collected. */
  lemma MainAwaitsAck(c: Config, s: State)
    requires PoolInv(c, s) && s.main.Collecting? && !PoolEnabled(c, s, c.workers)
    requires Putter(s.stop, s.stopOps).Idle?
    ensures |s.stop.stored| == |s.stop.taken| < |c.blocks|
  {
    hide Blocks, Pills, Acknowledged, Handed;
    var t := c.workers;
    assert s.stopOps[t].GetLock? || s.stopOps[t].GetWait?;
  }

  /** An unsorted block that no worker holds is still in mb_start. */
  lemma UnsortedIsQueued(c: Config, s: State)
    requires PoolInv(c, s) && |s.stop.stored| < |c.blocks| && Count(AckFlags(s.workers, s.stopOps)) == 0
    requires forall w: nat | w < c.workers :: s.workers[w].Exited? || AwaitsJob(s, w)
    ensures |s.start.taken| < |c.blocks|
  {
    hide MB.Inv, Pills, Handed;
    var flags := DoneFlags(s.status);
    CountAll(flags);
    var j: nat :| j < |flags| && !flags[j];
  }

  lemma JobsLeft(c: Config, s: State)
    requires PoolInv(c, s)
    requires !Getter(s.start, s.startOps).GetLoad? && !Putter(s.start, s.startOps).PutAdvance? && !Putter(s.start, s.startOps).PutPost?
    requires |s.start.taken| < |s.start.stored|
    ensures s.start.semRead > 0
  {
  }

  lemma KillingIsNotStuck(c: Config, s: State) returns (u: nat)
    requires PoolInv(c, s) && s.main.Killing? && |c.blocks| > 0
    ensures u <= c.workers && PoolEnabled(c, s, u)
  {
    if t: nat :| t <= c.workers && PoolEnabled(c, s, t) {
      return t;
    }
    WorkersWait(c, s);
    WaitingWorkersHoldNothing(c, s);
    MainAwaitsRoom(c, s);
    var w := SomeWorkerAwaits(c, s);
    u := GettingCanStep(c, s, w);
  }

  /** If main blocks while sending exit commands, mb_start is full. */
  lemma MainAwaitsRoom(c: Config, s: State)
    requires PoolInv(c, s) && s.main.Killing? && |c.blocks| > 0 && !PoolEnabled(c, s, c.workers)
    requires var g := Getter(s.start, s.startOps); g.Idle? || g.GetWait?
    ensures s.start.semRead > 0 && |s.start.taken| < |c.blocks| + c.workers
  {
    hide Blocks, Pills, Acknowledged, Handed;
    var t := c.workers;
    assert s.startOps[t].PutLock? || s.startOps[t].PutWait?;
  }

  lemma JoiningIsNotStuck(c: Config, s: State) returns (u: nat)
    requires PoolInv(c, s) && s.main.Joining? && c.exits == c.workers
    ensures u <= c.workers && PoolEnabled(c, s, u)
  {
    if t: nat :| t <= c.workers && PoolEnabled(c, s, t) {
      return t;
    }
    WorkersWait(c, s);
    WaitingWorkersHoldNothing(c, s);
    MainAwaitsExit(c, s);
    ExitCommandsLeft(c, s);
    NobodyPutsJobs(c, s);
    JobsLeft(c, s);
    u := GettingCanStep(c, s, s.main.i);
  }

  lemma MainAwaitsExit(c: Config, s: State)
    requires PoolInv(c, s) && s.main.Joining? && !PoolEnabled(c, s, c.workers)
    ensures s.main.i < c.workers && !s.workers[s.main.i].Exited?
  {
    hide MB.Inv, Blocks, Pills, Acknowledged, Handed, Histories;
  }

  /** While some worker has not exited, an exit command is left for it. */
  lemma ExitCommandsLeft(c: Config, s: State)
    requires PoolInv(c, s) && s.main.Joining? && s.main.i < c.workers && AwaitsJob(s, s.main.i) && c.exits == c.workers
    ensures |s.start.taken| < |s.start.stored|
  {
    hide MB.Inv, Blocks, Acknowledged, Handed, Fitted, Lifetimes;
    var flags := PillFlags(s.workers, s.startOps);
    CountAll(flags);
    assert !flags[s.main.i];
  }

  lemma NobodyPutsJobs(c: Config, s: State)
    requires PoolInv(c, s) && s.main.Joining?
    ensures Putter(s.start, s.startOps).Idle?
  {
    hide Blocks, Pills, Acknowledged, Handed, Histories, Fitted, Lifetimes;
  }

  /** There are blocks and workers or neither, and main puts as many exit commands as there are workers. */
  predicate Balanced(c: Config) { (|c.blocks| > 0 <==> c.workers > 0) && c.exits == c.workers }

  /** Then the only stuck state is the final one. */
  lemma OnlyFinishedIsStuck(c: Config, s: State)
    requires PoolInv(c, s) && Balanced(c)
    ensures Stuck(c, s) <==> s.main.Finished?
  {
    if s.main.Finished? {
      FinishedIsStuck(c, s);
    } else {
      match s.main {
        case Creating(_) => assert PoolEnabled(c, s, c.workers);
        case Putting(_) => PuttingIsNotStuck(c, s);
        case Collecting(_) =>
          if c.workers > 0 {
            var u := CollectingIsNotStuck(c, s);
          } else {
            NothingToDo(c, s);
          }
        case Merging => assert PoolEnabled(c, s, c.workers);
        case Killing(_) =>
          if c.workers > 0 {
            var u := KillingIsNotStuck(c, s);
          } else {
            NothingToDo(c, s);
          }
        case Joining(_) => var u := JoiningIsNotStuck(c, s);
      }
    }
  }

  lemma FinishedIsStuck(c: Config, s: State)
    requires PoolInv(c, s) && s.main.Finished?
    ensures Stuck(c, s)
  {
    hide MB.Inv, Blocks, Pills, Acknowledged, Handed, Histories;
  }

  lemma NothingToDo(c: Config, s: State)
    requires PoolInv(c, s) && |c.blocks| == 0 && c.workers == 0 && (s.main.Collecting? || s.main.Killing?)
    ensures PoolEnabled(c, s, 0)
  {
    hide MB.Inv, Blocks, Pills, Acknowledged, Handed, Histories;
  }

  /** Every run can be continued to a state in which nobody can execute or main lacks what it needs. */
  lemma {:induction false} RunsEnd(c: Config, s: State) returns (schedule: seq<nat>)
    requires PoolInv(c, s)
    ensures Runs(c, s, schedule) && Shape(c, After(c, s, schedule))
    ensures Stuck(c, After(c, s, schedule)) || !MainFits(c, After(c, s, schedule).main)
    decreases Rank(c, s)
  {
    if Stuck(c, s) || !MainFits(c, s.main) {
      return [];
    }
    var t: nat :| t <= c.workers && PoolEnabled(c, s, t);
    PoolInvIsSafe(c, s, t);
    StepKeepsPoolInv(c, s, t);
    StepLowersRank(c, s, t);
    var rest := RunsEnd(c, PoolStep(c, s, t));
    schedule := [t] + rest;
    assert schedule[1..] == rest;
  }

  /** Blocks without a worker are never acknowledged, workers without a block never get their exit command, and neither
      do all of them if a negative number is counted among the running threads. */
  lemma LopsidedNeverFinishes(c: Config, s: State)
    requires PoolInv(c, s) && !Balanced(c)
    ensures !s.main.Finished?
  {
    hide PoolInv;
    if s.main.Finished? {
      if |c.blocks| > 0 {
        SortedByNobody(c, s);
      } else {
        NothingIsPut(c, s);
      }
      ExitedTookOnePillEach(c, s);
    }
  }

  /** mb_start of size 0 never takes an exit command. */
  lemma NothingIsPut(c: Config, s: State)
    requires PoolInv(c, s) && |c.blocks| == 0 && s.main.Finished?
    ensures c.exits == 0
  {
    hide Blocks, Pills, Acknowledged, Handed;
  }

  lemma SortedByNobody(c: Config, s: State)
    requires PoolInv(c, s) && |c.blocks| > 0 && s.main.Finished?
    ensures c.workers > 0
  {
    hide Pills, Handed;
    var flags := DoneFlags(s.status);
    CountNone(flags);
    assert s.stop.taken <= s.stop.stored;
  }

  /** All threads can go on safely, and whoever cannot go on has come to the end. */
  ghost predicate SafeAndLive(c: Config, s: State) {
    && Shape(c, s)
    && (forall t: nat | t <= c.workers :: PoolSafe(c, s, t))
    && (Stuck(c, s) ==> s.main.Finished?)
  }

  /** What the caller can see before the program starts: no more threads than there are handles and slots, sizes that
      fit into an int, and workers, neither number negative, for a power of two of blocks, or neither workers nor blocks. */
  ghost predicate CanFinish(c: Config) {
    && ThreadsFit(c) && c.IntsFit()
    && (|| (c.hwThreads >= 0 && c.swThreads >= 0 && c.hwThreads + c.swThreads > 0 && IsPowerOfTwo(|c.blocks|))
        || (c.hwThreads <= 0 && c.swThreads <= 0 && |c.blocks| == 0))
  }

  lemma CanFinishParts(c: Config)
    requires c.Valid()
    ensures CanFinish(c) <==> ThreadsFit(c) && c.IntsFit() && MergeFits(c) && Balanced(c)
  {
    hide MergeFits, ThreadsFit, Config.IntsFit;
    MergeFitsIff(c);
    assert !IsPowerOfTwo(0);
  }

  /** Shutdown: every reachable state of the sort demo is safe and no run gets stuck before its last join,
      under exactly that condition. */
  lemma ShutdownIff(c: Config, s0: State)
    requires c.Valid() && PoolInit(c, s0)
    ensures (forall s | Reachable(c, s0, s) :: SafeAndLive(c, s)) <==> CanFinish(c)
  {
    hide MergeFits, PoolSafe, CanFinish, PoolInv, Balanced, ThreadsFit, Config.IntsFit;
    PoolInitEstablishesInv(c, s0);
    CanFinishParts(c);
    if CanFinish(c) {
      forall s | Reachable(c, s0, s) ensures SafeAndLive(c, s) {
        var schedule :| Runs(c, s0, schedule) && After(c, s0, schedule) == s;
        RunKeepsPoolInv(c, s0, schedule);
        InvIsSafeAndLive(c, s);
      }
    } else {
      var schedule := RunsEnd(c, s0);
      RunKeepsPoolInv(c, s0, schedule);
      var s := After(c, s0, schedule);
      assert Reachable(c, s0, s);
      NotSafeAndLive(c, s);
    }
  }

  lemma InvIsSafeAndLive(c: Config, s: State)
    requires PoolInv(c, s) && ThreadsFit(c) && c.IntsFit() && MergeFits(c) && Balanced(c)
    ensures SafeAndLive(c, s)
  {
    hide MergeFits, PoolSafe, ThreadsFit, Balanced, Config.IntsFit;
    ThreadsFitIff(c);
    forall t: nat | t <= c.workers ensures PoolSafe(c, s, t) {
      PoolInvIsSafe(c, s, t);
    }
    OnlyFinishedIsStuck(c, s);
  }

  lemma NotSafeAndLive(c: Config, s: State)
    requires PoolInv(c, s) && Shape(c, s) && (Stuck(c, s) || !MainFits(c, s.main))
    requires !(ThreadsFit(c) && c.IntsFit() && MergeFits(c) && Balanced(c))
    ensures !SafeAndLive(c, s)
  {
    hide MergeFits, PoolSafe, PoolInv, Stuck, ThreadsFit, Balanced, Config.IntsFit, MainFits;
    if !MainFits(c, s.main) {
      UnfitIsUnsafe(c, s);
    } else if !Balanced(c) {
      LopsidedNeverFinishes(c, s);
    } else if s.main.Finished? {
      FinishedFitted(c, s);
    }
  }

  lemma UnfitIsUnsafe(c: Config, s: State)
    requires Shape(c, s) && !MainFits(c, s.main)
    ensures !PoolSafe(c, s, c.workers)
  {
    hide MainFits;
  }

  lemma FinishedFitted(c: Config, s: State)
    requires PoolInv(c, s) && s.main.Finished?
    ensures ThreadsFit(c) && c.IntsFit() && MergeFits(c)
  {
    hide MergeFits, ThreadsFit, Config.IntsFit, MB.Inv, Blocks, Control, Histories, Pills, Acknowledged, Handed, Lifetimes;
    ThreadsFitIff(c);
  }

  /** When main has finished, each worker has exited with exactly one exit command, every message has
      been taken, and the buffer main handed to the merge consisted of the sorted blocks. */
  lemma FinishedMeansDone(c: Config, s0: State, schedule: seq<nat>)
    requires c.Valid() && PoolInit(c, s0) && Runs(c, s0, schedule) && After(c, s0, schedule).main.Finished?
    ensures var s := After(c, s0, schedule);
            && Shape(c, s)
            && (forall w: nat | w < c.workers :: s.workers[w].Exited?)
            && c.exits == c.workers && |s.start.taken| == |c.blocks| + c.workers
            && s.handed == Some(seq(|c.blocks|, j requires 0 <= j < |c.blocks| => Sort(c.blocks[j])))
            && forall j: nat | j < |c.blocks| :: s.status[j].Done?
  {
    PoolInitEstablishesInv(c, s0);
    RunKeepsPoolInv(c, s0, schedule);
    var s := After(c, s0, schedule);
    AllDoneWhenCollected(c, s);
    ExitedTookOnePillEach(c, s);
  }

  lemma ExitedTookOnePillEach(c: Config, s: State)
    requires PoolInv(c, s) && s.main.Finished?
    ensures c.exits == c.workers && |s.start.taken| == |c.blocks| + c.workers
  {
    hide PoolInv;
    ExitsAtMostWorkers(c);
    PillsOfFinished(c, s);
    if |c.blocks| > 0 {
      SortedByNobody(c, s);
    }
  }

  lemma ExitsAtMostWorkers(c: Config)
    ensures c.exits <= c.workers
  {
  }

  lemma PillsOfFinished(c: Config, s: State)
    requires PoolInv(c, s) && s.main.Finished?
    ensures |s.start.taken| <= |c.blocks| + c.exits
    ensures c.workers == if |s.start.taken| > |c.blocks| then |s.start.taken| - |c.blocks| else 0
  {
    hide Blocks, Acknowledged, Handed;
    StartStoredBound(c, s);
    var flags := PillFlags(s.workers, s.startOps);
    CountAll(flags);
    assert forall w | 0 <= w < |flags| :: flags[w];
  }

  /** In every reachable state: blocks sorted = acknowledgements received by main + acknowledgements in
      mb_stop + workers that have sorted but not yet put. Nothing identifies the sender of an acknowledgement. */
  lemma AcknowledgementsCountSortedBlocks(c: Config, s0: State, schedule: seq<nat>)
    requires c.Valid() && PoolInit(c, s0) && Runs(c, s0, schedule)
    ensures var s := After(c, s0, schedule);
            && Shape(c, s) && s.stop.taken <= s.stop.stored
            && Count(DoneFlags(s.status)) == |s.stop.taken| + |s.stop.stored[|s.stop.taken|..]| + Count(AckFlags(s.workers, s.stopOps))
  {
    PoolInitEstablishesInv(c, s0);
    RunKeepsPoolInv(c, s0, schedule);
  }

  /** Why sorting may be taken as one step: in every reachable state the blocks that two workers hold are
      different, and until main puts the blocks and from the merge on no worker holds a block at all. */
  lemma NobodyElseReachesTheBlock(c: Config, s0: State, schedule: seq<nat>)
    requires c.Valid() && PoolInit(c, s0) && Runs(c, s0, schedule)
    ensures var s := After(c, s0, schedule);
            && Shape(c, s)
            && (forall v: nat, w: nat | v < w < c.workers ::
                  Holding(s.workers[v], s.startOps[v]) == Holding(s.workers[w], s.startOps[w]) ==> NoBlockHeld(s.workers[w], s.startOps[w]))
            && (!s.main.Putting? && !s.main.Collecting? ==>
                  forall w: nat | w < c.workers :: NoBlockHeld(s.workers[w], s.startOps[w]))
  {
    hide PoolInv, NoBlockHeld;
    PoolInitEstablishesInv(c, s0);
    RunKeepsPoolInv(c, s0, schedule);
    var s := After(c, s0, schedule);
    NoBlockHeldOutside(c, s);
    forall v: nat, w: nat | v < w < c.workers && Holding(s.workers[v], s.startOps[v]) == Holding(s.workers[w], s.startOps[w])
      ensures NoBlockHeld(s.workers[w], s.startOps[w])
    {
      HeldBlocksDiffer(c, s, v, w);
    }
  }

  lemma NoBlockHeldOutside(c: Config, s: State)
    requires PoolInv(c, s)
    ensures Shape(c, s)
    ensures !s.main.Putting? && !s.main.Collecting? ==> forall w: nat | w < c.workers :: NoBlockHeld(s.workers[w], s.startOps[w])
  {
    if s.main.Creating? {
      NoBlockTakenYet(c, s);
    } else if !s.main.Putting? && !s.main.Collecting? {
      AllSortedWhenCollected(c, s);
    }
  }

  lemma NoBlockTakenYet(c: Config, s: State)
    requires PoolInv(c, s) && s.main.Creating?
    ensures forall w: nat | w < c.workers :: NoBlockHeld(s.workers[w], s.startOps[w])
  {
    hide Pills, Acknowledged, Handed;
    assert |s.start.stored| == 0 && s.start.taken <= s.start.stored;
    forall w: nat | w < c.workers ensures NoBlockHeld(s.workers[w], s.startOps[w]) {
      assert HoldsOwn(c, s, w);
    }
  }

  lemma HeldBlocksDiffer(c: Config, s: State, v: nat, w: nat)
    requires PoolInv(c, s) && v < w < c.workers
    ensures Holding(s.workers[v], s.startOps[v]) == Holding(s.workers[w], s.startOps[w]) ==> NoBlockHeld(s.workers[w], s.startOps[w])
  {
    hide MB.Inv, Pills, Acknowledged, Handed, Histories;
    assert HoldsOwn(c, s, v) && HoldsOwn(c, s, w);
  }
}
