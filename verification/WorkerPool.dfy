// demos/sort_demo/linux/sort_demo.c: main and its worker threads, joined by two mailboxes.
// Threads 0 .. workers-1 run sort_thread, the hardware threads first (they behave the same); thread `workers` is main.
module WorkerPool {
  import opened Words
  import opened Sorting
  import opened MB = Mailbox
  import Merge

  /** One block: BLOCK_SIZE bytes, N words. */
  const BLOCK_BYTES := 8192
  const BLOCK_WORDS := 2048

  /** A hardware thread needs a slot of its own: 16 are managed, the links of 14 and 15 belong to process control. */
  const HW_SLOTS := 14
  /** MAX_THREADS, the length of the arrays of thread handles. */
  const MAX_THREADS := 32

  /** The run-time parameters: where the data buffer lies, its initial blocks, and the thread numbers of the command
      line, which may be negative. */
  datatype Config = Config(base: nat, blocks: Buffer, hwThreads: int, swThreads: int) {
    /** The hardware workers, and all workers: the creation loops do nothing for a negative number. */
    const hardware: nat := if hwThreads > 0 then hwThreads else 0
    const workers: nat := hardware + if swThreads > 0 then swThreads else 0

    /** The exit commands that main puts: running_threads. */
    const exits: nat := if hwThreads + swThreads > 0 then hwThreads + swThreads else 0

    /** Thread w has a slot and an entry in its array of handles. */
    predicate HasHandle(w: nat) { if w < hardware then w < HW_SLOTS else w - hardware < MAX_THREADS }

    /** buffer_size and running_threads fit into an int. */
    predicate IntsFit() {
      BLOCK_BYTES * |blocks| < 0x8000_0000 && -0x8000_0000 <= hwThreads + swThreads < 0x8000_0000
    }

    /** malloc_page_aligned returned a buffer of whole blocks inside the address space. */
    ghost predicate Valid() {
      && base % 4096 == 0 && base + BLOCK_BYTES * |blocks| <= 0x1_0000_0000
      && forall j | 0 <= j < |blocks| :: |blocks[j]| == BLOCK_WORDS
    }

    /** (unsigned int)data + i*BLOCK_SIZE */
    function Addr(j: nat): nat { base + BLOCK_BYTES * j }

    /** The k-th message main puts: the block addresses, then one exit command per thread. */
    function Job(k: nat): nat { if k < |blocks| then Addr(k) else UINT_MAX }

    /** Index of the block at an address. */
    function BlockAt(m: nat): nat { if m >= base then (m - base) / BLOCK_BYTES else 0 }
  }

  /** recursive_merge on the whole buffer stays inside its buffers and returns. */
  predicate MergeFits(c: Config) {
    BLOCK_WORDS * |c.blocks| < 0x1_0000_0000 && Merge.MergesInBounds(BLOCK_WORDS * |c.blocks|, BLOCK_WORDS)
  }

  /** The number of blocks is a power of two or zero: the exact condition for the merge. */
  lemma MergeFitsIff(c: Config)
    requires c.Valid()
    ensures MergeFits(c) <==> |c.blocks| == 0 || IsPowerOfTwo(|c.blocks|)
  {
    Merge.MergesInBoundsIffPowerOfTwo(BLOCK_WORDS, |c.blocks|);
  }

  /** Every thread that main creates has its handle: the limits on the command line. */
  predicate ThreadsFit(c: Config) { c.hwThreads <= HW_SLOTS && c.swThreads <= MAX_THREADS }

  lemma ThreadsFitIff(c: Config)
    ensures ThreadsFit(c) <==> forall w: nat | w < c.workers :: c.HasHandle(w)
  {
    if c.hwThreads > HW_SLOTS {
      assert !c.HasHandle(HW_SLOTS);
    }
    if c.swThreads > MAX_THREADS {
      assert !c.HasHandle(c.hardware + MAX_THREADS);
    }
  }

  /** The contents of the data buffer, block by block. */
  type Buffer = seq<seq<Word>>

  datatype Main = Creating(i: nat) | Putting(i: nat) | Collecting(i: nat) | Merging | Killing(i: nat) | Joining(i: nat) | Finished

  datatype Worker = Top | Getting | Sorting(addr: Word) | Acking | Exited

  /** History of a block: not yet taken, in the hands of one worker, sorted by one worker. */
  datatype Status = Queued | Held(owner: nat) | Done(owner: nat)

  datatype State = State(
    start: Mbox, startOps: seq<Op>, stop: Mbox, stopOps: seq<Op>,
    main: Main, workers: seq<Worker>, data: map<nat, seq<Word>>,
    status: seq<Status>, handed: Option<Buffer>)

  ghost predicate PoolInit(c: Config, s: State) {
    && MB.Init(s.start, |c.blocks|) && MB.Init(s.stop, |c.blocks|)
    && s.startOps == s.stopOps == seq(c.workers + 1, _ => Idle)
    && s.main == Creating(0) && s.workers == seq(c.workers, _ => Top)
    && (forall j: nat | j < |c.blocks| :: c.Addr(j) in s.data && s.data[c.Addr(j)] == c.blocks[j])
    && s.status == seq(|c.blocks|, _ => Queued) && s.handed == None
  }

  /** Lengths that never change. */
  predicate Shape(c: Config, s: State) {
    && |s.startOps| == |s.stopOps| == c.workers + 1 && |s.workers| == c.workers
    && |s.status| == |c.blocks|
  }

  // ---- Steps ----

  /** Thread t can execute its next statement. */
  predicate PoolEnabled(c: Config, s: State, t: nat)
    requires Shape(c, s)
  {
    if t < c.workers then Created(s.main, t) && WorkerEnabled(s, s.workers[t], s.startOps[t], s.stopOps[t])
    else t == c.workers && MainEnabled(c, s, s.startOps[t], s.stopOps[t])
  }

  /** main has created thread w. */
  predicate Created(m: Main, w: nat) { m.Creating? ==> w < m.i }

  predicate WorkerEnabled(s: State, k: Worker, p: Op, q: Op) {
    match k
    case Top => true
    case Getting => p.GetDone? || MB.Enabled(s.start, p)
    case Sorting(_) => true
    case Acking => q.PutDone? || MB.Enabled(s.stop, q)
    case Exited => false
  }

  predicate MainEnabled(c: Config, s: State, p: Op, q: Op)
    requires Shape(c, s)
  {
    match s.main
    case Creating(_) => true
    case Putting(_) => p.Idle? || p.PutDone? || MB.Enabled(s.start, p)
    case Collecting(_) => q.Idle? || q.GetDone? || MB.Enabled(s.stop, q)
    case Merging => true
    case Killing(_) => p.Idle? || p.PutDone? || MB.Enabled(s.start, p)
    case Joining(i) => i < c.workers ==> s.workers[i].Exited?
    case Finished => false
  }

  /** What the next statement of main needs besides: ints that do not overflow, a handle for the thread to create or to
      join, a merge that stays in its buffers and returns. */
  predicate MainFits(c: Config, m: Main) {
    match m
    case Creating(i) => c.IntsFit() && (i < c.workers ==> c.HasHandle(i))
    case Joining(i) => i < c.workers ==> c.HasHandle(i)
    case Merging => MergeFits(c)
    case _ => true
  }

  /** The next statement of thread t is safe: mailbox accesses in bounds, the address to sort is one of
      the buffer's blocks, the number to put is a 32-bit word, and main has what it needs. */
  predicate PoolSafe(c: Config, s: State, t: nat)
    requires Shape(c, s)
  {
    && t <= c.workers
    && MB.Safe(s.start, s.startOps[t]) && MB.Safe(s.stop, s.stopOps[t])
    && (t < c.workers && s.workers[t].Sorting? ==>
          s.workers[t].addr in s.data && c.BlockAt(s.workers[t].addr) < |c.blocks|)
    && (t == c.workers && s.main.Putting? && s.main.i < |c.blocks| ==> c.Addr(s.main.i) < UINT_MAX)
    && (t == c.workers && s.main.Merging? ==> forall j: nat | j < |c.blocks| :: c.Addr(j) in s.data)
    && (t == c.workers ==> MainFits(c, s.main))
  }

  function PoolStep(c: Config, s: State, t: nat): State
    requires Shape(c, s) && PoolSafe(c, s, t) && PoolEnabled(c, s, t)
  {
    if t < c.workers then WorkerStep(c, s, t) else MainStep(c, s)
  }

  /** A statement of thread t inside mb_start; loading a block address hands the block to t. */
  function StartStep(c: Config, s: State, t: nat): State
    requires Shape(c, s) && PoolSafe(c, s, t) && MB.Enabled(s.start, s.startOps[t])
  {
    var (mb, op) := MB.Step(s.start, t, s.startOps[t]);
    var n := |s.start.taken|;
    s.(start := mb, startOps := s.startOps[t := op],
       status := if s.startOps[t].GetLoad? && n < |c.blocks| then s.status[n := Held(t)] else s.status)
  }

  function StopStep(c: Config, s: State, t: nat): State
    requires Shape(c, s) && PoolSafe(c, s, t) && MB.Enabled(s.stop, s.stopOps[t])
  {
    var (mb, op) := MB.Step(s.stop, t, s.stopOps[t]);
    s.(stop := mb, stopOps := s.stopOps[t := op])
  }

  /** sort_thread. Sorting is one step: lemma NobodyElseReachesTheBlock shows that no other thread can
      read or write the block meanwhile. */
  function WorkerStep(c: Config, s: State, t: nat): State
    requires Shape(c, s) && PoolSafe(c, s, t) && PoolEnabled(c, s, t) && t < c.workers
  {
    match s.workers[t]
    case Top => s.(startOps := s.startOps[t := GetLock], workers := s.workers[t := Getting])
    case Getting =>
      if s.startOps[t].GetDone? then
        var m := s.startOps[t].got;
        s.(startOps := s.startOps[t := Idle], workers := s.workers[t := if m == UINT_MAX then Exited else Sorting(m)])
      else StartStep(c, s, t)
    case Sorting(m) =>
      s.(data := s.data[m := Sort(s.data[m])], status := s.status[c.BlockAt(m) := Done(t)],
         stopOps := s.stopOps[t := PutLock(23)], workers := s.workers[t := Acking])
    case Acking =>
      if s.stopOps[t].PutDone? then s.(stopOps := s.stopOps[t := Idle], workers := s.workers[t := Top])
      else StopStep(c, s, t)
  }

  /** main, from the creation of the threads to the last join. */
  function MainStep(c: Config, s: State): State
    requires Shape(c, s) && PoolSafe(c, s, c.workers) && PoolEnabled(c, s, c.workers)
  {
    var t := c.workers;
    match s.main
    case Creating(i) => s.(main := if i < c.workers then Creating(i + 1) else Putting(0))
    case Putting(i) =>
      if s.startOps[t].Idle? then
        if i < |c.blocks| then s.(startOps := s.startOps[t := PutLock(c.Addr(i))]) else s.(main := Collecting(0))
      else if s.startOps[t].PutDone? then s.(startOps := s.startOps[t := Idle], main := Putting(i + 1))
      else StartStep(c, s, t)
    case Collecting(i) =>
      if s.stopOps[t].Idle? then
        if i < |c.blocks| then s.(stopOps := s.stopOps[t := GetLock]) else s.(main := Merging)
      else if s.stopOps[t].GetDone? then s.(stopOps := s.stopOps[t := Idle], main := Collecting(i + 1))
      else StopStep(c, s, t)
    case Merging =>
      s.(main := Killing(0), handed := Some(seq(|c.blocks|, j requires 0 <= j < |c.blocks| => s.data[c.Addr(j)])))
    case Killing(i) =>
      if s.startOps[t].Idle? then
        if i < c.exits then s.(startOps := s.startOps[t := PutLock(UINT_MAX)]) else s.(main := Joining(0))
      else if s.startOps[t].PutDone? then s.(startOps := s.startOps[t := Idle], main := Killing(i + 1))
      else StartStep(c, s, t)
    case Joining(i) => s.(main := if i < c.workers then Joining(i + 1) else Finished)
  }

  // ---- The invariant ----

  /** A worker is inside mbox_get(mb_start) or mbox_put(mb_stop) exactly in its phases Getting and Acking,
      and it never sorts the exit command. */
  predicate WorkerOps(k: Worker, p: Op, q: Op) {
    && (if k.Getting? then p.IsGet() else p.Idle?)
    && (if k.Acking? then q.IsPut() else q.Idle?)
    && (k.Sorting? ==> k.addr != UINT_MAX)
  }

  predicate MainOps(c: Config, m: Main, p: Op, q: Op) {
    match m
    case Creating(i) => i <= c.workers && p.Idle? && q.Idle?
    case Putting(i) => i <= |c.blocks| && q.Idle? && (p.Idle? || (p.IsPut() && i < |c.blocks| && (p.Unstored() ==> p.msg == c.Addr(i))))
    case Collecting(i) => i <= |c.blocks| && p.Idle? && (q.Idle? || (q.IsGet() && i < |c.blocks|))
    case Merging => p.Idle? && q.Idle?
    case Killing(i) => i <= c.exits && q.Idle? && (p.Idle? || (p.IsPut() && i < c.exits && (p.Unstored() ==> p.msg == UINT_MAX)))
    case Joining(i) => i <= c.workers && p.Idle? && q.Idle?
    case Finished => p.Idle? && q.Idle?
  }

  /** Where main has got so far, what it needed was there. */
  ghost predicate Fitted(c: Config, m: Main) {
    && (m.Creating? ==> forall w: nat | w < c.workers && w < m.i :: c.HasHandle(w))
    && (!m.Creating? ==> c.IntsFit() && forall w: nat | w < c.workers :: c.HasHandle(w))
    && (m.Killing? || m.Joining? || m.Finished? ==> MergeFits(c))
  }

  ghost predicate Control(c: Config, s: State)
    requires Shape(c, s)
  {
    && MainOps(c, s.main, s.startOps[c.workers], s.stopOps[c.workers])
    && forall w: nat | w < c.workers :: WorkerOps(s.workers[w], s.startOps[w], s.stopOps[w])
  }

  /** How many messages main has stored in mb_start, and how many it has taken from mb_stop. */
  function MainStored(c: Config, m: Main, p: Op): nat {
    match m
    case Creating(_) => 0
    case Putting(i) => i + One(p.IsPut() && !p.Unstored())
    case Collecting(_) => |c.blocks|
    case Merging => |c.blocks|
    case Killing(i) => |c.blocks| + i + One(p.IsPut() && !p.Unstored())
    case _ => |c.blocks| + c.exits
  }

  function MainTaken(c: Config, m: Main, q: Op): nat {
    match m
    case Creating(_) => 0
    case Putting(_) => 0
    case Collecting(i) => i + One(q.HasGot())
    case _ => |c.blocks|
  }

  ghost predicate Histories(c: Config, s: State)
    requires Shape(c, s)
  {
    && |s.start.stored| == MainStored(c, s.main, s.startOps[c.workers])
    && |s.stop.taken| == MainTaken(c, s.main, s.stopOps[c.workers])
    && forall k: nat | k < |s.start.stored| :: s.start.stored[k] == c.Job(k)
  }

  /** The message a worker has taken from mb_start and not yet dealt with. */
  function Holding(k: Worker, p: Op): Option<Word> {
    if k.Sorting? then Some(k.addr) else if k.Getting? && p.HasGot() then Some(p.got) else None
  }

  /** Every block is queued, held by exactly one worker, or sorted; only sorted blocks have changed. */
  ghost predicate Blocks(c: Config, s: State)
    requires Shape(c, s)
  {
    && (forall j: nat | j < |c.blocks| :: s.status[j].Queued? <==> j >= |s.start.taken|)
    && (forall j: nat | j < |c.blocks| && s.status[j].Held? ::
          s.status[j].owner < c.workers && Holding(s.workers[s.status[j].owner], s.startOps[s.status[j].owner]) == Some(c.Addr(j)))
    && (forall j: nat | j < |c.blocks| && s.status[j].Done? :: s.status[j].owner < c.workers)
    && (forall w: nat | w < c.workers :: HoldsOwn(c, s, w))
    && (forall j: nat | j < |c.blocks| :: Contents(c, s, j))
  }

  /** What worker w holds is the exit command or the address of a block marked as w's. */
  ghost predicate HoldsOwn(c: Config, s: State, w: nat)
    requires Shape(c, s) && w < c.workers
  {
    match Holding(s.workers[w], s.startOps[w])
    case None => true
    case Some(m) => m == UINT_MAX || (c.BlockAt(m) < |c.blocks| && m == c.Addr(c.BlockAt(m)) && s.status[c.BlockAt(m)] == Held(w))
  }

  ghost predicate Contents(c: Config, s: State, j: nat)
    requires Shape(c, s) && j < |c.blocks|
  {
    c.Addr(j) in s.data && s.data[c.Addr(j)] == if s.status[j].Done? then Sort(c.blocks[j]) else c.blocks[j]
  }

  function DoneFlags(st: seq<Status>): seq<bool> {
    seq(|st|, j requires 0 <= j < |st| => st[j].Done?)
  }

  /** Workers that have sorted a block and not yet stored the acknowledgement. */
  function AckFlags(ks: seq<Worker>, ops: seq<Op>): seq<bool>
    requires |ks| <= |ops|
  {
    seq(|ks|, w requires 0 <= w < |ks| => ks[w].Acking? && ops[w].Unstored())
  }

  /** Workers that have taken an exit command. */
  function PillFlags(ks: seq<Worker>, ops: seq<Op>): seq<bool>
    requires |ks| <= |ops|
  {
    seq(|ks|, w requires 0 <= w < |ks| => ks[w].Exited? || Holding(ks[w], ops[w]) == Some(UINT_MAX))
  }

  /** Anonymous acknowledgements suffice: blocks sorted = acknowledgements stored so far + workers that still owe one. */
  ghost predicate Acknowledged(c: Config, s: State)
    requires Shape(c, s)
  {
    Count(DoneFlags(s.status)) == |s.stop.stored| + Count(AckFlags(s.workers, s.stopOps))
  }

  /** Every exit command that was taken belongs to one worker. */
  ghost predicate Pills(c: Config, s: State)
    requires Shape(c, s)
  {
    Count(PillFlags(s.workers, s.startOps)) == if |s.start.taken| > |c.blocks| then |s.start.taken| - |c.blocks| else 0
  }

  /** main hands the buffer to the merge only when every block in it is sorted. */
  ghost predicate Handed(c: Config, s: State) {
    match s.main
    case Creating(_) => s.handed == None
    case Putting(_) => s.handed == None
    case Collecting(_) => s.handed == None
    case Merging => s.handed == None
    case _ => s.handed == Some(seq(|c.blocks|, j requires 0 <= j < |c.blocks| => Sort(c.blocks[j])))
  }

  /** The workers that main has not created have done nothing, and those that it has joined have exited. */
  ghost predicate Lifetimes(c: Config, s: State)
    requires Shape(c, s)
  {
    match s.main
    case Creating(i) => forall w: nat | i <= w < c.workers :: s.workers[w].Top?
    case Joining(i) => forall w: nat | w < i && w < c.workers :: s.workers[w].Exited?
    case Finished => forall w: nat | w < c.workers :: s.workers[w].Exited?
    case _ => true
  }

  ghost predicate PoolInv(c: Config, s: State) {
    && Shape(c, s) && c.Valid()
    && s.start.size == s.stop.size == |c.blocks|
    && MB.Inv(s.start, s.startOps) && MB.Inv(s.stop, s.stopOps)
    && Control(c, s) && Histories(c, s) && Blocks(c, s) && Acknowledged(c, s) && Pills(c, s)
    && Handed(c, s) && Lifetimes(c, s) && Fitted(c, s.main)
  }

  lemma AddrFacts(c: Config, j: nat)
    requires c.Valid() && j < |c.blocks|
    ensures c.Addr(j) < UINT_MAX && c.BlockAt(c.Addr(j)) == j
  {
  }

  lemma PoolInitEstablishesInv(c: Config, s: State)
    requires c.Valid() && PoolInit(c, s)
    ensures PoolInv(c, s)
  {
    MB.InitEstablishesInv(s.start, |c.blocks|, s.startOps);
    MB.InitEstablishesInv(s.stop, |c.blocks|, s.stopOps);
    CountNone(DoneFlags(s.status));
    CountNone(AckFlags(s.workers, s.stopOps));
    CountNone(PillFlags(s.workers, s.startOps));
  }

  /** The next statement of every thread is safe, but for main when it creates the threads and when it merges. */
  lemma PoolInvIsSafe(c: Config, s: State, t: nat)
    requires PoolInv(c, s) && t <= c.workers
    ensures PoolSafe(c, s, t) <==> (t == c.workers && (s.main.Creating? || s.main.Merging?) ==> MainFits(c, s.main))
  {
    hide MergeFits;
    MB.InvIsSafe(s.start, s.startOps, t);
    MB.InvIsSafe(s.stop, s.stopOps, t);
    if t < c.workers {
      assert HoldsOwn(c, s, t);
      if s.workers[t].Sorting? {
        assert Contents(c, s, c.BlockAt(s.workers[t].addr));
      }
    } else if s.main.Putting? && s.main.i < |c.blocks| {
      AddrFacts(c, s.main.i);
    } else if s.main.Merging? {
      forall j: nat | j < |c.blocks| ensures c.Addr(j) in s.data {
        assert Contents(c, s, j);
      }
    }
  }
}
