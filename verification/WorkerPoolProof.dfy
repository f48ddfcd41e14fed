// Every step of every thread of the sort demo keeps the invariant of WorkerPool.
module WorkerPoolProof {
  import opened Words
  import opened Sorting
  import opened MB = Mailbox
  import opened WorkerPool

  // ---- How the flag sequences follow one update ----

  lemma DoneFlagsUpdate(st: seq<Status>, j: nat, x: Status)
    requires j < |st|
    ensures Count(DoneFlags(st[j := x])) == Count(DoneFlags(st)) - One(st[j].Done?) + One(x.Done?)
  {
    assert DoneFlags(st[j := x]) == DoneFlags(st)[j := x.Done?];
    CountUpdate(DoneFlags(st), j, x.Done?);
  }

  lemma AckFlagsUpdate(ks: seq<Worker>, ops: seq<Op>, w: nat, k: Worker, op: Op)
    requires w < |ks| <= |ops|
    ensures Count(AckFlags(ks[w := k], ops[w := op]))
         == Count(AckFlags(ks, ops)) - One(ks[w].Acking? && ops[w].Unstored()) + One(k.Acking? && op.Unstored())
  {
    assert AckFlags(ks[w := k], ops[w := op]) == AckFlags(ks, ops)[w := k.Acking? && op.Unstored()];
    CountUpdate(AckFlags(ks, ops), w, k.Acking? && op.Unstored());
  }

  predicate TookPill(k: Worker, op: Op) {
    k.Exited? || Holding(k, op) == Some(UINT_MAX)
  }

  lemma PillFlagsUpdate(ks: seq<Worker>, ops: seq<Op>, w: nat, k: Worker, op: Op)
    requires w < |ks| <= |ops|
    ensures Count(PillFlags(ks[w := k], ops[w := op]))
         == Count(PillFlags(ks, ops)) - One(TookPill(ks[w], ops[w])) + One(TookPill(k, op))
  {
    assert PillFlags(ks[w := k], ops[w := op]) == PillFlags(ks, ops)[w := TookPill(k, op)];
    CountUpdate(PillFlags(ks, ops), w, TookPill(k, op));
  }

  /** main's entry in the operation lists does not count as a worker's. */
  lemma FlagsIgnoreMain(ks: seq<Worker>, ops: seq<Op>, op: Op)
    requires |ops| == |ks| + 1
    ensures AckFlags(ks, ops[|ks| := op]) == AckFlags(ks, ops)
    ensures PillFlags(ks, ops[|ks| := op]) == PillFlags(ks, ops)
  {
  }

  /** The bookkeeping of blocks depends only on what was taken, who holds what, and the data. */
  lemma BlocksFrame(c: Config, s: State, s': State)
    requires c.Valid() && Shape(c, s) && Shape(c, s') && Blocks(c, s)
    requires s'.status == s.status && s'.data == s.data && |s'.start.taken| == |s.start.taken|
    requires forall w: nat | w < c.workers ::
               var h, h' := Holding(s.workers[w], s.startOps[w]), Holding(s'.workers[w], s'.startOps[w]);
               h' == h || (h == Some(UINT_MAX) && h' == None)
    ensures Blocks(c, s')
  {
    forall w: nat | w < c.workers ensures HoldsOwn(c, s', w) {
      assert HoldsOwn(c, s, w);
    }
    forall j: nat | j < |c.blocks| ensures Contents(c, s', j) && c.Addr(j) != UINT_MAX {
      assert Contents(c, s, j);
    }
  }

  // ---- sort_thread ----

  /** Worker w changes its phase and operations but neither what it holds nor what it owes. */
  lemma PhaseChangeKeepsInv(c: Config, s: State, s': State, w: nat, k: Worker, p: Op, q: Op)
    requires PoolInv(c, s) && w < c.workers
    requires s' == s.(workers := s.workers[w := k], startOps := s.startOps[w := p], stopOps := s.stopOps[w := q])
    requires WorkerOps(k, p, q) && Created(s.main, w) && !s.workers[w].Exited?
    requires !s.startOps[w].HoldsRead() && !s.startOps[w].HoldsWrite() && !p.HoldsRead() && !p.HoldsWrite()
    requires !s.stopOps[w].HoldsRead() && !s.stopOps[w].HoldsWrite() && !q.HoldsRead() && !q.HoldsWrite()
    requires Holding(k, p) == Holding(s.workers[w], s.startOps[w]) || (Holding(s.workers[w], s.startOps[w]) == Some(UINT_MAX) && k.Exited?)
    requires TookPill(k, p) == TookPill(s.workers[w], s.startOps[w])
    requires (k.Acking? && q.Unstored()) == (s.workers[w].Acking? && s.stopOps[w].Unstored())
    ensures PoolInv(c, s')
  {
    hide MB.Inv, Blocks, Count, AckFlags, PillFlags, DoneFlags, TookPill, Config.Job;
    CallKeepsInv(s.start, s.startOps, w, p);
    CallKeepsInv(s.stop, s.stopOps, w, q);
    AckFlagsUpdate(s.workers, s.stopOps, w, k, q);
    PillFlagsUpdate(s.workers, s.startOps, w, k, p);
    BlocksFrame(c, s, s');
  }

  /** Loading the n-th job makes worker w the holder of block n, or of an exit command when all blocks
      have been taken. */
  lemma LoadKeepsBlocks(c: Config, s: State, s': State, w: nat, n: nat)
    requires c.Valid() && Shape(c, s) && Shape(c, s') && Blocks(c, s) && w < c.workers
    requires n == |s.start.taken| && |s'.start.taken| == n + 1
    requires s.workers[w].Getting? && s.startOps[w].GetLoad?
    requires 0 <= c.Job(n) < 0x1_0000_0000
    requires s'.data == s.data && s'.workers == s.workers && s'.startOps == s.startOps[w := GetAdvance(c.Job(n))]
    requires s'.status == if n < |c.blocks| then s.status[n := Held(w)] else s.status
    ensures Blocks(c, s')
    ensures Count(DoneFlags(s'.status)) == Count(DoneFlags(s.status))
  {
    if n < |c.blocks| {
      AddrFacts(c, n);
      DoneFlagsUpdate(s.status, n, Held(w));
    }
    forall v: nat | v < c.workers ensures HoldsOwn(c, s', v) {
      assert HoldsOwn(c, s, v);
    }
    forall j: nat | j < |c.blocks| ensures Contents(c, s', j) {
      assert Contents(c, s, j);
    }
  }

  lemma AddrIsWord(c: Config, n: nat)
    requires c.Valid()
    ensures 0 <= c.Job(n) < 0x1_0000_0000
    ensures c.Job(n) == UINT_MAX <==> n >= |c.blocks|
  {
    if n < |c.blocks| {
      AddrFacts(c, n);
    }
  }

  lemma GetStatementKeepsBlocks(c: Config, s: State, w: nat)
    requires PoolInv(c, s) && w < c.workers && s.workers[w].Getting?
    requires MB.Enabled(s.start, s.startOps[w]) && PoolSafe(c, s, w)
    ensures Blocks(c, StartStep(c, s, w))
    ensures Count(DoneFlags(StartStep(c, s, w).status)) == Count(DoneFlags(s.status))
    ensures s.startOps[w].GetLoad? ==> s.start.stored[|s.start.taken|] == c.Job(|s.start.taken|)
  {
    hide MB.Inv, Blocks;
    var s' := StartStep(c, s, w);
    var n := |s.start.taken|;
    StepHistory(s.start, s.startOps, w);
    if s.startOps[w].GetLoad? {
      assert s.start.stored[n] == c.Job(n);
      AddrIsWord(c, n);
      LoadKeepsBlocks(c, s, s', w, n);
    } else {
      BlocksFrame(c, s, s');
    }
  }

  lemma GetStatementKeepsInv(c: Config, s: State, w: nat)
    requires PoolInv(c, s) && w < c.workers && s.workers[w].Getting?
    requires MB.Enabled(s.start, s.startOps[w]) && PoolSafe(c, s, w)
    ensures PoolInv(c, StartStep(c, s, w))
  {
    hide MB.Inv, Blocks, Count, AckFlags, PillFlags, DoneFlags;
    var s' := StartStep(c, s, w);
    StepKeepsInv(s.start, s.startOps, w);
    StepHistory(s.start, s.startOps, w);
    GetStatementKeepsBlocks(c, s, w);
    PillFlagsUpdate(s.workers, s.startOps, w, s.workers[w], s'.startOps[w]);
    assert s.workers[w := s.workers[w]] == s.workers;
    AddrIsWord(c, |s.start.taken|);
  }

  /** Sorting the block that w holds changes that block and no other. */
  lemma SortKeepsBlocks(c: Config, s: State, w: nat)
    requires PoolInv(c, s) && w < c.workers && s.workers[w].Sorting? && PoolSafe(c, s, w)
    ensures Blocks(c, WorkerStep(c, s, w))
    ensures s.status[c.BlockAt(s.workers[w].addr)] == Held(w)
  {
    hide MB.Inv;
    var s' := WorkerStep(c, s, w);
    var m := s.workers[w].addr;
    var n := c.BlockAt(m);
    assert HoldsOwn(c, s, w) && Contents(c, s, n);
    forall v: nat | v < c.workers ensures HoldsOwn(c, s', v) {
      assert HoldsOwn(c, s, v);
    }
    forall j: nat | j < |c.blocks| ensures Contents(c, s', j) {
      assert Contents(c, s, j);
      AddrFacts(c, j);
    }
  }

  /** Afterwards its contents are sorted and one acknowledgement is owed. */
  lemma SortKeepsInv(c: Config, s: State, w: nat)
    requires PoolInv(c, s) && w < c.workers && s.workers[w].Sorting? && PoolSafe(c, s, w)
    ensures PoolInv(c, WorkerStep(c, s, w))
  {
    hide MB.Inv, Blocks;
    SortKeepsBlocks(c, s, w);
    CallKeepsInv(s.stop, s.stopOps, w, PutLock(23));
    DoneFlagsUpdate(s.status, c.BlockAt(s.workers[w].addr), Done(w));
    AckFlagsUpdate(s.workers, s.stopOps, w, Acking, PutLock(23));
    PillFlagsUpdate(s.workers, s.startOps, w, Acking, s.startOps[w]);
    assert s.startOps[w := s.startOps[w]] == s.startOps;
  }

  /** A statement inside mbox_put(mb_stop). */
  lemma AckStatementKeepsInv(c: Config, s: State, w: nat)
    requires PoolInv(c, s) && w < c.workers && s.workers[w].Acking?
    requires MB.Enabled(s.stop, s.stopOps[w]) && PoolSafe(c, s, w)
    ensures PoolInv(c, StopStep(c, s, w))
  {
    hide MB.Inv, Blocks;
    var s' := StopStep(c, s, w);
    StepKeepsInv(s.stop, s.stopOps, w);
    StepHistory(s.stop, s.stopOps, w);
    AckFlagsUpdate(s.workers, s.stopOps, w, s.workers[w], s'.stopOps[w]);
    assert s.workers[w := s.workers[w]] == s.workers;
    BlocksFrame(c, s, s');
  }

  lemma WorkerKeepsInv(c: Config, s: State, w: nat)
    requires PoolInv(c, s) && w < c.workers && PoolSafe(c, s, w) && PoolEnabled(c, s, w)
    ensures PoolInv(c, WorkerStep(c, s, w))
  {
    hide MB.Inv, Blocks, Acknowledged, Pills, Histories;
    var s' := WorkerStep(c, s, w);
    var p, q := s.startOps[w], s.stopOps[w];
    assert s.stopOps[w := q] == s.stopOps && s.startOps[w := p] == s.startOps;
    match s.workers[w] {
      case Top => PhaseChangeKeepsInv(c, s, s', w, Getting, GetLock, q);
      case Getting =>
        if p.GetDone? {
          PhaseChangeKeepsInv(c, s, s', w, s'.workers[w], Idle, q);
        } else {
          GetStatementKeepsInv(c, s, w);
        }
      case Sorting(_) => SortKeepsInv(c, s, w);
      case Acking =>
        if q.PutDone? {
          PhaseChangeKeepsInv(c, s, s', w, Top, p, Idle);
        } else {
          AckStatementKeepsInv(c, s, w);
        }
    }
  }

  // ---- main ----

  /** main moves on, calls or returns, without touching a mailbox. */
  lemma MainMoveKeepsInv(c: Config, s: State, s': State, m: Main, p: Op, q: Op)
    requires PoolInv(c, s)
    requires s' == s.(main := m, startOps := s.startOps[c.workers := p], stopOps := s.stopOps[c.workers := q])
    requires MainOps(c, m, p, q)
    requires !s.startOps[c.workers].HoldsRead() && !s.startOps[c.workers].HoldsWrite() && !p.HoldsRead() && !p.HoldsWrite()
    requires !s.stopOps[c.workers].HoldsRead() && !s.stopOps[c.workers].HoldsWrite() && !q.HoldsRead() && !q.HoldsWrite()
    requires MainStored(c, m, p) == MainStored(c, s.main, s.startOps[c.workers])
    requires MainTaken(c, m, q) == MainTaken(c, s.main, s.stopOps[c.workers])
    requires Handed(c, s') && Lifetimes(c, s') && Fitted(c, m)
    ensures PoolInv(c, s')
  {
    hide MB.Inv, Blocks, Fitted;
    CallKeepsInv(s.start, s.startOps, c.workers, p);
    CallKeepsInv(s.stop, s.stopOps, c.workers, q);
    FlagsIgnoreMain(s.workers, s.startOps, p);
    FlagsIgnoreMain(s.workers, s.stopOps, q);
    BlocksFrame(c, s, s');
  }

  /** A statement of main inside mbox_put(mb_start). */
  lemma MainPutKeepsInv(c: Config, s: State)
    requires PoolInv(c, s) && (s.main.Putting? || s.main.Killing?) && PoolSafe(c, s, c.workers)
    requires s.startOps[c.workers].IsPut() && MB.Enabled(s.start, s.startOps[c.workers])
    ensures PoolInv(c, StartStep(c, s, c.workers))
  {
    hide MB.Inv, Blocks, Count, AckFlags, PillFlags, DoneFlags;
    var t := c.workers;
    var s' := StartStep(c, s, t);
    StepKeepsInv(s.start, s.startOps, t);
    StepHistory(s.start, s.startOps, t);
    FlagsIgnoreMain(s.workers, s.startOps, s'.startOps[t]);
    BlocksFrame(c, s, s');
  }

  /** A statement of main inside mbox_get(mb_stop). */
  lemma MainGetKeepsInv(c: Config, s: State)
    requires PoolInv(c, s) && s.main.Collecting? && PoolSafe(c, s, c.workers)
    requires s.stopOps[c.workers].IsGet() && MB.Enabled(s.stop, s.stopOps[c.workers])
    ensures PoolInv(c, StopStep(c, s, c.workers))
  {
    hide MB.Inv, Blocks, Count, AckFlags, PillFlags, DoneFlags;
    var t := c.workers;
    var s' := StopStep(c, s, t);
    StepKeepsInv(s.stop, s.stopOps, t);
    StepHistory(s.stop, s.stopOps, t);
    FlagsIgnoreMain(s.workers, s.stopOps, s'.stopOps[t]);
    BlocksFrame(c, s, s');
  }

  predicate NoBlockHeld(k: Worker, p: Op) {
    Holding(k, p) == None || Holding(k, p) == Some(UINT_MAX)
  }

  lemma AllDoneWhenCollected(c: Config, s: State)
    requires PoolInv(c, s) && MainTaken(c, s.main, s.stopOps[c.workers]) == |c.blocks|
    ensures forall j: nat | j < |c.blocks| :: s.status[j].Done?
  {
    var flags := DoneFlags(s.status);
    assert |s.stop.taken| <= |s.stop.stored|;
    assert Count(flags) == |flags|;
    CountAll(flags);
    forall j: nat | j < |c.blocks| ensures s.status[j].Done? {
      assert flags[j];
    }
  }

  /** Once main has collected |blocks| anonymous acknowledgements, every block has been sorted, by one
      worker each, and no worker still holds a block. */
  lemma AllSortedWhenCollected(c: Config, s: State)
    requires PoolInv(c, s) && MainTaken(c, s.main, s.stopOps[c.workers]) == |c.blocks|
    ensures forall j: nat | j < |c.blocks| :: s.status[j].Done? && c.Addr(j) in s.data && s.data[c.Addr(j)] == Sort(c.blocks[j])
    ensures forall w: nat | w < c.workers :: NoBlockHeld(s.workers[w], s.startOps[w])
  {
    hide MB.Inv;
    AllDoneWhenCollected(c, s);
    forall j: nat | j < |c.blocks| ensures c.Addr(j) in s.data && s.data[c.Addr(j)] == Sort(c.blocks[j]) {
      assert Contents(c, s, j);
    }
    forall w: nat | w < c.workers ensures NoBlockHeld(s.workers[w], s.startOps[w]) {
      assert HoldsOwn(c, s, w);
    }
  }

  lemma MainKeepsInv(c: Config, s: State)
    requires PoolInv(c, s) && PoolSafe(c, s, c.workers) && PoolEnabled(c, s, c.workers)
    ensures PoolInv(c, MainStep(c, s))
  {
    hide MB.Inv;
    var t := c.workers;
    match s.main {
      case Creating(_) => MainMovesOn(c, s);
      case Putting(_) => PuttingKeepsInv(c, s);
      case Killing(_) => PuttingKeepsInv(c, s);
      case Collecting(_) =>
        if s.stopOps[t].Idle? || s.stopOps[t].GetDone? {
          MainMovesOn(c, s);
        } else {
          MainGetKeepsInv(c, s);
        }
      case Merging =>
        AllSortedWhenCollected(c, s);
        MergeStepKeepsInv(c, s);
      case Joining(_) => MainMovesOn(c, s);
    }
  }

  lemma PuttingKeepsInv(c: Config, s: State)
    requires PoolInv(c, s) && PoolSafe(c, s, c.workers) && PoolEnabled(c, s, c.workers)
    requires s.main.Putting? || s.main.Killing?
    ensures PoolInv(c, MainStep(c, s))
  {
    hide MB.Inv;
    if s.startOps[c.workers].Idle? || s.startOps[c.workers].PutDone? {
      MainMovesOn(c, s);
    } else {
      MainPutKeepsInv(c, s);
    }
  }

  /** The steps of main that call, return, or go to the next phase. */
  lemma MainMovesOn(c: Config, s: State)
    requires PoolInv(c, s) && PoolSafe(c, s, c.workers) && PoolEnabled(c, s, c.workers)
    requires s.main.Putting? || s.main.Killing? ==> s.startOps[c.workers].Idle? || s.startOps[c.workers].PutDone?
    requires s.main.Collecting? ==> s.stopOps[c.workers].Idle? || s.stopOps[c.workers].GetDone?
    requires !s.main.Merging?
    ensures PoolInv(c, MainStep(c, s))
  {
    hide MB.Inv, Blocks, Acknowledged, Pills, Histories, Count, AckFlags, PillFlags, DoneFlags, Fitted, Lifetimes, MergeFits;
    var t := c.workers;
    var s' := MainStep(c, s);
    var p, q := s'.startOps[t], s'.stopOps[t];
    NextPhaseFits(c, s);
    assert s.startOps[t := s.startOps[t]] == s.startOps && s.stopOps[t := s.stopOps[t]] == s.stopOps;
    MainMoveKeepsInv(c, s, s', s'.main, p, q);
  }

  lemma NextPhaseFits(c: Config, s: State)
    requires PoolInv(c, s) && PoolSafe(c, s, c.workers) && PoolEnabled(c, s, c.workers)
    ensures Fitted(c, MainStep(c, s).main)
    ensures Shape(c, MainStep(c, s)) && Lifetimes(c, MainStep(c, s))
  {
    hide MB.Inv, MB.Step, Blocks, Acknowledged, Pills, Histories, Handed, Control, MergeFits, Config.IntsFit, Config.HasHandle;
  }

  lemma MergeStepKeepsInv(c: Config, s: State)
    requires PoolInv(c, s) && PoolSafe(c, s, c.workers) && s.main.Merging?
    requires forall j: nat | j < |c.blocks| :: s.data[c.Addr(j)] == Sort(c.blocks[j])
    ensures PoolInv(c, MainStep(c, s))
  {
    hide MB.Inv, Blocks;
    var s' := MainStep(c, s);
    assert s'.handed.value == seq(|c.blocks|, j requires 0 <= j < |c.blocks| => Sort(c.blocks[j]));
    BlocksFrame(c, s, s');
  }

  /** Every step of every thread keeps the invariant. */
  lemma StepKeepsPoolInv(c: Config, s: State, t: nat)
    requires PoolInv(c, s) && PoolSafe(c, s, t) && PoolEnabled(c, s, t)
    ensures PoolInv(c, PoolStep(c, s, t))
  {
    if t < c.workers {
      WorkerKeepsInv(c, s, t);
    } else {
      MainKeepsInv(c, s);
    }
  }
}
