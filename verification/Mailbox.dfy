// linux/libreconos/mbox.c: a bounded FIFO shared by any number of putting and getting threads.
// Every statement of mbox_put and mbox_get is one atomic step.
module Mailbox {
  import opened Words

  /** Where a thread stands inside mbox_put or mbox_get: the statement it executes next. */
  datatype Op =
    | Idle
    | PutLock(msg: Word) | PutWait(msg: Word) | PutStore(msg: Word) | PutAdvance | PutPost | PutUnlock | PutDone
    | GetLock | GetWait | GetLoad | GetAdvance(got: Word) | GetPost(got: Word) | GetUnlock(got: Word) | GetDone(got: Word)
  {
    predicate IsPut() { PutLock? || HoldsWrite() || PutDone? }
    predicate IsGet() { GetLock? || HoldsRead() || GetDone? }
    predicate HoldsWrite() { PutWait? || PutStore? || PutAdvance? || PutPost? || PutUnlock? }
    predicate HoldsRead() { GetWait? || GetLoad? || GetAdvance? || GetPost? || GetUnlock? }
    /** The message has been loaded and is not yet delivered to the caller. */
    predicate HasGot() { GetAdvance? || GetPost? || GetUnlock? || GetDone? }
    /** The call has a message that is not yet in the ring. */
    predicate Unstored() { PutLock? || PutWait? || PutStore? }
  }

  /** struct mbox, plus two history variables: all messages stored and all messages loaded so far. */
  datatype Mbox = Mbox(
    size: nat, messages: seq<Word>, readIdx: nat, writeIdx: nat, semRead: nat, semWrite: nat,
    mutexRead: Option<nat>, mutexWrite: Option<nat>,
    stored: seq<Word>, taken: seq<Word>)

  /** mbox_init; the ring memory is whatever malloc returns. */
  ghost predicate Init(mb: Mbox, size: nat) {
    && mb.size == size == |mb.messages| && mb.readIdx == mb.writeIdx == 0
    && mb.semRead == 0 && mb.semWrite == size
    && mb.mutexRead == mb.mutexWrite == None
    && mb.stored == mb.taken == []
  }

  /** The statement can execute now: the mutex is free, the semaphore is positive. */
  predicate Enabled(mb: Mbox, op: Op) {
    match op
    case Idle => false
    case PutLock(_) => mb.mutexWrite.None?
    case PutWait(_) => mb.semWrite > 0
    case PutDone => false
    case GetLock => mb.mutexRead.None?
    case GetWait => mb.semRead > 0
    case GetDone(_) => false
    case _ => true
  }

  /** The statement is memory safe: array index in bounds, no remainder by zero. */
  predicate Safe(mb: Mbox, op: Op) {
    && (op.PutStore? ==> mb.writeIdx < |mb.messages|)
    && (op.GetLoad? ==> mb.readIdx < |mb.messages|)
    && (op.PutAdvance? || op.GetAdvance? ==> mb.size > 0)
  }

  /** Thread t executes one statement. */
  function Step(mb: Mbox, t: nat, op: Op): (Mbox, Op)
    requires Enabled(mb, op) && Safe(mb, op)
  {
    match op
    case PutLock(m) => (mb.(mutexWrite := Some(t)), PutWait(m))
    case PutWait(m) => (mb.(semWrite := mb.semWrite - 1), PutStore(m))
    case PutStore(m) => (mb.(messages := mb.messages[mb.writeIdx := m], stored := mb.stored + [m]), PutAdvance)
    case PutAdvance => (mb.(writeIdx := (mb.writeIdx + 1) % mb.size), PutPost)
    case PutPost => (mb.(semRead := mb.semRead + 1), PutUnlock)
    case PutUnlock => (mb.(mutexWrite := None), PutDone)
    case GetLock => (mb.(mutexRead := Some(t)), GetWait)
    case GetWait => (mb.(semRead := mb.semRead - 1), GetLoad)
    case GetLoad => (mb.(taken := mb.taken + [mb.messages[mb.readIdx]]), GetAdvance(mb.messages[mb.readIdx]))
    case GetAdvance(m) => (mb.(readIdx := (mb.readIdx + 1) % mb.size), GetPost(m))
    case GetPost(m) => (mb.(semWrite := mb.semWrite + 1), GetUnlock(m))
    case GetUnlock(m) => (mb.(mutexRead := None), GetDone(m))
  }

  // ---- The invariant ----

  /** Mutual exclusion: exactly the owner of a mutex stands between lock and unlock. */
  ghost predicate Owners(mb: Mbox, ops: seq<Op>) {
    && (mb.mutexWrite.Some? ==> mb.mutexWrite.value < |ops|)
    && (mb.mutexRead.Some? ==> mb.mutexRead.value < |ops|)
    && forall t: nat | t < |ops| ::
         && (ops[t].HoldsWrite() <==> mb.mutexWrite == Some(t))
         && (ops[t].HoldsRead() <==> mb.mutexRead == Some(t))
  }

  /** The operation of the thread inside mbox_put's (mbox_get's) critical section. */
  function Putter(mb: Mbox, ops: seq<Op>): Op {
    if mb.mutexWrite.Some? && mb.mutexWrite.value < |ops| then ops[mb.mutexWrite.value] else Idle
  }

  function Getter(mb: Mbox, ops: seq<Op>): Op {
    if mb.mutexRead.Some? && mb.mutexRead.value < |ops| then ops[mb.mutexRead.value] else Idle
  }

  function One(b: bool): nat { if b then 1 else 0 }

  /** Semaphores, indices and ring contents in terms of the two histories. */
  ghost predicate Books(mb: Mbox, p: Op, g: Op) {
    var s, t := |mb.stored|, |mb.taken|;
    && |mb.messages| == mb.size
    && mb.taken <= mb.stored
    && mb.semRead == s - One(p.PutAdvance? || p.PutPost?) - t - One(g.GetLoad?)
    && mb.semWrite == mb.size - s - One(p.PutStore?) + t - One(g.GetAdvance? || g.GetPost?)
    && (mb.size == 0 ==> s == 0)
    && (mb.size > 0 ==> mb.writeIdx == (s - One(p.PutAdvance?)) % mb.size)
    && (mb.size > 0 ==> mb.readIdx == (t - One(g.GetAdvance?)) % mb.size)
    && (p.PutAdvance? ==> s > 0)
    && (g.GetAdvance? || g.GetPost? || g.GetUnlock? ==> t > 0 && g.got == mb.taken[t - 1])
    && forall i | t <= i < s :: mb.messages[i % mb.size] == mb.stored[i]
  }

  ghost predicate Inv(mb: Mbox, ops: seq<Op>) {
    Owners(mb, ops) && Books(mb, Putter(mb, ops), Getter(mb, ops))
  }

  lemma InitEstablishesInv(mb: Mbox, size: nat, ops: seq<Op>)
    requires Init(mb, size) && forall t | 0 <= t < |ops| :: ops[t] == Idle
    ensures Inv(mb, ops)
  {
  }

  /** The invariant makes every statement memory safe. */
  lemma InvIsSafe(mb: Mbox, ops: seq<Op>, t: nat)
    requires Inv(mb, ops) && t < |ops|
    ensures Safe(mb, ops[t])
  {
    var op := ops[t];
    if op.HoldsWrite() {
      assert Putter(mb, ops) == op;
    } else if op.HoldsRead() {
      assert Getter(mb, ops) == op;
    }
  }

  /** Effect of a step on the bookkeeping of the mailbox, for the thread in the put section. */
  lemma PutKeepsBooks(mb: Mbox, t: nat, op: Op, g: Op)
    requires op.HoldsWrite() && Books(mb, op, g) && Enabled(mb, op) && Safe(mb, op)
    requires !g.IsPut()
    ensures var (mb', op') := Step(mb, t, op); Books(mb', if op'.HoldsWrite() then op' else Idle, g)
  {
    if op.PutStore? {
      var n := |mb.stored|;
      forall i | |mb.taken| <= i < n
        ensures i % mb.size != n % mb.size
      {
        ModDistinct(i, n, mb.size);
      }
    } else if op.PutAdvance? {
      ModStep(|mb.stored| - 1, mb.size);
    }
  }

  lemma GetKeepsBooks(mb: Mbox, t: nat, op: Op, p: Op)
    requires op.HoldsRead() && Books(mb, p, op) && Enabled(mb, op) && Safe(mb, op)
    requires !p.IsGet()
    ensures var (mb', op') := Step(mb, t, op); Books(mb', p, if op'.HoldsRead() then op' else Idle)
  {
    if op.GetAdvance? {
      ModStep(|mb.taken| - 1, mb.size);
    }
  }

  lemma StepKeepsOwners(mb: Mbox, ops: seq<Op>, t: nat)
    requires Owners(mb, ops) && t < |ops| && Enabled(mb, ops[t]) && Safe(mb, ops[t])
    ensures var (mb', op') := Step(mb, t, ops[t]); Owners(mb', ops[t := op'])
  {
  }

  /** A put statement leaves the get side alone and the other way round. */
  lemma StepKeepsOtherSide(mb: Mbox, ops: seq<Op>, t: nat)
    requires Owners(mb, ops) && t < |ops| && Enabled(mb, ops[t]) && Safe(mb, ops[t])
    ensures var (mb', op') := Step(mb, t, ops[t]);
            var ops' := ops[t := op'];
            if ops[t].IsPut()
            then Getter(mb', ops') == Getter(mb, ops) && Putter(mb', ops') == (if op'.HoldsWrite() then op' else Idle)
            else Putter(mb', ops') == Putter(mb, ops) && Getter(mb', ops') == (if op'.HoldsRead() then op' else Idle)
    ensures !Getter(mb, ops).IsPut() && !Putter(mb, ops).IsGet()
    ensures ops[t].HoldsWrite() ==> Putter(mb, ops) == ops[t]
    ensures ops[t].HoldsRead() ==> Getter(mb, ops) == ops[t]
    ensures ops[t].PutLock? ==> Putter(mb, ops) == Idle
    ensures ops[t].GetLock? ==> Getter(mb, ops) == Idle
  {
  }

  /** Every statement of every thread keeps the invariant. */
  lemma StepKeepsInv(mb: Mbox, ops: seq<Op>, t: nat)
    requires Inv(mb, ops) && t < |ops| && Enabled(mb, ops[t]) && Safe(mb, ops[t])
    ensures var (mb', op') := Step(mb, t, ops[t]); Inv(mb', ops[t := op'])
  {
    var op := ops[t];
    StepKeepsOwners(mb, ops, t);
    StepKeepsOtherSide(mb, ops, t);
    if op.HoldsWrite() {
      PutKeepsBooks(mb, t, op, Getter(mb, ops));
    } else if op.HoldsRead() {
      GetKeepsBooks(mb, t, op, Putter(mb, ops));
    }
  }

  /** What a statement does to the two histories. */
  lemma StepHistory(mb: Mbox, ops: seq<Op>, t: nat)
    requires Inv(mb, ops) && t < |ops| && Enabled(mb, ops[t]) && Safe(mb, ops[t])
    ensures var op, (mb', op') := ops[t], Step(mb, t, ops[t]);
            && mb'.size == mb.size
            && mb'.stored == (if op.PutStore? then mb.stored + [op.msg] else mb.stored)
            && (op.GetLoad? ==> |mb.taken| < |mb.stored| && op'.got == mb.stored[|mb.taken|])
            && mb'.taken == (if op.GetLoad? then mb.taken + [mb.stored[|mb.taken|]] else mb.taken)
  {
    if ops[t].GetLoad? {
      assert Getter(mb, ops) == ops[t];
    }
  }

  /** Calling mbox_put or mbox_get, and returning from it, happens outside the critical sections. */
  lemma CallKeepsInv(mb: Mbox, ops: seq<Op>, t: nat, op: Op)
    requires Inv(mb, ops) && t < |ops|
    requires !ops[t].HoldsWrite() && !ops[t].HoldsRead() && !op.HoldsWrite() && !op.HoldsRead()
    ensures Inv(mb, ops[t := op])
  {
    var ops' := ops[t := op];
    assert Putter(mb, ops') == Putter(mb, ops) && Getter(mb, ops') == Getter(mb, ops);
  }

  // ---- Runs: any number of threads calling, executing and returning in any order ----

  datatype System = System(mb: Mbox, ops: seq<Op>)

  datatype Action = Call(t: nat, op: Op) | Execute(t: nat) | Return(t: nat)

  predicate Can(s: System, a: Action) {
    && a.t < |s.ops|
    && match a
       case Call(t, op) => s.ops[t] == Idle && (op.PutLock? || op.GetLock?)
       case Execute(t) => Enabled(s.mb, s.ops[t]) && Safe(s.mb, s.ops[t])
       case Return(t) => s.ops[t].PutDone? || s.ops[t].GetDone?
  }

  function Do(s: System, a: Action): System
    requires Can(s, a)
  {
    match a
    case Call(t, op) => s.(ops := s.ops[t := op])
    case Execute(t) => var (mb', op') := Step(s.mb, t, s.ops[t]); System(mb', s.ops[t := op'])
    case Return(t) => s.(ops := s.ops[t := Idle])
  }

  /** The actions can happen one after the other. */
  predicate Runs(s: System, run: seq<Action>)
    decreases |run|
  {
    run == [] || (Can(s, run[0]) && Runs(Do(s, run[0]), run[1..]))
  }

  function After(s: System, run: seq<Action>): System
    requires Runs(s, run)
    decreases |run|
  {
    if run == [] then s else After(Do(s, run[0]), run[1..])
  }

  lemma {:induction false} RunKeepsInv(s: System, run: seq<Action>)
    requires Inv(s.mb, s.ops) && Runs(s, run)
    ensures var s' := After(s, run);
            Inv(s'.mb, s'.ops) && s'.mb.size == s.mb.size && s.mb.taken <= s'.mb.taken && s.mb.stored <= s'.mb.stored
    decreases |run|
  {
    hide Inv;
    if run != [] {
      var a := run[0];
      match a {
        case Call(t, op) => CallKeepsInv(s.mb, s.ops, t, op);
        case Execute(t) => StepKeepsInv(s.mb, s.ops, t);
        case Return(t) => CallKeepsInv(s.mb, s.ops, t, Idle);
      }
      RunKeepsInv(Do(s, a), run[1..]);
    }
  }

  /** Index of the oldest message that has not been loaded. */
  function OldestSlot(mb: Mbox, g: Op): nat
    requires mb.size > 0
  {
    if g.GetAdvance? then (mb.readIdx + 1) % mb.size else mb.readIdx
  }

  /** Index of the first free slot. */
  function FreeSlot(mb: Mbox, p: Op): nat
    requires mb.size > 0
  {
    if p.PutAdvance? then (mb.writeIdx + 1) % mb.size else mb.writeIdx
  }

  /** The ring and its indices encode exactly the messages stored and not yet loaded. */
  ghost predicate EncodesRemainder(mb: Mbox, p: Op, g: Op) {
    && mb.taken <= mb.stored
    && |mb.messages| == mb.size
    && var rest := mb.stored[|mb.taken|..];
    && |rest| <= mb.size
    && (mb.size > 0 ==>
         && FreeSlot(mb, p) == (OldestSlot(mb, g) + |rest|) % mb.size
         && forall k | 0 <= k < |rest| :: rest[k] == mb.messages[(OldestSlot(mb, g) + k) % mb.size])
  }

  lemma ModShift(a: nat, k: nat, n: nat)
    requires n > 0
    ensures (a % n + k) % n == (a + k) % n
  {
    var q, b := a / n, a % n + k;
    assert a + k == n * q + b;
    assert b == n * (b / n) + b % n;
    assert n * q + n * (b / n) == n * (q + b / n);
    ModUnique(a + k, n, q + b / n, b % n);
  }

  lemma SlotsOfHistory(mb: Mbox, p: Op, g: Op)
    requires Books(mb, p, g) && mb.size > 0
    ensures OldestSlot(mb, g) == |mb.taken| % mb.size && FreeSlot(mb, p) == |mb.stored| % mb.size
  {
    if g.GetAdvance? {
      ModStep(|mb.taken| - 1, mb.size);
    }
    if p.PutAdvance? {
      ModStep(|mb.stored| - 1, mb.size);
    }
  }

  lemma RestSlot(mb: Mbox, p: Op, g: Op, k: nat)
    requires Books(mb, p, g) && mb.size > 0 && |mb.taken| + k < |mb.stored|
    ensures mb.stored[|mb.taken|..][k] == mb.messages[(OldestSlot(mb, g) + k) % mb.size]
  {
    hide OldestSlot, FreeSlot;
    SlotsOfHistory(mb, p, g);
    ModShift(|mb.taken|, k, mb.size);
  }

  lemma InvEncodesRemainder(mb: Mbox, p: Op, g: Op)
    requires Books(mb, p, g)
    ensures EncodesRemainder(mb, p, g)
  {
    hide OldestSlot, FreeSlot;
    if mb.size > 0 {
      var rest := mb.stored[|mb.taken|..];
      SlotsOfHistory(mb, p, g);
      ModShift(|mb.taken|, |rest|, mb.size);
      forall k | 0 <= k < |rest| ensures rest[k] == mb.messages[(OldestSlot(mb, g) + k) % mb.size] {
        RestSlot(mb, p, g, k);
      }
    }
  }

  /** mbox refines a FIFO: after every run, in every interleaving, what has been taken is a prefix of
      what has been stored and the ring encodes exactly the rest; the semaphores and the threads
      between wait and post add up to the size; no thread is about to leave the array. */
  lemma MailboxIsFifo(size: nat, s: System, run: seq<Action>)
    requires Init(s.mb, size) && (forall t | 0 <= t < |s.ops| :: s.ops[t] == Idle) && Runs(s, run)
    ensures var s' := After(s, run);
            var p, g := Putter(s'.mb, s'.ops), Getter(s'.mb, s'.ops);
            && EncodesRemainder(s'.mb, p, g)
            && s'.mb.semRead + s'.mb.semWrite
               + One(p.PutStore? || p.PutAdvance? || p.PutPost?) + One(g.GetLoad? || g.GetAdvance? || g.GetPost?) == size
            && forall t: nat | t < |s'.ops| :: Safe(s'.mb, s'.ops[t])
  {
    InitEstablishesInv(s.mb, size, s.ops);
    RunKeepsInv(s, run);
    var s' := After(s, run);
    InvEncodesRemainder(s'.mb, Putter(s'.mb, s'.ops), Getter(s'.mb, s'.ops));
    forall t: nat | t < |s'.ops| ensures Safe(s'.mb, s'.ops[t]) {
      InvIsSafe(s'.mb, s'.ops, t);
    }
  }

  /** When one thread is about to store while another is about to load, they use different slots. */
  lemma NoSlotRace(mb: Mbox, ops: seq<Op>, t: nat, u: nat)
    requires Inv(mb, ops) && t < |ops| && u < |ops| && ops[t].PutStore? && ops[u].GetLoad?
    ensures mb.writeIdx != mb.readIdx
  {
    assert Putter(mb, ops) == ops[t] && Getter(mb, ops) == ops[u];
    ModDistinct(|mb.taken|, |mb.stored|, mb.size);
  }

  /** No thread inside mbox_put waits on another forever: one of them can execute as soon as there is room. */
  lemma SomePutterCanStep(mb: Mbox, ops: seq<Op>, t: nat) returns (u: nat)
    requires Inv(mb, ops) && t < |ops| && ops[t].IsPut() && !ops[t].PutDone?
    requires mb.semWrite > 0 || exists v: nat :: v < |ops| && ops[v].HoldsWrite() && !ops[v].PutWait?
    ensures u < |ops| && ops[u].IsPut() && Enabled(mb, ops[u])
  {
    u := if mb.mutexWrite.Some? then mb.mutexWrite.value else t;
  }

  lemma SomeGetterCanStep(mb: Mbox, ops: seq<Op>, t: nat) returns (u: nat)
    requires Inv(mb, ops) && t < |ops| && ops[t].IsGet() && !ops[t].GetDone?
    requires mb.semRead > 0 || exists v: nat :: v < |ops| && ops[v].HoldsRead() && !ops[v].GetWait?
    ensures u < |ops| && ops[u].IsGet() && Enabled(mb, ops[u])
  {
    u := if mb.mutexRead.Some? then mb.mutexRead.value else t;
  }

  // ---- mbox_put and mbox_get as they are written ----

  /** Statements left in a call. */
  function Left(op: Op): nat {
    match op
    case PutLock(_) => 6 case PutWait(_) => 5 case PutStore(_) => 4 case PutAdvance => 3 case PutPost => 2 case PutUnlock => 1
    case GetLock => 6 case GetWait => 5 case GetLoad => 4 case GetAdvance(_) => 3 case GetPost(_) => 2 case GetUnlock(_) => 1
    case _ => 0
  }

  /** Thread t executes until its call is done or blocks, while no other thread runs. */
  function Uninterrupted(mb: Mbox, t: nat, op: Op): (Mbox, Op)
    decreases Left(op)
  {
    if Enabled(mb, op) && Safe(mb, op) then var (mb', op') := Step(mb, t, op); Uninterrupted(mb', t, op') else (mb, op)
  }

  /** An uninterrupted mbox_put appends its message if there is room and otherwise stops at the
      lock or at the semaphore without having stored anything. */
  lemma PutCall(mb: Mbox, ops: seq<Op>, t: nat, msg: Word)
    requires Inv(mb, ops) && t < |ops| && ops[t] == Idle
    ensures var (mb', op) := Uninterrupted(mb, t, PutLock(msg));
            && Inv(mb', ops[t := op])
            && (op == PutDone <==> mb.mutexWrite.None? && mb.semWrite > 0)
            && (op == PutDone ==> mb'.stored == mb.stored + [msg] && mb'.taken == mb.taken && mb'.mutexWrite == None)
            && (op != PutDone ==> op in {PutLock(msg), PutWait(msg)} && mb'.stored == mb.stored && mb'.messages == mb.messages)
  {
    CallKeepsInv(mb, ops, t, PutLock(msg));
    UninterruptedKeepsInv(mb, ops, t, PutLock(msg));
    if mb.mutexWrite.None? {
      var ops1 := ops[t := PutLock(msg)];
      StepKeepsInv(mb, ops1, t);
      var mb1 := Step(mb, t, PutLock(msg)).0;
      assert ops1[t := PutWait(msg)] == ops[t := PutWait(msg)];
      PutFrom(mb1, ops, t, PutWait(msg));
    }
  }

  /** An uninterrupted mbox_get returns the oldest message not yet taken. */
  lemma GetCall(mb: Mbox, ops: seq<Op>, t: nat)
    requires Inv(mb, ops) && t < |ops| && ops[t] == Idle
    ensures var (mb', op) := Uninterrupted(mb, t, GetLock);
            && Inv(mb', ops[t := op])
            && (op.GetDone? <==> mb.mutexRead.None? && mb.semRead > 0)
            && (op.GetDone? ==> && |mb.taken| < |mb.stored| && op.got == mb.stored[|mb.taken|]
                                && mb'.taken == mb.taken + [op.got] && mb'.stored == mb.stored && mb'.mutexRead == None)
            && (!op.GetDone? ==> op in {GetLock, GetWait} && mb'.taken == mb.taken && mb'.stored == mb.stored)
  {
    CallKeepsInv(mb, ops, t, GetLock);
    UninterruptedKeepsInv(mb, ops, t, GetLock);
    if mb.mutexRead.None? {
      var ops1 := ops[t := GetLock];
      StepKeepsInv(mb, ops1, t);
      var mb1 := Step(mb, t, GetLock).0;
      assert ops1[t := GetWait] == ops[t := GetWait];
      GetFrom(mb1, ops, t, GetWait);
    }
  }

  /** Inside the critical section of mbox_put. */
  lemma {:induction false} PutFrom(mb: Mbox, ops: seq<Op>, t: nat, op: Op)
    requires t < |ops| && Inv(mb, ops[t := op]) && op.HoldsWrite()
    ensures var (mb', op') := Uninterrupted(mb, t, op);
            if op.PutWait? && mb.semWrite == 0 then mb' == mb && op' == op
            else op' == PutDone && mb'.taken == mb.taken && mb'.mutexWrite == None
                 && mb'.stored == (if op.PutWait? || op.PutStore? then mb.stored + [op.msg] else mb.stored)
    decreases Left(op)
  {
    InvIsSafe(mb, ops[t := op], t);
    if Enabled(mb, op) {
      StepKeepsInv(mb, ops[t := op], t);
      var (mb1, op1) := Step(mb, t, op);
      assert ops[t := op][t := op1] == ops[t := op1];
      if op1 != PutDone {
        PutFrom(mb1, ops, t, op1);
      }
    }
  }

  /** Inside the critical section of mbox_get. */
  lemma {:induction false} GetFrom(mb: Mbox, ops: seq<Op>, t: nat, op: Op)
    requires t < |ops| && Inv(mb, ops[t := op]) && op.HoldsRead()
    ensures var (mb', op') := Uninterrupted(mb, t, op);
            if op.GetWait? && mb.semRead == 0 then mb' == mb && op' == op
            else && op'.GetDone? && mb'.stored == mb.stored && mb'.mutexRead == None
                 && (if op.GetWait? || op.GetLoad?
                     then |mb.taken| < |mb.stored| && op'.got == mb.stored[|mb.taken|] && mb'.taken == mb.taken + [op'.got]
                     else op'.got == op.got && mb'.taken == mb.taken)
    decreases Left(op)
  {
    InvIsSafe(mb, ops[t := op], t);
    if Enabled(mb, op) {
      assert Getter(mb, ops[t := op]) == op;
      StepKeepsInv(mb, ops[t := op], t);
      var (mb1, op1) := Step(mb, t, op);
      assert ops[t := op][t := op1] == ops[t := op1];
      if !op1.GetDone? {
        GetFrom(mb1, ops, t, op1);
      }
    }
  }

  lemma {:induction false} UninterruptedKeepsInv(mb: Mbox, ops: seq<Op>, t: nat, op: Op)
    requires t < |ops| && Inv(mb, ops[t := op])
    ensures var (mb', op') := Uninterrupted(mb, t, op); Inv(mb', ops[t := op'])
    decreases Left(op)
  {
    if Enabled(mb, op) && Safe(mb, op) {
      StepKeepsInv(mb, ops[t := op], t);
      var (mb', op') := Step(mb, t, op);
      assert ops[t := op][t := op'] == ops[t := op'];
      UninterruptedKeepsInv(mb', ops, t, op');
    }
  }
}
