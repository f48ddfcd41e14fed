// linux/libreconos/rq.c and its callers in libreconos.c (RQ_SEND, RQ_RECEIVE): messages of varying size
// travel through a mailbox as addresses of heap blocks.
module MessageQueue {
  import opened Words

  /** A message of `size` bytes; the words that delegate threads transfer are its size/4 whole words. */
  datatype Message = Message(size: Word, words: seq<Word>) {
    predicate Valid() { |words| == size / 4 }
  }

  type Addr = nat

  /** A delegate thread inside RQ_SEND or RQ_RECEIVE. `msg` is the buffer the delegate allocates, `copy`
      the block that rq_send allocates and rq_receive frees; n tells which sent message a block holds. */
  datatype Pc =
    | Idle
    | SendCopy(msg: Addr)                        // rq_send: malloc and fill the copy
    | SendPut(msg: Addr, copy: Addr)             // rq_send: mbox_put
    | SendFree(msg: Addr)                        // free(msg)
    | RecvGet(msg: Addr, limit: Word)            // rq_receive: mbox_get
    | RecvCheck(msg: Addr, copy: Addr, limit: Word, n: nat)
    | RecvFreeCopy(msg: Addr, copy: Addr, limit: Word, n: nat)
    | RecvFree(msg: Addr, limit: Word, n: nat, result: Option<Message>)  // reply, then free(msg)

  /** Who is responsible for a heap block. */
  datatype Owner = Thread(t: nat) | Queued(n: nat) | Leaked(n: nat, limit: Word)

  /** Heap, mailbox contents, threads; history: who owns each block, all messages put, how many were got,
      and how many receives were rejected. */
  datatype State = State(
    heap: map<Addr, Message>, capacity: nat, queue: seq<Addr>, threads: seq<Pc>,
    owner: map<Addr, Owner>, sent: seq<Message>, got: nat, rejected: nat)

  predicate Init(s: State) {
    && s.heap == map[] && s.owner == map[] && s.queue == [] && s.sent == [] && s.got == s.rejected == 0
    && forall t | 0 <= t < |s.threads| :: s.threads[t] == Idle
  }

  datatype Action =
    | Send(t: nat, m: Message, at: Addr)     // the delegate has read a message into a fresh block
    | Receive(t: nat, limit: Word, at: Addr) // the delegate has allocated its receive buffer
    | Copy(t: nat, at: Addr)                 // rq_send allocates the copy
    | Step(t: nat)                           // any other statement

  predicate Can(s: State, a: Action) {
    && a.t < |s.threads|
    && match a
       case Send(t, m, at) => s.threads[t] == Idle && at !in s.heap && m.Valid()
       case Receive(t, limit, at) => s.threads[t] == Idle && at !in s.heap
       case Copy(t, at) => s.threads[t].SendCopy? && at !in s.heap
       case Step(t) =>
         match s.threads[t]
         case Idle => false
         case SendCopy(_) => false
         case SendPut(_, _) => |s.queue| < s.capacity
         case RecvGet(_, _) => s.queue != []
         case _ => true
  }

  /** Every block the statement reads or frees is allocated. */
  predicate Safe(s: State, pc: Pc) {
    match pc
    case Idle => true
    case SendCopy(m) => m in s.heap
    case SendPut(m, c) => m in s.heap && c in s.heap
    case SendFree(m) => m in s.heap
    case RecvGet(m, _) => m in s.heap && (s.queue != [] ==> s.queue[0] in s.heap)
    case RecvCheck(m, c, _, _) => m in s.heap && c in s.heap
    case RecvFreeCopy(m, c, _, _) => m in s.heap && c in s.heap
    case RecvFree(m, _, _, _) => m in s.heap
  }

  /** rq_receive rejects empty messages and messages larger than the buffer. */
  predicate Rejects(size: Word, limit: Word) { size == 0 || size > limit }

  /** What rq_receive returns for a message of this size. */
  function ReceiveResult(size: Word, limit: Word): int { if Rejects(size, limit) then -1 else size }

  function Do(s: State, a: Action): State
    requires Can(s, a) && Safe(s, s.threads[a.t])
  {
    match a
    case Send(t, m, at) =>
      s.(heap := s.heap[at := m], owner := s.owner[at := Thread(t)], threads := s.threads[t := SendCopy(at)])
    case Receive(t, limit, at) =>
      s.(heap := s.heap[at := Message(0, [])], owner := s.owner[at := Thread(t)], threads := s.threads[t := RecvGet(at, limit)])
    case Copy(t, at) =>
      var msg := s.threads[t].msg;
      s.(heap := s.heap[at := s.heap[msg]], owner := s.owner[at := Thread(t)], threads := s.threads[t := SendPut(msg, at)])
    case Step(t) =>
      match s.threads[t]
      case SendPut(m, c) =>
        s.(queue := s.queue + [c], owner := s.owner[c := Queued(|s.sent|)], sent := s.sent + [s.heap[c]],
           threads := s.threads[t := SendFree(m)])
      case SendFree(m) => Freed(s, m).(threads := s.threads[t := Idle])
      case RecvGet(m, limit) =>
        s.(queue := s.queue[1..], owner := s.owner[s.queue[0] := Thread(t)], got := s.got + 1,
           threads := s.threads[t := RecvCheck(m, s.queue[0], limit, s.got)])
      case RecvCheck(m, c, limit, n) =>
        if Rejects(s.heap[c].size, limit)
        then s.(owner := s.owner[c := Leaked(n, limit)], rejected := s.rejected + 1, threads := s.threads[t := RecvFree(m, limit, n, None)])
        else s.(heap := s.heap[m := s.heap[c]], threads := s.threads[t := RecvFreeCopy(m, c, limit, n)])
      case RecvFreeCopy(m, c, limit, n) => Freed(s, c).(threads := s.threads[t := RecvFree(m, limit, n, Some(s.heap[m]))])
      case RecvFree(m, _, _, _) => Freed(s, m).(threads := s.threads[t := Idle])
  }

  function Freed(s: State, a: Addr): State {
    s.(heap := s.heap - {a}, owner := s.owner - {a})
  }

  // ---- The invariant ----

  /** The thread holds the block at a. */
  predicate Has(pc: Pc, a: Addr) {
    match pc
    case Idle => false
    case SendPut(m, c) => a == m || a == c
    case RecvCheck(m, c, _, _) => a == m || a == c
    case RecvFreeCopy(m, c, _, _) => a == m || a == c
    case _ => a == pc.msg
  }

  /** A thread's two blocks are different, and the copy it holds is the message it is about. */
  predicate PcOk(s: State, pc: Pc) {
    match pc
    case SendPut(m, c) => m != c && m in s.heap && c in s.heap && s.heap[m] == s.heap[c] && s.heap[c].Valid()
    case SendCopy(m) => m in s.heap && s.heap[m].Valid()
    case RecvCheck(m, c, _, n) => m != c && c in s.heap && n < s.got <= |s.sent| && s.heap[c] == s.sent[n]
    case RecvFreeCopy(m, c, limit, n) =>
      m != c && m in s.heap && n < s.got <= |s.sent| && s.heap[m] == s.sent[n] && !Rejects(s.sent[n].size, limit)
    case RecvFree(_, limit, n, result) =>
      n < s.got <= |s.sent| && result == if Rejects(s.sent[n].size, limit) then None else Some(s.sent[n])
    case _ => true
  }

  /** The blocks a thread holds are recorded as its own. */
  ghost predicate ThreadsOwn(threads: seq<Pc>, owner: map<Addr, Owner>) {
    forall t: nat, a | t < |threads| && Has(threads[t], a) :: a in owner && owner[a] == Thread(t)
  }

  /** A block recorded as a thread's is held by it: somebody is going to pass it on or free it. */
  ghost predicate OwnersHold(threads: seq<Pc>, owner: map<Addr, Owner>) {
    forall a | a in owner && owner[a].Thread? :: owner[a].t < |threads| && Has(threads[owner[a].t], a)
  }

  /** The blocks in the mailbox are recorded under the numbers of their messages. */
  ghost predicate SlotsOwned(queue: seq<Addr>, got: nat, owner: map<Addr, Owner>) {
    forall i | 0 <= i < |queue| :: queue[i] in owner && owner[queue[i]] == Queued(got + i)
  }

  /** A block recorded as queued is in the mailbox. */
  ghost predicate QueuedHaveSlots(queue: seq<Addr>, got: nat, owner: map<Addr, Owner>) {
    forall a | a in owner && owner[a].Queued? :: got <= owner[a].n < got + |queue| && queue[owner[a].n - got] == a
  }

  /** Every allocated block has exactly one owner. */
  ghost predicate Ownership(s: State) {
    && s.owner.Keys == s.heap.Keys
    && ThreadsOwn(s.threads, s.owner) && OwnersHold(s.threads, s.owner)
    && SlotsOwned(s.queue, s.got, s.owner) && QueuedHaveSlots(s.queue, s.got, s.owner)
  }

  /** The mailbox holds the blocks of the messages put and not yet got. */
  ghost predicate QueueOk(s: State) {
    && |s.sent| == s.got + |s.queue|
    && (forall i | 0 <= i < |s.sent| :: s.sent[i].Valid())
    && (forall i | 0 <= i < |s.queue| :: s.queue[i] in s.heap && s.heap[s.queue[i]] == s.sent[s.got + i])
  }

  ghost predicate Contents(s: State) {
    && QueueOk(s)
    && (forall t | 0 <= t < |s.threads| :: PcOk(s, s.threads[t]))
  }

  function LeakedBlocks(s: State): set<Addr> {
    set a | a in s.owner && s.owner[a].Leaked?
  }

  /** A leaked block still holds its message, which is empty or does not fit. */
  ghost predicate LeaksOk(s: State) {
    forall a | a in s.owner && s.owner[a].Leaked? :: LeakOk(s, a, s.owner[a].n, s.owner[a].limit)
  }

  predicate LeakOk(s: State, a: Addr, n: nat, limit: Word) {
    n < s.got <= |s.sent| && a in s.heap && s.heap[a] == s.sent[n] && !(0 < s.sent[n].size <= limit)
  }

  ghost predicate Inv(s: State) {
    Ownership(s) && Contents(s) && LeaksOk(s) && |LeakedBlocks(s)| == s.rejected
  }

  /** No statement touches a block that is not allocated: nothing is used after free or freed twice. */
  lemma InvIsSafe(s: State, t: nat)
    requires Inv(s) && t < |s.threads|
    ensures Safe(s, s.threads[t])
  {
    var pc := s.threads[t];
    assert pc != Idle ==> Has(pc, pc.msg);
    assert s.queue != [] ==> s.queue[0] in s.owner;
    assert pc.SendPut? || pc.RecvCheck? || pc.RecvFreeCopy? ==> Has(pc, pc.copy);
  }

  // Each statement passes at most one block on. What that does to the four parts of Ownership:

  /** Thread t gets hold of block a. */
  lemma ThreadGains(threads: seq<Pc>, owner: map<Addr, Owner>, t: nat, pc: Pc, a: Addr)
    requires ThreadsOwn(threads, owner) && OwnersHold(threads, owner) && t < |threads|
    requires a !in owner || !owner[a].Thread?
    requires forall x :: Has(pc, x) <==> Has(threads[t], x) || x == a
    ensures ThreadsOwn(threads[t := pc], owner[a := Thread(t)]) && OwnersHold(threads[t := pc], owner[a := Thread(t)])
  {
    var ts, o := threads[t := pc], owner[a := Thread(t)];
    forall u: nat, x | u < |ts| && Has(ts[u], x) ensures x in o && o[x] == Thread(u) {
      if u != t {
        assert Has(threads[u], x);
      } else if x != a {
        assert Has(threads[t], x);
      }
    }
    forall x | x in o && o[x].Thread? ensures o[x].t < |ts| && Has(ts[o[x].t], x) {
      assert x != a ==> owner[x] == o[x] && Has(threads[o[x].t], x);
    }
  }

  /** Thread t gives up block a, which gets another owner or is freed. */
  lemma ThreadLoses(threads: seq<Pc>, owner: map<Addr, Owner>, owner': map<Addr, Owner>, t: nat, pc: Pc, a: Addr)
    requires ThreadsOwn(threads, owner) && OwnersHold(threads, owner) && t < |threads| && Has(threads[t], a)
    requires owner' == owner - {a} || (a in owner' && owner' == owner[a := owner'[a]] && !owner'[a].Thread?)
    requires forall x :: Has(pc, x) <==> Has(threads[t], x) && x != a
    ensures ThreadsOwn(threads[t := pc], owner') && OwnersHold(threads[t := pc], owner')
  {
    var ts := threads[t := pc];
    forall u: nat, x | u < |ts| && Has(ts[u], x) ensures x in owner' && owner'[x] == Thread(u) {
      assert Has(threads[u], x);
      assert owner[x] == Thread(u) && owner[a] == Thread(t);
      assert x == a ==> u == t;
    }
    forall x | x in owner' && owner'[x].Thread? ensures owner'[x].t < |ts| && Has(ts[owner'[x].t], x) {
      assert x != a && owner[x] == owner'[x] && Has(threads[owner[x].t], x);
    }
  }

  lemma ThreadKeeps(threads: seq<Pc>, owner: map<Addr, Owner>, t: nat, pc: Pc)
    requires ThreadsOwn(threads, owner) && OwnersHold(threads, owner) && t < |threads|
    requires forall x :: Has(pc, x) <==> Has(threads[t], x)
    ensures ThreadsOwn(threads[t := pc], owner) && OwnersHold(threads[t := pc], owner)
  {
  }

  /** The mailbox does not notice what happens to a block that is not in it. */
  lemma SlotsStay(queue: seq<Addr>, got: nat, owner: map<Addr, Owner>, owner': map<Addr, Owner>, a: Addr)
    requires SlotsOwned(queue, got, owner) && QueuedHaveSlots(queue, got, owner) && (a !in owner || !owner[a].Queued?)
    requires owner' == owner - {a} || (a in owner' && owner' == owner[a := owner'[a]] && !owner'[a].Queued?)
    ensures SlotsOwned(queue, got, owner') && QueuedHaveSlots(queue, got, owner')
  {
  }

  lemma SlotAdded(queue: seq<Addr>, got: nat, owner: map<Addr, Owner>, a: Addr)
    requires SlotsOwned(queue, got, owner) && QueuedHaveSlots(queue, got, owner) && (a !in owner || !owner[a].Queued?)
    ensures SlotsOwned(queue + [a], got, owner[a := Queued(got + |queue|)])
    ensures QueuedHaveSlots(queue + [a], got, owner[a := Queued(got + |queue|)])
  {
  }

  lemma SlotTaken(queue: seq<Addr>, got: nat, owner: map<Addr, Owner>, t: nat)
    requires SlotsOwned(queue, got, owner) && QueuedHaveSlots(queue, got, owner) && queue != []
    ensures queue[0] in owner && owner[queue[0]] == Queued(got)
    ensures SlotsOwned(queue[1..], got + 1, owner[queue[0] := Thread(t)])
    ensures QueuedHaveSlots(queue[1..], got + 1, owner[queue[0] := Thread(t)])
  {
    var o, q := owner[queue[0] := Thread(t)], queue[1..];
    assert owner[queue[0]] == Queued(got + 0);
    forall i | 0 <= i < |q| ensures q[i] in o && o[q[i]] == Queued(got + 1 + i) {
      assert q[i] == queue[i + 1] && owner[queue[i + 1]] == Queued(got + (i + 1));
    }
    forall a | a in o && o[a].Queued? ensures got + 1 <= o[a].n < got + 1 + |q| && q[o[a].n - got - 1] == a {
      assert owner[a] == o[a] && queue[o[a].n - got] == a;
      assert o[a].n != got;
    }
  }

  lemma AllocationKeepsOwnership(s: State, a: Action)
    requires Ownership(s) && Can(s, a) && Safe(s, s.threads[a.t]) && !a.Step?
    ensures Ownership(Do(s, a))
  {
    hide ThreadsOwn, OwnersHold, SlotsOwned, QueuedHaveSlots;
    var s' := Do(s, a);
    ThreadGains(s.threads, s.owner, a.t, s'.threads[a.t], a.at);
    SlotsStay(s.queue, s.got, s.owner, s'.owner, a.at);
  }

  lemma GetKeepsOwnership(s: State, a: Action)
    requires Ownership(s) && Can(s, a) && Safe(s, s.threads[a.t]) && a.Step? && s.threads[a.t].RecvGet?
    ensures Ownership(Do(s, a))
  {
    hide ThreadsOwn, OwnersHold, SlotsOwned, QueuedHaveSlots;
    SlotTaken(s.queue, s.got, s.owner, a.t);
    ThreadGains(s.threads, s.owner, a.t, Do(s, a).threads[a.t], s.queue[0]);
  }

  lemma PutKeepsOwnership(s: State, a: Action)
    requires Ownership(s) && Can(s, a) && Safe(s, s.threads[a.t]) && a.Step? && s.threads[a.t].SendPut?
    requires PcOk(s, s.threads[a.t]) && |s.sent| == s.got + |s.queue|
    ensures Ownership(Do(s, a))
  {
    var c := s.threads[a.t].copy;
    OwnBlock(s, a.t, c);
    hide ThreadsOwn, OwnersHold, SlotsOwned, QueuedHaveSlots;
    SlotAdded(s.queue, s.got, s.owner, c);
    ThreadLoses(s.threads, s.owner, Do(s, a).owner, a.t, Do(s, a).threads[a.t], c);
  }

  lemma CheckKeepsOwnership(s: State, a: Action)
    requires Ownership(s) && Can(s, a) && Safe(s, s.threads[a.t]) && a.Step? && s.threads[a.t].RecvCheck?
    requires PcOk(s, s.threads[a.t])
    ensures Ownership(Do(s, a))
  {
    var c, s' := s.threads[a.t].copy, Do(s, a);
    OwnBlock(s, a.t, c);
    hide ThreadsOwn, OwnersHold, SlotsOwned, QueuedHaveSlots;
    if Rejects(s.heap[c].size, s.threads[a.t].limit) {
      SlotsStay(s.queue, s.got, s.owner, s'.owner, c);
      ThreadLoses(s.threads, s.owner, s'.owner, a.t, s'.threads[a.t], c);
    } else {
      ThreadKeeps(s.threads, s.owner, a.t, s'.threads[a.t]);
    }
  }

  lemma FreeKeepsOwnership(s: State, a: Action, x: Addr)
    requires Ownership(s) && Can(s, a) && Safe(s, s.threads[a.t]) && a.Step? && PcOk(s, s.threads[a.t])
    requires match s.threads[a.t]
             case SendFree(m) => x == m
             case RecvFreeCopy(_, c, _, _) => x == c
             case RecvFree(m, _, _, _) => x == m
             case _ => false
    ensures Ownership(Do(s, a))
  {
    var s' := Do(s, a);
    OwnBlock(s, a.t, x);
    hide ThreadsOwn, OwnersHold, SlotsOwned, QueuedHaveSlots;
    SlotsStay(s.queue, s.got, s.owner, s'.owner, x);
    ThreadLoses(s.threads, s.owner, s'.owner, a.t, s'.threads[a.t], x);
  }

  lemma StepKeepsOwnership(s: State, a: Action)
    requires Inv(s) && Can(s, a) && Safe(s, s.threads[a.t])
    ensures Ownership(Do(s, a))
  {
    assert |s.sent| == s.got + |s.queue| && PcOk(s, s.threads[a.t]) && Ownership(s);
    hide Inv, Ownership, Do, PcOk, Safe;
    if !a.Step? {
      AllocationKeepsOwnership(s, a);
    } else {
      match s.threads[a.t] {
        case SendPut(_, _) => PutKeepsOwnership(s, a);
        case SendFree(m) => FreeKeepsOwnership(s, a, m);
        case RecvGet(_, _) => GetKeepsOwnership(s, a);
        case RecvCheck(_, _, _, _) => CheckKeepsOwnership(s, a);
        case RecvFreeCopy(_, c, _, _) => FreeKeepsOwnership(s, a, c);
        case RecvFree(m, _, _, _) => FreeKeepsOwnership(s, a, m);
      }
    }
  }

  lemma OwnBlock(s: State, t: nat, a: Addr)
    requires Ownership(s) && t < |s.threads| && Has(s.threads[t], a)
    ensures a in s.heap && a in s.owner && s.owner[a] == Thread(t)
  {
  }

  /** Blocks held by a thread are not in the mailbox. */
  lemma QueuedIsNotHeld(s: State, t: nat)
    requires Ownership(s) && t < |s.threads|
    ensures forall i | 0 <= i < |s.queue| :: s.queue[i] in s.heap && !Has(s.threads[t], s.queue[i])
  {
    forall i | 0 <= i < |s.queue| ensures s.queue[i] in s.heap && !Has(s.threads[t], s.queue[i]) {
      assert s.owner[s.queue[i]] == Queued(s.got + i);
    }
  }

  /** Blocks held by another thread are not ours. */
  lemma HeldByOne(s: State, t: nat, u: nat)
    requires Ownership(s) && t < |s.threads| && u < |s.threads| && t != u
    ensures forall x | Has(s.threads[u], x) :: x in s.heap && !Has(s.threads[t], x)
  {
    forall x | Has(s.threads[u], x) ensures x in s.heap && !Has(s.threads[t], x) {
      assert s.owner[x] == Thread(u);
      assert s.owner[x] != Thread(t);
    }
  }

  /** A step changes heap blocks only where its thread holds them or where nothing was allocated. */
  lemma StepTouchesOwnBlocks(s: State, a: Action, x: Addr)
    requires Can(s, a) && Safe(s, s.threads[a.t]) && x in s.heap && !Has(s.threads[a.t], x)
    ensures var s' := Do(s, a); x in s'.heap && s'.heap[x] == s.heap[x]
  {
  }

  lemma StepGrowsHistory(s: State, a: Action)
    requires Can(s, a) && Safe(s, s.threads[a.t]) && QueueOk(s)
    ensures var s' := Do(s, a); s.sent <= s'.sent && s.got <= s'.got <= |s'.sent|
  {
    hide Has;
  }

  lemma PcOkFrame(s: State, s': State, pc: Pc)
    requires PcOk(s, pc) && s.sent <= s'.sent && s.got <= s'.got <= |s'.sent|
    requires forall x | Has(pc, x) :: x in s.heap && x in s'.heap && s'.heap[x] == s.heap[x]
    ensures PcOk(s', pc)
  {
    assert !pc.Idle? ==> Has(pc, pc.msg);
    assert pc.SendPut? || pc.RecvCheck? || pc.RecvFreeCopy? ==> Has(pc, pc.copy);
  }

  /** What a thread is about survives statements of other threads. */
  lemma OthersKeepPcOk(s: State, a: Action, u: nat)
    requires Inv(s) && Can(s, a) && Safe(s, s.threads[a.t]) && u < |s.threads| && u != a.t
    ensures PcOk(Do(s, a), s.threads[u])
  {
    assert PcOk(s, s.threads[u]) && QueueOk(s);
    HeldByOne(s, a.t, u);
    StepGrowsHistory(s, a);
    hide Inv, PcOk, QueueOk;
    forall x | Has(s.threads[u], x) ensures x in s.heap && x in Do(s, a).heap && Do(s, a).heap[x] == s.heap[x] {
      StepTouchesOwnBlocks(s, a, x);
    }
    hide Do;
    PcOkFrame(s, Do(s, a), s.threads[u]);
  }

  lemma OwnPcOk(s: State, a: Action)
    requires Inv(s) && Can(s, a) && Safe(s, s.threads[a.t])
    ensures PcOk(Do(s, a), Do(s, a).threads[a.t])
  {
    var pc := s.threads[a.t];
    assert PcOk(s, pc);
    assert !pc.Idle? ==> Has(pc, pc.msg);
    if pc.RecvGet? && a.Step? {
      assert s.owner[s.queue[0]] == Queued(s.got + 0);
    }
  }

  lemma InvParts(s: State, t: nat)
    requires Inv(s) && t < |s.threads|
    ensures Ownership(s) && QueueOk(s) && PcOk(s, s.threads[t]) && LeaksOk(s)
  {
    hide Ownership, QueueOk, PcOk, LeaksOk;
  }

  lemma StepKeepsQueue(s: State, a: Action)
    requires Inv(s) && Can(s, a) && Safe(s, s.threads[a.t])
    ensures QueueOk(Do(s, a))
  {
    hide Inv, Has, Ownership, PcOk, LeaksOk;
    InvParts(s, a.t);
    var s' := Do(s, a);
    QueuedIsNotHeld(s, a.t);
    forall i | 0 <= i < |s.queue| ensures s.queue[i] in s'.heap && s'.heap[s.queue[i]] == s.sent[s.got + i] {
      StepTouchesOwnBlocks(s, a, s.queue[i]);
    }
    QueueStep(s, a);
  }

  lemma QueueStep(s: State, a: Action)
    requires Can(s, a) && Safe(s, s.threads[a.t]) && QueueOk(s) && PcOk(s, s.threads[a.t])
    requires forall i | 0 <= i < |s.queue| ::
               s.queue[i] in Do(s, a).heap && Do(s, a).heap[s.queue[i]] == s.sent[s.got + i]
    ensures QueueOk(Do(s, a))
  {
    hide Has;
    var s' := Do(s, a);
    if a.Step? && s.threads[a.t].RecvGet? {
      forall i | 0 <= i < |s'.queue| ensures s'.queue[i] in s'.heap && s'.heap[s'.queue[i]] == s'.sent[s'.got + i] {
        assert s'.queue[i] == s.queue[i + 1];
      }
    }
  }

  /** Only a block that was leaked, or becomes leaked, changes the set of leaked blocks. */
  lemma LeaksAfter(s: State, s': State, a: Addr)
    requires a !in s.owner || !s.owner[a].Leaked?
    requires s'.owner == s.owner - {a} || (a in s'.owner && s'.owner == s.owner[a := s'.owner[a]])
    ensures LeakedBlocks(s') == if a in s'.owner && s'.owner[a].Leaked? then LeakedBlocks(s) + {a} else LeakedBlocks(s)
    ensures a !in LeakedBlocks(s)
  {
  }

  lemma StepCountsLeaks(s: State, a: Action)
    requires Inv(s) && Can(s, a) && Safe(s, s.threads[a.t])
    ensures |LeakedBlocks(Do(s, a))| == Do(s, a).rejected
  {
    hide Contents, LeakedBlocks;
    var s', pc := Do(s, a), s.threads[a.t];
    assert !pc.Idle? ==> Has(pc, pc.msg);
    assert pc.SendPut? || pc.RecvCheck? || pc.RecvFreeCopy? ==> Has(pc, pc.copy);
    assert s.queue != [] ==> s.owner[s.queue[0]] == Queued(s.got + 0);
    var changed :=
      if !a.Step? then a.at
      else if pc.RecvGet? then s.queue[0]
      else if pc.SendPut? || pc.RecvCheck? || pc.RecvFreeCopy? then pc.copy
      else pc.msg;
    assert s'.owner == s.owner - {changed} || s'.owner == s.owner[changed := s'.owner[changed]];
    LeaksAfter(s, s', changed);
  }

  lemma StepKeepsLeaks(s: State, a: Action)
    requires Inv(s) && Can(s, a) && Safe(s, s.threads[a.t])
    ensures LeaksOk(Do(s, a))
  {
    hide Inv, LeakOk, Can, Safe, Do;
    LeakedNow(s, a);
    var s' := Do(s, a);
    forall x | x in s'.owner && s'.owner[x].Leaked? ensures LeakOk(s', x, s'.owner[x].n, s'.owner[x].limit) {
      if x in s.owner && s'.owner[x] == s.owner[x] {
        LeakStays(s, a, x);
      } else {
        LeakBegins(s, a);
      }
    }
  }

  /** The only new leak is the block that a receiver rejects. */
  lemma LeakedNow(s: State, a: Action)
    requires Inv(s) && Can(s, a) && Safe(s, s.threads[a.t])
    ensures forall x | x in Do(s, a).owner && Do(s, a).owner[x].Leaked? ::
              || (x in s.owner && Do(s, a).owner[x] == s.owner[x])
              || (a.Step? && s.threads[a.t].RecvCheck? && x == s.threads[a.t].copy)
  {
    hide Inv, Rejects, Has;
  }

  lemma LeakStays(s: State, a: Action, x: Addr)
    requires Inv(s) && Can(s, a) && Safe(s, s.threads[a.t]) && x in s.owner && s.owner[x].Leaked?
    ensures LeakOk(Do(s, a), x, s.owner[x].n, s.owner[x].limit)
  {
    hide Inv, Safe, Has, Do, Ownership, QueueOk, PcOk;
    InvParts(s, a.t);
    assert LeakOk(s, x, s.owner[x].n, s.owner[x].limit);
    StepGrowsHistory(s, a);
    if Has(s.threads[a.t], x) {
      OwnBlock(s, a.t, x);
    }
    StepTouchesOwnBlocks(s, a, x);
  }

  lemma LeakBegins(s: State, a: Action)
    requires Inv(s) && Can(s, a) && Safe(s, s.threads[a.t]) && a.Step? && s.threads[a.t].RecvCheck?
    ensures var s', c := Do(s, a), s.threads[a.t].copy;
            c in s'.owner && s'.owner[c].Leaked? ==> LeakOk(s', c, s'.owner[c].n, s'.owner[c].limit)
  {
    hide Inv, Ownership, QueueOk;
    InvParts(s, a.t);
    OwnBlock(s, a.t, s.threads[a.t].copy);
  }

  /** Every statement of every thread keeps the ownership discipline and the queue's contents. */
  lemma StepKeepsInv(s: State, a: Action)
    requires Inv(s) && Can(s, a) && Safe(s, s.threads[a.t])
    ensures Inv(Do(s, a))
  {
    StepKeepsOwnership(s, a);
    StepKeepsQueue(s, a);
    StepKeepsLeaks(s, a);
    StepCountsLeaks(s, a);
    OwnPcOk(s, a);
    var s' := Do(s, a);
    forall u | 0 <= u < |s'.threads| ensures PcOk(s', s'.threads[u]) {
      if u != a.t {
        OthersKeepPcOk(s, a, u);
      }
    }
    hide Ownership, PcOk, Safe, Can;
  }

  predicate Runs(s: State, run: seq<Action>)
    decreases |run|
  {
    run == [] || (Can(s, run[0]) && Safe(s, s.threads[run[0].t]) && Runs(Do(s, run[0]), run[1..]))
  }

  function After(s: State, run: seq<Action>): State
    requires Runs(s, run)
    decreases |run|
  {
    if run == [] then s else After(Do(s, run[0]), run[1..])
  }

  lemma {:induction false} RunKeepsInv(s: State, run: seq<Action>)
    requires Inv(s) && Runs(s, run)
    ensures Inv(After(s, run))
    decreases |run|
  {
    if run != [] {
      StepKeepsInv(s, run[0]);
      RunKeepsInv(Do(s, run[0]), run[1..]);
    }
  }

  lemma InitHasInv(s: State)
    requires Init(s)
    ensures Inv(s)
  {
    assert LeakedBlocks(s) == {};
  }

  /** Delivery: in every reachable state, whatever other threads did in between, a receiver that is about to reply has
      the n-th message sent, whole and unchanged, if that message is not empty and fits, and otherwise nothing;
      n is the place of that message in the order of the puts. */
  lemma MessagesArriveInOrder(s0: State, run: seq<Action>, t: nat)
    requires Init(s0) && Runs(s0, run) && t < |After(s0, run).threads| && After(s0, run).threads[t].RecvFree?
    ensures var s := After(s0, run);
            var pc := s.threads[t];
            && pc.n < s.got <= |s.sent|
            && (pc.result == Some(s.sent[pc.n]) <==> 0 < s.sent[pc.n].size <= pc.limit)
            && (pc.result == None <==> s.sent[pc.n].size == 0 || s.sent[pc.n].size > pc.limit)
  {
    InitHasInv(s0);
    RunKeepsInv(s0, run);
    assert PcOk(After(s0, run), After(s0, run).threads[t]);
  }

  /** The number of the message that a receiver is dealing with. */
  function NumberOf(pc: Pc): Option<nat> {
    if pc.RecvCheck? || pc.RecvFreeCopy? || pc.RecvFree? then Some(pc.n) else None
  }

  ghost predicate NumbersDiffer(s: State) {
    && (forall t: nat | t < |s.threads| && NumberOf(s.threads[t]).Some? :: NumberOf(s.threads[t]).value < s.got)
    && (forall t: nat, u: nat | t < u < |s.threads| && NumberOf(s.threads[t]).Some? ::
          NumberOf(s.threads[t]) != NumberOf(s.threads[u]))
  }

  lemma {:induction false} RunKeepsNumbers(s: State, run: seq<Action>)
    requires NumbersDiffer(s) && Runs(s, run)
    ensures NumbersDiffer(After(s, run))
    decreases |run|
  {
    if run != [] {
      StepKeepsNumbers(s, run[0]);
      RunKeepsNumbers(Do(s, run[0]), run[1..]);
    }
  }

  lemma StepKeepsNumbers(s: State, a: Action)
    requires NumbersDiffer(s) && Can(s, a) && Safe(s, s.threads[a.t])
    ensures NumbersDiffer(Do(s, a))
  {
    var p, q := NumberOf(s.threads[a.t]), NumberOf(Do(s, a).threads[a.t]);
    assert q == p || q == None || q == Some(s.got);
    assert q == Some(s.got) ==> Do(s, a).got == s.got + 1 || q == p;
  }

  /** No message is delivered twice: two receivers at work have different messages. */
  lemma NoMessageIsDeliveredTwice(s0: State, run: seq<Action>, t: nat, u: nat)
    requires Init(s0) && Runs(s0, run) && t < u < |After(s0, run).threads|
    requires NumberOf(After(s0, run).threads[t]).Some?
    ensures NumberOf(After(s0, run).threads[t]) != NumberOf(After(s0, run).threads[u])
  {
    RunKeepsNumbers(s0, run);
  }

  /** The next get hands out message number `got`, which is in the queue in front. */
  lemma GetTakesNext(s0: State, run: seq<Action>, t: nat)
    requires Init(s0) && Runs(s0, run)
    requires t < |After(s0, run).threads| && After(s0, run).threads[t].RecvGet? && Can(After(s0, run), Step(t))
    ensures var s := After(s0, run);
            && Safe(s, s.threads[t]) && s.got < |s.sent|
            && Do(s, Step(t)).threads[t] == RecvCheck(s.threads[t].msg, s.queue[0], s.threads[t].limit, s.got)
            && Do(s, Step(t)).got == s.got + 1
            && s.queue[0] in s.heap && s.heap[s.queue[0]] == s.sent[s.got]
  {
    InitHasInv(s0);
    RunKeepsInv(s0, run);
    InvIsSafe(After(s0, run), t);
  }

  lemma {:induction false} RunKeepsCapacity(s: State, run: seq<Action>)
    requires Runs(s, run) && |s.queue| <= s.capacity
    ensures |After(s, run).queue| <= After(s, run).capacity == s.capacity
    decreases |run|
  {
    if run != [] {
      RunKeepsCapacity(Do(s, run[0]), run[1..]);
    }
  }

  /** Nothing but the mailbox holds a call up: in every reachable state a thread that cannot go on is idle, is about to
      allocate its copy, waits with a message while `capacity` messages are queued, or waits for one while none is. */
  lemma OnlyTheQueueBlocks(s0: State, run: seq<Action>, t: nat)
    requires Init(s0) && Runs(s0, run) && t < |After(s0, run).threads|
    ensures var s := After(s0, run);
            var pc := s.threads[t];
            && |s.queue| <= s.capacity == s0.capacity
            && (pc.Idle? || pc.SendCopy? || (pc.SendPut? && |s.queue| == s.capacity) || (pc.RecvGet? && s.queue == [])
                <==> !Can(s, Step(t)))
  {
    RunKeepsCapacity(s0, run);
  }

  /** Statements that are left of a call. */
  function Left(pc: Pc): nat {
    match pc
    case Idle => 0
    case SendCopy(_) => 3
    case SendPut(_, _) => 2
    case SendFree(_) => 1
    case RecvGet(_, _) => 4
    case RecvCheck(_, _, _, _) => 3
    case RecvFreeCopy(_, _, _, _) => 2
    case RecvFree(_, _, _, _) => 1
  }

  /** So every call ends after at most four statements unless the mailbox holds it up. */
  lemma StatementsAdvance(s: State, a: Action)
    requires Can(s, a) && Safe(s, s.threads[a.t])
    ensures var s' := Do(s, a);
            && |s'.threads| == |s.threads| && (forall u: nat | u < |s.threads| && u != a.t :: s'.threads[u] == s.threads[u])
            && if a.Step? || a.Copy? then Left(s'.threads[a.t]) < Left(s.threads[a.t]) else Left(s'.threads[a.t]) <= 4
  {
  }

  /** Memory safety and no leak but one: in every reachable state every statement is safe, and when all calls
      have returned and the queue is empty, exactly the blocks of rejected messages are still allocated, each with
      its message, which was empty or larger than the buffer of its receiver. */
  lemma OnlyRejectedMessagesLeak(s0: State, run: seq<Action>)
    requires Init(s0) && Runs(s0, run)
    ensures var s := After(s0, run);
            && (forall t | 0 <= t < |s.threads| :: Safe(s, s.threads[t]))
            && (s.queue == [] && (forall t | 0 <= t < |s.threads| :: s.threads[t] == Idle)
                ==> |s.heap.Keys| == s.rejected && forall a | a in s.heap :: Rejected(s, a))
  {
    InitHasInv(s0);
    RunKeepsInv(s0, run);
    var s := After(s0, run);
    forall t | 0 <= t < |s.threads| ensures Safe(s, s.threads[t]) {
      InvIsSafe(s, t);
    }
    if s.queue == [] && forall t | 0 <= t < |s.threads| :: s.threads[t] == Idle {
      forall a | a in s.heap ensures s.owner[a].Leaked? {
        assert !s.owner[a].Queued? && !s.owner[a].Thread?;
      }
      assert s.heap.Keys == LeakedBlocks(s);
      assert forall a | a in s.heap :: s.owner[a].n < |s.sent|;
    }
  }

  /** A receiver has rejected the message in this block. */
  predicate Rejected(s: State, a: Addr)
    requires a in s.heap
  {
    && a in s.owner && s.owner[a].Leaked? && s.owner[a].n < |s.sent|
    && s.heap[a] == s.sent[s.owner[a].n]
    && (s.heap[a].size == 0 || s.heap[a].size > s.owner[a].limit)
  }

  // ---- rq_send and rq_receive as they are written, for one thread at a time ----

  class RqHeap {
    var blocks: map<Addr, Message>
    var next: Addr   // addresses from here on have never been allocated

    ghost predicate Valid()
      reads this
    {
      forall a | a in blocks :: a < next
    }

    constructor ()
      ensures Valid() && blocks == map[]
    {
      blocks, next := map[], 0;
    }

    method Malloc() returns (a: Addr)
      requires Valid()
      modifies this
      ensures Valid() && a !in old(blocks) && blocks == old(blocks)[a := Message(0, [])]
    {
      a := next;
      blocks := blocks[a := Message(0, [])];
      next := next + 1;
    }

    /** Fill a block: its size word and the copied data. */
    method Store(a: Addr, m: Message)
      requires Valid() && a in blocks
      modifies this`blocks
      ensures Valid() && blocks == old(blocks)[a := m]
    {
      assert a < next;
      blocks := blocks[a := m];
    }

    method Free(a: Addr)
      requires Valid() && a in blocks
      modifies this
      ensures Valid() && blocks == old(blocks) - {a}
    {
      blocks := blocks - {a};
    }
  }

  class Rqueue {
    const heap: RqHeap
    const capacity: nat
    var queue: seq<Addr>

    /** The queued blocks are allocated and distinct. */
    ghost predicate Valid()
      reads this, heap
    {
      && heap.Valid() && |queue| <= capacity
      && (forall i | 0 <= i < |queue| :: queue[i] in heap.blocks)
      && (forall i, j | 0 <= i < j < |queue| :: queue[i] != queue[j])
    }

    /** The messages in the queue, oldest first. */
    ghost function Messages(): seq<Message>
      requires Valid()
      reads this, heap
    {
      seq(|queue|, i requires 0 <= i < |queue| reads this, heap requires queue[i] in heap.blocks => heap.blocks[queue[i]])
    }

    constructor (heap: RqHeap, capacity: nat)
      requires heap.Valid()
      ensures Valid() && Messages() == [] && this.heap == heap && this.capacity == capacity
    {
      this.heap, this.capacity, queue := heap, capacity, [];
    }

    /** rq_send; with a full mailbox the call blocks after the copy has been made (sent == false). */
    method Send(msg: seq<Word>, msgSize: Word) returns (sent: bool)
      requires Valid() && msgSize / 4 <= |msg|
      modifies this, heap
      ensures Valid() && (sent <==> |old(queue)| < capacity)
      ensures Messages() == if sent then old(Messages()) + [Message(msgSize, msg[..msgSize / 4])] else old(Messages())
      ensures exists a: Addr :: a !in old(heap.blocks) && heap.blocks == old(heap.blocks)[a := Message(msgSize, msg[..msgSize / 4])]
    {
      var copy := heap.Malloc();
      heap.Store(copy, Message(msgSize, msg[..msgSize / 4]));
      sent := |queue| < capacity;
      assert forall i | 0 <= i < |queue| :: queue[i] in old(heap.blocks) && queue[i] != copy;
      if sent {
        queue := queue + [copy];
      }
    }

    /** rq_receive; an empty mailbox blocks the call (None). The result is the size, or -1 for a message that
        is empty or larger than the buffer: that message is gone from the queue but its block is not freed. */
    method Receive(msgSize: Word) returns (result: Option<int>, msg: seq<Word>)
      requires Valid()
      modifies this, heap
      ensures Valid()
      ensures old(queue) == [] ==> result == None && Messages() == [] && heap.blocks == old(heap.blocks)
      ensures old(queue) != [] ==>
                && Messages() == old(Messages())[1..]
                && var m := old(Messages())[0];
                && result == Some(ReceiveResult(m.size, msgSize))
                && if 0 < m.size <= msgSize then
                     result == Some(m.size) && msg == m.words && heap.blocks == old(heap.blocks) - {old(queue)[0]}
                   else result == Some(-1) && msg == [] && heap.blocks == old(heap.blocks)
    {
      msg := [];
      if queue == [] {
        return None, msg;
      }
      var copy := queue[0];
      queue := queue[1..];
      var size := heap.blocks[copy].size;
      if size == 0 || size > msgSize {
        return Some(-1), msg;
      }
      msg := heap.blocks[copy].words;
      heap.Free(copy);
      return Some(size), msg;
    }
  }
}
