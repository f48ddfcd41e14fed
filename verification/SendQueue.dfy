// projects/noc_test/linux/hwSwIf/reconosNoC.c: reconosNoCSendPacket called by any number of threads, and
// the packet processing thread that takes the packets out of the list and writes them to the ring.
module SendQueue {
  import opened Words

  /** A packet is identified by a number. */
  type Id = nat

  /** reconosNoCSendPacket: the statement a sender executes next. */
  datatype Sender = Idle | Lock(p: Id) | Add(p: Id) | Unlock(p: Id) | Post(p: Id) | UnlockFailed

  /** The processing thread between two sem_waits. */
  datatype Processor = Wait | LockList | Poll | UnlockList(p: Id) | Write(p: Id) | Exited

  /** packetsToProcess, its mutex, processOnePacketSem, all threads, and history: the packets added,
      polled, and written to the ring, those that senders were called with, and those for which there was no memory. The processing thread has the number |senders|. */
  datatype State = State(
    list: seq<Id>, mutex: Option<nat>, sem: nat, senders: seq<Sender>, processor: Processor,
    added: seq<Id>, polled: seq<Id>, ring: seq<Id>, called: multiset<Id>, refused: multiset<Id>)

  predicate Init(s: State) {
    && s.list == s.added == s.polled == s.ring == [] && s.called == s.refused == multiset{} && s.mutex == None && s.sem == 0 && s.processor == Wait
    && forall t | 0 <= t < |s.senders| :: s.senders[t] == Idle
  }

  datatype Action = Send(t: nat, p: Id) | Sender(t: nat) | NoMemory(t: nat) | Process

  predicate Can(s: State, a: Action) {
    match a
    case Send(t, _) => t < |s.senders| && s.senders[t] == Idle
    case Sender(t) => t < |s.senders| && s.senders[t] != Idle && (s.senders[t].Lock? ==> s.mutex == None)
    case NoMemory(t) => t < |s.senders| && s.senders[t].Add?
    case Process =>
      match s.processor
      case Wait => s.sem > 0
      case LockList => s.mutex == None
      case Exited => false
      case _ => true
  }

  function Do(s: State, a: Action): State
    requires Can(s, a)
  {
    match a
    case Send(t, p) => s.(senders := s.senders[t := Lock(p)], called := s.called + multiset{p})
    case NoMemory(t) => s.(senders := s.senders[t := UnlockFailed], refused := s.refused + multiset{s.senders[t].p})
    case Process => ProcessorStep(s)
    case Sender(t) =>
      match s.senders[t]
      case Lock(p) => s.(mutex := Some(t), senders := s.senders[t := Add(p)])
      case Add(p) => s.(list := s.list + [p], added := s.added + [p], senders := s.senders[t := Unlock(p)])
      case Unlock(p) => s.(mutex := None, senders := s.senders[t := Post(p)])
      case Post(_) => s.(sem := s.sem + 1, senders := s.senders[t := Idle])
      case UnlockFailed => s.(mutex := None, senders := s.senders[t := Idle])
  }

  function ProcessorStep(s: State): State
    requires Can(s, Process)
  {
    match s.processor
    case Wait => s.(sem := s.sem - 1, processor := LockList)
    case LockList => s.(mutex := Some(|s.senders|), processor := Poll)
    case Poll =>  // an empty list makes the thread exit
      if s.list == [] then s.(processor := Exited, mutex := None)
      else s.(list := s.list[1..], polled := s.polled + [s.list[0]], processor := UnlockList(s.list[0]))
    case UnlockList(p) => s.(mutex := None, processor := Write(p))
    case Write(p) => s.(ring := s.ring + [p], processor := Wait)
  }

  /** Senders that have added a packet and not yet posted the semaphore. */
  function OwedFlags(senders: seq<Sender>): seq<bool> {
    seq(|senders|, t requires 0 <= t < |senders| => senders[t].Unlock? || senders[t].Post?)
  }

  function One(b: bool): nat { if b then 1 else 0 }

  ghost predicate Owner(s: State) {
    && (forall t: nat | t < |s.senders| ::
          (s.senders[t].Add? || s.senders[t].Unlock? || s.senders[t].UnlockFailed?) <==> s.mutex == Some(t))
    && ((s.processor.Poll? || s.processor.UnlockList?) <==> s.mutex == Some(|s.senders|))
    && (s.mutex.Some? ==> s.mutex.value <= |s.senders|)
  }

  /** List length = semaphore value + senders between add and post + the processor between wait and poll. */
  ghost predicate Balanced(s: State) {
    && |s.list| == s.sem + Count(OwedFlags(s.senders)) + One(s.processor.LockList? || s.processor.Poll?)
    && s.processor != Exited
  }

  /** Every added packet is written, polled but not yet written, or still listed, in the order of the adds. */
  ghost predicate InOrder(s: State) {
    && s.added == s.polled + s.list
    && s.polled == s.ring + (if s.processor.UnlockList? || s.processor.Write? then [s.processor.p] else [])
  }

  /** The packet that a sender has been called with and not yet added. */
  function Carried(k: Sender): multiset<Id> { if k.Lock? || k.Add? then multiset{k.p} else multiset{} }

  function AllCarried(ks: seq<Sender>): multiset<Id> {
    if ks == [] then multiset{} else Carried(ks[0]) + AllCarried(ks[1..])
  }

  /** Every packet a sender was called with is still with it, was added, or was refused for lack of memory. */
  ghost predicate Conserved(s: State) { s.called == multiset(s.added) + AllCarried(s.senders) + s.refused }

  ghost predicate Inv(s: State) { Owner(s) && Balanced(s) && InOrder(s) && Conserved(s) }

  lemma {:induction false} CarriedUpdate(ks: seq<Sender>, t: nat, k: Sender)
    requires t < |ks|
    ensures AllCarried(ks[t := k]) + Carried(ks[t]) == AllCarried(ks) + Carried(k)
    decreases |ks|
  {
    hide Carried;
    var ks' := ks[t := k];
    assert AllCarried(ks') == Carried(ks'[0]) + AllCarried(ks'[1..]);
    if t == 0 {
      assert ks'[1..] == ks[1..];
      assert Carried(k) + AllCarried(ks[1..]) + Carried(ks[0]) == Carried(ks[0]) + AllCarried(ks[1..]) + Carried(k);
    } else {
      assert ks'[1..] == ks[1..][t - 1 := k];
      CarriedUpdate(ks[1..], t - 1, k);
      var x, a := Carried(ks[0]), AllCarried(ks'[1..]);
      assert (x + a) + Carried(ks[t]) == x + (a + Carried(ks[t]));
    }
  }

  lemma {:induction false} NothingCarried(ks: seq<Sender>)
    requires forall t | 0 <= t < |ks| :: ks[t] == Idle
    ensures AllCarried(ks) == multiset{}
  {
    if ks != [] {
      NothingCarried(ks[1..]);
    }
  }

  lemma StepConserves(s: State, a: Action)
    requires Conserved(s) && Can(s, a)
    ensures Conserved(Do(s, a))
  {
    hide AllCarried, Conserved;
    match a {
      case Send(t, p) => CallConserves(s, t, p);
      case NoMemory(t) => RefusalConserves(s, t);
      case Sender(t) => if s.senders[t].Add? { AddConserves(s, t); } else { OtherConserves(s, t); }
      case Process => ProcessConserves(s);
    }
  }

  lemma ProcessConserves(s: State)
    requires Conserved(s) && Can(s, Process)
    ensures Conserved(Do(s, Process))
  {
    hide AllCarried;
  }

  lemma CallConserves(s: State, t: nat, p: Id)
    requires Conserved(s) && Can(s, Send(t, p))
    ensures Conserved(Do(s, Send(t, p)))
  {
    hide AllCarried;
    var ks := s.senders[t := Lock(p)];
    CarriedUpdate(s.senders, t, Lock(p));
    Shift(AllCarried(s.senders), AllCarried(ks), multiset{}, multiset{p});
    Moved(multiset(s.added), AllCarried(s.senders), multiset{p}, s.refused);
  }

  lemma RefusalConserves(s: State, t: nat)
    requires Conserved(s) && Can(s, NoMemory(t))
    ensures Conserved(Do(s, NoMemory(t)))
  {
    hide AllCarried;
    var p, ks := s.senders[t].p, s.senders[t := UnlockFailed];
    CarriedUpdate(s.senders, t, UnlockFailed);
    Shift(AllCarried(s.senders), AllCarried(ks), multiset{p}, multiset{});
    Moved(multiset(s.added), AllCarried(ks), multiset{p}, s.refused);
  }

  lemma AddConserves(s: State, t: nat)
    requires Conserved(s) && Can(s, Sender(t)) && s.senders[t].Add?
    ensures Conserved(Do(s, Sender(t)))
  {
    hide AllCarried;
    var p := s.senders[t].p;
    var ks := s.senders[t := Unlock(p)];
    CarriedUpdate(s.senders, t, Unlock(p));
    Shift(AllCarried(s.senders), AllCarried(ks), multiset{p}, multiset{});
    OneMoreAdded(s.added, p);
    Moved(multiset(s.added), AllCarried(ks), multiset{p}, s.refused);
  }

  lemma OtherConserves(s: State, t: nat)
    requires Conserved(s) && Can(s, Sender(t)) && !s.senders[t].Add?
    ensures Conserved(Do(s, Sender(t)))
  {
    hide AllCarried;
    var ks := Do(s, Sender(t)).senders;
    CarriedUpdate(s.senders, t, ks[t]);
    Shift(AllCarried(s.senders), AllCarried(ks), Carried(ks[t]), Carried(ks[t]));
  }

  lemma OneMoreAdded(added: seq<Id>, p: Id)
    ensures multiset(added + [p]) == multiset(added) + multiset{p}
  {
  }

  lemma Shift(c: multiset<Id>, c': multiset<Id>, x: multiset<Id>, x': multiset<Id>)
    requires c' + x == c + x'
    ensures x == x' ==> c' == c
    ensures x == multiset{} ==> c' == c + x'
    ensures x' == multiset{} ==> c == c' + x
  {
    forall p ensures c'[p] + x[p] == c[p] + x'[p] {
      assert (c' + x)[p] == (c + x')[p];
    }
    if x == x' {
      assert forall p :: c'[p] == c[p];
    }
  }

  lemma Moved(a: multiset<Id>, c: multiset<Id>, x: multiset<Id>, r: multiset<Id>)
    ensures a + (c + x) + r == (a + x) + c + r == a + c + (r + x) == a + c + r + x
  {
  }

  lemma OwedUpdate(senders: seq<Sender>, t: nat, x: Sender)
    requires t < |senders|
    ensures Count(OwedFlags(senders[t := x]))
         == Count(OwedFlags(senders)) - One(senders[t].Unlock? || senders[t].Post?) + One(x.Unlock? || x.Post?)
  {
    assert OwedFlags(senders[t := x]) == OwedFlags(senders)[t := x.Unlock? || x.Post?];
    CountUpdate(OwedFlags(senders), t, x.Unlock? || x.Post?);
  }

  lemma StepKeepsInv(s: State, a: Action)
    requires Inv(s) && Can(s, a)
    ensures Inv(Do(s, a))
  {
    hide Owner, Balanced, InOrder, Conserved, Do;
    StepKeepsOwner(s, a);
    StepKeepsBalance(s, a);
    StepKeepsOrder(s, a);
    StepConserves(s, a);
  }

  lemma StepKeepsOwner(s: State, a: Action)
    requires Owner(s) && Can(s, a)
    ensures Owner(Do(s, a))
  {
  }

  lemma StepKeepsBalance(s: State, a: Action)
    requires Owner(s) && Balanced(s) && Can(s, a)
    ensures Balanced(Do(s, a))
  {
    hide OwedFlags, Count;
    if !a.Process? {
      OwedUpdate(s.senders, a.t, Do(s, a).senders[a.t]);
    }
  }

  lemma StepKeepsOrder(s: State, a: Action)
    requires InOrder(s) && Can(s, a)
    ensures InOrder(Do(s, a))
  {
    if a.Process? && s.processor.Poll? && s.list != [] {
      assert s.list == [s.list[0]] + s.list[1..];
    }
  }

  predicate Runs(s: State, run: seq<Action>)
    decreases |run|
  {
    run == [] || (Can(s, run[0]) && Runs(Do(s, run[0]), run[1..]))
  }

  function After(s: State, run: seq<Action>): State
    requires Runs(s, run)
    decreases |run|
  {
    if run == [] then s else After(Do(s, run[0]), run[1..])
  }

  lemma {:induction false} RunKeepsInv(s: State, run: seq<Action>)
    requires Inv(s) && Runs(s, run)
    ensures Inv(After(s, run))
    decreases |run|
  {
    if run != [] {
      StepKeepsInv(s, run[0]);
      RunKeepsInv(Do(s, run[0]), run[1..]);
    }
  }

  lemma InitHasInv(s: State)
    requires Init(s)
    ensures Inv(s)
  {
    CountNone(OwedFlags(s.senders));
    NothingCarried(s.senders);
  }

  /** In every interleaving: the list and the semaphore agree, a poll never finds the list empty, the
      processing thread never exits, and the ring receives the packets in the order they were added. */
  lemma ListAndSemaphoreAgree(s: State, run: seq<Action>)
    requires Init(s) && Runs(s, run)
    ensures var e := After(s, run);
            && Balanced(e)
            && (e.processor.Poll? ==> e.list != [])
            && e.ring <= e.added && InOrder(e)
  {
    InitHasInv(s);
    RunKeepsInv(s, run);
    var e := After(s, run);
    assert e.added == e.ring + (if e.processor.UnlockList? || e.processor.Write? then [e.processor.p] else []) + e.list;
  }

  // ---- Every packet gets to the ring ----

  /** No thread can go on by itself; only a new call of reconosNoCSendPacket can happen. */
  ghost predicate Settled(s: State) { forall a | Can(s, a) :: a.Send? }

  /** A thread that can go on while some sender is inside the function or a packet is on its way. */
  lemma SomebodyCanMove(s: State) returns (a: Action)
    requires Inv(s) && (s.processor != Wait || s.list != [] || exists t: nat :: t < |s.senders| && s.senders[t] != Idle)
    ensures Can(s, a) && !a.Send?
  {
    if s.mutex.Some? {
      a := if s.mutex.value == |s.senders| then Process else Sender(s.mutex.value);
    } else if t: nat :| t < |s.senders| && s.senders[t] != Idle {
      a := Sender(t);
    } else {
      assert s.processor == Wait ==> s.sem > 0 by { NobodyOwes(s); }
      a := Process;
    }
  }

  lemma NobodyOwes(s: State)
    requires forall t: nat | t < |s.senders| :: s.senders[t] == Idle
    ensures Count(OwedFlags(s.senders)) == 0
  {
    CountNone(OwedFlags(s.senders));
  }

  /** The only reachable states in which no thread can go on are those in which all senders have returned and every
      packet added is in the ring, in the order of the adds; and these are the packets the senders were called with, but
      for those refused for lack of memory. */
  lemma SettledMeansWritten(s0: State, run: seq<Action>)
    requires Init(s0) && Runs(s0, run)
    ensures var s := After(s0, run);
            Settled(s) <==> && s.processor == Wait && s.list == [] && s.ring == s.added
                            && forall t: nat | t < |s.senders| :: s.senders[t] == Idle
    ensures var s := After(s0, run); Settled(s) ==> s.called == multiset(s.ring) + s.refused
  {
    hide Inv, Init, Runs, After;
    InitHasInv(s0);
    RunKeepsInv(s0, run);
    var s := After(s0, run);
    if s.processor != Wait || s.list != [] || exists t: nat :: t < |s.senders| && s.senders[t] != Idle {
      var a := SomebodyCanMove(s);
    } else {
      IdleMeansWritten(s);
    }
  }

  lemma IdleMeansWritten(s: State)
    requires Inv(s) && s.processor == Wait && s.list == [] && forall t: nat | t < |s.senders| :: s.senders[t] == Idle
    ensures s.ring == s.added && s.called == multiset(s.ring) + s.refused && Settled(s)
  {
    NobodyOwes(s);
    NothingCarried(s.senders);
    hide AllCarried, OwedFlags, Count;
  }

  /** Statements left until the sender has returned; the post also pays for what the processing thread then does. */
  function SenderRank(k: Sender): nat {
    match k
    case Idle => 0
    case Lock(_) => 10
    case Add(_) => 9
    case Unlock(_) => 8
    case Post(_) => 7
    case UnlockFailed => 1
  }

  function SenderRanks(ks: seq<Sender>): seq<nat> { seq(|ks|, t requires 0 <= t < |ks| => SenderRank(ks[t])) }

  function Rank(s: State): nat {
    Sum(SenderRanks(s.senders)) + 6 * s.sem
    + match s.processor case Wait => 0 case LockList => 5 case Poll => 4 case UnlockList(_) => 3 case Write(_) => 2 case Exited => 0
  }

  lemma StepLowersRank(s: State, a: Action)
    requires Can(s, a) && !a.Send?
    ensures Rank(Do(s, a)) < Rank(s)
  {
    if !a.Process? {
      var k := Do(s, a).senders[a.t];
      assert SenderRanks(s.senders[a.t := k]) == SenderRanks(s.senders)[a.t := SenderRank(k)];
      SumUpdate(SenderRanks(s.senders), a.t, SenderRank(k));
    }
  }

  /** Without new calls the threads settle after a bounded number of statements. */
  lemma {:induction false} RunsSettle(s: State, run: seq<Action>)
    requires Runs(s, run) && forall i | 0 <= i < |run| :: !run[i].Send?
    ensures |run| <= Rank(s)
    decreases |run|
  {
    if run != [] {
      StepLowersRank(s, run[0]);
      assert forall i | 0 <= i < |run[1..]| :: run[1..][i] == run[i + 1];
      RunsSettle(Do(s, run[0]), run[1..]);
    }
  }
}
