// linux/libreconos/libreconos.c: the delegate thread executes the operating system calls of one hardware
// thread. Requests and replies are streams of words over an FSL link without any delimiters.
module Delegate {
  import opened Words
  import MessageQueue

  // ---- Requests as a hardware thread means them ----

  datatype Request =
    | MboxGet(handle: Word) | MboxPut(handle: Word, data: Word)
    | SemWait(handle: Word) | SemPost(handle: Word)
    | MutexLock(handle: Word) | MutexUnlock(handle: Word) | MutexTrylock(handle: Word)
    | CondWait(handle: Word, mutex: Word) | CondSignal(handle: Word) | CondBroadcast(handle: Word)
    | RqReceive(handle: Word, limit: Word) | RqSend(handle: Word, size: Word, words: seq<Word>)
    | GetInitData | ThreadExit

  /** Values of RECONOS_TYPE_* */
  const TYPE_MBOX: Word := 1
  const TYPE_SEM: Word := 2
  const TYPE_MUTEX: Word := 4
  const TYPE_COND: Word := 8
  const TYPE_RQ: Word := 16

  /** Values of RECONOS_CMD_* */
  const CMD_GET_INIT_DATA: Word := 0xA0
  const CMD_THREAD_EXIT: Word := 0xA2
  const CMD_SEM_POST: Word := 0xB0
  const CMD_SEM_WAIT: Word := 0xB1
  const CMD_MUTEX_LOCK: Word := 0xC0
  const CMD_MUTEX_UNLOCK: Word := 0xC1
  const CMD_MUTEX_TRYLOCK: Word := 0xC2
  const CMD_COND_WAIT: Word := 0xD0
  const CMD_COND_SIGNAL: Word := 0xD1
  const CMD_COND_BROADCAST: Word := 0xD2
  const CMD_RQ_RECEIVE: Word := 0xE0
  const CMD_RQ_SEND: Word := 0xE1
  const CMD_MBOX_GET: Word := 0xF0
  const CMD_MBOX_PUT: Word := 0xF1

  /** The request as words on the link. */
  function Encode(r: Request): seq<Word> {
    match r
    case MboxGet(h) => [CMD_MBOX_GET, h]
    case MboxPut(h, d) => [CMD_MBOX_PUT, h, d]
    case SemWait(h) => [CMD_SEM_WAIT, h]
    case SemPost(h) => [CMD_SEM_POST, h]
    case MutexLock(h) => [CMD_MUTEX_LOCK, h]
    case MutexUnlock(h) => [CMD_MUTEX_UNLOCK, h]
    case MutexTrylock(h) => [CMD_MUTEX_TRYLOCK, h]
    case CondWait(h, m) => [CMD_COND_WAIT, h, m]
    case CondSignal(h) => [CMD_COND_SIGNAL, h]
    case CondBroadcast(h) => [CMD_COND_BROADCAST, h]
    case RqReceive(h, limit) => [CMD_RQ_RECEIVE, h, limit]
    case RqSend(h, size, words) => [CMD_RQ_SEND, h, size] + words
    case GetInitData => [CMD_GET_INIT_DATA]
    case ThreadExit => [CMD_THREAD_EXIT]
  }

  /** The handle exists and has the right type. */
  predicate Handle(types: seq<Word>, h: Word, t: Word) { h < |types| && types[h] == t }

  /** A request a hardware thread may make: its handles are valid, a message has the announced number of words.
      A receive limit of 2^32-1 is fatal (see Fatal). */
  predicate WellFormed(types: seq<Word>, r: Request) {
    match r
    case MboxGet(h) => Handle(types, h, TYPE_MBOX)
    case MboxPut(h, _) => Handle(types, h, TYPE_MBOX)
    case SemWait(h) => Handle(types, h, TYPE_SEM)
    case SemPost(h) => Handle(types, h, TYPE_SEM)
    case MutexLock(h) => Handle(types, h, TYPE_MUTEX)
    case MutexUnlock(h) => Handle(types, h, TYPE_MUTEX)
    case MutexTrylock(h) => Handle(types, h, TYPE_MUTEX)
    case CondWait(h, m) => Handle(types, h, TYPE_COND) && Handle(types, m, TYPE_MUTEX)
    case CondSignal(h) => Handle(types, h, TYPE_COND)
    case CondBroadcast(h) => Handle(types, h, TYPE_COND)
    case RqReceive(h, limit) => Handle(types, h, TYPE_RQ) && limit < UINT_MAX
    case RqSend(h, size, words) => Handle(types, h, TYPE_RQ) && |words| == size / 4
    case GetInitData => true
    case ThreadExit => true
  }

  /** What the operating system answers to a call: a result word, and for rq_receive the oldest message. */
  datatype Outcome = Outcome(result: Word, size: Word, words: seq<Word>) {
    predicate Valid() { |words| == size / 4 }
  }

  /** The result of rq_receive as a uint32: -1 becomes 2^32-1. */
  function RqResult(size: Word, limit: Word): Word {
    MessageQueue.ReceiveResult(size, limit) % 0x1_0000_0000
  }

  /** The words written for RQ_RECEIVE. `result < 0` in the code never holds, because result is unsigned;
      the test against the limit catches the error. */
  function RqReply(o: Outcome, limit: Word): seq<Word> {
    var result := RqResult(o.size, limit);
    if result == 0 || result > limit then [0] else [result] + o.words
  }

  /** Rejected messages are answered with a single 0, except for the limit 2^32-1. */
  lemma RejectionIsAnsweredByZero(o: Outcome, limit: Word)
    requires o.Valid()
    ensures limit < UINT_MAX ==>
              (RqReply(o, limit) == [0] <==> o.size == 0 || o.size > limit)
    ensures limit == UINT_MAX && o.size == 0 ==> RqReply(o, limit)[0] == UINT_MAX
  {
    assert ([o.size] + o.words)[0] == o.size;
  }

  /** The reply to a request. */
  function Reply(initData: Word, r: Request, o: Outcome): seq<Word> {
    match r
    case MboxGet(_) => [o.result]
    case MboxPut(_, _) => [0]
    case SemWait(_) => [o.result]
    case SemPost(_) => [0]
    case MutexLock(_) => [o.result]
    case MutexUnlock(_) => [0]
    case MutexTrylock(_) => [o.result]
    case CondWait(_, _) => [o.result]
    case CondSignal(_) => [0]
    case CondBroadcast(_) => [0]
    case RqReceive(_, limit) => RqReply(o, limit)
    case RqSend(_, _, _) => [0]
    case GetInitData => [initData]
    case ThreadExit => []
  }

  // ---- Reading requests back from the stream ----

  datatype Parsed = Got(request: Request, rest: seq<Word>) | Bad | Short

  /** The resource type a command with a single handle needs, 0 if it is none of those. */
  function HandleType(cmd: Word): Word {
    if cmd == CMD_MBOX_GET then TYPE_MBOX
    else if cmd == CMD_SEM_WAIT || cmd == CMD_SEM_POST then TYPE_SEM
    else if cmd == CMD_MUTEX_LOCK || cmd == CMD_MUTEX_UNLOCK || cmd == CMD_MUTEX_TRYLOCK then TYPE_MUTEX
    else if cmd == CMD_COND_SIGNAL || cmd == CMD_COND_BROADCAST then TYPE_COND
    else 0
  }

  function OneHandle(cmd: Word, h: Word): Request
    requires HandleType(cmd) != 0
  {
    if cmd == CMD_MBOX_GET then MboxGet(h)
    else if cmd == CMD_SEM_WAIT then SemWait(h)
    else if cmd == CMD_SEM_POST then SemPost(h)
    else if cmd == CMD_MUTEX_LOCK then MutexLock(h)
    else if cmd == CMD_MUTEX_UNLOCK then MutexUnlock(h)
    else if cmd == CMD_MUTEX_TRYLOCK then MutexTrylock(h)
    else if cmd == CMD_COND_SIGNAL then CondSignal(h)
    else CondBroadcast(h)
  }

  /** The first request of a stream: complete, not acceptable, or not there yet. */
  function Parse(types: seq<Word>, input: seq<Word>): Parsed {
    if input == [] then Short
    else
      var cmd := input[0];
      if cmd == CMD_GET_INIT_DATA then Got(GetInitData, input[1..])
      else if cmd == CMD_THREAD_EXIT then Got(ThreadExit, input[1..])
      else if HandleType(cmd) != 0 then
        if |input| < 2 then Short
        else if !Handle(types, input[1], HandleType(cmd)) then Bad
        else Got(OneHandle(cmd, input[1]), input[2..])
      else if cmd !in {CMD_MBOX_PUT, CMD_COND_WAIT, CMD_RQ_RECEIVE, CMD_RQ_SEND} then Bad
      else if |input| < 3 then Short
      else
        var h, x := input[1], input[2];
        if cmd == CMD_MBOX_PUT then if Handle(types, h, TYPE_MBOX) then Got(MboxPut(h, x), input[3..]) else Bad
        else if cmd == CMD_COND_WAIT then
          if Handle(types, h, TYPE_COND) && Handle(types, x, TYPE_MUTEX) then Got(CondWait(h, x), input[3..]) else Bad
        else if !Handle(types, h, TYPE_RQ) then Bad
        else if cmd == CMD_RQ_RECEIVE then Got(RqReceive(h, x), input[3..])
        else if |input| < 3 + x / 4 then Short
        else Got(RqSend(h, x, input[3..3 + x / 4]), input[3 + x / 4..])
  }

  /** The handles in a request, each with the type of the resource that the call needs. */
  function HandlesOf(r: Request): seq<(Word, Word)> {
    match r
    case MboxGet(h) => [(h, TYPE_MBOX)]
    case MboxPut(h, _) => [(h, TYPE_MBOX)]
    case SemWait(h) => [(h, TYPE_SEM)]
    case SemPost(h) => [(h, TYPE_SEM)]
    case MutexLock(h) => [(h, TYPE_MUTEX)]
    case MutexUnlock(h) => [(h, TYPE_MUTEX)]
    case MutexTrylock(h) => [(h, TYPE_MUTEX)]
    case CondWait(h, m) => [(h, TYPE_COND), (m, TYPE_MUTEX)]
    case CondSignal(h) => [(h, TYPE_COND)]
    case CondBroadcast(h) => [(h, TYPE_COND)]
    case RqReceive(h, _) => [(h, TYPE_RQ)]
    case RqSend(h, _, _) => [(h, TYPE_RQ)]
    case GetInitData => []
    case ThreadExit => []
  }

  /** Every handle names a resource of the right type. */
  predicate Typed(types: seq<Word>, r: Request) {
    forall i | 0 <= i < |HandlesOf(r)| :: HandlesOf(r)[i].0 < |types| && types[HandlesOf(r)[i].0] == HandlesOf(r)[i].1
  }

  /** A message has the announced number of words. */
  predicate Complete(r: Request) { r.RqSend? ==> |r.words| == r.size / 4 }

  lemma TypedCases(types: seq<Word>, r: Request)
    ensures |HandlesOf(r)| == 1 ==> (Typed(types, r) <==> Handle(types, HandlesOf(r)[0].0, HandlesOf(r)[0].1))
    ensures |HandlesOf(r)| == 2 ==>
              (Typed(types, r) <==> Handle(types, HandlesOf(r)[0].0, HandlesOf(r)[0].1) && Handle(types, HandlesOf(r)[1].0, HandlesOf(r)[1].1))
    ensures HandlesOf(r) == [] ==> Typed(types, r)
  {
  }

  lemma WellFormedIff(types: seq<Word>, r: Request)
    ensures WellFormed(types, r) <==> Typed(types, r) && Complete(r) && !Fatal(r)
  {
    TypedCases(types, r);
    hide Typed, Handle;
  }

  /** A request is read off a stream exactly when the stream begins with its words and all its handles are valid. */
  lemma GotIff(types: seq<Word>, input: seq<Word>, r: Request, rest: seq<Word>)
    ensures Parse(types, input) == Got(r, rest) <==> Typed(types, r) && Complete(r) && input == Encode(r) + rest
  {
    TypedCases(types, r);
    hide Typed, Handle;
    if Typed(types, r) && Complete(r) && input == Encode(r) + rest {
      ParseTyped(types, r, rest);
    }
    if Parse(types, input) == Got(r, rest) {
      assert input == Encode(r) + rest;
    }
  }

  lemma ParseTyped(types: seq<Word>, r: Request, rest: seq<Word>)
    requires Typed(types, r) && Complete(r)
    ensures Parse(types, Encode(r) + rest) == Got(r, rest)
  {
    TypedCases(types, r);
    hide Typed, Handle;
    var s := Encode(r) + rest;
    match r {
      case RqSend(h, size, words) =>
        assert s[3..3 + size / 4] == words && s[3 + size / 4..] == rest;
      case _ => assert s[|Encode(r)|..] == rest;
    }
  }

  /** The loop waits for more words exactly when the stream stops inside a request; the handles of a message to send are
      checked before its words are read. */
  lemma ShortIff(types: seq<Word>, input: seq<Word>)
    ensures Parse(types, input).Short? <==>
            exists r, rest :: rest != [] && Complete(r) && Encode(r) == input + rest && (|input| >= 3 ==> Typed(types, r))
  {
    if Parse(types, input).Short? {
      var r, rest := Completion(types, input);
    }
    forall r, rest | rest != [] && Complete(r) && Encode(r) == input + rest && (|input| >= 3 ==> Typed(types, r))
      ensures Parse(types, input).Short?
    {
      PrefixIsShort(types, input, r, rest);
    }
  }

  /** A request that a stream may be the beginning of. */
  lemma Completion(types: seq<Word>, input: seq<Word>) returns (r: Request, rest: seq<Word>)
    requires Parse(types, input).Short?
    ensures rest != [] && Complete(r) && Encode(r) == input + rest && (|input| >= 3 ==> Typed(types, r))
  {
    if input == [] {
      r := GetInitData;
    } else if HandleType(input[0]) != 0 {
      r := OneHandle(input[0], 0);
    } else {
      var h := if |input| < 2 then 0 else input[1];
      var x := if |input| < 3 then 0 else input[2];
      if input[0] == CMD_MBOX_PUT {
        r := MboxPut(h, x);
      } else if input[0] == CMD_COND_WAIT {
        r := CondWait(h, x);
      } else if input[0] == CMD_RQ_RECEIVE {
        r := RqReceive(h, x);
      } else {
        var got := if |input| < 3 then [] else input[3..];
        r := RqSend(h, x, got + seq(x / 4 - |got|, _ => 0));
      }
    }
    rest := Encode(r)[|input|..];
  }

  lemma PrefixIsShort(types: seq<Word>, input: seq<Word>, r: Request, rest: seq<Word>)
    requires rest != [] && Complete(r) && Encode(r) == input + rest && (|input| >= 3 ==> Typed(types, r))
    ensures Parse(types, input).Short?
  {
    TypedCases(types, r);
    hide Typed, Handle;
    assert |input| < |Encode(r)| && forall i | 0 <= i < |input| :: Encode(r)[i] == input[i];
    assert |Encode(r)| <= 3 ==> |input| < 3;
  }

  /** Every well-formed request is read back as itself and exactly its words are consumed. */
  lemma ParseEncode(types: seq<Word>, r: Request, rest: seq<Word>)
    requires WellFormed(types, r)
    ensures Parse(types, Encode(r) + rest) == Got(r, rest)
  {
    hide Parse, Typed, WellFormed;
    WellFormedIff(types, r);
    ParseTyped(types, r, rest);
  }

  lemma ParseShrinks(types: seq<Word>, input: seq<Word>)
    ensures Parse(types, input).Got? ==> |Parse(types, input).rest| < |input|
  {
  }

  /** Why the loop stopped: the thread exited, an error ended the process, or the link has no more words. */
  datatype Status = Exited | Failed | Starved

  /** A whole run of the command loop; env(k) is what the operating system answers to the k-th call. */
  datatype Session = Session(calls: seq<Request>, output: seq<Word>, status: Status)

  /** No buffer can be allocated for a receive limit of 2^32-1. The call is made all the same, and the process dies when
      the null pointer is used: inside the call if a message is copied, afterwards if the message is empty and -1 passes
      for a size. */
  predicate Fatal(r: Request) { r.RqReceive? && r.limit == UINT_MAX }

  function LastWords(o: Outcome): seq<Word> { if o.size == 0 then [UINT_MAX] else [] }

  function Serve(types: seq<Word>, initData: Word, input: seq<Word>, env: nat -> Outcome, k: nat): Session
    decreases |input|
  {
    match Parse(types, input)
    case Short => Session([], [], Starved)
    case Bad => Session([], [], Failed)
    case Got(r, rest) =>
      ParseShrinks(types, input);
      if r == ThreadExit then Session([r], [], Exited)
      else if Fatal(r) then Session([r], LastWords(env(k)), Failed)
      else
        var s := Serve(types, initData, rest, env, k + 1);
        Session([r] + s.calls, Reply(initData, r, env(k)) + s.output, s.status)
  }

  /** A session whose first calls and replies are known and which then goes on like s. */
  function Resume(calls: seq<Request>, output: seq<Word>, s: Session): Session {
    Session(calls + s.calls, output + s.output, s.status)
  }

  lemma ResumeTwice(c: seq<Request>, o: seq<Word>, c': seq<Request>, o': seq<Word>, s: Session)
    ensures Resume(c, o, Resume(c', o', s)) == Resume(c + c', o + o', s)
  {
    assert c + (c' + s.calls) == (c + c') + s.calls;
    assert o + (o' + s.output) == (o + o') + s.output;
  }

  // ---- Framing ----

  function EncodeAll(rs: seq<Request>): seq<Word> {
    if rs == [] then [] else Encode(rs[0]) + EncodeAll(rs[1..])
  }

  /** The replies to the requests rs, which are the calls number k, k+1, ... */
  function RepliesAll(initData: Word, rs: seq<Request>, env: nat -> Outcome, k: nat): seq<Word> {
    if rs == [] then [] else Reply(initData, rs[0], env(k)) + RepliesAll(initData, rs[1..], env, k + 1)
  }

  /** The streams never lose sync: for every sequence of well-formed requests, followed by anything, the loop
      makes exactly these calls, consumes exactly their encodings, writes exactly their replies, and goes on
      with what follows. */
  lemma {:induction false} LoopKeepsSync(types: seq<Word>, initData: Word, rs: seq<Request>, rest: seq<Word>, env: nat -> Outcome, k: nat)
    requires forall i | 0 <= i < |rs| :: WellFormed(types, rs[i]) && rs[i] != ThreadExit
    ensures Serve(types, initData, EncodeAll(rs) + rest, env, k)
         == Resume(rs, RepliesAll(initData, rs, env, k), Serve(types, initData, rest, env, k + |rs|))
    decreases |rs|
  {
    hide Encode, Reply, WellFormed, Serve, Parse;
    if rs == [] {
      assert EncodeAll(rs) + rest == rest;
    } else {
      var tail := EncodeAll(rs[1..]) + rest;
      assert EncodeAll(rs) + rest == Encode(rs[0]) + tail;
      ServeOne(types, initData, rs[0], tail, env, k);
      LoopKeepsSync(types, initData, rs[1..], rest, env, k + 1);
      var after := Serve(types, initData, rest, env, k + |rs|);
      ResumeTwice([rs[0]], Reply(initData, rs[0], env(k)), rs[1..], RepliesAll(initData, rs[1..], env, k + 1), after);
      assert [rs[0]] + rs[1..] == rs;
    }
  }

  /** One turn of the loop. */
  lemma ServeOne(types: seq<Word>, initData: Word, r: Request, rest: seq<Word>, env: nat -> Outcome, k: nat)
    requires WellFormed(types, r) && r != ThreadExit
    ensures Serve(types, initData, Encode(r) + rest, env, k)
         == Resume([r], Reply(initData, r, env(k)), Serve(types, initData, rest, env, k + 1))
  {
    ParseEncode(types, r, rest);
    hide Parse, Encode, Reply, WellFormed;
  }

  /** A thread that ends with an exit command ends the loop: every call was made once and in order, and nothing
      after the exit command is looked at. */
  lemma SessionOfWholeThread(types: seq<Word>, initData: Word, rs: seq<Request>, junk: seq<Word>, env: nat -> Outcome)
    requires forall i | 0 <= i < |rs| :: WellFormed(types, rs[i]) && rs[i] != ThreadExit
    ensures Serve(types, initData, EncodeAll(rs) + ([CMD_THREAD_EXIT] + junk), env, 0)
         == Session(rs + [ThreadExit], RepliesAll(initData, rs, env, 0), Exited)
  {
    hide Encode, Reply, WellFormed;
    LoopKeepsSync(types, initData, rs, [CMD_THREAD_EXIT] + junk, env, 0);
  }

  /** How the hardware thread finds the end of the reply to its request. */
  function TakeReply(r: Request, stream: seq<Word>): Option<(seq<Word>, seq<Word>)> {
    if r == ThreadExit then Some(([], stream))
    else if stream == [] then None
    else
      var n := if r.RqReceive? then 1 + stream[0] / 4 else 1;
      if n <= |stream| then Some((stream[..n], stream[n..])) else None
  }

  function TakeReplies(rs: seq<Request>, stream: seq<Word>): Option<seq<seq<Word>>> {
    if rs == [] then Some([])
    else
      match TakeReply(rs[0], stream)
      case None => None
      case Some((reply, rest)) =>
        match TakeReplies(rs[1..], rest)
        case None => None
        case Some(replies) => Some([reply] + replies)
  }

  lemma TakeReplyOfReply(types: seq<Word>, initData: Word, r: Request, o: Outcome, rest: seq<Word>)
    requires WellFormed(types, r) && o.Valid()
    ensures TakeReply(r, Reply(initData, r, o) + rest) == Some((Reply(initData, r, o), rest))
  {
    var reply := Reply(initData, r, o);
    var s := reply + rest;
    assert s[..|reply|] == reply && s[|reply|..] == rest;
  }

  function ReplyList(initData: Word, rs: seq<Request>, env: nat -> Outcome, k: nat): seq<seq<Word>> {
    if rs == [] then [] else [Reply(initData, rs[0], env(k))] + ReplyList(initData, rs[1..], env, k + 1)
  }

  /** Every reply can be told apart: knowing its requests, the hardware thread splits the output stream back into
      one reply per request, including the replies of variable length. */
  lemma {:induction false} RepliesAreDecodable(types: seq<Word>, initData: Word, rs: seq<Request>, env: nat -> Outcome, k: nat, rest: seq<Word>)
    requires forall i | 0 <= i < |rs| :: WellFormed(types, rs[i])
    requires forall i: nat :: env(i).Valid()
    ensures TakeReplies(rs, RepliesAll(initData, rs, env, k) + rest) == Some(ReplyList(initData, rs, env, k))
    decreases |rs|
  {
    hide Reply, TakeReply, WellFormed;
    if rs != [] {
      var tail := RepliesAll(initData, rs[1..], env, k + 1) + rest;
      assert RepliesAll(initData, rs, env, k) + rest == Reply(initData, rs[0], env(k)) + tail;
      TakeReplyOfReply(types, initData, rs[0], env(k), tail);
      RepliesAreDecodable(types, initData, rs[1..], env, k + 1, rest);
    }
  }

  // ---- What the hardware thread receives ----

  /** The reply that a request must get: the result of the call, 0, the initialisation data, or the message. */
  predicate Answers(initData: Word, r: Request, o: Outcome, reply: seq<Word>) {
    && (r.MboxGet? || r.SemWait? || r.MutexLock? || r.MutexTrylock? || r.CondWait? ==> reply == [o.result])
    && (r.MboxPut? || r.SemPost? || r.MutexUnlock? || r.CondSignal? || r.CondBroadcast? || r.RqSend? ==> reply == [0])
    && (r.GetInitData? ==> reply == [initData])
    && (r.RqReceive? ==> if 0 < o.size <= r.limit then reply == [o.size] + o.words else reply == [0])
  }

  lemma ReplyAnswers(types: seq<Word>, initData: Word, r: Request, o: Outcome)
    requires WellFormed(types, r) && o.Valid()
    ensures Answers(initData, r, o, Reply(initData, r, o))
  {
  }

  function Concat(parts: seq<seq<Word>>): seq<Word> { if parts == [] then [] else parts[0] + Concat(parts[1..]) }

  lemma {:induction false} RepliesAnswer(types: seq<Word>, initData: Word, rs: seq<Request>, env: nat -> Outcome, k: nat)
    requires forall i | 0 <= i < |rs| :: WellFormed(types, rs[i])
    requires forall i: nat :: env(i).Valid()
    ensures var replies := ReplyList(initData, rs, env, k);
            && |replies| == |rs| && Concat(replies) == RepliesAll(initData, rs, env, k)
            && forall i | 0 <= i < |rs| :: Answers(initData, rs[i], env(k + i), replies[i])
    decreases |rs|
  {
    hide Reply, Answers, WellFormed;
    if rs != [] {
      RepliesAnswer(types, initData, rs[1..], env, k + 1);
      ReplyAnswers(types, initData, rs[0], env(k));
      var replies, more := ReplyList(initData, rs, env, k), ReplyList(initData, rs[1..], env, k + 1);
      forall i | 0 <= i < |rs| ensures Answers(initData, rs[i], env(k + i), replies[i]) {
        assert i > 0 ==> replies[i] == more[i - 1] && rs[i] == rs[1..][i - 1] && env(k + i) == env(k + 1 + (i - 1));
      }
    }
  }

  /** For every session that begins with well-formed requests, the hardware thread, which knows its requests, splits the
      words it receives into one reply per request, and each is the answer to its own call: the result of the k-th call,
      0 where nothing is returned, and for a message that fits its size and exactly its words. */
  lemma HardwareReceivesAnswers(types: seq<Word>, initData: Word, rs: seq<Request>, rest: seq<Word>, env: nat -> Outcome)
    requires forall i | 0 <= i < |rs| :: WellFormed(types, rs[i]) && rs[i] != ThreadExit
    requires forall i: nat :: env(i).Valid()
    ensures var s := Serve(types, initData, EncodeAll(rs) + rest, env, 0);
            var replies := TakeReplies(rs, s.output);
            && rs <= s.calls && replies.Some? && |replies.value| == |rs| && Concat(replies.value) <= s.output
            && forall i | 0 <= i < |rs| :: Answers(initData, rs[i], env(i), replies.value[i])
  {
    hide Reply, Answers, WellFormed, Serve, TakeReplies, RepliesAll, ReplyList, Concat, EncodeAll;
    LoopKeepsSync(types, initData, rs, rest, env, 0);
    RepliesAreDecodable(types, initData, rs, env, 0, Serve(types, initData, rest, env, |rs|).output);
    RepliesAnswer(types, initData, rs, env, 0);
    assert forall i | 0 <= i < |rs| :: env(0 + i) == env(i);
  }

  /** A request with a handle that names no resource of the right type ends the process before the call is made, whatever
      the calls before it were; and no call is ever made with such a handle, whatever the words on the link are. */
  lemma BadHandleEndsTheProcess(types: seq<Word>, initData: Word, rs: seq<Request>, bad: Request, rest: seq<Word>, env: nat -> Outcome)
    requires forall i | 0 <= i < |rs| :: WellFormed(types, rs[i]) && rs[i] != ThreadExit
    requires Complete(bad) && !Typed(types, bad)
    ensures Serve(types, initData, EncodeAll(rs) + (Encode(bad) + rest), env, 0)
         == Session(rs, RepliesAll(initData, rs, env, 0), Failed)
  {
    hide Reply, WellFormed, Encode, Parse, Typed, EncodeAll, RepliesAll;
    LoopKeepsSync(types, initData, rs, Encode(bad) + rest, env, 0);
    ParseUntyped(types, bad, rest);
    assert rs + [] == rs && RepliesAll(initData, rs, env, 0) + [] == RepliesAll(initData, rs, env, 0);
  }

  /** The limit 2^32-1 is fatal for every message: an empty one is announced as 2^32-1 bytes, then the process ends. */
  lemma FatalLimitEndsTheProcess(types: seq<Word>, initData: Word, h: Word, rest: seq<Word>, env: nat -> Outcome, k: nat)
    requires Handle(types, h, TYPE_RQ)
    ensures Serve(types, initData, [CMD_RQ_RECEIVE, h, UINT_MAX] + rest, env, k)
         == Session([RqReceive(h, UINT_MAX)], if env(k).size == 0 then [UINT_MAX] else [], Failed)
  {
    var r := RqReceive(h, UINT_MAX);
    TypedCases(types, r);
    ParseTyped(types, r, rest);
    hide Parse;
  }

  lemma ParseUntyped(types: seq<Word>, r: Request, rest: seq<Word>)
    requires Complete(r) && !Typed(types, r)
    ensures Parse(types, Encode(r) + rest) == Bad
  {
    TypedCases(types, r);
    hide Typed, Handle;
  }

  lemma {:induction false} CallsAreTyped(types: seq<Word>, initData: Word, input: seq<Word>, env: nat -> Outcome, k: nat)
    ensures forall c | c in Serve(types, initData, input, env, k).calls :: Typed(types, c) && Complete(c)
    decreases |input|
  {
    hide Parse, Typed, Complete, Reply, Fatal;
    var p := Parse(types, input);
    if p.Got? {
      ParseShrinks(types, input);
      GotIff(types, input, p.request, p.rest);
      CallsAreTyped(types, initData, p.rest, env, k + 1);
    }
  }

  // ---- The command loop as written ----

  class DelegateThread {
    const types: seq<Word>   // types of the resources, indexed by handle
    const initData: Word
    var input: seq<Word>     // words the hardware has written and nobody has read
    var output: seq<Word>    // words written to the hardware
    var calls: seq<Request>  // the operating system calls made so far

    constructor (types: seq<Word>, initData: Word, input: seq<Word>)
      ensures this.types == types && this.initData == initData && this.input == input && output == [] && calls == []
    {
      this.types, this.initData, this.input, output, calls := types, initData, input, [], [];
    }

    /** fsl_read; None: the read blocks for good */
    method FslRead() returns (w: Option<Word>)
      modifies this`input
      ensures old(input) == [] ==> w == None && input == []
      ensures old(input) != [] ==> w == Some(old(input)[0]) && input == old(input)[1..]
    {
      if input == [] {
        return None;
      }
      w := Some(input[0]);
      input := input[1..];
    }

    /** fsl_write */
    method FslWrite(w: Word)
      modifies this`output
      ensures output == old(output) + [w]
    {
      output := output + [w];
    }

    /** The loop of RQ_SEND that reads the words of the message. */
    method ReadWords(n: nat) returns (msg: Option<seq<Word>>)
      modifies this`input
      ensures n <= |old(input)| ==> msg == Some(old(input)[..n]) && input == old(input)[n..]
      ensures n > |old(input)| ==> msg == None
    {
      ghost var was := input;
      var words: seq<Word> := [];
      var i := 0;
      while i < n
        invariant 0 <= i <= n && i <= |was|
        invariant words == was[..i] && input == was[i..]
      {
        var w := FslRead();
        if w.None? {
          return None;
        }
        words := words + [w.value];
        i := i + 1;
      }
      return Some(words);
    }

    /** The loop of RQ_RECEIVE that writes the words of the message. */
    method WriteWords(msg: seq<Word>, n: nat)
      requires n <= |msg|
      modifies this`output
      ensures output == old(output) + msg[..n]
    {
      ghost var was := output;
      var i := 0;
      while i < n
        invariant 0 <= i <= n
        invariant output == was + msg[..i]
      {
        FslWrite(msg[i]);
        i := i + 1;
      }
    }

    /** handle >= num_resources or a wrong type: the process exits */
    method Resource(h: Word, t: Word) returns (ok: bool)
      ensures ok == Handle(types, h, t)
    {
      if h >= |types| {
        return false;
      }
      if types[h] != t {
        return false;
      }
      return true;
    }

    /** The call into the operating system. */
    method Call(r: Request, env: nat -> Outcome) returns (o: Outcome)
      modifies this`calls
      ensures calls == old(calls) + [r] && o == env(|old(calls)|)
    {
      o := env(|calls|);
      calls := calls + [r];
    }

    /** What one turn of the loop does, given the words `was` that were waiting and the calls and output before it. */
    ghost predicate Turned(was: seq<Word>, calls0: seq<Request>, output0: seq<Word>, env: nat -> Outcome,
                           status: Option<Status>)
      reads this
    {
      match Parse(types, was)
      case Short => status == Some(Starved) && calls == calls0 && output == output0
      case Bad => status == Some(Failed) && calls == calls0 && output == output0
      case Got(r, rest) =>
        && calls == calls0 + [r]
        && if r == ThreadExit then status == Some(Exited) && output == output0
           else if Fatal(r) then status == Some(Failed) && output == output0 + LastWords(env(|calls0|))
           else status == None && input == rest && output == output0 + Reply(initData, r, env(|calls0|))
    }

    /** The branches that read one handle: they differ in the resource type, the call, and whether the result of
        the call or 0 is written back. */
    method OneHandleCommand(cmd: Word, env: nat -> Outcome) returns (status: Option<Status>)
      requires HandleType(cmd) != 0
      modifies this`input, this`output, this`calls
      ensures Turned([cmd] + old(input), old(calls), old(output), env, status)
    {
      ghost var was := [cmd] + input;
      assert input != [] ==> was[1] == input[0] && was[2..] == input[1..];
      var handle := FslRead();
      if handle.None? {
        return Some(Starved);
      }
      var ok := Resource(handle.value, HandleType(cmd));
      if !ok {
        return Some(Failed);
      }
      var o := Call(OneHandle(cmd, handle.value), env);
      if cmd in {CMD_SEM_POST, CMD_MUTEX_UNLOCK, CMD_COND_SIGNAL, CMD_COND_BROADCAST} {
        FslWrite(0);
      } else {
        FslWrite(o.result);
      }
      return None;
    }

    method MboxPutCommand(env: nat -> Outcome) returns (status: Option<Status>)
      modifies this`input, this`output, this`calls
      ensures Turned([CMD_MBOX_PUT] + old(input), old(calls), old(output), env, status)
    {
      ghost var was := [CMD_MBOX_PUT] + input;
      assert |input| >= 2 ==> was[1] == input[0] && was[2] == input[1..][0] && was[3..] == input[1..][1..];
      var handle := FslRead();
      if handle.None? {
        return Some(Starved);
      }
      var arg0 := FslRead();
      if arg0.None? {
        return Some(Starved);
      }
      var ok := Resource(handle.value, TYPE_MBOX);
      if !ok {
        return Some(Failed);
      }
      var _ := Call(MboxPut(handle.value, arg0.value), env);
      FslWrite(0);
      return None;
    }

    method CondWaitCommand(env: nat -> Outcome) returns (status: Option<Status>)
      modifies this`input, this`output, this`calls
      ensures Turned([CMD_COND_WAIT] + old(input), old(calls), old(output), env, status)
    {
      ghost var was := [CMD_COND_WAIT] + input;
      assert |input| >= 2 ==> was[1] == input[0] && was[2] == input[1..][0] && was[3..] == input[1..][1..];
      var handle := FslRead();
      if handle.None? {
        return Some(Starved);
      }
      var handle2 := FslRead();
      if handle2.None? {
        return Some(Starved);
      }
      var ok := Resource(handle.value, TYPE_COND);
      var ok2 := Resource(handle2.value, TYPE_MUTEX);
      if !ok || !ok2 {
        return Some(Failed);
      }
      var o := Call(CondWait(handle.value, handle2.value), env);
      FslWrite(o.result);
      return None;
    }

    method RqReceiveCommand(env: nat -> Outcome) returns (status: Option<Status>)
      requires forall i: nat :: env(i).Valid()
      modifies this`input, this`output, this`calls
      ensures Turned([CMD_RQ_RECEIVE] + old(input), old(calls), old(output), env, status)
    {
      ghost var was := [CMD_RQ_RECEIVE] + input;
      assert |input| >= 2 ==> was[1] == input[0] && was[2] == input[1..][0] && was[3..] == input[1..][1..];
      var handle := FslRead();
      if handle.None? {
        return Some(Starved);
      }
      var arg0 := FslRead();
      if arg0.None? {
        return Some(Starved);
      }
      var ok := Resource(handle.value, TYPE_RQ);
      if !ok {
        return Some(Failed);
      }
      var msgSize := arg0.value;
      var hasBuffer := msgSize < UINT_MAX;
      var o := Call(RqReceive(handle.value, msgSize), env);
      if !hasBuffer && o.size > 0 {
        return Some(Failed);  // the call copies to a null pointer
      }
      var result := RqResult(o.size, msgSize);
      if result == 0 || result > msgSize {
        FslWrite(0);
      } else {
        FslWrite(result);
        if !hasBuffer {
          return Some(Failed);  // the first word is read from a null pointer
        }
        assert o.words[..result / 4] == o.words;
        WriteWords(o.words, result / 4);
        assert output == old(output) + ([result] + o.words);
      }
      return None;
    }

    method RqSendCommand(env: nat -> Outcome) returns (status: Option<Status>)
      modifies this`input, this`output, this`calls
      ensures Turned([CMD_RQ_SEND] + old(input), old(calls), old(output), env, status)
    {
      ghost var was := [CMD_RQ_SEND] + input;
      assert |input| >= 2 ==> was[1] == input[0] && was[2] == input[1..][0] && was[3..] == input[1..][1..];
      var handle := FslRead();
      if handle.None? {
        return Some(Starved);
      }
      var arg0 := FslRead();
      if arg0.None? {
        return Some(Starved);
      }
      var ok := Resource(handle.value, TYPE_RQ);
      if !ok {
        return Some(Failed);
      }
      var n := arg0.value / 4;
      ghost var data := input;
      assert data == was[3..];
      assert n <= |data| ==> was[3..3 + n] == data[..n] && was[3 + n..] == data[n..];
      var msg := ReadWords(n);
      if msg.None? {
        return Some(Starved);
      }
      var _ := Call(RqSend(handle.value, arg0.value, msg.value), env);
      FslWrite(0);
      return None;
    }

    /** One turn of the loop: read a command word and go through the switch. */
    method Command(env: nat -> Outcome) returns (status: Option<Status>)
      requires forall i: nat :: env(i).Valid()
      modifies this`input, this`output, this`calls
      ensures Turned(old(input), old(calls), old(output), env, status)
    {
      var cmd := FslRead();
      if cmd.None? {
        return Some(Starved);
      }
      assert old(input) == [cmd.value] + input;
      if HandleType(cmd.value) != 0 {
        status := OneHandleCommand(cmd.value, env);
      } else if cmd.value == CMD_MBOX_PUT {
        status := MboxPutCommand(env);
      } else if cmd.value == CMD_COND_WAIT {
        status := CondWaitCommand(env);
      } else if cmd.value == CMD_RQ_RECEIVE {
        status := RqReceiveCommand(env);
      } else if cmd.value == CMD_RQ_SEND {
        status := RqSendCommand(env);
      } else if cmd.value == CMD_GET_INIT_DATA {
        var _ := Call(GetInitData, env);
        FslWrite(initData);
        return None;
      } else if cmd.value == CMD_THREAD_EXIT {
        var _ := Call(ThreadExit, env);
        return Some(Exited);
      } else {
        return Some(Failed);
      }
    }

    /** The whole thread. The loop runs until the thread exits, the process fails or the link stays empty. */
    method Run(env: nat -> Outcome) returns (status: Status)
      requires calls == [] && output == []
      requires forall i: nat :: env(i).Valid()
      modifies this`input, this`output, this`calls
      ensures Session(calls, output, status) == Serve(types, initData, old(input), env, 0)
    {
      hide Encode, Reply, Parse;
      ghost var all := Serve(types, initData, input, env, 0);
      while true
        invariant all == Resume(calls, output, Serve(types, initData, input, env, |calls|))
        decreases |input|
      {
        ghost var was, calls0, output0 := input, calls, output;
        ParseShrinks(types, input);
        var s := Command(env);
        if s.Some? {
          return s.value;
        }
        ghost var r := Parse(types, was).request;
        ResumeTwice(calls0, output0, [r], Reply(initData, r, env(|calls0|)), Serve(types, initData, input, env, |calls|));
      }
    }
  }
}
