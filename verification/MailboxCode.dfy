// linux/libreconos/mbox.c in its own form: a structure updated in place, proved against
// the statement-by-statement machine of module Mailbox.
module MailboxCode {
  import opened Words
  import opened Mailbox

  class MessageBox {
    var size: nat
    var messages: array<Word>
    var readIdx: nat
    var writeIdx: nat
    var semRead: nat
    var semWrite: nat
    var mutexRead: Option<nat>
    var mutexWrite: Option<nat>
    ghost var stored: seq<Word>
    ghost var taken: seq<Word>

    ghost function State(): (mb: Mbox)
      reads this, messages
    {
      Mbox(size, messages[..], readIdx, writeIdx, semRead, semWrite, mutexRead, mutexWrite, stored, taken)
    }

    /** mbox_init */
    constructor (size: nat)
      ensures Init(State(), size) && fresh(messages)
    {
      readIdx, writeIdx := 0, 0;
      semRead, semWrite := 0, size;
      mutexRead, mutexWrite := None, None;
      this.size := size;
      messages := new Word[size];
      stored, taken := [], [];
    }

    /** mbox_put by thread t, run without interruption; `at` tells whether it returned or where it blocks. */
    method Put(t: nat, msg: Word, ghost ops: seq<Op>) returns (at: Op)
      requires Inv(State(), ops) && t < |ops| && ops[t] == Idle
      modifies this, messages
      ensures messages == old(messages)
      ensures (State(), at) == Uninterrupted(old(State()), t, PutLock(msg))
    {
      hide Inv, Uninterrupted;
      PutStatements(State(), ops, t, msg);
      if mutexWrite.Some? {
        return PutLock(msg);
      }
      mutexWrite := Some(t);
      if semWrite == 0 {
        return PutWait(msg);
      }
      semWrite := semWrite - 1;
      messages[writeIdx] := msg;
      stored := stored + [msg];
      writeIdx := (writeIdx + 1) % size;
      semRead := semRead + 1;
      mutexWrite := None;
      return PutDone;
    }

    /** mbox_get by thread t, run without interruption. */
    method Get(t: nat, ghost ops: seq<Op>) returns (at: Op)
      requires Inv(State(), ops) && t < |ops| && ops[t] == Idle
      modifies this
      ensures messages == old(messages)
      ensures (State(), at) == Uninterrupted(old(State()), t, GetLock)
    {
      hide Inv, Uninterrupted;
      GetStatements(State(), ops, t);
      if mutexRead.Some? {
        return GetLock;
      }
      mutexRead := Some(t);
      if semRead == 0 {
        return GetWait;
      }
      semRead := semRead - 1;
      var msg := messages[readIdx];
      taken := taken + [msg];
      readIdx := (readIdx + 1) % size;
      semWrite := semWrite + 1;
      mutexRead := None;
      return GetDone(msg);
    }
  }

  /** The state in which the statements of an uninterrupted mbox_put leave the mailbox. */
  lemma PutStatements(mb: Mbox, ops: seq<Op>, t: nat, msg: Word)
    requires Inv(mb, ops) && t < |ops| && ops[t] == Idle
    ensures mb.mutexWrite.Some? ==> Uninterrupted(mb, t, PutLock(msg)) == (mb, PutLock(msg))
    ensures mb.mutexWrite.None? && mb.semWrite == 0 ==>
              Uninterrupted(mb, t, PutLock(msg)) == (mb.(mutexWrite := Some(t)), PutWait(msg))
    ensures mb.mutexWrite.None? && mb.semWrite > 0 ==>
              && 0 < mb.size == |mb.messages| && mb.writeIdx < mb.size
              && Uninterrupted(mb, t, PutLock(msg))
                 == (mb.(semWrite := mb.semWrite - 1, messages := mb.messages[mb.writeIdx := msg], stored := mb.stored + [msg],
                         writeIdx := (mb.writeIdx + 1) % mb.size, semRead := mb.semRead + 1), PutDone)
  {
    hide Inv;
    if mb.mutexWrite.None? {
      var s1 := mb.(mutexWrite := Some(t));
      if mb.semWrite > 0 {
        StoreIsSafe(mb, ops, t, msg);
        PutFromStore(s1.(semWrite := mb.semWrite - 1), t, msg);
      }
    }
  }

  lemma PutFromStore(mb: Mbox, t: nat, msg: Word)
    requires mb.writeIdx < mb.size == |mb.messages|
    ensures Uninterrupted(mb, t, PutStore(msg))
         == (mb.(messages := mb.messages[mb.writeIdx := msg], stored := mb.stored + [msg],
                 writeIdx := (mb.writeIdx + 1) % mb.size, semRead := mb.semRead + 1, mutexWrite := None), PutDone)
  {
    var s3 := mb.(messages := mb.messages[mb.writeIdx := msg], stored := mb.stored + [msg]);
    var s4 := s3.(writeIdx := (mb.writeIdx + 1) % mb.size);
    var s5 := s4.(semRead := mb.semRead + 1);
    assert Uninterrupted(mb, t, PutStore(msg)) == Uninterrupted(s3, t, PutAdvance);
    assert Uninterrupted(s3, t, PutAdvance) == Uninterrupted(s4, t, PutPost);
    assert Uninterrupted(s4, t, PutPost) == Uninterrupted(s5, t, PutUnlock);
    assert Uninterrupted(s5, t, PutUnlock) == (s5.(mutexWrite := None), PutDone);
  }

  lemma GetFromLoad(mb: Mbox, t: nat)
    requires mb.readIdx < mb.size == |mb.messages|
    ensures Uninterrupted(mb, t, GetLoad)
         == (mb.(taken := mb.taken + [mb.messages[mb.readIdx]], readIdx := (mb.readIdx + 1) % mb.size,
                 semWrite := mb.semWrite + 1, mutexRead := None), GetDone(mb.messages[mb.readIdx]))
  {
    var msg := mb.messages[mb.readIdx];
    var s3 := mb.(taken := mb.taken + [msg]);
    var s4 := s3.(readIdx := (mb.readIdx + 1) % mb.size);
    var s5 := s4.(semWrite := mb.semWrite + 1);
    assert Uninterrupted(mb, t, GetLoad) == Uninterrupted(s3, t, GetAdvance(msg));
    assert Uninterrupted(s3, t, GetAdvance(msg)) == Uninterrupted(s4, t, GetPost(msg));
    assert Uninterrupted(s4, t, GetPost(msg)) == Uninterrupted(s5, t, GetUnlock(msg));
    assert Uninterrupted(s5, t, GetUnlock(msg)) == (s5.(mutexRead := None), GetDone(msg));
  }

  lemma GetStatements(mb: Mbox, ops: seq<Op>, t: nat)
    requires Inv(mb, ops) && t < |ops| && ops[t] == Idle
    ensures mb.mutexRead.Some? ==> Uninterrupted(mb, t, GetLock) == (mb, GetLock)
    ensures mb.mutexRead.None? && mb.semRead == 0 ==>
              Uninterrupted(mb, t, GetLock) == (mb.(mutexRead := Some(t)), GetWait)
    ensures mb.mutexRead.None? && mb.semRead > 0 ==>
              && 0 < mb.size == |mb.messages| && mb.readIdx < mb.size
              && var msg := mb.messages[mb.readIdx];
              Uninterrupted(mb, t, GetLock)
              == (mb.(semRead := mb.semRead - 1, taken := mb.taken + [msg],
                      readIdx := (mb.readIdx + 1) % mb.size, semWrite := mb.semWrite + 1), GetDone(msg))
  {
    hide Inv;
    if mb.mutexRead.None? {
      var s1 := mb.(mutexRead := Some(t));
      if mb.semRead > 0 {
        LoadIsSafe(mb, ops, t);
        GetFromLoad(s1.(semRead := mb.semRead - 1), t);
      }
    }
  }

  /** After lock and wait the store of mbox_put is in bounds. */
  lemma StoreIsSafe(mb: Mbox, ops: seq<Op>, t: nat, msg: Word)
    requires Inv(mb, ops) && t < |ops| && ops[t] == Idle
    requires mb.mutexWrite.None? && mb.semWrite > 0
    ensures mb.size > 0 && mb.writeIdx < |mb.messages| == mb.size
  {
  }

  /** After lock and wait the load of mbox_get is in bounds. */
  lemma LoadIsSafe(mb: Mbox, ops: seq<Op>, t: nat)
    requires Inv(mb, ops) && t < |ops| && ops[t] == Idle
    requires mb.mutexRead.None? && mb.semRead > 0
    ensures mb.size > 0 && mb.readIdx < |mb.messages| == mb.size
  {
  }
}
