// linux/libreconos/libreconos.c, slot_reset: the reset lines of all hardware thread slots are sent in one word,
// so resetting one slot must repeat the state of every other slot.
module SlotReset {
  import opened Words

  const MAX_SLOTS := 16
  const RESET_COMMAND: Word := 0x0100_0000

  /** SLOT_FLAG_RESET is bit 0 of the flags of a slot. */
  predicate InReset(flags: Word) { flags % 2 == 1 }

  /** The other flags of a slot. */
  function OtherFlags(flags: Word): nat { flags / 2 }

  /** Bit i of a word. */
  predicate Bit(w: nat, i: nat) { w / Pow2(i) % 2 == 1 }

  /** The mask of the slots fs, the first of them in bit 0. */
  function Mask(fs: seq<Word>): nat {
    if fs == [] then 0 else 2 * Mask(fs[1..]) + if InReset(fs[0]) then 1 else 0
  }

  lemma {:induction false} MaskBound(fs: seq<Word>)
    ensures Mask(fs) < Pow2(|fs|)
  {
    if fs != [] {
      MaskBound(fs[1..]);
    }
  }

  lemma Halve(a: nat, x: nat, p: nat)
    requires x <= 1 && p > 0
    ensures (2 * a + x) / (2 * p) == a / p
  {
    var q, r := a / p, a % p;
    assert 2 * a + x == q * (2 * p) + (2 * r + x);
    ModUnique(2 * a + x, 2 * p, q, 2 * r + x);
  }

  /** Bits move up by one when a bit is shifted in. */
  lemma BitStep(m: nat, x: nat, i: nat)
    requires x <= 1
    ensures Bit(2 * m + x, 0) <==> x == 1
    ensures i > 0 ==> (Bit(2 * m + x, i) <==> Bit(m, i - 1))
  {
    if i > 0 {
      Halve(m, x, Pow2(i - 1));
    }
  }

  lemma NoBits(i: nat)
    ensures !Bit(0, i)
  {
  }

  /** Bit i of the mask is the reset flag of slot i, and there are no other bits. */
  lemma {:induction false} MaskBits(fs: seq<Word>, i: nat)
    ensures Bit(Mask(fs), i) <==> i < |fs| && InReset(fs[i])
  {
    hide Bit, InReset, Pow2;
    if fs == [] {
      NoBits(i);
    } else {
      BitStep(Mask(fs[1..]), if InReset(fs[0]) then 1 else 0, i);
      if i > 0 {
        MaskBits(fs[1..], i - 1);
      }
    }
  }

  lemma MaskFits(fs: seq<Word>)
    requires |fs| == MAX_SLOTS
    ensures Mask(fs) < 0x1_0000
  {
    MaskBound(fs);
    assert Pow2(8) == 0x100;
    assert Pow2(12) == 0x1000;
  }

  /** The mask of the slots from k on. */
  function MaskFrom(fs: seq<Word>, k: nat): nat
    requires k <= |fs|
  {
    Mask(fs[k..])
  }

  lemma MaskFromStep(fs: seq<Word>, k: nat)
    requires k < |fs|
    ensures MaskFrom(fs, k) == 2 * MaskFrom(fs, k + 1) + if InReset(fs[k]) then 1 else 0
  {
    assert fs[k..][1..] == fs[k + 1..];
  }

  lemma MaskFromEnds(fs: seq<Word>)
    ensures MaskFrom(fs, 0) == Mask(fs) && MaskFrom(fs, |fs|) == 0
  {
    assert fs[0..] == fs;
  }

  /** The mask and the command code do not overlap. */
  lemma Headroom(mask: nat)
    requires mask < 0x1_0000
    ensures (RESET_COMMAND + mask) % 0x1_0000 == mask
    ensures (RESET_COMMAND + mask) / 0x1_0000 == RESET_COMMAND / 0x1_0000
  {
  }

  /** flags | SLOT_FLAG_RESET */
  function SetFlag(flags: Word): (r: Word)
    ensures InReset(r) && OtherFlags(r) == OtherFlags(flags)
  {
    if flags % 2 == 1 then flags else flags + 1
  }

  /** flags & ~SLOT_FLAG_RESET */
  function ClearFlag(flags: Word): (r: Word)
    ensures !InReset(r) && OtherFlags(r) == OtherFlags(flags)
  {
    if flags % 2 == 1 then flags - 1 else flags
  }

  /** The command that puts exactly the flagged slots into reset: its low half is the mask, bit by bit. */
  ghost predicate IsCommand(cmd: Word, fs: seq<Word>) {
    && cmd / 0x1_0000 == RESET_COMMAND / 0x1_0000
    && forall i: nat | i < |fs| :: Bit(cmd % 0x1_0000, i) <==> InReset(fs[i])
  }

  lemma CommandOfMask(fs: seq<Word>)
    requires |fs| == MAX_SLOTS
    ensures RESET_COMMAND + Mask(fs) < 0x1_0000_0000
    ensures IsCommand(RESET_COMMAND + Mask(fs), fs)
  {
    hide Bit, Mask, Pow2;
    MaskFits(fs);
    Headroom(Mask(fs));
    forall i: nat | i < |fs| ensures Bit(Mask(fs), i) <==> InReset(fs[i]) {
      MaskBits(fs, i);
    }
  }

  class ProcControl {
    const slotFlags: array<Word>
    var sent: seq<Word>  // words written to the process control link

    constructor ()
      ensures slotFlags.Length == MAX_SLOTS && fresh(slotFlags) && sent == []
    {
      slotFlags, sent := new Word[MAX_SLOTS], [];
    }

    /** The loop over the slots, from the last to the first. */
    method BuildMask() returns (mask: nat)
      requires slotFlags.Length == MAX_SLOTS
      ensures mask == Mask(slotFlags[..])
    {
      hide InReset, Mask, MaskFrom;
      ghost var fs := slotFlags[..];
      MaskFromEnds(fs);
      mask := 0;
      var i := MAX_SLOTS - 1;
      while i >= 0
        invariant -1 <= i < MAX_SLOTS
        invariant mask == MaskFrom(fs, i + 1)
      {
        MaskFromStep(fs, i);
        mask := 2 * mask;
        if InReset(slotFlags[i]) {
          mask := mask + 1;
        }
        i := i - 1;
      }
    }

    /** Changes the reset flag of slot `num` alone and sends the reset lines of all slots in one command. */
    method SlotReset(num: nat, reset: bool) returns (cmd: Word)
      requires slotFlags.Length == MAX_SLOTS && num < MAX_SLOTS
      modifies this`sent, slotFlags
      ensures InReset(slotFlags[num]) == reset && OtherFlags(slotFlags[num]) == OtherFlags(old(slotFlags[num]))
      ensures forall i: nat | i < MAX_SLOTS && i != num :: slotFlags[i] == old(slotFlags[i])
      ensures sent == old(sent) + [cmd] && IsCommand(cmd, slotFlags[..])
    {
      hide InReset, OtherFlags, Mask, Pow2, SetFlag, ClearFlag, IsCommand;
      if reset {
        slotFlags[num] := SetFlag(slotFlags[num]);
      } else {
        slotFlags[num] := ClearFlag(slotFlags[num]);
      }
      var mask := BuildMask();
      CommandOfMask(slotFlags[..]);
      cmd := RESET_COMMAND + mask;
      sent := sent + [cmd];
    }
  }
}
