// demos/sort_demo/linux/bubblesort.c
module BubbleSort {
  import opened Words
  import opened Sorting

  /** Every entry above position n is in place: no entry before it is larger. */
  ghost predicate InPlaceAbove(s: seq<Word>, n: int) {
    forall p, q | 0 <= p < q < |s| && n < q :: s[p] <= s[q]
  }

  /** The state of one pass that has compared positions up to i: the entries in (last, i] are
      in place within s[..i+1], where `last` is the last position swapped so far (-1: none). */
  ghost predicate Compared(s: seq<Word>, i: nat, last: int) {
    forall p, q | 0 <= p < q <= i && q < |s| && last < q :: s[p] <= s[q]
  }

  /** The entry at i is the largest so far: the one that the pass carries along. */
  ghost predicate Carried(s: seq<Word>, i: nat)
    requires i < |s|
  {
    forall p | 0 <= p <= i :: s[p] <= s[i]
  }

  lemma PassStarts(s: seq<Word>)
    requires s != []
    ensures Compared(s, 0, -1) && Carried(s, 0) && InPlaceAbove(s, |s| - 1)
  {
  }

  /** s with the neighbours i and i+1 exchanged. */
  function Swapped(s: seq<Word>, i: nat): (r: seq<Word>)
    requires i + 1 < |s|
    ensures |r| == |s| && multiset(r) == multiset(s)
  {
    var r := s[i := s[i + 1]][i + 1 := s[i]];
    assert s == s[..i] + [s[i], s[i + 1]] + s[i + 2..];
    assert r == s[..i] + [s[i + 1], s[i]] + s[i + 2..];
    r
  }

  /** A swap puts the larger of the two at i+1 and leaves the finished part alone. */
  lemma SwapAdvances(s: seq<Word>, i: nat, n: nat, last: int)
    requires i < n < |s| && s[i] > s[i + 1] && last < i
    requires InPlaceAbove(s, n) && Compared(s, i, last)
    requires Carried(s, i)
    ensures InPlaceAbove(Swapped(s, i), n) && Compared(Swapped(s, i), i + 1, i)
    ensures Carried(Swapped(s, i), i + 1)
  {
  }

  /** A comparison without swap extends the part that is in place. */
  lemma CompareAdvances(s: seq<Word>, i: nat, n: nat, last: int)
    requires i < n < |s| && s[i] <= s[i + 1]
    requires Compared(s, i, last)
    requires Carried(s, i)
    ensures Compared(s, i + 1, last)
    ensures Carried(s, i + 1)
  {
  }

  /** At the end of a pass everything above the last swap is in place. */
  lemma PassEnds(s: seq<Word>, n: nat, last: int)
    requires n < |s| && InPlaceAbove(s, n) && Compared(s, n, last)
    ensures InPlaceAbove(s, last)
    ensures last == -1 ==> Sorted(s)
  {
  }

  /** The block of `len` words that the C pointer `array` designates inside the buffer a. */
  function Block(a: array<Word>, off: nat, len: nat): seq<Word>
    requires off + len <= a.Length
    reads a
  {
    a[off..off + len]
  }

  /** Exchange array[i] and array[i + 1]. */
  method SwapNext(a: array<Word>, off: nat, len: nat, i: nat)
    requires off + len <= a.Length && i + 1 < len
    modifies a
    ensures Block(a, off, len) == Swapped(old(Block(a, off, len)), i)
    ensures a[..off] == old(a[..off]) && a[off + len..] == old(a[off + len..])
  {
    var temp := a[off + i];
    a[off + i] := a[off + i + 1];
    a[off + i + 1] := temp;
  }

  /** bubblesort(array, len) with array = &a[off]: the block ends up sorted, nothing else changes.
      The bound n drops to the last swapped position after every pass. */
  method BubbleSort(a: array<Word>, off: nat, len: nat)
    requires 1 <= len && off + len <= a.Length
    modifies a
    ensures Block(a, off, len) == Sort(old(Block(a, off, len)))
    ensures a[..off] == old(a[..off]) && a[off + len..] == old(a[off + len..])
  {
    hide InPlaceAbove, Compared, Carried, Swapped, Sort, Sorted;
    ghost var was := Block(a, off, len);
    PassStarts(was);
    var swapped := true;
    var n := len - 1;
    var nNew := n;
    while swapped
      invariant 0 <= n < len && nNew == n
      invariant multiset(Block(a, off, len)) == multiset(was)
      invariant InPlaceAbove(Block(a, off, len), n)
      invariant !swapped ==> Sorted(Block(a, off, len))
      invariant a[..off] == old(a[..off]) && a[off + len..] == old(a[off + len..])
      decreases n, swapped
    {
      swapped := false;
      ghost var last := -1;
      PassStarts(Block(a, off, len));
      var i := 0;
      while i < n
        invariant 0 <= i <= n < len
        invariant -1 <= last < i || last == -1
        invariant swapped <==> last >= 0
        invariant nNew == (if swapped then last else n)
        invariant multiset(Block(a, off, len)) == multiset(was)
        invariant InPlaceAbove(Block(a, off, len), n)
        invariant Compared(Block(a, off, len), i, last)
        invariant Carried(Block(a, off, len), i)
        invariant a[..off] == old(a[..off]) && a[off + len..] == old(a[off + len..])
      {
        ghost var s := Block(a, off, len);
        if a[off + i] > a[off + i + 1] {
          SwapAdvances(s, i, n, last);
          SwapNext(a, off, len, i);
          nNew := i;
          last := i;
          swapped := true;
        } else {
          CompareAdvances(s, i, n, last);
        }
        i := i + 1;
      }
      PassEnds(Block(a, off, len), n, last);
      n := nNew;
    }
    SortedPermutationIsSort(Block(a, off, len), was);
  }
}
