// demos/sort_demo/linux/merge.c
module Merge {
  import opened Words
  import opened Sorting

  // ---- What one merge of two blocks computes ----

  function Merged(l: seq<Word>, r: seq<Word>): seq<Word> {
    if r == [] then l
    else if l == [] then r
    else if l[0] <= r[0] then [l[0]] + Merged(l[1..], r)
    else [r[0]] + Merged(l, r[1..])
  }

  lemma {:induction false} MergedIsPermutation(l: seq<Word>, r: seq<Word>)
    ensures multiset(Merged(l, r)) == multiset(l) + multiset(r)
    ensures |Merged(l, r)| == |l| + |r|
  {
    hide Merged;
    MergedSteps(l, r);
    if r == [] || l == [] {
    } else if l[0] <= r[0] {
      MergedIsPermutation(l[1..], r);
      HeadAndTail(l);
      HeadAndTail(Merged(l, r));
    } else {
      MergedIsPermutation(l, r[1..]);
      HeadAndTail(r);
      HeadAndTail(Merged(l, r));
    }
  }

  lemma MergedSteps(l: seq<Word>, r: seq<Word>)
    ensures l == [] ==> Merged(l, r) == r
    ensures r == [] ==> Merged(l, r) == l
    ensures l != [] && r != [] ==>
              var m := Merged(l, r);
              m != [] && if l[0] <= r[0] then m[0] == l[0] && m[1..] == Merged(l[1..], r) else m[0] == r[0] && m[1..] == Merged(l, r[1..])
  {
  }

  lemma HeadAndTail(s: seq<Word>)
    requires s != []
    ensures multiset(s) == multiset{s[0]} + multiset(s[1..])
  {
    assert s == [s[0]] + s[1..];
  }

  ghost predicate AtLeast(m: Word, s: seq<Word>) {
    forall k | 0 <= k < |s| :: m <= s[k]
  }

  lemma {:induction false} MergedAtLeast(m: Word, l: seq<Word>, r: seq<Word>)
    requires AtLeast(m, l) && AtLeast(m, r)
    ensures AtLeast(m, Merged(l, r))
  {
    if r == [] || l == [] {
    } else if l[0] <= r[0] {
      MergedAtLeast(m, l[1..], r);
    } else {
      MergedAtLeast(m, l, r[1..]);
    }
  }

  lemma {:induction false} MergedIsSorted(l: seq<Word>, r: seq<Word>)
    requires Sorted(l) && Sorted(r)
    ensures Sorted(Merged(l, r))
  {
    if r == [] || l == [] {
    } else if l[0] <= r[0] {
      MergedAtLeast(l[0], l[1..], r);
      MergedIsSorted(l[1..], r);
    } else {
      MergedAtLeast(r[0], l, r[1..]);
      MergedIsSorted(l, r[1..]);
    }
  }

  /** Merging two sorted blocks sorts their concatenation. */
  lemma MergeSortsBothBlocks(l: seq<Word>, r: seq<Word>)
    requires Sorted(l) && Sorted(r)
    ensures Merged(l, r) == Sort(l + r)
  {
    MergedIsPermutation(l, r);
    MergedIsSorted(l, r);
    SortedPermutationIsSort(Merged(l, r), l + r);
  }

  /** `done` followed by the merge of what is left of l and r is the whole merge. */
  ghost predicate Partial(done: seq<Word>, l: seq<Word>, i: nat, r: seq<Word>, j: nat) {
    i <= |l| && j <= |r| && done + Merged(l[i..], r[j..]) == Merged(l, r)
  }

  /** Taking the head that simple_merge picks leaves a smaller merge to do. */
  lemma TakeLeft(done: seq<Word>, l: seq<Word>, i: nat, r: seq<Word>, j: nat)
    requires Partial(done, l, i, r, j) && i < |l|
    requires j == |r| || l[i] <= r[j]
    ensures Partial(done + [l[i]], l, i + 1, r, j)
  {
    var lt, rt := l[i..], r[j..];
    assert lt == [l[i]] + l[i + 1..];
    assert Merged(lt, rt) == [l[i]] + Merged(l[i + 1..], rt);
    Associate(done, [l[i]], Merged(l[i + 1..], rt));
  }

  lemma TakeRight(done: seq<Word>, l: seq<Word>, i: nat, r: seq<Word>, j: nat)
    requires Partial(done, l, i, r, j) && j < |r|
    requires i == |l| || l[i] > r[j]
    ensures Partial(done + [r[j]], l, i, r, j + 1)
  {
    var lt, rt := l[i..], r[j..];
    assert rt == [r[j]] + r[j + 1..];
    assert Merged(lt, rt) == [r[j]] + Merged(lt, r[j + 1..]);
    Associate(done, [r[j]], Merged(lt, r[j + 1..]));
  }

  lemma TakeNext(done: seq<Word>, l: seq<Word>, i: nat, r: seq<Word>, j: nat)
    requires Partial(done, l, i, r, j) && i <= |l| && j <= |r| && i + j < |l| + |r|
    ensures if j == |r| || (i < |l| && l[i] <= r[j]) then Partial(done + [l[i]], l, i + 1, r, j)
            else Partial(done + [r[j]], l, i, r, j + 1)
  {
    hide Partial;
    if j == |r| || (i < |l| && l[i] <= r[j]) {
      TakeLeft(done, l, i, r, j);
    } else {
      TakeRight(done, l, i, r, j);
    }
  }

  lemma PartialEnds(done: seq<Word>, l: seq<Word>, r: seq<Word>)
    ensures Partial([], l, 0, r, 0)
    ensures Partial(done, l, |l|, r, |r|) ==> done == Merged(l, r)
  {
    assert [] + Merged(l[0..], r[0..]) == Merged(l, r);
  }

  lemma Associate(a: seq<Word>, b: seq<Word>, c: seq<Word>)
    ensures a + (b + c) == (a + b) + c
  {
  }

  // ---- simple_merge ----

  /** merge_info: C pointers are an array and an offset into it. */
  datatype MergeInfo = MergeInfo(
    left: array<Word>, leftAt: nat, right: array<Word>, rightAt: nat,
    blocksize: nat, result: array<Word>, resultAt: nat)
  {
    /** The three blocks lie inside their buffers and the result is a different buffer. */
    predicate InBounds() {
      && leftAt + blocksize <= left.Length
      && rightAt + blocksize <= right.Length
      && resultAt + 2 * blocksize <= result.Length
      && result != left && result != right
    }
  }

  /** was with `done` written right after the prefix pre. */
  function Filled(pre: seq<Word>, done: seq<Word>, was: seq<Word>): (r: seq<Word>)
    requires |pre| + |done| <= |was|
    ensures |r| == |was|
  {
    pre + done + was[|pre| + |done|..]
  }

  lemma FillNext(pre: seq<Word>, done: seq<Word>, was: seq<Word>, x: Word)
    requires |pre| + |done| < |was|
    ensures Filled(pre, done, was)[|pre| + |done| := x] == Filled(pre, done + [x], was)
  {
  }

  lemma NothingFilled(was: seq<Word>, at: nat)
    requires at <= |was|
    ensures Filled(was[..at], [], was) == was
  {
  }

  lemma FilledParts(pre: seq<Word>, done: seq<Word>, was: seq<Word>)
    requires |pre| + |done| <= |was|
    ensures Filled(pre, done, was)[..|pre|] == pre
    ensures Filled(pre, done, was)[|pre|..|pre| + |done|] == done
    ensures Filled(pre, done, was)[|pre| + |done|..] == was[|pre| + |done|..]
  {
  }

  method SimpleMerge(mi: MergeInfo)
    requires mi.InBounds()
    modifies mi.result
    ensures mi.result[mi.resultAt..mi.resultAt + 2 * mi.blocksize]
         == Merged(old(mi.left[mi.leftAt..mi.leftAt + mi.blocksize]), old(mi.right[mi.rightAt..mi.rightAt + mi.blocksize]))
    ensures mi.result[..mi.resultAt] == old(mi.result[..mi.resultAt])
    ensures mi.result[mi.resultAt + 2 * mi.blocksize..] == old(mi.result[mi.resultAt + 2 * mi.blocksize..])
  {
    hide Merged, Partial, Filled;
    var a, c, dst, b := mi.left, mi.right, mi.result, mi.blocksize;
    ghost var ls, rs := a[mi.leftAt..mi.leftAt + b], c[mi.rightAt..mi.rightAt + b];
    ghost var was := dst[..];
    ghost var pre, done := was[..mi.resultAt], [];
    Slices(dst, mi.resultAt, mi.resultAt + 2 * b);
    PartialEnds([], ls, rs);
    NothingFilled(was, mi.resultAt);
    var n, l, r := 0, 0, 0;
    var left, right, result := mi.leftAt, mi.rightAt, mi.resultAt;
    while n < b * 2
      invariant 0 <= l <= b && 0 <= r <= b && n == l + r == |done|
      invariant left == mi.leftAt + l && right == mi.rightAt + r && result == mi.resultAt + n
      invariant Partial(done, ls, l, rs, r)
      invariant dst[..] == Filled(pre, done, was)
      decreases b * 2 - n
    {
      assert (l < b ==> a[left] == ls[l]) && (r < b ==> c[right] == rs[r]);
      var next;
      TakeNext(done, ls, l, rs, r);
      if r >= b || (l < b && a[left] <= c[right]) {
        next := a[left];
        left := left + 1;
        l := l + 1;
      } else {
        next := c[right];
        right := right + 1;
        r := r + 1;
      }
      FillNext(pre, done, was, next);
      ghost var before := dst[..];
      dst[result] := next;
      assert dst[..] == before[result := next];
      done := done + [next];
      result := result + 1;
      n := n + 1;
    }
    PartialEnds(done, ls, rs);
    FilledParts(pre, done, was);
    Slices(dst, mi.resultAt, mi.resultAt + 2 * b);
  }

  lemma Slices(a: array<Word>, from: nat, to: nat)
    requires from <= to <= a.Length
    ensures a[..from] == a[..][..from] && a[from..to] == a[..][from..to] && a[to..] == a[..][to..]
  {
  }

  // ---- recursive_merge ----

  /** s is a row of sorted blocks of b words. */
  ghost predicate SortedBlocks(s: seq<Word>, b: nat)
    requires b > 0
    decreases |s|
  {
    s == [] || (|s| >= b && Sorted(s[..b]) && SortedBlocks(s[b..], b))
  }

  /** One pass over s: neighbouring blocks of b words merged pairwise. */
  function MergePass(s: seq<Word>, b: nat): (r: seq<Word>)
    requires b > 0
    decreases |s|
  {
    if |s| < 2 * b then [] else Merged(s[..b], s[b..2 * b]) + MergePass(s[2 * b..], b)
  }

  /** s consists of an even number of blocks of b words. */
  predicate Paired(s: seq<Word>, b: nat)
    requires b > 0
    decreases |s|
  {
    s == [] || (|s| >= 2 * b && Paired(s[2 * b..], b))
  }

  lemma {:induction false} PassKeepsWords(s: seq<Word>, b: nat)
    requires b > 0 && Paired(s, b)
    ensures |MergePass(s, b)| == |s| && multiset(MergePass(s, b)) == multiset(s)
    decreases |s|
  {
    if s != [] {
      hide Merged;
      PassKeepsWords(s[2 * b..], b);
      MergedIsPermutation(s[..b], s[b..2 * b]);
      ThreePieces(s, b);
    }
  }

  lemma ThreePieces(s: seq<Word>, b: nat)
    requires 2 * b <= |s|
    ensures multiset(s) == multiset(s[..b]) + multiset(s[b..2 * b]) + multiset(s[2 * b..])
  {
    assert s == s[..b] + s[b..2 * b] + s[2 * b..];
  }

  lemma {:induction false} PassDoublesSortedBlocks(s: seq<Word>, b: nat)
    requires b > 0 && Paired(s, b) && SortedBlocks(s, b)
    ensures SortedBlocks(MergePass(s, b), 2 * b)
    decreases |s|
  {
    if s != [] {
      var m, rest := Merged(s[..b], s[b..2 * b]), s[2 * b..];
      assert s[b..][..b] == s[b..2 * b] && s[b..][b..] == rest;
      PassDoublesSortedBlocks(rest, b);
      MergedIsPermutation(s[..b], s[b..2 * b]);
      MergedIsSorted(s[..b], s[b..2 * b]);
      var p := MergePass(s, b);
      assert p[..2 * b] == m && p[2 * b..] == MergePass(rest, b);
    }
  }

  lemma PairLess(b: nat, pairs: nat)
    requires pairs > 0
    ensures 2 * b * pairs == 2 * b + 2 * b * (pairs - 1) && 2 * b * (pairs - 1) >= 0
  {
  }

  lemma {:induction false} MultipleIsPaired(s: seq<Word>, b: nat, pairs: nat)
    requires b > 0 && |s| == 2 * b * pairs
    ensures Paired(s, b)
    decreases pairs
  {
    if pairs == 0 {
      assert |s| == 0;
    } else {
      PairLess(b, pairs);
      MultipleIsPaired(s[2 * b..], b, pairs - 1);
    }
  }

  /** recursive_merge on contents: passes with doubled block size until one block is left. */
  function MergeAll(s: seq<Word>, b: nat, k: nat): seq<Word>
    requires b > 0
    decreases k
  {
    if k == 0 then s else MergeAll(MergePass(s, b), 2 * b, k - 1)
  }

  lemma PowerIsPaired(s: seq<Word>, b: nat, k: nat)
    requires b > 0 && k > 0 && |s| == b * Pow2(k)
    ensures Paired(s, b)
    ensures b * Pow2(k) == 2 * b * Pow2(k - 1)
  {
    assert b * (2 * Pow2(k - 1)) == 2 * b * Pow2(k - 1);
    MultipleIsPaired(s, b, Pow2(k - 1));
  }

  /** On 2^k sorted blocks the passes sort everything. */
  lemma {:induction false} MergeAllSorts(s: seq<Word>, b: nat, k: nat)
    requires b > 0 && |s| == b * Pow2(k) && SortedBlocks(s, b)
    ensures MergeAll(s, b, k) == Sort(s)
    decreases k
  {
    if k == 0 {
      assert s[..b] == s;
      SortedPermutationIsSort(s, s);
    } else {
      PowerIsPaired(s, b, k);
      PassKeepsWords(s, b);
      PassDoublesSortedBlocks(s, b);
      var p := MergePass(s, b);
      MergeAllSorts(p, 2 * b, k - 1);
      SortIsSortedPermutation(p);
      SortedPermutationIsSort(Sort(p), s);
    }
  }

  /** Appending the next merged pair to a pass over a prefix. */
  lemma {:induction false} PassAppends(s: seq<Word>, t: seq<Word>, b: nat)
    requires b > 0 && Paired(s, b) && |t| == 2 * b
    ensures MergePass(s + t, b) == MergePass(s, b) + Merged(t[..b], t[b..])
    ensures Paired(s + t, b)
    decreases |s|
  {
    if s == [] {
      assert s + t == t && t[2 * b..] == [] && t[b..2 * b] == t[b..];
      assert MergePass(t, b) == Merged(t[..b], t[b..]) + [];
    } else {
      assert (s + t)[2 * b..] == s[2 * b..] + t;
      assert (s + t)[..b] == s[..b] && (s + t)[b..2 * b] == s[b..2 * b];
      PassAppends(s[2 * b..], t, b);
      Associate(Merged(s[..b], s[b..2 * b]), MergePass(s[2 * b..], b), Merged(t[..b], t[b..]));
    }
  }

  /** The offset of block i; kept behind a function so that products stay out of the loop proof. */
  function At(i: nat, b: nat): nat {
    i * b
  }

  lemma AtNext(i: nat, b: nat)
    ensures At(i + 1, b) == At(i, b) + b && At(i + 2, b) == At(i, b) + 2 * b
  {
    assert (i + 1) * b == i * b + b;
    assert (i + 2) * b == i * b + 2 * b;
  }

  /** size is a whole number of blocks of b words. */
  predicate WholeBlocks(size: nat, b: nat) { b > 0 && size % b == 0 }

  /** The pair loop merges blocks i and i + 1 for i = 0, 2, ... below size / b; all of them end inside the buffer. */
  predicate PassInBounds(size: nat, b: nat)
    requires b > 0
  {
    forall i: nat | i < size / b && i % 2 == 0 :: At(i, b) + 2 * b <= size
  }

  /** On whole blocks the pair loop stays inside the buffer exactly when it finds a partner for every block. */
  lemma PassInBoundsIffEven(b: nat, n: nat)
    requires b > 0
    ensures b * n / b == n && WholeBlocks(b * n, b)
    ensures PassInBounds(b * n, b) <==> n % 2 == 0
  {
    ModUnique(b * n, b, n, 0);
    if n % 2 == 0 {
      forall i: nat | i < b * n / b && i % 2 == 0 ensures At(i, b) + 2 * b <= b * n {
        var more: nat := n - i - 2;
        assert b * n == i * b + 2 * b + b * more;
      }
    } else {
      assert At(n - 1, b) + 2 * b == b * n + b;
    }
  }

  lemma BlockZero(b: nat)
    ensures At(0, b) == 0
  {
  }

  lemma BlockCount(size: nat, b: nat)
    requires WholeBlocks(size, b)
    ensures At(size / b, b) == size
  {
  }

  /** After i/2 pairs the result holds the pass over the first i blocks. */
  ghost predicate PassDone(r: seq<Word>, was: seq<Word>, s: seq<Word>, b: nat, at: nat)
    requires b > 0
  {
    && at <= |s| <= |r| == |was|
    && Paired(s[..at], b)
    && |MergePass(s[..at], b)| == at
    && r[..at] == MergePass(s[..at], b)
    && r[|s|..] == was[|s|..]
  }

  /** Writing the next merged pair behind a partial pass. */
  lemma PassGrows(r: seq<Word>, r': seq<Word>, was: seq<Word>, s: seq<Word>, b: nat, at: nat)
    requires b > 0 && PassDone(r, was, s, b, at) && at + 2 * b <= |s| && |r'| == |r|
    requires r'[..at] == r[..at] && r'[at + 2 * b..] == r[at + 2 * b..]
    requires r'[at..at + 2 * b] == Merged(s[at..at + b], s[at + b..at + 2 * b])
    ensures PassDone(r', was, s, b, at + 2 * b)
  {
    hide MergePass, Merged, Paired;
    var t := s[at..at + 2 * b];
    assert t[..b] == s[at..at + b] && t[b..] == s[at + b..at + 2 * b];
    PassAppends(s[..at], t, b);
    assert s[..at] + t == s[..at + 2 * b];
    assert r'[..at + 2 * b] == r'[..at] + r'[at..at + 2 * b];
    assert r'[|s|..] == r'[at + 2 * b..][|s| - at - 2 * b..];
    assert r[|s|..] == r[at + 2 * b..][|s| - at - 2 * b..];
    PassKeepsWords(s[..at + 2 * b], b);
  }

  lemma PassStarts(was: seq<Word>, s: seq<Word>, b: nat)
    requires b > 0 && |s| <= |was|
    ensures PassDone(was, was, s, b, 0)
  {
    assert was[..0] == MergePass(s[..0], b);
  }

  lemma PassFinishes(r: seq<Word>, was: seq<Word>, s: seq<Word>, b: nat)
    requires b > 0 && PassDone(r, was, s, b, |s|)
    ensures r[..|s|] == MergePass(s, b) && r[|s|..] == was[|s|..]
  {
    assert s[..|s|] == s;
  }

  /** The pair loop of recursive_merge; what it needs to stay inside the buffers is PassInBounds. */
  method PassOver(data: array<Word>, result: array<Word>, size: nat, blocksize: nat)
    requires WholeBlocks(size, blocksize) && PassInBounds(size, blocksize)
    requires data != result && size <= data.Length && size <= result.Length
    modifies result
    ensures result[..size] == MergePass(old(data[..size]), blocksize)
    ensures result[size..] == old(result[size..])
  {
    hide PassDone, MergePass, Paired, At;
    ghost var s, was := data[..size], result[..];
    PassStarts(was, s, blocksize);
    BlockZero(blocksize);
    ghost var at := 0;
    var i := 0;
    while i < size / blocksize
      invariant i % 2 == 0 && i <= size / blocksize + 1 && at == At(i, blocksize) <= size
      invariant data[..size] == s
      invariant PassDone(result[..], was, s, blocksize, at)
    {
      AtNext(i, blocksize);
      MergePair(data, result, size, blocksize, i, was);
      at := at + 2 * blocksize;
      i := i + 2;
    }
    LastPair(i, size, blocksize);
    PassFinishes(result[..], was, s, blocksize);
    assert result[..][..size] == result[..size] && result[..][size..] == result[size..];
  }

  lemma LastPair(i: nat, size: nat, b: nat)
    requires WholeBlocks(size, b) && i >= size / b && At(i, b) <= size
    ensures At(i, b) == size
  {
    BlockCount(size, b);
    var more: nat := i - size / b;
    assert (size / b + more) * b == size / b * b + more * b;
  }

  lemma BlockOfPrefix(a: array<Word>, size: nat, lo: nat, hi: nat)
    requires lo <= hi <= size <= a.Length
    ensures a[..size][lo..hi] == a[lo..hi]
  {
    assert forall i | 0 <= i < hi - lo :: a[..size][lo..hi][i] == a[lo + i] == a[lo..hi][i];
  }

  /** The body of the pair loop: blocks i and i+1 of data merged into the same place of result. */
  method MergePair(data: array<Word>, result: array<Word>, size: nat, blocksize: nat, i: nat, ghost was: seq<Word>)
    requires blocksize > 0 && data != result && size <= data.Length && size <= result.Length
    requires At(i + 1, blocksize) == At(i, blocksize) + blocksize && At(i, blocksize) + 2 * blocksize <= size
    requires |was| == result.Length && PassDone(result[..], was, data[..size], blocksize, At(i, blocksize))
    modifies result
    ensures PassDone(result[..], was, data[..size], blocksize, At(i, blocksize) + 2 * blocksize)
  {
    hide PassDone, Merged, MergePass, Paired, At;
    ghost var at, r, s := At(i, blocksize), result[..], data[..size];
    var mi := MergeInfo(data, At(i, blocksize), data, At(i + 1, blocksize), blocksize, result, At(i, blocksize));
    SimpleMerge(mi);
    BlockOfPrefix(data, size, at, at + blocksize);
    BlockOfPrefix(data, size, at + blocksize, at + 2 * blocksize);
    ghost var r' := result[..];
    assert r'[..at] == r[..at] && r'[at + 2 * blocksize..] == r[at + 2 * blocksize..];
    PassGrows(r, r', was, s, blocksize, at);
  }

  // ---- Doubling a 32-bit block size ----

  /** blocksize * 2 in 32 bits */
  function Doubled(b: Word): Word { 2 * b % 0x1_0000_0000 }

  /** How many doublings bring the low `bits` bits of b to zero. */
  function DoublingsLeft(b: nat, bits: nat): nat {
    if bits == 0 then 0 else if b % 2 == 1 then bits else DoublingsLeft(b / 2, bits - 1)
  }

  lemma {:induction false} OnlyLowBits(b: nat, bits: nat, q: nat)
    ensures DoublingsLeft(b + Pow2(bits) * q, bits) == DoublingsLeft(b, bits)
    decreases bits
  {
    if bits > 0 {
      var h := Pow2(bits - 1) * q;
      assert Pow2(bits) * q == 2 * h;
      assert (b + 2 * h) % 2 == b % 2 && (b + 2 * h) / 2 == b / 2 + h;
      OnlyLowBits(b / 2, bits - 1, q);
    }
  }

  lemma {:induction false} SomethingLeft(b: nat, bits: nat)
    requires 0 < b < Pow2(bits)
    ensures DoublingsLeft(b, bits) > 0
    decreases bits
  {
    if b % 2 == 0 {
      SomethingLeft(b / 2, bits - 1);
    }
  }

  lemma {:induction false} FewerBits(b: nat, bits: nat)
    requires bits > 0 && DoublingsLeft(b, bits) > 0
    ensures DoublingsLeft(b, bits - 1) == DoublingsLeft(b, bits) - 1
    decreases bits
  {
    if b % 2 == 0 {
      FewerBits(b / 2, bits - 1);
    }
  }

  lemma WordBits()
    ensures Pow2(32) == 0x1_0000_0000
  {
    assert Pow2(8) == 0x100;
    assert Pow2(16) == 0x1_0000;
    assert Pow2(24) == 0x100_0000;
  }

  /** Every doubling of a block size that is not yet zero brings it closer to zero. */
  lemma DoublingEnds(b: Word)
    requires b != 0
    ensures DoublingsLeft(Doubled(b), 32) < DoublingsLeft(b, 32)
  {
    WordBits();
    SomethingLeft(b, 32);
    FewerBits(b, 32);
    var q := 2 * b / 0x1_0000_0000;
    assert 2 * b == Doubled(b) + Pow2(32) * q;
    OnlyLowBits(Doubled(b), 32, q);
    assert DoublingsLeft(2 * b, 32) == DoublingsLeft(b, 31);
  }

  // ---- Which calls recursive_merge can handle ----

  /** All passes stay inside the buffers, no remainder by zero is taken, and the call returns. */
  predicate MergesInBounds(size: Word, b: Word)
    decreases DoublingsLeft(b, 32)
  {
    size == b || (b != 0 && PassInBounds(size, b) && (DoublingEnds(b); MergesInBounds(size, Doubled(b))))
  }

  /** The number of passes until the call returns. */
  ghost function Passes(size: Word, b: Word): nat
    requires MergesInBounds(size, b)
    decreases DoublingsLeft(b, 32)
  {
    if size == b then 0 else DoublingEnds(b); 1 + Passes(size, Doubled(b))
  }

  /** With nothing to merge the block size doubles until it is zero as well. */
  lemma {:induction false} NothingToMerge(b: Word)
    ensures MergesInBounds(0, b)
    decreases DoublingsLeft(b, 32)
  {
    if b != 0 {
      DoublingEnds(b);
      NothingToMerge(Doubled(b));
    }
  }

  lemma Halves(b: nat, m: nat)
    ensures b * (2 * m) == 2 * b * m && (m > 0 ==> 2 * b <= b * (2 * m))
  {
    if m > 0 {
      assert 2 * b * m == 2 * b + 2 * b * (m - 1);
    }
  }

  lemma {:induction false} PowerInBounds(b: Word, k: nat)
    requires b > 0 && b * Pow2(k) < 0x1_0000_0000
    ensures MergesInBounds(b * Pow2(k), b) && Passes(b * Pow2(k), b) == k
    decreases k
  {
    if k > 0 {
      Halves(b, Pow2(k - 1));
      PassInBoundsIffEven(b, Pow2(k));
      PowerInBounds(Doubled(b), k - 1);
      DoublingEnds(b);
    }
  }

  lemma {:induction false} InBoundsIsPower(b: Word, n: nat)
    requires b > 0 && n > 0 && b * n < 0x1_0000_0000 && MergesInBounds(b * n, b)
    ensures n == Pow2(Passes(b * n, b))
    decreases n
  {
    if n == 1 {
      assert Pow2(0) == 1;
    } else {
      Scaled(b, n);
      PassInBoundsIffEven(b, n);
      Halves(b, n / 2);
      InBoundsIsPower(Doubled(b), n / 2);
    }
  }

  lemma Scaled(b: nat, n: nat)
    requires b > 0 && n > 1
    ensures b * n > b
  {
    assert b * n == b + b * (n - 1);
  }

  /** recursive_merge on n blocks works exactly when n is a power of two or zero. */
  lemma MergesInBoundsIffPowerOfTwo(b: Word, n: nat)
    requires b > 0 && b * n < 0x1_0000_0000
    ensures MergesInBounds(b * n, b) <==> n == 0 || IsPowerOfTwo(n)
  {
    if n == 0 {
      NothingToMerge(b);
    } else {
      if MergesInBounds(b * n, b) {
        InBoundsIsPower(b, n);
      }
      if k: nat :| n == Pow2(k) {
        PowerInBounds(b, k);
      }
    }
  }

  // ---- recursive_merge as written ----

  lemma MergeAllSteps(s: seq<Word>, b: nat, k: nat)
    requires b > 0
    ensures MergeAll(s, b, 0) == s
    ensures k > 0 ==> MergeAll(s, b, k) == MergeAll(MergePass(s, b), 2 * b, k - 1)
  {
  }

  lemma NextBlocks(b: Word, n: nat)
    requires b > 0 && n > 1 && b * n < 0x1_0000_0000 && PassInBounds(b * n, b)
    ensures Doubled(b) == 2 * b && WholeBlocks(b * n, 2 * b)
  {
    PassInBoundsIffEven(b, n);
    Halves(b, n / 2);
    PassInBoundsIffEven(2 * b, n / 2);
  }

  lemma InBlocks(size: nat, b: nat) returns (n: nat)
    requires size > 0 && WholeBlocks(size, b)
    ensures n > 0 && size == b * n && (size != b ==> n > 1)
  {
    n := size / b;
    assert size == b * n;
    assert n == 0 ==> size == 0;
    assert n == 1 ==> size == b;
  }

  /** One pass on the way: the next call gets whole blocks of twice the size. */
  lemma NextPass(size: Word, b: Word)
    requires size > 0 && WholeBlocks(size, b) && MergesInBounds(size, b)
    ensures size == b * Pow2(Passes(size, b))
    ensures size != b ==> Doubled(b) == 2 * b && WholeBlocks(size, Doubled(b))
    ensures size != b ==> Passes(size, b) > 0
  {
    hide PassInBounds, DoublingsLeft, Pow2, WholeBlocks, MergesInBounds, Passes, Doubled;
    var n := InBlocks(size, b);
    InBoundsIsPower(b, n);
    if size != b {
      PassesStep(size, b);
      NextBlocks(b, n);
    }
  }

  lemma PassesStep(size: Word, b: Word)
    requires MergesInBounds(size, b) && size != b
    ensures b != 0 && PassInBounds(size, b) && MergesInBounds(size, Doubled(b))
    ensures Passes(size, b) == 1 + Passes(size, Doubled(b))
  {
  }

  /** The size is 0 or consists of whole blocks. */
  predicate MergeableSize(size: nat, b: nat) { size == 0 || WholeBlocks(size, b) }

  /** recursive_merge: after each pass the two buffers swap roles, so the block ends in `data`
      when the number of passes is even and in `result` when it is odd. */
  method RecursiveMerge(data: array<Word>, result: array<Word>, size: Word, blocksize: Word) returns (out: array<Word>)
    requires MergeableSize(size, blocksize) && MergesInBounds(size, blocksize)
    requires data != result && size <= data.Length && size <= result.Length
    modifies data, result
    ensures out == if Passes(size, blocksize) % 2 == 0 then data else result
    ensures size > 0 ==> out[..size] == MergeAll(old(data[..size]), blocksize, Passes(size, blocksize))
    ensures data[size..] == old(data[size..]) && result[size..] == old(result[size..])
    decreases DoublingsLeft(blocksize, 32)
  {
    hide MergeAll, MergePass, Pow2, Passes, MergesInBounds, PassInBounds, DoublingsLeft, Doubled;
    ghost var s := data[..size];
    if size > 0 {
      NextPass(size, blocksize);
      MergeAllSteps(s, blocksize, Passes(size, blocksize));
    }
    if size == blocksize {
      NoPass(size);
      return data;
    }
    PassesStep(size, blocksize);
    DoublingEnds(blocksize);
    PassOver(data, result, size, blocksize);
    out := RecursiveMerge(result, data, size, Doubled(blocksize));
  }

  lemma NoPass(size: Word)
    ensures MergesInBounds(size, size) && Passes(size, size) == 0
  {
  }

  /** On sorted blocks the result is the sorted permutation of the whole input. */
  lemma MergeAllSortsBlocks(s: seq<Word>, b: Word)
    requires 0 < |s| < 0x1_0000_0000 && WholeBlocks(|s|, b) && MergesInBounds(|s|, b) && SortedBlocks(s, b)
    ensures MergeAll(s, b, Passes(|s|, b)) == Sort(s)
  {
    NextPass(|s|, b);
    MergeAllSorts(s, b, Passes(|s|, b));
  }
}
