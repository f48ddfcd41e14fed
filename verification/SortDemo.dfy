// demos/sort_demo/linux/sort_demo.c, whole program: workers sort the blocks of the data buffer in
// place, in any interleaving, and main merges them.
module SortDemo {
  import opened Words
  import opened Sorting
  import opened BubbleSort
  import opened Merge
  import opened MB = Mailbox
  import opened WorkerPool
  import opened WorkerPoolProof
  import opened WorkerPoolRuns

  /** The buffer consists of exactly these blocks. */
  ghost predicate Holds(words: seq<Word>, blocks: Buffer) {
    && |words| == BLOCK_WORDS * |blocks|
    && forall j | 0 <= j < |blocks| :: words[BLOCK_WORDS * j..BLOCK_WORDS * j + BLOCK_WORDS] == blocks[j]
  }

  /** The blocks of the buffer as the workers have left them so far. */
  ghost function Current(c: Config, s: State): Buffer
    requires forall j: nat | j < |c.blocks| :: c.Addr(j) in s.data
  {
    seq(|c.blocks|, j requires 0 <= j < |c.blocks| => s.data[c.Addr(j)])
  }

  lemma HoldsTail(words: seq<Word>, blocks: Buffer)
    requires Holds(words, blocks) && blocks != []
    ensures Holds(words[BLOCK_WORDS..], blocks[1..])
    ensures words[..BLOCK_WORDS] == blocks[0]
  {
    var w, bs := words[BLOCK_WORDS..], blocks[1..];
    assert words[BLOCK_WORDS * 0..BLOCK_WORDS * 0 + BLOCK_WORDS] == blocks[0];
    forall j | 0 <= j < |bs| ensures w[BLOCK_WORDS * j..BLOCK_WORDS * j + BLOCK_WORDS] == bs[j] {
      var at := BLOCK_WORDS * (j + 1);
      assert words[at..at + BLOCK_WORDS] == blocks[j + 1];
      assert w[BLOCK_WORDS * j..BLOCK_WORDS * j + BLOCK_WORDS] == words[at..at + BLOCK_WORDS];
    }
  }

  /** Sorting every block gives a row of sorted blocks with the same words. */
  lemma {:induction false} SortingBlocks(was: seq<Word>, blocks: Buffer, now: seq<Word>, sorted: Buffer)
    requires Holds(was, blocks) && Holds(now, sorted) && |sorted| == |blocks|
    requires forall j | 0 <= j < |blocks| :: sorted[j] == Sort(blocks[j])
    ensures SortedBlocks(now, BLOCK_WORDS) && multiset(now) == multiset(was) && |now| == |was|
    decreases |blocks|
  {
    if blocks == [] {
      assert now == [] && was == [];
    } else {
      HoldsTail(was, blocks);
      HoldsTail(now, sorted);
      SortIsSortedPermutation(blocks[0]);
      SortingBlocks(was[BLOCK_WORDS..], blocks[1..], now[BLOCK_WORDS..], sorted[1..]);
      assert was == was[..BLOCK_WORDS] + was[BLOCK_WORDS..];
      assert now == now[..BLOCK_WORDS] + now[BLOCK_WORDS..];
    }
  }

  /** A slice that lies inside another slice. */
  lemma SliceOfSlice(s: seq<Word>, lo: nat, hi: nat, a: nat, b: nat)
    requires lo <= a <= b <= hi <= |s|
    ensures s[lo..hi][a - lo..b - lo] == s[a..b]
  {
    var t := s[lo..hi];
    assert forall i | 0 <= i < b - a :: t[a - lo..b - lo][i] == t[a - lo + i] == s[a + i] == s[a..b][i];
  }

  /** Replacing one block of the buffer. */
  lemma HoldsUpdate(words: seq<Word>, blocks: Buffer, n: nat, words': seq<Word>, block: seq<Word>)
    requires Holds(words, blocks) && n < |blocks| && |words'| == |words|
    requires var at := BLOCK_WORDS * n;
             words'[..at] == words[..at] && words'[at..at + BLOCK_WORDS] == block && words'[at + BLOCK_WORDS..] == words[at + BLOCK_WORDS..]
    ensures Holds(words', blocks[n := block])
  {
    var bs, at := blocks[n := block], BLOCK_WORDS * n;
    forall j | 0 <= j < |bs| ensures words'[BLOCK_WORDS * j..BLOCK_WORDS * j + BLOCK_WORDS] == bs[j] {
      var k := BLOCK_WORDS * j;
      assert words[k..k + BLOCK_WORDS] == blocks[j];
      if j < n {
        SliceOfSlice(words, 0, at, k, k + BLOCK_WORDS);
        SliceOfSlice(words', 0, at, k, k + BLOCK_WORDS);
      } else if j > n {
        SliceOfSlice(words, at + BLOCK_WORDS, |words|, k, k + BLOCK_WORDS);
        SliceOfSlice(words', at + BLOCK_WORDS, |words|, k, k + BLOCK_WORDS);
      }
    }
  }

  /** The data buffer at the start, by address. */
  function Generated(c: Config): map<nat, seq<Word>> {
    map a: nat | a < c.Addr(|c.blocks|) && c.BlockAt(a) < |c.blocks| && a == c.Addr(c.BlockAt(a)) :: c.blocks[c.BlockAt(a)]
  }

  lemma GeneratedBlocks(c: Config, j: nat)
    requires c.Valid() && j < |c.blocks|
    ensures c.Addr(j) in Generated(c) && Generated(c)[c.Addr(j)] == c.blocks[j]
  {
    AddrFacts(c, j);
  }

  /** The state in which main creates the threads, with the data that it generates next. */
  method Start(c: Config) returns (s: State)
    requires c.Valid()
    ensures PoolInit(c, s)
  {
    hide Generated;
    forall j: nat | j < |c.blocks| ensures c.Addr(j) in Generated(c) && Generated(c)[c.Addr(j)] == c.blocks[j] {
      GeneratedBlocks(c, j);
    }
    var b := |c.blocks|;
    var mb := Mbox(b, seq(b, _ => 0), 0, 0, 0, b, None, None, [], []);
    var ops := seq(c.workers + 1, _ => Idle);
    s := State(mb, ops, mb, ops, Creating(0), seq(c.workers, _ => Top), Generated(c), seq(b, _ => Queued), None);
  }

  ghost predicate InDomain(c: Config, s: State) {
    forall j: nat | j < |c.blocks| :: c.Addr(j) in s.data
  }

  lemma BlocksInDomain(c: Config, s: State)
    requires PoolInv(c, s)
    ensures InDomain(c, s)
    ensures forall j: nat | j < |c.blocks| :: |s.data[c.Addr(j)]| == BLOCK_WORDS
  {
    hide MB.Inv, Pills, Acknowledged, Handed, Histories;
    forall j: nat | j < |c.blocks|
      ensures c.Addr(j) in s.data && |s.data[c.Addr(j)]| == BLOCK_WORDS
    {
      assert Contents(c, s, j);
      SortIsSortedPermutation(c.blocks[j]);
    }
  }

  /** A step that is not a sort leaves the buffer alone. */
  lemma OtherStepsKeepData(c: Config, s: State, t: nat)
    requires Shape(c, s) && PoolSafe(c, s, t) && PoolEnabled(c, s, t)
    requires t < c.workers ==> !s.workers[t].Sorting?
    ensures PoolStep(c, s, t).data == s.data
    ensures t < c.workers || !s.main.Merging? ==> (HasMerged(PoolStep(c, s, t)) <==> HasMerged(s))
  {
  }

  /** main has merged. */
  predicate HasMerged(s: State) {
    s.main.Killing? || s.main.Joining? || s.main.Finished?
  }

  lemma SortStepData(c: Config, s: State, w: nat)
    requires PoolInv(c, s) && PoolSafe(c, s, w) && w < c.workers && s.workers[w].Sorting?
    ensures InDomain(c, s) && InDomain(c, PoolStep(c, s, w))
    ensures var m := s.workers[w].addr;
            var n := c.BlockAt(m);
            && n < |c.blocks| && m == c.Addr(n) && (m - c.base) / 4 == BLOCK_WORDS * n
            && Current(c, PoolStep(c, s, w)) == Current(c, s)[n := Sort(s.data[m])]
            && !HasMerged(s) && !HasMerged(PoolStep(c, s, w))
  {
    hide MB.Inv, Pills, Acknowledged, Handed, Histories;
    BlocksInDomain(c, s);
    var m := s.workers[w].addr;
    var n := c.BlockAt(m);
    assert HoldsOwn(c, s, w);
    if HasMerged(s) {
      AllSortedWhenCollected(c, s);
    }
    forall j: nat | j < |c.blocks| && j != n ensures c.Addr(j) != m {
    }
    assert Current(c, PoolStep(c, s, w)) == Current(c, s)[n := Sort(s.data[m])];
  }

  /** Worker w calls bubblesort(addr, N) on its block of the buffer. */
  method SortBlock(c: Config, ghost s: State, w: nat, addr: Word, data: array<Word>)
    requires PoolInv(c, s) && PoolSafe(c, s, w) && w < c.workers && s.workers[w] == Sorting(addr)
    requires InDomain(c, s) && Holds(data[..], Current(c, s))
    modifies data
    ensures InDomain(c, PoolStep(c, s, w)) && Holds(data[..], Current(c, PoolStep(c, s, w)))
  {
    hide PoolInv, PoolStep;
    SortStepData(c, s, w);
    ghost var n, was := c.BlockAt(addr), data[..];
    ghost var at := BLOCK_WORDS * n;
    assert was[at..at + BLOCK_WORDS] == Current(c, s)[n] == s.data[addr];
    BubbleSort.BubbleSort(data, (addr - c.base) / 4, BLOCK_WORDS);
    HoldsUpdate(was, Current(c, s), n, data[..], Sort(s.data[addr]));
  }

  /** An even number of passes leaves the result where it was. */
  ghost predicate EndsInData(c: Config)
    requires MergeFits(c)
  {
    Passes(BLOCK_WORDS * |c.blocks|, BLOCK_WORDS) % 2 == 0
  }

  /** What holds of the buffers between any two steps of the program. */
  ghost predicate Buffers(c: Config, s: State, data: array<Word>, temp: array<Word>, out: array<Word>, was: seq<Word>)
    requires MergeFits(c)
    reads data, temp
  {
    && InDomain(c, s)
    && (!HasMerged(s) ==> Holds(data[..], Current(c, s)))
    && (HasMerged(s) ==> out == (if EndsInData(c) then data else temp)
                         && (if EndsInData(c) then data[..] else temp[..]) == Sort(was))
  }

  /** main calls recursive_merge(data, temp, N * buffer_size, N). */
  method MergeBlocks(c: Config, ghost s: State, data: array<Word>, temp: array<Word>, ghost was: seq<Word>)
    returns (out: array<Word>)
    requires PoolInv(c, s) && s.main.Merging? && InDomain(c, s) && MergeFits(c)
    requires data != temp && data.Length == temp.Length == |was|
    requires Holds(was, c.blocks) && Holds(data[..], Current(c, s))
    modifies data, temp
    ensures out == (if EndsInData(c) then data else temp)
    ensures (if EndsInData(c) then data[..] else temp[..]) == Sort(was)
  {
    hide PoolInv, Current, MergesInBounds, Passes, MergeAll, Sort;
    assert data.Length == BLOCK_WORDS * |c.blocks|;
    assert data[..data.Length] == data[..];
    BufferIsSorted(c, s, was, data[..]);
    WholeBuffer(|c.blocks|);
    if data.Length > 0 {
      MergeAllSortsBlocks(data[..], BLOCK_WORDS);
    } else {
      SortIsSortedPermutation(was);
    }
    out := RecursiveMerge(data, temp, data.Length, BLOCK_WORDS);
    assert out[..data.Length] == out[..];
  }

  lemma WholeBuffer(n: nat)
    ensures WholeBlocks(BLOCK_WORDS * n, BLOCK_WORDS)
  {
    PassInBoundsIffEven(BLOCK_WORDS, n);
  }

  lemma MergeStep(c: Config, s: State)
    requires Shape(c, s) && PoolSafe(c, s, c.workers) && PoolEnabled(c, s, c.workers) && s.main.Merging?
    ensures HasMerged(PoolStep(c, s, c.workers)) && PoolStep(c, s, c.workers).data == s.data
  {
  }

  /** Thread t executes its next statement, including what it does to the buffers. */
  method Turn(c: Config, s: State, t: nat, data: array<Word>, temp: array<Word>, out: array<Word>, ghost was: seq<Word>)
    returns (s': State, out': array<Word>)
    requires PoolInv(c, s) && Shape(c, s) && PoolEnabled(c, s, t) && t <= c.workers && PoolSafe(c, s, t)
    requires MergeFits(c) && Holds(was, c.blocks)
    requires data != temp && data.Length == temp.Length == |was| && Buffers(c, s, data, temp, out, was)
    modifies data, temp
    ensures s' == PoolStep(c, s, t) && Buffers(c, s', data, temp, out', was)
  {
    hide PoolInv, PoolEnabled, PoolSafe, PoolStep, Holds, Sort, MergeFits, EndsInData;
    s', out' := PoolStep(c, s, t), out;
    if t < c.workers && s.workers[t].Sorting? {
      SortStepData(c, s, t);
      SortBlock(c, s, t, s.workers[t].addr, data);
    } else if t == c.workers && s.main.Merging? {
      MergeStep(c, s);
      out' := MergeBlocks(c, s, data, temp, was);
    } else {
      OtherStepsKeepData(c, s, t);
      assert Current(c, s') == Current(c, s);
    }
  }

  /** The whole program. `t :|` picks any thread that can run, so the loop stands for every interleaving;
      it ends after finitely many steps, and whatever buffer main gets back from the merge holds the
      sorted permutation of the words that were in `data` at the start. The condition is the exact one of
      lemma ShutdownIff. */
  method Run(c: Config, data: array<Word>, temp: array<Word>) returns (out: array<Word>)
    requires c.Valid() && CanFinish(c)
    requires data != temp && data.Length == temp.Length && Holds(data[..], c.blocks)
    modifies data, temp
    ensures MergeFits(c) && out == if EndsInData(c) then data else temp
    ensures out[..] == Sort(old(data[..]))
    ensures Sorted(out[..]) && multiset(out[..]) == multiset(old(data[..]))
  {
    hide MergeFits, EndsInData;
    CanFinishParts(c);
    ghost var was := data[..];
    var s := Start(c);
    PoolInitEstablishesInv(c, s);
    BlocksInDomain(c, s);
    assert Current(c, s) == c.blocks;
    out := data;
    while exists t :: 0 <= t <= c.workers && PoolEnabled(c, s, t)
      invariant PoolInv(c, s) && Shape(c, s)
      invariant Buffers(c, s, data, temp, out, was)
      decreases Rank(c, s)
    {
      hide PoolInv, Buffers;
      var t :| 0 <= t <= c.workers && PoolEnabled(c, s, t);
      PoolInvIsSafe(c, s, t);
      StepKeepsPoolInv(c, s, t);
      StepLowersRank(c, s, t);
      InvHasShape(c, PoolStep(c, s, t));
      s, out := Turn(c, s, t, data, temp, out, was);
    }
    OnlyFinishedIsStuck(c, s);
    SortIsSortedPermutation(was);
  }

  lemma InvHasShape(c: Config, s: State)
    requires PoolInv(c, s)
    ensures Shape(c, s)
  {
  }

  /** What main passes to recursive_merge: a row of sorted blocks with the original words. */
  lemma BufferIsSorted(c: Config, s: State, was: seq<Word>, now: seq<Word>)
    requires PoolInv(c, s) && s.main.Merging? && InDomain(c, s)
    requires Holds(was, c.blocks) && Holds(now, Current(c, s))
    ensures SortedBlocks(now, BLOCK_WORDS) && |now| == |was| && multiset(now) == multiset(was)
    ensures Sort(now) == Sort(was)
  {
    hide MB.Inv, Pills, Acknowledged, Handed, Histories;
    AllSortedWhenCollected(c, s);
    SortingBlocks(was, c.blocks, now, Current(c, s));
    SortIsSortedPermutation(now);
    SortedPermutationIsSort(Sort(now), was);
  }
}
