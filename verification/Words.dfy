// Types shared by all modules.
module Words {

  datatype Option<+T> = None | Some(value: T)

  /** The `uint32` of the sources: arithmetic on it wraps modulo 2^32. */
  type Word = x: int | 0 <= x < 0x1_0000_0000

  const UINT_MAX: Word := 0xFFFF_FFFF

  /** 2 to the power k. */
  function Pow2(k: nat): (r: nat)
    ensures r >= 1
  {
    if k == 0 then 1 else 2 * Pow2(k - 1)
  }

  ghost predicate IsPowerOfTwo(n: nat) { exists k: nat :: n == Pow2(k) }

  /** Number of true entries: used to count threads that are in a given situation. */
  function Count(bs: seq<bool>): (n: nat)
    ensures n <= |bs|
  {
    if bs == [] then 0 else (if bs[0] then 1 else 0) + Count(bs[1..])
  }

  /** Changing one entry changes the count by that entry alone. */
  lemma {:induction false} CountUpdate(bs: seq<bool>, i: nat, b: bool)
    requires i < |bs|
    ensures Count(bs[i := b]) == Count(bs) - (if bs[i] then 1 else 0) + (if b then 1 else 0)
  {
    if i == 0 {
      assert bs[i := b][1..] == bs[1..];
    } else {
      assert bs[i := b][1..] == bs[1..][i - 1 := b];
      CountUpdate(bs[1..], i - 1, b);
    }
  }

  lemma {:induction false} CountAll(bs: seq<bool>)
    ensures Count(bs) == |bs| <==> forall i | 0 <= i < |bs| :: bs[i]
  {
    if bs != [] {
      CountAll(bs[1..]);
      assert forall i | 0 < i < |bs| :: bs[i] == bs[1..][i - 1];
    }
  }

  lemma {:induction false} CountNone(bs: seq<bool>)
    ensures Count(bs) == 0 <==> forall i | 0 <= i < |bs| :: !bs[i]
  {
    if bs != [] {
      CountNone(bs[1..]);
      assert forall i | 0 < i < |bs| :: bs[i] == bs[1..][i - 1];
    }
  }

  /** Sum of a sequence of natural numbers: the joint termination measure of several threads. */
  function Sum(ns: seq<nat>): nat {
    if ns == [] then 0 else ns[0] + Sum(ns[1..])
  }

  lemma {:induction false} SumUpdate(ns: seq<nat>, i: nat, n: nat)
    requires i < |ns|
    ensures Sum(ns[i := n]) == Sum(ns) - ns[i] + n
  {
    if i == 0 {
      assert ns[i := n][1..] == ns[1..];
    } else {
      assert ns[i := n][1..] == ns[1..][i - 1 := n];
      SumUpdate(ns[1..], i - 1, n);
    }
  }

  /** A non-zero multiple of n is at least n away from zero. */
  lemma MultipleIsFar(n: nat, d: int)
    ensures d >= 1 ==> n * d >= n
    ensures d <= -1 ==> n * d + n <= 0
  {
    if d >= 1 {
      assert n * d == n + n * (d - 1);
    } else if d <= -1 {
      assert n * d == n * (d + 1) - n;
    }
  }

  /** Quotient and remainder are unique. */
  lemma ModUnique(a: int, n: nat, q: int, r: nat)
    requires a == n * q + r && r < n
    ensures a % n == r
    ensures a / n == q
  {
    var q' := a / n;
    var d: int := q - q';
    assert n * d == n * q - n * q';
    MultipleIsFar(n, d);
  }

  /** Positions less than one turn apart occupy different ring slots. */
  lemma ModDistinct(a: nat, b: nat, n: nat)
    requires a < b < a + n
    ensures a % n != b % n
  {
    var d: int := b / n - a / n;
    assert n * d == n * (b / n) - n * (a / n);
    MultipleIsFar(n, d);
  }

  /** Advancing a wrapped index is wrapping the advanced index. */
  lemma ModStep(a: nat, n: nat)
    requires n > 0
    ensures (a % n + 1) % n == (a + 1) % n
  {
    var q, r := a / n, a % n;
    if r + 1 < n {
      ModUnique(a + 1, n, q, r + 1);
    } else {
      assert n * (q + 1) == n * q + n;
      ModUnique(a + 1, n, q + 1, 0);
    }
  }
}
