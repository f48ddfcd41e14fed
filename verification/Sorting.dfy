// The meaning of "sorted" for the sort demo: one canonical function, characterised as
// the only sorted permutation of its input.
module Sorting {
  import opened Words

  ghost predicate Sorted(s: seq<Word>) {
    forall i, j | 0 <= i < j < |s| :: s[i] <= s[j]
  }

  /** x placed before the first element of s that is not smaller. */
  function Insert(x: Word, s: seq<Word>): seq<Word> {
    if s == [] || x <= s[0] then [x] + s else [s[0]] + Insert(x, s[1..])
  }

  function Sort(s: seq<Word>): seq<Word> {
    if s == [] then [] else Insert(s[0], Sort(s[1..]))
  }

  lemma {:induction false} InsertAdds(x: Word, s: seq<Word>)
    ensures multiset(Insert(x, s)) == multiset{x} + multiset(s)
  {
    if s != [] && x > s[0] {
      InsertAdds(x, s[1..]);
      assert s == [s[0]] + s[1..];
    }
  }

  lemma InsertMembers(x: Word, s: seq<Word>)
    ensures forall y | y in Insert(x, s) :: y == x || y in s
  {
    InsertAdds(x, s);
    forall y | y in Insert(x, s) ensures y == x || y in s {
      assert y in multiset(Insert(x, s));
      assert y in multiset{x} || y in multiset(s);
    }
  }

  lemma ConsSorted(h: Word, t: seq<Word>)
    requires Sorted(t) && forall y | y in t :: h <= y
    ensures Sorted([h] + t)
  {
    forall i, j | 0 <= i < j < |t| + 1 ensures ([h] + t)[i] <= ([h] + t)[j] {
      assert ([h] + t)[j] == t[j - 1] && t[j - 1] in t;
    }
  }

  lemma {:induction false} InsertSorts(x: Word, s: seq<Word>)
    requires Sorted(s)
    ensures Sorted(Insert(x, s))
  {
    if s == [] || x <= s[0] {
      ConsSorted(x, s);
    } else {
      var t := s[1..];
      InsertSorts(x, t);
      InsertMembers(x, t);
      ConsSorted(s[0], Insert(x, t));
    }
  }

  /** Sort yields a sorted permutation. */
  lemma {:induction false} SortIsSortedPermutation(s: seq<Word>)
    ensures Sorted(Sort(s))
    ensures multiset(Sort(s)) == multiset(s)
    ensures |Sort(s)| == |s|
  {
    if s != [] {
      SortIsSortedPermutation(s[1..]);
      InsertSorts(s[0], Sort(s[1..]));
      InsertAdds(s[0], Sort(s[1..]));
      assert s == [s[0]] + s[1..];
    }
    assert |multiset(Sort(s))| == |multiset(s)|;
  }

  /** Sorted sequences of the same words start with the same word. */
  lemma SameHead(s: seq<Word>, t: seq<Word>)
    requires Sorted(s) && Sorted(t) && multiset(s) == multiset(t) && s != [] && t != []
    ensures s[0] == t[0] && multiset(s[1..]) == multiset(t[1..])
  {
    assert s[0] in multiset(t) && t[0] in multiset(s);
    assert s[0] in t && t[0] in s;
    SplitHead(s);
    SplitHead(t);
  }

  lemma SplitHead(s: seq<Word>)
    requires s != []
    ensures multiset(s[1..]) == multiset(s) - multiset{s[0]}
  {
    assert s == [s[0]] + s[1..];
  }

  lemma SameLength(s: seq<Word>, t: seq<Word>)
    requires multiset(s) == multiset(t)
    ensures |s| == |t|
  {
    assert |s| == |multiset(s)| == |multiset(t)| == |t|;
  }

  lemma {:induction false} SortedPermutationIsUnique(s: seq<Word>, t: seq<Word>)
    requires Sorted(s) && Sorted(t) && multiset(s) == multiset(t)
    ensures s == t
  {
    SameLength(s, t);
    if s != [] {
      SameHead(s, t);
      SortedPermutationIsUnique(s[1..], t[1..]);
      assert s == [s[0]] + s[1..] && t == [t[0]] + t[1..];
    }
  }

  /** The characterisation used by every sorting step: s sorts w exactly when it is Sort(w). */
  lemma SortedPermutationIsSort(s: seq<Word>, w: seq<Word>)
    ensures Sorted(s) && multiset(s) == multiset(w) <==> s == Sort(w)
  {
    SortIsSortedPermutation(w);
    if Sorted(s) && multiset(s) == multiset(w) {
      SortedPermutationIsUnique(s, Sort(w));
    }
  }
}
