/** The two sorts of the roll decoding: `sorted()` on the widths of one roll
    (a new list, so a function) and the in-place `sort()` of the list of rolls
    (an array method), the latter under the lexicographic order Python uses to
    compare lists. */
module Sorting {

  /** Ascending order of a list of widths. */
  predicate Sorted(s: seq<int>)
  {
    forall i, j :: 0 <= i < j < |s| ==> s[i] <= s[j]
  }

  /** Inserts x into a sorted list at its place. */
  function Insert(x: int, s: seq<int>): (r: seq<int>)
    requires Sorted(s)
    ensures Sorted(r)
    ensures multiset(r) == multiset(s) + multiset{x}
  {
    if s == [] || x <= s[0] then
      BelowSorted(x, s);
      ConsSorted(x, s);
      [x] + s
    else
      SplitHead(s);
      SortedTail(s);
      var rest := Insert(x, s[1..]);
      BelowSorted(s[0], s[1..]);
      ConsSorted(s[0], rest);
      [s[0]] + rest
  }

  /** A bound below the head of a sorted list bounds all of it. */
  lemma BelowSorted(x: int, s: seq<int>)
    requires Sorted(s) && (s == [] || x <= s[0])
    ensures forall y :: y in multiset(s) ==> x <= y
  {
    forall y | y in multiset(s)
      ensures x <= y
    {
      SortedHeadIsLeast(s, y);
    }
  }

  /** A head no larger than the elements of a sorted tail keeps it sorted. */
  lemma ConsSorted(h: int, t: seq<int>)
    requires Sorted(t) && forall y :: y in multiset(t) ==> h <= y
    ensures Sorted([h] + t)
  {
    forall i, j | 0 <= i < j < |t| + 1
      ensures ([h] + t)[i] <= ([h] + t)[j]
    {
      assert ([h] + t)[j] == t[j - 1];
      assert t[j - 1] in multiset(t);
    }
  }

  /** Python's `sorted()` on a list of widths: the ascending permutation. */
  function SortWidths(s: seq<int>): (r: seq<int>)
    ensures Sorted(r)
    ensures multiset(r) == multiset(s)
  {
    if s == [] then []
    else
      assert s == [s[0]] + s[1..];
      Insert(s[0], SortWidths(s[1..]))
  }

  /** A sorted permutation is unique: whatever sorting algorithm produced the
      list, the result is the same. */
  lemma {:induction false} SortedUnique(s: seq<int>, t: seq<int>)
    requires Sorted(s) && Sorted(t) && multiset(s) == multiset(t)
    ensures s == t
  {
    if s == [] || t == [] {
      SizeOfMultiset(s);
      SizeOfMultiset(t);
    } else {
      SortedHeadIsLeast(s, t[0]);
      SortedHeadIsLeast(t, s[0]);
      assert s[0] == t[0];
      SplitHead(s);
      SplitHead(t);
      SortedTail(s);
      SortedTail(t);
      SortedUnique(s[1..], t[1..]);
    }
  }

  /** The head of a sorted list is its least element. */
  lemma SortedHeadIsLeast(s: seq<int>, x: int)
    requires Sorted(s) && x in multiset(s)
    ensures s[0] <= x
  {
    var j :| 0 <= j < |s| && s[j] == x;
  }

  lemma SortedTail(s: seq<int>)
    requires Sorted(s) && s != []
    ensures Sorted(s[1..])
  {
    forall i, j | 0 <= i < j < |s| - 1
      ensures s[1..][i] <= s[1..][j]
    {
      assert s[1..][i] == s[i + 1] && s[1..][j] == s[j + 1];
    }
  }

  lemma SizeOfMultiset<T>(s: seq<T>)
    ensures |multiset(s)| == |s|
  {
  }

  /** A non-empty list is its head followed by its tail, as a multiset too. */
  lemma SplitHead<T>(s: seq<T>)
    requires s != []
    ensures s == [s[0]] + s[1..]
    ensures multiset(s) == multiset{s[0]} + multiset(s[1..])
    ensures multiset(s[1..]) == multiset(s) - multiset{s[0]}
  {
    assert s == [s[0]] + s[1..];
  }

  /** Sorting a roll a second time changes nothing. */
  lemma SortWidthsIdempotent(s: seq<int>)
    ensures SortWidths(SortWidths(s)) == SortWidths(s)
  {
    SortedUnique(SortWidths(SortWidths(s)), SortWidths(s));
  }

  /** Python's `<=` on lists of numbers: the first differing element decides,
      and a proper prefix comes first. */
  predicate LexLe(a: seq<int>, b: seq<int>)
  {
    if a == [] then true
    else if b == [] then false
    else if a[0] != b[0] then a[0] < b[0]
    else LexLe(a[1..], b[1..])
  }

  lemma {:induction false} LexReflexive(a: seq<int>)
    ensures LexLe(a, a)
  {
    if a != [] {
      LexReflexive(a[1..]);
    }
  }

  lemma {:induction false} LexTotal(a: seq<int>, b: seq<int>)
    ensures LexLe(a, b) || LexLe(b, a)
  {
    if a != [] && b != [] && a[0] == b[0] {
      LexTotal(a[1..], b[1..]);
    }
  }

  lemma {:induction false} LexTransitive(a: seq<int>, b: seq<int>, c: seq<int>)
    requires LexLe(a, b) && LexLe(b, c)
    ensures LexLe(a, c)
  {
    if a != [] && b != [] && c != [] && a[0] == b[0] == c[0] {
      LexTransitive(a[1..], b[1..], c[1..]);
    }
  }

  lemma {:induction false} LexAntisymmetric(a: seq<int>, b: seq<int>)
    requires LexLe(a, b) && LexLe(b, a)
    ensures a == b
  {
    if a != [] && b != [] {
      LexAntisymmetric(a[1..], b[1..]);
      assert a == [a[0]] + a[1..] && b == [b[0]] + b[1..];
    }
  }

  /** A list of rolls in ascending lexicographic order. */
  predicate LexSorted(rs: seq<seq<int>>)
  {
    forall i, j :: 0 <= i < j < |rs| ==> LexLe(rs[i], rs[j])
  }

  /** `rolls.sort()`: insertion sort in place, moving each roll left past the
      larger rolls before it. */
  method SortRolls(a: array<seq<int>>)
    modifies a
    ensures LexSorted(a[..])
    ensures multiset(a[..]) == old(multiset(a[..]))
  {
    for i := 0 to a.Length
      invariant forall p, q :: 0 <= p < q < i ==> LexLe(a[p], a[q])
      invariant multiset(a[..]) == old(multiset(a[..]))
    {
      SinkInto(a, i);
    }
  }

  /** One round of the insertion sort: a[i] moves left into the sorted a[..i]. */
  method SinkInto(a: array<seq<int>>, i: nat)
    requires i < a.Length
    requires forall p, q :: 0 <= p < q < i ==> LexLe(a[p], a[q])
    modifies a
    ensures forall p, q :: 0 <= p < q <= i ==> LexLe(a[p], a[q])
    ensures multiset(a[..]) == old(multiset(a[..]))
    ensures a[i + 1..] == old(a[i + 1..])
  {
    var j := i;
    while j > 0 && !LexLe(a[j - 1], a[j])
      invariant 0 <= j <= i
      invariant forall p, q :: 0 <= p < q <= i && p != j && q != j ==> LexLe(a[p], a[q])
      invariant forall q :: j < q <= i ==> LexLe(a[j], a[q])
      invariant multiset(a[..]) == old(multiset(a[..]))
      invariant a[i + 1..] == old(a[i + 1..])
    {
      LexTotal(a[j - 1], a[j]);
      Swap(a, j - 1, j);
      j := j - 1;
    }
    if j > 0 {
      forall p | 0 <= p < j - 1
        ensures LexLe(a[p], a[j])
      {
        LexTransitive(a[p], a[j - 1], a[j]);
      }
    }
  }

  /** Exchanges two entries of the array. */
  method Swap(a: array<seq<int>>, i: nat, j: nat)
    requires i < j < a.Length
    modifies a
    ensures a[..] == old(a[..])[i := old(a[j])][j := old(a[i])]
    ensures multiset(a[..]) == old(multiset(a[..]))
  {
    a[i], a[j] := a[j], a[i];
  }

  /** Two lexicographically sorted permutations of the same rolls are equal, so
      the sorted roll list does not depend on the sorting algorithm. */
  lemma {:induction false} LexSortedUnique(s: seq<seq<int>>, t: seq<seq<int>>)
    requires LexSorted(s) && LexSorted(t) && multiset(s) == multiset(t)
    ensures s == t
  {
    if s == [] || t == [] {
      SizeOfMultiset(s);
      SizeOfMultiset(t);
    } else {
      LexHeadIsLeast(s, t[0]);
      LexHeadIsLeast(t, s[0]);
      LexAntisymmetric(s[0], t[0]);
      assert s[0] == t[0];
      SplitHead(s);
      SplitHead(t);
      LexSortedTail(s);
      LexSortedTail(t);
      LexSortedUnique(s[1..], t[1..]);
    }
  }

  /** The head of a lexicographically sorted list is its least roll. */
  lemma LexHeadIsLeast(s: seq<seq<int>>, x: seq<int>)
    requires LexSorted(s) && x in multiset(s)
    ensures LexLe(s[0], x)
  {
    var j :| 0 <= j < |s| && s[j] == x;
    if j == 0 {
      LexReflexive(x);
    }
  }

  lemma LexSortedTail(s: seq<seq<int>>)
    requires LexSorted(s) && s != []
    ensures LexSorted(s[1..])
  {
    forall i, j | 0 <= i < j < |s| - 1
      ensures LexLe(s[1..][i], s[1..][j])
    {
      assert s[1..][i] == s[i + 1] && s[1..][j] == s[j + 1];
    }
  }
}
