/** Decoding the integer master solution into the list of rolls: each pattern
    expands into the widths it cuts, sorted, and is emitted once per unit of its
    variable's rounded value; the whole list is then sorted. */
module Rolls {
  import opened Orders
  import opened Sorting

  /** One physical roll: the widths cut from it. */
  type Roll = seq<int>

  /** c copies of v. */
  function Repeat<T>(v: T, c: nat): (r: seq<T>)
    ensures |r| == c
    ensures forall j :: 0 <= j < c ==> r[j] == v
  {
    if c == 0 then [] else [v] + Repeat(v, c - 1)
  }

  /** The widths one pattern cuts, in item order: width i taken p[i] times, for the
      items whose count is positive. */
  function Expand(widths: seq<int>, p: Pattern): (r: seq<int>)
    requires |p| == |widths|
    ensures |r| == Total(p)
  {
    if |p| == 0 then []
    else (if p[0] > 0 then Repeat(widths[0], p[0]) else []) + Expand(widths[1..], p[1..])
  }

  /** The roll a pattern decodes to: its expansion, sorted ascending, so it
      holds Total(p) pieces, the same ones the expansion holds. */
  function RollOf(widths: seq<int>, p: Pattern): (r: Roll)
    requires |p| == |widths|
    ensures Sorted(r) && multiset(r) == multiset(Expand(widths, p))
    ensures |r| == Total(p)
  {
    SortWidths(Expand(widths, p))
  }

  /** vs[0] x[0] times, then vs[1] x[1] times, and so on. */
  function Replicate<T>(vs: seq<T>, x: seq<nat>): seq<T>
    requires |vs| == |x|
  {
    if vs == [] then [] else Repeat(vs[0], x[0]) + Replicate(vs[1..], x[1..])
  }

  /** The roll of every pattern of the pool, in pool order. */
  function RollsOf(widths: seq<int>, pool: seq<Pattern>): (rs: seq<Roll>)
    requires Shaped(|widths|, pool)
    ensures |rs| == |pool|
  {
    seq(|pool|, k requires 0 <= k < |pool| => RollOf(widths, pool[k]))
  }

  /** The rolls in the order the nested loops append them, before the final sort:
      pattern 0's roll x[0] times, then pattern 1's roll x[1] times, and so on. */
  function Unsorted(widths: seq<int>, pool: seq<Pattern>, x: seq<nat>): seq<Roll>
    requires |x| == |pool| && Shaped(|widths|, pool)
  {
    Replicate(RollsOf(widths, pool), x)
  }

  /** The decoding loops: for every pattern k, in pool order, append x[k] copies of
      its sorted roll; then sort the list of rolls in place. */
  method DecodeRolls(widths: seq<int>, pool: seq<Pattern>, x: seq<nat>) returns (rolls: seq<Roll>)
    requires |x| == |pool| && Shaped(|widths|, pool)
    ensures LexSorted(rolls)
    ensures multiset(rolls) == multiset(Unsorted(widths, pool, x))
  {
    var built := CollectRolls(widths, pool, x);
    var a := new Roll[|built|](t requires 0 <= t < |built| => built[t]);
    assert a[..] == built;
    SortRolls(a);
    rolls := a[..];
  }

  /** The two nested loops before the sort: the rolls in the order they are appended. */
  method CollectRolls(widths: seq<int>, pool: seq<Pattern>, x: seq<nat>) returns (built: seq<Roll>)
    requires |x| == |pool| && Shaped(|widths|, pool)
    ensures built == Unsorted(widths, pool, x)
  {
    built := [];
    ghost var all := RollsOf(widths, pool);
    for k := 0 to |pool|
      invariant built == Replicate(all[..k], x[..k])
    {
      built := AppendCopies(built, RollOf(widths, pool[k]), x[k]);
      ReplicateSnoc(all, x, k);
    }
    assert all[..|pool|] == all && x[..|x|] == x;
  }

  /** The inner loop: append c copies of one roll. */
  method AppendCopies(built: seq<Roll>, r: Roll, c: nat) returns (out: seq<Roll>)
    ensures out == built + Repeat(r, c)
  {
    out := built;
    for j := 0 to c
      invariant |out| == |built| + j
      invariant out[..|built|] == built
      invariant forall t :: |built| <= t < |out| ==> out[t] == r
    {
      out := out + [r];
    }
  }

  /** Extending the replicated prefix by one entry appends that entry's copies. */
  lemma {:induction false} ReplicateSnoc<T>(vs: seq<T>, x: seq<nat>, k: nat)
    requires |vs| == |x| && k < |vs|
    ensures Replicate(vs[..k + 1], x[..k + 1]) == Replicate(vs[..k], x[..k]) + Repeat(vs[k], x[k])
  {
    if k == 0 {
      assert vs[..1][1..] == [] && x[..1][1..] == [];
      assert Replicate(vs[..1], x[..1]) == Repeat(vs[0], x[0]) + [];
    } else {
      ReplicateSnoc(vs[1..], x[1..], k - 1);
      assert vs[..k + 1][1..] == vs[1..][..k] && x[..k + 1][1..] == x[1..][..k];
      assert vs[..k][1..] == vs[1..][..k - 1] && x[..k][1..] == x[1..][..k - 1];
    }
  }

  lemma {:induction false} RepeatMultiset<T>(v: T, c: nat)
    ensures multiset(Repeat(v, c)) == multiset{}[v := c]
  {
    if c > 0 {
      RepeatMultiset(v, c - 1);
    }
  }

  lemma {:induction false} RepeatSum(w: int, c: nat)
    ensures Total(Repeat(w, c)) == c * w
  {
    if c > 0 {
      RepeatSum(w, c - 1);
      assert Repeat(w, c)[1..] == Repeat(w, c - 1);
    }
  }

  lemma {:induction false} TotalAppend(s: seq<int>, t: seq<int>)
    ensures Total(s + t) == Total(s) + Total(t)
  {
    if s != [] {
      TotalAppend(s[1..], t);
      assert (s + t)[0] == s[0] && (s + t)[1..] == s[1..] + t;
    } else {
      assert s + t == t;
    }
  }

  /** The pieces of a pattern add up to its weighted width. */
  lemma {:induction false} ExpandSum(widths: seq<int>, p: Pattern)
    requires |p| == |widths|
    ensures Total(Expand(widths, p)) == WeightedWidth(widths, p)
  {
    if |p| > 0 {
      ExpandSum(widths[1..], p[1..]);
      RepeatSum(widths[0], p[0]);
      TotalAppend(if p[0] > 0 then Repeat(widths[0], p[0]) else [], Expand(widths[1..], p[1..]));
    }
  }

  /** Every piece of a pattern is the width of an item the pattern cuts. */
  lemma {:induction false} ExpandMembers(widths: seq<int>, p: Pattern, w: int)
    requires |p| == |widths|
    requires w in Expand(widths, p)
    ensures exists i :: 0 <= i < |p| && widths[i] == w && p[i] > 0
  {
    var head := if p[0] > 0 then Repeat(widths[0], p[0]) else [];
    if w in head {
      assert widths[0] == w && p[0] > 0;
    } else {
      assert w in Expand(widths[1..], p[1..]);
      ExpandMembers(widths[1..], p[1..], w);
      var i :| 0 <= i < |p| - 1 && widths[1..][i] == w && p[1..][i] > 0;
      assert widths[i + 1] == w && p[i + 1] > 0;
    }
  }

  /** With distinct widths, width i occurs exactly p[i] times among the pieces. */
  lemma {:induction false} ExpandCount(widths: seq<int>, p: Pattern, i: nat)
    requires |p| == |widths| && i < |p|
    requires forall a, b :: 0 <= a < b < |widths| ==> widths[a] != widths[b]
    ensures multiset(Expand(widths, p))[widths[i]] == p[i]
  {
    var head := if p[0] > 0 then Repeat(widths[0], p[0]) else [];
    var tail := Expand(widths[1..], p[1..]);
    RepeatMultiset(widths[0], p[0]);
    assert multiset(Expand(widths, p)) == multiset(head) + multiset(tail);
    if i == 0 {
      if widths[0] in tail {
        ExpandMembers(widths[1..], p[1..], widths[0]);
        assert false;
      }
      assert multiset(tail)[widths[0]] == 0;
    } else {
      ExpandCount(widths[1..], p[1..], i - 1);
      assert multiset(head)[widths[i]] == 0;
    }
  }

  lemma {:induction false} InsertSum(v: int, s: seq<int>)
    requires Sorted(s)
    ensures Total(Insert(v, s)) == v + Total(s)
  {
    if s != [] && v > s[0] {
      InsertSum(v, s[1..]);
    }
  }

  /** Sorting does not change the total width. */
  lemma {:induction false} SortWidthsSum(s: seq<int>)
    ensures Total(SortWidths(s)) == Total(s)
  {
    if s != [] {
      SortWidthsSum(s[1..]);
      InsertSum(s[0], SortWidths(s[1..]));
    }
  }

  /** The decoded roll of a pattern: sorted, Total(p) pieces long, width i taken
      exactly p[i] times, and as wide as the pattern's weighted width. */
  lemma RollOfPattern(widths: seq<int>, p: Pattern)
    requires |p| == |widths|
    requires forall a, b :: 0 <= a < b < |widths| ==> widths[a] != widths[b]
    ensures Sorted(RollOf(widths, p))
    ensures |RollOf(widths, p)| == Total(p)
    ensures forall i :: 0 <= i < |p| ==> multiset(RollOf(widths, p))[widths[i]] == p[i]
    ensures Total(RollOf(widths, p)) == WeightedWidth(widths, p)
  {
    SizeOfMultiset(Expand(widths, p));
    SizeOfMultiset(RollOf(widths, p));
    forall i | 0 <= i < |p|
      ensures multiset(RollOf(widths, p))[widths[i]] == p[i]
    {
      ExpandCount(widths, p, i);
    }
    ExpandSum(widths, p);
    SortWidthsSum(Expand(widths, p));
  }

  /** The number of replicated entries is the sum of the multiplicities. */
  lemma {:induction false} ReplicateLength<T>(vs: seq<T>, x: seq<nat>)
    requires |vs| == |x|
    ensures |Replicate(vs, x)| == Total(x)
  {
    if vs != [] {
      ReplicateLength(vs[1..], x[1..]);
    }
  }

  /** Every replicated entry is an entry whose multiplicity is positive. */
  lemma {:induction false} ReplicateMembers<T>(vs: seq<T>, x: seq<nat>, r: T)
    requires |vs| == |x|
    requires r in Replicate(vs, x)
    ensures exists k :: 0 <= k < |vs| && x[k] > 0 && r == vs[k]
  {
    if r in Repeat(vs[0], x[0]) {
      assert x[0] > 0 && r == vs[0];
    } else {
      ReplicateMembers(vs[1..], x[1..], r);
      var k :| 0 <= k < |vs| - 1 && x[1..][k] > 0 && r == vs[1..][k];
      assert x[k + 1] > 0 && r == vs[k + 1];
    }
  }

  /** What the caller sees of the decoded list: as many rolls as the rounded
      values add up to, each sorted internally, and each within the capacity when
      every pattern of the pool fits the bin. */
  lemma DecodedRolls(widths: seq<int>, capacity: nat, pool: seq<Pattern>, x: seq<nat>, rolls: seq<Roll>)
    requires |x| == |pool| && Shaped(|widths|, pool)
    requires multiset(rolls) == multiset(Unsorted(widths, pool, x))
    ensures |rolls| == Total(x)
    ensures forall r :: r in rolls ==> Sorted(r)
    ensures (forall k :: 0 <= k < |pool| ==> Fits(widths, capacity, pool[k])) ==>
              forall r :: r in rolls ==> Total(r) <= capacity
  {
    var all := RollsOf(widths, pool);
    SizeOfMultiset(rolls);
    SizeOfMultiset(Unsorted(widths, pool, x));
    ReplicateLength(all, x);
    forall r | r in rolls
      ensures exists k :: 0 <= k < |pool| && x[k] > 0 && r == RollOf(widths, pool[k])
    {
      assert r in multiset(Unsorted(widths, pool, x));
      ReplicateMembers(all, x, r);
    }
    if forall k :: 0 <= k < |pool| ==> Fits(widths, capacity, pool[k]) {
      forall r | r in rolls
        ensures Total(r) <= capacity
      {
        var k :| 0 <= k < |pool| && x[k] > 0 && r == RollOf(widths, pool[k]);
        ExpandSum(widths, pool[k]);
        SortWidthsSum(Expand(widths, pool[k]));
      }
    }
  }
}
