/** The order book and the cutting patterns of the cutting-stock solver, and the
    seed patterns that start the pattern pool. */
module Orders {

  /** A cutting pattern: p[i] pieces of item i are cut from one roll. Every pattern
      is indexed like the order book, so index i always names the same item. */
  type Pattern = seq<nat>

  /** All widths are positive (the seeding divides by them). */
  predicate PositiveWidths(widths: seq<int>)
  {
    forall i :: 0 <= i < |widths| ==> widths[i] > 0
  }

  /** The order book: widths[i] and quantities[i] are the key and the value of the
      i-th entry of the width-to-quantity dictionary, in insertion order. Widths are
      dictionary keys, hence pairwise distinct. */
  predicate ValidBook(widths: seq<int>, quantities: seq<nat>)
  {
    |widths| == |quantities|
    && PositiveWidths(widths)
    && (forall i, j :: 0 <= i < j < |widths| ==> widths[i] != widths[j])
  }

  /** Every pattern of the pool has one count per item. */
  predicate Shaped(n: nat, pool: seq<Pattern>)
  {
    forall k :: 0 <= k < |pool| ==> |pool[k]| == n
  }

  /** The width a pattern uses up: the sum over the items of count times width. */
  function WeightedWidth(widths: seq<int>, p: Pattern): int
    requires |p| == |widths|
  {
    if |p| == 0 then 0 else p[0] * widths[0] + WeightedWidth(widths[1..], p[1..])
  }

  /** A pattern fits the bin when its weighted width is at most the capacity. */
  predicate Fits(widths: seq<int>, capacity: nat, p: Pattern)
  {
    |p| == |widths| && WeightedWidth(widths, p) <= capacity
  }

  /** Every item with a positive quantity is no wider than the bin, so its seed
      cuts it at least once. */
  predicate Servable(widths: seq<int>, quantities: seq<nat>, capacity: nat)
    requires |widths| == |quantities|
  {
    forall i :: 0 <= i < |widths| && quantities[i] > 0 ==> widths[i] <= capacity
  }

  /** The sum of a sequence: the pieces a pattern cuts, the rolls a solution
      takes, or the total width of a roll. */
  function Total(s: seq<int>): int
  {
    if s == [] then 0 else s[0] + Total(s[1..])
  }

  /** How many pieces of one width a roll holds, `int(bin_capacity / unique_width)`:
      the largest count whose total width is still within the capacity. */
  function SeedCount(capacity: nat, width: int): (c: nat)
    requires width > 0
    ensures c * width <= capacity < (c + 1) * width
  {
    capacity / width
  }

  /** The seed pool: pattern p holds SeedCount copies of item p and nothing else. */
  function Seeds(widths: seq<int>, capacity: nat): (pool: seq<Pattern>)
    requires PositiveWidths(widths)
    ensures |pool| == |widths| && Shaped(|widths|, pool)
    ensures forall p :: 0 <= p < |pool| ==> pool[p][p] == SeedCount(capacity, widths[p])
    ensures forall p, i :: 0 <= p < |pool| && 0 <= i < |widths| && i != p ==> pool[p][i] == 0
  {
    seq(|widths|, p requires 0 <= p < |widths| =>
      seq(|widths|, i => if i == p then SeedCount(capacity, widths[p]) else 0))
  }

  /** The seeding loop: one pattern per item, built as a zero list whose own
      position is then overwritten with the item's seed count. */
  method SeedPatterns(widths: seq<int>, capacity: nat) returns (pool: seq<Pattern>)
    requires PositiveWidths(widths)
    ensures |pool| == |widths| && Shaped(|widths|, pool)
    ensures forall p :: 0 <= p < |pool| ==> pool[p][p] == capacity / widths[p]
    ensures forall p, i :: 0 <= p < |pool| && 0 <= i < |widths| && i != p ==> pool[p][i] == 0
    ensures pool == Seeds(widths, capacity)
  {
    var n := |widths|;
    pool := [];
    for position := 0 to n
      invariant |pool| == position && Shaped(n, pool)
      invariant forall p :: 0 <= p < position ==> pool[p] == Seeds(widths, capacity)[p]
    {
      var pattern: Pattern := seq(n, _ => 0);
      pattern := pattern[position := SeedCount(capacity, widths[position])];
      pool := pool + [pattern];
    }
  }

  /** A pattern that is zero everywhere except at position p uses c * widths[p]. */
  lemma {:induction false} SingleItemWidth(widths: seq<int>, q: Pattern, p: int)
    requires |q| == |widths|
    requires forall i :: 0 <= i < |q| && i != p ==> q[i] == 0
    ensures WeightedWidth(widths, q) == if 0 <= p < |q| then q[p] * widths[p] else 0
  {
    if |q| > 0 {
      SingleItemWidth(widths[1..], q[1..], p - 1);
    }
  }

  /** Every seed pattern fits the bin, and adding one more piece of its item would not. */
  lemma SeedsFit(widths: seq<int>, capacity: nat, p: nat)
    requires PositiveWidths(widths) && p < |widths|
    ensures Fits(widths, capacity, Seeds(widths, capacity)[p])
    ensures WeightedWidth(widths, Seeds(widths, capacity)[p]) + widths[p] > capacity
  {
    var seed := Seeds(widths, capacity)[p];
    SingleItemWidth(widths, seed, p);
    assert WeightedWidth(widths, seed) == SeedCount(capacity, widths[p]) * widths[p];
  }

  /** A seed pattern cuts its item at least once exactly when the item is no wider
      than the bin; a wider item gets an all-zero seed. */
  lemma SeedCovers(widths: seq<int>, capacity: nat, p: nat)
    requires PositiveWidths(widths) && p < |widths|
    ensures Seeds(widths, capacity)[p][p] > 0 <==> widths[p] <= capacity
  {
    var c := SeedCount(capacity, widths[p]);
    if widths[p] <= capacity {
      assert c * widths[p] <= capacity < (c + 1) * widths[p];
    }
  }
}
