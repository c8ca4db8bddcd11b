/** The master problem of the column generation and the loop that grows it.

    The solver's model is represented by what the cutting-stock code puts into it:
    one variable x[k] per pattern k (the pattern_choice dictionary) and one
    "at least quantity" constraint per item (the orders dictionary), each
    constraint holding its row of terms. Solving the relaxation and the knapsack
    pricing problem is an oracle: given the current pool, it yields the
    knapsack's optimal objective and its rounded assignment. */
module Master {
  import opened Orders

  /** The tolerance of the termination test. */
  const EPS: real := 0.000001

  /** A master variable x[name], with the objective coefficient and the
      integrality it is created with. */
  datatype Variable = Variable(name: nat, obj: int, integral: bool)

  /** One term coef * x of a constraint's left-hand side. */
  datatype Term = Term(coef: nat, x: Variable)

  /** Constraint Order[name]: the sum of the terms of lhs is at least rhs
      (the solver reads the sense ">" as greater-or-equal). */
  datatype Constraint = AtLeast(name: nat, lhs: seq<Term>, rhs: nat)

  /** One entry of a column: coefficient coef in the constraint of item row. */
  datatype ColumnTerm = ColumnTerm(coef: nat, row: nat)

  /** The outcome of one pricing round: the knapsack's optimal objective and its
      assignment, one (already rounded) count per item. */
  datatype Pricing = Pricing(objective: real, counts: Pattern)

  /** No pattern can improve the relaxation: the loop stops. */
  predicate Converged(r: Pricing)
  {
    r.objective < 1.0 + EPS
  }

  /** The variable of pattern k: cost 1 (one roll), integer, named x[k]. */
  function PatternVariable(k: nat): Variable
  {
    Variable(k, 1, true)
  }

  /** The pattern_choice dictionary for a pool of m patterns: key k holds x[k]. */
  function Variables(m: nat): (choice: map<nat, Variable>)
  {
    map k | 0 <= k < m :: PatternVariable(k)
  }

  /** The terms the columns of patterns lo..hi-1 contribute to the constraint of
      item i, in the order the columns were added. */
  function GeneratedTerms(pool: seq<Pattern>, n: nat, i: nat, lo: nat, hi: nat): seq<Term>
    requires i < n && lo <= hi <= |pool| && Shaped(n, pool)
    decreases hi
  {
    if hi == lo then []
    else GeneratedTerms(pool, n, i, lo, hi - 1)
         + (if pool[hi - 1][i] > 0 then [Term(pool[hi - 1][i], PatternVariable(hi - 1))] else [])
  }

  /** The row of the constraint of item i: the seed term it was created with,
      then one term per generated column. */
  function RowTerms(pool: seq<Pattern>, n: nat, i: nat): seq<Term>
    requires i < n <= |pool| && Shaped(n, pool)
  {
    [Term(pool[i][i], PatternVariable(i))] + GeneratedTerms(pool, n, i, n, |pool|)
  }

  /** The orders dictionary for a pool whose first n patterns are the seeds. */
  function Rows(pool: seq<Pattern>, n: nat, quantities: seq<nat>): map<nat, Constraint>
    requires n <= |pool| && Shaped(n, pool) && |quantities| == n
  {
    map i | 0 <= i < n :: AtLeast(i, RowTerms(pool, n, i), quantities[i])
  }

  /** The terms a column adds to the constraint of item i when it is attached to
      variable x: one per column entry of that row. */
  function ColumnEntries(col: seq<ColumnTerm>, i: nat, x: Variable): seq<Term>
  {
    if col == [] then []
    else (if col[0].row == i then [Term(col[0].coef, x)] else []) + ColumnEntries(col[1..], i, x)
  }

  /** Adding variable x with column col to the model: every constraint named in
      the column gains the column's term for x; nothing else changes. */
  function AttachColumn(orders: map<nat, Constraint>, col: seq<ColumnTerm>, x: Variable): (r: map<nat, Constraint>)
    ensures r.Keys == orders.Keys
    ensures forall i :: i in orders ==>
      r[i].name == orders[i].name && r[i].rhs == orders[i].rhs
      && |orders[i].lhs| <= |r[i].lhs| && r[i].lhs[..|orders[i].lhs|] == orders[i].lhs
  {
    map i | i in orders :: orders[i].(lhs := orders[i].lhs + ColumnEntries(col, i, x))
  }

  /** The loop that creates one variable per item. */
  method InitialVariables(n: nat) returns (choice: map<nat, Variable>)
    ensures forall k: nat :: k in choice <==> k < n
    ensures forall k :: k in choice ==> choice[k] == PatternVariable(k)
  {
    choice := map[];
    for i := 0 to n
      invariant forall k: nat :: k in choice <==> k < i
      invariant forall k :: k in choice ==> choice[k] == PatternVariable(k)
    {
      choice := choice[i := PatternVariable(i)];
    }
  }

  /** The loop that creates one "at least quantity" constraint per item: constraint
      i mentions only variable i, with the seed count pool[i][i] as coefficient. */
  method InitialConstraints(pool: seq<Pattern>, choice: map<nat, Variable>, quantities: seq<nat>)
    returns (orders: map<nat, Constraint>)
    requires |quantities| <= |pool| && Shaped(|quantities|, pool)
    requires forall i :: 0 <= i < |quantities| ==> i in choice
    ensures forall i: nat :: i in orders <==> i < |quantities|
    ensures forall i :: 0 <= i < |quantities| ==>
              orders[i] == AtLeast(i, [Term(pool[i][i], choice[i])], quantities[i])
  {
    orders := map[];
    for i := 0 to |quantities|
      invariant forall j: nat :: j in orders <==> j < i
      invariant forall j :: 0 <= j < i ==> orders[j] == AtLeast(j, [Term(pool[j][j], choice[j])], quantities[j])
    {
      var coef := pool[i][i];
      var decisionVar := choice[i];
      orders := orders[i := AtLeast(i, [Term(coef, decisionVar)], quantities[i])];
    }
  }

  /** The column of a new pattern: one entry per item with a positive count,
      that count as coefficient, in item order. */
  method SparseColumn(p: Pattern) returns (col: seq<ColumnTerm>)
    ensures forall j :: 0 <= j < |col| ==> col[j].row < |p| && col[j].coef == p[col[j].row] > 0
    ensures forall j, j' :: 0 <= j < j' < |col| ==> col[j].row < col[j'].row
    ensures forall i :: 0 <= i < |p| && p[i] > 0 ==> ColumnTerm(p[i], i) in col
  {
    col := [];
    for i := 0 to |p|
      invariant forall j :: 0 <= j < |col| ==> col[j].row < i && col[j].coef == p[col[j].row] > 0
      invariant forall j, j' :: 0 <= j < j' < |col| ==> col[j].row < col[j'].row
      invariant forall i' :: 0 <= i' < i && p[i'] > 0 ==> ColumnTerm(p[i'], i') in col
    {
      if p[i] > 0 {
        col := col + [ColumnTerm(p[i], i)];
      }
    }
  }

  /** A column with strictly increasing rows gives the constraint of item i the
      single term coef * x when it has an entry for i, and nothing otherwise. */
  lemma {:induction false} ColumnEntriesOfRow(col: seq<ColumnTerm>, i: nat, x: Variable, coef: nat)
    requires forall j, j' :: 0 <= j < j' < |col| ==> col[j].row < col[j'].row
    requires forall j :: 0 <= j < |col| && col[j].row == i ==> col[j].coef == coef
    ensures ColumnEntries(col, i, x) == if ColumnTerm(coef, i) in col then [Term(coef, x)] else []
  {
    if col != [] {
      ColumnEntriesOfRow(col[1..], i, x, coef);
      if col[0].row == i {
        assert ColumnTerm(coef, i) !in col[1..];
      } else {
        assert col == [col[0]] + col[1..];
      }
    }
  }

  /** Columns added later do not change the terms of earlier ones. */
  lemma {:induction false} GeneratedTermsPrefix(pool: seq<Pattern>, p: Pattern, n: nat, i: nat, lo: nat, hi: nat)
    requires i < n && lo <= hi <= |pool| && Shaped(n, pool) && |p| == n
    ensures GeneratedTerms(pool + [p], n, i, lo, hi) == GeneratedTerms(pool, n, i, lo, hi)
    decreases hi
  {
    if hi > lo {
      GeneratedTermsPrefix(pool, p, n, i, lo, hi - 1);
      assert (pool + [p])[hi - 1] == pool[hi - 1];
    }
  }

  /** The generated part of a row: it has a term for variable x[k] exactly when
      pattern k (lo <= k < hi) cuts item i, that term's coefficient is the count,
      and each variable occurs at most once, in order of creation. */
  lemma {:induction false} GeneratedTermsSupport(pool: seq<Pattern>, n: nat, i: nat, lo: nat, hi: nat)
    requires i < n && lo <= hi <= |pool| && Shaped(n, pool)
    ensures forall t :: t in GeneratedTerms(pool, n, i, lo, hi) ==>
              lo <= t.x.name < hi && t == Term(pool[t.x.name][i], PatternVariable(t.x.name)) && t.coef > 0
    ensures forall k :: lo <= k < hi && pool[k][i] > 0 ==>
              Term(pool[k][i], PatternVariable(k)) in GeneratedTerms(pool, n, i, lo, hi)
    ensures forall a, b :: 0 <= a < b < |GeneratedTerms(pool, n, i, lo, hi)| ==>
              GeneratedTerms(pool, n, i, lo, hi)[a].x.name < GeneratedTerms(pool, n, i, lo, hi)[b].x.name
    decreases hi
  {
    if hi > lo {
      GeneratedTermsSupport(pool, n, i, lo, hi - 1);
      var prev := GeneratedTerms(pool, n, i, lo, hi - 1);
      var last: seq<Term> := if pool[hi - 1][i] > 0 then [Term(pool[hi - 1][i], PatternVariable(hi - 1))] else [];
      assert GeneratedTerms(pool, n, i, lo, hi) == prev + last;
      forall a, b | 0 <= a < b < |prev + last|
        ensures (prev + last)[a].x.name < (prev + last)[b].x.name
      {
        if b >= |prev| {
          assert prev[a] in prev;
        }
      }
    }
  }

  /** Constraint i of the master mentions variable x[k] with coefficient c exactly
      when k is the item's seed pattern and c its seed count, or k is a generated
      pattern that cuts item i at least once and c is that count. */
  lemma RowMentions(pool: seq<Pattern>, n: nat, i: nat, k: nat, c: nat)
    requires i < n <= |pool| && Shaped(n, pool)
    ensures Term(c, PatternVariable(k)) in RowTerms(pool, n, i) <==>
              (k == i && c == pool[i][i]) || (n <= k < |pool| && pool[k][i] > 0 && c == pool[k][i])
  {
    GeneratedTermsSupport(pool, n, i, n, |pool|);
    var row := RowTerms(pool, n, i);
    if Term(c, PatternVariable(k)) in row && k != i {
      assert Term(c, PatternVariable(k)) in GeneratedTerms(pool, n, i, n, |pool|);
    }
  }

  /** The column-generation rounds, given a budget of at most fuel rounds: each
      round asks the oracle; on convergence the loop stops, otherwise the oracle's
      pattern is appended and the next round starts. Yields the final pool and
      whether the loop stopped by convergence. */
  function Run(price: seq<Pattern> -> Pricing, pool: seq<Pattern>, fuel: nat): (r: (seq<Pattern>, bool))
    ensures |pool| <= |r.0| <= |pool| + fuel
    ensures r.0[..|pool|] == pool
    ensures !r.1 ==> |r.0| == |pool| + fuel
    decreases fuel
  {
    if fuel == 0 then (pool, false)
    else if Converged(price(pool)) then (pool, true)
    else
      var next := pool + [price(pool).counts];
      var r := Run(price, next, fuel - 1);
      assert r.0[..|pool|] == r.0[..|next|][..|pool|];
      r
  }

  /** Every appended pattern is what the oracle returned for the pool before it,
      in a round that did not converge; and a loop that stopped by convergence saw
      the oracle converge on the final pool. */
  lemma {:induction false} RunRounds(price: seq<Pattern> -> Pricing, pool: seq<Pattern>, fuel: nat)
    ensures var (result, converged) := Run(price, pool, fuel);
      (forall k :: |pool| <= k < |result| ==>
         !Converged(price(result[..k])) && result[k] == price(result[..k]).counts)
      && (converged ==> Converged(price(result)))
    decreases fuel
  {
    if fuel > 0 && !Converged(price(pool)) {
      var next := pool + [price(pool).counts];
      RunRounds(price, next, fuel - 1);
      var result := Run(price, pool, fuel).0;
      assert result[..|pool|] == next[..|pool|] == pool;
      assert result[|pool|] == next[|pool|];
    }
  }

  /** The rounds keep the pool shaped when the oracle answers one count per item,
      and keep every pattern within the bin when the oracle's patterns fit. */
  lemma {:induction false} RunShape(price: seq<Pattern> -> Pricing, widths: seq<int>, capacity: nat,
                                    pool: seq<Pattern>, fuel: nat)
    requires forall q :: |price(q).counts| == |widths|
    requires Shaped(|widths|, pool)
    ensures Shaped(|widths|, Run(price, pool, fuel).0)
    ensures (forall q :: Fits(widths, capacity, price(q).counts)) &&
            (forall k :: 0 <= k < |pool| ==> Fits(widths, capacity, pool[k])) ==>
              forall k :: 0 <= k < |Run(price, pool, fuel).0| ==> Fits(widths, capacity, Run(price, pool, fuel).0[k])
    decreases fuel
  {
    if fuel > 0 && !Converged(price(pool)) {
      RunShape(price, widths, capacity, pool + [price(pool).counts], fuel - 1);
    }
  }

  /** A dictionary with keys 0..m-1, key k holding x[k], is Variables(m). */
  lemma VariablesOfKeys(choice: map<nat, Variable>, m: nat)
    requires forall k: nat :: k in choice <==> k < m
    requires forall k :: k in choice ==> choice[k] == PatternVariable(k)
    ensures choice == Variables(m)
  {
  }

  /** Registering the variable of pattern m extends Variables(m) to Variables(m + 1). */
  lemma VariablesGrow(m: nat)
    ensures Variables(m + 1) == Variables(m)[m := PatternVariable(m)]
  {
  }

  /** The constraints built from the seed pool are its rows. */
  lemma SeedRows(pool: seq<Pattern>, orders: map<nat, Constraint>, quantities: seq<nat>)
    requires |pool| == |quantities| && Shaped(|quantities|, pool)
    requires forall i: nat :: i in orders <==> i < |quantities|
    requires forall i :: 0 <= i < |quantities| ==>
               orders[i] == AtLeast(i, [Term(pool[i][i], PatternVariable(i))], quantities[i])
    ensures orders == Rows(pool, |quantities|, quantities)
  {
    var n := |quantities|;
    forall i | 0 <= i < n
      ensures orders[i] == Rows(pool, n, quantities)[i]
    {
      assert RowTerms(pool, n, i) == [Term(pool[i][i], PatternVariable(i))] + [];
    }
  }

  /** The row of item i over the pool extended by p is the old row followed by
      p's term for the new variable, present only when p cuts the item. */
  lemma RowTermsSnoc(pool: seq<Pattern>, p: Pattern, n: nat, i: nat)
    requires i < n <= |pool| && Shaped(n, pool) && |p| == n && Shaped(n, pool + [p])
    ensures RowTerms(pool + [p], n, i)
         == RowTerms(pool, n, i) + if p[i] > 0 then [Term(p[i], PatternVariable(|pool|))] else []
  {
    var ext := pool + [p];
    var added := if p[i] > 0 then [Term(p[i], PatternVariable(|pool|))] else [];
    assert ext[|pool|] == p;
    var before := GeneratedTerms(pool, n, i, n, |pool|);
    var after := GeneratedTerms(ext, n, i, n, |ext|);
    GeneratedTermsPrefix(pool, p, n, i, n, |pool|);
    assert after == before + added;
    var seed := Term(pool[i][i], PatternVariable(i));
    assert ext[i] == pool[i];
    assert RowTerms(ext, n, i) == [seed] + after;
    assert [seed] + (before + added) == ([seed] + before) + added;
  }

  /** Attaching the sparse column of a new pattern p to the row of item i gives
      the row of the pool extended by p. */
  lemma RowGrow(pool: seq<Pattern>, p: Pattern, n: nat, i: nat, col: seq<ColumnTerm>)
    requires i < n <= |pool| && Shaped(n, pool) && |p| == n && Shaped(n, pool + [p])
    requires forall j :: 0 <= j < |col| ==> col[j].row < |p| && col[j].coef == p[col[j].row] > 0
    requires forall j, j' :: 0 <= j < j' < |col| ==> col[j].row < col[j'].row
    requires forall i :: 0 <= i < |p| && p[i] > 0 ==> ColumnTerm(p[i], i) in col
    ensures RowTerms(pool + [p], n, i) == RowTerms(pool, n, i) + ColumnEntries(col, i, PatternVariable(|pool|))
    ensures ColumnEntries(col, i, PatternVariable(|pool|)) == if p[i] > 0 then [Term(p[i], PatternVariable(|pool|))] else []
  {
    ColumnEntriesOfRow(col, i, PatternVariable(|pool|), p[i]);
    RowTermsSnoc(pool, p, n, i);
  }

  /** Appending a pattern with one count per item keeps the pool shaped. */
  lemma ShapedSnoc(n: nat, pool: seq<Pattern>, p: Pattern)
    requires Shaped(n, pool) && |p| == n
    ensures Shaped(n, pool + [p])
  {
    forall k | 0 <= k < |pool| + 1
      ensures |(pool + [p])[k]| == n
    {
      if k < |pool| { assert (pool + [p])[k] == pool[k]; }
    }
  }

  /** Attaching the sparse column of a new pattern p to the rows of a pool gives
      the rows of the pool extended by p. */
  lemma RowsGrow(pool: seq<Pattern>, p: Pattern, n: nat, quantities: seq<nat>, col: seq<ColumnTerm>)
    requires n <= |pool| && Shaped(n, pool) && |quantities| == n && |p| == n && Shaped(n, pool + [p])
    requires forall j :: 0 <= j < |col| ==> col[j].row < |p| && col[j].coef == p[col[j].row] > 0
    requires forall j, j' :: 0 <= j < j' < |col| ==> col[j].row < col[j'].row
    requires forall i :: 0 <= i < |p| && p[i] > 0 ==> ColumnTerm(p[i], i) in col
    ensures Rows(pool + [p], n, quantities)
         == AttachColumn(Rows(pool, n, quantities), col, PatternVariable(|pool|))
  {
    var after := Rows(pool + [p], n, quantities);
    var attached := AttachColumn(Rows(pool, n, quantities), col, PatternVariable(|pool|));
    forall i | 0 <= i < n
      ensures after[i] == attached[i]
    {
      RowGrow(pool, p, n, i, col);
    }
    assert after.Keys == attached.Keys;
  }

  /** Each constraint gains the new variable's term exactly when p cuts its item. */
  lemma AttachedTerms(pool: seq<Pattern>, p: Pattern, n: nat, quantities: seq<nat>, col: seq<ColumnTerm>)
    requires n <= |pool| && Shaped(n, pool) && |quantities| == n && |p| == n && Shaped(n, pool + [p])
    requires forall j :: 0 <= j < |col| ==> col[j].row < |p| && col[j].coef == p[col[j].row] > 0
    requires forall j, j' :: 0 <= j < j' < |col| ==> col[j].row < col[j'].row
    requires forall i :: 0 <= i < |p| && p[i] > 0 ==> ColumnTerm(p[i], i) in col
    ensures forall i :: 0 <= i < n ==>
              (AttachColumn(Rows(pool, n, quantities), col, PatternVariable(|pool|))[i]
                 == Rows(pool, n, quantities)[i].(lhs := Rows(pool, n, quantities)[i].lhs
                      + if p[i] > 0 then [Term(p[i], PatternVariable(|pool|))] else []))
  {
    forall i | 0 <= i < n
      ensures ColumnEntries(col, i, PatternVariable(|pool|))
           == if p[i] > 0 then [Term(p[i], PatternVariable(|pool|))] else []
    {
      RowGrow(pool, p, n, i, col);
    }
  }

  /** The value of a constraint's left-hand side under the assignment x, which
      gives every variable x[k] the value x(k). */
  function LhsValue(lhs: seq<Term>, x: nat -> real): real
  {
    if lhs == [] then 0.0 else lhs[0].coef as real * x(lhs[0].x.name) + LhsValue(lhs[1..], x)
  }

  ghost predicate NonNegative(x: nat -> real)
  {
    forall k :: x(k) >= 0.0
  }

  /** x satisfies every "at least quantity" constraint of the master. */
  ghost predicate MeetsAll(orders: map<nat, Constraint>, n: nat, x: nat -> real)
  {
    forall i :: 0 <= i < n ==> i in orders && LhsValue(orders[i].lhs, x) >= orders[i].rhs as real
  }

  /** Every constraint with a positive right-hand side mentions some variable with a
      positive coefficient. */
  predicate Satisfiable(orders: map<nat, Constraint>, n: nat)
  {
    forall i :: 0 <= i < n ==>
      i in orders && (orders[i].rhs == 0 || exists t :: t in orders[i].lhs && t.coef > 0)
  }

  lemma {:induction false} LhsNonNegative(lhs: seq<Term>, x: nat -> real)
    requires NonNegative(x)
    ensures LhsValue(lhs, x) >= 0.0
  {
    if lhs != [] {
      LhsNonNegative(lhs[1..], x);
      assert x(lhs[0].x.name) >= 0.0;
    }
  }

  /** With non-negative values, a left-hand side is at least each of its terms. */
  lemma {:induction false} LhsAtLeastTerm(lhs: seq<Term>, x: nat -> real, t: Term)
    requires NonNegative(x) && t in lhs
    ensures LhsValue(lhs, x) >= t.coef as real * x(t.x.name)
  {
    assert x(lhs[0].x.name) >= 0.0;
    if lhs[0] == t {
      LhsNonNegative(lhs[1..], x);
    } else {
      LhsAtLeastTerm(lhs[1..], x, t);
    }
  }

  /** A left-hand side whose coefficients are all zero is zero. */
  lemma {:induction false} LhsZero(lhs: seq<Term>, x: nat -> real)
    requires forall t :: t in lhs ==> t.coef == 0
    ensures LhsValue(lhs, x) == 0.0
  {
    if lhs != [] {
      assert lhs[0] in lhs;
      LhsZero(lhs[1..], x);
    }
  }

  lemma PositiveTimes(c: real, v: real)
    requires c >= 1.0 && v >= 0.0
    ensures c * v >= v
  {
    assert c * v == v + (c - 1.0) * v;
  }

  /** One constraint with a positive coefficient, or nothing to demand, is met when
      every variable takes a value m at least its right-hand side. */
  lemma UniformMeets(lhs: seq<Term>, rhs: nat, m: nat, x: nat -> real)
    requires rhs <= m
    requires forall k :: x(k) == m as real
    requires rhs == 0 || exists t :: t in lhs && t.coef > 0
    ensures LhsValue(lhs, x) >= rhs as real
  {
    LhsNonNegative(lhs, x);
    if rhs > 0 {
      var t :| t in lhs && t.coef > 0;
      LhsAtLeastTerm(lhs, x, t);
      var v := x(t.x.name);
      PositiveTimes(t.coef as real, v);
      assert LhsValue(lhs, x) >= t.coef as real * v >= v;
      assert v == m as real >= rhs as real;
    } else {
      assert rhs as real == 0.0;
    }
  }

  /** A satisfiable master has an integral solution, so both its relaxation and its
      integer problem are feasible: the assignment giving every variable the same
      value m, at least every right-hand side, meets every constraint. */
  lemma SatisfiableWitness(orders: map<nat, Constraint>, n: nat, m: nat, x: nat -> real)
    requires Satisfiable(orders, n)
    requires forall i :: 0 <= i < n ==> orders[i].rhs <= m
    requires forall k :: x(k) == m as real
    ensures MeetsAll(orders, n, x)
  {
    forall i | 0 <= i < n
      ensures LhsValue(orders[i].lhs, x) >= orders[i].rhs as real
    {
      UniformMeets(orders[i].lhs, orders[i].rhs, m, x);
    }
  }

  /** A master that is not satisfiable has no non-negative solution at all: some
      constraint demands a positive quantity from terms whose coefficients are all
      zero, so the relaxation is infeasible. */
  lemma UnsatisfiableInfeasible(orders: map<nat, Constraint>, n: nat, x: nat -> real)
    requires forall i :: 0 <= i < n ==> i in orders
    requires !Satisfiable(orders, n)
    ensures !MeetsAll(orders, n, x)
  {
    var i :| 0 <= i < n && orders[i].rhs > 0 && forall t :: t in orders[i].lhs ==> t.coef == 0;
    LhsZero(orders[i].lhs, x);
  }

  /** The seed master is satisfiable exactly when every item with a positive
      quantity is no wider than the bin. */
  lemma SeedsSatisfiable(widths: seq<int>, quantities: seq<nat>, capacity: nat)
    requires ValidBook(widths, quantities)
    ensures Satisfiable(Rows(Seeds(widths, capacity), |widths|, quantities), |widths|)
        <==> Servable(widths, quantities, capacity)
  {
    var n := |widths|;
    var pool := Seeds(widths, capacity);
    var orders := Rows(pool, n, quantities);
    forall i | 0 <= i < n
      ensures (orders[i].rhs == 0 || exists t :: t in orders[i].lhs && t.coef > 0)
          <==> (quantities[i] > 0 ==> widths[i] <= capacity)
    {
      var seed := Term(pool[i][i], PatternVariable(i));
      assert orders[i].lhs == [seed] + [];
      SeedCovers(widths, capacity, i);
      if exists t :: t in orders[i].lhs && t.coef > 0 {
        var t :| t in orders[i].lhs && t.coef > 0;
        assert t == seed;
      }
    }
  }

  /** Adding a column never removes a term, so a satisfiable master stays
      satisfiable. */
  lemma SatisfiableGrows(pool: seq<Pattern>, p: Pattern, n: nat, quantities: seq<nat>)
    requires n <= |pool| && Shaped(n, pool) && |quantities| == n && |p| == n && Shaped(n, pool + [p])
    requires Satisfiable(Rows(pool, n, quantities), n)
    ensures Satisfiable(Rows(pool + [p], n, quantities), n)
  {
    var before := Rows(pool, n, quantities);
    forall i | 0 <= i < n && quantities[i] > 0
      ensures exists t :: t in RowTerms(pool + [p], n, i) && t.coef > 0
    {
      assert before[i].lhs == RowTerms(pool, n, i) && before[i].rhs == quantities[i];
      var t :| t in RowTerms(pool, n, i) && t.coef > 0;
      RowTermsSnoc(pool, p, n, i);
      assert t in RowTerms(pool + [p], n, i);
    }
  }

  /** The rounds keep a satisfiable master satisfiable, so the final integer solve
      has a solution whenever the first relaxation has one. */
  lemma {:induction false} RunSatisfiable(price: seq<Pattern> -> Pricing, n: nat, quantities: seq<nat>,
                                          pool: seq<Pattern>, fuel: nat)
    requires forall q :: |price(q).counts| == n
    requires n <= |pool| && Shaped(n, pool) && |quantities| == n
    requires Satisfiable(Rows(pool, n, quantities), n)
    ensures n <= |Run(price, pool, fuel).0| && Shaped(n, Run(price, pool, fuel).0)
    ensures Satisfiable(Rows(Run(price, pool, fuel).0, n, quantities), n)
    decreases fuel
  {
    if fuel > 0 && !Converged(price(pool)) {
      var p := price(pool).counts;
      ShapedSnoc(n, pool, p);
      SatisfiableGrows(pool, p, n, quantities);
      RunSatisfiable(price, n, quantities, pool + [p], fuel - 1);
    }
  }

  /** The master is aligned with its pool: the pool starts with the seeds and has
      one count per item in every pattern; the variables are indexed like the
      pool; the constraint rows are those the seeds and the added columns produce. */
  ghost predicate Aligned(widths: seq<int>, quantities: seq<nat>, capacity: nat, pool: seq<Pattern>,
                          choice: map<nat, Variable>, orders: map<nat, Constraint>)
  {
    ValidBook(widths, quantities)
    && |widths| <= |pool|
    && pool[..|widths|] == Seeds(widths, capacity)
    && Shaped(|widths|, pool)
    && choice == Variables(|pool|)
    && orders == Rows(pool, |widths|, quantities)
  }

  /** Appending a pattern, registering its variable under the pattern's index and
      attaching its sparse column keeps the master aligned, and extends each
      constraint by the new variable's term exactly when the pattern cuts its item. */
  lemma AlignedGrow(widths: seq<int>, quantities: seq<nat>, capacity: nat, pool: seq<Pattern>,
                    choice: map<nat, Variable>, orders: map<nat, Constraint>, p: Pattern, col: seq<ColumnTerm>)
    requires Aligned(widths, quantities, capacity, pool, choice, orders) && |p| == |widths|
    requires forall j :: 0 <= j < |col| ==> col[j].row < |p| && col[j].coef == p[col[j].row] > 0
    requires forall j, j' :: 0 <= j < j' < |col| ==> col[j].row < col[j'].row
    requires forall i :: 0 <= i < |p| && p[i] > 0 ==> ColumnTerm(p[i], i) in col
    ensures Aligned(widths, quantities, capacity, pool + [p], choice[|pool| := PatternVariable(|pool|)],
                    AttachColumn(orders, col, PatternVariable(|pool|)))
    ensures AttachColumn(orders, col, PatternVariable(|pool|)).Keys == orders.Keys
    ensures forall i :: 0 <= i < |widths| ==>
              AttachColumn(orders, col, PatternVariable(|pool|))[i] == orders[i].(lhs := orders[i].lhs
                + if p[i] > 0 then [Term(p[i], PatternVariable(|pool|))] else [])
  {
    var n := |widths|;
    var x := PatternVariable(|pool|);
    assert (pool + [p])[..n] == pool[..n];
    VariablesGrow(|pool|);
    ShapedSnoc(n, pool, p);
    RowsGrow(pool, p, n, quantities, col);
    AttachedTerms(pool, p, n, quantities, col);
  }

  /** The state of one run: the pattern pool and the master model built over it. */
  class MasterProblem {
    const widths: seq<int>
    const quantities: seq<nat>
    const capacity: nat
    /** valid_cut_patterns */
    var patterns: seq<Pattern>
    /** pattern_choice: pattern index to its variable */
    var choice: map<nat, Variable>
    /** orders: item index to its constraint */
    var orders: map<nat, Constraint>

    ghost predicate Valid()
      reads this
    {
      Aligned(widths, quantities, capacity, patterns, choice, orders)
    }

    /** Seeding followed by the initial variables and constraints. */
    constructor (widths: seq<int>, quantities: seq<nat>, capacity: nat)
      requires ValidBook(widths, quantities)
      ensures Valid()
      ensures this.widths == widths && this.quantities == quantities && this.capacity == capacity
      ensures patterns == Seeds(widths, capacity)
      ensures forall k: nat :: k in choice <==> k < |widths|
      ensures forall k :: k in choice ==> choice[k] == PatternVariable(k)
      ensures forall i: nat :: i in orders <==> i < |widths|
      ensures forall i :: 0 <= i < |widths| ==>
                orders[i] == AtLeast(i, [Term(capacity / widths[i], PatternVariable(i))], quantities[i])
    {
      this.widths := widths;
      this.quantities := quantities;
      this.capacity := capacity;
      var pool := SeedPatterns(widths, capacity);
      var vars := InitialVariables(|widths|);
      var cons := InitialConstraints(pool, vars, quantities);
      patterns := pool;
      choice := vars;
      orders := cons;
      new;
      assert patterns[..|widths|] == patterns;
      VariablesOfKeys(choice, |patterns|);
      SeedRows(patterns, orders, quantities);
    }

    /** Appends a pattern to the pool and adds its column to the master: a new
        variable whose key is the pattern's index, with one term in each
        constraint whose item the pattern cuts. */
    method AddPattern(p: Pattern)
      requires Valid() && |p| == |widths|
      modifies this
      ensures Valid()
      ensures patterns == old(patterns) + [p]
      ensures choice == old(choice)[|old(patterns)| := PatternVariable(|old(patterns)|)]
      ensures orders.Keys == old(orders).Keys
      ensures forall i :: 0 <= i < |widths| ==>
                orders[i] == old(orders)[i].(lhs := old(orders)[i].lhs
                  + if p[i] > 0 then [Term(p[i], PatternVariable(|old(patterns)|))] else [])
    {
      ghost var oldChoice, oldOrders := choice, orders;
      ghost var pool := patterns;
      patterns := patterns + [p];
      var k := |patterns| - 1;
      var col := SparseColumn(patterns[k]);
      var x := PatternVariable(k);
      choice := choice[k := x];
      orders := AttachColumn(orders, col, x);
      AlignedGrow(widths, quantities, capacity, pool, oldChoice, oldOrders, p, col);
    }

    /** The column-generation loop, with at most fuel rounds: price the current
        pool; stop on convergence; otherwise append the oracle's pattern and its
        column and repeat. */
    method Generate(price: seq<Pattern> -> Pricing, fuel: nat) returns (converged: bool)
      requires Valid()
      requires forall q :: |price(q).counts| == |widths|
      modifies this
      ensures Valid()
      ensures (patterns, converged) == Run(price, old(patterns), fuel)
    {
      var rounds := fuel;
      converged := false;
      while rounds > 0
        invariant Valid()
        invariant Run(price, patterns, rounds) == Run(price, old(patterns), fuel)
        decreases rounds
      {
        var pricing := price(patterns);
        if Converged(pricing) {
          converged := true;
          return;
        }
        var newPattern := pricing.counts;
        AddPattern(newPattern);
        rounds := rounds - 1;
      }
    }
  }
}
