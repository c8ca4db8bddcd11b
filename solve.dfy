/** The entry point of the cutting-stock solver: seed the pool, build the master,
    run the column generation, solve the integer master once and decode its
    solution into the sorted list of rolls. */
module CuttingStock {
  import opened Orders
  import opened Sorting
  import opened Rolls
  import opened Master

  datatype Option<T> = None | Some(value: T)

  /** One run of the solver. The relaxation and pricing solves are the oracle
      `price`; the final integer solve is `solveInteger`, which yields the rounded
      value of every pattern's variable. The run fails, yielding None, when the
      master is infeasible: some item with a positive quantity is wider than the
      bin, so no pattern cuts it. The round budget `fuel` bounds the generation
      loop; a run that exhausts it yields None too. */
  method SolveCuttingStock(widths: seq<int>, quantities: seq<nat>, capacity: nat,
                           price: seq<Pattern> -> Pricing, solveInteger: seq<Pattern> -> seq<nat>,
                           fuel: nat)
    returns (result: Option<seq<Roll>>)
    requires ValidBook(widths, quantities)
    requires forall q :: |price(q).counts| == |widths|
    requires forall q :: |solveInteger(q)| == |q|
    ensures var (pool, converged) := Run(price, Seeds(widths, capacity), fuel);
      |widths| <= |pool| && Shaped(|widths|, pool)
      && (result.Some? <==> Servable(widths, quantities, capacity) && converged)
      && (result.Some? ==>
            Satisfiable(Rows(pool, |widths|, quantities), |widths|)
            && LexSorted(result.value)
            && multiset(result.value) == multiset(Unsorted(widths, pool, solveInteger(pool)))
            && |result.value| == Total(solveInteger(pool))
            && (forall r :: r in result.value ==> Sorted(r))
            && ((forall q :: Fits(widths, capacity, price(q).counts)) ==>
                  forall r :: r in result.value ==> Total(r) <= capacity))
  {
    var master := new MasterProblem(widths, quantities, capacity);
    SeedsSatisfiable(widths, quantities, capacity);
    SeedRun(widths, quantities, capacity, price, fuel);
    if !Satisfiable(master.orders, |widths|) {
      // The first relaxation has no solution, so reading its dual prices fails.
      return None;
    }
    var converged := master.Generate(price, fuel);
    if !converged {
      return None;
    }
    var x := solveInteger(master.patterns);
    var rolls := DecodeRolls(widths, master.patterns, x);
    DecodedRolls(widths, capacity, master.patterns, x, rolls);
    return Some(rolls);
  }

  /** What the generation rounds from the seeds yield: a shaped pool that extends
      the seeds, whose master stays satisfiable when every demanded item fits the
      bin, and whose patterns all fit when the oracle's patterns do. */
  lemma SeedRun(widths: seq<int>, quantities: seq<nat>, capacity: nat,
                price: seq<Pattern> -> Pricing, fuel: nat)
    requires ValidBook(widths, quantities)
    requires forall q :: |price(q).counts| == |widths|
    ensures var pool := Run(price, Seeds(widths, capacity), fuel).0;
      |widths| <= |pool| && Shaped(|widths|, pool)
      && (Servable(widths, quantities, capacity) ==> Satisfiable(Rows(pool, |widths|, quantities), |widths|))
      && ((forall q :: Fits(widths, capacity, price(q).counts)) ==>
            forall k :: 0 <= k < |pool| ==> Fits(widths, capacity, pool[k]))
  {
    var seeds := Seeds(widths, capacity);
    forall p | 0 <= p < |widths|
      ensures Fits(widths, capacity, seeds[p])
    {
      SeedsFit(widths, capacity, p);
    }
    RunShape(price, widths, capacity, seeds, fuel);
    SeedsSatisfiable(widths, quantities, capacity);
    if Servable(widths, quantities, capacity) {
      RunSatisfiable(price, |widths|, quantities, seeds, fuel);
    }
  }
}
