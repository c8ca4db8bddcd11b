# Cutting stock by delayed column generation: a Dafny model

This project models the deterministic bookkeeping of `solve_cutting_stock` in
`cutstock.py`, a one-dimensional cutting-stock solver built on a linear and
integer programming solver, and proves properties of it.

The order book is a sequence of widths and a sequence of quantities. They are
the keys and values of the width-to-quantity dictionary in insertion order, so
index `i` names the same item in every pattern. Widths are positive and pairwise
distinct. A pattern is a sequence of natural counts, one per item.

- `Orders`: the order book, patterns, weighted width, and the seed patterns. The
  seed for item `p` holds `capacity / width_p` copies of item `p` and nothing else.
- `Master`: the master problem as a class `MasterProblem`. It holds the pattern
  pool (`valid_cut_patterns`), the variable dictionary (`pattern_choice`) and the
  constraint dictionary (`orders`). Each constraint carries its row of terms.
  - `Valid()` keeps variable `k` aligned with pattern `k`.
  - It keeps each constraint row equal to the seed term followed by one term per
    generated pattern that cuts the item.
  - `AddPattern` appends a pattern and its sparse column.
  - `Generate` is the column-generation loop. The pricing oracle is a parameter,
    and the loop is specified by the function `Run`.
- `Rolls`: decoding. Each pattern expands into its widths and is sorted. Its
  roll is repeated once per unit of the pattern's rounded value.
- `Sorting`: the two sorts the decoding uses. `sorted()` on the widths of one roll
  is a pure insertion sort. The in-place `rolls.sort()` is an insertion sort on an
  array, under Python's lexicographic list order.
- `CuttingStock`: the whole run, from the order book to the sorted roll list.

The external solver appears only as two function parameters:

- `price` takes the current pool to the knapsack's optimal objective and its
  rounded assignment. It stands for the relaxation solve, the dual prices and the
  knapsack solve.
- `solveInteger` takes the final pool to the rounded value of every pattern's
  variable. It stands for the final integer solve.

The termination test `objective < 1 + EPS` is kept, with `EPS = 1e-6`, as an
exact comparison of rationals.

The code does no input validation and rejects no input. An item wider than the
bin gets an all-zero seed pattern, and `Orders.SeedCovers` states exactly when
that happens. If such an item has a positive quantity, its constraint reads
0·x ≥ quantity. No pattern can satisfy it, so the first relaxation
(cutstock.py:40-41) has no solution, and reading its dual prices (cutstock.py:42)
fails. The model captures this outcome:
- `Master.Satisfiable` says that every constraint with a positive demand has a
  term with a positive coefficient.
- `Master.SatisfiableWitness` and `Master.UnsatisfiableInfeasible` show that
  this holds exactly when the master has a non-negative solution. When it holds,
  the solution can be integral.
- `Master.SeedsSatisfiable` shows that the seed master is satisfiable exactly when
  every item with a positive quantity fits the bin.
- `CuttingStock.SolveCuttingStock` yields None in the other case, where the
  source fails.

## Model

| member | source | states |
|---|---|---|
| Orders.SeedCount | cutstock.py:14 | the seed count c satisfies c·w ≤ capacity < (c+1)·w, so it is the largest count of that width one roll holds |
| Orders.Seeds | cutstock.py:11-15 | the seed pool has one pattern per item, each one count per item long; pattern p holds the seed count of item p at position p and 0 everywhere else |
| Orders.SeedPatterns | cutstock.py:11-15 | exactly one pattern per item, each one count per item long; pattern p holds capacity / width_p at position p and 0 everywhere else; the pool is `Seeds` |
| Orders.SingleItemWidth | cutstock.py:13-14 | a pattern that is zero outside position p has weighted width q[p]·width_p |
| Orders.SeedsFit | cutstock.py:14 | every seed pattern fits the bin, and one more piece of its item would not |
| Orders.SeedCovers | cutstock.py:14 | the seed of item p cuts it at least once exactly when width_p ≤ capacity |
| Master.InitialVariables | cutstock.py:24-26 | the variable dictionary has keys 0..n-1, and key k holds x[k] with objective 1 and integer type |
| Master.InitialConstraints | cutstock.py:29-33 | one constraint per item; constraint i mentions only variable i, with coefficient pool[i][i], sense ≥ and right-hand side quantity_i |
| Master.SeedRows | cutstock.py:29-33 | the initial constraints are exactly the rows the seed pool determines |
| Master.SparseColumn | cutstock.py:72-75 | the new column has an entry for item i exactly when the pattern's count for i is positive, with that count as coefficient, in item order with no row twice |
| Master.ColumnEntriesOfRow | cutstock.py:75-76 | attaching such a column to variable x adds to constraint i the single term coef·x when the column has an entry for i, and nothing otherwise |
| Master.GeneratedTermsPrefix | cutstock.py:64 | appending a pattern leaves the terms of all earlier columns unchanged |
| Master.GeneratedTermsSupport | cutstock.py:73-76 | the generated part of row i has a term for x[k] exactly when pattern k cuts item i; the coefficient is the count; each variable appears once, in creation order |
| Master.RowMentions | cutstock.py:31-76 | constraint i mentions x[k] with coefficient c iff k = i and c is the seed count, or k is a generated pattern with a positive count c for item i |
| Master.RowGrow | cutstock.py:71-77 | one row after adding the new column is the old row followed by the term count·x[new], or nothing when the count is 0 |
| Master.RowTermsSnoc | cutstock.py:64 | the row of item i over the pool extended by p is the old row followed by count·x[new], present only when p cuts the item |
| Master.RowsGrow | cutstock.py:71-77 | attaching the column to the constraints gives exactly the rows of the extended pool |
| Master.AttachedTerms | cutstock.py:73-76 | the column adds to each constraint the term count·x[new] when the pattern cuts its item, and nothing otherwise |
| Master.AttachColumn | cutstock.py:76 | attaching a column keeps the set of constraints, each constraint's name and right-hand side, and each constraint's existing terms, which stay a prefix of its new left-hand side |
| Master.AlignedGrow | cutstock.py:63-79 | appending a pattern, registering its variable under the pattern's index and attaching its column keeps pool, variables and constraints aligned |
| Master.Run | cutstock.py:38-79 | the rounds only append to the pool, at most one pattern per round; earlier patterns are unchanged; without convergence every round appended one |
| Master.RunRounds | cutstock.py:56-64 | every appended pattern is the oracle's answer for the pool before it, in a round whose objective was at least 1+EPS; a loop that stopped by convergence saw an objective below 1+EPS on the final pool |
| Master.RunShape | cutstock.py:63-64 | the rounds keep one count per item in every pattern, and keep every pattern within the bin when the oracle's patterns fit |
| Master.LhsNonNegative | cutstock.py:40-41 | under a non-negative assignment every left-hand side is non-negative |
| Master.LhsAtLeastTerm | cutstock.py:40-41 | under a non-negative assignment a left-hand side is at least each of its terms |
| Master.LhsZero | cutstock.py:40-41 | a left-hand side whose coefficients are all zero has value zero |
| Master.UniformMeets | cutstock.py:33 | a constraint with nothing to demand, or with a positive coefficient, is met when every variable takes one value at least its right-hand side |
| Master.SatisfiableWitness | cutstock.py:40-41 | a satisfiable master has an integral solution: every variable set to one bound on the right-hand sides meets every constraint, so the relaxation and the integer solve are feasible |
| Master.UnsatisfiableInfeasible | cutstock.py:40-42 | a master that is not satisfiable has no non-negative solution: the relaxation is infeasible and its duals cannot be read |
| Master.SeedsSatisfiable | cutstock.py:14-33 | the seed master is satisfiable exactly when every item with a positive quantity is no wider than the bin |
| Master.SatisfiableGrows | cutstock.py:71-79 | adding a column keeps a satisfiable master satisfiable |
| Master.RunSatisfiable | cutstock.py:39-79 | the generation rounds keep a satisfiable master satisfiable, so the final integer solve has a solution |
| Master.MasterProblem.constructor | cutstock.py:11-35 | after seeding and the two initial loops, the pool is the seeds, x[k] is registered for k < n, and constraint i is one term (capacity / width_i)·x[i] ≥ quantity_i |
| Master.MasterProblem.AddPattern | cutstock.py:63-79 | the pool grows by the pattern at its end; the new variable's key is the new pattern's index; each constraint gains the term count·x[new] exactly when the count is positive; everything else is unchanged |
| Master.MasterProblem.Generate | cutstock.py:38-81 | the final pool and the convergence flag are those of `Run` from the pool before the loop; the master stays aligned with the pool |
| Sorting.Insert | cutstock.py:101 | inserting into a sorted list gives a sorted list holding the old elements plus the new one |
| Sorting.SortWidths | cutstock.py:101 | `sorted()` returns an ascending permutation of its input |
| Sorting.SortedUnique | cutstock.py:101 | two ascending permutations of the same widths are equal, so any sorting algorithm gives the same roll |
| Sorting.SortWidthsIdempotent | cutstock.py:101 | sorting a sorted roll again does not change it |
| Sorting.LexReflexive | cutstock.py:102 | Python list comparison: every list is ≤ itself |
| Sorting.LexTotal | cutstock.py:102 | any two lists are comparable |
| Sorting.LexTransitive | cutstock.py:102 | the list order is transitive |
| Sorting.LexAntisymmetric | cutstock.py:102 | lists that are each ≤ the other are equal |
| Sorting.SortRolls | cutstock.py:102 | the in-place sort leaves the rolls in ascending lexicographic order and permutes them |
| Sorting.SinkInto | cutstock.py:102 | one insertion step extends the sorted prefix by one roll, permutes the array, and leaves the rolls after that position in place |
| Sorting.LexSortedUnique | cutstock.py:102 | two sorted permutations of the same rolls are equal, so the final list does not depend on the sorting algorithm |
| Rolls.Expand | cutstock.py:101 | the widths a pattern expands to number the sum of its counts |
| Rolls.RollOf | cutstock.py:101 | the decoded roll is sorted ascending, holds exactly the expanded widths, and has one piece per count of the pattern |
| Rolls.ExpandSum | cutstock.py:101 | the expanded widths add up to the pattern's weighted width |
| Rolls.ExpandMembers | cutstock.py:101 | every expanded width is the width of an item the pattern cuts at least once |
| Rolls.ExpandCount | cutstock.py:101 | with distinct widths, width i occurs exactly pattern[i] times in the expansion |
| Rolls.SortWidthsSum | cutstock.py:101 | sorting a roll keeps its total width |
| Rolls.RollOfPattern | cutstock.py:101 | the roll of pattern k is sorted, has the sum of its counts as length, holds width i exactly pattern[k][i] times, and its widths add up to the pattern's weighted width |
| Rolls.ReplicateSnoc | cutstock.py:99-101 | each outer-loop iteration appends the copies of pattern k's roll at the end |
| Rolls.ReplicateLength | cutstock.py:99-100 | the number of emitted rolls is the sum of the rounded values |
| Rolls.ReplicateMembers | cutstock.py:99-101 | every emitted roll is the roll of a pattern whose rounded value is positive |
| Rolls.AppendCopies | cutstock.py:100-101 | the inner loop appends exactly c copies of the roll after what was built |
| Rolls.CollectRolls | cutstock.py:98-101 | the nested loops build each pattern's roll round(x_k) times, pattern by pattern in pool order |
| Rolls.DecodeRolls | cutstock.py:98-103 | the returned list is lexicographically sorted and is a permutation of the rolls, round(x_k) copies of each pattern k's sorted roll in pool order |
| Rolls.DecodedRolls | cutstock.py:98-103 | the decoded list holds as many rolls as the rounded values add up to; each roll is sorted; each is within the capacity when every pattern fits |
| CuttingStock.SeedRun | cutstock.py:11-81 | the rounds from the seeds give a shaped pool extending the seeds; its master stays satisfiable when every demanded item fits the bin; all its patterns fit when the oracle's do |
| CuttingStock.SolveCuttingStock | cutstock.py:9-103 | a run yields rolls exactly when every item with a positive quantity fits the bin and the generation loop converged; the final master then has a solution, and the rolls are the decoded list of the final pool, sorted, with the right count; every roll is sorted, and within the capacity whenever the pricing oracle only proposes patterns that fit |

## Left out

- The solver itself is not modelled: the solver model and its `update()` calls,
  the relaxation and its optimisation (cutstock.py:40-42), the dual prices, the
  knapsack model (cutstock.py:44-56) and the final integer optimisation
  (cutstock.py:85). These are foreign calls on floating-point values. They appear
  only as the oracles `price` and `solveInteger`.
- The knapsack's bounds and its capacity constraint (cutstock.py:49-53) live inside the
  oracle. So the claim that every roll fits the bin is conditional on the oracle
  proposing fitting patterns.
- Floating point is not modelled. The objective is an exact rational. The
  rounding `int(x + 0.5)` (cutstock.py:63 and 100) is not modelled: the oracles
  return counts that are already rounded naturals. `int(bin_capacity / unique_width)`
  is integer division on a natural capacity and positive integer widths. Float
  widths, non-integer widths, a negative capacity, and negative or fractional
  quantities are not modelled: quantities are naturals. A negative quantity
  would be the upper bound of a knapsack variable (cutstock.py:49). That makes
  the knapsack infeasible, so reading its objective (cutstock.py:59-60) would
  raise.
- Widths are required to be positive: with a zero width, the source stops with a
  division error at cutstock.py:14. A negative width would give a negative seed
  count, and a natural-number pattern cannot hold one.
- Master.MasterProblem.Generate: the loop runs at most `fuel` rounds. The source's
  `while True` has no bound, and it can run forever if the oracle keeps proposing
  improving patterns: duplicates are not removed.
- CuttingStock.SolveCuttingStock: it yields None when the round budget runs out
  before convergence. The source would keep looping instead.
- CuttingStock.SolveCuttingStock: the oracles never fail. The one solver failure
  the model captures is the infeasible first relaxation (cutstock.py:40-42), as
  None. For natural-number quantities, this is the only failure the input can
  cause, for three reasons:
  - the knapsack always has the all-zero solution;
  - the relaxation's objective is bounded below by 0;
  - a satisfiable master stays satisfiable (`Master.RunSatisfiable`), so the final
    integer solve (cutstock.py:85) has a solution.

  Failures of the solver itself, and the exception's message, are not modelled.
- Python's dictionary iteration `for k in pattern_choice` is modelled as the pattern
  index order 0..|pool|-1. A Dafny map has no insertion order.
  - `Valid()` fixes only the key set, 0..|pool|-1.
  - The keys were inserted in increasing order: the initial variables come from
    the ascending loop of `Master.InitialVariables` (cutstock.py:25-26), and
    `AddPattern` always uses the new key |pool|-1 (cutstock.py:76).
  - So the dictionary's iteration order is the index order.
- Python's sort algorithm is replaced by insertion sorts. `Sorting.SortedUnique`
  and `Sorting.LexSortedUnique` show that every correct sort gives the same result.
- The model makes no claim about the optimality of the roll count or about covering
  the demand. Both depend on the solver's correctness.
- Logging (cutstock.py:17-21, 58-59, 65-69, 83-96), the example data
  (cutstock.py:105-117) and the `__main__` driver (cutstock.py:119-126) are left out:
  they are output and fixtures.
