# sumcheck-py in Dafny

This project models the prover side of sumcheck-py, a small Python
implementation of the sumcheck protocol over the integers, and proves
properties of it.

- `arithmetic.py` has two polynomial types:
  - a multivariate polynomial: a dict from exponent tuples to coefficients, with a cached `degree` and `num_vars`;
  - a univariate polynomial: a dict from powers to coefficients, with a cached `degree`.

  Around them are `evaluate_multivariate`, the projection `to_univariate` (keep one variable, substitute values for the others), `UnivariatePolynomial.add` and `evaluate`, and `generate_combinations`, which enumerates the boolean hypercube.
- `sumcheck.py` holds the `Prover`. It computes the claimed sum of the polynomial over `{0,1}^n`. In round `k` it computes the univariate polynomial `g_k(X) = sum over s in {0,1}^(n-1-k) of f(r_1, ..., r_k, X, s)` from the challenges `r` received so far.

The Dafny modules are laid out as follows:

- `numbers.dfy` (`Numbers`): `**`, `sum` and `max` on integers.
- `univariate.dfy` (`Univariate`):
  - A Python dict is an association list in insertion order.
  - `Keys`, `Coeff` and `ToMap` give its dict view. `IsDict` says no key repeats.
  - `Upsert` is `d[p] += c` or `d[p] = c`. `Assign` is `d[p] = c`.
  - The constructor, `degree`, `add` and `evaluate` are methods with loops. Each is proved against a specification function (`DegreeOf`, `AddSpec`, `Eval`).
- `multivariate.dfy` (`Multivariate`):
  - The constructor returns `Failure(InvalidPolynomial)` on an empty dict, where Python raises `IndexError`.
  - `degree`, `evaluate_multivariate` and `to_univariate` are methods. `to_univariate` returns `Failure(IndexOutOfRange)` when some key has no exponent at the kept index.
  - The specification functions are `TotalDegree`, `EvalTerms` and `Projection`. The central fact is projection correctness: the projected polynomial at `x` equals the multivariate one with `x` put back at the kept position.
- `hypercube.dfy` (`Hypercube`):
  - `generate_combinations` is a recursive method. Its `for bit in [0, 1]` loop is kept.
  - `Points(n)` is its specification: `2^n` distinct bit vectors of length `n` in binary counting order, covering every bit vector.
- `sumcheck.dfy` (`Sumcheck`):
  - The `Prover` class has its `poly` and the appendable challenge list `r`.
  - `build_sum_in_hypercube` is proved to return `Claim(f)`, the hypercube sum.
  - `generate_univariate_poly_for_round_i` fails with `IndexOutOfRange` exactly when some key has no exponent for the next variable, where Python's `to_univariate` raises. Otherwise it is proved to return the round polynomial. At every `c` it is worth the round sum `RoundSum(f, r, c)`. Its keys are `{0,1,2}` plus the kept exponents, and its degree is at most `f.degree`.
  - The protocol identities behind the verifier's checks in `test.py` are lemmas:
    - `g_1(0) + g_1(1) == claim`;
    - `g_{k+1}(0) + g_{k+1}(1) == g_k(r_k)`;
    - `g_n(r_n) == f(r_1..r_n)`.
  - `HonestTranscript` runs the exchange of the unit test for any polynomial whose keys all have `num_vars` exponents, and any challenges, and states that every check passes.
- `examples.dfy` (`Examples`): the concrete values of `test.py`:
  - the two projections;
  - the addition;
  - the eight points of `{0,1}^3`;
  - `f(0,5,5) = 80`, degree 2 and 3 variables;
  - the claim 24 and the three round polynomials `{2: 4, 1: 4, 0: 8}`, `{2: 6, 1: 4 r1, 0: 2 r1^2 + 1}` and `{2: 0, 1: 1, 0: 3 r2^2 + r1^2 + 2 r1 r2}`, as dicts, for every `r1` and `r2`;
  - `SumcheckScenario`, which replays `test_sumcheck` on a `Prover` with challenges `r1`, `r2` and `r3` as parameters. Its contract states every assertion of the test.

Python integers are unbounded and so are Dafny's `int`, so no arithmetic is truncated.

## Model

| member | source | states |
|---|---|---|
| Numbers.ElementAtMostSum | arithmetic.py:28 | one exponent of a key never exceeds `sum(powers)`, the key's total degree |
| Univariate.NewUnivariate | arithmetic.py:118-120 | the constructor keeps the dict as given, and the cached degree is the real degree |
| Univariate.Degree | arithmetic.py:122-127 | `degree()` is -1 or more; every non-zero entry has power at most the result; a result of 0 or more is the power of some non-zero entry; the result equals `DegreeOf` |
| Univariate.DegreeOfIsMax | arithmetic.py:122-127 | the degree is the largest power with a non-zero coefficient, or -1 without one; zero coefficients never raise it |
| Univariate.Add | arithmetic.py:129-153 | `add` returns a well-formed polynomial built by the two loops; its keys are the union of both key sets; each coefficient is the sum of the two; so are its values at every point; its degree is at most the larger of the two |
| Univariate.Evaluate | arithmetic.py:155-168 | `evaluate(x)` is the sum of `coeff * x ** power` over the entries |
| Univariate.UpsertEval | arithmetic.py:147-151 | one `d[p] += c` / `d[p] = c` step adds `c * x ** p` to the value at every `x` |
| Univariate.UpsertCoeff | arithmetic.py:147-151 | the step adds `c` to the coefficient at `p` and changes no other coefficient |
| Univariate.UpsertKeys | arithmetic.py:147-151 | the step's key set is the old one plus `p` |
| Univariate.UpsertIsDict | arithmetic.py:147-151 | the step never duplicates a key |
| Univariate.UpsertDegree | arithmetic.py:147-151 | the step raises the degree to at most `p`, and only when `c` is non-zero |
| Univariate.UpsertAllEval | arithmetic.py:147-151 | upserting every entry of `q` adds the value of `q` at every point |
| Univariate.UpsertAllCoeff | arithmetic.py:147-151 | upserting every entry of `q` adds `q`'s coefficient at every power |
| Univariate.UpsertAllKeys | arithmetic.py:147-151 | upserting every entry of `q` unites the key sets |
| Univariate.UpsertAllIsDict | arithmetic.py:147-151 | upserting into a dict leaves a dict |
| Univariate.UpsertAllDegree | arithmetic.py:147-151 | upserting `q` gives degree at most the larger of the two degrees |
| Univariate.KeysConcat | arithmetic.py:143-144 | the keys of two lists one after the other are the union of their keys |
| Univariate.AssignFresh | arithmetic.py:143-144 | `d[p] = c` on a new key appends the entry |
| Univariate.AssignAllFresh | arithmetic.py:143-144 | assigning a dict whose keys are all new appends it unchanged |
| Univariate.AssignAllCopies | arithmetic.py:142-144 | the first loop of `add` copies `self` exactly |
| Univariate.AddPointwise | arithmetic.py:129-153 | `add` is pointwise: it gives a dict, the union of the keys, summed coefficients and summed values at every point |
| Univariate.AddDegree | arithmetic.py:129-153 | the degree of a sum is at most the larger degree of its operands |
| Univariate.AddCommutative | arithmetic.py:129-153 | as dicts, `p.add(q)` equals `q.add(p)` |
| Univariate.AddAssociative | arithmetic.py:129-153 | as dicts, `(p.add(q)).add(s)` equals `p.add(q.add(s))` |
| Univariate.AddIdentity | arithmetic.py:129-153 | adding the empty dict returns `p` itself; adding `p` to the empty dict gives `p` as a dict |
| Multivariate.NewMultivariate | arithmetic.py:19-22 | construction fails exactly on the empty dict (Python raises there); otherwise it keeps the dict, caches the real degree and takes `num_vars` from the first key |
| Multivariate.Degree | arithmetic.py:24-30 | `degree()` is -1 or more; every non-zero term has `sum(powers)` at most the result; a result of 0 or more is reached by some non-zero term |
| Multivariate.TotalDegreeIsMax | arithmetic.py:24-30 | the degree is the largest `sum(powers)` over non-zero terms, or -1 without one |
| Multivariate.EvaluateMultivariate | arithmetic.py:68-87 | the value is the sum over the terms of `coeff` times the product of `value ** power` over `zip(powers, eval_values)` |
| Multivariate.ToUnivariate | arithmetic.py:33-65 | the result is `Failure(IndexOutOfRange)` exactly when some key has no exponent at `keep_var_index`. On success: a well-formed polynomial whose keys are the kept exponents; the coefficient at `e` sums the other variables' values over the terms kept at `e`; the degree is at most `f.degree`. Whenever `keep_var_index` is at most the number of values, its value at `x` is `f` with `x` put back at `keep_var_index`; the `zip` truncation applies on both sides |
| Multivariate.MonoInsert | arithmetic.py:54-57 | a term evaluated with `x` re-inserted at `k` is `x ** powers[k]` times the term without variable `k`, evaluated at the other values |
| Multivariate.InsertDropTails | arithmetic.py:55 | dropping position `k > 0` of the exponents and inserting at `k` in the values commute with taking tails |
| Multivariate.ContributionsEval | arithmetic.py:53-62 | the entries the loop upserts add up, at `x`, to the polynomial with `x` re-inserted |
| Multivariate.ContributionsShape | arithmetic.py:53-62 | the upserted entries have exactly the kept exponents as powers, the summed coefficients, and degree at most `f.degree` |
| Multivariate.ProjectionShape | arithmetic.py:47-65 | the projection is a dict whose keys are exactly the kept exponents; its coefficients sum the matching terms; its degree is at most the total degree |
| Multivariate.KeptConcat | arithmetic.py:53-62 | over two term lists one after the other, the kept exponents unite and the kept coefficients add |
| Multivariate.KeptPermutation | arithmetic.py:50-51 | reordering the terms, as `sorted` does, changes neither the kept exponents nor any kept coefficient |
| Multivariate.ProjectionPermutation | arithmetic.py:50-62 | projecting any reordering of the terms gives the same dict, so skipping the sort leaves the returned dict unchanged |
| Multivariate.ProjectionEval | arithmetic.py:33-65 | projection correctness: the projection at `x` equals `f` at the values with `x` re-inserted at the kept index |
| Hypercube.GenerateCombinations | arithmetic.py:89-101 | `generate_combinations(n)` returns `Points(n)` |
| Hypercube.CombinationsFrom | arithmetic.py:89-101 | the recursive call appends to `result` every completion of `prefix` to length `n`, in order |
| Hypercube.ExtendPoints | arithmetic.py:97-99 | the completions of `prefix` are those of `prefix + [0]`, then those of `prefix + [1]` |
| Hypercube.PointsCount | arithmetic.py:89-101 | there are exactly `2^n` combinations |
| Hypercube.PointsNonEmpty | arithmetic.py:94-96 | there is always at least one combination, the empty one when `n == 0` |
| Hypercube.PointsShape | arithmetic.py:89-101 | every combination has `n` entries, each 0 or 1 |
| Hypercube.PointsInBinaryOrder | arithmetic.py:89-101 | combination `i` is the `n`-bit binary numeral of `i`: counting order from all zeros to all ones |
| Hypercube.PointsDistinct | arithmetic.py:89-101 | no combination occurs twice |
| Hypercube.BinaryValueBound | arithmetic.py:89-101 | an `n`-bit vector stands for a number in `[0, 2^n)` |
| Hypercube.PointsComplete | arithmetic.py:89-101 | every 0/1 vector of length `n` occurs, at the index it stands for |
| Hypercube.PointsCons | arithmetic.py:97-99 | a vector found at its index is still found once a bit is put in front |
| Hypercube.BitThenValue | arithmetic.py:97-99 | a leading 0 adds nothing and a leading 1 adds `2^len` |
| Sumcheck.Prover.constructor | sumcheck.py:4-16 | a new prover holds the polynomial and no challenges |
| Sumcheck.Prover.AppendChallenge | test.py:86 | receiving a challenge appends it to `r` and changes nothing else |
| Sumcheck.Prover.BuildSumInHypercube | sumcheck.py:18-31 | the claim is the sum of `f` over all of `{0,1}^num_vars` |
| Sumcheck.Prover.GenerateUnivariatePolyForRound | sumcheck.py:33-50 | the call fails with `IndexOutOfRange` exactly when some key has no exponent for variable `len(r)`, which is where the first `to_univariate` raises. Otherwise the round polynomial is well-formed and is the fold the loop performs. At every `c` it is worth the sum of `f(r, c, s)` over `s` in the remaining hypercube. Its keys are `{0, 1, 2}` plus the exponents of variable `len(r)`. Its degree is at most `f.degree` |
| Sumcheck.SumOverConcat | sumcheck.py:28-29 | summing over two lists of points one after the other is the sum of the two sums |
| Sumcheck.SumOverExtend | sumcheck.py:45-46 | summing with a bit put in front of every point is summing with the bit appended to the prefix |
| Sumcheck.SumOverSplit | sumcheck.py:43-46 | the sum over `{0,1}^(m+1)` is the sum with the next variable at 0 plus the sum with it at 1 |
| Sumcheck.FirstRoundMatchesClaim | test.py:79-80 | the first round sums `g_1(0) + g_1(1)` equal the claimed hypercube sum |
| Sumcheck.NextRoundMatchesPrevious | test.py:98-99 | after challenge `c`, `g_{k+1}(0) + g_{k+1}(1)` equals `g_k(c)` |
| Sumcheck.LastRoundMatchesEvaluation | test.py:126-128 | in the last round, `g_n(c)` is `f` at all the challenges |
| Sumcheck.SumOverNoVariables | arithmetic.py:94-96 | over `{0,1}^0`, the only point is the empty one |
| Sumcheck.TemplateFacts | sumcheck.py:41 | the start value `{2: 0, 1: 0, 0: 0}` is a dict with keys 0, 1, 2, degree -1, and value 0 everywhere |
| Sumcheck.RoundFoldEval | sumcheck.py:45-48 | the round loop's accumulator, at `c`, is the start value plus the sum of `f(r, c, s)` over the remaining points |
| Sumcheck.RoundFoldShape | sumcheck.py:45-48 | the accumulator stays a dict; it gains the kept exponents as keys once a point was seen; its degree never exceeds the total degree |
| Sumcheck.RoundFoldCoeff | sumcheck.py:45-48 | the accumulator's coefficient at `e` is the start value's plus, over the points seen, what each point's projection has at `e` |
| Sumcheck.RoundPolynomialCoeff | sumcheck.py:33-50 | the round polynomial's coefficient at `e` sums, over the remaining hypercube, the coefficient at `e` of each point's projection |
| Sumcheck.RoundPolynomialEval | sumcheck.py:33-50 | the round polynomial at every `c` is the round sum |
| Sumcheck.RoundFoldFromTemplate | sumcheck.py:41-48 | folding from the template keeps its keys 0, 1, 2 and adds the kept exponents |
| Sumcheck.RoundPolynomialShape | sumcheck.py:33-50 | the round polynomial is a dict with keys `{0,1,2}` plus the kept exponents, of degree at most `f.degree` |
| Sumcheck.AddProjection | sumcheck.py:46-48 | one loop step adds the projection of `f` at `r + combo` onto variable `len(r)` to the accumulator, and the result stays well-formed |
| Sumcheck.RoundPolynomialFacts | sumcheck.py:33-50 | the loop's result is worth the round sum at every point, has keys `{0,1,2}` plus the kept exponents, and has degree at most `f.degree` |
| Sumcheck.HonestTranscript | test.py:56-128 | for any polynomial and challenges, an honest prover sends `num_vars` well-formed round polynomials, each of degree at most `f.degree`. The first sums to the claim at 0 and 1; each next one sums to the previous one at its challenge; the last, at the last challenge, is `f` at all the challenges |
| Sumcheck.PlayRound | test.py:73-86 | one round: the prover appends its round polynomial, worth the round sum, then receives the next challenge |
| Sumcheck.FirstCheck | test.py:79-80 | the verifier's first check passes on a polynomial worth the first round sums |
| Sumcheck.ChainCheck | test.py:98-99 | the check between two rounds passes |
| Sumcheck.FinalCheck | test.py:126-128 | the final check passes |
| Sumcheck.NoRoundCheck | sumcheck.py:18-31 | with no variables, the claim is `f` at the empty point |
| Sumcheck.ChainChecks | test.py:98-119 | every check between consecutive rounds passes |
| Sumcheck.FirstRoundCheck | test.py:79-80 | the first check passes on an honest transcript |
| Sumcheck.LastRoundCheck | test.py:126-128 | the final check passes on an honest transcript |
| Sumcheck.TranscriptChecks | test.py:76-128 | every verifier check passes on an honest transcript of full length |
| Examples.ProjectionOnX | test.py:22-30 | `f(x, 5, 5)` is `{2: 1, 1: 10, 0: 80}` |
| Examples.ContributionsOnX | test.py:22-30 | the four entries `to_univariate` upserts when keeping `x` |
| Examples.ProjectionOnY | test.py:32-37 | `f(5, y, 5)` has coefficients 3, 10, 30 at powers 2, 1, 0 |
| Examples.ContributionsOnY | test.py:32-37 | the four entries upserted when keeping `y` |
| Examples.Addition | test.py:39-44 | `{2: 1, 1: 10, 0: 80}.add({2: 2, 1: 20, 0: 160})` is `{2: 3, 1: 30, 0: 240}` |
| Examples.ThreeBitPoints | test.py:46-52 | `generate_combinations(3)` is the eight 3-bit vectors in counting order |
| Examples.DegreeAndValue | test.py:8-20 | `x^2 + 2xy + 3y^2 + z` is well-formed, has degree 2 and 3 variables, and its value at `(0, 5, 5)` is 80 |
| Examples.EvalF | test.py:58-60 | `f(a, b, c)` is `a^2 + 2ab + 3b^2 + c` at every point |
| Examples.ClaimIs24 | test.py:62-67 | the claimed hypercube sum of `f` is 24 |
| Examples.FirstRoundSum | test.py:69-72 | the first round sum at `X` is `4X^2 + 4X + 8` |
| Examples.FirstRoundPolynomial | test.py:73-74 | the first round polynomial is the dict `{2: 4, 1: 4, 0: 8}` |
| Examples.SecondRoundSum | test.py:88-91 | after `r1`, the round sum at `X` is `6X^2 + 4 r1 X + 2 r1^2 + 1` |
| Examples.SecondRoundPolynomial | test.py:92-93 | after `r1`, the round polynomial is the dict `{2: 6, 1: 4 r1, 0: 2 r1^2 + 1}` |
| Examples.ThirdRoundSum | test.py:107-110 | after `r1, r2`, the round sum at `X` is `X + 3 r2^2 + r1^2 + 2 r1 r2` |
| Examples.ThirdRoundPolynomial | test.py:112-113 | after `r1, r2`, the round polynomial is the dict `{2: 0, 1: 1, 0: 3 r2^2 + r1^2 + 2 r1 r2}`, the zero at power 2 coming from the start value |
| Examples.RoundDict | sumcheck.py:41-50 | a round polynomial whose kept exponents lie in `{0, 1, 2}` is, as a dict, exactly its coefficients at 0, 1 and 2 |
| Examples.ScenarioSetup | test.py:58-67 | building `f` from its dict succeeds, a new prover holds it with no challenges, and the claim is 24 |
| Examples.ScenarioRound | sumcheck.py:33-50 | the prover of `f` always answers a round: a well-formed polynomial of degree at most 2, worth the round sum everywhere |
| Examples.ScenarioRoundOne | test.py:73-80 | round 1 is `{2: 4, 1: 4, 0: 8}` as a dict, of degree at most 2, with `f1(0) + f1(1) == 24` |
| Examples.ScenarioRoundTwo | test.py:92-99 | round 2 is `{2: 6, 1: 4 r1, 0: 2 r1^2 + 1}` as a dict, of degree at most 2, with `f2(0) + f2(1) == f1(r1)` |
| Examples.ScenarioRoundThree | test.py:112-119 | round 3 is `{2: 0, 1: 1, 0: 3 r2^2 + r1^2 + 2 r1 r2}` as a dict, of degree at most 2, with `f3(0) + f3(1) == f2(r2)` |
| Examples.SumcheckScenario | test.py:56-128 | every assertion of `test_sumcheck` holds for all challenges: the claim, the three dicts, the degree bounds, the round checks and the final check `f(r1, r2, r3) == f3(r3)` |

## Left out

- Multivariate.ToUnivariate: it does not sort the terms in descending order of the kept exponent first, so keys can come out in a different order. Only the insertion order of the result changes. `ProjectionPermutation` proves that any reordering of the terms gives the same dict, and `Examples.ProjectionOnY` shows the changed order.
- Multivariate.ToUnivariate: `keep_var_index` is a natural number. Python's negative indices, which count from the end, are not modelled.
- Sumcheck.Prover.GenerateUnivariatePolyForRound requires fewer than `num_vars` challenges. With `num_vars` or more, `generate_combinations` gets a negative `n` and recurses until Python's recursion limit. That case is not modelled.
- Sumcheck.HonestTranscript and Sumcheck.PlayRound run a whole exchange only when every key has exactly `num_vars` exponents. The unit test's polynomial has that shape. A single round with keys of other lengths is covered by `GenerateUnivariatePolyForRound`.
- A Python dict never repeats a key. The model does not assume this for the multivariate dict: duplicate exponent vectors are allowed, and every term is summed.
- Hypercube.CombinationsFrom: Python appends to one shared `result` list in place. The model threads the list through the calls as a value and returns it. Python's `None` defaults become the explicit arguments `[]`, `[]`.
- The cached `degree` attribute shadows the `degree()` method on each instance. The model stores it as a field of the datatype and keeps the method as a separate member.
- The verifier exists only in `test.py`. Its checks are lemmas and the `HonestTranscript` method. Its `random.randint` challenges are a parameter.
- Output, the `unittest` harness and the `OrderedDict` type (modelled like a plain dict, as an insertion-ordered list) are not modelled.
