/** The multivariate polynomial of arithmetic.py: a dict from exponent
    vectors to coefficients, with `degree` and `num_vars` cached at
    construction, `evaluate_multivariate` and the projection `to_univariate`
    that keeps one variable and substitutes values for all the others. */
module Multivariate {
  import opened Numbers
  import opened Univariate

  /** One `powers: coeff` entry; `powers[i]` is the exponent of variable i. */
  datatype Term = Term(powers: seq<nat>, coeff: int)

  /** The coefficient dict (in insertion order) and the two cached attributes. */
  datatype MultivariatePolynomial = MultivariatePolynomial(coefficients: seq<Term>, degree: int, numVars: nat)
  {
    /** What construction establishes: a non-empty dict, `num_vars` taken from
        the first key, the degree cached. */
    predicate Valid()
    {
      |coefficients| > 0 && numVars == |coefficients[0].powers| && degree == TotalDegree(coefficients)
    }

    /** Every key has `num_vars` exponents (not checked by the constructor). */
    predicate UniformArity()
    {
      forall i :: 0 <= i < |coefficients| ==> |coefficients[i].powers| == numVars
    }
  }

  datatype Error = InvalidPolynomial | IndexOutOfRange

  datatype Result<T> = Success(value: T) | Failure(error: Error)

  // ---------------------------------------------------------------------
  // Specification functions

  /** `sum(powers)` for a term with a non-zero coefficient, else -1. */
  function SumDegree(t: Term): int
  {
    if t.coeff != 0 then Sum(t.powers) else -1
  }

  /** Largest total degree over the non-zero terms, -1 if there is none. */
  function TotalDegree(terms: seq<Term>): int
  {
    if terms == [] then -1 else Max(SumDegree(terms[0]), TotalDegree(terms[1..]))
  }

  /** The product of `values[i] ** powers[i]` over `zip(powers, values)`,
      which stops at the shorter of the two lists. */
  function Mono(powers: seq<nat>, values: seq<int>): int
  {
    if powers == [] || values == [] then 1
    else Pow(values[0], powers[0]) * Mono(powers[1..], values[1..])
  }

  /** The sum over the terms of `coeff * Mono(powers, values)`. */
  function EvalTerms(terms: seq<Term>, values: seq<int>): int
  {
    if terms == [] then 0
    else terms[0].coeff * Mono(terms[0].powers, values) + EvalTerms(terms[1..], values)
  }

  /** `[p for i, p in enumerate(powers) if i != k]`. */
  function Drop(powers: seq<nat>, k: nat): seq<nat>
    requires k < |powers|
  {
    powers[..k] + powers[k + 1..]
  }

  /** `values` with `x` re-inserted at position `k`. */
  function Insert(values: seq<int>, k: nat, x: int): seq<int>
    requires k <= |values|
  {
    values[..k] + [x] + values[k..]
  }

  /** Every key has an exponent at position `k` (else `powers[k]` raises). */
  predicate KeepIndexValid(terms: seq<Term>, k: nat)
  {
    forall i :: 0 <= i < |terms| ==> k < |terms[i].powers|
  }

  /** The entry one term adds to the projection: the kept power, and the
      coefficient times the other variables evaluated at `values`. */
  function Contribution(t: Term, values: seq<int>, k: nat): UniTerm
    requires k < |t.powers|
  {
    UniTerm(t.powers[k], t.coeff * Mono(Drop(t.powers, k), values))
  }

  function Contributions(terms: seq<Term>, values: seq<int>, k: nat): seq<UniTerm>
    requires KeepIndexValid(terms, k)
  {
    if terms == [] then []
    else [Contribution(terms[0], values, k)] + Contributions(terms[1..], values, k)
  }

  /** The dict `to_univariate` builds: every contribution upserted in turn. */
  function Projection(terms: seq<Term>, values: seq<int>, k: nat): seq<UniTerm>
    requires KeepIndexValid(terms, k)
  {
    UpsertAll([], Contributions(terms, values, k))
  }

  /** The set of kept exponents `{powers[k]}` over all terms. */
  function KeptPowers(terms: seq<Term>, k: nat): set<nat>
    requires KeepIndexValid(terms, k)
  {
    if terms == [] then {} else {terms[0].powers[k]} + KeptPowers(terms[1..], k)
  }

  /** The sum, over the terms whose kept exponent is `e`, of the coefficient
      times the other variables evaluated at `values`. */
  function KeptCoeff(terms: seq<Term>, values: seq<int>, k: nat, e: nat): int
    requires KeepIndexValid(terms, k)
  {
    if terms == [] then 0
    else (if terms[0].powers[k] == e then terms[0].coeff * Mono(Drop(terms[0].powers, k), values) else 0)
         + KeptCoeff(terms[1..], values, k, e)
  }

  // ---------------------------------------------------------------------
  // The operations

  /** `MultivariatePolynomial(coefficients)`: caches the degree, then takes
      `num_vars` from the first key; an empty dict raises (here `Failure`). */
  method NewMultivariate(coefficients: seq<Term>) returns (res: Result<MultivariatePolynomial>)
    ensures res.Failure? <==> coefficients == []
    ensures res.Failure? ==> res.error == InvalidPolynomial
    ensures res.Success? ==> res.value.Valid() && res.value.coefficients == coefficients
  {
    var d := Degree(coefficients);
    if |coefficients| == 0 {
      return Failure(InvalidPolynomial);
    }
    res := Success(MultivariatePolynomial(coefficients, d, |coefficients[0].powers|));
  }

  /** `degree()`: the largest `sum(powers)` over terms with a non-zero
      coefficient, or -1. */
  method Degree(coefficients: seq<Term>) returns (maxDegree: int)
    ensures maxDegree == TotalDegree(coefficients)
    ensures maxDegree >= -1
    ensures forall i :: 0 <= i < |coefficients| && coefficients[i].coeff != 0 ==>
              Sum(coefficients[i].powers) <= maxDegree
    ensures maxDegree >= 0 ==>
              exists i :: 0 <= i < |coefficients| && coefficients[i].coeff != 0 &&
                          Sum(coefficients[i].powers) == maxDegree
  {
    TotalDegreeIsMax(coefficients);
    maxDegree := -1;
    for i := 0 to |coefficients|
      invariant maxDegree >= -1
      invariant Max(maxDegree, TotalDegree(coefficients[i..])) == TotalDegree(coefficients)
    {
      assert coefficients[i..][1..] == coefficients[i + 1..];
      var t := coefficients[i];
      if t.coeff != 0 {
        var currentDegree := Sum(t.powers);
        maxDegree := Max(maxDegree, currentDegree);
      }
    }
    assert coefficients[|coefficients|..] == [];
  }

  /** `evaluate_multivariate(f, eval_values)`. */
  method EvaluateMultivariate(f: MultivariatePolynomial, evalValues: seq<int>) returns (result: int)
    ensures result == EvalTerms(f.coefficients, evalValues)
  {
    result := 0;
    for i := 0 to |f.coefficients|
      invariant result + EvalTerms(f.coefficients[i..], evalValues) == EvalTerms(f.coefficients, evalValues)
    {
      assert f.coefficients[i..][1..] == f.coefficients[i + 1..];
      var t := f.coefficients[i];
      var termValue := t.coeff;
      var n := if |t.powers| <= |evalValues| then |t.powers| else |evalValues|;
      for j := 0 to n
        invariant termValue * Mono(t.powers[j..], evalValues[j..]) == t.coeff * Mono(t.powers, evalValues)
      {
        assert t.powers[j..][1..] == t.powers[j + 1..];
        assert evalValues[j..][1..] == evalValues[j + 1..];
        var factor := Pow(evalValues[j], t.powers[j]);
        ghost var rest := Mono(t.powers[j + 1..], evalValues[j + 1..]);
        assert Mono(t.powers[j..], evalValues[j..]) == factor * rest;
        MulAssoc(termValue, factor, rest);
        termValue := termValue * factor;
      }
      assert t.powers[n..] == [] || evalValues[n..] == [];
      assert Mono(t.powers[n..], evalValues[n..]) == 1;
      result := result + termValue;
    }
    assert f.coefficients[|f.coefficients|..] == [];
  }

  /** `to_univariate(eval_values, keep_var_index)`: the univariate polynomial
      in variable `keepVarIndex` left by substituting `evalValues`, in order,
      for all the other variables. */
  method ToUnivariate(f: MultivariatePolynomial, evalValues: seq<int>, keepVarIndex: nat)
    returns (res: Result<UnivariatePolynomial>)
    ensures res.Failure? <==> !KeepIndexValid(f.coefficients, keepVarIndex)
    ensures res.Failure? ==> res.error == IndexOutOfRange
    ensures res.Success? ==>
              && res.value.Valid()
              && res.value.coefficients == Projection(f.coefficients, evalValues, keepVarIndex)
              && Keys(res.value.coefficients) == KeptPowers(f.coefficients, keepVarIndex)
              && (forall e :: Coeff(res.value.coefficients, e) == KeptCoeff(f.coefficients, evalValues, keepVarIndex, e))
              && res.value.degree <= TotalDegree(f.coefficients)
    ensures res.Success? && keepVarIndex <= |evalValues| ==>
              forall x :: Eval(res.value.coefficients, x) ==
                          EvalTerms(f.coefficients, Insert(evalValues, keepVarIndex, x))
  {
    // The sort key `x[0][keep_var_index]` raises IndexError on a short key.
    if !KeepIndexValid(f.coefficients, keepVarIndex) {
      return Failure(IndexOutOfRange);
    }
    var terms := f.coefficients;
    var g: seq<UniTerm> := [];
    for i := 0 to |terms|
      invariant UpsertAll(g, Contributions(terms[i..], evalValues, keepVarIndex)) ==
                Projection(terms, evalValues, keepVarIndex)
    {
      assert terms[i..][1..] == terms[i + 1..];
      var t := terms[i];
      var newPower := t.powers[keepVarIndex];
      var evalPowers := Drop(t.powers, keepVarIndex);
      var single := NewMultivariate([Term(evalPowers, t.coeff)]);
      var termValue := EvaluateMultivariate(single.value, evalValues);
      assert [Term(evalPowers, t.coeff)][1..] == [];
      g := Upsert(g, UniTerm(newPower, termValue));
    }
    assert terms[|terms|..] == [];
    ProjectionShape(terms, evalValues, keepVarIndex);
    if keepVarIndex <= |evalValues| {
      ProjectionEval(terms, evalValues, keepVarIndex);
    }
    var u := NewUnivariate(g);
    return Success(u);
  }

  // ---------------------------------------------------------------------
  // Degree

  /** `TotalDegree` is the maximum `sum(powers)` over the non-zero terms,
      -1 without one. */
  lemma {:induction false} TotalDegreeIsMax(terms: seq<Term>)
    ensures TotalDegree(terms) >= -1
    ensures forall i :: 0 <= i < |terms| && terms[i].coeff != 0 ==> Sum(terms[i].powers) <= TotalDegree(terms)
    ensures TotalDegree(terms) >= 0 ==>
              exists i :: 0 <= i < |terms| && terms[i].coeff != 0 && Sum(terms[i].powers) == TotalDegree(terms)
  {
    if terms != [] {
      TotalDegreeIsMax(terms[1..]);
      forall i | 0 <= i < |terms| && terms[i].coeff != 0
        ensures Sum(terms[i].powers) <= TotalDegree(terms)
      {
        if i > 0 {
          assert terms[i] == terms[1..][i - 1];
        }
      }
      if TotalDegree(terms) >= 0 && TotalDegree(terms) != SumDegree(terms[0]) {
        var j :| 0 <= j < |terms[1..]| && terms[1..][j].coeff != 0 && Sum(terms[1..][j].powers) == TotalDegree(terms[1..]);
        assert terms[j + 1] == terms[1..][j];
      }
    }
  }

  // ---------------------------------------------------------------------
  // Projection

  /** Evaluating a monomial at `values` with `x` re-inserted at `k` is `x`
      raised to the kept exponent times the monomial without variable `k`. */
  lemma {:induction false} MonoInsert(powers: seq<nat>, values: seq<int>, k: nat, x: int)
    requires k < |powers| && k <= |values|
    ensures Mono(powers, Insert(values, k, x)) == Pow(x, powers[k]) * Mono(Drop(powers, k), values)
  {
    var w := Insert(values, k, x);
    if k == 0 {
      assert w == [x] + values;
      assert w[1..] == values;
      assert Drop(powers, 0) == powers[1..];
    } else {
      var d := Drop(powers, k);
      InsertDropTails(powers, values, k, x);
      MonoInsert(powers[1..], values[1..], k - 1, x);
      var a := Pow(values[0], powers[0]);
      var b := Pow(x, powers[k]);
      var m := Mono(Drop(powers[1..], k - 1), values[1..]);
      assert Mono(powers, w) == a * (b * m);
      assert Mono(d, values) == a * m;
      MulSwap(a, b, m);
    }
  }

  /** Below the kept position, inserting and dropping commute with taking tails. */
  lemma InsertDropTails(powers: seq<nat>, values: seq<int>, k: nat, x: int)
    requires 0 < k < |powers| && k <= |values|
    ensures Insert(values, k, x)[0] == values[0] && Insert(values, k, x)[1..] == Insert(values[1..], k - 1, x)
    ensures Drop(powers, k)[0] == powers[0] && Drop(powers, k)[1..] == Drop(powers[1..], k - 1)
  {
    assert values[..k][1..] == values[1..][..k - 1];
    assert values[k..] == values[1..][k - 1..];
    assert powers[..k][1..] == powers[1..][..k - 1];
    assert powers[k + 1..] == powers[1..][k..];
  }

  lemma MulAssoc(a: int, b: int, c: int)
    ensures a * (b * c) == (a * b) * c
  {
  }

  lemma MulRotate(a: int, m: int, b: int)
    ensures (a * m) * b == a * (b * m)
  {
  }

  lemma MulSwap(a: int, b: int, m: int)
    ensures a * (b * m) == b * (a * m)
  {
  }

  lemma {:induction false} ContributionsEval(terms: seq<Term>, values: seq<int>, k: nat, x: int)
    requires k <= |values| && KeepIndexValid(terms, k)
    ensures Eval(Contributions(terms, values, k), x) == EvalTerms(terms, Insert(values, k, x))
  {
    if terms != [] {
      var t := terms[0];
      var c := Contribution(t, values, k);
      var rest := Contributions(terms[1..], values, k);
      var l := [c] + rest;
      assert l[0] == c && l[1..] == rest;
      ContributionsEval(terms[1..], values, k, x);
      MonoInsert(t.powers, values, k, x);
      var m := Mono(Drop(t.powers, k), values);
      var b := Pow(x, t.powers[k]);
      var w := Insert(values, k, x);
      assert Eval(l, x) == (t.coeff * m) * b + Eval(rest, x);
      assert EvalTerms(terms, w) == t.coeff * Mono(t.powers, w) + EvalTerms(terms[1..], w);
      assert Mono(t.powers, w) == b * m;
      MulRotate(t.coeff, m, b);
    }
  }

  lemma {:induction false} ContributionsShape(terms: seq<Term>, values: seq<int>, k: nat)
    requires KeepIndexValid(terms, k)
    ensures Keys(Contributions(terms, values, k)) == KeptPowers(terms, k)
    ensures forall e :: Coeff(Contributions(terms, values, k), e) == KeptCoeff(terms, values, k, e)
    ensures DegreeOf(Contributions(terms, values, k)) <= TotalDegree(terms)
  {
    if terms != [] {
      var t := terms[0];
      var c := Contribution(t, values, k);
      assert ([c] + Contributions(terms[1..], values, k))[1..] == Contributions(terms[1..], values, k);
      ContributionsShape(terms[1..], values, k);
      ElementAtMostSum(t.powers, k);
      assert TermDegree(c) <= SumDegree(t);
    }
  }

  /** The key set of the projection is exactly the set of kept exponents, it
      is a dict, the coefficient at `e` sums the matching terms, and its
      degree does not exceed the total degree. */
  lemma ProjectionShape(terms: seq<Term>, values: seq<int>, k: nat)
    requires KeepIndexValid(terms, k)
    ensures IsDict(Projection(terms, values, k))
    ensures Keys(Projection(terms, values, k)) == KeptPowers(terms, k)
    ensures forall e :: Coeff(Projection(terms, values, k), e) == KeptCoeff(terms, values, k, e)
    ensures DegreeOf(Projection(terms, values, k)) <= TotalDegree(terms)
  {
    var cs := Contributions(terms, values, k);
    ContributionsShape(terms, values, k);
    UpsertAllIsDict([], cs);
    UpsertAllKeys([], cs);
    forall e {
      UpsertAllCoeff([], cs, e);
    }
    UpsertAllDegree([], cs);
    TotalDegreeIsMax(terms);
  }

  /** Projection correctness: the projected polynomial evaluated at `x` is the
      multivariate polynomial evaluated with `x` re-inserted at position `k`. */
  lemma ProjectionEval(terms: seq<Term>, values: seq<int>, k: nat)
    requires k <= |values| && KeepIndexValid(terms, k)
    ensures forall x :: Eval(Projection(terms, values, k), x) == EvalTerms(terms, Insert(values, k, x))
  {
    forall x
      ensures Eval(Projection(terms, values, k), x) == EvalTerms(terms, Insert(values, k, x))
    {
      UpsertAllEval([], Contributions(terms, values, k), x);
      ContributionsEval(terms, values, k, x);
    }
  }

  // ---------------------------------------------------------------------
  // Term order

  /** Kept exponents and kept coefficients of two term lists one after the other. */
  lemma {:induction false} KeptConcat(a: seq<Term>, b: seq<Term>, values: seq<int>, k: nat, e: nat)
    requires KeepIndexValid(a, k) && KeepIndexValid(b, k)
    ensures KeepIndexValid(a + b, k)
    ensures KeptPowers(a + b, k) == KeptPowers(a, k) + KeptPowers(b, k)
    ensures KeptCoeff(a + b, values, k, e) == KeptCoeff(a, values, k, e) + KeptCoeff(b, values, k, e)
    decreases |a|
  {
    if a == [] {
      assert a + b == b;
    } else {
      assert (a + b)[0] == a[0] && (a + b)[1..] == a[1..] + b;
      KeptConcat(a[1..], b, values, k, e);
    }
  }

  /** Every term of a reordering has the kept index. */
  lemma KeepIndexPermutation(a: seq<Term>, b: seq<Term>, k: nat)
    requires KeepIndexValid(a, k) && multiset(a) == multiset(b)
    ensures KeepIndexValid(b, k)
  {
    forall j | 0 <= j < |b|
      ensures k < |b[j].powers|
    {
      assert b[j] in multiset(a);
      var m :| 0 <= m < |a| && a[m] == b[j];
    }
  }

  /** Taking term `i` out of a list splits off its kept exponent and its
      share of the kept coefficient. */
  lemma KeptRemove(b: seq<Term>, i: nat, values: seq<int>, k: nat, e: nat)
    requires KeepIndexValid(b, k) && i < |b|
    ensures KeepIndexValid([b[i]], k) && KeepIndexValid(b[..i] + b[i + 1..], k)
    ensures KeptPowers(b, k) == KeptPowers([b[i]], k) + KeptPowers(b[..i] + b[i + 1..], k)
    ensures KeptCoeff(b, values, k, e) == KeptCoeff([b[i]], values, k, e) + KeptCoeff(b[..i] + b[i + 1..], values, k, e)
  {
    assert b == b[..i] + ([b[i]] + b[i + 1..]);
    KeptConcat([b[i]], b[i + 1..], values, k, e);
    KeptConcat(b[..i], [b[i]] + b[i + 1..], values, k, e);
    KeptConcat(b[..i], b[i + 1..], values, k, e);
  }

  /** Removing the same term from two reorderings leaves two reorderings. */
  lemma MultisetRemove(a: seq<Term>, b: seq<Term>, i: nat)
    requires multiset(a) == multiset(b) && 0 < |a| && i < |b| && b[i] == a[0]
    ensures multiset(a[1..]) == multiset(b[..i] + b[i + 1..])
  {
    assert b == b[..i] + [b[i]] + b[i + 1..];
    assert multiset(b) == multiset(b[..i]) + multiset([b[i]]) + multiset(b[i + 1..]);
    assert a == [a[0]] + a[1..];
    assert multiset(a) == multiset([a[0]]) + multiset(a[1..]);
    assert multiset(b[..i] + b[i + 1..]) == multiset(b[..i]) + multiset(b[i + 1..]);
    var one, left, right := multiset([a[0]]), multiset(a[1..]), multiset(b[..i] + b[i + 1..]);
    assert one + left == one + right;
    forall t ensures left[t] == right[t] {
      assert (one + left)[t] == (one + right)[t];
    }
  }

  /** Reordering the terms (the `sorted` call `to_univariate` makes first)
      changes neither the kept exponents nor the kept coefficients. */
  lemma {:induction false} KeptPermutation(a: seq<Term>, b: seq<Term>, values: seq<int>, k: nat, e: nat)
    requires KeepIndexValid(a, k) && multiset(a) == multiset(b)
    ensures KeepIndexValid(b, k)
    ensures KeptPowers(a, k) == KeptPowers(b, k)
    ensures KeptCoeff(a, values, k, e) == KeptCoeff(b, values, k, e)
    decreases |a|
  {
    KeepIndexPermutation(a, b, k);
    if a == [] {
      assert |b| == |multiset(b)| == 0;
    } else {
      assert a[0] in multiset(b);
      var i :| 0 <= i < |b| && b[i] == a[0];
      MultisetRemove(a, b, i);
      KeptRemove(b, i, values, k, e);
      KeptRemove(a, 0, values, k, e);
      assert a[..0] + a[1..] == a[1..];
      KeptPermutation(a[1..], b[..i] + b[i + 1..], values, k, e);
    }
  }

  /** Projecting any reordering of the terms gives the same dict: the
      keys and coefficients `to_univariate` returns do not depend on the
      order it visits the terms in. */
  lemma ProjectionPermutation(a: seq<Term>, b: seq<Term>, values: seq<int>, k: nat)
    requires KeepIndexValid(a, k) && multiset(a) == multiset(b)
    ensures KeepIndexValid(b, k)
    ensures ToMap(Projection(a, values, k)) == ToMap(Projection(b, values, k))
  {
    KeptPermutation(a, b, values, k, 0);
    ProjectionShape(a, values, k);
    ProjectionShape(b, values, k);
    forall e ensures Coeff(Projection(a, values, k), e) == Coeff(Projection(b, values, k), e) {
      KeptPermutation(a, b, values, k, e);
    }
    SameDict(Projection(a, values, k), Projection(b, values, k));
  }
}
