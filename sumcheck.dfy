/** The prover side of the sumcheck protocol (sumcheck.py): the claimed sum of
    the polynomial over the boolean hypercube, and, in round k (k challenges
    received), the univariate polynomial
      g_k(X) = sum over s in {0,1}^m of f(r_1, ..., r_k, X, s),  m = num_vars - 1 - k. */
module Sumcheck {
  import opened Numbers
  import opened Univariate
  import opened Multivariate
  import opened Hypercube

  // ---------------------------------------------------------------------
  // Specification functions

  /** The sum of the polynomial `terms` evaluated at `prefix + p` over the points `p`. */
  function SumOver(terms: seq<Term>, prefix: seq<int>, points: seq<seq<int>>): int
  {
    if points == [] then 0
    else EvalTerms(terms, prefix + points[0]) + SumOver(terms, prefix, points[1..])
  }

  /** The sum of `f` over all of `{0,1}^num_vars`. */
  function Claim(f: MultivariatePolynomial): int
  {
    SumOver(f.coefficients, [], Points(f.numVars))
  }

  /** What the round polynomial must be worth at `c` after the challenges `r`:
      the sum over the remaining hypercube with `c` in the next position. */
  function RoundSum(f: MultivariatePolynomial, r: seq<int>, c: int): int
    requires |r| < f.numVars
  {
    SumOver(f.coefficients, r + [c], Points(f.numVars - 1 - |r|))
  }

  /** The dict `{2: 0, 1: 0, 0: 0}` the accumulation starts from. */
  function Template(): seq<UniTerm>
  {
    [UniTerm(2, 0), UniTerm(1, 0), UniTerm(0, 0)]
  }

  /** The accumulation of the round loop: for each point `s`, in order,
      `acc := to_univariate(r + s, |r|).add(acc)`. */
  function RoundFold(terms: seq<Term>, r: seq<int>, points: seq<seq<int>>, acc: seq<UniTerm>): seq<UniTerm>
    requires KeepIndexValid(terms, |r|)
    decreases |points|
  {
    if points == [] then acc
    else RoundFold(terms, r, points[1..], AddSpec(Projection(terms, r + points[0], |r|), acc))
  }

  /** The coefficient dict `generate_univariate_poly_for_round_i` returns. */
  function RoundPolynomial(f: MultivariatePolynomial, r: seq<int>): seq<UniTerm>
    requires KeepIndexValid(f.coefficients, |r|) && |r| < f.numVars
  {
    RoundFold(f.coefficients, r, Points(f.numVars - 1 - |r|), Template())
  }

  // ---------------------------------------------------------------------
  // Sums over the hypercube

  lemma {:induction false} SumOverConcat(terms: seq<Term>, prefix: seq<int>, a: seq<seq<int>>, b: seq<seq<int>>)
    ensures SumOver(terms, prefix, a + b) == SumOver(terms, prefix, a) + SumOver(terms, prefix, b)
    decreases |a|
  {
    if a == [] {
      assert a + b == b;
    } else {
      assert (a + b)[1..] == a[1..] + b;
      SumOverConcat(terms, prefix, a[1..], b);
    }
  }

  lemma {:induction false} SumOverExtend(terms: seq<Term>, prefix: seq<int>, bit: int, points: seq<seq<int>>)
    ensures SumOver(terms, prefix, Extend([bit], points)) == SumOver(terms, prefix + [bit], points)
    decreases |points|
  {
    if points != [] {
      assert Extend([bit], points)[1..] == Extend([bit], points[1..]);
      assert prefix + ([bit] + points[0]) == prefix + [bit] + points[0];
      SumOverExtend(terms, prefix, bit, points[1..]);
    }
  }

  /** Summing over `{0,1}^(m+1)` is summing with the next variable at 0, then at 1. */
  lemma SumOverSplit(terms: seq<Term>, prefix: seq<int>, m: nat)
    ensures SumOver(terms, prefix, Points(m + 1)) ==
            SumOver(terms, prefix + [0], Points(m)) + SumOver(terms, prefix + [1], Points(m))
  {
    SumOverConcat(terms, prefix, Extend([0], Points(m)), Extend([1], Points(m)));
    SumOverExtend(terms, prefix, 0, Points(m));
    SumOverExtend(terms, prefix, 1, Points(m));
  }

  // ---------------------------------------------------------------------
  // The protocol identities

  /** g_1(0) + g_1(1) is the claimed hypercube sum. */
  lemma FirstRoundMatchesClaim(f: MultivariatePolynomial)
    requires f.numVars > 0
    ensures RoundSum(f, [], 0) + RoundSum(f, [], 1) == Claim(f)
  {
    SumOverSplit(f.coefficients, [], f.numVars - 1);
  }

  /** After the challenge c of round k: g_{k+1}(0) + g_{k+1}(1) == g_k(c). */
  lemma NextRoundMatchesPrevious(f: MultivariatePolynomial, r: seq<int>, c: int)
    requires |r| + 1 < f.numVars
    ensures RoundSum(f, r + [c], 0) + RoundSum(f, r + [c], 1) == RoundSum(f, r, c)
  {
    SumOverSplit(f.coefficients, r + [c], f.numVars - 2 - |r|);
  }

  /** In the last round no variable is left to sum over: g_n(c) == f(r ++ [c]). */
  lemma LastRoundMatchesEvaluation(f: MultivariatePolynomial, r: seq<int>, c: int)
    requires |r| + 1 == f.numVars
    ensures RoundSum(f, r, c) == EvalTerms(f.coefficients, r + [c])
  {
    SumOverNoVariables(f.coefficients, r + [c]);
  }

  /** `{0,1}^0` holds just the empty point. */
  lemma SumOverNoVariables(terms: seq<Term>, prefix: seq<int>)
    ensures SumOver(terms, prefix, Points(0)) == EvalTerms(terms, prefix)
  {
    var pts := Points(0);
    assert pts == [[]];
    assert pts[1..] == [];
    assert prefix + pts[0] == prefix;
  }

  // ---------------------------------------------------------------------
  // The round polynomial

  lemma TemplateFacts()
    ensures IsDict(Template())
    ensures Keys(Template()) == {0, 1, 2}
    ensures DegreeOf(Template()) == -1
    ensures forall c :: Eval(Template(), c) == 0
    ensures forall e :: Coeff(Template(), e) == 0
  {
    var t := Template();
    assert t[1..] == [UniTerm(1, 0), UniTerm(0, 0)];
    assert t[1..][1..] == [UniTerm(0, 0)];
    assert t[1..][1..][1..] == [];
    forall c
      ensures Eval(t, c) == 0
    {
      assert Eval(t[1..][1..], c) == 0 * Pow(c, 0) + Eval(t[1..][1..][1..], c);
      assert Eval(t[1..], c) == 0 * Pow(c, 1) + Eval(t[1..][1..], c);
      assert Eval(t, c) == 0 * Pow(c, 2) + Eval(t[1..], c);
    }
    forall e: nat
      ensures Coeff(t, e) == 0
    {
      assert Coeff(t[1..][1..], e) == Coeff(t[1..][1..][1..], e);
      assert Coeff(t[1..], e) == Coeff(t[1..][1..], e);
    }
  }

  lemma {:induction false} RoundFoldEval(terms: seq<Term>, r: seq<int>, points: seq<seq<int>>,
                                         acc: seq<UniTerm>, c: int)
    requires KeepIndexValid(terms, |r|)
    ensures Eval(RoundFold(terms, r, points, acc), c) == Eval(acc, c) + SumOver(terms, r + [c], points)
    decreases |points|
  {
    if points != [] {
      var values := r + points[0];
      var g := Projection(terms, values, |r|);
      ProjectionShape(terms, values, |r|);
      ProjectionEval(terms, values, |r|);
      AddPointwise(g, acc);
      assert Insert(values, |r|, c) == r + [c] + points[0];
      RoundFoldEval(terms, r, points[1..], AddSpec(g, acc), c);
    }
  }

  lemma {:induction false} RoundFoldShape(terms: seq<Term>, r: seq<int>, points: seq<seq<int>>, acc: seq<UniTerm>)
    requires KeepIndexValid(terms, |r|) && IsDict(acc)
    ensures IsDict(RoundFold(terms, r, points, acc))
    ensures Keys(RoundFold(terms, r, points, acc)) ==
            Keys(acc) + (if points == [] then {} else KeptPowers(terms, |r|))
    ensures DegreeOf(RoundFold(terms, r, points, acc)) <= Max(DegreeOf(acc), TotalDegree(terms))
    decreases |points|
  {
    if points != [] {
      var g := Projection(terms, r + points[0], |r|);
      ProjectionShape(terms, r + points[0], |r|);
      AddPointwise(g, acc);
      AddDegree(g, acc);
      RoundFoldShape(terms, r, points[1..], AddSpec(g, acc));
    }
  }

  /** The round loop starts from the template and runs over `{0,1}^m`. */
  lemma RoundPolynomialStart(f: MultivariatePolynomial, r: seq<int>, points: seq<seq<int>>)
    requires KeepIndexValid(f.coefficients, |r|) && |r| < f.numVars && points == Points(f.numVars - 1 - |r|)
    ensures RoundPolynomial(f, r) == RoundFold(f.coefficients, r, points, Template())
  {
  }

  /** The round polynomial evaluated at any `c` is `RoundSum(f, r, c)`. */
  lemma RoundPolynomialEval(f: MultivariatePolynomial, r: seq<int>)
    requires KeepIndexValid(f.coefficients, |r|) && |r| < f.numVars
    ensures forall c :: Eval(RoundPolynomial(f, r), c) == RoundSum(f, r, c)
  {
    var m := f.numVars - 1 - |r|;
    TemplateFacts();
    forall c
      ensures Eval(RoundPolynomial(f, r), c) == RoundSum(f, r, c)
    {
      RoundFoldEval(f.coefficients, r, Points(m), Template(), c);
    }
  }

  /** Folding from the template: its three keys survive, and the degree
      stays within the total degree of the terms. */
  lemma RoundFoldFromTemplate(terms: seq<Term>, r: seq<int>, points: seq<seq<int>>)
    requires KeepIndexValid(terms, |r|) && points != []
    ensures IsDict(RoundFold(terms, r, points, Template()))
    ensures Keys(RoundFold(terms, r, points, Template())) == {0, 1, 2} + KeptPowers(terms, |r|)
    ensures DegreeOf(RoundFold(terms, r, points, Template())) <= Max(-1, TotalDegree(terms))
  {
    TemplateFacts();
    RoundFoldShape(terms, r, points, Template());
  }

  /** The coefficient at power `e` the round loop gathers: the kept
      coefficients of the projections at `r + s`, summed over the points `s`. */
  function KeptCoeffOver(terms: seq<Term>, r: seq<int>, points: seq<seq<int>>, e: nat): int
    requires KeepIndexValid(terms, |r|)
  {
    if points == [] then 0
    else KeptCoeff(terms, r + points[0], |r|, e) + KeptCoeffOver(terms, r, points[1..], e)
  }

  lemma {:induction false} RoundFoldCoeff(terms: seq<Term>, r: seq<int>, points: seq<seq<int>>,
                                          acc: seq<UniTerm>, e: nat)
    requires KeepIndexValid(terms, |r|) && IsDict(acc)
    ensures Coeff(RoundFold(terms, r, points, acc), e) == Coeff(acc, e) + KeptCoeffOver(terms, r, points, e)
    decreases |points|
  {
    if points != [] {
      var g := Projection(terms, r + points[0], |r|);
      ProjectionShape(terms, r + points[0], |r|);
      AddPointwise(g, acc);
      RoundFoldCoeff(terms, r, points[1..], AddSpec(g, acc), e);
    }
  }

  /** Coefficient `e` of the round polynomial sums, over the remaining
      hypercube, the coefficients of the terms whose exponent of variable
      `|r|` is `e`, with the challenges and the point substituted. */
  lemma RoundPolynomialCoeff(f: MultivariatePolynomial, r: seq<int>)
    requires KeepIndexValid(f.coefficients, |r|) && |r| < f.numVars
    ensures forall e :: Coeff(RoundPolynomial(f, r), e) ==
                        KeptCoeffOver(f.coefficients, r, Points(f.numVars - 1 - |r|), e)
  {
    var pts := Points(f.numVars - 1 - |r|);
    RoundPolynomialStart(f, r, pts);
    TemplateFacts();
    forall e
      ensures Coeff(RoundFold(f.coefficients, r, pts, Template()), e) == KeptCoeffOver(f.coefficients, r, pts, e)
    {
      RoundFoldCoeff(f.coefficients, r, pts, Template(), e);
    }
  }

  /** The round polynomial is a dict whose keys are the template's 0, 1, 2
      plus every exponent of variable `|r|`, of degree at most that of `f`. */
  lemma RoundPolynomialShape(f: MultivariatePolynomial, r: seq<int>)
    requires f.Valid() && KeepIndexValid(f.coefficients, |r|) && |r| < f.numVars
    ensures IsDict(RoundPolynomial(f, r))
    ensures Keys(RoundPolynomial(f, r)) == {0, 1, 2} + KeptPowers(f.coefficients, |r|)
    ensures DegreeOf(RoundPolynomial(f, r)) <= f.degree
  {
    var m := f.numVars - 1 - |r|;
    PointsCount(m);
    PowTwoPositive(m);
    TotalDegreeIsMax(f.coefficients);
    RoundFoldFromTemplate(f.coefficients, r, Points(m));
  }

  // ---------------------------------------------------------------------
  // The prover

  class Prover {
    /** The polynomial being proven; set once, never replaced. */
    const poly: MultivariatePolynomial
    /** The challenges received so far, appended by the verifier. */
    var r: seq<int>

    constructor (poly: MultivariatePolynomial)
      ensures this.poly == poly && r == []
    {
      this.poly := poly;
      r := [];
    }

    /** The verifier's `prover.r.append(c)`: the only way a round advances. */
    method AppendChallenge(c: int)
      modifies this
      ensures r == old(r) + [c]
    {
      r := r + [c];
    }

    /** `build_sum_in_hypercube()`: the sum of `poly` over `{0,1}^num_vars`. */
    method BuildSumInHypercube() returns (sum: int)
      ensures sum == Claim(poly)
    {
      var combos := GenerateCombinations(poly.numVars);
      sum := 0;
      for i := 0 to |combos|
        invariant sum + SumOver(poly.coefficients, [], combos[i..]) == Claim(poly)
      {
        assert combos[i..][1..] == combos[i + 1..];
        assert [] + combos[i] == combos[i];
        var value := EvaluateMultivariate(poly, combos[i]);
        sum := sum + value;
      }
      assert combos[|combos|..] == [];
    }

    /** `generate_univariate_poly_for_round_i()`: the round polynomial for the
        challenges received so far; `r` and `poly` are left as they are. A key
        without an exponent for variable `len(r)` makes the first
        `to_univariate` call raise, here `Failure(IndexOutOfRange)`. */
    method GenerateUnivariatePolyForRound() returns (res: Result<UnivariatePolynomial>)
      requires poly.Valid() && |r| < poly.numVars
      ensures res.Failure? <==> !KeepIndexValid(poly.coefficients, |r|)
      ensures res.Failure? ==> res.error == IndexOutOfRange
      ensures res.Success? ==>
                && res.value.Valid()
                && res.value.coefficients == RoundPolynomial(poly, r)
                && (forall c :: Eval(res.value.coefficients, c) == RoundSum(poly, r, c))
                && Keys(res.value.coefficients) == {0, 1, 2} + KeptPowers(poly.coefficients, |r|)
                && res.value.degree <= poly.degree
    {
      TemplateFacts();
      var cumUnivariate := NewUnivariate(Template());
      var combos := GenerateCombinations(poly.numVars - 1 - |r|);
      if !KeepIndexValid(poly.coefficients, |r|) {
        PointsNonEmpty(poly.numVars - 1 - |r|);
        var first := ToUnivariate(poly, r + combos[0], |r|);
        return Failure(first.error);
      }
      RoundPolynomialStart(poly, r, combos);
      assert combos[0..] == combos;
      for i := 0 to |combos|
        invariant cumUnivariate.Valid()
        invariant RoundFold(poly.coefficients, r, combos[i..], cumUnivariate.coefficients) == RoundPolynomial(poly, r)
      {
        assert combos[i..][1..] == combos[i + 1..];
        cumUnivariate := AddProjection(poly, r, combos[i], cumUnivariate);
      }
      assert combos[|combos|..] == [];
      RoundPolynomialFacts(poly, r, cumUnivariate);
      return Success(cumUnivariate);
    }
  }

  /** What the round loop's result is worth, gathered for the prover. */
  lemma RoundPolynomialFacts(f: MultivariatePolynomial, r: seq<int>, g: UnivariatePolynomial)
    requires f.Valid() && KeepIndexValid(f.coefficients, |r|) && |r| < f.numVars
    requires g.Valid() && g.coefficients == RoundPolynomial(f, r)
    ensures forall c :: Eval(g.coefficients, c) == RoundSum(f, r, c)
    ensures Keys(g.coefficients) == {0, 1, 2} + KeptPowers(f.coefficients, |r|)
    ensures g.degree <= f.degree
  {
    RoundPolynomialEval(f, r);
    RoundPolynomialShape(f, r);
  }

  /** One step of the round loop: `to_univariate(r + point, len(r)).add(acc)`. */
  method AddProjection(f: MultivariatePolynomial, r: seq<int>, point: seq<int>, acc: UnivariatePolynomial)
    returns (next: UnivariatePolynomial)
    requires KeepIndexValid(f.coefficients, |r|) && acc.Valid()
    ensures next.Valid()
    ensures next.coefficients == AddSpec(Projection(f.coefficients, r + point, |r|), acc.coefficients)
  {
    var projected := ToUnivariate(f, r + point, |r|);
    next := Add(projected.value, acc);
  }

  // ---------------------------------------------------------------------
  // A whole honest run

  /** The exchange of the unit test, for any polynomial and any challenges:
      a fresh prover's claim and round polynomials pass every check the
      verifier makes. */
  method HonestTranscript(f: MultivariatePolynomial, challenges: seq<int>)
    returns (claim: int, rounds: seq<UnivariatePolynomial>)
    requires f.Valid() && f.UniformArity() && |challenges| == f.numVars
    ensures claim == Claim(f)
    ensures |rounds| == f.numVars
    ensures forall k :: 0 <= k < |rounds| ==> rounds[k].Valid() && rounds[k].degree <= f.degree
    ensures |rounds| > 0 ==> Eval(rounds[0].coefficients, 0) + Eval(rounds[0].coefficients, 1) == claim
    ensures forall k :: 0 <= k < |rounds| - 1 ==>
              Eval(rounds[k + 1].coefficients, 0) + Eval(rounds[k + 1].coefficients, 1) ==
              Eval(rounds[k].coefficients, challenges[k])
    ensures |rounds| > 0 ==>
              EvalTerms(f.coefficients, challenges) == Eval(rounds[|rounds| - 1].coefficients, challenges[|rounds| - 1])
    ensures |rounds| == 0 ==> EvalTerms(f.coefficients, challenges) == claim
  {
    var prover := new Prover(f);
    claim := prover.BuildSumInHypercube();
    rounds := [];
    for k := 0 to |challenges|
      invariant prover.r == challenges[..k]
      invariant |rounds| == k
      invariant forall j :: 0 <= j < k ==> rounds[j].Valid() && rounds[j].degree <= f.degree
      invariant HonestRounds(f, challenges, rounds)
    {
      rounds := PlayRound(prover, challenges, rounds);
    }
    TranscriptChecks(f, challenges, claim, rounds);
  }

  /** One round of the unit test's loop: the prover sends its round
      polynomial, then receives the next challenge. */
  method PlayRound(prover: Prover, challenges: seq<int>, rounds: seq<UnivariatePolynomial>)
    returns (next: seq<UnivariatePolynomial>)
    requires prover.poly.Valid() && prover.poly.UniformArity()
    requires |rounds| < |challenges| == prover.poly.numVars && prover.r == challenges[..|rounds|]
    requires HonestRounds(prover.poly, challenges, rounds)
    modifies prover
    ensures |next| == |rounds| + 1 && next[..|rounds|] == rounds && prover.r == challenges[..|next|]
    ensures next[|rounds|].Valid() && next[|rounds|].degree <= prover.poly.degree
    ensures HonestRounds(prover.poly, challenges, next)
  {
    var k := |rounds|;
    assert KeepIndexValid(prover.poly.coefficients, k);
    var res := prover.GenerateUnivariatePolyForRound();
    var g := res.value;
    HonestRoundsAppend(prover.poly, challenges, rounds, g);
    next := rounds + [g];
    prover.AppendChallenge(challenges[k]);
    assert challenges[..k] + [challenges[k]] == challenges[..k + 1];
    assert next[..k] == rounds;
  }

  /** Round `j + 1` sent a polynomial worth the round sum after the first `j` challenges. */
  ghost predicate HonestRounds(f: MultivariatePolynomial, challenges: seq<int>, rounds: seq<UnivariatePolynomial>)
    requires |rounds| <= |challenges| == f.numVars
  {
    forall j, c :: 0 <= j < |rounds| ==> Eval(rounds[j].coefficients, c) == RoundSum(f, challenges[..j], c)
  }

  lemma HonestRoundsAppend(f: MultivariatePolynomial, challenges: seq<int>, rounds: seq<UnivariatePolynomial>,
                           g: UnivariatePolynomial)
    requires |rounds| < |challenges| == f.numVars && HonestRounds(f, challenges, rounds)
    requires forall c :: Eval(g.coefficients, c) == RoundSum(f, challenges[..|rounds|], c)
    ensures HonestRounds(f, challenges, rounds + [g])
  {
    var next := rounds + [g];
    forall j, c | 0 <= j < |next|
      ensures Eval(next[j].coefficients, c) == RoundSum(f, challenges[..j], c)
    {
      if j < |rounds| {
        assert next[j] == rounds[j];
      }
    }
  }

  /** The verifier's first check passes on a polynomial worth the round sums. */
  lemma FirstCheck(f: MultivariatePolynomial, claim: int, g: seq<UniTerm>)
    requires f.numVars > 0 && claim == Claim(f)
    requires forall x :: Eval(g, x) == RoundSum(f, [], x)
    ensures Eval(g, 0) + Eval(g, 1) == claim
  {
    FirstRoundMatchesClaim(f);
    assert Eval(g, 0) == RoundSum(f, [], 0);
    assert Eval(g, 1) == RoundSum(f, [], 1);
  }

  /** The check between rounds passes: `h(0) + h(1) == g(c)`. */
  lemma ChainCheck(f: MultivariatePolynomial, r: seq<int>, c: int, g: seq<UniTerm>, h: seq<UniTerm>)
    requires |r| + 1 < f.numVars
    requires forall x :: Eval(g, x) == RoundSum(f, r, x)
    requires forall x :: Eval(h, x) == RoundSum(f, r + [c], x)
    ensures Eval(h, 0) + Eval(h, 1) == Eval(g, c)
  {
    NextRoundMatchesPrevious(f, r, c);
    assert Eval(g, c) == RoundSum(f, r, c);
    assert Eval(h, 0) == RoundSum(f, r + [c], 0);
    assert Eval(h, 1) == RoundSum(f, r + [c], 1);
  }

  /** The final check passes: `g(c)` is `f` evaluated at all the challenges. */
  lemma FinalCheck(f: MultivariatePolynomial, r: seq<int>, c: int, g: seq<UniTerm>)
    requires |r| + 1 == f.numVars
    requires forall x :: Eval(g, x) == RoundSum(f, r, x)
    ensures EvalTerms(f.coefficients, r + [c]) == Eval(g, c)
  {
    LastRoundMatchesEvaluation(f, r, c);
    assert Eval(g, c) == RoundSum(f, r, c);
  }

  /** With no variable there is no round: the claim is `f` at the empty point. */
  lemma NoRoundCheck(f: MultivariatePolynomial, challenges: seq<int>, claim: int)
    requires f.numVars == 0 && |challenges| == 0 && claim == Claim(f)
    ensures EvalTerms(f.coefficients, challenges) == claim
  {
    SumOverNoVariables(f.coefficients, []);
    assert challenges == [];
  }

  lemma ChainChecks(f: MultivariatePolynomial, challenges: seq<int>, rounds: seq<UnivariatePolynomial>)
    requires |challenges| == f.numVars && |rounds| == f.numVars
    requires HonestRounds(f, challenges, rounds)
    ensures forall k :: 0 <= k < |rounds| - 1 ==>
              Eval(rounds[k + 1].coefficients, 0) + Eval(rounds[k + 1].coefficients, 1) ==
              Eval(rounds[k].coefficients, challenges[k])
  {
    forall k | 0 <= k < |rounds| - 1
      ensures Eval(rounds[k + 1].coefficients, 0) + Eval(rounds[k + 1].coefficients, 1) ==
              Eval(rounds[k].coefficients, challenges[k])
    {
      assert challenges[..k + 1] == challenges[..k] + [challenges[k]];
      ChainCheck(f, challenges[..k], challenges[k], rounds[k].coefficients, rounds[k + 1].coefficients);
    }
  }

  /** The verifier's checks follow from what each round polynomial is worth. */
  lemma TranscriptChecks(f: MultivariatePolynomial, challenges: seq<int>, claim: int,
                         rounds: seq<UnivariatePolynomial>)
    requires |challenges| == f.numVars && |rounds| == f.numVars && claim == Claim(f)
    requires HonestRounds(f, challenges, rounds)
    ensures |rounds| > 0 ==> Eval(rounds[0].coefficients, 0) + Eval(rounds[0].coefficients, 1) == claim
    ensures forall k :: 0 <= k < |rounds| - 1 ==>
              Eval(rounds[k + 1].coefficients, 0) + Eval(rounds[k + 1].coefficients, 1) ==
              Eval(rounds[k].coefficients, challenges[k])
    ensures |rounds| > 0 ==>
              EvalTerms(f.coefficients, challenges) == Eval(rounds[|rounds| - 1].coefficients, challenges[|rounds| - 1])
    ensures |rounds| == 0 ==> EvalTerms(f.coefficients, challenges) == claim
  {
    var n := f.numVars;
    if n == 0 {
      NoRoundCheck(f, challenges, claim);
    } else {
      FirstRoundCheck(f, challenges, claim, rounds);
      ChainChecks(f, challenges, rounds);
      LastRoundCheck(f, challenges, rounds);
    }
  }

  lemma FirstRoundCheck(f: MultivariatePolynomial, challenges: seq<int>, claim: int,
                        rounds: seq<UnivariatePolynomial>)
    requires 0 < |rounds| <= |challenges| == f.numVars && claim == Claim(f)
    requires HonestRounds(f, challenges, rounds)
    ensures Eval(rounds[0].coefficients, 0) + Eval(rounds[0].coefficients, 1) == claim
  {
    assert challenges[..0] == [];
    FirstCheck(f, claim, rounds[0].coefficients);
  }

  lemma LastRoundCheck(f: MultivariatePolynomial, challenges: seq<int>, rounds: seq<UnivariatePolynomial>)
    requires 0 < |rounds| == |challenges| == f.numVars
    requires HonestRounds(f, challenges, rounds)
    ensures EvalTerms(f.coefficients, challenges) ==
            Eval(rounds[|rounds| - 1].coefficients, challenges[|rounds| - 1])
  {
    var n := |rounds|;
    var r := challenges[..n - 1];
    HonestRoundAt(f, challenges, rounds, n - 1);
    assert r + [challenges[n - 1]] == challenges;
    FinalCheck(f, r, challenges[n - 1], rounds[n - 1].coefficients);
  }

  /** Round `j + 1` of an honest transcript is worth the round sum at every point. */
  lemma HonestRoundAt(f: MultivariatePolynomial, challenges: seq<int>, rounds: seq<UnivariatePolynomial>, j: nat)
    requires j < |rounds| <= |challenges| == f.numVars
    requires HonestRounds(f, challenges, rounds)
    ensures forall x :: Eval(rounds[j].coefficients, x) == RoundSum(f, challenges[..j], x)
  {
  }
}
