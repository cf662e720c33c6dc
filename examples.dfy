/** The concrete cases of test.py, on the polynomial
    f(x, y, z) = x^2 + 2xy + 3y^2 + z. */
module Examples {
  import opened Numbers
  import opened Univariate
  import opened Multivariate
  import opened Hypercube
  import opened Sumcheck

  function F(): seq<Term>
  {
    [Term([2, 0, 0], 1), Term([1, 1, 0], 2), Term([0, 2, 0], 3), Term([0, 0, 1], 1)]
  }

  /** The value `MultivariatePolynomial(coeffs)` builds from that dict. */
  function Poly(): MultivariatePolynomial
  {
    MultivariatePolynomial(F(), 2, 3)
  }

  /** Keeping x with y = z = 5 gives x^2 + 10x + 80. */
  lemma ProjectionOnX()
    ensures Projection(F(), [5, 5], 0) == [UniTerm(2, 1), UniTerm(1, 10), UniTerm(0, 80)]
  {
    var c := [UniTerm(2, 1), UniTerm(1, 10), UniTerm(0, 75), UniTerm(0, 5)];
    ContributionsOnX();
    assert c[1..] == [UniTerm(1, 10), UniTerm(0, 75), UniTerm(0, 5)];
    assert c[1..][1..] == [UniTerm(0, 75), UniTerm(0, 5)];
    assert c[1..][1..][1..] == [UniTerm(0, 5)];
    var l1 := [UniTerm(2, 1)];
    var l2 := [UniTerm(2, 1), UniTerm(1, 10)];
    var l3 := [UniTerm(2, 1), UniTerm(1, 10), UniTerm(0, 75)];
    var l4 := [UniTerm(2, 1), UniTerm(1, 10), UniTerm(0, 80)];
    assert Upsert([], c[0]) == l1;
    assert Upsert(l1, c[1]) == l2;
    assert Upsert(l2, c[2]) == l3;
    assert l3[1..][1..] == [UniTerm(0, 75)];
    assert Upsert(l3, c[3]) == l4;
    assert UpsertAll(l4, []) == l4;
    assert UpsertAll(l3, c[1..][1..][1..]) == l4;
    assert UpsertAll(l2, c[1..][1..]) == l4;
    assert UpsertAll(l1, c[1..]) == l4;
  }

  lemma ContributionsOnX()
    ensures Contributions(F(), [5, 5], 0) == [UniTerm(2, 1), UniTerm(1, 10), UniTerm(0, 75), UniTerm(0, 5)]
  {
    var f := F();
    var v := [5, 5];
    assert f[1..] == [Term([1, 1, 0], 2), Term([0, 2, 0], 3), Term([0, 0, 1], 1)];
    assert f[1..][1..] == [Term([0, 2, 0], 3), Term([0, 0, 1], 1)];
    assert f[1..][1..][1..] == [Term([0, 0, 1], 1)];
    MonoOfTwo(0, 0, 5, 5);
    MonoOfTwo(1, 0, 5, 5);
    MonoOfTwo(2, 0, 5, 5);
    MonoOfTwo(0, 1, 5, 5);
    SmallPowers();
    assert Contribution(f[0], v, 0) == UniTerm(2, 1);
    assert Contribution(f[1], v, 0) == UniTerm(1, 10);
    assert Contribution(f[2], v, 0) == UniTerm(0, 75);
    assert Contribution(f[3], v, 0) == UniTerm(0, 5);
  }

  /** Keeping y with x = z = 5 gives 3y^2 + 10y + 30; without the descending
      sort of to_univariate the keys come in the order the terms do. */
  lemma ProjectionOnY()
    ensures Projection(F(), [5, 5], 1) == [UniTerm(0, 30), UniTerm(1, 10), UniTerm(2, 3)]
  {
    var c := [UniTerm(0, 25), UniTerm(1, 10), UniTerm(2, 3), UniTerm(0, 5)];
    ContributionsOnY();
    assert c[1..] == [UniTerm(1, 10), UniTerm(2, 3), UniTerm(0, 5)];
    assert c[1..][1..] == [UniTerm(2, 3), UniTerm(0, 5)];
    assert c[1..][1..][1..] == [UniTerm(0, 5)];
    var l1 := [UniTerm(0, 25)];
    var l2 := [UniTerm(0, 25), UniTerm(1, 10)];
    var l3 := [UniTerm(0, 25), UniTerm(1, 10), UniTerm(2, 3)];
    var l4 := [UniTerm(0, 30), UniTerm(1, 10), UniTerm(2, 3)];
    assert Upsert([], c[0]) == l1;
    assert Upsert(l1, c[1]) == l2;
    assert Upsert(l2, c[2]) == l3;
    assert Upsert(l3, c[3]) == l4;
    assert UpsertAll(l4, []) == l4;
    assert UpsertAll(l3, c[1..][1..][1..]) == l4;
    assert UpsertAll(l2, c[1..][1..]) == l4;
    assert UpsertAll(l1, c[1..]) == l4;
  }

  lemma ContributionsOnY()
    ensures Contributions(F(), [5, 5], 1) == [UniTerm(0, 25), UniTerm(1, 10), UniTerm(2, 3), UniTerm(0, 5)]
  {
    var f := F();
    var v := [5, 5];
    assert f[1..] == [Term([1, 1, 0], 2), Term([0, 2, 0], 3), Term([0, 0, 1], 1)];
    assert f[1..][1..] == [Term([0, 2, 0], 3), Term([0, 0, 1], 1)];
    assert f[1..][1..][1..] == [Term([0, 0, 1], 1)];
    MonoOfTwo(2, 0, 5, 5);
    MonoOfTwo(1, 0, 5, 5);
    MonoOfTwo(0, 0, 5, 5);
    MonoOfTwo(0, 1, 5, 5);
    SmallPowers();
    assert Contribution(f[0], v, 1) == UniTerm(0, 25);
    assert Contribution(f[1], v, 1) == UniTerm(1, 10);
    assert Contribution(f[2], v, 1) == UniTerm(2, 3);
    assert Contribution(f[3], v, 1) == UniTerm(0, 5);
  }

  /** {2: 1, 1: 10, 0: 80} plus {2: 2, 1: 20, 0: 160} is {2: 3, 1: 30, 0: 240}. */
  lemma Addition()
    ensures AddSpec([UniTerm(2, 1), UniTerm(1, 10), UniTerm(0, 80)], [UniTerm(2, 2), UniTerm(1, 20), UniTerm(0, 160)])
            == [UniTerm(2, 3), UniTerm(1, 30), UniTerm(0, 240)]
  {
    var p := [UniTerm(2, 1), UniTerm(1, 10), UniTerm(0, 80)];
    var q := [UniTerm(2, 2), UniTerm(1, 20), UniTerm(0, 160)];
    assert p[1..] == [UniTerm(1, 10), UniTerm(0, 80)] && p[1..][1..] == [UniTerm(0, 80)] && p[1..][1..][1..] == [];
    assert q[1..] == [UniTerm(1, 20), UniTerm(0, 160)] && q[1..][1..] == [UniTerm(0, 160)] && q[1..][1..][1..] == [];
    assert Assign([], p[0]) == [p[0]];
    assert [p[0]][1..] == [] && [p[0], p[1]][1..] == [p[1]] && [p[1]][1..] == [];
    assert Assign([p[0]], p[1]) == [p[0], p[1]];
    assert Assign([p[1]], p[2]) == [p[1], p[2]];
    assert Assign([p[0], p[1]], p[2]) == p;
    assert AssignAll([], p) == p;
    var s1 := [UniTerm(2, 3), UniTerm(1, 10), UniTerm(0, 80)];
    var s2 := [UniTerm(2, 3), UniTerm(1, 30), UniTerm(0, 80)];
    var s3 := [UniTerm(2, 3), UniTerm(1, 30), UniTerm(0, 240)];
    assert Upsert(p, q[0]) == s1;
    assert s1[1..] == [UniTerm(1, 10), UniTerm(0, 80)];
    assert Upsert(s1, q[1]) == s2;
    assert s2[1..] == [UniTerm(1, 30), UniTerm(0, 80)] && s2[1..][1..] == [UniTerm(0, 80)];
    assert Upsert(s2, q[2]) == s3;
  }

  /** generate_combinations(1) and generate_combinations(2). */
  lemma TwoBitPoints()
    ensures Points(0) == [[]]
    ensures Points(1) == [[0], [1]]
    ensures Points(2) == [[0, 0], [0, 1], [1, 0], [1, 1]]
  {
    var p0: seq<seq<int>> := [[]];
    assert Points(0) == p0;
    assert [0] + [] == [0] && [1] + [] == [1];
    ExtendOne(0, []);
    ExtendOne(1, []);
    var p1: seq<seq<int>> := [[0], [1]];
    assert Points(1) == p1;
    ExtendTwo(0, [0], [1]);
    ExtendTwo(1, [0], [1]);
    assert [0] + [0] == [0, 0] && [0] + [1] == [0, 1] && [1] + [0] == [1, 0] && [1] + [1] == [1, 1];
  }

  /** generate_combinations(3): the eight points of {0,1}^3 in counting order. */
  lemma ThreeBitPoints()
    ensures Points(3) == [[0, 0, 0], [0, 0, 1], [0, 1, 0], [0, 1, 1],
                          [1, 0, 0], [1, 0, 1], [1, 1, 0], [1, 1, 1]]
  {
    var p2: seq<seq<int>> := [[0, 0], [0, 1], [1, 0], [1, 1]];
    TwoBitPoints();
    ExtendFour(0, p2);
    ExtendFour(1, p2);
    assert [0] + [0, 0] == [0, 0, 0] && [0] + [0, 1] == [0, 0, 1] && [0] + [1, 0] == [0, 1, 0] && [0] + [1, 1] == [0, 1, 1];
    assert [1] + [0, 0] == [1, 0, 0] && [1] + [0, 1] == [1, 0, 1] && [1] + [1, 0] == [1, 1, 0] && [1] + [1, 1] == [1, 1, 1];
  }

  lemma ExtendOne(b: int, x: seq<int>)
    ensures Extend([b], [x]) == [[b] + x]
  {
  }

  lemma ExtendTwo(b: int, x: seq<int>, y: seq<int>)
    ensures Extend([b], [x, y]) == [[b] + x, [b] + y]
  {
  }

  lemma ExtendFour(b: int, p: seq<seq<int>>)
    requires |p| == 4
    ensures Extend([b], p) == [[b] + p[0], [b] + p[1], [b] + p[2], [b] + p[3]]
  {
  }

  /** f has degree 2 and 3 variables, and f(0, 5, 5) == 80. */
  lemma DegreeAndValue()
    ensures TotalDegree(F()) == 2
    ensures Poly().Valid() && Poly().UniformArity() && Poly().degree == 2 && Poly().numVars == 3
    ensures EvalTerms(F(), [0, 5, 5]) == 80
  {
    var f := F();
    assert f[1..] == [Term([1, 1, 0], 2), Term([0, 2, 0], 3), Term([0, 0, 1], 1)];
    assert f[1..][1..] == [Term([0, 2, 0], 3), Term([0, 0, 1], 1)];
    assert f[1..][1..][1..] == [Term([0, 0, 1], 1)];
    assert f[1..][1..][1..][1..] == [];
    MonoOfThree(2, 0, 0, 0, 5, 5);
    MonoOfThree(1, 1, 0, 0, 5, 5);
    MonoOfThree(0, 2, 0, 0, 5, 5);
    MonoOfThree(0, 0, 1, 0, 5, 5);
    SmallPowers();
    SumOfThree(2, 0, 0);
    SumOfThree(1, 1, 0);
    SumOfThree(0, 2, 0);
    SumOfThree(0, 0, 1);
  }

  lemma MonoOfThree(p: nat, q: nat, t: nat, a: int, b: int, c: int)
    ensures Mono([p, q, t], [a, b, c]) == Pow(a, p) * (Pow(b, q) * Pow(c, t))
  {
    var ps: seq<nat> := [p, q, t];
    var vs: seq<int> := [a, b, c];
    assert ps[1..] == [q, t] && vs[1..] == [b, c];
    MonoOfTwo(q, t, b, c);
  }

  lemma SumOfThree(a: nat, b: nat, c: nat)
    ensures Sum([a, b, c]) == a + b + c
  {
    var ps: seq<nat> := [a, b, c];
    assert ps[1..] == [b, c] && ps[1..][1..] == [c] && ps[1..][1..][1..] == [];
    assert Sum([c]) == c;
    assert Sum([b, c]) == b + c;
  }

  lemma MonoOfTwo(p: nat, q: nat, a: int, b: int)
    ensures Mono([p, q], [a, b]) == Pow(a, p) * Pow(b, q)
  {
    var ps: seq<nat> := [p, q];
    var vs: seq<int> := [a, b];
    assert ps[1..] == [q] && vs[1..] == [b];
    assert [q][1..] == [] && [b][1..] == [];
    var pb := Pow(b, q);
    assert Mono([q], [b]) == pb * Mono([], []);
    assert Mono([q], [b]) == pb;
    assert Mono(ps, vs) == Pow(a, p) * Mono([q], [b]);
  }

  lemma SmallPowers()
    ensures Pow(5, 0) == 1 && Pow(5, 1) == 5 && Pow(5, 2) == 25
    ensures Pow(0, 0) == 1 && Pow(0, 1) == 0 && Pow(0, 2) == 0
  {
  }

  // ---------------------------------------------------------------------
  // The protocol run of test_sumcheck

  /** f(a, b, c) == a^2 + 2ab + 3b^2 + c. */
  lemma EvalF(a: int, b: int, c: int)
    ensures EvalTerms(F(), [a, b, c]) == a * a + 2 * a * b + 3 * b * b + c
  {
    var f := F();
    var v := [a, b, c];
    assert f[1..] == [Term([1, 1, 0], 2), Term([0, 2, 0], 3), Term([0, 0, 1], 1)];
    assert f[1..][1..] == [Term([0, 2, 0], 3), Term([0, 0, 1], 1)];
    assert f[1..][1..][1..] == [Term([0, 0, 1], 1)];
    assert f[1..][1..][1..][1..] == [];
    MonoOfThree(2, 0, 0, a, b, c);
    MonoOfThree(1, 1, 0, a, b, c);
    MonoOfThree(0, 2, 0, a, b, c);
    MonoOfThree(0, 0, 1, a, b, c);
    PowSmall(a);
    PowSmall(b);
    PowSmall(c);
    assert Mono([2, 0, 0], v) == a * a;
    assert Mono([1, 1, 0], v) == a * b;
    assert Mono([0, 2, 0], v) == b * b;
    assert Mono([0, 0, 1], v) == c;
    assert EvalTerms(f[1..][1..][1..], v) == 1 * c + EvalTerms(f[1..][1..][1..][1..], v);
    assert EvalTerms(f[1..][1..], v) == 3 * (b * b) + c;
    assert EvalTerms(f[1..], v) == 2 * (a * b) + 3 * (b * b) + c;
    assert EvalTerms(f, v) == 1 * (a * a) + 2 * (a * b) + 3 * (b * b) + c;
  }

  lemma PowSmall(x: int)
    ensures Pow(x, 0) == 1 && Pow(x, 1) == x && Pow(x, 2) == x * x
  {
    assert Pow(x, 1) == x * Pow(x, 0);
    assert Pow(x, 2) == x * Pow(x, 1);
  }

  lemma SumOverOneBit(terms: seq<Term>, prefix: seq<int>)
    ensures SumOver(terms, prefix, Points(1)) == EvalTerms(terms, prefix + [0]) + EvalTerms(terms, prefix + [1])
  {
    SumOverSplit(terms, prefix, 0);
    SumOverNoVariables(terms, prefix + [0]);
    SumOverNoVariables(terms, prefix + [1]);
  }

  lemma SumOverTwoBits(terms: seq<Term>, prefix: seq<int>)
    ensures SumOver(terms, prefix, Points(2)) ==
            EvalTerms(terms, prefix + [0, 0]) + EvalTerms(terms, prefix + [0, 1]) +
            EvalTerms(terms, prefix + [1, 0]) + EvalTerms(terms, prefix + [1, 1])
  {
    SumOverSplit(terms, prefix, 1);
    SumOverOneBit(terms, prefix + [0]);
    SumOverOneBit(terms, prefix + [1]);
    assert prefix + [0] + [0] == prefix + [0, 0] && prefix + [0] + [1] == prefix + [0, 1];
    assert prefix + [1] + [0] == prefix + [1, 0] && prefix + [1] + [1] == prefix + [1, 1];
  }

  /** The claimed sum over {0,1}^3 is 0 + 1 + 3 + 4 + 1 + 2 + 6 + 7 == 24,
      that is f1(0) + f1(1) == 8 + 16. */
  lemma ClaimIs24()
    ensures Claim(Poly()) == 24
  {
    FirstRoundMatchesClaim(Poly());
    FirstRoundSum(0);
    FirstRoundSum(1);
  }

  /** Round 1 is worth f1(X) = 4X^2 + 4X + 8 at every X. */
  lemma FirstRoundSum(x: int)
    ensures RoundSum(Poly(), [], x) == 4 * x * x + 4 * x + 8
  {
    assert [] + [x] == [x];
    SumOverTwoBits(F(), [x]);
    assert [x] + [0, 0] == [x, 0, 0] && [x] + [0, 1] == [x, 0, 1] && [x] + [1, 0] == [x, 1, 0] && [x] + [1, 1] == [x, 1, 1];
    EvalF(x, 0, 0);
    EvalF(x, 0, 1);
    EvalF(x, 1, 0);
    EvalF(x, 1, 1);
  }

  /** After challenge r1, round 2 is worth f2(X) = 6X^2 + 4 r1 X + 2 r1^2 + 1. */
  lemma SecondRoundSum(r1: int, x: int)
    ensures RoundSum(Poly(), [r1], x) == 6 * x * x + 4 * r1 * x + 2 * r1 * r1 + 1
  {
    SumOverOneBit(F(), [r1, x]);
    assert [r1] + [x] == [r1, x];
    assert [r1, x] + [0] == [r1, x, 0] && [r1, x] + [1] == [r1, x, 1];
    EvalF(r1, x, 0);
    EvalF(r1, x, 1);
  }

  /** After r1 and r2, round 3 is worth f3(X) = X + 3 r2^2 + r1^2 + 2 r1 r2. */
  lemma ThirdRoundSum(r1: int, r2: int, x: int)
    ensures RoundSum(Poly(), [r1, r2], x) == x + 3 * r2 * r2 + r1 * r1 + 2 * r1 * r2
  {
    assert [r1, r2] + [x] == [r1, r2, x];
    SumOverNoVariables(F(), [r1, r2, x]);
    EvalF(r1, r2, x);
  }

  // The coefficient dicts of the three rounds

  /** The exponents of x, of y and of z that occur in f. */
  lemma KeptPowersOfF()
    ensures KeptPowers(F(), 0) == {0, 1, 2}
    ensures KeptPowers(F(), 1) == {0, 1, 2}
    ensures KeptPowers(F(), 2) == {0, 1}
  {
    var f := F();
    assert f[1..] == [Term([1, 1, 0], 2), Term([0, 2, 0], 3), Term([0, 0, 1], 1)];
    assert f[1..][1..] == [Term([0, 2, 0], 3), Term([0, 0, 1], 1)];
    assert f[1..][1..][1..] == [Term([0, 0, 1], 1)];
    assert f[1..][1..][1..][1..] == [];
  }

  /** What term `t` adds to the coefficient of the kept variable's `e`-th power. */
  function TermPart(t: Term, v: seq<int>, k: nat, e: nat): int
    requires k < |t.powers|
  {
    if t.powers[k] == e then t.coeff * Mono(Drop(t.powers, k), v) else 0
  }

  /** `KeptCoeff` over the four terms of f, term by term. */
  lemma KeptCoeffOfF(v: seq<int>, k: nat, e: nat)
    requires k < 3
    ensures KeptCoeff(F(), v, k, e) ==
            TermPart(F()[0], v, k, e) + TermPart(F()[1], v, k, e) + TermPart(F()[2], v, k, e) + TermPart(F()[3], v, k, e)
  {
    var f := F();
    assert f[1..] == [Term([1, 1, 0], 2), Term([0, 2, 0], 3), Term([0, 0, 1], 1)];
    assert f[1..][1..] == [Term([0, 2, 0], 3), Term([0, 0, 1], 1)];
    assert f[1..][1..][1..] == [Term([0, 0, 1], 1)];
    assert f[1..][1..][1..][1..] == [];
    var k3 := KeptCoeff(f[1..][1..][1..], v, k, e);
    assert k3 == TermPart(f[3], v, k, e) + KeptCoeff(f[1..][1..][1..][1..], v, k, e);
    var k2 := KeptCoeff(f[1..][1..], v, k, e);
    assert k2 == TermPart(f[2], v, k, e) + k3;
    var k1 := KeptCoeff(f[1..], v, k, e);
    assert k1 == TermPart(f[1], v, k, e) + k2;
  }

  /** Keeping x: the coefficient of x^e once y and z are substituted by a and b. */
  lemma KeptCoeffOnX(a: int, b: int, e: nat)
    ensures KeptCoeff(F(), [a, b], 0, e) ==
            (if e == 2 then 1 else 0) + (if e == 1 then 2 * a else 0) + (if e == 0 then 3 * (a * a) + b else 0)
  {
    var f := F();
    var v := [a, b];
    KeptCoeffOfF(v, 0, e);
    assert Drop([2, 0, 0], 0) == [0, 0] && Drop([1, 1, 0], 0) == [1, 0];
    assert Drop([0, 2, 0], 0) == [2, 0] && Drop([0, 0, 1], 0) == [0, 1];
    MonoOfTwo(0, 0, a, b);
    MonoOfTwo(1, 0, a, b);
    MonoOfTwo(2, 0, a, b);
    MonoOfTwo(0, 1, a, b);
    PowSmall(a);
    PowSmall(b);
    assert Mono([0, 0], v) == 1 && Mono([1, 0], v) == a && Mono([2, 0], v) == a * a && Mono([0, 1], v) == b;
    assert TermPart(f[0], v, 0, e) == (if e == 2 then 1 else 0);
    assert TermPart(f[1], v, 0, e) == (if e == 1 then 2 * a else 0);
    assert TermPart(f[2], v, 0, e) == (if e == 0 then 3 * (a * a) else 0);
    assert TermPart(f[3], v, 0, e) == (if e == 0 then b else 0);
  }

  /** Keeping y: the coefficient of y^e once x and z are substituted by a and b. */
  lemma KeptCoeffOnY(a: int, b: int, e: nat)
    ensures KeptCoeff(F(), [a, b], 1, e) ==
            (if e == 2 then 3 else 0) + (if e == 1 then 2 * a else 0) + (if e == 0 then a * a + b else 0)
  {
    var f := F();
    var v := [a, b];
    KeptCoeffOfF(v, 1, e);
    assert Drop([2, 0, 0], 1) == [2, 0] && Drop([1, 1, 0], 1) == [1, 0];
    assert Drop([0, 2, 0], 1) == [0, 0] && Drop([0, 0, 1], 1) == [0, 1];
    MonoOfTwo(2, 0, a, b);
    MonoOfTwo(1, 0, a, b);
    MonoOfTwo(0, 0, a, b);
    MonoOfTwo(0, 1, a, b);
    PowSmall(a);
    PowSmall(b);
    assert Mono([2, 0], v) == a * a && Mono([1, 0], v) == a && Mono([0, 0], v) == 1 && Mono([0, 1], v) == b;
    assert TermPart(f[0], v, 1, e) == (if e == 0 then a * a else 0);
    assert TermPart(f[1], v, 1, e) == (if e == 1 then 2 * a else 0);
    assert TermPart(f[2], v, 1, e) == (if e == 2 then 3 else 0);
    assert TermPart(f[3], v, 1, e) == (if e == 0 then b else 0);
  }

  /** Keeping z: the coefficient of z^e once x and y are substituted by a and b. */
  lemma KeptCoeffOnZ(a: int, b: int, e: nat)
    ensures KeptCoeff(F(), [a, b], 2, e) ==
            (if e == 1 then 1 else 0) + (if e == 0 then a * a + 2 * a * b + 3 * b * b else 0)
  {
    var f := F();
    var v := [a, b];
    KeptCoeffOfF(v, 2, e);
    assert Drop([2, 0, 0], 2) == [2, 0] && Drop([1, 1, 0], 2) == [1, 1];
    assert Drop([0, 2, 0], 2) == [0, 2] && Drop([0, 0, 1], 2) == [0, 0];
    MonoOfTwo(2, 0, a, b);
    MonoOfTwo(1, 1, a, b);
    MonoOfTwo(0, 2, a, b);
    MonoOfTwo(0, 0, a, b);
    PowSmall(a);
    PowSmall(b);
    assert Mono([2, 0], v) == a * a && Mono([1, 1], v) == a * b && Mono([0, 2], v) == b * b && Mono([0, 0], v) == 1;
    assert TermPart(f[0], v, 2, e) == (if e == 0 then a * a else 0);
    assert TermPart(f[1], v, 2, e) == (if e == 0 then 2 * (a * b) else 0);
    assert TermPart(f[2], v, 2, e) == (if e == 0 then 3 * (b * b) else 0);
    assert TermPart(f[3], v, 2, e) == (if e == 1 then 1 else 0);
  }

  lemma KeptCoeffOverTwoBits(terms: seq<Term>, r: seq<int>, e: nat)
    requires KeepIndexValid(terms, |r|)
    ensures KeptCoeffOver(terms, r, Points(2), e) ==
            KeptCoeff(terms, r + [0, 0], |r|, e) + KeptCoeff(terms, r + [0, 1], |r|, e) +
            KeptCoeff(terms, r + [1, 0], |r|, e) + KeptCoeff(terms, r + [1, 1], |r|, e)
  {
    TwoBitPoints();
    var pts := Points(2);
    assert pts[1..] == [[0, 1], [1, 0], [1, 1]];
    assert pts[1..][1..] == [[1, 0], [1, 1]];
    assert pts[1..][1..][1..] == [[1, 1]];
    assert pts[1..][1..][1..][1..] == [];
    var c3 := KeptCoeffOver(terms, r, pts[1..][1..][1..], e);
    assert c3 == KeptCoeff(terms, r + [1, 1], |r|, e) + KeptCoeffOver(terms, r, pts[1..][1..][1..][1..], e);
    var c2 := KeptCoeffOver(terms, r, pts[1..][1..], e);
    assert c2 == KeptCoeff(terms, r + [1, 0], |r|, e) + c3;
    var c1 := KeptCoeffOver(terms, r, pts[1..], e);
    assert c1 == KeptCoeff(terms, r + [0, 1], |r|, e) + c2;
    assert KeptCoeffOver(terms, r, pts, e) == KeptCoeff(terms, r + [0, 0], |r|, e) + c1;
  }

  lemma KeptCoeffOverOneBit(terms: seq<Term>, r: seq<int>, e: nat)
    requires KeepIndexValid(terms, |r|)
    ensures KeptCoeffOver(terms, r, Points(1), e) ==
            KeptCoeff(terms, r + [0], |r|, e) + KeptCoeff(terms, r + [1], |r|, e)
  {
    TwoBitPoints();
    var pts := Points(1);
    assert pts[1..] == [[1]];
    assert pts[1..][1..] == [];
    var c1 := KeptCoeffOver(terms, r, pts[1..], e);
    assert c1 == KeptCoeff(terms, r + [1], |r|, e) + KeptCoeffOver(terms, r, pts[1..][1..], e);
    assert KeptCoeffOver(terms, r, pts, e) == KeptCoeff(terms, r + [0], |r|, e) + c1;
  }

  /** A round polynomial whose kept exponents lie in {0, 1, 2} is, as a
      dict, given by its three coefficients. */
  lemma RoundDict(f: MultivariatePolynomial, r: seq<int>, c0: int, c1: int, c2: int)
    requires f.Valid() && KeepIndexValid(f.coefficients, |r|) && |r| < f.numVars
    requires KeptPowers(f.coefficients, |r|) <= {0, 1, 2}
    requires KeptCoeffOver(f.coefficients, r, Points(f.numVars - 1 - |r|), 0) == c0
    requires KeptCoeffOver(f.coefficients, r, Points(f.numVars - 1 - |r|), 1) == c1
    requires KeptCoeffOver(f.coefficients, r, Points(f.numVars - 1 - |r|), 2) == c2
    ensures ToMap(RoundPolynomial(f, r)) == map[2 := c2, 1 := c1, 0 := c0]
  {
    var g := RoundPolynomial(f, r);
    RoundPolynomialShape(f, r);
    RoundPolynomialCoeff(f, r);
    DictOfThree(g, c0, c1, c2);
  }

  /** A dict with keys 0, 1, 2 is given by its three coefficients. */
  lemma DictOfThree(g: seq<UniTerm>, c0: int, c1: int, c2: int)
    requires Keys(g) == {0, 1, 2}
    requires Coeff(g, 0) == c0 && Coeff(g, 1) == c1 && Coeff(g, 2) == c2
    ensures ToMap(g) == map[2 := c2, 1 := c1, 0 := c0]
  {
    var d := ToMap(g);
    var m := map[2 := c2, 1 := c1, 0 := c0];
    assert d.Keys == {0, 1, 2} == m.Keys;
    assert d[0] == c0 && d[1] == c1 && d[2] == c2;
  }

  /** f1 = {2: 4, 1: 4, 0: 8}, as a dict. */
  lemma FirstRoundPolynomial()
    ensures ToMap(RoundPolynomial(Poly(), [])) == map[2 := 4, 1 := 4, 0 := 8]
  {
    DegreeAndValue();
    KeptPowersOfF();
    FirstRoundCoeff(0);
    FirstRoundCoeff(1);
    FirstRoundCoeff(2);
    RoundDict(Poly(), [], 8, 4, 4);
  }

  lemma FirstRoundCoeff(e: nat)
    ensures KeptCoeffOver(F(), [], Points(2), e) ==
            (if e == 2 then 4 else 0) + (if e == 1 then 4 else 0) + (if e == 0 then 8 else 0)
  {
    assert KeepIndexValid(F(), 0);
    assert [] + [0, 0] == [0, 0] && [] + [0, 1] == [0, 1] && [] + [1, 0] == [1, 0] && [] + [1, 1] == [1, 1];
    KeptCoeffOverTwoBits(F(), [], e);
    KeptCoeffOnX(0, 0, e);
    KeptCoeffOnX(0, 1, e);
    KeptCoeffOnX(1, 0, e);
    KeptCoeffOnX(1, 1, e);
  }

  /** f2 = {2: 6, 1: 4 r1, 0: 2 r1^2 + 1}, as a dict. */
  lemma SecondRoundPolynomial(r1: int)
    ensures ToMap(RoundPolynomial(Poly(), [r1])) == map[2 := 6, 1 := 4 * r1, 0 := 2 * r1 * r1 + 1]
  {
    DegreeAndValue();
    KeptPowersOfF();
    SecondRoundCoeff(r1, 0);
    SecondRoundCoeff(r1, 1);
    SecondRoundCoeff(r1, 2);
    RoundDict(Poly(), [r1], 2 * r1 * r1 + 1, 4 * r1, 6);
  }

  lemma SecondRoundCoeff(r1: int, e: nat)
    ensures KeptCoeffOver(F(), [r1], Points(1), e) ==
            (if e == 2 then 6 else 0) + (if e == 1 then 4 * r1 else 0) + (if e == 0 then 2 * r1 * r1 + 1 else 0)
  {
    assert KeepIndexValid(F(), 1);
    assert [r1] + [0] == [r1, 0] && [r1] + [1] == [r1, 1];
    KeptCoeffOverOneBit(F(), [r1], e);
    KeptCoeffOnY(r1, 0, e);
    KeptCoeffOnY(r1, 1, e);
  }

  /** f3 = {2: 0, 1: 1, 0: 3 r2^2 + r1^2 + 2 r1 r2}, as a dict. */
  lemma ThirdRoundPolynomial(r1: int, r2: int)
    ensures ToMap(RoundPolynomial(Poly(), [r1, r2])) == map[2 := 0, 1 := 1, 0 := 3 * r2 * r2 + r1 * r1 + 2 * r1 * r2]
  {
    DegreeAndValue();
    KeptPowersOfF();
    ThirdRoundCoeff(r1, r2, 0);
    ThirdRoundCoeff(r1, r2, 1);
    ThirdRoundCoeff(r1, r2, 2);
    RoundDict(Poly(), [r1, r2], 3 * r2 * r2 + r1 * r1 + 2 * r1 * r2, 1, 0);
  }

  lemma ThirdRoundCoeff(r1: int, r2: int, e: nat)
    ensures KeptCoeffOver(F(), [r1, r2], Points(0), e) ==
            (if e == 1 then 1 else 0) + (if e == 0 then r1 * r1 + 2 * r1 * r2 + 3 * r2 * r2 else 0)
  {
    assert KeepIndexValid(F(), 2);
    TwoBitPoints();
    var pts := Points(0);
    assert pts[1..] == [];
    assert [r1, r2] + pts[0] == [r1, r2];
    KeptCoeffOnZ(r1, r2, e);
  }

  /** One round of `test_sumcheck`: the prover of f answers with its round
      polynomial for the challenges it holds. */
  method ScenarioRound(prover: Prover) returns (g: UnivariatePolynomial)
    requires prover.poly == Poly() && |prover.r| < 3
    ensures g.Valid() && g.degree <= 2
    ensures g.coefficients == RoundPolynomial(Poly(), prover.r)
    ensures forall c :: Eval(g.coefficients, c) == RoundSum(Poly(), prover.r, c)
  {
    DegreeAndValue();
    assert KeepIndexValid(F(), |prover.r|);
    var res := prover.GenerateUnivariatePolyForRound();
    g := res.value;
  }

  /** Round 1 of `test_sumcheck`: f1 = {2: 4, 1: 4, 0: 8}. */
  method ScenarioRoundOne(prover: Prover) returns (f1: UnivariatePolynomial)
    requires prover.poly == Poly() && prover.r == []
    ensures ToMap(f1.coefficients) == map[2 := 4, 1 := 4, 0 := 8] && f1.degree <= 2
    ensures forall x :: Eval(f1.coefficients, x) == 4 * x * x + 4 * x + 8
    ensures Eval(f1.coefficients, 0) + Eval(f1.coefficients, 1) == 24
  {
    f1 := ScenarioRound(prover);
    FirstRoundPolynomial();
    forall x ensures Eval(f1.coefficients, x) == 4 * x * x + 4 * x + 8 {
      FirstRoundSum(x);
    }
    FirstRoundMatchesClaim(Poly());
    ClaimIs24();
    assert Eval(f1.coefficients, 0) == RoundSum(Poly(), [], 0);
    assert Eval(f1.coefficients, 1) == RoundSum(Poly(), [], 1);
  }

  /** Round 2 of `test_sumcheck`: f2 = {2: 6, 1: 4 r1, 0: 2 r1^2 + 1}. */
  method ScenarioRoundTwo(prover: Prover, r1: int) returns (f2: UnivariatePolynomial)
    requires prover.poly == Poly() && prover.r == [r1]
    ensures ToMap(f2.coefficients) == map[2 := 6, 1 := 4 * r1, 0 := 2 * r1 * r1 + 1] && f2.degree <= 2
    ensures forall x :: Eval(f2.coefficients, x) == 6 * x * x + 4 * r1 * x + 2 * r1 * r1 + 1
    ensures Eval(f2.coefficients, 0) + Eval(f2.coefficients, 1) == 4 * r1 * r1 + 4 * r1 + 8
  {
    f2 := ScenarioRound(prover);
    SecondRoundPolynomial(r1);
    forall x ensures Eval(f2.coefficients, x) == 6 * x * x + 4 * r1 * x + 2 * r1 * r1 + 1 {
      SecondRoundSum(r1, x);
    }
    NextRoundMatchesPrevious(Poly(), [], r1);
    assert [] + [r1] == [r1];
    assert Eval(f2.coefficients, 0) == RoundSum(Poly(), [r1], 0);
    assert Eval(f2.coefficients, 1) == RoundSum(Poly(), [r1], 1);
    FirstRoundSum(r1);
  }

  /** Round 3 of `test_sumcheck`: f3 = {2: 0, 1: 1, 0: 3 r2^2 + r1^2 + 2 r1 r2}. */
  method ScenarioRoundThree(prover: Prover, r1: int, r2: int) returns (f3: UnivariatePolynomial)
    requires prover.poly == Poly() && prover.r == [r1, r2]
    ensures ToMap(f3.coefficients) == map[2 := 0, 1 := 1, 0 := 3 * r2 * r2 + r1 * r1 + 2 * r1 * r2] && f3.degree <= 2
    ensures forall x :: Eval(f3.coefficients, x) == x + 3 * r2 * r2 + r1 * r1 + 2 * r1 * r2
    ensures Eval(f3.coefficients, 0) + Eval(f3.coefficients, 1) == 6 * r2 * r2 + 4 * r1 * r2 + 2 * r1 * r1 + 1
  {
    f3 := ScenarioRound(prover);
    ThirdRoundPolynomial(r1, r2);
    forall x ensures Eval(f3.coefficients, x) == x + 3 * r2 * r2 + r1 * r1 + 2 * r1 * r2 {
      ThirdRoundSum(r1, r2, x);
    }
    NextRoundMatchesPrevious(Poly(), [r1], r2);
    assert [r1] + [r2] == [r1, r2];
    assert Eval(f3.coefficients, 0) == RoundSum(Poly(), [r1, r2], 0);
    assert Eval(f3.coefficients, 1) == RoundSum(Poly(), [r1, r2], 1);
    SecondRoundSum(r1, r2);
  }

  /** The start of `test_sumcheck`: f is built from its dict, a prover is
      made for it, and its claimed sum is 24. */
  method ScenarioSetup() returns (prover: Prover, sum: int)
    ensures fresh(prover) && prover.poly == Poly() && prover.r == []
    ensures sum == 24
  {
    var made := NewMultivariate(F());
    var f := made.value;
    DegreeAndValue();
    assert f == Poly();
    prover := new Prover(f);
    sum := prover.BuildSumInHypercube();
    ClaimIs24();
  }

  /** The whole of `test_sumcheck`: build f, claim its hypercube sum,
      then three rounds, each answered by challenge r1, r2, r3 in turn;
      every assertion of the test holds. */
  method SumcheckScenario(r1: int, r2: int, r3: int)
    returns (sum: int, f1: UnivariatePolynomial, f2: UnivariatePolynomial, f3: UnivariatePolynomial, final: int)
    ensures sum == 24
    ensures ToMap(f1.coefficients) == map[2 := 4, 1 := 4, 0 := 8] && f1.degree <= 2
    ensures Eval(f1.coefficients, 0) + Eval(f1.coefficients, 1) == sum
    ensures ToMap(f2.coefficients) == map[2 := 6, 1 := 4 * r1, 0 := 2 * r1 * r1 + 1] && f2.degree <= 2
    ensures Eval(f2.coefficients, 0) + Eval(f2.coefficients, 1) == Eval(f1.coefficients, r1)
    ensures ToMap(f3.coefficients) == map[2 := 0, 1 := 1, 0 := 3 * r2 * r2 + r1 * r1 + 2 * r1 * r2] && f3.degree <= 2
    ensures Eval(f3.coefficients, 0) + Eval(f3.coefficients, 1) == Eval(f2.coefficients, r2)
    ensures final == EvalTerms(F(), [r1, r2, r3]) == Eval(f3.coefficients, r3)
  {
    var prover;
    prover, sum := ScenarioSetup();
    f1 := ScenarioRoundOne(prover);
    prover.AppendChallenge(r1);
    assert prover.r == [r1];
    f2 := ScenarioRoundTwo(prover, r1);
    prover.AppendChallenge(r2);
    assert prover.r == [r1, r2];
    f3 := ScenarioRoundThree(prover, r1, r2);
    prover.AppendChallenge(r3);
    assert prover.r == [r1, r2, r3];

    final := EvaluateMultivariate(prover.poly, prover.r);
    EvalF(r1, r2, r3);
  }
}
