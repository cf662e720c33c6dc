/** The univariate polynomial of arithmetic.py: a dict from power to
    coefficient, with its degree cached at construction, `add` and `evaluate`.

    A Python dict is modelled as an association list in insertion order:
    `Keys` is its key set, `Coeff` the coefficient stored at a power (0 when
    absent) and `ToMap` the dict as a Dafny map. */
module Univariate {
  import opened Numbers

  /** One `power: coeff` entry of the dict. */
  datatype UniTerm = UniTerm(power: nat, coeff: int)

  /** `coefficients` plus the `degree` computed once by the constructor. */
  datatype UnivariatePolynomial = UnivariatePolynomial(coefficients: seq<UniTerm>, degree: int)
  {
    /** Every value built by `NewUnivariate` satisfies this: the entries form
        a dict (distinct powers) and the cached degree is the real one. */
    predicate Valid()
    {
      IsDict(coefficients) && degree == DegreeOf(coefficients)
    }
  }

  // ---------------------------------------------------------------------
  // The dict view of an association list

  function Keys(l: seq<UniTerm>): set<nat>
  {
    if l == [] then {} else {l[0].power} + Keys(l[1..])
  }

  /** No power occurs twice, as in any Python dict. */
  predicate IsDict(l: seq<UniTerm>)
  {
    l == [] || (l[0].power !in Keys(l[1..]) && IsDict(l[1..]))
  }

  /** The coefficient stored at power `e`, 0 when `e` is not a key. */
  function Coeff(l: seq<UniTerm>, e: nat): int
  {
    if l == [] then 0 else (if l[0].power == e then l[0].coeff else 0) + Coeff(l[1..], e)
  }

  function ToMap(l: seq<UniTerm>): map<nat, int>
  {
    map e | e in Keys(l) :: Coeff(l, e)
  }

  // ---------------------------------------------------------------------
  // Specification functions

  /** The power of an entry if its coefficient is non-zero, else -1. */
  function TermDegree(t: UniTerm): int
  {
    if t.coeff != 0 then t.power else -1
  }

  /** Largest power with a non-zero coefficient, -1 if there is none. */
  function DegreeOf(l: seq<UniTerm>): int
  {
    if l == [] then -1 else Max(TermDegree(l[0]), DegreeOf(l[1..]))
  }

  /** The sum of `coeff * x ** power` over the entries. */
  function Eval(l: seq<UniTerm>, x: int): int
  {
    if l == [] then 0 else l[0].coeff * Pow(x, l[0].power) + Eval(l[1..], x)
  }

  /** `d[p] += c` when `p in d`, else `d[p] = c` (a new key goes to the end). */
  function Upsert(l: seq<UniTerm>, t: UniTerm): seq<UniTerm>
  {
    if l == [] then [t]
    else if l[0].power == t.power then [UniTerm(t.power, l[0].coeff + t.coeff)] + l[1..]
    else [l[0]] + Upsert(l[1..], t)
  }

  /** `d[p] = c`: overwrite in place, or append a new key. */
  function Assign(l: seq<UniTerm>, t: UniTerm): seq<UniTerm>
  {
    if l == [] then [t]
    else if l[0].power == t.power then [t] + l[1..]
    else [l[0]] + Assign(l[1..], t)
  }

  /** `Upsert` every entry of `q`, in order, into `acc`. */
  function UpsertAll(acc: seq<UniTerm>, q: seq<UniTerm>): seq<UniTerm>
    decreases |q|
  {
    if q == [] then acc else UpsertAll(Upsert(acc, q[0]), q[1..])
  }

  /** `Assign` every entry of `q`, in order, into `acc`. */
  function AssignAll(acc: seq<UniTerm>, q: seq<UniTerm>): seq<UniTerm>
    decreases |q|
  {
    if q == [] then acc else AssignAll(Assign(acc, q[0]), q[1..])
  }

  /** The dict `p.add(q)` builds: a copy of `p`, then every entry of `q` upserted. */
  function AddSpec(p: seq<UniTerm>, q: seq<UniTerm>): seq<UniTerm>
  {
    UpsertAll(AssignAll([], p), q)
  }

  // ---------------------------------------------------------------------
  // The operations of the class

  /** `UnivariatePolynomial(coefficients)`: stores the dict and caches its degree. */
  method NewUnivariate(coefficients: seq<UniTerm>) returns (p: UnivariatePolynomial)
    requires IsDict(coefficients)
    ensures p.Valid() && p.coefficients == coefficients
  {
    var d := Degree(coefficients);
    p := UnivariatePolynomial(coefficients, d);
  }

  /** `degree()`: the largest power whose coefficient is non-zero, or -1. */
  method Degree(coefficients: seq<UniTerm>) returns (maxDegree: int)
    ensures maxDegree == DegreeOf(coefficients)
    ensures maxDegree >= -1
    ensures forall i :: 0 <= i < |coefficients| && coefficients[i].coeff != 0 ==>
              coefficients[i].power <= maxDegree
    ensures maxDegree >= 0 ==>
              exists i :: 0 <= i < |coefficients| && coefficients[i].coeff != 0 &&
                          coefficients[i].power == maxDegree
  {
    DegreeOfIsMax(coefficients);
    maxDegree := -1;
    for i := 0 to |coefficients|
      invariant maxDegree >= -1
      invariant Max(maxDegree, DegreeOf(coefficients[i..])) == DegreeOf(coefficients)
    {
      assert coefficients[i..][1..] == coefficients[i + 1..];
      var t := coefficients[i];
      if t.coeff != 0 {
        maxDegree := Max(maxDegree, t.power);
      }
    }
    assert coefficients[|coefficients|..] == [];
  }

  /** `add(other)`: union of the key sets, coefficients of shared powers summed. */
  method Add(self: UnivariatePolynomial, other: UnivariatePolynomial) returns (sum: UnivariatePolynomial)
    requires self.Valid() && other.Valid()
    ensures sum.Valid()
    ensures sum.coefficients == AddSpec(self.coefficients, other.coefficients)
    ensures Keys(sum.coefficients) == Keys(self.coefficients) + Keys(other.coefficients)
    ensures forall e :: Coeff(sum.coefficients, e) == Coeff(self.coefficients, e) + Coeff(other.coefficients, e)
    ensures forall x :: Eval(sum.coefficients, x) == Eval(self.coefficients, x) + Eval(other.coefficients, x)
    ensures DegreeOf(sum.coefficients) <= Max(self.degree, other.degree)
  {
    var sumPoly: seq<UniTerm> := [];
    for i := 0 to |self.coefficients|
      invariant AssignAll(sumPoly, self.coefficients[i..]) == AssignAll([], self.coefficients)
    {
      assert self.coefficients[i..][1..] == self.coefficients[i + 1..];
      sumPoly := Assign(sumPoly, self.coefficients[i]);
    }
    assert self.coefficients[|self.coefficients|..] == [];
    for i := 0 to |other.coefficients|
      invariant UpsertAll(sumPoly, other.coefficients[i..]) == AddSpec(self.coefficients, other.coefficients)
    {
      assert other.coefficients[i..][1..] == other.coefficients[i + 1..];
      sumPoly := Upsert(sumPoly, other.coefficients[i]);
    }
    assert other.coefficients[|other.coefficients|..] == [];
    AddPointwise(self.coefficients, other.coefficients);
    AddDegree(self.coefficients, other.coefficients);
    sum := NewUnivariate(sumPoly);
  }

  /** `evaluate(x)`: the sum of `coeff * x ** power` over the entries. */
  method Evaluate(p: UnivariatePolynomial, x: int) returns (result: int)
    ensures result == Eval(p.coefficients, x)
  {
    result := 0;
    for i := 0 to |p.coefficients|
      invariant result + Eval(p.coefficients[i..], x) == Eval(p.coefficients, x)
    {
      assert p.coefficients[i..][1..] == p.coefficients[i + 1..];
      result := result + p.coefficients[i].coeff * Pow(x, p.coefficients[i].power);
    }
    assert p.coefficients[|p.coefficients|..] == [];
  }

  // ---------------------------------------------------------------------
  // Degree

  /** `DegreeOf` is the maximum power over the non-zero entries, -1 without one;
      zero-coefficient entries never raise it. */
  lemma {:induction false} DegreeOfIsMax(l: seq<UniTerm>)
    ensures DegreeOf(l) >= -1
    ensures forall i :: 0 <= i < |l| && l[i].coeff != 0 ==> l[i].power <= DegreeOf(l)
    ensures DegreeOf(l) >= 0 ==>
              exists i :: 0 <= i < |l| && l[i].coeff != 0 && l[i].power == DegreeOf(l)
  {
    if l != [] {
      DegreeOfIsMax(l[1..]);
      forall i | 0 <= i < |l| && l[i].coeff != 0
        ensures l[i].power <= DegreeOf(l)
      {
        if i > 0 {
          assert l[i] == l[1..][i - 1];
        }
      }
      if DegreeOf(l) >= 0 && DegreeOf(l) != TermDegree(l[0]) {
        var j :| 0 <= j < |l[1..]| && l[1..][j].coeff != 0 && l[1..][j].power == DegreeOf(l[1..]);
        assert l[j + 1] == l[1..][j];
      }
    }
  }

  // ---------------------------------------------------------------------
  // Single-entry updates

  lemma {:induction false} UpsertEval(l: seq<UniTerm>, t: UniTerm, x: int)
    ensures Eval(Upsert(l, t), x) == Eval(l, x) + t.coeff * Pow(x, t.power)
  {
    if l == [] {
      assert [t][1..] == [];
    } else if l[0].power == t.power {
      var h := UniTerm(t.power, l[0].coeff + t.coeff);
      assert ([h] + l[1..])[1..] == l[1..];
      assert h.coeff * Pow(x, t.power) == l[0].coeff * Pow(x, t.power) + t.coeff * Pow(x, t.power);
    } else {
      UpsertEval(l[1..], t, x);
      assert ([l[0]] + Upsert(l[1..], t))[1..] == Upsert(l[1..], t);
    }
  }

  lemma {:induction false} UpsertCoeff(l: seq<UniTerm>, t: UniTerm, e: nat)
    ensures Coeff(Upsert(l, t), e) == Coeff(l, e) + (if t.power == e then t.coeff else 0)
  {
    if l == [] {
      assert [t][1..] == [];
    } else if l[0].power == t.power {
      var h := UniTerm(t.power, l[0].coeff + t.coeff);
      assert ([h] + l[1..])[1..] == l[1..];
    } else {
      UpsertCoeff(l[1..], t, e);
      assert ([l[0]] + Upsert(l[1..], t))[1..] == Upsert(l[1..], t);
    }
  }

  lemma {:induction false} UpsertKeys(l: seq<UniTerm>, t: UniTerm)
    ensures Keys(Upsert(l, t)) == Keys(l) + {t.power}
  {
    if l == [] {
      assert [t][1..] == [];
    } else if l[0].power == t.power {
      var h := UniTerm(t.power, l[0].coeff + t.coeff);
      assert ([h] + l[1..])[1..] == l[1..];
    } else {
      UpsertKeys(l[1..], t);
      assert ([l[0]] + Upsert(l[1..], t))[1..] == Upsert(l[1..], t);
    }
  }

  lemma {:induction false} UpsertIsDict(l: seq<UniTerm>, t: UniTerm)
    requires IsDict(l)
    ensures IsDict(Upsert(l, t))
  {
    if l == [] {
      assert [t][1..] == [];
    } else if l[0].power == t.power {
      var h := UniTerm(t.power, l[0].coeff + t.coeff);
      assert ([h] + l[1..])[1..] == l[1..];
    } else {
      UpsertIsDict(l[1..], t);
      UpsertKeys(l[1..], t);
      assert ([l[0]] + Upsert(l[1..], t))[1..] == Upsert(l[1..], t);
    }
  }

  lemma {:induction false} UpsertDegree(l: seq<UniTerm>, t: UniTerm)
    ensures DegreeOf(Upsert(l, t)) <= Max(DegreeOf(l), TermDegree(t))
  {
    if l == [] {
      assert [t][1..] == [];
    } else if l[0].power == t.power {
      var h := UniTerm(t.power, l[0].coeff + t.coeff);
      assert ([h] + l[1..])[1..] == l[1..];
      assert TermDegree(h) <= Max(TermDegree(l[0]), TermDegree(t));
    } else {
      UpsertDegree(l[1..], t);
      assert ([l[0]] + Upsert(l[1..], t))[1..] == Upsert(l[1..], t);
    }
  }

  // ---------------------------------------------------------------------
  // Folds of updates

  lemma {:induction false} UpsertAllEval(acc: seq<UniTerm>, q: seq<UniTerm>, x: int)
    ensures Eval(UpsertAll(acc, q), x) == Eval(acc, x) + Eval(q, x)
    decreases |q|
  {
    if q != [] {
      UpsertEval(acc, q[0], x);
      UpsertAllEval(Upsert(acc, q[0]), q[1..], x);
    }
  }

  lemma {:induction false} UpsertAllCoeff(acc: seq<UniTerm>, q: seq<UniTerm>, e: nat)
    ensures Coeff(UpsertAll(acc, q), e) == Coeff(acc, e) + Coeff(q, e)
    decreases |q|
  {
    if q != [] {
      UpsertCoeff(acc, q[0], e);
      UpsertAllCoeff(Upsert(acc, q[0]), q[1..], e);
    }
  }

  lemma {:induction false} UpsertAllKeys(acc: seq<UniTerm>, q: seq<UniTerm>)
    ensures Keys(UpsertAll(acc, q)) == Keys(acc) + Keys(q)
    decreases |q|
  {
    if q != [] {
      UpsertKeys(acc, q[0]);
      UpsertAllKeys(Upsert(acc, q[0]), q[1..]);
    }
  }

  lemma {:induction false} UpsertAllIsDict(acc: seq<UniTerm>, q: seq<UniTerm>)
    requires IsDict(acc)
    ensures IsDict(UpsertAll(acc, q))
    decreases |q|
  {
    if q != [] {
      UpsertIsDict(acc, q[0]);
      UpsertAllIsDict(Upsert(acc, q[0]), q[1..]);
    }
  }

  lemma {:induction false} UpsertAllDegree(acc: seq<UniTerm>, q: seq<UniTerm>)
    ensures DegreeOf(UpsertAll(acc, q)) <= Max(DegreeOf(acc), DegreeOf(q))
    decreases |q|
  {
    if q != [] {
      UpsertDegree(acc, q[0]);
      UpsertAllDegree(Upsert(acc, q[0]), q[1..]);
    }
  }

  lemma {:induction false} KeysConcat(a: seq<UniTerm>, b: seq<UniTerm>)
    ensures Keys(a + b) == Keys(a) + Keys(b)
  {
    if a != [] {
      KeysConcat(a[1..], b);
      assert (a + b)[1..] == a[1..] + b;
    } else {
      assert a + b == b;
    }
  }

  lemma {:induction false} AssignFresh(l: seq<UniTerm>, t: UniTerm)
    requires t.power !in Keys(l)
    ensures Assign(l, t) == l + [t]
  {
    if l != [] {
      AssignFresh(l[1..], t);
      assert l == [l[0]] + l[1..];
    }
  }

  /** Assigning the entries of a dict whose keys are all new appends them. */
  lemma {:induction false} AssignAllFresh(acc: seq<UniTerm>, q: seq<UniTerm>)
    requires IsDict(q) && Keys(acc) !! Keys(q)
    ensures AssignAll(acc, q) == acc + q
    decreases |q|
  {
    if q == [] {
      assert acc + q == acc;
    } else {
      AssignFresh(acc, q[0]);
      KeysConcat(acc, [q[0]]);
      assert [q[0]][1..] == [];
      AssignAllFresh(acc + [q[0]], q[1..]);
      assert acc + [q[0]] + q[1..] == acc + q;
    }
  }

  /** The first loop of `add` copies `self` unchanged. */
  lemma AssignAllCopies(p: seq<UniTerm>)
    requires IsDict(p)
    ensures AssignAll([], p) == p
  {
    AssignAllFresh([], p);
    assert [] + p == p;
  }

  // ---------------------------------------------------------------------
  // Addition

  /** `add` is pointwise: the key set is the union, shared coefficients are
      summed and unshared ones carried over, so evaluations add up. */
  lemma AddPointwise(p: seq<UniTerm>, q: seq<UniTerm>)
    requires IsDict(p)
    ensures IsDict(AddSpec(p, q))
    ensures Keys(AddSpec(p, q)) == Keys(p) + Keys(q)
    ensures forall e :: Coeff(AddSpec(p, q), e) == Coeff(p, e) + Coeff(q, e)
    ensures forall x :: Eval(AddSpec(p, q), x) == Eval(p, x) + Eval(q, x)
  {
    AssignAllCopies(p);
    UpsertAllIsDict(p, q);
    UpsertAllKeys(p, q);
    forall e {
      UpsertAllCoeff(p, q, e);
    }
    forall x {
      UpsertAllEval(p, q, x);
    }
  }

  /** The degree of a sum is at most the larger degree of the operands. */
  lemma AddDegree(p: seq<UniTerm>, q: seq<UniTerm>)
    requires IsDict(p)
    ensures DegreeOf(AddSpec(p, q)) <= Max(DegreeOf(p), DegreeOf(q))
  {
    AssignAllCopies(p);
    UpsertAllDegree(p, q);
  }

  /** Two association lists with the same keys and coefficients are the same dict. */
  lemma SameDict(a: seq<UniTerm>, b: seq<UniTerm>)
    requires Keys(a) == Keys(b)
    requires forall e :: Coeff(a, e) == Coeff(b, e)
    ensures ToMap(a) == ToMap(b)
  {
  }

  /** Seen as maps, `p.add(q)` and `q.add(p)` are the same dict. */
  lemma AddCommutative(p: seq<UniTerm>, q: seq<UniTerm>)
    requires IsDict(p) && IsDict(q)
    ensures ToMap(AddSpec(p, q)) == ToMap(AddSpec(q, p))
  {
    AddPointwise(p, q);
    AddPointwise(q, p);
    SameDict(AddSpec(p, q), AddSpec(q, p));
  }

  /** Seen as maps, addition is associative. */
  lemma AddAssociative(p: seq<UniTerm>, q: seq<UniTerm>, s: seq<UniTerm>)
    requires IsDict(p) && IsDict(q)
    ensures ToMap(AddSpec(AddSpec(p, q), s)) == ToMap(AddSpec(p, AddSpec(q, s)))
  {
    var pq := AddSpec(p, q);
    var qs := AddSpec(q, s);
    AddPointwise(p, q);
    AddPointwise(q, s);
    AddPointwise(pq, s);
    AddPointwise(p, qs);
    forall e
      ensures Coeff(AddSpec(pq, s), e) == Coeff(AddSpec(p, qs), e)
    {
      assert Coeff(AddSpec(pq, s), e) == Coeff(p, e) + Coeff(q, e) + Coeff(s, e);
    }
    SameDict(AddSpec(pq, s), AddSpec(p, qs));
  }

  /** The empty dict is an identity for `add` on either side. */
  lemma AddIdentity(p: seq<UniTerm>)
    requires IsDict(p)
    ensures AddSpec(p, []) == p
    ensures ToMap(AddSpec([], p)) == ToMap(p)
  {
    AssignAllCopies(p);
    AddPointwise([], p);
  }
}
