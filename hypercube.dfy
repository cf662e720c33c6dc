/** `generate_combinations(n)` of arithmetic.py: every assignment of 0/1 to
    `n` variables, in binary counting order from all zeros to all ones. */
module Hypercube {
  import opened Numbers

  /** `[prefix + p for p in points]`. */
  function Extend(prefix: seq<int>, points: seq<seq<int>>): seq<seq<int>>
  {
    seq(|points|, i requires 0 <= i < |points| => prefix + points[i])
  }

  /** The boolean hypercube `{0,1}^n`: the points starting with 0, then those
      starting with 1; `Points(0) == [[]]`. */
  function Points(n: nat): seq<seq<int>>
  {
    if n == 0 then [[]] else Extend([0], Points(n - 1)) + Extend([1], Points(n - 1))
  }

  predicate IsBits(s: seq<int>)
  {
    forall j :: 0 <= j < |s| ==> s[j] == 0 || s[j] == 1
  }

  /** The number a list of bits stands for, most significant bit first. */
  function BinaryValue(bits: seq<int>): int
  {
    if bits == [] then 0 else bits[0] * Pow(2, |bits| - 1) + BinaryValue(bits[1..])
  }

  // ---------------------------------------------------------------------
  // The enumeration

  /** `generate_combinations(n)`. */
  method GenerateCombinations(n: nat) returns (result: seq<seq<int>>)
    ensures result == Points(n)
  {
    result := CombinationsFrom(n, [], []);
    var h := Points(n);
    forall i | 0 <= i < |h|
      ensures Extend([], h)[i] == h[i]
    {
      assert [] + h[i] == h[i];
    }
    assert Extend([], h) == h;
  }

  /** `generate_combinations(n, prefix, result)`: appends to `result` every
      completion of `prefix` to length `n`, in order, and returns it. */
  method CombinationsFrom(n: nat, prefix: seq<int>, result: seq<seq<int>>) returns (out: seq<seq<int>>)
    requires |prefix| <= n
    ensures out == result + Extend(prefix, Points(n - |prefix|))
    decreases n - |prefix|
  {
    if |prefix| == n {
      assert prefix + [] == prefix;
      assert Extend(prefix, Points(0)) == [prefix];
      return result + [prefix];
    }
    var m := n - |prefix|;
    ghost var h := Points(m - 1);
    ghost var zeros := Extend(prefix + [0], h);
    ghost var ones := Extend(prefix + [1], h);
    out := result;
    for bit := 0 to 2
      invariant out == result + (if bit >= 1 then zeros else []) + (if bit == 2 then ones else [])
    {
      var newPrefix := prefix + [bit];
      ghost var before := out;
      out := CombinationsFrom(n, newPrefix, out);
      assert Points(n - |newPrefix|) == h;
      if bit == 0 {
        assert out == result + zeros;
      } else {
        assert out == (result + zeros) + ones;
      }
    }
    ExtendPoints(prefix, m - 1);
    assert result + zeros + ones == result + (zeros + ones);
  }

  /** Extending the points of dimension `m + 1` is extending those of
      dimension `m` by `prefix + [0]`, then by `prefix + [1]`. */
  lemma ExtendPoints(prefix: seq<int>, m: nat)
    ensures Extend(prefix, Points(m + 1)) ==
            Extend(prefix + [0], Points(m)) + Extend(prefix + [1], Points(m))
  {
    var h := Points(m);
    var lhs := Extend(prefix, Points(m + 1));
    var rhs := Extend(prefix + [0], h) + Extend(prefix + [1], h);
    assert |lhs| == |rhs|;
    forall i | 0 <= i < |lhs|
      ensures lhs[i] == rhs[i]
    {
      if i < |h| {
        assert Points(m + 1)[i] == [0] + h[i];
      } else {
        assert Points(m + 1)[i] == [1] + h[i - |h|];
      }
    }
  }

  // ---------------------------------------------------------------------
  // Properties

  /** There are exactly `2^n` points. */
  lemma {:induction false} PointsCount(n: nat)
    ensures |Points(n)| == Pow(2, n)
  {
    if n > 0 {
      PointsCount(n - 1);
    }
  }

  /** There is always at least one point (the empty one when `n == 0`). */
  lemma PointsNonEmpty(n: nat)
    ensures |Points(n)| > 0
  {
    PointsCount(n);
    PowTwoPositive(n);
  }

  /** Every point has `n` entries, each 0 or 1. */
  lemma {:induction false} PointsShape(n: nat)
    ensures forall i :: 0 <= i < |Points(n)| ==> |Points(n)[i]| == n && IsBits(Points(n)[i])
  {
    if n > 0 {
      PointsShape(n - 1);
      var h := Points(n - 1);
      forall i | 0 <= i < |Points(n)|
        ensures |Points(n)[i]| == n && IsBits(Points(n)[i])
      {
        if i < |h| {
          assert Points(n)[i] == [0] + h[i];
        } else {
          assert Points(n)[i] == [1] + h[i - |h|];
        }
      }
    }
  }

  /** Binary counting order: point `i` is the `n`-bit numeral of `i`. */
  lemma {:induction false} PointsInBinaryOrder(n: nat)
    ensures forall i :: 0 <= i < |Points(n)| ==> BinaryValue(Points(n)[i]) == i
  {
    if n > 0 {
      PointsInBinaryOrder(n - 1);
      PointsCount(n - 1);
      PointsShape(n - 1);
      var h := Points(n - 1);
      forall i | 0 <= i < |Points(n)|
        ensures BinaryValue(Points(n)[i]) == i
      {
        PointsAt(n - 1, i);
        if i < |h| {
          BinaryValueCons(0, h[i]);
        } else {
          BinaryValueCons(1, h[i - |h|]);
        }
      }
    }
  }

  /** Point `i` of `{0,1}^(m+1)` is a 0 or a 1 followed by a point of `{0,1}^m`. */
  lemma PointsAt(m: nat, i: nat)
    requires i < |Points(m + 1)|
    ensures |Points(m + 1)| == 2 * |Points(m)|
    ensures i < |Points(m)| ==> Points(m + 1)[i] == [0] + Points(m)[i]
    ensures i >= |Points(m)| ==> Points(m + 1)[i] == [1] + Points(m)[i - |Points(m)|]
  {
  }

  lemma BinaryValueCons(b: int, t: seq<int>)
    ensures BinaryValue([b] + t) == b * Pow(2, |t|) + BinaryValue(t)
  {
    assert ([b] + t)[1..] == t;
  }

  /** No point occurs twice. */
  lemma PointsDistinct(n: nat)
    ensures forall i, j :: 0 <= i < j < |Points(n)| ==> Points(n)[i] != Points(n)[j]
  {
    PointsInBinaryOrder(n);
  }

  lemma {:induction false} BinaryValueBound(s: seq<int>)
    requires IsBits(s)
    ensures 0 <= BinaryValue(s) < Pow(2, |s|)
  {
    if s != [] {
      BinaryValueBound(s[1..]);
    }
  }

  /** Every 0/1 sequence of length `n` is a point, at the index it stands for. */
  lemma {:induction false} PointsComplete(n: nat, s: seq<int>)
    requires |s| == n && IsBits(s)
    ensures 0 <= BinaryValue(s) < |Points(n)| && Points(n)[BinaryValue(s)] == s
  {
    if n == 0 {
      assert s == [];
      assert Points(0) == [[]];
    } else {
      var t := s[1..];
      assert IsBits(t) by {
        forall j | 0 <= j < |t|
          ensures t[j] == 0 || t[j] == 1
        {
          assert t[j] == s[j + 1];
        }
      }
      PointsComplete(n - 1, t);
      assert s == [s[0]] + t;
      PointsCons(n - 1, s[0], t);
    }
  }

  /** A point found at its index stays found once a bit is put in front. */
  lemma PointsCons(m: nat, b: int, t: seq<int>)
    requires b == 0 || b == 1
    requires 0 <= BinaryValue(t) < |Points(m)| && Points(m)[BinaryValue(t)] == t && |t| == m
    ensures 0 <= BinaryValue([b] + t) < |Points(m + 1)| && Points(m + 1)[BinaryValue([b] + t)] == [b] + t
  {
    PointsCount(m);
    BitThenValue(b, t);
    var i := (if b == 0 then 0 else |Points(m)|) + BinaryValue(t);
    PointsAt(m, i);
  }

  lemma BitThenValue(b: int, t: seq<int>)
    requires b == 0 || b == 1
    ensures BinaryValue([b] + t) == (if b == 0 then 0 else Pow(2, |t|)) + BinaryValue(t)
  {
    BinaryValueCons(b, t);
    if b == 0 {
      assert b * Pow(2, |t|) == 0;
    } else {
      assert b * Pow(2, |t|) == Pow(2, |t|);
    }
  }
}
