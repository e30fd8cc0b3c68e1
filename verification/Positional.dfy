/** Numbers as little-endian digits in any base. */
module Positional {
  function Power(b: nat, n: nat): nat {
    if n == 0 then 1 else b * Power(b, n - 1)
  }

  function Value(b: nat, s: seq<nat>): nat {
    if s == [] then 0 else s[0] + b * Value(b, s[1..])
  }

  predicate Below(b: nat, s: seq<nat>) {
    forall i :: 0 <= i < |s| ==> s[i] < b
  }

  /** The `n` low digits of `v`. */
  function Digits(b: nat, n: nat, v: nat): (s: seq<nat>)
    requires b > 0
    ensures |s| == n && Below(b, s)
  {
    if n == 0 then [] else [v % b] + Digits(b, n - 1, v / b)
  }

  lemma {:induction false} PowerAdd(b: nat, m: nat, n: nat)
    ensures Power(b, m + n) == Power(b, m) * Power(b, n)
  {
    if m > 0 {
      PowerAdd(b, m - 1, n);
      Associate(b, Power(b, m - 1), Power(b, n));
    }
  }

  lemma {:induction false} PowerPower(b: nat, m: nat, n: nat)
    ensures Power(Power(b, m), n) == Power(b, m * n)
  {
    if n > 0 {
      PowerPower(b, m, n - 1);
      PowerAdd(b, m, m * (n - 1));
      assert m + m * (n - 1) == m * n;
    }
  }

  lemma PowerUnfolds(b: nat, n: nat)
    ensures Power(b, n + 1) == b * Power(b, n)
  {}

  lemma Associate(x: int, y: int, z: int)
    ensures x * (y * z) == (x * y) * z
  {}

  lemma Distribute(x: int, y: int, z: int)
    ensures x * (y + z) == x * y + x * z
  {}

  lemma {:induction false} PowerPositive(b: nat, n: nat)
    requires b > 0
    ensures Power(b, n) > 0
  {
    if n > 0 {
      PowerPositive(b, n - 1);
      MulPositive(b, Power(b, n - 1));
    }
  }

  lemma MulPositive(x: nat, y: nat)
    requires x > 0 && y > 0
    ensures x * y > 0
  {}

  lemma ValueUnfolds(b: nat, d: nat, s: seq<nat>)
    ensures Value(b, [d] + s) == d + b * Value(b, s)
  {
    assert ([d] + s)[1..] == s;
  }

  lemma {:induction false} ValueConcat(b: nat, s: seq<nat>, t: seq<nat>)
    ensures Value(b, s + t) == Value(b, s) + Power(b, |s|) * Value(b, t)
  {
    hide Value;
    if s == [] {
      assert s + t == t;
      ValueNothing(b);
    } else {
      var d, u := s[0], s[1..];
      assert s == [d] + u && s + t == [d] + (u + t);
      ValueUnfolds(b, d, u);
      ValueUnfolds(b, d, u + t);
      ValueConcat(b, u, t);
      Distribute(b, Value(b, u), Power(b, |u|) * Value(b, t));
      Associate(b, Power(b, |u|), Value(b, t));
    }
  }

  lemma ValueNothing(b: nat)
    ensures Value(b, []) == 0
  {}

  lemma ValueOne(b: nat, d: nat)
    ensures Value(b, [d]) == d
  {
    ValueUnfolds(b, d, []);
    ValueNothing(b);
    assert [d] + [] == [d];
  }

  lemma {:induction false} ValueBound(b: nat, s: seq<nat>)
    requires Below(b, s)
    ensures Value(b, s) < Power(b, |s|)
  {
    if s != [] {
      ValueBound(b, s[1..]);
      DigitBound(b, s[0], Value(b, s[1..]), Power(b, |s| - 1));
    }
  }

  lemma DigitBound(b: nat, d: nat, v: nat, p: nat)
    requires d < b && v < p
    ensures d + b * v < b * p
  {
    Distribute(b, v, 1);
    MulMonotone(b, v + 1, p);
  }

  lemma MulMonotone(x: nat, y: nat, z: nat)
    requires y <= z
    ensures x * y <= x * z
  {
    Distribute(x, y, z - y);
    assert x * (z - y) >= 0;
  }

  /** Quotient and remainder, from the equation that determines them. */
  lemma Quotient(x: nat, m: nat, q: nat, r: nat)
    requires x == m * q + r && r < m
    ensures x / m == q && x % m == r
  {
    var q', r' := x / m, x % m;
    assert x == m * q' + r';
    if q' < q {
      Distribute(m, q', 1);
      MulMonotone(m, q' + 1, q);
      assert false;
    } else if q < q' {
      Distribute(m, q, 1);
      MulMonotone(m, q + 1, q');
      assert false;
    }
  }

  lemma {:induction false} ValueOfDigits(b: nat, n: nat, v: nat)
    requires b > 0 && v < Power(b, n)
    ensures Value(b, Digits(b, n, v)) == v
  {
    hide Value;
    hide Power;
    if n == 0 {
      PowerNothing(b);
      ValueNothing(b);
    } else {
      PowerUnfolds(b, n - 1);
      QuotientBound(b, v, Power(b, n - 1));
      ValueOfDigits(b, n - 1, v / b);
      ValueUnfolds(b, v % b, Digits(b, n - 1, v / b));
      Division(v, b);
    }
  }

  lemma PowerNothing(b: nat)
    ensures Power(b, 0) == 1
  {}

  lemma Division(v: nat, b: nat)
    requires b > 0
    ensures v == v % b + b * (v / b)
  {
  }

  lemma QuotientBound(b: nat, v: nat, p: nat)
    requires b > 0 && v < b * p
    ensures v / b < p
  {
    if v / b >= p {
      MulMonotone(b, p, v / b);
    }
  }

  lemma {:induction false} DigitsOfValue(b: nat, s: seq<nat>)
    requires b > 0 && Below(b, s)
    ensures Digits(b, |s|, Value(b, s)) == s
  {
    if s != [] {
      Quotient(Value(b, s), b, Value(b, s[1..]), s[0]);
      DigitsOfValue(b, s[1..]);
    }
  }
}
