/**
 256-bit targets as four 64-bit limbs (`pow.rs`): conversion from and to bytes, multiplication modulo
 2^256 and division, each loop proved to compute on the numbers its digits stand for.
 */
module Limbs {
  import opened Bytes
  import opened Positional

  const BASE: nat := 0x1_0000_0000_0000_0000
  const MODULUS: nat := 0x1_0000000000000000_0000000000000000_0000000000000000_0000000000000000

  type Limb = n: nat | n < BASE
  /** `u128`: intermediate products and remainders fit, or the assignment would be rejected. */
  type Wide = n: nat | n < BASE * BASE
  type Quad = s: seq<Limb> | |s| == 4 witness [0, 0, 0, 0]
  type Target = n: nat | n < MODULUS

  function ValueOf(s: Quad): (v: Target)
    ensures v == Value(BASE, s)
  {
    ValueBound(BASE, s);
    Modulus();
    Value(BASE, s)
  }

  lemma Modulus()
    ensures Power(BASE, 4) == MODULUS
    ensures Power(256, 8) == BASE
    ensures Power(256, 32) == MODULUS
  {
    assert Power(BASE, 2) == BASE * BASE;
    assert Power(256, 2) == 0x10000;
    assert Power(256, 4) == 0x100000000;
    PowerAdd(BASE, 2, 2);
    PowerAdd(256, 4, 4);
    PowerPower(256, 8, 4);
  }

  /** `u64::try_from`. */
  function Narrow(x: nat): Option<Limb> {
    if x < BASE then Some(x) else None
  }

  // ----- multiplication

  /** `x * y + z`. */
  function Fused(x: nat, y: nat, z: nat): nat {
    x * y + z
  }

  /** The next digit of a product, and the carry. */
  function Split(product: nat, b: nat): (nat, nat)
    requires b > 0
  {
    (product % b, product / b)
  }

  /** A product so far: the low digits, those of the product and the carry. */
  predicate Multiplied(b: nat, digits: seq<nat>, product: seq<nat>, carry: nat, factor: nat) {
    && |digits| == |product| && carry < b
    && Carries(Value(b, digits), factor, Value(b, product), Power(b, |digits|), carry)
  }

  /** `v` times `factor` is `u`, and a carry at place `w`. */
  predicate Carries(v: nat, factor: nat, u: nat, w: nat, carry: nat) {
    v * factor == Fused(w, carry, u)
  }

  lemma ProductFits(b: nat, x: nat, y: nat, carry: nat)
    requires x < b && y < b && carry < b
    ensures Fused(x, y, carry) < b * b
    ensures Split(Fused(x, y, carry), b).0 < b
    ensures Split(Fused(x, y, carry), b).1 < b
  {
    MulMonotone(x, y, b - 1);
    Distribute(x, b - 1, 1);
    MulMonotone(b, x, b - 1);
    Distribute(b, b - 1, 1);
    assert x * b == b * x;
    QuotientBound(b, x * y + carry, b);
  }

  lemma ValueAppend(b: nat, s: seq<nat>, d: nat)
    ensures Value(b, s + [d]) == Fused(Power(b, |s|), d, Value(b, s))
  {
    hide Value;
    ValueConcat(b, s, [d]);
    ValueOne(b, d);
  }

  lemma MulStep(b: nat, done: seq<nat>, product: seq<nat>, carry: nat, x: nat, factor: nat)
    requires x < b && factor < b && Multiplied(b, done, product, carry, factor)
    ensures Fused(x, factor, carry) < b * b
    ensures var (d, c) := Split(Fused(x, factor, carry), b);
            d < b && c < b && Multiplied(b, done + [x], product + [d], c, factor)
  {
    hide Value;
    hide Power;
    hide Split;
    hide Fused;
    hide Carries;
    ProductFits(b, x, factor, carry);
    ValueAppend(b, product, Split(Fused(x, factor, carry), b).0);
    ValueAppend(b, done, x);
    PowerUnfolds(b, |done|);
    CarryStep(b, Value(b, done), Value(b, product), Power(b, |done|), carry, x, factor);
  }

  lemma CarryStep(b: nat, v: nat, u: nat, w: nat, carry: nat, x: nat, factor: nat)
    requires b > 0 && Carries(v, factor, u, w, carry)
    ensures var (d, c) := Split(Fused(x, factor, carry), b);
            Carries(Fused(w, x, v), factor, Fused(w, d, u), b * w, c)
  {
    var p := x * factor + carry;
    var q, r := p / b, p % b;
    assert p == r + b * q;
    RegroupProduct(b, u, v, w, carry, x, factor, q, r);
  }

  lemma RegroupProduct(b: nat, u: nat, v: nat, w: nat, carry: nat, x: nat, factor: nat, q: nat, r: nat)
    requires u + w * carry == v * factor && x * factor + carry == r + b * q
    ensures u + w * r + (b * w) * q == (v + w * x) * factor
  {
    Distribute(w, r, b * q);
    Associate(w, b, q);
    Distribute(w, x * factor, carry);
    Associate(w, x, factor);
    Distribute(factor, v, w * x);
  }

  /** `mul_mod_2_256`. */
  method MulMod(limbs: Quad, factor: Limb) returns (r: Option<Quad>)
    ensures r.Some? && ValueOf(r.value) == (ValueOf(limbs) * factor) % MODULUS
  {
    hide Value;
    hide Multiplied;
    hide Split;
    hide Fused;
    var carry: Wide := 0;
    var out := new Limb[4](_ => 0);
    ProductStarts(limbs, out[..], factor);
    for i := 0 to 4
      invariant Multiplied(BASE, limbs[..i], out[..i], carry, factor)
    {
      MulStep(BASE, limbs[..i], out[..i], carry, limbs[i], factor);
      var product: Wide := Fused(limbs[i], factor, carry);
      var (low, high) := Split(product, BASE);
      var slot := Narrow(low);
      if slot.None? {
        return None;
      }
      ghost var before := out[..i];
      out[i] := slot.value;
      assert out[..i] == before && out[..i + 1] == before + [slot.value];
      assert limbs[..i + 1] == limbs[..i] + [limbs[i]];
      carry := high;
    }
    assert out[..4] == out[..] && limbs[..4] == limbs;
    r := Some(out[..]);
    ProductEnds(limbs, factor, out[..], carry);
  }

  lemma ProductStarts(limbs: Quad, out: Quad, factor: nat)
    ensures Multiplied(BASE, limbs[..0], out[..0], 0, factor)
  {
    assert limbs[..0] == [] && out[..0] == [];
  }

  lemma ProductEnds(limbs: Quad, factor: nat, out: Quad, carry: nat)
    requires Multiplied(BASE, limbs, out, carry, factor)
    ensures ValueOf(out) == (ValueOf(limbs) * factor) % MODULUS
  {
    hide Value;
    hide Power;
    Modulus();
    Quotient(Value(BASE, limbs) * factor, MODULUS, carry, ValueOf(out));
  }

  // ----- division

  /** Long division so far: the high digits, their quotient and what remains. */
  predicate Divided(b: nat, digits: seq<nat>, quotient: seq<nat>, remainder: nat, divisor: nat) {
    Value(b, digits) == Fused(Value(b, quotient), divisor, remainder) && remainder < divisor
  }

  /** The next digit of a quotient, and the remainder it leaves. */
  function DivMod(current: nat, divisor: nat): (nat, nat)
    requires divisor > 0
  {
    (current / divisor, current % divisor)
  }

  lemma ValuePrepend(b: nat, d: nat, s: seq<nat>)
    ensures Value(b, [d] + s) == Fused(b, Value(b, s), d)
  {
    hide Value;
    ValueUnfolds(b, d, s);
  }

  lemma DivStep(b: nat, rest: seq<nat>, quotient: seq<nat>, remainder: nat, x: nat, divisor: nat)
    requires divisor < b && x < b && Divided(b, rest, quotient, remainder, divisor)
    ensures remainder < divisor && Fused(remainder, b, x) < b * b
    ensures var (d, r) := DivMod(Fused(remainder, b, x), divisor);
            d < b && r < divisor && Divided(b, [x] + rest, [d] + quotient, r, divisor)
  {
    hide Value;
    hide DivMod;
    hide Fused;
    CurrentFits(b, remainder, x, divisor);
    ValuePrepend(b, x, rest);
    ValuePrepend(b, DivMod(Fused(remainder, b, x), divisor).0, quotient);
    DivStepNumbers(b, Value(b, rest), Value(b, quotient), remainder, x, divisor);
  }

  lemma DivStepNumbers(b: nat, v: nat, q: nat, remainder: nat, x: nat, divisor: nat)
    requires divisor > 0 && v == Fused(q, divisor, remainder)
    ensures var (d, r) := DivMod(Fused(remainder, b, x), divisor);
            Fused(b, v, x) == Fused(Fused(b, q, d), divisor, r)
  {
    var c := Fused(remainder, b, x);
    var k, r := c / divisor, c % divisor;
    assert c == divisor * k + r;
    Regroup(b, q, remainder, x, divisor, k, r);
  }

  lemma Regroup(b: nat, q: nat, remainder: nat, x: nat, divisor: nat, k: nat, r: nat)
    requires remainder * b + x == divisor * k + r
    ensures x + b * (q * divisor + remainder) == (k + b * q) * divisor + r
  {
    Distribute(b, q * divisor, remainder);
    Associate(b, q, divisor);
    Distribute(divisor, k, b * q);
  }

  lemma CurrentFits(b: nat, remainder: nat, x: nat, divisor: nat)
    requires remainder < divisor < b && x < b
    ensures Fused(remainder, b, x) < b * b
    ensures DivMod(Fused(remainder, b, x), divisor).0 < b
    ensures DivMod(Fused(remainder, b, x), divisor).1 < divisor
  {
    DigitBound(b, x, remainder, divisor);
    MulMonotone(b, divisor, b);
    assert remainder * b == b * remainder && b * divisor == divisor * b;
    QuotientBound(divisor, remainder * b + x, b);
  }

  /** `div_u64`: dividing by zero is the caller's mistake, everything else succeeds. */
  method Div(limbs: Quad, divisor: Limb) returns (r: Option<Quad>)
    requires divisor > 0
    ensures r.Some? && ValueOf(r.value) == ValueOf(limbs) / divisor
  {
    hide Value;
    hide Divided;
    hide DivMod;
    hide Fused;
    var remainder: Wide := 0;
    var out := new Limb[4](_ => 0);
    var index := 4;
    QuotientStarts(limbs, out[..], divisor);
    while index > 0
      invariant 0 <= index <= 4
      invariant Divided(BASE, limbs[index..], out[index..], remainder, divisor)
    {
      DivStep(BASE, limbs[index..], out[index..], remainder, limbs[index - 1], divisor);
      var current: Wide := Fused(remainder, BASE, limbs[index - 1]);
      var (digit, left) := DivMod(current, divisor);
      var slot := Narrow(digit);
      if slot.None? {
        return None;
      }
      ghost var before := out[index..];
      out[index - 1] := slot.value;
      assert out[index..] == before && out[index - 1..] == [slot.value] + before;
      assert limbs[index - 1..] == [limbs[index - 1]] + limbs[index..];
      remainder := left;
      index := index - 1;
    }
    assert out[0..] == out[..] && limbs[0..] == limbs;
    r := Some(out[..]);
    QuotientEnds(limbs, out[..], remainder, divisor);
  }

  lemma QuotientStarts(limbs: Quad, out: Quad, divisor: nat)
    requires divisor > 0
    ensures Divided(BASE, limbs[4..], out[4..], 0, divisor)
  {
    assert limbs[4..] == [] && out[4..] == [];
  }

  lemma QuotientEnds(limbs: Quad, out: Quad, remainder: nat, divisor: nat)
    requires divisor > 0 && Divided(BASE, limbs, out, remainder, divisor)
    ensures ValueOf(out) == ValueOf(limbs) / divisor
  {
    hide Value;
    Quotient(ValueOf(limbs), divisor, ValueOf(out), remainder);
  }

  // ----- bytes

  /** `to_le_bytes` and `from_le_bytes` on a target. */
  function ToBytes(t: Target): (s: seq<byte>)
    ensures |s| == 32 && Value(256, s) == t
  {
    Modulus();
    ValueOfDigits(256, 32, t);
    Digits(256, 32, t)
  }

  /** `from_le_bytes` on a word. */
  function Word(s: seq<byte>): (x: Limb)
    requires |s| == 8
    ensures x == Value(256, s)
  {
    ValueBound(256, s);
    Modulus();
    Value(256, s)
  }

  function WordBytes(x: Limb): (s: seq<byte>)
    ensures |s| == 8 && Value(256, s) == x
  {
    Modulus();
    ValueOfDigits(256, 8, x);
    Digits(256, 8, x)
  }

  /** Eight bytes to the limb. */
  lemma GroupStep(raw: seq<byte>, limbs: seq<Limb>, word: seq<byte>)
    requires |word| == 8 && |raw| == 8 * |limbs| && Value(256, raw) == Value(BASE, limbs)
    ensures Value(256, raw + word) == Value(BASE, limbs + [Word(word)])
  {
    hide Value;
    hide Power;
    Modulus();
    ValueConcat(256, raw, word);
    ValueConcat(BASE, limbs, [Word(word)]);
    ValueOne(BASE, Word(word));
    PowerPower(256, 8, |limbs|);
  }

  /** `limbs`. */
  method FromTarget(t: Target) returns (limbs: Quad)
    ensures ValueOf(limbs) == t
  {
    hide Value;
    var raw := ToBytes(t);
    var out := new Limb[4](_ => 0);
    NothingYet(raw, out[..]);
    for i := 0 to 4
      invariant Value(256, raw[..8 * i]) == Value(BASE, out[..i])
    {
      var word := raw[i * 8..i * 8 + 8];
      GroupStep(raw[..8 * i], out[..i], word);
      ghost var before := out[..i];
      out[i] := Word(word);
      assert out[..i] == before && out[..i + 1] == before + [Word(word)];
      assert raw[..8 * (i + 1)] == raw[..8 * i] + word;
    }
    assert raw[..32] == raw && out[..4] == out[..];
    limbs := out[..];
  }

  lemma NothingYet(raw: seq<byte>, limbs: seq<Limb>)
    ensures Value(256, raw[..0]) == Value(BASE, limbs[..0])
  {
    assert raw[..0] == [] && limbs[..0] == [];
  }

  /** `bytes`, read back as a target. */
  method ToTarget(limbs: Quad) returns (t: Target)
    ensures t == ValueOf(limbs)
  {
    hide Value;
    var out: seq<byte> := [];
    NothingYet(out, limbs);
    for i := 0 to 4
      invariant |out| == 8 * i && Value(256, out) == Value(BASE, limbs[..i])
    {
      GroupStep(out, limbs[..i], WordBytes(limbs[i]));
      assert limbs[..i + 1] == limbs[..i] + [limbs[i]];
      out := out + WordBytes(limbs[i]);
    }
    assert limbs[..4] == limbs;
    t := FromBytes(out);
  }

  function FromBytes(s: seq<byte>): (t: Target)
    requires |s| == 32
    ensures t == Value(256, s)
  {
    ValueBound(256, s);
    Modulus();
    Value(256, s)
  }
}
