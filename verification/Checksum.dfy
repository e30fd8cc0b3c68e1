/**
 The descriptor checksum (`descriptor.rs`): a running 40-bit value over GF(2), and why the eight symbols
 appended to a descriptor are the only ones that pass the verification of BIP 380, section "Checksum".
 */
module Checksum {
  import opened Bytes

  const LIMIT: bv64 := 0x100_0000_0000

  // ----- one step

  function Generator(k: nat): bv64
    requires k < 5
  {
    if k == 0 then 0xf5dee51989
    else if k == 1 then 0xa9fdca3312
    else if k == 2 then 0x1bab10e32d
    else if k == 3 then 0x3706b1677a
    else 0x644d626ffd
  }

  function Xor(a: bv64, b: bv64): bv64 {
    a ^ b
  }

  predicate Bit(top: bv64, k: nat)
    requires k < 5
  {
    if k == 0 then top & 1 != 0
    else if k == 1 then (top >> 1) & 1 != 0
    else if k == 2 then (top >> 2) & 1 != 0
    else if k == 3 then (top >> 3) & 1 != 0
    else (top >> 4) & 1 != 0
  }

  function Select(on: bool, g: bv64): bv64 {
    if on then g else 0
  }

  /** `next` after the first `k` generators. */
  function Reduced(next: bv64, top: bv64, k: nat): bv64
    requires k <= 5
  {
    if k == 0 then next else Xor(Reduced(next, top, k - 1), Select(Bit(top, k - 1), Generator(k - 1)))
  }

  function Shifted(checksum: bv64, value: bv64): bv64 {
    ((checksum & 0x7_ffff_ffff) << 5) ^ value
  }

  function Top(checksum: bv64): bv64 {
    checksum >> 35
  }

  function Polymod(checksum: bv64, value: bv64): bv64 {
    Reduced(Shifted(checksum, value), Top(checksum), 5)
  }

  /** `polymod`. */
  method PolymodLoop(checksum: bv64, value: bv64) returns (next: bv64)
    ensures next == Polymod(checksum, value)
  {
    hide Bit;
    hide Shifted;
    hide Top;
    hide Xor;
    hide Generator;
    hide Select;
    var top := Top(checksum);
    next := Shifted(checksum, value);
    for bit := 0 to 5
      invariant next == Reduced(Shifted(checksum, value), top, bit)
    {
      Selected(next, Generator(bit));
      if Bit(top, bit) {
        next := Xor(next, Generator(bit));
      }
    }
  }

  // ----- exclusive or

  lemma Selected(x: bv64, g: bv64)
    ensures Select(true, g) == g && Xor(x, Select(false, g)) == x
  {}

  lemma XorLaws(a: bv64, b: bv64, c: bv64, d: bv64)
    ensures Xor(Xor(a, b), Xor(c, d)) == Xor(Xor(a, c), Xor(b, d))
    ensures Xor(a, 0) == a && Xor(0, a) == a && Xor(a, a) == 0
  {}

  lemma XorSolves(a: bv64, b: bv64, c: bv64)
    ensures Xor(a, b) == c <==> b == Xor(a, c)
  {
    hide Xor;
    XorUndone(a, b);
    XorUndone(a, c);
  }

  lemma XorUndone(a: bv64, b: bv64)
    ensures Xor(a, Xor(a, b)) == b
  {}

  lemma XorBelow(a: bv64, b: bv64)
    requires a < LIMIT && b < LIMIT
    ensures Xor(a, b) < LIMIT
  {}

  // ----- linearity

  lemma BitLinear(t: bv64, u: bv64, k: nat)
    requires k < 5
    ensures Bit(Xor(t, u), k) == (Bit(t, k) != Bit(u, k))
  {
    hide Bit;
    hide Xor;
    if k < 2 {
      LowBitsLinear(t, u);
    } else {
      HighBitsLinear(t, u);
    }
  }

  lemma LowBitsLinear(t: bv64, u: bv64)
    ensures Bit(Xor(t, u), 0) == (Bit(t, 0) != Bit(u, 0))
    ensures Bit(Xor(t, u), 1) == (Bit(t, 1) != Bit(u, 1))
  {}

  lemma HighBitsLinear(t: bv64, u: bv64)
    ensures Bit(Xor(t, u), 2) == (Bit(t, 2) != Bit(u, 2))
    ensures Bit(Xor(t, u), 3) == (Bit(t, 3) != Bit(u, 3))
    ensures Bit(Xor(t, u), 4) == (Bit(t, 4) != Bit(u, 4))
  {}

  lemma SelectLinear(x: bool, y: bool, g: bv64)
    ensures Select(x != y, g) == Xor(Select(x, g), Select(y, g))
  {
    if x && y {
    } else if x {
    } else if y {
    } else {
    }
  }

  lemma {:induction false} ReducedLinear(m: bv64, n: bv64, t: bv64, u: bv64, k: nat)
    requires k <= 5
    ensures Reduced(Xor(m, n), Xor(t, u), k) == Xor(Reduced(m, t, k), Reduced(n, u, k))
  {
    hide Bit;
    hide Select;
    hide Generator;
    hide Xor;
    if k > 0 {
      var j, g := k - 1, Generator(k - 1);
      ReducedLinear(m, n, t, u, j);
      BitLinear(t, u, j);
      SelectLinear(Bit(t, j), Bit(u, j), g);
      XorLaws(Reduced(m, t, j), Select(Bit(t, j), g), Reduced(n, u, j), Select(Bit(u, j), g));
    }
  }

  lemma ShiftedLinear(a: bv64, b: bv64, u: bv64, v: bv64)
    ensures Shifted(Xor(a, b), Xor(u, v)) == Xor(Shifted(a, u), Shifted(b, v))
    ensures Top(Xor(a, b)) == Xor(Top(a), Top(b))
  {}

  /** A step is linear over GF(2). */
  lemma PolymodLinear(a: bv64, b: bv64, u: bv64, v: bv64)
    ensures Polymod(Xor(a, b), Xor(u, v)) == Xor(Polymod(a, u), Polymod(b, v))
  {
    hide Shifted;
    hide Reduced;
    hide Xor;
    hide Top;
    ShiftedLinear(a, b, u, v);
    ReducedLinear(Shifted(a, u), Shifted(b, v), Top(a), Top(b), 5);
  }

  // ----- the running value stays below 2^40

  lemma ShiftedBelow(checksum: bv64, value: bv64)
    requires value < 32
    ensures Shifted(checksum, value) < LIMIT
  {}

  lemma SelectBelow(on: bool, k: nat)
    requires k < 5
    ensures Select(on, Generator(k)) < LIMIT
  {}

  lemma {:induction false} ReducedBelow(next: bv64, top: bv64, k: nat)
    requires next < LIMIT && k <= 5
    ensures Reduced(next, top, k) < LIMIT
  {
    hide Bit;
    hide Select;
    hide Generator;
    hide Xor;
    if k > 0 {
      ReducedBelow(next, top, k - 1);
      SelectBelow(Bit(top, k - 1), k - 1);
      XorBelow(Reduced(next, top, k - 1), Select(Bit(top, k - 1), Generator(k - 1)));
    }
  }

  lemma PolymodBelow(checksum: bv64, value: bv64)
    requires value < 32
    ensures Polymod(checksum, value) < LIMIT
  {
    hide Shifted;
    hide Reduced;
    hide Top;
    ShiftedBelow(checksum, value);
    ReducedBelow(Shifted(checksum, value), Top(checksum), 5);
  }

  // ----- runs

  function Wide(v: bv5): bv64 {
    v as bv64
  }

  lemma WideIsSmall(v: bv5)
    ensures Wide(v) < 32 && Wide(0) == 0
  {}

  function Run(checksum: bv64, symbols: seq<bv5>): bv64
    decreases |symbols|
  {
    if symbols == [] then checksum else Run(Polymod(checksum, Wide(symbols[0])), symbols[1..])
  }

  lemma {:induction false} RunConcat(c: bv64, s: seq<bv5>, t: seq<bv5>)
    ensures Run(c, s + t) == Run(Run(c, s), t)
    decreases |s|
  {
    hide Polymod;
    hide Wide;
    if s == [] {
      assert s + t == t;
    } else {
      assert (s + t)[1..] == s[1..] + t;
      RunConcat(Polymod(c, Wide(s[0])), s[1..], t);
    }
  }

  lemma {:induction false} RunBelow(c: bv64, s: seq<bv5>)
    requires c < LIMIT
    ensures Run(c, s) < LIMIT
    decreases |s|
  {
    hide Polymod;
    hide Wide;
    if s != [] {
      WideIsSmall(s[0]);
      PolymodBelow(c, Wide(s[0]));
      RunBelow(Polymod(c, Wide(s[0])), s[1..]);
    }
  }

  function ZeroSymbols(n: nat): (s: seq<bv5>)
    ensures |s| == n
  {
    if n == 0 then [] else [0] + ZeroSymbols(n - 1)
  }

  /** Symbols act on a run as they act on zero. */
  lemma {:induction false} RunSplits(a: bv64, b: bv64, s: seq<bv5>)
    ensures Run(Xor(a, b), s) == Xor(Run(a, ZeroSymbols(|s|)), Run(b, s))
    decreases |s|
  {
    hide Polymod;
    hide Wide;
    hide Xor;
    if s != [] {
      var v := Wide(s[0]);
      WideIsSmall(s[0]);
      XorLaws(v, 0, 0, 0);
      PolymodLinear(a, b, 0, v);
      assert ZeroSymbols(|s|)[0] == 0 && ZeroSymbols(|s|)[1..] == ZeroSymbols(|s| - 1);
      RunSplits(Polymod(a, 0), Polymod(b, v), s[1..]);
    }
  }

  // ----- eight symbols fill a value that starts at zero

  /** Nothing is pushed out of a value below 2^35. */
  lemma NoReduction(checksum: bv64, value: bv64)
    requires checksum < 0x8_0000_0000
    ensures Polymod(checksum, value) == (checksum << 5) ^ value
  {
    hide Select;
    hide Xor;
    hide Generator;
    hide Bit;
    hide Top;
    hide Shifted;
    NothingOnTop(checksum, value);
    var next := Shifted(checksum, value);
    Selected(next, Generator(0));
    Selected(next, Generator(1));
    Selected(next, Generator(2));
    Selected(next, Generator(3));
    Selected(next, Generator(4));
    assert Reduced(next, Top(checksum), 1) == next;
    assert Reduced(next, Top(checksum), 2) == next;
    assert Reduced(next, Top(checksum), 3) == next;
    assert Reduced(next, Top(checksum), 4) == next;
  }

  lemma NothingOnTop(checksum: bv64, value: bv64)
    requires checksum < 0x8_0000_0000
    ensures var t := Top(checksum); !Bit(t, 0) && !Bit(t, 1) && !Bit(t, 2) && !Bit(t, 3) && !Bit(t, 4)
    ensures Shifted(checksum, value) == (checksum << 5) ^ value
  {}

  function Push(c: bv64, v: bv5): bv64 {
    (c << 5) ^ (v as bv64)
  }

  /** Eight symbols side by side. */
  function Packed(s: seq<bv5>): bv64
    requires |s| == 8
  {
    Pack8(s[0], s[1], s[2], s[3], s[4], s[5], s[6], s[7])
  }

  lemma PushStep(c: bv64, s: seq<bv5>, k: nat)
    requires c < 0x8_0000_0000 && k < |s|
    ensures Run(c, s[k..]) == Run(Push(c, s[k]), s[k + 1..])
  {
    hide Polymod;
    NoReduction(c, Wide(s[k]));
    assert s[k..][1..] == s[k + 1..];
  }

  lemma PushBounds(a: bv5, b: bv5, c: bv5, d: bv5, e: bv5, f: bv5, g: bv5)
    ensures Push(0, a) < 0x20
    ensures Push(Push(0, a), b) < 0x400
    ensures Push(Push(Push(0, a), b), c) < 0x8000
    ensures Push(Push(Push(Push(0, a), b), c), d) < 0x10_0000
    ensures Push(Push(Push(Push(Push(0, a), b), c), d), e) < 0x200_0000
    ensures Push(Push(Push(Push(Push(Push(0, a), b), c), d), e), f) < 0x4000_0000
    ensures Push(Push(Push(Push(Push(Push(Push(0, a), b), c), d), e), f), g) < 0x8_0000_0000
  {}

  lemma RunOfEight(s: seq<bv5>)
    requires |s| == 8
    ensures Run(0, s) == Packed(s)
  {
    hide Run;
    hide Push;
    PushBounds(s[0], s[1], s[2], s[3], s[4], s[5], s[6]);
    var c1 := Push(0, s[0]);
    var c2 := Push(c1, s[1]);
    var c3 := Push(c2, s[2]);
    var c4 := Push(c3, s[3]);
    assert s[0..] == s && s[8..] == [];
    PushFour(0, s, 0);
    PushFour(c4, s, 4);
    RunNothing(Packed(s));
  }

  lemma PushFour(c: bv64, s: seq<bv5>, k: nat)
    requires |s| == 8 && k <= 4 && c < 0x8_0000_0000
    requires Push(c, s[k]) < 0x8_0000_0000 && Push(Push(c, s[k]), s[k + 1]) < 0x8_0000_0000
    requires Push(Push(Push(c, s[k]), s[k + 1]), s[k + 2]) < 0x8_0000_0000
    ensures Run(c, s[k..]) == Run(Push(Push(Push(Push(c, s[k]), s[k + 1]), s[k + 2]), s[k + 3]), s[k + 4..])
  {
    hide Run;
    hide Push;
    PushStep(c, s, k);
    PushStep(Push(c, s[k]), s, k + 1);
    PushStep(Push(Push(c, s[k]), s[k + 1]), s, k + 2);
    PushStep(Push(Push(Push(c, s[k]), s[k + 1]), s[k + 2]), s, k + 3);
  }

  lemma RunNothing(c: bv64)
    ensures Run(c, []) == c
  {}

  /** Group `g` of five bits. */
  function Group(x: bv64, g: nat): bv5
    requires g < 8
  {
    if g == 0 then (x & 31) as bv5
    else if g == 1 then ((x >> 5) & 31) as bv5
    else if g == 2 then ((x >> 10) & 31) as bv5
    else if g == 3 then ((x >> 15) & 31) as bv5
    else if g == 4 then ((x >> 20) & 31) as bv5
    else if g == 5 then ((x >> 25) & 31) as bv5
    else if g == 6 then ((x >> 30) & 31) as bv5
    else ((x >> 35) & 31) as bv5
  }

  function Symbols(x: bv64): (s: seq<bv5>)
    ensures |s| == 8
  {
    [Group(x, 7), Group(x, 6), Group(x, 5), Group(x, 4), Group(x, 3), Group(x, 2), Group(x, 1), Group(x, 0)]
  }

  function Pack8(a: bv5, b: bv5, c: bv5, d: bv5, e: bv5, f: bv5, g: bv5, h: bv5): bv64 {
    Push(Push(Push(Push(Push(Push(Push(Push(0, a), b), c), d), e), f), g), h)
  }

  lemma GroupsPack(x: bv64)
    requires x < LIMIT
    ensures Pack8(Group(x, 7), Group(x, 6), Group(x, 5), Group(x, 4), Group(x, 3), Group(x, 2), Group(x, 1), Group(x, 0)) == x
  {}

  lemma PackGroups(a: bv5, b: bv5, c: bv5, d: bv5, e: bv5, f: bv5, g: bv5, h: bv5)
    ensures var x := Pack8(a, b, c, d, e, f, g, h);
            && Group(x, 7) == a && Group(x, 6) == b && Group(x, 5) == c && Group(x, 4) == d
            && Group(x, 3) == e && Group(x, 2) == f && Group(x, 1) == g && Group(x, 0) == h
  {}

  /** Eight symbols and a value below 2^40 are two forms of one thing. */
  lemma PackedIff(s: seq<bv5>, x: bv64)
    requires |s| == 8 && x < LIMIT
    ensures Packed(s) == x <==> s == Symbols(x)
  {
    hide Pack8;
    hide Group;
    GroupsPack(x);
    PackGroups(s[0], s[1], s[2], s[3], s[4], s[5], s[6], s[7]);
    SymbolsAre(s, x);
  }

  lemma SymbolsAre(s: seq<bv5>, x: bv64)
    requires |s| == 8
    ensures s == Symbols(x) <==>
            && s[0] == Group(x, 7) && s[1] == Group(x, 6) && s[2] == Group(x, 5) && s[3] == Group(x, 4)
            && s[4] == Group(x, 3) && s[5] == Group(x, 2) && s[6] == Group(x, 1) && s[7] == Group(x, 0)
  {
    hide Group;
  }

  /** The value that `with_checksum` turns into symbols, after the descriptor itself. */
  function Final(c: bv64): bv64 {
    Xor(Run(c, ZeroSymbols(8)), 1)
  }

  /** After any run, eight symbols bring the value to one exactly when they are the symbols of `Final`. */
  lemma OnlyTheseSymbols(c: bv64, s: seq<bv5>)
    requires c < LIMIT && |s| == 8
    ensures Run(c, s) == 1 <==> s == Symbols(Final(c))
  {
    hide Run;
    hide Xor;
    hide Symbols;
    hide Packed;
    XorLaws(c, 0, 0, 0);
    RunSplits(c, 0, s);
    RunOfEight(s);
    XorSolves(Run(c, ZeroSymbols(8)), Packed(s), 1);
    RunBelow(c, ZeroSymbols(8));
    XorBelow(Run(c, ZeroSymbols(8)), 1);
    PackedIff(s, Final(c));
  }
}
