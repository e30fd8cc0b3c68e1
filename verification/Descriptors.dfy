/** Descriptors with their checksum (`with_checksum` in `descriptor.rs`) and the check of BIP 380 on the text. */
module Descriptors {
  import opened Bytes
  import opened Checksum

  // the alphabet, in rows of 32
  const FIRST: string := "0123456789()[],'/*abcdefgh@:$%{}"
  const SECOND: string := "IJKLMNOPQRSTUVWXYZ&+-.;<=>?!^_|~"
  const THIRD: string := "ijklmnopqrstuvwxyzABCDEFGH`#\"\\ "
  const INPUT: string := FIRST + SECOND + THIRD
  const CHECKSUM: string := "qpzry9x8gf2tvdw0s3jn54khce6mua7l"

  type Position = p: nat | p < 96

  /** The first position of a character. */
  function Find(s: string, c: char): (r: Option<nat>)
    ensures r.Some? ==> r.value < |s| && s[r.value] == c
  {
    if s == [] then None
    else if s[0] == c then Some(0)
    else match Find(s[1..], c)
         case None => None
         case Some(i) => Some(i + 1)
  }

  /** Positions of the characters of a descriptor, if the alphabet has them all. */
  function Positions(text: string): (r: Option<seq<Position>>)
    ensures r.Some? ==> |r.value| == |text|
  {
    if text == [] then Some([])
    else
      var first, rest := Find(INPUT, text[0]), Positions(text[1..]);
      InputSize();
      if first.Some? && rest.Some? then Some([first.value] + rest.value) else None
  }

  lemma InputSize()
    ensures |INPUT| == 95 && |CHECKSUM| == 32
  {}

  function Low(p: Position): bv5 {
    (p % 32) as bv5
  }

  /** The row of the alphabet a character is in. */
  function Class(p: Position): (c: nat)
    ensures c < 3
  {
    p / 32
  }

  /** One more class, in base three. */
  function Classes(c: nat, p: Position): (d: nat)
    ensures d <= 3 * c + 2
  {
    c * 3 + Class(p)
  }

  /** The symbol of up to three classes, in base three. */
  function ClassSymbol(c: nat): bv5
    requires c < 27
  {
    c as bv5
  }

  /** The symbols of a descriptor: low bits one by one, and after every three their classes. */
  function Expanded(ps: seq<Position>): seq<bv5> {
    if |ps| == 0 then []
    else if |ps| == 1 then [Low(ps[0]), ClassSymbol(Class(ps[0]))]
    else if |ps| == 2 then [Low(ps[0]), Low(ps[1]), ClassSymbol(Classes(Class(ps[0]), ps[1]))]
    else [Low(ps[0]), Low(ps[1]), Low(ps[2]), ClassSymbol(Classes(Classes(Class(ps[0]), ps[1]), ps[2]))] + Expanded(ps[3..])
  }

  /** The text of eight symbols. */
  function Text(symbols: seq<bv5>): (t: string)
    ensures |t| == |symbols|
  {
    if symbols == [] then [] else [CHECKSUM[symbols[0] as int]] + Text(symbols[1..])
  }

  function Symbols32(text: string): (r: Option<seq<bv5>>)
    ensures r.Some? ==> |r.value| == |text|
  {
    if text == [] then Some([])
    else
      var first, rest := Find(CHECKSUM, text[0]), Symbols32(text[1..]);
      if first.Some? && rest.Some? then Some([first.value as bv5] + rest.value) else None
  }

  /** BIP 380's check: a descriptor, the separator and eight symbols that bring the running value to one. */
  predicate Passes(text: string) {
    && |text| >= 9 && text[|text| - 9] == '#'
    && var ps, symbols := Positions(text[..|text| - 9]), Symbols32(text[|text| - 8..]);
       ps.Some? && symbols.Some? && Run(1, Expanded(ps.value) + symbols.value) == 1
  }

  // ----- the loop

  /** The value at the end, from the middle of a descriptor. */
  function Rest(checksum: bv64, c: nat, count: nat, ps: seq<Position>): bv64
    requires count < 3 && c < (if count == 0 then 1 else if count == 1 then 3 else 9)
    decreases |ps|
  {
    if ps == [] then (if count > 0 then Polymod(checksum, Wide(ClassSymbol(c))) else checksum)
    else
      var next, d := Polymod(checksum, Wide(Low(ps[0]))), Classes(c, ps[0]);
      if count == 2 then Rest(Polymod(next, Wide(ClassSymbol(d))), 0, 0, ps[1..])
      else Rest(next, d, count + 1, ps[1..])
  }

  function Checksummed(text: string): Option<string> {
    match Positions(text)
    case None => None
    case Some(ps) => Some(text + ['#'] + Text(Symbols(Final(Run(1, Expanded(ps))))))
  }

  /** `with_checksum`: fails exactly for a character outside the alphabet. */
  method WithChecksum(descriptor: string) returns (r: Option<string>)
    ensures r == Checksummed(descriptor)
  {
    hide Polymod;
    hide Find;
    hide Low;
    hide ClassSymbol;
    hide Class;
    hide Classes;
    hide Wide;
    hide Run;
    hide Positions;
    hide Rest;
    hide Symbols;
    hide Xor;
    hide Text;
    var checksum, c, count := 1, 0, 0;
    ghost var all := Positions(descriptor);
    assert descriptor[0..] == descriptor;
    for i := 0 to |descriptor|
      invariant 0 <= count < 3 && 0 <= c < (if count == 0 then 1 else if count == 1 then 3 else 9)
      invariant all.Some? <==> Positions(descriptor[i..]).Some?
      invariant all.Some? ==> Rest(checksum, c, count, Positions(descriptor[i..]).value) == Rest(1, 0, 0, all.value)
    {
      var position := Find(INPUT, descriptor[i]);
      PositionsUnfold(descriptor, i);
      if position.None? {
        return None;
      }
      ghost var ps := Positions(descriptor[i + 1..]);
      InputSize();
      if ps.Some? {
        RestUnfolds(checksum, c, count, position.value, ps.value);
      }
      checksum := PolymodLoop(checksum, Wide(Low(position.value)));
      c := Classes(c, position.value);
      count := count + 1;
      if count == 3 {
        checksum := PolymodLoop(checksum, Wide(ClassSymbol(c)));
        c := 0;
        count := 0;
      }
    }
    PositionsEnd(descriptor);
    RestEnds(checksum, c, count);
    if count > 0 {
      checksum := PolymodLoop(checksum, Wide(ClassSymbol(c)));
    }
    RestIsRun(1, all.value);
    ghost var run := checksum;
    assert run == Run(1, Expanded(all.value));
    ZerosFrom(run, 8);
    for k := 0 to 8
      invariant Run(checksum, ZeroSymbols(8 - k)) == Run(run, ZeroSymbols(8))
    {
      ZerosFrom(checksum, 8 - k);
      checksum := PolymodLoop(checksum, 0);
    }
    ZerosFrom(checksum, 0);
    checksum := Xor(checksum, 1);
    r := Some(descriptor + ['#'] + Text(Symbols(checksum)));
  }

  lemma ZerosFrom(c: bv64, n: nat)
    ensures Run(c, ZeroSymbols(n)) == if n == 0 then c else Run(Polymod(c, 0), ZeroSymbols(n - 1))
  {
    hide Polymod;
    if n > 0 {
      assert ZeroSymbols(n)[1..] == ZeroSymbols(n - 1);
      WideIsSmall(0);
    }
  }

  lemma PositionsUnfold(text: string, i: nat)
    requires i < |text|
    ensures Positions(text[i..]).Some? <==> Find(INPUT, text[i]).Some? && Positions(text[i + 1..]).Some?
    ensures Positions(text[i..]).Some? ==> Positions(text[i..]).value == [Find(INPUT, text[i]).value] + Positions(text[i + 1..]).value
  {
    hide Find;
    assert text[i..][1..] == text[i + 1..];
  }

  lemma PositionsEnd(text: string)
    ensures Positions(text[|text|..]) == Some([])
  {}

  lemma RestUnfolds(checksum: bv64, c: nat, count: nat, p: Position, ps: seq<Position>)
    requires count < 3 && c < (if count == 0 then 1 else if count == 1 then 3 else 9)
    ensures var next, d := Polymod(checksum, Wide(Low(p))), Classes(c, p);
            Rest(checksum, c, count, [p] + ps)
            == if count == 2 then Rest(Polymod(next, Wide(ClassSymbol(d))), 0, 0, ps) else Rest(next, d, count + 1, ps)
  {
    hide Polymod;
    hide Low;
    hide ClassSymbol;
    assert ([p] + ps)[1..] == ps;
  }

  lemma RestEnds(checksum: bv64, c: nat, count: nat)
    requires count < 3 && c < (if count == 0 then 1 else if count == 1 then 3 else 9)
    ensures Rest(checksum, c, count, []) == if count > 0 then Polymod(checksum, Wide(ClassSymbol(c))) else checksum
  {
    hide Polymod;
    hide ClassSymbol;
  }

  /** The loop runs over the expanded symbols. */
  lemma {:induction false} RestIsRun(checksum: bv64, ps: seq<Position>)
    ensures Rest(checksum, 0, 0, ps) == Run(checksum, Expanded(ps))
    decreases |ps|
  {
    hide Polymod;
    hide Low;
    hide ClassSymbol;
    hide Rest;
    hide Run;
    hide Class;
    hide Classes;
    if |ps| > 0 {
      FirstClass(ps[0]);
    }
    if |ps| == 0 {
      RestEnds(checksum, 0, 0);
      RunNothing(checksum);
    } else if |ps| == 1 {
      assert ps == [ps[0]] + [];
      RestUnfolds(checksum, 0, 0, ps[0], []);
      var c1 := Polymod(checksum, Wide(Low(ps[0])));
      RestEnds(c1, Class(ps[0]), 1);
      Run2(checksum, Low(ps[0]), ClassSymbol(Class(ps[0])));
    } else if |ps| == 2 {
      assert ps == [ps[0]] + [ps[1]] && [ps[1]] == [ps[1]] + [];
      RestUnfolds(checksum, 0, 0, ps[0], [ps[1]]);
      var c1 := Polymod(checksum, Wide(Low(ps[0])));
      RestUnfolds(c1, Class(ps[0]), 1, ps[1], []);
      var c2 := Polymod(c1, Wide(Low(ps[1])));
      RestEnds(c2, Classes(Class(ps[0]), ps[1]), 2);
      Run3(checksum, Low(ps[0]), Low(ps[1]), ClassSymbol(Classes(Class(ps[0]), ps[1])));
    } else {
      var rest := ps[3..];
      Triple(checksum, ps[0], ps[1], ps[2], rest);
      assert ps == [ps[0]] + ([ps[1]] + ([ps[2]] + rest));
      var d := Classes(Classes(Class(ps[0]), ps[1]), ps[2]);
      var c4 := Polymod(Polymod(Polymod(Polymod(checksum, Wide(Low(ps[0]))), Wide(Low(ps[1]))), Wide(Low(ps[2]))), Wide(ClassSymbol(d)));
      RestIsRun(c4, rest);
      Run4(checksum, Low(ps[0]), Low(ps[1]), Low(ps[2]), ClassSymbol(d), Expanded(rest));
    }
  }

  lemma FirstClass(p: Position)
    ensures Classes(0, p) == Class(p)
  {}

  lemma Triple(checksum: bv64, p: Position, q: Position, r: Position, rest: seq<Position>)
    ensures var d := Classes(Classes(Class(p), q), r);
            var c3 := Polymod(Polymod(Polymod(checksum, Wide(Low(p))), Wide(Low(q))), Wide(Low(r)));
            Rest(checksum, 0, 0, [p] + ([q] + ([r] + rest))) == Rest(Polymod(c3, Wide(ClassSymbol(d))), 0, 0, rest)
  {
    hide Polymod;
    hide Low;
    hide ClassSymbol;
    hide Rest;
    hide Class;
    hide Classes;
    FirstClass(p);
    var c1 := Polymod(checksum, Wide(Low(p)));
    var c2 := Polymod(c1, Wide(Low(q)));
    RestUnfolds(c2, Classes(Class(p), q), 2, r, rest);
    RestUnfolds(c1, Class(p), 1, q, [r] + rest);
    RestUnfolds(checksum, 0, 0, p, [q] + ([r] + rest));
  }

  lemma RunOne(c: bv64, v: bv5, s: seq<bv5>)
    ensures Run(c, [v] + s) == Run(Polymod(c, Wide(v)), s)
  {
    hide Polymod;
    hide Wide;
    assert ([v] + s)[1..] == s;
  }

  lemma Run2(c: bv64, v: bv5, w: bv5)
    ensures Run(c, [v, w]) == Polymod(Polymod(c, Wide(v)), Wide(w))
  {
    hide Polymod;
    hide Wide;
    hide Run;
    assert [v, w] == [v] + ([w] + []);
    RunOne(c, v, [w] + []);
    RunOne(Polymod(c, Wide(v)), w, []);
    RunNothing(Polymod(Polymod(c, Wide(v)), Wide(w)));
  }

  lemma Run3(c: bv64, v: bv5, w: bv5, x: bv5)
    ensures Run(c, [v, w, x]) == Polymod(Polymod(Polymod(c, Wide(v)), Wide(w)), Wide(x))
  {
    hide Polymod;
    hide Wide;
    hide Run;
    assert [v, w, x] == [v] + [w, x];
    RunOne(c, v, [w, x]);
    Run2(Polymod(c, Wide(v)), w, x);
  }

  lemma Run4(c: bv64, v: bv5, w: bv5, x: bv5, y: bv5, s: seq<bv5>)
    ensures Run(c, [v, w, x, y] + s) == Run(Polymod(Polymod(Polymod(Polymod(c, Wide(v)), Wide(w)), Wide(x)), Wide(y)), s)
  {
    hide Polymod;
    hide Wide;
    hide Run;
    assert [v, w, x, y] + s == [v, w, x] + ([y] + s);
    RunConcat(c, [v, w, x], [y] + s);
    Run3(c, v, w, x);
    RunOne(Run(c, [v, w, x]), y, s);
  }

  // ----- symbols and their text

  lemma {:induction false} FindFirst(s: string, i: nat)
    requires i < |s| && forall j :: 0 <= j < i ==> s[j] != s[i]
    ensures Find(s, s[i]) == Some(i)
  {
    if i > 0 {
      var t := s[1..];
      assert forall j :: 0 <= j < i - 1 ==> t[j] == s[j + 1];
      FindFirst(t, i - 1);
    }
  }

  /** Which symbol a checksum character stands for. */
  function Code(c: char): nat {
    match c
    case 'q' => 0 case 'p' => 1 case 'z' => 2 case 'r' => 3 case 'y' => 4 case '9' => 5 case 'x' => 6 case '8' => 7
    case 'g' => 8 case 'f' => 9 case '2' => 10 case 't' => 11 case 'v' => 12 case 'd' => 13 case 'w' => 14 case '0' => 15
    case 's' => 16 case '3' => 17 case 'j' => 18 case 'n' => 19 case '5' => 20 case '4' => 21 case 'k' => 22 case 'h' => 23
    case 'c' => 24 case 'e' => 25 case '6' => 26 case 'm' => 27 case 'u' => 28 case 'a' => 29 case '7' => 30
    case _ => 31
  }

  lemma Coded(i: nat)
    requires i < 32
    ensures |CHECKSUM| == 32 && Code(CHECKSUM[i]) == i
  {}

  /** A symbol is found where its character is. */
  lemma SymbolRoundTrip(v: bv5)
    ensures |CHECKSUM| == 32 && v as int < 32 && Find(CHECKSUM, CHECKSUM[v as int]) == Some(v as int) && (v as int) as bv5 == v
  {
    hide Find;
    hide Code;
    var i: nat := v as int;
    forall j | 0 <= j < i ensures CHECKSUM[j] != CHECKSUM[i] {
      Coded(i);
      Coded(j);
    }
    FindFirst(CHECKSUM, i);
  }

  lemma {:induction false} TextRoundTrip(s: seq<bv5>)
    ensures Symbols32(Text(s)) == Some(s)
  {
    hide Find;
    if s != [] {
      SymbolRoundTrip(s[0]);
      TextRoundTrip(s[1..]);
      assert Text(s)[1..] == Text(s[1..]);
      assert s == [s[0]] + s[1..];
    }
  }

  lemma {:induction false} TextIsCanonical(t: string)
    requires Symbols32(t).Some?
    ensures Text(Symbols32(t).value) == t
  {
    hide Find;
    if t != [] {
      TextIsCanonical(t[1..]);
      IndexRoundTrip(Find(CHECKSUM, t[0]).value);
    }
  }

  lemma IndexRoundTrip(i: nat)
    requires i < 32
    ensures (i as bv5) as int == i
  {}

  /** Of all texts that continue a descriptor with the separator and eight characters, exactly the checksummed one passes. */
  lemma OnlyTheChecksumPasses(descriptor: string, tail: string)
    requires |tail| == 8 && Positions(descriptor).Some?
    ensures Passes(descriptor + ['#'] + tail) <==> Checksummed(descriptor) == Some(descriptor + ['#'] + tail)
  {
    hide Positions;
    hide Symbols32;
    hide Expanded;
    hide Run;
    hide Text;
    hide Symbols;
    hide Final;
    var text, s := descriptor + ['#'] + tail, Symbols32(tail);
    assert text[..|text| - 9] == descriptor && text[|text| - 8..] == tail;
    var e := Expanded(Positions(descriptor).value);
    RunBelow(1, e);
    var right := Symbols(Final(Run(1, e)));
    if s.Some? {
      RunConcat(1, e, s.value);
      OnlyTheseSymbols(Run(1, e), s.value);
      TextIsCanonical(tail);
    }
    TextRoundTrip(right);
    TailOf(descriptor, tail, Text(right));
  }

  lemma TailOf(descriptor: string, tail: string, right: string)
    ensures descriptor + ['#'] + tail == descriptor + ['#'] + right <==> tail == right
  {
    var n := |descriptor| + 1;
    assert (descriptor + ['#'] + tail)[n..] == tail && (descriptor + ['#'] + right)[n..] == right;
  }

  /** Every checksummed descriptor passes. */
  lemma ChecksummedPasses(descriptor: string)
    requires Checksummed(descriptor).Some?
    ensures Passes(Checksummed(descriptor).value)
  {
    hide Positions;
    hide Passes;
    hide Expanded;
    hide Run;
    hide Symbols;
    hide Final;
    var symbols := Symbols(Final(Run(1, Expanded(Positions(descriptor).value))));
    OnlyTheChecksumPasses(descriptor, Text(symbols));
  }
}
