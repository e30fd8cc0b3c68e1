/**
 The checksum of a descriptor against BIP 380: the running 40-bit value is the remainder of the specification,
 and of all texts exactly the checksummed ones pass its check.
 */
module DescriptorStandard {
  import opened Bytes
  import opened Checksum
  import opened Descriptors
  import Bip380

  // ----- the running value is the remainder

  /** The eight symbols of a running value. */
  function Sym(x: bv64): Bip380.Poly {
    Bip380.Poly(Group(x, 7), Group(x, 6), Group(x, 5), Group(x, 4), Group(x, 3), Group(x, 2), Group(x, 1), Group(x, 0))
  }

  function Sum(p: Bip380.Poly, q: Bip380.Poly): Bip380.Poly {
    Bip380.Poly(Bip380.Plus(p.c7, q.c7), Bip380.Plus(p.c6, q.c6), Bip380.Plus(p.c5, q.c5), Bip380.Plus(p.c4, q.c4),
                Bip380.Plus(p.c3, q.c3), Bip380.Plus(p.c2, q.c2), Bip380.Plus(p.c1, q.c1), Bip380.Plus(p.c0, q.c0))
  }

  /** `a` times every symbol. */
  function AllTimesA(p: Bip380.Poly): Bip380.Poly {
    Bip380.Poly(Bip380.TimesA(p.c7), Bip380.TimesA(p.c6), Bip380.TimesA(p.c5), Bip380.TimesA(p.c4),
                Bip380.TimesA(p.c3), Bip380.TimesA(p.c2), Bip380.TimesA(p.c1), Bip380.TimesA(p.c0))
  }

  function AllIf(bit: bool, p: Bip380.Poly): Bip380.Poly {
    Bip380.Poly(Bip380.If(bit, p.c7), Bip380.If(bit, p.c6), Bip380.If(bit, p.c5), Bip380.If(bit, p.c4),
                Bip380.If(bit, p.c3), Bip380.If(bit, p.c2), Bip380.If(bit, p.c1), Bip380.If(bit, p.c0))
  }

  lemma GroupSum(x: bv64, y: bv64, g: nat)
    requires g < 8
    ensures Group(Xor(x, y), g) == Bip380.Plus(Group(x, g), Group(y, g))
  {
    if g == 0 {} else if g == 1 {} else if g == 2 {} else if g == 3 {} else if g == 4 {} else if g == 5 {} else if g == 6 {} else {}
  }

  lemma SymSum(x: bv64, y: bv64)
    ensures Sym(Xor(x, y)) == Sum(Sym(x), Sym(y))
  {
    hide Group;
    hide Xor;
    GroupSum(x, y, 7);
    GroupSum(x, y, 6);
    GroupSum(x, y, 5);
    GroupSum(x, y, 4);
    GroupSum(x, y, 3);
    GroupSum(x, y, 2);
    GroupSum(x, y, 1);
    GroupSum(x, y, 0);
  }

  /** The first constant is the generator polynomial. */
  lemma FirstGenerator()
    ensures Sym(Generator(0)) == Bip380.GENERATOR
  {}

  /** Each constant is `a` times the one before, in every symbol. */
  lemma GeneratorsDouble(k: nat)
    requires k < 4
    ensures Sym(Generator(k + 1)) == AllTimesA(Sym(Generator(k)))
  {
    if k == 0 { Second(); } else if k == 1 { Third(); } else if k == 2 { Fourth(); } else { Fifth(); }
  }

  lemma Second()
    ensures Sym(Generator(1)) == AllTimesA(Sym(Generator(0)))
  {}

  lemma Third()
    ensures Sym(Generator(2)) == AllTimesA(Sym(Generator(1)))
  {}

  lemma Fourth()
    ensures Sym(Generator(3)) == AllTimesA(Sym(Generator(2)))
  {}

  lemma Fifth()
    ensures Sym(Generator(4)) == AllTimesA(Sym(Generator(3)))
  {}

  lemma SymSelect(on: bool, k: nat)
    requires k < 5
    ensures Sym(Select(on, Generator(k))) == AllIf(on, Sym(Generator(k)))
  {
    hide Generator;
    hide Group;
    if on {
    } else {
      SymZero();
    }
  }

  lemma SymZero()
    ensures Sym(0) == Bip380.Poly(0, 0, 0, 0, 0, 0, 0, 0)
  {}

  /** Without reduction, a step moves every symbol up by one and adds the new one. */
  lemma SymShifted(x: bv64, v: bv5)
    requires x < LIMIT
    ensures Sym(Shifted(x, Wide(v)))
         == Bip380.Poly(Group(x, 6), Group(x, 5), Group(x, 4), Group(x, 3), Group(x, 2), Group(x, 1), Group(x, 0), v)
  {}

  /** The bits that select constants are those of the top symbol. */
  lemma TopBits(x: bv64)
    requires x < LIMIT
    ensures var t := Group(x, 7);
            && Bit(Top(x), 0) == (t & 1 != 0) && Bit(Top(x), 1) == (t & 2 != 0) && Bit(Top(x), 2) == (t & 4 != 0)
            && Bit(Top(x), 3) == (t & 8 != 0) && Bit(Top(x), 4) == (t & 16 != 0)
  {}

  lemma ReducedIs(n: bv64, t: bv64)
    ensures Reduced(n, t, 5)
         == Xor(Xor(Xor(Xor(Xor(n, Select(Bit(t, 0), Generator(0))), Select(Bit(t, 1), Generator(1))),
                        Select(Bit(t, 2), Generator(2))), Select(Bit(t, 3), Generator(3))), Select(Bit(t, 4), Generator(4)))
  {
    hide Xor;
    hide Select;
    hide Bit;
    hide Generator;
    hide Reduced;
    NotReduced(n, t);
    ReducedStep(n, t, 0);
    ReducedStep(n, t, 1);
    ReducedStep(n, t, 2);
    ReducedStep(n, t, 3);
    ReducedStep(n, t, 4);
  }

  lemma NotReduced(n: bv64, t: bv64)
    ensures Reduced(n, t, 0) == n
  {}

  lemma ReducedStep(n: bv64, t: bv64, k: nat)
    requires k < 5
    ensures Reduced(n, t, k + 1) == Xor(Reduced(n, t, k), Select(Bit(t, k), Generator(k)))
  {
    hide Xor;
    hide Select;
    hide Bit;
    hide Generator;
  }

  /** The sum of the constants that a top symbol selects. */
  function Selected5(b0: bool, b1: bool, b2: bool, b3: bool, b4: bool, n: Bip380.Poly, g: Bip380.Poly): Bip380.Poly {
    var g1 := AllTimesA(g);
    var g2 := AllTimesA(g1);
    var g3 := AllTimesA(g2);
    var g4 := AllTimesA(g3);
    Sum(Sum(Sum(Sum(Sum(n, AllIf(b0, g)), AllIf(b1, g1)), AllIf(b2, g2)), AllIf(b3, g3)), AllIf(b4, g4))
  }

  lemma SymReduced(n: bv64, t: bv64)
    ensures Sym(Reduced(n, t, 5)) == Selected5(Bit(t, 0), Bit(t, 1), Bit(t, 2), Bit(t, 3), Bit(t, 4), Sym(n), Bip380.GENERATOR)
  {
    hide Sym;
    hide Xor;
    hide Select;
    hide Bit;
    hide Generator;
    hide Sum;
    hide AllIf;
    hide AllTimesA;
    hide Reduced;
    ReducedIs(n, t);
    var s0, s1, s2, s3, s4 := Select(Bit(t, 0), Generator(0)), Select(Bit(t, 1), Generator(1)), Select(Bit(t, 2), Generator(2)),
                              Select(Bit(t, 3), Generator(3)), Select(Bit(t, 4), Generator(4));
    SymSum(n, s0);
    SymSum(Xor(n, s0), s1);
    SymSum(Xor(Xor(n, s0), s1), s2);
    SymSum(Xor(Xor(Xor(n, s0), s1), s2), s3);
    SymSum(Xor(Xor(Xor(Xor(n, s0), s1), s2), s3), s4);
    SymSelect(Bit(t, 0), 0);
    SymSelect(Bit(t, 1), 1);
    SymSelect(Bit(t, 2), 2);
    SymSelect(Bit(t, 3), 3);
    SymSelect(Bit(t, 4), 4);
    FirstGenerator();
    GeneratorsDouble(0);
    GeneratorsDouble(1);
    GeneratorsDouble(2);
    GeneratorsDouble(3);
  }

  /** Adding the selected multiples one after another is adding the top symbol times the coefficient. */
  lemma TimesIs(b: bv5, t: bv5, x: bv5)
    ensures Bip380.Plus(Bip380.Plus(Bip380.Plus(Bip380.Plus(Bip380.Plus(b, Bip380.If(t & 1 != 0, x)),
                                                            Bip380.If(t & 2 != 0, Bip380.TimesA(x))),
                                                Bip380.If(t & 4 != 0, Bip380.TimesA(Bip380.TimesA(x)))),
                                    Bip380.If(t & 8 != 0, Bip380.TimesA(Bip380.TimesA(Bip380.TimesA(x))))),
                        Bip380.If(t & 16 != 0, Bip380.TimesA(Bip380.TimesA(Bip380.TimesA(Bip380.TimesA(x))))))
         == Bip380.Plus(b, Bip380.Times(t, x))
  {
    hide Bip380.TimesA;
    hide Bip380.If;
    Regroup6(b, Bip380.If(t & 1 != 0, x), Bip380.If(t & 2 != 0, Bip380.TimesA(x)),
             Bip380.If(t & 4 != 0, Bip380.TimesA(Bip380.TimesA(x))),
             Bip380.If(t & 8 != 0, Bip380.TimesA(Bip380.TimesA(Bip380.TimesA(x)))),
             Bip380.If(t & 16 != 0, Bip380.TimesA(Bip380.TimesA(Bip380.TimesA(Bip380.TimesA(x))))));
  }

  lemma Regroup6(b: bv5, x: bv5, y: bv5, z: bv5, u: bv5, v: bv5)
    ensures Bip380.Plus(Bip380.Plus(Bip380.Plus(Bip380.Plus(Bip380.Plus(b, x), y), z), u), v)
         == Bip380.Plus(b, Bip380.Plus(Bip380.Plus(Bip380.Plus(Bip380.Plus(x, y), z), u), v))
  {}

  lemma SelectedIsNext(r: Bip380.Poly, v: bv5)
    ensures var t := r.c7;
            Selected5(t & 1 != 0, t & 2 != 0, t & 4 != 0, t & 8 != 0, t & 16 != 0,
                      Bip380.Poly(r.c6, r.c5, r.c4, r.c3, r.c2, r.c1, r.c0, v), Bip380.GENERATOR) == Bip380.Next(r, v)
  {
    hide Bip380.Plus;
    hide Bip380.If;
    hide Bip380.TimesA;
    hide Bip380.Times;
    TimesIs(r.c6, r.c7, 30);
    TimesIs(r.c5, r.c7, 23);
    TimesIs(r.c4, r.c7, 15);
    TimesIs(r.c3, r.c7, 14);
    TimesIs(r.c2, r.c7, 10);
    TimesIs(r.c1, r.c7, 6);
    TimesIs(r.c0, r.c7, 12);
    TimesIs(v, r.c7, 9);
  }

  /** One step of the running value is one step of the specification's remainder. */
  lemma StepIsNext(x: bv64, v: bv5)
    requires x < LIMIT
    ensures Sym(Polymod(x, Wide(v))) == Bip380.Next(Sym(x), v)
  {
    hide Reduced;
    hide Shifted;
    hide Top;
    hide Bit;
    hide Group;
    hide Selected5;
    hide Bip380.Next;
    SymReduced(Shifted(x, Wide(v)), Top(x));
    SymShifted(x, v);
    TopBits(x);
    SelectedIsNext(Sym(x), v);
  }

  lemma {:induction false} RunIsRemainder(x: bv64, symbols: seq<bv5>)
    requires x < LIMIT
    ensures Run(x, symbols) < LIMIT && Sym(Run(x, symbols)) == Bip380.Remainder(Sym(x), symbols)
    decreases |symbols|
  {
    hide Polymod;
    hide Wide;
    hide Sym;
    hide Bip380.Next;
    if symbols != [] {
      WideIsSmall(symbols[0]);
      PolymodBelow(x, Wide(symbols[0]));
      StepIsNext(x, symbols[0]);
      RunIsRemainder(Polymod(x, Wide(symbols[0])), symbols[1..]);
    }
  }

  lemma SymOne()
    ensures Sym(1) == Bip380.ONE
  {}

  lemma SymDetermines(x: bv64)
    requires x < LIMIT
    ensures Sym(x) == Bip380.ONE <==> x == 1
  {
    hide Group;
    SymOne();
    GroupsPack(x);
    GroupsPack(1);
  }

  /** A run ends at one exactly when the remainder is one. */
  lemma RunIsOne(symbols: seq<bv5>)
    ensures Run(1, symbols) == 1 <==> Bip380.Remainder(Bip380.ONE, symbols) == Bip380.ONE
  {
    hide Sym;
    hide Run;
    SymOne();
    RunIsRemainder(1, symbols);
    SymDetermines(Run(1, symbols));
  }

  /** `polymod`, against the specification. */
  method StepLoop(x: bv64, v: bv5) returns (next: bv64)
    requires x < LIMIT
    ensures next < LIMIT && Sym(next) == Bip380.Next(Sym(x), v)
  {
    hide Polymod;
    hide Wide;
    hide Sym;
    hide Bip380.Next;
    WideIsSmall(v);
    PolymodBelow(x, Wide(v));
    StepIsNext(x, v);
    next := PolymodLoop(x, Wide(v));
  }

  // ----- the alphabet

  /** A number for each character, to tell them apart. */
  function Number(c: char): nat {
    if '0' <= c <= '9' then c as nat - '0' as nat
    else if 'a' <= c <= 'h' then 18 + (c as nat - 'a' as nat)
    else if 'I' <= c <= 'Z' then 32 + (c as nat - 'I' as nat)
    else if 'i' <= c <= 'z' then 64 + (c as nat - 'i' as nat)
    else if 'A' <= c <= 'H' then 82 + (c as nat - 'A' as nat)
    else Mark(c)
  }

  function Mark(c: char): nat {
    match c
    case '(' => 10 case ')' => 11 case '[' => 12 case ']' => 13 case ',' => 14 case '\'' => 15 case '/' => 16 case '*' => 17
    case '@' => 26 case ':' => 27 case '$' => 28 case '%' => 29 case '{' => 30 case '}' => 31
    case '&' => 50 case '+' => 51 case '-' => 52 case '.' => 53 case ';' => 54 case '<' => 55 case '=' => 56 case '>' => 57
    case '?' => 58 case '!' => 59 case '^' => 60 case '_' => 61 case '|' => 62 case '~' => 63
    case '`' => 90 case '#' => 91 case '"' => 92 case '\\' => 93
    case _ => 94
  }

  lemma Row0(i: nat)
    requires i < 32
    ensures |FIRST| == 32 && FIRST == Bip380.ROW0 && Number(FIRST[i]) == i
  {}

  lemma Row1(i: nat)
    requires i < 32
    ensures |SECOND| == 32 && SECOND == Bip380.ROW1 && Number(SECOND[i]) == 32 + i
  {
    if i < 18 { Row1Letters(i); } else { Row1Marks(i); }
  }

  lemma Row1Letters(i: nat)
    requires i < 18
    ensures |SECOND| == 32 && Number(SECOND[i]) == 32 + i
  {}

  lemma Row1Marks(i: nat)
    requires 18 <= i < 32
    ensures |SECOND| == 32 && Number(SECOND[i]) == 32 + i
  {}

  lemma Row2(i: nat)
    requires i < 31
    ensures |THIRD| == 31 && THIRD == Bip380.ROW2 && Number(THIRD[i]) == 64 + i
  {}

  function PlaceOf(p: Position): (q: Bip380.Place)
    ensures q.Valid()
  {
    Bip380.Place(p / 32, p % 32)
  }

  lemma InputAt(p: nat)
    requires p < 95
    ensures |INPUT| == 95 && Number(INPUT[p]) == p && Bip380.Stands(INPUT[p], PlaceOf(p))
  {
    hide Number;
    hide FIRST;
    hide SECOND;
    hide THIRD;
    hide Bip380.ROW0;
    hide Bip380.ROW1;
    hide Bip380.ROW2;
    Row0(0);
    Row1(0);
    Row2(0);
    if p < 32 { Row0(p); } else if p < 64 { Row1(p - 32); } else { Row2(p - 64); }
  }

  lemma StandsIn(c: char, q: Bip380.Place)
    requires q.Valid() && Bip380.Stands(c, q)
    ensures 32 * q.row + q.column < 95 && |INPUT| == 95 && INPUT[32 * q.row + q.column] == c
    ensures PlaceOf(32 * q.row + q.column) == q
  {
    hide Number;
    hide FIRST;
    hide SECOND;
    hide THIRD;
    hide Bip380.ROW0;
    hide Bip380.ROW1;
    hide Bip380.ROW2;
    Row0(0);
    Row1(0);
    Row2(0);
  }

  /** A character is found at its only place. */
  lemma FoundWhereItStands(c: char, q: Bip380.Place)
    requires q.Valid() && Bip380.Stands(c, q)
    ensures Find(INPUT, c) == Some(32 * q.row + q.column)
  {
    hide Number;
    hide Find;
    hide Bip380.Stands;
    var p := 32 * q.row + q.column;
    StandsIn(c, q);
    forall j | 0 <= j < p ensures INPUT[j] != INPUT[p] {
      InputAt(j);
      InputAt(p);
    }
    FindFirst(INPUT, p);
  }

  lemma FoundStands(c: char)
    requires Find(INPUT, c).Some?
    ensures Find(INPUT, c).value < 95 && Bip380.Stands(c, PlaceOf(Find(INPUT, c).value))
  {
    hide Find;
    hide Number;
    InputSize();
    InputAt(Find(INPUT, c).value);
  }

  // ----- texts

  function Places(ps: seq<Position>): (qs: seq<Bip380.Place>)
    ensures |qs| == |ps| && Bip380.AllValid(qs)
    ensures forall i :: 0 <= i < |ps| ==> qs[i] == PlaceOf(ps[i])
  {
    if ps == [] then [] else [PlaceOf(ps[0])] + Places(ps[1..])
  }

  lemma ReadsUnfolds(text: string, qs: seq<Bip380.Place>)
    requires text != [] && |qs| == |text|
    ensures Bip380.Reads(text, qs) <==> qs[0].Valid() && Bip380.Stands(text[0], qs[0]) && Bip380.Reads(text[1..], qs[1..])
  {
    hide Bip380.Stands;
    var t, u := text[1..], qs[1..];
    if qs[0].Valid() && Bip380.Stands(text[0], qs[0]) && Bip380.Reads(t, u) {
      forall i | 0 <= i < |text| ensures qs[i].Valid() && Bip380.Stands(text[i], qs[i]) {
        if i > 0 {
          assert text[i] == t[i - 1] && qs[i] == u[i - 1];
        }
      }
    }
    if Bip380.Reads(text, qs) {
      forall i | 0 <= i < |t| ensures u[i].Valid() && Bip380.Stands(t[i], u[i]) {
        assert t[i] == text[i + 1] && u[i] == qs[i + 1];
      }
    }
  }

  /** A character stands exactly where it is found. */
  lemma StandsIff(c: char, q: Bip380.Place)
    ensures q.Valid() && Bip380.Stands(c, q) <==> Find(INPUT, c).Some? && Find(INPUT, c).value < 96 && q == PlaceOf(Find(INPUT, c).value)
  {
    hide Find;
    hide Bip380.Stands;
    hide INPUT;
    if q.Valid() && Bip380.Stands(c, q) {
      FoundWhereItStands(c, q);
      StandsIn(c, q);
    }
    if Find(INPUT, c).Some? {
      FoundStands(c);
    }
  }

  lemma PlacesCons(p: Position, ps: seq<Position>)
    ensures Places([p] + ps) == [PlaceOf(p)] + Places(ps)
  {
    hide PlaceOf;
  }

  lemma PositionsCons(text: string)
    requires text != []
    ensures Positions(text).Some? <==> Find(INPUT, text[0]).Some? && Positions(text[1..]).Some?
    ensures Find(INPUT, text[0]).Some? ==> Find(INPUT, text[0]).value < 96
    ensures Positions(text).Some? ==> Positions(text).value == [Find(INPUT, text[0]).value] + Positions(text[1..]).value
  {
    hide Find;
    InputSize();
  }

  /** The alphabet reads exactly the texts that have positions, and only as those. */
  lemma {:induction false} PositionsRead(text: string, qs: seq<Bip380.Place>)
    ensures Bip380.Reads(text, qs) <==> Positions(text).Some? && qs == Places(Positions(text).value)
    decreases |text|
  {
    hide Find;
    hide INPUT;
    hide Bip380.Reads;
    hide Bip380.Stands;
    hide Positions;
    hide Places;
    hide PlaceOf;
    if text == [] {
      NothingRead(qs);
    } else if |qs| == |text| {
      var c, q, rest := text[0], qs[0], Positions(text[1..]);
      PositionsRead(text[1..], qs[1..]);
      ReadsUnfolds(text, qs);
      StandsIff(c, q);
      PositionsCons(text);
      assert qs == [q] + qs[1..];
      if Positions(text).Some? {
        PlacesCons(Find(INPUT, c).value, rest.value);
        SameParts(q, qs[1..], PlaceOf(Find(INPUT, c).value), Places(rest.value));
      }
    } else if Bip380.Reads(text, qs) {
      ReadsSize(text, qs);
    }
  }

  lemma SameParts<T>(x: T, s: seq<T>, y: T, t: seq<T>)
    ensures [x] + s == [y] + t <==> x == y && s == t
  {
    if [x] + s == [y] + t {
      assert x == ([x] + s)[0] == ([y] + t)[0];
      assert s == ([x] + s)[1..] == ([y] + t)[1..];
    }
  }

  lemma NothingRead(qs: seq<Bip380.Place>)
    ensures Bip380.Reads([], qs) <==> qs == []
    ensures Positions([]) == Some([]) && Places([]) == []
  {}

  lemma ReadsSize(text: string, qs: seq<Bip380.Place>)
    requires Bip380.Reads(text, qs)
    ensures |qs| == |text| && Bip380.AllValid(qs)
  {}

  lemma {:induction false} ExpandedAlike(ps: seq<Position>)
    ensures Bip380.Expand(Places(ps)) == Expanded(ps)
    decreases |ps|
  {
    hide PlaceOf;
    hide Low;
    hide ClassSymbol;
    hide Class;
    hide Classes;
    hide Bip380.Column;
    hide Bip380.Rows;
    if |ps| >= 1 {
      ColumnIsLow(ps[0]);
      RowsOne(ps[0]);
    }
    if |ps| >= 2 {
      ColumnIsLow(ps[1]);
      RowsTwo(ps[0], ps[1]);
    }
    if |ps| >= 3 {
      ColumnIsLow(ps[2]);
      RowsThree(ps[0], ps[1], ps[2]);
      ExpandedAlike(ps[3..]);
      assert Places(ps)[3..] == Places(ps[3..]);
    }
  }

  lemma ColumnIsLow(p: Position)
    ensures Bip380.Column(PlaceOf(p)) == Low(p)
  {}

  lemma RowsOne(p: Position)
    ensures PlaceOf(p).row < 3 && Bip380.Rows(0, 0, PlaceOf(p).row) == ClassSymbol(Class(p))
  {}

  lemma RowsTwo(p: Position, q: Position)
    ensures PlaceOf(p).row < 3 && PlaceOf(q).row < 3
    ensures Bip380.Rows(0, PlaceOf(p).row, PlaceOf(q).row) == ClassSymbol(Classes(Class(p), q))
  {}

  lemma RowsThree(p: Position, q: Position, r: Position)
    ensures PlaceOf(p).row < 3 && PlaceOf(q).row < 3 && PlaceOf(r).row < 3
    ensures Bip380.Rows(PlaceOf(p).row, PlaceOf(q).row, PlaceOf(r).row) == ClassSymbol(Classes(Classes(Class(p), q), r))
  {}

  lemma SymbolsAlike()
    ensures Bip380.SYMBOLS == CHECKSUM && |CHECKSUM| == 32
  {
    InputSize();
  }

  lemma SymbolIndex(v: bv5)
    ensures v as int < 32
  {}

  /** Eight characters spell exactly the symbols they are read as. */
  lemma {:induction false} SymbolsSpelled(text: string)
    ensures forall s :: Bip380.Spells(text, s) <==> Symbols32(text) == Some(s)
    decreases |text|
  {
    hide Find;
    SymbolsAlike();
    if text == [] {
    } else {
      SymbolsSpelled(text[1..]);
      forall s ensures Bip380.Spells(text, s) <==> Symbols32(text) == Some(s) {
        SpellsUnfolds(text, s);
      }
    }
  }

  lemma SpellsUnfolds(text: string, s: seq<bv5>)
    requires text != [] && (forall t :: Bip380.Spells(text[1..], t) <==> Symbols32(text[1..]) == Some(t))
    ensures Bip380.Spells(text, s) <==> Symbols32(text) == Some(s)
  {
    hide Find;
    SymbolsAlike();
    if Bip380.Spells(text, s) {
      SymbolRoundTrip(s[0]);
      assert forall i :: 0 <= i < |text| - 1 ==> text[1..][i] == text[i + 1] && s[1..][i] == s[i + 1];
      assert Bip380.Spells(text[1..], s[1..]);
      assert s == [s[0]] + s[1..];
    }
    if Symbols32(text) == Some(s) {
      var i := Find(CHECKSUM, text[0]).value;
      IndexRoundTrip(i);
      assert s[1..] == Symbols32(text[1..]).value;
      assert Bip380.Spells(text[1..], s[1..]);
      forall k | 0 <= k < |text| ensures text[k] == Bip380.SYMBOLS[s[k] as int] {
        if k > 0 {
          assert text[k] == text[1..][k - 1] && s[k] == s[1..][k - 1];
        }
      }
    }
  }

  // ----- the check

  /** The modelled check is the specification's. */
  lemma PassesIffValid(text: string)
    ensures Passes(text) <==> Bip380.Valid(text)
  {
    hide Positions;
    hide Symbols32;
    hide Expanded;
    hide Run;
    hide Bip380.Reads;
    hide Bip380.Spells;
    hide Bip380.Expand;
    hide Bip380.Remainder;
    if |text| >= 9 {
      var head, tail := text[..|text| - 9], text[|text| - 8..];
      var ps := Positions(head);
      SymbolsSpelled(tail);
      if Passes(text) {
        var symbols := Symbols32(tail).value;
        PositionsRead(head, Places(ps.value));
        ExpandedAlike(ps.value);
        RunIsOne(Expanded(ps.value) + symbols);
        assert Bip380.Checks(text, Places(ps.value), symbols);
      }
      if Bip380.Valid(text) {
        var places, symbols :| Bip380.Checks(text, places, symbols);
        PositionsRead(head, places);
        ExpandedAlike(ps.value);
        RunIsOne(Expanded(ps.value) + symbols);
      }
    }
  }

  /** A checksum is given exactly to the texts that the alphabet reads, and the result passes the specification's check. */
  lemma ChecksummedIsValid(descriptor: string)
    ensures Checksummed(descriptor).Some? <==> exists places :: Bip380.Reads(descriptor, places)
    ensures Checksummed(descriptor).Some? ==> Bip380.Valid(Checksummed(descriptor).value)
  {
    hide Positions;
    hide Passes;
    hide Bip380.Reads;
    hide Bip380.Valid;
    if Positions(descriptor).Some? {
      PositionsRead(descriptor, Places(Positions(descriptor).value));
      ChecksummedPasses(descriptor);
      PassesIffValid(Checksummed(descriptor).value);
    }
    if places :| Bip380.Reads(descriptor, places) {
      PositionsRead(descriptor, places);
    }
  }

  /** Of all texts that continue a descriptor with the separator and eight characters, only the checksummed one passes. */
  lemma OnlyTheChecksumIsValid(descriptor: string, tail: string)
    requires |tail| == 8
    ensures Bip380.Valid(descriptor + ['#'] + tail) <==> Checksummed(descriptor) == Some(descriptor + ['#'] + tail)
  {
    hide Positions;
    hide Symbols32;
    hide Expanded;
    hide Run;
    hide Bip380.Valid;
    var text := descriptor + ['#'] + tail;
    PassesIffValid(text);
    assert text[..|text| - 9] == descriptor;
    if Positions(descriptor).Some? {
      OnlyTheChecksumPasses(descriptor, tail);
    }
  }
}
