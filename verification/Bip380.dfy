/**
 BIP 380, section "Checksum", as the specification has it: remainders of polynomials over the field of 32
 elements, and the check of a whole text. Nothing here knows how the checksum is computed elsewhere.
 */
module Bip380 {
  // ----- the field GF(2)[a] / (a^5 + a^3 + 1); a symbol's bits are its coefficients

  function Plus(x: bv5, y: bv5): bv5 {
    x ^ y
  }

  /** `a` times a symbol: a^5 is a^3 + 1. */
  function TimesA(x: bv5): bv5 {
    if x & 16 != 0 then (x << 1) ^ 9 else x << 1
  }

  function If(bit: bool, x: bv5): bv5 {
    if bit then x else 0
  }

  function Times(t: bv5, x: bv5): bv5 {
    Plus(Plus(Plus(Plus(If(t & 1 != 0, x),
                        If(t & 2 != 0, TimesA(x))),
                   If(t & 4 != 0, TimesA(TimesA(x)))),
              If(t & 8 != 0, TimesA(TimesA(TimesA(x))))),
         If(t & 16 != 0, TimesA(TimesA(TimesA(TimesA(x))))))
  }

  /** The relation that defines the field, and that `a` is the symbol 2. */
  lemma FieldRelation(x: bv5)
    ensures Plus(Plus(TimesA(TimesA(TimesA(TimesA(TimesA(x))))), TimesA(TimesA(TimesA(x)))), x) == 0
    ensures TimesA(x) == Times(2, x)
  {
    TwoIsA(x);
  }

  lemma TwoIsA(x: bv5)
    ensures Times(2, x) == TimesA(x)
  {}

  // ----- remainders modulo the generator polynomial

  /** A polynomial of degree below 8: the coefficients of x^7 to x^0. */
  datatype Poly = Poly(c7: bv5, c6: bv5, c5: bv5, c4: bv5, c3: bv5, c2: bv5, c1: bv5, c0: bv5)

  /** g(x) less x^8: 30 x^7 + 23 x^6 + 15 x^5 + 14 x^4 + 10 x^3 + 6 x^2 + 12 x + 9. */
  const GENERATOR := Poly(30, 23, 15, 14, 10, 6, 12, 9)

  const ONE := Poly(0, 0, 0, 0, 0, 0, 0, 1)

  /** `r` times x plus `v`, reduced by g. */
  function Next(r: Poly, v: bv5): Poly {
    Poly(Plus(r.c6, Times(r.c7, 30)), Plus(r.c5, Times(r.c7, 23)), Plus(r.c4, Times(r.c7, 15)), Plus(r.c3, Times(r.c7, 14)),
         Plus(r.c2, Times(r.c7, 10)), Plus(r.c1, Times(r.c7, 6)), Plus(r.c0, Times(r.c7, 12)), Plus(v, Times(r.c7, 9)))
  }

  function Remainder(r: Poly, symbols: seq<bv5>): Poly
    decreases |symbols|
  {
    if symbols == [] then r else Remainder(Next(r, symbols[0]), symbols[1..])
  }

  // ----- texts

  const ROW0: string := "0123456789()[],'/*abcdefgh@:$%{}"
  const ROW1: string := "IJKLMNOPQRSTUVWXYZ&+-.;<=>?!^_|~"
  const ROW2: string := "ijklmnopqrstuvwxyzABCDEFGH`#\"\\ "
  const SYMBOLS: string := "qpzry9x8gf2tvdw0s3jn54khce6mua7l"

  /** Where a character stands in the alphabet: its row, and its column there. */
  datatype Place = Place(row: nat, column: nat) {
    predicate Valid() {
      row < 3 && column < 32
    }
  }

  predicate Stands(c: char, p: Place) {
    && p.row < 3
    && var row := if p.row == 0 then ROW0 else if p.row == 1 then ROW1 else ROW2;
       p.column < |row| && row[p.column] == c
  }

  predicate Reads(text: string, places: seq<Place>) {
    |places| == |text| && forall i :: 0 <= i < |text| ==> places[i].Valid() && Stands(text[i], places[i])
  }

  predicate AllValid(places: seq<Place>) {
    forall i :: 0 <= i < |places| ==> places[i].Valid()
  }

  function Column(p: Place): bv5
    requires p.Valid()
  {
    p.column as bv5
  }

  function Rows(a: nat, b: nat, c: nat): bv5
    requires a < 3 && b < 3 && c < 3
  {
    (9 * a + 3 * b + c) as bv5
  }

  /** Columns one by one, and after every three their rows; rows that are missing at the end count as leading zeros. */
  function Expand(places: seq<Place>): seq<bv5>
    requires AllValid(places)
  {
    if |places| == 0 then []
    else if |places| == 1 then [Column(places[0]), Rows(0, 0, places[0].row)]
    else if |places| == 2 then [Column(places[0]), Column(places[1]), Rows(0, places[0].row, places[1].row)]
    else
      [Column(places[0]), Column(places[1]), Column(places[2]), Rows(places[0].row, places[1].row, places[2].row)] + Expand(places[3..])
  }

  predicate Spells(text: string, symbols: seq<bv5>) {
    |symbols| == |text| && forall i :: 0 <= i < |text| ==> |SYMBOLS| == 32 && text[i] == SYMBOLS[symbols[i] as int]
  }

  /** A descriptor, the separator and eight symbols, with remainder one. */
  ghost predicate Checks(text: string, places: seq<Place>, symbols: seq<bv5>) {
    && |text| >= 9 && text[|text| - 9] == '#'
    && Reads(text[..|text| - 9], places)
    && Spells(text[|text| - 8..], symbols)
    && Remainder(ONE, Expand(places) + symbols) == ONE
  }

  /** The check of the specification. */
  ghost predicate Valid(text: string) {
    exists places, symbols :: Checks(text, places, symbols)
  }
}
