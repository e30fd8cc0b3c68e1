/** The example that BIP 380 publishes, worked out: it fixes the field, the coefficients and the alphabet. */
module DescriptorExample {
  import opened Bytes
  import opened Checksum
  import opened Descriptors
  import opened DescriptorStandard
  import Bip380

  /** A step in one expression, to be worked out on numbers. */
  function Flat(c: bv64, v: bv64): bv64 {
    Xor(Xor(Xor(Xor(Xor(Shifted(c, v), Select(Tested(c, 35), 0xf5dee51989)), Select(Tested(c, 36), 0xa9fdca3312)),
                Select(Tested(c, 37), 0x1bab10e32d)), Select(Tested(c, 38), 0x3706b1677a)), Select(Tested(c, 39), 0x644d626ffd))
  }

  predicate Tested(c: bv64, k: bv6) {
    (c >> k) & 1 != 0
  }

  lemma FlatIs(c: bv64, v: bv64)
    ensures Polymod(c, v) == Flat(c, v)
  {
    hide Reduced;
    hide Xor;
    hide Select;
    hide Shifted;
    hide Tested;
    hide Bit;
    hide Top;
    ReducedIs(Shifted(c, v), Top(c));
    FlatBits(c);
  }

  lemma FlatBits(c: bv64)
    ensures Bit(Top(c), 0) == Tested(c, 35) && Bit(Top(c), 1) == Tested(c, 36) && Bit(Top(c), 2) == Tested(c, 37)
    ensures Bit(Top(c), 3) == Tested(c, 38) && Bit(Top(c), 4) == Tested(c, 39)
  {}

  /** Four symbols of the example, by the values between them. */
  lemma Four(c: bv64, v: bv5, w: bv5, x: bv5, y: bv5, c1: bv64, c2: bv64, c3: bv64, c4: bv64, s: seq<bv5>)
    requires Flat(c, Wide(v)) == c1 && Flat(c1, Wide(w)) == c2 && Flat(c2, Wide(x)) == c3 && Flat(c3, Wide(y)) == c4
    ensures Run(c, [v, w, x, y] + s) == Run(c4, s)
  {
    hide Flat;
    hide Polymod;
    hide Run;
    hide Wide;
    FlatIs(c, Wide(v));
    FlatIs(c1, Wide(w));
    FlatIs(c2, Wide(x));
    FlatIs(c3, Wide(y));
    Run4(c, v, w, x, y, s);
  }

  const E6: seq<bv5> := [6, 27]
  const E5: seq<bv5> := [9, 7, 16, 1] + E6
  const E4: seq<bv5> := [11, 0, 7, 5] + E5
  const E3: seq<bv5> := [22, 22, 23, 0] + E4
  const E2: seq<bv5> := [18, 21, 19, 0] + E3
  const E1: seq<bv5> := [10, 21, 22, 0] + E2
  const E0: seq<bv5> := [9, 18, 14, 20] + E1

  lemma ExampleRun()
    ensures Run(1, E0) == 1
  {
    hide Run;
    hide Flat;
    Worked0(E1);
    Worked1(E2);
    Worked2(E3);
    Worked3(E4);
    Worked4(E5);
    Worked5(E6);
    WorkedLast();
  }

  lemma Worked0(rest: seq<bv5>)
    ensures Run(0x1, [9, 18, 14, 20] + rest) == Run(0x14c9d4, rest)
  {
    hide Run;
    Four(0x1, 9, 18, 14, 20, 0x29, 0x532, 0xa64e, 0x14c9d4, rest);
  }

  lemma Worked1(rest: seq<bv5>)
    ensures Run(0x14c9d4, [10, 21, 22, 0] + rest) == Run(0xb943a04f49, rest)
  {
    hide Run;
    Four(0x14c9d4, 10, 21, 22, 0, 0x2993a8a, 0x53275155, 0xa64ea2ab6, 0xb943a04f49, rest);
  }

  lemma Worked2(rest: seq<bv5>)
    ensures Run(0xb943a04f49, [18, 21, 19, 0] + rest) == Run(0x43cb8275b, rest)
  {
    hide Run;
    Four(0xb943a04f49, 18, 21, 19, 0, 0xbb1544f79, 0x83f46cf6bc, 0x1ac0fcb86e, 0x43cb8275b, rest);
  }

  lemma Worked3(rest: seq<bv5>)
    ensures Run(0x43cb8275b, [22, 22, 23, 0] + rest) == Run(0x5dca20199b, rest)
  {
    hide Run;
    Four(0x43cb8275b, 22, 22, 23, 0, 0x879704eb76, 0x96adff012b, 0x180f487998, 0x5dca20199b, rest);
  }

  lemma Worked4(rest: seq<bv5>)
    ensures Run(0x5dca20199b, [11, 0, 7, 5] + rest) == Run(0xd5acbcaca5, rest)
  {
    hide Run;
    Four(0x5dca20199b, 11, 0, 7, 5, 0xd2619d7e8a, 0xb685b6ead5, 0x6ad65e565, 0xd5acbcaca5, rest);
  }

  lemma Worked5(rest: seq<bv5>)
    ensures Run(0xd5acbcaca5, [9, 7, 16, 1] + rest) == Run(0x812faabf26, rest)
  {
    hide Run;
    Four(0xd5acbcaca5, 9, 7, 16, 1, 0x4f218caf3c, 0x26e9c19974, 0xc69323cdbd, 0x812faabf26, rest);
  }

  lemma WorkedLast()
    ensures Run(0x812faabf26, E6) == 1
  {
    hide Run;
    hide Polymod;
    Run2(0x812faabf26, 6, 27);
    FlatIs(0x812faabf26, Wide(6));
    FlatIs(0x41b8358b3b, Wide(27));
    assert Flat(0x812faabf26, Wide(6)) == 0x41b8358b3b && Flat(0x41b8358b3b, Wide(27)) == 1;
  }

  const EXAMPLE_TEXT: string := "raw(deadbeef)"
  const EXAMPLE_TAIL: string := "89f8spxm"

  lemma ExampleReads()
    ensures Bip380.Reads(EXAMPLE_TEXT, P0)
  {
    var t, q := EXAMPLE_TEXT, P0;
    forall i | 0 <= i < 13 ensures q[i].Valid() && Bip380.Stands(t[i], q[i]) {
      assert i == 0 || i == 1 || i == 2 || i == 3 || i == 4 || i == 5 || i == 6 || i == 7 || i == 8 || i == 9 || i == 10 || i == 11 || i == 12;
    }
  }

  lemma ExampleSpells()
    ensures Bip380.Spells(EXAMPLE_TAIL, [7, 5, 9, 7, 16, 1, 6, 27])
  {}

  lemma ExpandThree(p: Bip380.Place, q: Bip380.Place, r: Bip380.Place, rest: seq<Bip380.Place>, a: bv5, b: bv5, c: bv5, d: bv5)
    requires p.Valid() && q.Valid() && r.Valid() && Bip380.AllValid(rest)
    requires Bip380.Column(p) == a && Bip380.Column(q) == b && Bip380.Column(r) == c && Bip380.Rows(p.row, q.row, r.row) == d
    ensures Bip380.AllValid([p, q, r] + rest)
    ensures Bip380.Expand([p, q, r] + rest) == [a, b, c, d] + Bip380.Expand(rest)
  {
    hide Bip380.Column;
    hide Bip380.Rows;
    assert ([p, q, r] + rest)[3..] == rest;
  }

  const P4: seq<Bip380.Place> := [Bip380.Place(0, 11)]
  const P3: seq<Bip380.Place> := [Bip380.Place(0, 22), Bip380.Place(0, 22), Bip380.Place(0, 23)] + P4
  const P2: seq<Bip380.Place> := [Bip380.Place(0, 18), Bip380.Place(0, 21), Bip380.Place(0, 19)] + P3
  const P1: seq<Bip380.Place> := [Bip380.Place(0, 10), Bip380.Place(0, 21), Bip380.Place(0, 22)] + P2
  const P0: seq<Bip380.Place> := [Bip380.Place(2, 9), Bip380.Place(0, 18), Bip380.Place(2, 14)] + P1

  lemma ExampleExpands()
    ensures Bip380.AllValid(P0)
    ensures Bip380.Expand(P0) == [9, 18, 14, 20] + ([10, 21, 22, 0] + ([18, 21, 19, 0] + ([22, 22, 23, 0] + [11, 0])))
  {
    hide Bip380.Expand;
    hide Bip380.AllValid;
    ExpandOne(Bip380.Place(0, 11));
    Expand3();
    Expand2();
    Expand1();
    Expand0();
  }

  lemma Expand3()
    requires Bip380.AllValid(P4)
    ensures Bip380.AllValid(P3) && Bip380.Expand(P3) == [22, 22, 23, 0] + Bip380.Expand(P4)
  {
    hide Bip380.Expand;
    hide Bip380.AllValid;
    ExpandThree(Bip380.Place(0, 22), Bip380.Place(0, 22), Bip380.Place(0, 23), P4, 22, 22, 23, 0);
  }

  lemma Expand2()
    requires Bip380.AllValid(P3)
    ensures Bip380.AllValid(P2) && Bip380.Expand(P2) == [18, 21, 19, 0] + Bip380.Expand(P3)
  {
    hide Bip380.Expand;
    hide Bip380.AllValid;
    ExpandThree(Bip380.Place(0, 18), Bip380.Place(0, 21), Bip380.Place(0, 19), P3, 18, 21, 19, 0);
  }

  lemma Expand1()
    requires Bip380.AllValid(P2)
    ensures Bip380.AllValid(P1) && Bip380.Expand(P1) == [10, 21, 22, 0] + Bip380.Expand(P2)
  {
    hide Bip380.Expand;
    hide Bip380.AllValid;
    ExpandThree(Bip380.Place(0, 10), Bip380.Place(0, 21), Bip380.Place(0, 22), P2, 10, 21, 22, 0);
  }

  lemma Expand0()
    requires Bip380.AllValid(P1)
    ensures Bip380.AllValid(P0) && Bip380.Expand(P0) == [9, 18, 14, 20] + Bip380.Expand(P1)
  {
    hide Bip380.Expand;
    hide Bip380.AllValid;
    ExpandThree(Bip380.Place(2, 9), Bip380.Place(0, 18), Bip380.Place(2, 14), P1, 9, 18, 14, 20);
  }

  lemma ExpandOne(p: Bip380.Place)
    requires p.Valid()
    ensures Bip380.AllValid([p]) && Bip380.Expand([p]) == [Bip380.Column(p), Bip380.Rows(0, 0, p.row)]
  {
    hide Bip380.Column;
    hide Bip380.Rows;
  }

  lemma ExampleJoins()
    ensures [9, 18, 14, 20] + ([10, 21, 22, 0] + ([18, 21, 19, 0] + ([22, 22, 23, 0] + [11, 0]))) + [7, 5, 9, 7, 16, 1, 6, 27] == E0
  {
    Join([9, 18, 14, 20], [10, 21, 22, 0] + ([18, 21, 19, 0] + ([22, 22, 23, 0] + [11, 0])), [7, 5, 9, 7, 16, 1, 6, 27]);
    Join([10, 21, 22, 0], [18, 21, 19, 0] + ([22, 22, 23, 0] + [11, 0]), [7, 5, 9, 7, 16, 1, 6, 27]);
    Join([18, 21, 19, 0], [22, 22, 23, 0] + [11, 0], [7, 5, 9, 7, 16, 1, 6, 27]);
    Join([22, 22, 23, 0], [11, 0], [7, 5, 9, 7, 16, 1, 6, 27]);
    JoinEnd();
  }

  lemma Join(a: seq<bv5>, b: seq<bv5>, c: seq<bv5>)
    ensures a + b + c == a + (b + c)
  {}

  lemma JoinEnd()
    ensures [11, 0] + [7, 5, 9, 7, 16, 1, 6, 27] == E4
  {}

  /** The example that BIP 380 publishes. */
  lemma PublishedExample()
    ensures Bip380.Valid("raw(deadbeef)#89f8spxm") && Checksummed("raw(deadbeef)") == Some("raw(deadbeef)#89f8spxm")
  {
    hide Bip380.Reads;
    hide Bip380.Spells;
    hide Bip380.Expand;
    hide Bip380.Remainder;
    hide Run;
    hide E0;
    hide P0;
    var text := EXAMPLE_TEXT + ['#'] + EXAMPLE_TAIL;
    ExampleReads();
    ExampleSpells();
    ExampleExpands();
    ExampleJoins();
    ExampleRun();
    RunIsOne(E0);
    assert text == "raw(deadbeef)#89f8spxm";
    assert text[..|text| - 9] == EXAMPLE_TEXT && text[|text| - 8..] == EXAMPLE_TAIL;
    assert Bip380.Checks(text, P0, [7, 5, 9, 7, 16, 1, 6, 27]);
    OnlyTheChecksumIsValid(EXAMPLE_TEXT, EXAMPLE_TAIL);
  }
}
