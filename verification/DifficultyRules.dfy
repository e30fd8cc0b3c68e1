/**
 The difficulty rules, header by header along a whole chain: which bits the header at each height must
 carry, stated by height alone, and that the window rules of `expected_bits` (`pow.rs`) are these.
 */
module DifficultyRules {
  import opened Positional
  import opened Limbs
  import opened Difficulty

  // ----- the rules

  /** Parameters with a boundary to look back to; those of every chain are. */
  predicate Scheduled(p: Params) {
    p.Valid() && p.lookback <= p.interval && p.interval < U32
  }

  /** At a height between boundaries, the bits are those of a header before it. */
  predicate Carries(chain: seq<Header>, bits: nat, at: nat) {
    at < |chain| && bits == chain[at].bits
  }

  /** A header is regular on a boundary, or when it is not at the limit. */
  predicate IsOut(p: Params, header: Header, height: nat)
    requires p.interval > 0
  {
    height % p.interval == 0 || header.bits != p.limitBits
  }

  predicate StandsOut(p: Params, chain: seq<Header>, at: nat)
    requires p.interval > 0 && at < |chain|
  {
    IsOut(p, chain[at], at)
  }

  /** `at` is the latest regular header of the chain. */
  predicate LatestOut(p: Params, chain: seq<Header>, at: nat)
    requires p.interval > 0
  {
    && at < |chain| && StandsOut(p, chain, at)
    && forall j :: at < j < |chain| ==> !StandsOut(p, chain, j)
  }

  /** More than two spacings after the last header. */
  predicate Late(p: Params, chain: seq<Header>, time: nat)
    requires chain != []
  {
    time > chain[|chain| - 1].time + 2 * p.spacing
  }

  /** The height whose time a retarget at the end of `chain` compares with. */
  function Compared(p: Params, height: nat): nat
    requires Scheduled(p) && height > 0 && height % p.interval == 0
  {
    BoundariesApart(p, height);
    if height == p.interval then 0 else height - 1 - p.lookback
  }

  lemma BoundariesApart(p: Params, height: nat)
    requires Scheduled(p) && height > 0 && height % p.interval == 0
    ensures height == p.interval || height >= 2 * p.interval
  {
    if height < p.interval {
      Quotient(height, p.interval, 0, height);
    } else if height < 2 * p.interval {
      Quotient(height, p.interval, 1, height - p.interval);
    }
  }

  /** A time difference, kept within a factor of four of the timespan. */
  function Kept(difference: int, timespan: nat): nat {
    if difference < timespan / 4 then timespan / 4 else if difference > timespan * 4 then timespan * 4 else difference
  }

  /** A target times a time, modulo 2^256, div the timespan. */
  function Scaled(prior: nat, time: nat, timespan: nat): nat
    requires timespan > 0
  {
    prior * time % MODULUS / timespan
  }

  /** The bits of a retarget: the old target scaled by the time kept, at most the limit. */
  predicate Retargets(p: Params, codec: Codec, last: Header, first: Header, bits: nat)
    requires Scheduled(p)
  {
    var target, limit := Scaled(codec.expand(last.bits), Kept(last.time - first.time, p.timespan), p.timespan), codec.expand(p.limitBits);
    target < MODULUS && bits == codec.compact(if target > limit then limit else target)
  }

  /** The bits that the header after `chain`, at `time`, must carry. */
  ghost predicate MustCarry(p: Params, codec: Codec, chain: seq<Header>, time: nat, bits: nat)
    requires Scheduled(p) && chain != []
  {
    var height := |chain|;
    if !p.retargets then Carries(chain, bits, height - 1)
    else if height % p.interval == 0 then Retargets(p, codec, chain[height - 1], chain[Compared(p, height)], bits)
    else if !p.allowMinimum then Carries(chain, bits, height - 1)
    else if Late(p, chain, time) then bits == p.limitBits
    else exists at :: LatestOut(p, chain, at) && Carries(chain, bits, at)
  }

  // ----- a period in bounds is used as it is

  function Distance(a: int, b: int): nat {
    if a < b then b - a else a - b
  }

  /** The clamped time is the one nearest to the true one, of all that are within a factor of four of the timespan. */
  lemma ClampedIsNearest(last: nat, first: nat, timespan: nat, other: nat)
    requires timespan / 4 <= other <= timespan * 4
    ensures timespan / 4 <= Clamped(last, first, timespan) <= timespan * 4
    ensures Distance(Clamped(last, first, timespan), last - first) <= Distance(other, last - first)
    ensures timespan / 4 <= last - first <= timespan * 4 ==> Clamped(last, first, timespan) == last - first
  {}

  // ----- windows and the rules

  /** Over a chain from its first header, `expected_bits` gives exactly the bits that the next header must carry. */
  lemma ExpectedIffMustCarry(p: Params, codec: Codec, chain: seq<Header>, time: nat, bits: nat)
    requires Scheduled(p) && chain != [] && |chain| < U64
    requires chain[|chain| - 1].time + 2 * p.spacing < U32
    ensures ExpectedBits(p, codec, chain, 0, time) == Ok(bits) <==> MustCarry(p, codec, chain, time, bits)
  {
    hide LatestRegular;
    hide RetargetBits;
    hide Retargets;
    hide LatestOut;
    var height := |chain|;
    if p.retargets && height % p.interval == 0 {
      BoundariesApart(p, height);
      RetargetAgrees(p, codec, chain, bits);
    } else if p.retargets && p.allowMinimum {
      WalkAgrees(p, chain, bits);
    }
  }

  lemma RetargetAgrees(p: Params, codec: Codec, chain: seq<Header>, bits: nat)
    requires Scheduled(p) && chain != [] && |chain| % p.interval == 0
    ensures 0 < Needed(p, |chain|) <= |chain|
    ensures RetargetBits(p, codec, chain, Needed(p, |chain|)) == bits <==>
            Retargets(p, codec, chain[|chain| - 1], chain[Compared(p, |chain|)], bits)
  {
    BoundariesApart(p, |chain|);
    assert |chain| - Needed(p, |chain|) == Compared(p, |chain|);
    var last, first := chain[|chain| - 1], chain[Compared(p, |chain|)];
    TargetFits(codec.expand(last.bits), Clamped(last.time, first.time, p.timespan), p.timespan);
  }

  lemma TargetFits(prior: nat, time: nat, timespan: nat)
    requires timespan > 0
    ensures prior * time % MODULUS / timespan < MODULUS
  {
    DivAtMost(prior * time % MODULUS, timespan);
  }

  lemma DivAtMost(x: nat, d: nat)
    requires d > 0
    ensures x / d <= x
  {
    MulMonotone(x + 1, 1, d);
    QuotientBound(d, x, x + 1);
  }

  lemma WalkAgrees(p: Params, chain: seq<Header>, bits: nat)
    requires p.interval > 0 && chain != []
    ensures RegularBits(p, chain, 0) == Ok(bits) <==> exists at :: LatestOut(p, chain, at) && Carries(chain, bits, at)
  {
    hide LatestRegular;
    var found := LatestRegular(p, chain, 0);
    assert StandsOut(p, chain, 0);
    assert Regular(p, chain[0].bits, 0 + 0);
    assert found.Some?;
    assert forall j :: 0 <= j < |chain| ==> (StandsOut(p, chain, j) <==> Regular(p, chain[j].bits, 0 + j));
    assert LatestOut(p, chain, found.value);
    forall at | LatestOut(p, chain, at) ensures at == found.value {
      assert !(at < found.value);
    }
  }

  /** Bits that any window of a chain decides are those that the next header must carry. */
  lemma WindowsObey(p: Params, codec: Codec, older: seq<Header>, window: seq<Header>, time: nat, bits: nat)
    requires Scheduled(p) && window != [] && |older + window| < U64
    requires window[|window| - 1].time + 2 * p.spacing < U32
    requires ExpectedBits(p, codec, window, |older|, time) == Ok(bits)
    ensures MustCarry(p, codec, older + window, time, bits)
  {
    hide ExpectedBits;
    hide MustCarry;
    WindowDoesNotMatter(p, codec, older, window, |older|, time);
    assert (older + window)[|older + window| - 1] == window[|window| - 1];
    ExpectedIffMustCarry(p, codec, older + window, time, bits);
  }

  /** A window decides whenever it reaches far enough back: to the header compared, or to a regular one. */
  predicate Suffices(p: Params, window: seq<Header>, firstHeight: nat, time: nat)
    requires Scheduled(p) && window != []
  {
    var height := firstHeight + |window|;
    if !p.retargets then true
    else if height % p.interval == 0 then firstHeight <= Compared(p, height)
    else p.allowMinimum && !Late(p, window, time) ==> HoldsRegular(p, window, firstHeight)
  }

  lemma WindowDecidesIff(p: Params, codec: Codec, window: seq<Header>, firstHeight: nat, time: nat)
    requires Scheduled(p) && window != [] && firstHeight + |window| < U64
    requires window[|window| - 1].time + 2 * p.spacing < U32
    ensures ExpectedBits(p, codec, window, firstHeight, time).Ok? <==> Suffices(p, window, firstHeight, time)
  {
    hide LatestRegular;
    hide RetargetBits;
    hide RegularBits;
    hide HoldsRegular;
    var height := firstHeight + |window|;
    if !p.retargets {
    } else if height % p.interval == 0 {
      BoundariesApart(p, height);
      assert Needed(p, height) == height - Compared(p, height);
    } else {
      RegularIff(p, window, firstHeight);
    }
  }

  predicate HoldsRegular(p: Params, window: seq<Header>, firstHeight: nat)
    requires p.interval > 0
  {
    exists i :: 0 <= i < |window| && IsOut(p, window[i], firstHeight + i)
  }

  lemma RegularIff(p: Params, window: seq<Header>, firstHeight: nat)
    requires p.interval > 0
    ensures RegularBits(p, window, firstHeight).Ok? <==> HoldsRegular(p, window, firstHeight)
  {
    hide LatestRegular;
    hide Regular;
    hide IsOut;
    RegularMeans(p, window, firstHeight);
    if HoldsRegular(p, window, firstHeight) {
      var i :| 0 <= i < |window| && IsOut(p, window[i], firstHeight + i);
      assert Regular(p, window[i].bits, firstHeight + i);
    }
  }

  lemma RegularMeans(p: Params, window: seq<Header>, firstHeight: nat)
    requires p.interval > 0
    ensures forall j :: 0 <= j < |window| ==>
              (Regular(p, window[j].bits, firstHeight + j) <==> IsOut(p, window[j], firstHeight + j))
  {}

  // ----- whole chains

  /** Every header but the first carries the bits it must. */
  ghost predicate Obeys(p: Params, codec: Codec, chain: seq<Header>)
    requires Scheduled(p)
  {
    forall h :: 0 < h < |chain| ==> MustCarry(p, codec, chain[..h], chain[h].time, chain[h].bits)
  }

  function PeriodStart(p: Params, height: nat): (start: nat)
    requires p.interval > 0
    ensures start <= height && start % p.interval == 0
  {
    StartIsBoundary(height, p.interval);
    height - height % p.interval
  }

  lemma StartIsBoundary(height: nat, interval: nat)
    requires interval > 0
    ensures (height - height % interval) % interval == 0
  {
    var q := height / interval;
    assert height - height % interval == interval * q + 0;
    Quotient(height - height % interval, interval, q, 0);
  }

  lemma PreviousIsInPeriod(p: Params, height: nat)
    requires p.interval > 0 && height % p.interval != 0
    ensures height > 0 && PeriodStart(p, height - 1) == PeriodStart(p, height) < height
  {
    var q, r := height / p.interval, height % p.interval;
    assert height == p.interval * q + r;
    OneBack(p.interval, q, r);
  }

  lemma OneBack(interval: nat, q: nat, r: nat)
    requires 0 < r < interval
    ensures (interval * q + r - 1) % interval == r - 1
  {
    Quotient(interval * q + (r - 1), interval, q, r - 1);
  }

  /** On a chain without minimum difficulty, a period has one value of bits: that of its first header. */
  lemma {:induction false} OneValuePerPeriod(p: Params, codec: Codec, chain: seq<Header>, height: nat)
    requires Scheduled(p) && p.retargets && !p.allowMinimum && Obeys(p, codec, chain) && height < |chain|
    ensures chain[height].bits == chain[PeriodStart(p, height)].bits
    decreases height
  {
    hide PeriodStart;
    if height % p.interval == 0 {
      StartOfStart(p, height);
    } else {
      PreviousIsInPeriod(p, height);
      OneValuePerPeriod(p, codec, chain, height - 1);
      assert MustCarry(p, codec, chain[..height], chain[height].time, chain[height].bits);
      assert |chain[..height]| == height;
    }
  }

  lemma StartOfStart(p: Params, height: nat)
    requires p.interval > 0 && height % p.interval == 0
    ensures PeriodStart(p, height) == height
  {}

  /** With minimum difficulty a period has at most one other value: the limit. */
  lemma {:induction false} OneOtherValuePerPeriod(p: Params, codec: Codec, chain: seq<Header>, height: nat)
    requires Scheduled(p) && p.retargets && Obeys(p, codec, chain) && height < |chain|
    ensures chain[height].bits == chain[PeriodStart(p, height)].bits || chain[height].bits == p.limitBits
    decreases height
  {
    hide PeriodStart;
    hide Retargets;
    if height % p.interval == 0 {
      StartOfStart(p, height);
    } else if !p.allowMinimum {
      OneValuePerPeriod(p, codec, chain, height);
    } else {
      var before, start := chain[..height], PeriodStart(p, height);
      PreviousIsInPeriod(p, height);
      assert MustCarry(p, codec, before, chain[height].time, chain[height].bits);
      if !Late(p, before, chain[height].time) {
        var at :| LatestOut(p, before, at) && Carries(before, chain[height].bits, at);
        assert StandsOut(p, before, start);
        SamePeriod(p, start, at, height);
        OneOtherValuePerPeriod(p, codec, chain, at);
      }
    }
  }

  lemma SamePeriod(p: Params, start: nat, at: nat, height: nat)
    requires p.interval > 0 && start == PeriodStart(p, height) <= at <= height
    ensures PeriodStart(p, at) == start
    decreases height - at
  {
    hide PeriodStart;
    if height % p.interval == 0 {
      StartOfStart(p, height);
    } else if at < height {
      PreviousIsInPeriod(p, height);
      SamePeriod(p, start, at, height - 1);
    }
  }

  /** The chains there are. */
  lemma ChainsAreScheduled()
    ensures Scheduled(LITECOIN_MAINNET) && Scheduled(LITECOIN_TESTNET) && Scheduled(BITCOIN_MAINNET)
    ensures Scheduled(BITCOIN_REGTEST) && Scheduled(BITCOIN_TESTNET4)
    ensures Compared(LITECOIN_MAINNET, 4032) == 4032 - 2017 && Compared(BITCOIN_MAINNET, 4032) == 4032 - 2016
    ensures Compared(LITECOIN_MAINNET, 2016) == Compared(BITCOIN_MAINNET, 2016) == 0
  {}
}
