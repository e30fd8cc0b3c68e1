/**
 Difficulty rules of a header chain (`pow.rs`, parameters in `config.rs`): the retarget, the
 minimum-difficulty walk back, and what a window of headers must hold to decide the next bits.
 */
module Difficulty {
  import opened Bytes
  import opened Positional
  import opened Limbs

  /** Compact bits are opaque here; `expand` and `compact` are the library's conversions. */
  datatype Codec = Codec(expand: nat -> Target, compact: Target -> nat)

  type Time = t: nat | t < U32
  datatype Header = Header(bits: nat, time: Time)

  datatype Params = Params(limitBits: nat, interval: nat, lookback: nat, timespan: nat, spacing: nat,
                           allowMinimum: bool, retargets: bool)
  {
    predicate Valid() {
      interval > 0 && 0 < timespan < U32
    }
  }

  const U32: nat := 0x1_0000_0000
  const U64: nat := 0x1_0000_0000_0000_0000

  const LITECOIN_MAINNET := Params(0x1e0f_ffff, 2016, 2016, 302_400, 150, false, true)
  const LITECOIN_TESTNET := Params(0x1e0f_ffff, 2016, 2016, 302_400, 150, true, true)
  const BITCOIN_MAINNET := Params(0x1d00_ffff, 2016, 2015, 1_209_600, 600, false, true)
  const BITCOIN_REGTEST := Params(0x207f_ffff, 2016, 2015, 1_209_600, 600, true, false)
  const BITCOIN_TESTNET4 := Params(0x1d00_ffff, 2016, 2015, 1_209_600, 600, true, true)

  /** The targets that the limits 0x1d00ffff and 0x1e0fffff stand for: a mantissa, then 26 or 27 zero bytes. */
  const BITCOIN_LIMIT: nat := 0xffff * (MODULUS / 0x1_0000_0000_0000)
  const LITECOIN_LIMIT: nat := 0xf_ffff * (MODULUS / 0x100_0000_0000)

  datatype Error = EmptyWindow | ShortWindow(needed: nat, got: nat) | MissingContext(firstHeight: nat)
    | HeightOverflow | TimeOverflow | Width

  datatype Result<T> = Ok(value: T) | Err(error: Error)

  // ----- retarget

  /** The time between two headers, kept within a factor of four of `timespan`. */
  function Clamped(last: nat, first: nat, timespan: nat): (t: nat)
    ensures timespan / 4 <= t <= timespan * 4
  {
    if last - first < timespan / 4 then timespan / 4
    else if last - first > timespan * 4 then timespan * 4
    else last - first
  }

  function Least(a: nat, b: nat): nat {
    if a > b then b else a
  }

  /** The retarget on unbounded numbers. */
  function Ideal(prior: nat, elapsed: nat, timespan: nat, limit: nat): nat
    requires timespan > 0
  {
    Least(prior * elapsed / timespan, limit)
  }

  /** The retarget with a product of 256 bits. */
  function Wrapped(prior: nat, elapsed: nat, timespan: nat, limit: nat): nat
    requires timespan > 0
  {
    Least(prior * elapsed % MODULUS / timespan, limit)
  }

  /** `retarget`: it never fails. */
  method Retarget(prior: Target, last: Time, first: Time, timespan: Time, limit: Target) returns (r: Result<Target>)
    requires timespan > 0
    ensures r.Ok? && r.value == Wrapped(prior, Clamped(last, first, timespan), timespan, limit)
  {
    hide Value;
    var elapsed := Clamped(last, first, timespan);
    var digits := FromTarget(prior);
    var product := MulMod(digits, elapsed);
    if product.None? {
      return Err(Width);
    }
    var scaled := Div(product.value, timespan);
    if scaled.None? {
      return Err(Width);
    }
    var next := ToTarget(scaled.value);
    r := Ok(if next > limit then limit else next);
  }

  /** Below the modulus the product does not wrap. */
  lemma WithoutWrap(prior: nat, elapsed: nat, timespan: nat, limit: nat)
    requires timespan > 0 && prior * elapsed < MODULUS
    ensures Wrapped(prior, elapsed, timespan, limit) == Ideal(prior, elapsed, timespan, limit)
  {
    Quotient(prior * elapsed, MODULUS, 0, prior * elapsed);
  }

  lemma ProductBound(prior: nat, limit: nat, elapsed: nat, most: nat)
    requires prior <= limit && elapsed <= most
    ensures prior * elapsed <= limit * most
  {
    MulMonotone(prior, elapsed, most);
    MulMonotone(most, prior, limit);
  }

  /** On Bitcoin no retarget from a target within the limit wraps. */
  lemma BitcoinNeverWraps(prior: nat, last: nat, first: nat)
    requires prior <= BITCOIN_LIMIT
    ensures var t := BITCOIN_MAINNET.timespan;
            && t == BITCOIN_TESTNET4.timespan
            && Wrapped(prior, Clamped(last, first, t), t, BITCOIN_LIMIT) == Ideal(prior, Clamped(last, first, t), t, BITCOIN_LIMIT)
  {
    hide Wrapped;
    hide Ideal;
    var t := BITCOIN_MAINNET.timespan;
    ProductBound(prior, BITCOIN_LIMIT, Clamped(last, first, t), 4 * t);
    assert BITCOIN_LIMIT * (4 * t) < MODULUS;
    WithoutWrap(prior, Clamped(last, first, t), t, BITCOIN_LIMIT);
  }

  /** On Litecoin the retarget is the one on unbounded numbers exactly when the product does not wrap. */
  lemma LitecoinWraps(prior: nat, last: nat, first: nat)
    requires prior <= LITECOIN_LIMIT
    ensures var t := LITECOIN_MAINNET.timespan;
            var e := Clamped(last, first, t);
            && t == LITECOIN_TESTNET.timespan
            && (Wrapped(prior, e, t, LITECOIN_LIMIT) == Ideal(prior, e, t, LITECOIN_LIMIT) <==> prior * e < MODULUS)
  {
    var t := LITECOIN_MAINNET.timespan;
    var e := Clamped(last, first, t);
    if prior * e < MODULUS {
      WithoutWrap(prior, e, t, LITECOIN_LIMIT);
    } else {
      ProductBound(prior, LITECOIN_LIMIT, e, 4 * t);
      assert LITECOIN_LIMIT * (4 * t) - MODULUS < LITECOIN_LIMIT * t;
      AboveModulus(prior * e, t, LITECOIN_LIMIT);
    }
  }

  /** A product in the second round of the modulus loses enough to be told from the limit. */
  lemma AboveModulus(product: nat, timespan: nat, limit: nat)
    requires timespan > 0 && MODULUS <= product < MODULUS + limit * timespan && limit * timespan < MODULUS
    ensures product % MODULUS / timespan < limit <= product / timespan
  {
    Quotient(product, MODULUS, 1, product - MODULUS);
    QuotientBound(timespan, product - MODULUS, limit);
    QuotientAtLeast(timespan, product, limit);
  }

  lemma QuotientAtLeast(b: nat, v: nat, q: nat)
    requires b > 0 && v >= q * b
    ensures v / b >= q
  {
    assert v == b * (v / b) + v % b;
    Distribute(b, v / b, 1);
    if v / b < q {
      MulMonotone(b, v / b + 1, q);
    }
  }

  /** A Litecoin retarget that does wrap: from the limit, after a period four times too long. */
  lemma LitecoinCanWrap()
    ensures var t := LITECOIN_MAINNET.timespan;
            && Clamped(4 * t, 0, t) == 4 * t
            && Wrapped(LITECOIN_LIMIT, 4 * t, t, LITECOIN_LIMIT) < LITECOIN_LIMIT == Ideal(LITECOIN_LIMIT, 4 * t, t, LITECOIN_LIMIT)
  {
    var t := LITECOIN_MAINNET.timespan;
    assert LITECOIN_LIMIT * (4 * t) - MODULUS < LITECOIN_LIMIT * t;
    AboveModulus(LITECOIN_LIMIT * (4 * t), t, LITECOIN_LIMIT);
  }

  // ----- bounds

  /** Without a wrap, a target within the limit moves by at most a factor of four each way. */
  lemma MovesByFour(prior: nat, last: nat, first: nat, timespan: nat, limit: nat)
    requires timespan > 0 && timespan % 4 == 0 && prior <= limit
    requires prior * Clamped(last, first, timespan) < MODULUS
    ensures prior / 4 <= Wrapped(prior, Clamped(last, first, timespan), timespan, limit) <= Least(4 * prior, limit)
  {
    hide Wrapped;
    var elapsed := Clamped(last, first, timespan);
    WithoutWrap(prior, elapsed, timespan, limit);
    UpperBound(prior, elapsed, timespan);
    LowerBound(prior, elapsed, timespan);
  }

  lemma UpperBound(prior: nat, elapsed: nat, timespan: nat)
    requires timespan > 0 && elapsed <= timespan * 4
    ensures prior * elapsed / timespan <= 4 * prior
  {
    MulMonotone(prior, elapsed, timespan * 4);
    Associate(prior, timespan, 4);
    assert prior * elapsed < timespan * (4 * prior + 1) by {
      Distribute(timespan, 4 * prior, 1);
      Associate(timespan, 4, prior);
    }
    QuotientBound(timespan, prior * elapsed, 4 * prior + 1);
  }

  lemma LowerBound(prior: nat, elapsed: nat, timespan: nat)
    requires timespan > 0 && timespan % 4 == 0 && timespan / 4 <= elapsed
    ensures prior / 4 <= prior * elapsed / timespan
  {
    var q, k := prior / 4, timespan / 4;
    MulMonotone(prior, k, elapsed);
    MulMonotone(k, 4 * q, prior);
    Associate(k, 4, q);
    assert q * timespan == (k * 4) * q;
    QuotientAtLeast(timespan, prior * elapsed, q);
  }

  /** The lower bound needs a timespan that is a multiple of four, as that of every chain is. */
  lemma LowerBoundNeedsFours(timespan: nat, limit: nat)
    requires timespan > 0 && limit >= 4 && 4 * (timespan / 4) < MODULUS
    ensures timespan % 4 == 0 <==>
            forall prior: nat, last: nat, first: nat :: prior <= limit && prior * Clamped(last, first, timespan) < MODULUS ==>
              prior / 4 <= Wrapped(prior, Clamped(last, first, timespan), timespan, limit)
  {
    hide Wrapped;
    if timespan % 4 == 0 {
      forall prior: nat, last: nat, first: nat | prior <= limit && prior * Clamped(last, first, timespan) < MODULUS
        ensures prior / 4 <= Wrapped(prior, Clamped(last, first, timespan), timespan, limit)
      {
        MovesByFour(prior, last, first, timespan, limit);
      }
    } else {
      var e := Clamped(0, 0, timespan);
      assert e == timespan / 4;
      WithoutWrap(4, e, timespan, limit);
      QuotientBound(timespan, 4 * e, 1);
      assert Wrapped(4, e, timespan, limit) < 4 / 4;
    }
  }

  // ----- the walk back

  /** A header that the minimum-difficulty walk back stops at. */
  predicate Regular(p: Params, bits: nat, height: nat)
    requires p.interval > 0
  {
    height % p.interval == 0 || bits != p.limitBits
  }

  /** The position of the latest regular header, if the window has one. */
  predicate IsLatestRegular(p: Params, headers: seq<Header>, firstHeight: nat, r: Option<nat>)
    requires p.interval > 0
  {
    match r
    case Some(i) =>
      && i < |headers| && Regular(p, headers[i].bits, firstHeight + i)
      && forall j :: i < j < |headers| ==> !Regular(p, headers[j].bits, firstHeight + j)
    case None => forall j :: 0 <= j < |headers| ==> !Regular(p, headers[j].bits, firstHeight + j)
  }

  function LatestRegular(p: Params, headers: seq<Header>, firstHeight: nat): (r: Option<nat>)
    requires p.interval > 0
    ensures IsLatestRegular(p, headers, firstHeight, r)
  {
    var n := |headers|;
    if n == 0 then None
    else if Regular(p, headers[n - 1].bits, firstHeight + n - 1) then Some(n - 1)
    else LatestRegular(p, headers[..n - 1], firstHeight)
  }

  function RegularBits(p: Params, headers: seq<Header>, firstHeight: nat): Result<nat>
    requires p.interval > 0
  {
    match LatestRegular(p, headers, firstHeight)
    case Some(i) => Ok(headers[i].bits)
    case None => Err(MissingContext(firstHeight))
  }

  /** `last_regular_bits`. */
  method LastRegularBits(p: Params, headers: seq<Header>, lastHeight: nat) returns (r: Result<nat>)
    requires p.interval > 0 && 0 < |headers| <= lastHeight + 1
    ensures r == RegularBits(p, headers, lastHeight + 1 - |headers|)
  {
    var index, height := |headers| - 1, lastHeight;
    while index > 0 && height % p.interval != 0 && headers[index].bits == p.limitBits
      invariant 0 <= index < |headers| && height == lastHeight + 1 - |headers| + index
      invariant forall j :: index < j < |headers| ==> !Regular(p, headers[j].bits, lastHeight + 1 - |headers| + j)
    {
      index := index - 1;
      height := height - 1;
    }
    ghost var latest := LatestRegular(p, headers, lastHeight + 1 - |headers|);
    if index == 0 && height % p.interval != 0 && headers[index].bits == p.limitBits {
      return Err(MissingContext(height));
    }
    assert Regular(p, headers[index].bits, lastHeight + 1 - |headers| + index);
    assert latest == Some(index);
    r := Ok(headers[index].bits);
  }

  // ----- expected bits

  /** The headers that a retarget compares: those `Needed` back from the last. */
  function Needed(p: Params, nextHeight: nat): nat
    requires p.interval > 0
  {
    (if nextHeight == p.interval then p.interval - 1 else p.lookback) + 1
  }

  /** The bits of a retarget over a window that holds enough headers. */
  function RetargetBits(p: Params, codec: Codec, headers: seq<Header>, needed: nat): nat
    requires p.Valid() && 0 < needed <= |headers|
  {
    var last, first := headers[|headers| - 1], headers[|headers| - needed];
    var limit := codec.expand(p.limitBits);
    var next: Target := Wrapped(codec.expand(last.bits), Clamped(last.time, first.time, p.timespan), p.timespan, limit);
    codec.compact(next)
  }

  /** `expected_bits`. */
  function ExpectedBits(p: Params, codec: Codec, headers: seq<Header>, firstHeight: nat, nextTime: nat): Result<nat>
    requires p.Valid()
  {
    if headers == [] then Err(EmptyWindow)
    else
      var last, nextHeight := headers[|headers| - 1], firstHeight + |headers|;
      if nextHeight >= U64 then Err(HeightOverflow)
      else if !p.retargets then Ok(last.bits)
      else if nextHeight % p.interval != 0 then
        if !p.allowMinimum then Ok(last.bits)
        else if last.time + 2 * p.spacing >= U32 then Err(TimeOverflow)
        else if nextTime > last.time + 2 * p.spacing then Ok(p.limitBits)
        else RegularBits(p, headers, firstHeight)
      else if |headers| < Needed(p, nextHeight) then Err(ShortWindow(Needed(p, nextHeight), |headers|))
      else Ok(RetargetBits(p, codec, headers, Needed(p, nextHeight)))
  }

  /** `expected_bits`, with the loops it calls. */
  method NextBits(p: Params, codec: Codec, headers: seq<Header>, firstHeight: nat, nextTime: nat) returns (r: Result<nat>)
    requires p.Valid()
    ensures r == ExpectedBits(p, codec, headers, firstHeight, nextTime)
  {
    hide RegularBits;
    hide Wrapped;
    if headers == [] {
      return Err(EmptyWindow);
    }
    var last, nextHeight := headers[|headers| - 1], firstHeight + |headers|;
    if nextHeight >= U64 {
      return Err(HeightOverflow);
    }
    if !p.retargets {
      return Ok(last.bits);
    }
    if nextHeight % p.interval != 0 {
      if !p.allowMinimum {
        return Ok(last.bits);
      }
      if last.time + 2 * p.spacing >= U32 {
        return Err(TimeOverflow);
      }
      if nextTime > last.time + 2 * p.spacing {
        return Ok(p.limitBits);
      }
      r := LastRegularBits(p, headers, nextHeight - 1);
      return;
    }
    var needed := Needed(p, nextHeight);
    if |headers| < needed {
      return Err(ShortWindow(needed, |headers|));
    }
    var first := headers[|headers| - needed];
    var target := Retarget(codec.expand(last.bits), last.time, first.time, p.timespan, codec.expand(p.limitBits));
    r := Ok(codec.compact(target.value));
  }

  lemma LongerWalk(p: Params, older: seq<Header>, headers: seq<Header>, firstHeight: nat)
    requires p.interval > 0 && |older| <= firstHeight && RegularBits(p, headers, firstHeight).Ok?
    ensures RegularBits(p, older + headers, firstHeight - |older|) == RegularBits(p, headers, firstHeight)
  {
    hide LatestRegular;
    hide Regular;
    var all, start := older + headers, firstHeight - |older|;
    var i, k := LatestRegular(p, headers, firstHeight).value, LatestRegular(p, all, start);
    assert all[|older| + i] == headers[i] && start + (|older| + i) == firstHeight + i;
    forall j | |older| + i < j < |all|
      ensures !Regular(p, all[j].bits, start + j)
    {
      assert all[j] == headers[j - |older|] && start + j == firstHeight + (j - |older|);
    }
  }

  /** Bits decided on a window are the bits decided on every longer window that ends at the same header. */
  lemma WindowDoesNotMatter(p: Params, codec: Codec, older: seq<Header>, headers: seq<Header>, firstHeight: nat, nextTime: nat)
    requires p.Valid() && |older| <= firstHeight
    requires ExpectedBits(p, codec, headers, firstHeight, nextTime).Ok?
    ensures ExpectedBits(p, codec, older + headers, firstHeight - |older|, nextTime)
         == ExpectedBits(p, codec, headers, firstHeight, nextTime)
  {
    hide RegularBits;
    var all, next := older + headers, firstHeight + |headers|;
    assert all[|all| - 1] == headers[|headers| - 1];
    if RegularBits(p, headers, firstHeight).Ok? {
      LongerWalk(p, older, headers, firstHeight);
    }
    if Needed(p, next) <= |headers| {
      assert all[|all| - Needed(p, next)] == headers[|headers| - Needed(p, next)];
    }
  }
}
