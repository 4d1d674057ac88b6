/** Dutch auction orders and the decay of their required output. */
module Order {
  import opened Machine
  import opened Results
  import opened Time

  type Address = nat
  type OrderId = nat

  datatype OrderInput = OrderInput(token: Address, amount: u256)

  datatype OrderOutput = OrderOutput(token: Address, startAmount: u256, endAmount: u256, recipient: Address)

  datatype DutchAuctionOrder = DutchAuctionOrder(
    id: OrderId,
    chainId: u64,
    reactor: Address,
    signer: Address,
    nonce: u256,
    decayStartTime: Instant,
    decayEndTime: Instant,
    deadline: Instant,
    input: OrderInput,
    outputs: seq<OrderOutput>)

  function AmountAt(o: DutchAuctionOrder, output: OrderOutput, now: Instant): u256 {
    var total := WholeSeconds(o.decayEndTime - o.decayStartTime);
    var elapsed := WholeSeconds(now - o.decayStartTime);
    if now <= o.decayStartTime then output.startAmount
    else if now >= o.decayEndTime then output.endAmount
    else if total == 0 then output.endAmount
    else Decayed(output, elapsed, total)
  }

  /** The linear interpolation, with the wrapping product and the saturating differences. */
  function Decayed(output: OrderOutput, elapsed: nat, total: nat): u256
    requires total > 0
  {
    var diff := SatSub(output.startAmount, output.endAmount);
    SatSub(output.startAmount, Wrap256(diff * elapsed) / total)
  }

  function CurrentOutputAmount(o: DutchAuctionOrder, index: nat, now: Instant): Option<u256> {
    if index < |o.outputs| then Some(AmountAt(o, o.outputs[index], now)) else None
  }

  predicate IsExpired(o: DutchAuctionOrder, now: Instant) {
    now > o.deadline
  }

  function Difference(output: OrderOutput): u256 { SatSub(output.startAmount, output.endAmount) }

  function Total(o: DutchAuctionOrder): nat { WholeSeconds(o.decayEndTime - o.decayStartTime) }

  /** The most whole seconds that can have elapsed before the decay ends. */
  function LastSecond(o: DutchAuctionOrder): nat {
    if o.decayStartTime < o.decayEndTime then WholeSeconds(o.decayEndTime - 1 - o.decayStartTime) else 0
  }

  /** The interpolation's product fits 256 bits at every moment of the decay. */
  predicate ProductFits(o: DutchAuctionOrder, output: OrderOutput) {
    Difference(output) * LastSecond(o) <= U256_MAX
  }

  /** The difference is so close to 2^256 that the wrapping products, truncated to the amount
      gone per second, are all the same. */
  predicate WrapsFlat(o: DutchAuctionOrder, output: OrderOutput) {
    && Total(o) > 0 && Difference(output) + Total(o) > U256_MODULUS
    && Wrap256(Difference(output) * LastSecond(o)) / Total(o) == Difference(output) / Total(o)
  }

  predicate Decays(o: DutchAuctionOrder, output: OrderOutput) {
    output.startAmount >= output.endAmount && (ProductFits(o, output) || WrapsFlat(o, output))
  }

  /** The code counts the seconds of the decay in 64 bits. */
  predicate Countable(o: DutchAuctionOrder) { Total(o) <= U64_MAX }

  lemma ProductGrows(diff: nat, elapsed: nat, later: nat)
    requires elapsed <= later
    ensures 0 <= diff * elapsed <= diff * later
  {
    MulMonotone(diff, later - elapsed);
    assert diff * (later - elapsed) == diff * later - diff * elapsed;
  }

  /** The part decayed away grows with the elapsed seconds, up to the whole difference. */
  lemma GoneGrows(diff: nat, elapsed: nat, later: nat, total: nat)
    requires 0 < total && elapsed <= later <= total
    ensures 0 <= diff * elapsed / total <= diff * later / total <= diff
  {
    ProductGrows(diff, elapsed, later);
    ProductGrows(diff, later, total);
    DivMonotone(0, diff * elapsed, total);
    DivMonotone(diff * elapsed, diff * later, total);
    DivMonotone(diff * later, diff * total, total);
    DivModUnique(diff * total, total, diff, 0);
    DivModUnique(0, total, 0, 0);
  }

  // ----- one second of the decay

  /** Wrapping or not, no more is gone than the difference, so nothing saturates. */
  lemma DecayedIs(output: OrderOutput, elapsed: nat, total: nat)
    requires 0 < total && elapsed <= total && output.startAmount >= output.endAmount
    ensures var gone := Wrap256(Difference(output) * elapsed) / total;
            Decayed(output, elapsed, total) == output.startAmount - gone && 0 <= gone <= Difference(output)
  {
    var diff := Difference(output);
    ProductGrows(diff, elapsed, total);
    WrapAtMost(diff * elapsed);
    DivMonotone(Wrap256(diff * elapsed), diff * elapsed, total);
    DivMonotone(0, Wrap256(diff * elapsed), total);
    GoneGrows(diff, elapsed, elapsed, total);
  }

  lemma SecondInWindow(o: DutchAuctionOrder, now: Instant)
    requires o.decayStartTime < now < o.decayEndTime
    ensures WholeSeconds(now - o.decayStartTime) <= LastSecond(o) <= Total(o)
  {
    SecondsGrow(now - o.decayStartTime, o.decayEndTime - 1 - o.decayStartTime);
    SecondsGrow(o.decayEndTime - 1 - o.decayStartTime, o.decayEndTime - o.decayStartTime);
  }

  /** Every whole second up to the last one is inside the window. */
  lemma MomentOf(o: DutchAuctionOrder, elapsed: nat) returns (now: Instant)
    requires 1 <= elapsed <= LastSecond(o)
    ensures o.decayStartTime < now < o.decayEndTime && WholeSeconds(now - o.decayStartTime) == elapsed <= Total(o)
    ensures now == o.decayStartTime + elapsed * SECOND
  {
    now := o.decayStartTime + elapsed * SECOND;
    DivModUnique(elapsed * SECOND, SECOND, elapsed, 0);
    SecondInWindow(o, now);
  }

  // ----- when the product wraps

  /** The first second at which the product overflows. */
  lemma {:induction false} FirstOverflow(diff: u256, last: nat) returns (second: nat)
    requires diff * last > U256_MAX
    ensures 2 <= second <= last && diff * second > U256_MAX >= diff * (second - 1)
  {
    if last == 0 || diff * (last - 1) <= U256_MAX {
      second := last;
    } else {
      second := FirstOverflow(diff, last - 1);
    }
  }

  lemma {:induction false} OneMoreSecond(diff: nat, second: nat)
    requires second > 0
    ensures diff * second == diff * (second - 1) + diff
  {
  }

  /** If it is not within `total` of 2^256, the quotient falls at that second. */
  lemma GoneFallsAtOverflow(diff: u256, second: nat, total: nat)
    requires 0 < total && diff + total <= U256_MODULUS && second > 0
    requires diff * second > U256_MAX >= diff * (second - 1)
    ensures Wrap256(diff * second) / total < Wrap256(diff * (second - 1)) / total
  {
    var before := diff * (second - 1);
    ProductGrows(diff, 0, second - 1);
    OneMoreSecond(diff, second);
    NoWrap(before);
    DivModUnique(diff * second, U256_MODULUS, 1, before + diff - U256_MODULUS);
    DivMonotone(before + diff - U256_MODULUS, before - total, total);
    DivModUnique(before - total, total, before / total - 1, before % total);
  }

  /** If it is, the product falls by the same small amount every second. */
  lemma WrapsDownward(diff: u256, elapsed: nat, total: nat)
    requires 1 <= elapsed <= total <= U64_MAX && diff + total > U256_MODULUS
    ensures Wrap256(diff * elapsed) == U256_MODULUS - (U256_MODULUS - diff) * elapsed
  {
    var short := U256_MODULUS - diff;
    ProductGrows(elapsed, short, total);
    ProductGrows(total, elapsed, U64_MAX);
    ProductGrows(U64_MAX, total, U64_MAX);
    ProductGrows(elapsed, 1, short);
    assert diff * elapsed == (elapsed - 1) * U256_MODULUS + (U256_MODULUS - short * elapsed);
    DivModUnique(diff * elapsed, U256_MODULUS, elapsed - 1, U256_MODULUS - short * elapsed);
  }

  lemma GoneFallsDownward(diff: u256, elapsed: nat, later: nat, total: nat)
    requires 1 <= elapsed <= later <= total <= U64_MAX && diff + total > U256_MODULUS
    ensures Wrap256(diff * later) / total <= Wrap256(diff * elapsed) / total
  {
    WrapsDownward(diff, elapsed, total);
    WrapsDownward(diff, later, total);
    ProductGrows(U256_MODULUS - diff, elapsed, later);
    DivMonotone(Wrap256(diff * later), Wrap256(diff * elapsed), total);
  }

  // ----- the amount never rises

  lemma FittingGoneGrows(diff: u256, elapsed: nat, later: nat, last: nat, total: nat)
    requires diff * last <= U256_MAX && elapsed <= later <= last <= total && total > 0
    ensures Wrap256(diff * elapsed) / total <= Wrap256(diff * later) / total
  {
    ProductGrows(diff, elapsed, last);
    ProductGrows(diff, later, last);
    NoWrap(diff * elapsed);
    NoWrap(diff * later);
    GoneGrows(diff, elapsed, later, total);
  }

  lemma FlatGoneGrows(diff: u256, elapsed: nat, later: nat, last: nat, total: nat)
    requires elapsed <= later <= last <= total <= U64_MAX && total > 0 && diff + total > U256_MODULUS
    requires Wrap256(diff * last) / total == diff / total
    ensures Wrap256(diff * elapsed) / total <= Wrap256(diff * later) / total
  {
    if elapsed == 0 {
      NoWrap(0);
      DivModUnique(0, total, 0, 0);
      DivMonotone(0, Wrap256(diff * later), total);
    } else {
      NoWrap(diff);
      GoneFallsDownward(diff, 1, elapsed, total);
      GoneFallsDownward(diff, later, last, total);
    }
  }

  lemma AmountBetween(o: DutchAuctionOrder, output: OrderOutput, t: Instant)
    requires output.startAmount >= output.endAmount
    ensures output.endAmount <= AmountAt(o, output, t) <= output.startAmount
  {
    if o.decayStartTime < t < o.decayEndTime && Total(o) > 0 {
      SecondInWindow(o, t);
      DecayedIs(output, WholeSeconds(t - o.decayStartTime), Total(o));
    }
  }

  lemma AmountFalls(o: DutchAuctionOrder, output: OrderOutput, t: Instant, t': Instant)
    requires t <= t' && Decays(o, output) && Countable(o)
    ensures AmountAt(o, output, t') <= AmountAt(o, output, t)
  {
    AmountBetween(o, output, t);
    AmountBetween(o, output, t');
    if o.decayStartTime < t && t' < o.decayEndTime && Total(o) > 0 {
      var elapsed, later := WholeSeconds(t - o.decayStartTime), WholeSeconds(t' - o.decayStartTime);
      SecondInWindow(o, t);
      SecondInWindow(o, t');
      SecondsGrow(t - o.decayStartTime, t' - o.decayStartTime);
      DecayedIs(output, elapsed, Total(o));
      DecayedIs(output, later, Total(o));
      if ProductFits(o, output) {
        FittingGoneGrows(Difference(output), elapsed, later, LastSecond(o), Total(o));
      } else {
        FlatGoneGrows(Difference(output), elapsed, later, LastSecond(o), Total(o));
      }
    }
  }

  // ----- or it does

  lemma RisingSeconds(diff: u256, last: nat, total: nat) returns (elapsed: nat, later: nat)
    requires diff * last > U256_MAX && last <= total <= U64_MAX && total > 0
    requires diff + total > U256_MODULUS ==> Wrap256(diff * last) / total != diff / total
    ensures 1 <= elapsed <= later <= last
    ensures Wrap256(diff * later) / total < Wrap256(diff * elapsed) / total
  {
    var second := FirstOverflow(diff, last);
    if diff + total <= U256_MODULUS {
      GoneFallsAtOverflow(diff, second, total);
      elapsed, later := second - 1, second;
    } else {
      NoWrap(diff);
      GoneFallsDownward(diff, 1, last, total);
      elapsed, later := 1, last;
    }
  }

  lemma AmountRises(o: DutchAuctionOrder, output: OrderOutput) returns (t: Instant, t': Instant)
    requires !Decays(o, output) && Countable(o)
    ensures t <= t' && AmountAt(o, output, t) < AmountAt(o, output, t')
  {
    if output.startAmount < output.endAmount {
      t, t' := o.decayStartTime, Max(o.decayStartTime + 1, o.decayEndTime);
    } else {
      if o.decayStartTime < o.decayEndTime {
        SecondsGrow(o.decayEndTime - 1 - o.decayStartTime, o.decayEndTime - o.decayStartTime);
      }
      var second := FirstOverflow(Difference(output), LastSecond(o));
      var elapsed, later := RisingSeconds(Difference(output), LastSecond(o), Total(o));
      t := MomentOf(o, elapsed);
      t' := MomentOf(o, later);
      DecayedIs(output, elapsed, Total(o));
      DecayedIs(output, later, Total(o));
    }
  }

  /** The required output goes from the start amount to the end amount. It never rises on the way,
      truncation to whole seconds included, exactly when the order starts no lower than it ends
      and the product fits 256 bits throughout, or wraps without effect. Whenever it starts no
      lower, wrapping or not, it stays between the two. */
  lemma DecayIsMonotoneIff(o: DutchAuctionOrder, output: OrderOutput)
    requires Countable(o)
    ensures (forall t, t' :: t <= t' ==> AmountAt(o, output, t') <= AmountAt(o, output, t)) <==> Decays(o, output)
    ensures AmountAt(o, output, o.decayStartTime) == output.startAmount
    ensures o.decayStartTime < o.decayEndTime ==> AmountAt(o, output, o.decayEndTime) == output.endAmount
    ensures output.startAmount >= output.endAmount ==>
              forall t :: output.endAmount <= AmountAt(o, output, t) <= output.startAmount
  {
    if Decays(o, output) {
      forall t, t' | t <= t' ensures AmountAt(o, output, t') <= AmountAt(o, output, t) {
        AmountFalls(o, output, t, t');
      }
    } else {
      var t, t' := AmountRises(o, output);
    }
    if output.startAmount >= output.endAmount {
      forall t ensures output.endAmount <= AmountAt(o, output, t) <= output.startAmount {
        AmountBetween(o, output, t);
      }
    }
  }

  /** Unless the difference is within the decay's length of 2^256, "wraps without effect" cannot
      happen: the amount never rises exactly when the product fits. */
  lemma OrdinaryDecaysIff(o: DutchAuctionOrder, output: OrderOutput)
    requires Countable(o) && output.startAmount >= output.endAmount && Difference(output) + Total(o) <= U256_MODULUS
    ensures (forall t, t' :: t <= t' ==> AmountAt(o, output, t') <= AmountAt(o, output, t)) <==> ProductFits(o, output)
  {
    DecayIsMonotoneIff(o, output);
  }

  /** Up to the start of the decay the start amount is required, from its end on the end amount; a
      decay of less than a second goes to the end amount at once. The output has to exist. */
  lemma AmountOutsideDecay(o: DutchAuctionOrder, index: nat, now: Instant)
    ensures CurrentOutputAmount(o, index, now).Some? <==> index < |o.outputs|
    ensures index < |o.outputs| ==>
              var output, amount := o.outputs[index], CurrentOutputAmount(o, index, now).value;
              && (now <= o.decayStartTime ==> amount == output.startAmount)
              && (o.decayStartTime < now && o.decayEndTime <= now ==> amount == output.endAmount)
              && (o.decayStartTime < now < o.decayEndTime < o.decayStartTime + 1_000_000_000 ==>
                    amount == output.endAmount)
  {
    if o.decayStartTime < o.decayEndTime < o.decayStartTime + 1_000_000_000 {
      WholeSecondsIs(o.decayEndTime - o.decayStartTime);
    }
  }

  // ----- the line

  /** During the decay the amount lies on or less than one unit above the exact line through the
      whole seconds elapsed, exactly when the product of that second does not wrap. */
  lemma DecayFollowsLineIff(o: DutchAuctionOrder, output: OrderOutput, now: Instant)
    requires Countable(o) && output.startAmount >= output.endAmount && o.decayStartTime < now < o.decayEndTime
             && Total(o) > 0
    ensures var elapsed := WholeSeconds(now - o.decayStartTime);
            var line := output.startAmount * Total(o) - Difference(output) * elapsed;
            line <= AmountAt(o, output, now) * Total(o) < line + Total(o) <==> Difference(output) * elapsed <= U256_MAX
  {
    SecondInWindow(o, now);
    DecayedOnLine(output, WholeSeconds(now - o.decayStartTime), Total(o));
  }

  lemma DecayedOnLine(output: OrderOutput, elapsed: nat, total: nat)
    requires 0 < total <= U64_MAX && elapsed <= total && output.startAmount >= output.endAmount
    ensures var line := output.startAmount * total - Difference(output) * elapsed;
            line <= Decayed(output, elapsed, total) * total < line + total <==> Difference(output) * elapsed <= U256_MAX
  {
    var product := Difference(output) * elapsed;
    ProductGrows(Difference(output), 0, elapsed);
    DecayedIs(output, elapsed, total);
    RoundedDown(output.startAmount, Wrap256(product), total);
    if product <= U256_MAX {
      NoWrap(product);
    } else {
      WrapsAway(product);
    }
  }

  lemma WrapsAway(x: nat)
    requires x > U256_MAX
    ensures Wrap256(x) <= x - U256_MODULUS
  {
    MulMonotone(x / U256_MODULUS, U256_MODULUS);
    assert x / U256_MODULUS >= 1 by {
      DivMonotone(U256_MODULUS, x, U256_MODULUS);
    }
  }

  lemma RoundedDown(start: nat, product: int, total: nat)
    requires total > 0
    ensures start * total - product <= (start - product / total) * total < start * total - product + total
  {
    assert (start - product / total) * total == start * total - (product / total) * total;
  }
}
