/** The risk manager: its checks, its two counters, and the daily loss bound when no call
    overlaps another: of the true loss, and of the loss that the wrapping counter shows. */
module Risk {
  import opened Machine

  datatype RiskConfig = RiskConfig(
    maxPositionPerToken: u256,
    maxSingleFillValue: u256,
    dailyLossLimitWei: u64,
    maxPendingFills: u32,
    enabled: bool)

  datatype Outcome = Passed | FillTooLarge | PositionTooLarge | LossLimitExceeded | TooManyPending

  /** `daily_pnl_wei` counts losses up: a positive value is a net loss. */
  function DailyLoss(dailyPnlWei: i64): u64 {
    if dailyPnlWei > 0 then dailyPnlWei else 0
  }

  function Check(config: RiskConfig, loss: u64, pending: u32, fillValue: u256, position: u256): Outcome {
    if !config.enabled then Passed
    else if fillValue > config.maxSingleFillValue then FillTooLarge
    else if SatAdd(position, fillValue, U256_MAX) > config.maxPositionPerToken then PositionTooLarge
    else if loss > config.dailyLossLimitWei then LossLimitExceeded
    else if pending >= config.maxPendingFills then TooManyPending
    else Passed
  }

  class Manager {
    const config: RiskConfig
    var dailyPnlWei: i64
    var pendingFills: u32

    constructor (config: RiskConfig)
      ensures this.config == config && dailyPnlWei == 0 && pendingFills == 0
    {
      this.config := config;
      dailyPnlWei, pendingFills := 0, 0;
    }

    method CheckFill(fillValue: u256, currentPosition: u256) returns (outcome: Outcome)
      ensures outcome == Check(config, DailyLoss(dailyPnlWei), pendingFills, fillValue, currentPosition)
    {
      var loss := if dailyPnlWei > 0 then dailyPnlWei else 0;
      var pending := pendingFills;
      if !config.enabled {
        return Passed;
      }
      if fillValue > config.maxSingleFillValue {
        return FillTooLarge;
      }
      var projected := SatAdd(currentPosition, fillValue, U256_MAX);
      if projected > config.maxPositionPerToken {
        return PositionTooLarge;
      }
      if loss > config.dailyLossLimitWei {
        return LossLimitExceeded;
      }
      if pending >= config.maxPendingFills {
        return TooManyPending;
      }
      return Passed;
    }

    method RecordFillStart()
      modifies this`pendingFills
      ensures pendingFills == Wrap32(old(pendingFills) + 1)
    {
      pendingFills := Wrap32(pendingFills + 1);
    }

    method RecordFillComplete(pnlWei: i64)
      modifies this
      ensures pendingFills == Wrap32(old(pendingFills) - 1)
      ensures dailyPnlWei == WrapI64(old(dailyPnlWei) - pnlWei)
    {
      pendingFills := Wrap32(pendingFills - 1);
      dailyPnlWei := WrapI64(dailyPnlWei - pnlWei);
    }

    method ResetDaily()
      modifies this`dailyPnlWei
      ensures dailyPnlWei == 0
    {
      dailyPnlWei := 0;
    }
  }

  lemma ScaleUp(a: nat, b: nat, c: nat)
    requires a <= b
    ensures a * c <= b * c
  {
  }

  // ----- the wrapping counter

  lemma WrapI64Is(x: int)
    requires I64_MIN - U64_MODULUS <= x <= I64_MAX + U64_MODULUS
    ensures WrapI64(x) == if x < I64_MIN then x + U64_MODULUS else if x <= I64_MAX then x else x - U64_MODULUS
  {
    var y := x - I64_MIN;
    var q := if x < I64_MIN then -1 else if x <= I64_MAX then 0 else 1;
    DivModUnique(y, U64_MODULUS, q, y - q * U64_MODULUS);
  }

  lemma CompletedLoss(dailyPnlWei: i64, pnlWei: i64, worst: nat)
    requires pnlWei >= 0 - worst && dailyPnlWei - pnlWei >= I64_MIN
    ensures DailyLoss(WrapI64(dailyPnlWei - pnlWei)) <= DailyLoss(dailyPnlWei) + worst
  {
    WrapI64Is(dailyPnlWei - pnlWei);
  }

  /** A counter that follows a net loss of at most 2^63 - 1, modulo 2^64, shows no less than the
      loss; and it shows the net loss itself exactly if that is not below -2^63. */
  lemma CounterShows(net: int)
    requires net <= I64_MAX
    ensures WrapI64(net) == net <==> net >= I64_MIN
    ensures Max(net, 0) <= DailyLoss(WrapI64(net))
  {
    if net >= I64_MIN {
      WrapI64Is(net);
    }
  }

  // ----- each start directly follows its check

  datatype Counters = Counters(dailyPnlWei: i64, pending: u32)

  const Fresh := Counters(0, 0)

  datatype Call = Fill(fillValue: u256, position: u256) | Complete(pnlWei: i64) | Reset

  /** A fill that passes its check is recorded as started before anything else happens. */
  function Perform(config: RiskConfig, c: Counters, call: Call): Counters {
    match call
    case Fill(fillValue, position) =>
      if Check(config, DailyLoss(c.dailyPnlWei), c.pending, fillValue, position) == Passed
      then c.(pending := Wrap32(c.pending + 1)) else c
    case Complete(pnlWei) => Counters(WrapI64(c.dailyPnlWei - pnlWei), Wrap32(c.pending - 1))
    case Reset => c.(dailyPnlWei := 0)
  }

  function PerformAll(config: RiskConfig, calls: seq<Call>): Counters {
    if calls == [] then Fresh
    else Perform(config, PerformAll(config, calls[..|calls| - 1]), calls[|calls| - 1])
  }

  /** The day's loss since the last reset as it really is, negative for a profit. */
  function NetLoss(calls: seq<Call>): int {
    if calls == [] then 0
    else
      var before := NetLoss(calls[..|calls| - 1]);
      match calls[|calls| - 1]
      case Fill(_, _) => before
      case Complete(pnlWei) => before - pnlWei
      case Reset => 0
  }

  /** A completion matches a start, and its fill loses no more than `worst`. */
  predicate OrderlyCall(c: Counters, call: Call, worst: nat) {
    call.Complete? ==> c.pending > 0 && call.pnlWei >= 0 - worst
  }

  ghost predicate OrderlyCalls(config: RiskConfig, calls: seq<Call>, worst: nat) {
    calls != [] ==>
      && OrderlyCalls(config, calls[..|calls| - 1], worst)
      && OrderlyCall(PerformAll(config, calls[..|calls| - 1]), calls[|calls| - 1], worst)
  }

  /** The daily limit and one worst fill per pending slot. */
  function Bound(config: RiskConfig, worst: nat): nat {
    MulMonotone(config.maxPendingFills, worst);
    config.dailyLossLimitWei + config.maxPendingFills * worst
  }

  ghost predicate Covers(config: RiskConfig, loss: int, pending: nat, worst: nat) {
    pending <= config.maxPendingFills && loss + pending * worst <= Bound(config, worst)
  }

  ghost predicate LossBounded(config: RiskConfig, c: Counters, worst: nat) {
    Covers(config, DailyLoss(c.dailyPnlWei), c.pending, worst)
  }

  // ----- the true loss

  /** What one call does to a loss that is no larger than the counter shows it to a check. */
  lemma PerformCovers(config: RiskConfig, c: Counters, call: Call, loss: int, after: int, worst: nat)
    requires config.enabled && Covers(config, loss, c.pending, worst) && OrderlyCall(c, call, worst)
    requires call.Fill? ==> after == loss && (DailyLoss(c.dailyPnlWei) <= config.dailyLossLimitWei ==>
                                                loss <= config.dailyLossLimitWei)
    requires call.Complete? ==> after <= loss + worst
    requires call.Reset? ==> after <= 0
    ensures Covers(config, after, Perform(config, c, call).pending, worst)
  {
    match call
    case Fill(_, _) =>
      if c.pending < config.maxPendingFills {
        DivModUnique(c.pending + 1, U32_MODULUS, 0, c.pending + 1);
        ScaleUp(c.pending + 1, config.maxPendingFills, worst);
      }
    case Complete(pnlWei) =>
      DivModUnique(c.pending - 1, U32_MODULUS, 0, c.pending - 1);
      assert c.pending * worst == (c.pending - 1) * worst + worst;
    case Reset =>
      ScaleUp(c.pending, config.maxPendingFills, worst);
  }

  /** The day's true loss plus what the pending fills can still lose never exceeds the limit plus
      one worst fill per pending slot: over every run of fills, completions and resets, and
      whether the counter wraps or not. The counter is the net loss modulo 2^64. */
  lemma {:induction false} TrueLossBound(config: RiskConfig, calls: seq<Call>, worst: nat)
    requires config.enabled && OrderlyCalls(config, calls, worst) && Bound(config, worst) <= I64_MAX
    ensures Covers(config, Max(NetLoss(calls), 0), PerformAll(config, calls).pending, worst)
    ensures PerformAll(config, calls).dailyPnlWei == WrapI64(NetLoss(calls))
  {
    if calls == [] {
      WrapI64Is(0);
      ScaleUp(0, config.maxPendingFills, worst);
    } else {
      var init, last := calls[..|calls| - 1], calls[|calls| - 1];
      var c, net, net' := PerformAll(config, init), NetLoss(init), NetLoss(calls);
      TrueLossBound(config, init, worst);
      ScaleUp(0, c.pending, worst);
      CounterShows(net);
      PerformCovers(config, c, last, Max(net, 0), Max(net', 0), worst);
      if last.Complete? {
        WrapI64Step(net, 0 - last.pnlWei);
      }
      WrapI64Is(0);
    }
  }

  lemma CallsNext(config: RiskConfig, calls: seq<Call>, call: Call, worst: nat)
    ensures PerformAll(config, calls + [call]) == Perform(config, PerformAll(config, calls), call)
    ensures OrderlyCalls(config, calls + [call], worst)
            <==> OrderlyCalls(config, calls, worst) && OrderlyCall(PerformAll(config, calls), call, worst)
    ensures call.Complete? ==> NetLoss(calls + [call]) == NetLoss(calls) - call.pnlWei
    ensures call.Fill? ==> NetLoss(calls + [call]) == NetLoss(calls)
  {
    assert (calls + [call])[..|calls|] == calls;
  }

  // ----- a bound beyond the counter

  /** A run after which the counter shows `net`, which is its true loss, with `pending` fills. */
  ghost predicate Attains(config: RiskConfig, calls: seq<Call>, worst: nat, net: int, pending: nat) {
    && OrderlyCalls(config, calls, worst) && NetLoss(calls) == net
    && PerformAll(config, calls).dailyPnlWei == WrapI64(net) && PerformAll(config, calls).pending == pending
  }

  lemma Opens(config: RiskConfig, calls: seq<Call>, worst: nat, net: int, pending: nat, next: nat)
    requires config.enabled && Attains(config, calls, worst, net, pending)
             && next == pending + 1 <= config.maxPendingFills
    requires DailyLoss(WrapI64(net)) <= config.dailyLossLimitWei
    ensures Attains(config, calls + [Fill(0, 0)], worst, net, next)
  {
    CallsNext(config, calls, Fill(0, 0), worst);
    DivModUnique(pending + 1, U32_MODULUS, 0, pending + 1);
  }

  lemma Loses(config: RiskConfig, calls: seq<Call>, worst: nat, net: int, pending: nat, lost: nat, net': int)
    requires Attains(config, calls, worst, net, pending) && pending > 0
    requires lost <= worst && lost <= 0 - I64_MIN && net' == net + lost
    ensures Attains(config, calls + [Complete(0 - lost)], worst, net', pending - 1)
  {
    CallsNext(config, calls, Complete(0 - lost), worst);
    DivModUnique(pending - 1, U32_MODULUS, 0, pending - 1);
    WrapI64Step(net, lost);
  }

  /** Fills that lose `step` each, one after the other. */
  lemma {:induction false} LoseInSteps(config: RiskConfig, worst: nat, step: nat, k: nat) returns (calls: seq<Call>)
    requires config.enabled && config.maxPendingFills >= 1 && step <= worst && step <= 0 - I64_MIN
    requires config.dailyLossLimitWei >= I64_MAX || (step == 1 && k <= config.dailyLossLimitWei)
    ensures Attains(config, calls, worst, k * step, 0)
  {
    if k == 0 {
      calls := [];
      WrapI64Is(0);
    } else {
      calls := LoseInSteps(config, worst, step, k - 1);
      var net := (k - 1) * step;
      if config.dailyLossLimitWei < I64_MAX {
        WrapI64Is(net);
      }
      Opens(config, calls, worst, net, 0, 1);
      Loses(config, calls + [Fill(0, 0)], worst, net, 1, step, k * step);
      calls := calls + [Fill(0, 0)] + [Complete(0 - step)];
    }
  }

  lemma {:induction false} OpenMany(config: RiskConfig, worst: nat, k: nat) returns (calls: seq<Call>)
    requires config.enabled && 1 <= worst && 1 <= config.maxPendingFills && k <= config.maxPendingFills
    requires config.dailyLossLimitWei <= I64_MAX
    ensures Attains(config, calls, worst, config.dailyLossLimitWei, k)
  {
    var limit: int := config.dailyLossLimitWei;
    WrapI64Is(limit);
    if k == 0 {
      calls := LoseInSteps(config, worst, 1, limit);
    } else {
      calls := OpenMany(config, worst, k - 1);
      Opens(config, calls, worst, limit, k - 1, k);
      calls := calls + [Fill(0, 0)];
    }
  }

  /** All slots are filled at the limit; then fills lose until the counter overflows. */
  lemma {:induction false} LoseUntilOverflow(config: RiskConfig, worst: nat, net: int, pending: nat, calls: seq<Call>)
    returns (calls': seq<Call>, net': int, pending': nat)
    requires 1 <= worst <= 0 - I64_MIN && Attains(config, calls, worst, net, pending)
    requires net <= I64_MAX < net + pending * worst
    ensures Attains(config, calls', worst, net', pending') && pending' < pending
    ensures I64_MAX < net' <= I64_MAX + worst && net' + pending' * worst == net + pending * worst
    decreases pending
  {
    assert pending * worst == (pending - 1) * worst + worst;
    Loses(config, calls, worst, net, pending, worst, net + worst);
    calls', net', pending' := calls + [Complete(0 - worst)], net + worst, pending - 1;
    if net' <= I64_MAX {
      calls', net', pending' := LoseUntilOverflow(config, worst, net', pending', calls');
    }
  }

  lemma OverflowBreaks(config: RiskConfig, worst: nat) returns (calls: seq<Call>)
    requires config.enabled && config.maxPendingFills >= 1 && 1 <= worst <= 0 - I64_MIN
    requires Bound(config, worst) > I64_MAX
    ensures OrderlyCalls(config, calls, worst)
    ensures !Covers(config, Max(NetLoss(calls), 0), PerformAll(config, calls).pending, worst)
  {
    if config.dailyLossLimitWei > I64_MAX {
      var k := Bound(config, worst) + 1;
      calls := LoseInSteps(config, worst, worst, k);
      ScaleUp(1, worst, k);
    } else {
      calls := OpenMany(config, worst, config.maxPendingFills);
      var net, pending;
      calls, net, pending := LoseUntilOverflow(config, worst, config.dailyLossLimitWei, config.maxPendingFills, calls);
      WrapI64Is(net);
      Opens(config, calls, worst, net, pending, pending + 1);
      calls := calls + [Fill(0, 0)];
      assert (pending + 1) * worst == pending * worst + worst;
    }
  }

  /** Over all runs the true loss keeps that bound exactly when the bound is one that the counter
      can hold: past 2^63 - 1 it reads a loss as a profit, and checks pass again. */
  lemma TrueLossBoundIff(config: RiskConfig, worst: nat)
    requires config.enabled && config.maxPendingFills >= 1 && 1 <= worst <= 0 - I64_MIN
    ensures (forall calls :: OrderlyCalls(config, calls, worst) ==>
               Covers(config, Max(NetLoss(calls), 0), PerformAll(config, calls).pending, worst))
            <==> Bound(config, worst) <= I64_MAX
  {
    if Bound(config, worst) <= I64_MAX {
      forall calls | OrderlyCalls(config, calls, worst)
        ensures Covers(config, Max(NetLoss(calls), 0), PerformAll(config, calls).pending, worst)
      {
        TrueLossBound(config, calls, worst);
      }
    } else {
      var calls := OverflowBreaks(config, worst);
    }
  }

  // ----- the loss that the counter shows

  predicate Underflows(c: Counters, call: Call) {
    call.Complete? && c.dailyPnlWei - call.pnlWei < I64_MIN
  }

  /** The counter does not fall below -2^63, or wraps to a loss that the bound allows. */
  predicate Harmless(config: RiskConfig, c: Counters, call: Call, worst: nat) {
    Underflows(c, call) ==>
      c.dailyPnlWei - call.pnlWei + U64_MODULUS + (c.pending - 1) * worst <= Bound(config, worst)
  }

  lemma PerformBoundedIff(config: RiskConfig, c: Counters, call: Call, worst: nat)
    requires config.enabled && LossBounded(config, c, worst) && OrderlyCall(c, call, worst)
    ensures LossBounded(config, Perform(config, c, call), worst) <==> Harmless(config, c, call, worst)
  {
    var shown, after := DailyLoss(c.dailyPnlWei), Perform(config, c, call);
    if Underflows(c, call) {
      WrapI64Is(c.dailyPnlWei - call.pnlWei);
      DivModUnique(c.pending - 1, U32_MODULUS, 0, c.pending - 1);
    } else {
      if call.Complete? {
        CompletedLoss(c.dailyPnlWei, call.pnlWei, worst);
      }
      PerformCovers(config, c, call, shown, DailyLoss(after.dailyPnlWei), worst);
    }
  }

  lemma OrderlyPrefix(config: RiskConfig, calls: seq<Call>, worst: nat, n: nat)
    requires OrderlyCalls(config, calls, worst) && n <= |calls|
    ensures OrderlyCalls(config, calls[..n], worst)
    decreases |calls| - n
  {
    if n < |calls| {
      OrderlyPrefix(config, calls, worst, n + 1);
      assert calls[..n + 1][..n] == calls[..n];
    } else {
      assert calls[..n] == calls;
    }
  }

  lemma BoundedNext(config: RiskConfig, calls: seq<Call>, worst: nat, i: nat)
    requires config.enabled && OrderlyCalls(config, calls, worst) && i < |calls|
    requires LossBounded(config, PerformAll(config, calls[..i]), worst)
    ensures LossBounded(config, PerformAll(config, calls[..i + 1]), worst)
            <==> Harmless(config, PerformAll(config, calls[..i]), calls[i], worst)
  {
    OrderlyPrefix(config, calls, worst, i + 1);
    assert calls[..i + 1][..i] == calls[..i];
    PerformBoundedIff(config, PerformAll(config, calls[..i]), calls[i], worst);
  }

  ghost predicate AlwaysBounded(config: RiskConfig, calls: seq<Call>, worst: nat) {
    forall n: nat :: n <= |calls| ==> LossBounded(config, PerformAll(config, calls[..n]), worst)
  }

  ghost predicate AlwaysHarmless(config: RiskConfig, calls: seq<Call>, worst: nat) {
    forall i :: 0 <= i < |calls| ==> Harmless(config, PerformAll(config, calls[..i]), calls[i], worst)
  }

  lemma {:induction false} HarmlessIsBounded(config: RiskConfig, calls: seq<Call>, worst: nat, n: nat)
    requires config.enabled && OrderlyCalls(config, calls, worst) && n <= |calls|
    requires AlwaysHarmless(config, calls, worst)
    ensures LossBounded(config, PerformAll(config, calls[..n]), worst)
  {
    if n == 0 {
      ScaleUp(0, config.maxPendingFills, worst);
    } else {
      HarmlessIsBounded(config, calls, worst, n - 1);
      BoundedNext(config, calls, worst, n - 1);
    }
  }

  /** The loss that the counter shows stays within the same bound after every call exactly when no
      completion takes the counter below -2^63 and round to a loss beyond it. */
  lemma ShownLossBoundIff(config: RiskConfig, calls: seq<Call>, worst: nat)
    requires config.enabled && OrderlyCalls(config, calls, worst)
    ensures AlwaysBounded(config, calls, worst) <==> AlwaysHarmless(config, calls, worst)
  {
    if AlwaysBounded(config, calls, worst) {
      forall i | 0 <= i < |calls| ensures Harmless(config, PerformAll(config, calls[..i]), calls[i], worst) {
        BoundedNext(config, calls, worst, i);
      }
    }
    if AlwaysHarmless(config, calls, worst) {
      forall n: nat | n <= |calls| ensures LossBounded(config, PerformAll(config, calls[..n]), worst) {
        HarmlessIsBounded(config, calls, worst, n);
      }
    }
  }

  lemma OrdinaryGainIsHarmlessIff(config: RiskConfig, c: Counters, call: Call, worst: nat)
    requires OrderlyCall(c, call, worst) && (call.Complete? ==> call.pnlWei <= I64_MAX - Bound(config, worst))
    ensures Harmless(config, c, call, worst) <==> !Underflows(c, call)
  {
    if Underflows(c, call) {
      ScaleUp(0, c.pending - 1, worst);
    }
  }

  lemma OrderlyAt(config: RiskConfig, calls: seq<Call>, worst: nat, i: nat)
    requires OrderlyCalls(config, calls, worst) && i < |calls|
    ensures OrderlyCall(PerformAll(config, calls[..i]), calls[i], worst)
  {
    OrderlyPrefix(config, calls, worst, i + 1);
    assert calls[..i + 1][..i] == calls[..i];
  }

  ghost predicate NeverUnderflows(config: RiskConfig, calls: seq<Call>) {
    forall i :: 0 <= i < |calls| ==> !Underflows(PerformAll(config, calls[..i]), calls[i])
  }

  /** While no fill gains more than 2^63 - 1 less the bound, that is: exactly when no completion
      takes the counter below -2^63 at all. */
  lemma OrdinaryGainsIff(config: RiskConfig, calls: seq<Call>, worst: nat)
    requires config.enabled && OrderlyCalls(config, calls, worst)
    requires forall i :: 0 <= i < |calls| && calls[i].Complete? ==> calls[i].pnlWei <= I64_MAX - Bound(config, worst)
    ensures AlwaysBounded(config, calls, worst) <==> NeverUnderflows(config, calls)
  {
    ShownLossBoundIff(config, calls, worst);
    forall i | 0 <= i < |calls|
      ensures Harmless(config, PerformAll(config, calls[..i]), calls[i], worst)
              <==> !Underflows(PerformAll(config, calls[..i]), calls[i])
    {
      OrderlyAt(config, calls, worst, i);
      OrdinaryGainIsHarmlessIff(config, PerformAll(config, calls[..i]), calls[i], worst);
    }
  }

  /** A check of nothing, right after, and a completion that gains. */
  lemma GainNext(config: RiskConfig, calls: seq<Call>, gain: i64, worst: nat)
    requires config.enabled && config.maxPendingFills >= 1 && gain >= 0
    requires OrderlyCalls(config, calls, worst) && PerformAll(config, calls).pending == 0
    requires PerformAll(config, calls).dailyPnlWei <= 0
    ensures var calls' := calls + [Fill(0, 0)] + [Complete(gain)];
            && OrderlyCalls(config, calls', worst) && NetLoss(calls') == NetLoss(calls) - gain
            && PerformAll(config, calls') == Counters(WrapI64(PerformAll(config, calls).dailyPnlWei - gain), 0)
  {
    CallsNext(config, calls, Fill(0, 0), worst);
    CallsNext(config, calls + [Fill(0, 0)], Complete(gain), worst);
    DivModUnique(0, U32_MODULUS, 0, 0);
    DivModUnique(1, U32_MODULUS, 0, 1);
  }

  /** It does happen: two profitable fills, of 2^63 - 1 and 2 wei, show as a loss of 2^63 - 1, and
      from then on every check fails. */
  lemma ProfitShowsAsLoss(config: RiskConfig, worst: nat)
    requires config.enabled && config.maxPendingFills >= 1 && Bound(config, worst) < I64_MAX
    ensures var calls := [Fill(0, 0), Complete(I64_MAX), Fill(0, 0), Complete(2)];
            var c := PerformAll(config, calls);
            && OrderlyCalls(config, calls, worst) && NetLoss(calls) == 0 - I64_MAX - 2
            && DailyLoss(c.dailyPnlWei) == I64_MAX && !LossBounded(config, c, worst)
            && forall value, position :: Check(config, DailyLoss(c.dailyPnlWei), c.pending, value, position) != Passed
  {
    var first: seq<Call> := [] + [Fill(0, 0)] + [Complete(I64_MAX)];
    ScaleUp(0, config.maxPendingFills, worst);
    WrapI64Is(0 - I64_MAX);
    WrapI64Is(0 - I64_MAX - 2);
    GainNext(config, [], I64_MAX, worst);
    GainNext(config, first, 2, worst);
    assert first + [Fill(0, 0)] + [Complete(2)] == [Fill(0, 0), Complete(I64_MAX), Fill(0, 0), Complete(2)];
  }
}
