/**
 Strategy templates: each turns a candle series into one "be long now" flag per bar.
 The specification reads windows of the series directly; the loops use the indicators.
 */
module Signals {
  import opened Options
  import opened Indicators

  datatype Candle = Candle(openTime: int, open: real, high: real, low: real, close: real, volume: real)

  /** Any numbers will do as parameters, as the validation of a request admits nearly all of them. */
  datatype Template =
    | MaCrossover(fastPeriod: real, slowPeriod: real)
    | RsiThreshold(period: real, oversold: real, overbought: real)
    | DonchianBreakout(period: real)

  function Closes(candles: seq<Candle>): seq<real> {
    seq(|candles|, i requires 0 <= i < |candles| => candles[i].close)
  }

  function Highs(candles: seq<Candle>): seq<real> {
    seq(|candles|, i requires 0 <= i < |candles| => candles[i].high)
  }

  function Lows(candles: seq<Candle>): seq<real> {
    seq(|candles|, i requires 0 <= i < |candles| => candles[i].low)
  }

  // ---------------------------------------------------------------- latches

  /** A flag that `on` raises while it is down and `off` lowers while it is up. */
  function Latched(on: int -> bool, off: int -> bool, i: int): bool
    decreases i
  {
    if i < 0 then false
    else if Latched(on, off, i - 1) then !off(i)
    else on(i)
  }

  /** The flag is up exactly when it was raised at some bar while down and nothing has lowered it since. */
  lemma {:induction false} LatchedSince(on: int -> bool, off: int -> bool, i: int)
    ensures Latched(on, off, i) <==>
            exists j :: 0 <= j <= i && on(j) && !Latched(on, off, j - 1) && forall k :: j < k <= i ==> !off(k)
    decreases i
  {
    if i < 0 {
    } else {
      LatchedSince(on, off, i - 1);
      if Latched(on, off, i) {
        if Latched(on, off, i - 1) {
          var j :| 0 <= j <= i - 1 && on(j) && !Latched(on, off, j - 1) && forall k :: j < k <= i - 1 ==> !off(k);
          assert on(j) && forall k :: j < k <= i ==> !off(k);
        } else {
          assert on(i);
        }
      } else if Latched(on, off, i - 1) {
        assert off(i);
      } else {
        assert !on(i);
      }
    }
  }

  /** When no bar both raises and lowers it, it does not matter whether the flag was down when it was raised. */
  lemma {:induction false} LatchedSinceAny(on: int -> bool, off: int -> bool, i: int)
    requires forall j :: 0 <= j <= i ==> !(on(j) && off(j))
    ensures Latched(on, off, i) <==> exists j :: 0 <= j <= i && on(j) && forall k :: j < k <= i ==> !off(k)
    decreases i
  {
    if i < 0 {
    } else {
      LatchedSinceAny(on, off, i - 1);
      if Latched(on, off, i) {
        if Latched(on, off, i - 1) {
          var j :| 0 <= j <= i - 1 && on(j) && forall k :: j < k <= i - 1 ==> !off(k);
          assert on(j) && forall k :: j < k <= i ==> !off(k);
        } else {
          assert on(i);
        }
      } else if Latched(on, off, i - 1) {
        assert off(i);
      } else {
        assert !on(i);
      }
    }
  }

  lemma {:induction false} LatchedSame(on: int -> bool, off: int -> bool, on': int -> bool, off': int -> bool, i: int)
    requires forall j :: 0 <= j <= i ==> on(j) == on'(j) && off(j) == off'(j)
    ensures Latched(on, off, i) == Latched(on', off', i)
    decreases i
  {
    if i < 0 {
    } else {
      LatchedSame(on, off, on', off', i - 1);
    }
  }

  // ---------------------------------------------------------------- what each template means

  /** The fast mean is above the slow one. */
  predicate MaLong(candles: seq<Candle>, fast: real, slow: real, i: nat)
    requires i < |candles|
  {
    var f, s := SmaAt(Closes(candles), fast, i), SmaAt(Closes(candles), slow, i);
    f.Some? && s.Some? && f.value > s.value
  }

  /** The index is above `oversold` after not having been. */
  function RsiCrossesUp(closes: seq<real>, period: real, oversold: real): int -> bool {
    i => 0 <= i < |closes| && RsiAt(closes, period, i).Some?
         && RsiAt(closes, period, i).value > oversold
         && RsiAt(closes, period, i - 1).GetOr(RsiAt(closes, period, i).value) <= oversold
  }

  function RsiAbove(closes: seq<real>, period: real, overbought: real): int -> bool {
    i => 0 <= i < |closes| && RsiAt(closes, period, i).Some? && RsiAt(closes, period, i).value > overbought
  }

  /** The close is above every one of the preceding `period` highs. */
  function Breakout(candles: seq<Candle>, period: real): int -> bool {
    i => Whole(period) && 0 <= i < |candles| && period.Floor <= i
         && forall j | 0 <= j < |candles| && i - period.Floor <= j < i :: candles[i].close > candles[j].high
  }

  /** The close is below every one of the preceding `period` lows. */
  function Breakdown(candles: seq<Candle>, period: real): int -> bool {
    i => Whole(period) && 0 <= i < |candles| && period.Floor <= i
         && forall j | 0 <= j < |candles| && i - period.Floor <= j < i :: candles[i].close < candles[j].low
  }

  function LongAt(template: Template, candles: seq<Candle>, i: nat): bool
    requires i < |candles|
  {
    match template
    case MaCrossover(fast, slow) => MaLong(candles, fast, slow, i)
    case RsiThreshold(period, oversold, overbought) =>
      Latched(RsiCrossesUp(Closes(candles), period, oversold), RsiAbove(Closes(candles), period, overbought), i)
    case DonchianBreakout(period) => Latched(Breakout(candles, period), Breakdown(candles, period), i)
  }

  // ---------------------------------------------------------------- the loops

  method MaCrossoverSignal(candles: seq<Candle>, fastPeriod: real, slowPeriod: real) returns (signal: seq<bool>)
    ensures |signal| == |candles|
    ensures forall i :: 0 <= i < |candles| ==> signal[i] == LongAt(MaCrossover(fastPeriod, slowPeriod), candles, i)
  {
    hide SmaAt;
    var closes := Closes(candles);
    var fastMeans := Sma(closes, fastPeriod);
    var slowMeans := Sma(closes, slowPeriod);
    var fast, slow := fastMeans[..], slowMeans[..];
    signal := seq(|candles|, i requires 0 <= i < |fast| && i < |slow| =>
      fast[i].Some? && slow[i].Some? && fast[i].value > slow[i].value);
  }

  method RsiThresholdSignal(candles: seq<Candle>, period: real, oversold: real, overbought: real)
    returns (signal: array<bool>)
    ensures signal.Length == |candles|
    ensures forall i :: 0 <= i < |candles| ==>
              signal[i] == LongAt(RsiThreshold(period, oversold, overbought), candles, i)
  {
    hide RsiAt, RsiCrossesUp, RsiAbove;
    var closes := Closes(candles);
    var values := Rsi(closes, period);
    signal := new bool[|candles|](_ => false);
    var inPosition := false;
    ghost var on, off := RsiCrossesUp(closes, period, oversold), RsiAbove(closes, period, overbought);
    for i := 0 to |candles|
      invariant inPosition == Latched(on, off, i - 1)
      invariant forall j :: 0 <= j < i ==> signal[j] == Latched(on, off, j)
      invariant forall j :: 0 <= j < |candles| ==> values[j] == RsiAt(closes, period, j)
    {
      if values[i].None? {
        NoIndexYet(closes, period, oversold, overbought, i);
        signal[i] := false;
        continue;
      }
      var value := values[i].value;
      var previous := if i > 0 then values[i - 1] else BeforeFirst(closes, period);
      RsiMeaning(closes, period, oversold, overbought, i, value, previous);
      if !inPosition && value > oversold && previous.GetOr(value) <= oversold {
        inPosition := true;
      } else if inPosition && value > overbought {
        inPosition := false;
      }
      signal[i] := inPosition;
    }
  }

  /** What a negative period has left at the index before the first element. */
  function BeforeFirst(closes: seq<real>, period: real): (previous: Option<real>)
    ensures previous == RsiAt(closes, period, -1)
  {
    if Whole(period) && period < 0.0 then
      NothingMoved(closes, period.Floor, -1);
      Some(100.0)
    else None
  }

  lemma RsiMeaning(closes: seq<real>, period: real, oversold: real, overbought: real, i: nat,
                   value: real, previous: Option<real>)
    requires i < |closes| && RsiAt(closes, period, i) == Some(value) && RsiAt(closes, period, i - 1) == previous
    ensures RsiCrossesUp(closes, period, oversold)(i) <==>
              (value > oversold && previous.GetOr(value) <= oversold)
    ensures RsiAbove(closes, period, overbought)(i) <==> value > overbought
  {
    hide RsiAt;
  }

  /** Before the first index value nothing can have been entered. */
  lemma NoIndexYet(closes: seq<real>, period: real, oversold: real, overbought: real, i: int)
    requires 0 <= i < |closes| && RsiAt(closes, period, i).None?
    ensures !Latched(RsiCrossesUp(closes, period, oversold), RsiAbove(closes, period, overbought), i - 1)
    ensures !Latched(RsiCrossesUp(closes, period, oversold), RsiAbove(closes, period, overbought), i)
  {
    NothingBefore(closes, period, oversold, overbought, i - 1);
    NothingBefore(closes, period, oversold, overbought, i);
  }

  lemma {:induction false} NothingBefore(closes: seq<real>, period: real, oversold: real, overbought: real, i: int)
    requires -1 <= i < |closes| && forall j: nat | j <= i :: RsiAt(closes, period, j).None?
    ensures !Latched(RsiCrossesUp(closes, period, oversold), RsiAbove(closes, period, overbought), i)
    decreases i
  {
    if i < 0 {
    } else {
      NothingBefore(closes, period, oversold, overbought, i - 1);
      hide RsiAt;
      assert !RsiCrossesUp(closes, period, oversold)(i);
    }
  }

  method DonchianBreakoutSignal(candles: seq<Candle>, period: real) returns (signal: array<bool>)
    ensures signal.Length == |candles|
    ensures forall i :: 0 <= i < |candles| ==> signal[i] == LongAt(DonchianBreakout(period), candles, i)
  {
    hide IsChannelAt, Breakout, Breakdown;
    var channel := Donchian(Highs(candles), Lows(candles), period);
    signal := new bool[|candles|](_ => false);
    var inPosition := false;
    ghost var on, off := Breakout(candles, period), Breakdown(candles, period);
    for i := 0 to |candles|
      invariant inPosition == Latched(on, off, i - 1)
      invariant forall j :: 0 <= j < i ==> signal[j] == Latched(on, off, j)
      invariant forall j :: 0 <= j < |candles| ==> IsChannelAt(Highs(candles), Lows(candles), period, j, channel[j])
    {
      var bar := channel[i];
      if bar.upper.None? || bar.lower.None? {
        NoChannelYet(candles, period, i, bar);
        signal[i] := false;
        continue;
      }
      var close := candles[i].close;
      ChannelMeaning(candles, period, i, bar);
      if !inPosition && Exceeds(close, bar.upper.value) {
        inPosition := true;
      } else if inPosition && Undercuts(close, bar.lower.value) {
        inPosition := false;
      }
      signal[i] := inPosition;
    }
  }

  /** Every price is above minus infinity and below plus infinity. */
  predicate Exceeds(price: real, upper: Level) {
    upper.At? ==> price > upper.value
  }

  predicate Undercuts(price: real, lower: Level) {
    lower.At? ==> price < lower.value
  }

  lemma NoChannelYet(candles: seq<Candle>, period: real, i: nat, bar: DonchianChannel)
    requires i < |candles| && (bar.upper.None? || bar.lower.None?)
    requires IsChannelAt(Highs(candles), Lows(candles), period, i, bar)
    ensures !Latched(Breakout(candles, period), Breakdown(candles, period), i - 1)
    ensures !Latched(Breakout(candles, period), Breakdown(candles, period), i)
  {
    FlatBefore(candles, period, i - 1);
    FlatBefore(candles, period, i);
  }

  lemma {:induction false} FlatBefore(candles: seq<Candle>, period: real, i: int)
    requires !Whole(period) || i < period.Floor
    ensures !Latched(Breakout(candles, period), Breakdown(candles, period), i)
    decreases i
  {
    if i < 0 {
    } else {
      FlatBefore(candles, period, i - 1);
    }
  }

  lemma ChannelMeaning(candles: seq<Candle>, period: real, i: nat, bar: DonchianChannel)
    requires i < |candles| && bar.upper.Some? && bar.lower.Some?
    requires IsChannelAt(Highs(candles), Lows(candles), period, i, bar)
    ensures Breakout(candles, period)(i) <==> Exceeds(candles[i].close, bar.upper.value)
    ensures Breakdown(candles, period)(i) <==> Undercuts(candles[i].close, bar.lower.value)
  {
    var highs, lows := Highs(candles), Lows(candles);
    var lo := i - period.Floor;
    ExceedsAll(highs, lo, i, bar.upper.value, candles[i].close);
    UndercutsAll(lows, lo, i, bar.lower.value, candles[i].close);
    hide Exceeds, Undercuts, IsHighest, IsLowest;
    assert forall j | 0 <= j < |candles| && lo <= j < i :: Within(highs, lo, i, j) && Within(lows, lo, i, j);
    assert forall j | 0 <= j < |candles| :: candles[j].high == highs[j] && candles[j].low == lows[j];
  }

  lemma ExceedsAll(values: seq<real>, lo: int, hi: int, upper: Level, price: real)
    requires IsHighest(values, lo, hi, upper)
    ensures Exceeds(price, upper) <==> forall j | Within(values, lo, hi, j) :: price > values[j]
  {
  }

  lemma UndercutsAll(values: seq<real>, lo: int, hi: int, lower: Level, price: real)
    requires IsLowest(values, lo, hi, lower)
    ensures Undercuts(price, lower) <==> forall j | Within(values, lo, hi, j) :: price < values[j]
  {
  }

  method ComputeSignal(template: Template, candles: seq<Candle>) returns (signal: seq<bool>)
    ensures |signal| == |candles|
    ensures forall i :: 0 <= i < |candles| ==> signal[i] == LongAt(template, candles, i)
  {
    match template
    case MaCrossover(fast, slow) =>
      signal := MaCrossoverSignal(candles, fast, slow);
    case RsiThreshold(period, oversold, overbought) =>
      var flags := RsiThresholdSignal(candles, period, oversold, overbought);
      signal := flags[..];
    case DonchianBreakout(period) =>
      var flags := DonchianBreakoutSignal(candles, period);
      signal := flags[..];
  }

  // ---------------------------------------------------------------- declarative readings

  predicate HighsAboveLows(candles: seq<Candle>) {
    forall i :: 0 <= i < |candles| ==> candles[i].low <= candles[i].high
  }

  /** The closes of the candles, as a law may be given them. */
  ghost predicate AreCloses(closes: seq<real>, candles: seq<Candle>) {
    |closes| == |candles| && forall i | 0 <= i < |candles| :: closes[i] == candles[i].close
  }

  lemma ClosesAre(closes: seq<real>, candles: seq<Candle>)
    requires AreCloses(closes, candles)
    ensures Closes(candles) == closes
  {
  }

  /** Long exactly where there are enough bars and the last `fast` closes have a greater mean than the last `slow`. */
  lemma MaLaw(candles: seq<Candle>, closes: seq<real>, fast: nat, slow: nat, i: nat)
    requires AreCloses(closes, candles) && 1 <= fast && 1 <= slow && i < |candles|
    ensures LongAt(MaCrossover(fast as real, slow as real), candles, i) <==>
            fast <= i + 1 && slow <= i + 1
            && Total(closes[i + 1 - fast..i + 1]) / fast as real > Total(closes[i + 1 - slow..i + 1]) / slow as real
  {
    ClosesAre(closes, candles);
    SmaIsMean(closes, fast, i);
    SmaIsMean(closes, slow, i);
    hide SmaAt, Total, Closes;
  }

  /** Bar `j` closes above the highs of all the `period` bars before it, of which there are that many. */
  ghost predicate AboveHighs(candles: seq<Candle>, period: nat, j: nat)
    requires j < |candles|
  {
    period <= j && forall k | j - period <= k < j :: candles[j].close > candles[k].high
  }

  ghost predicate BelowLows(candles: seq<Candle>, period: nat, j: nat)
    requires j < |candles|
  {
    period <= j && forall k | j - period <= k < j :: candles[j].close < candles[k].low
  }

  /** Long after a close above the preceding highs that no close below the preceding lows has followed. */
  lemma DonchianLaw(candles: seq<Candle>, period: nat, i: nat)
    requires period >= 1 && i < |candles| && HighsAboveLows(candles)
    ensures LongAt(DonchianBreakout(period as real), candles, i) <==>
            exists j: nat :: j <= i && AboveHighs(candles, period, j)
                             && forall k: nat :: j < k <= i ==> !BelowLows(candles, period, k)
  {
    var on, off := Breakout(candles, period as real), Breakdown(candles, period as real);
    forall j: nat | j <= i
      ensures on(j) <==> AboveHighs(candles, period, j)
      ensures off(j) <==> BelowLows(candles, period, j)
      ensures !(on(j) && off(j))
    {
      BreaksAt(candles, period, j);
    }
    hide Breakout, Breakdown, AboveHighs, BelowLows;
    LatchedSinceAny(on, off, i);
  }

  lemma BreaksAt(candles: seq<Candle>, period: nat, j: nat)
    requires period >= 1 && j < |candles| && HighsAboveLows(candles)
    ensures Breakout(candles, period as real)(j) <==> AboveHighs(candles, period, j)
    ensures Breakdown(candles, period as real)(j) <==> BelowLows(candles, period, j)
    ensures !(AboveHighs(candles, period, j) && BelowLows(candles, period, j))
  {
    assert (period as real).Floor == period;
    if period <= j {
      assert candles[j - period].low <= candles[j - period].high;
    }
  }

  /** A fractional period never sets the flag. */
  lemma {:induction false} DonchianOfFraction(candles: seq<Candle>, period: real, i: nat)
    requires !Whole(period) && i < |candles|
    ensures !LongAt(DonchianBreakout(period), candles, i)
  {
    FlatBefore(candles, period, i);
  }

  /** With no bars to compare with every bar breaks out and breaks down: the flag turns at each of them. */
  lemma {:induction false} DonchianBlinks(candles: seq<Candle>, period: real, i: nat)
    requires Whole(period) && period <= 0.0 && i < |candles|
    ensures LongAt(DonchianBreakout(period), candles, i) <==> i % 2 == 0
  {
    assert Breakout(candles, period)(i) && Breakdown(candles, period)(i);
    if i == 0 {
    } else {
      DonchianBlinks(candles, period, i - 1);
    }
  }

  /** The index was at most `oversold` at the bar before and is above it at this one. */
  ghost predicate CrossesUp(closes: seq<real>, period: real, oversold: real, j: nat) {
    var before, now := RsiAt(closes, period, j - 1), RsiAt(closes, period, j);
    before.Some? && now.Some? && before.value <= oversold < now.value
  }

  ghost predicate Overbought(closes: seq<real>, period: real, overbought: real, j: nat) {
    var now := RsiAt(closes, period, j);
    now.Some? && now.value > overbought
  }

  /** Long since a cross up through `oversold` made while flat, with no value above `overbought` after it. */
  lemma RsiLaw(candles: seq<Candle>, closes: seq<real>, period: real, oversold: real, overbought: real, i: nat)
    requires AreCloses(closes, candles) && i < |candles|
    ensures var template := RsiThreshold(period, oversold, overbought);
            LongAt(template, candles, i) <==>
            exists j: nat :: j <= i && CrossesUp(closes, period, oversold, j)
                             && (j == 0 || !LongAt(template, candles, j - 1))
                             && forall k: nat :: j < k <= i ==> !Overbought(closes, period, overbought, k)
  {
    ClosesAre(closes, candles);
    var on, off := RsiCrossesUp(closes, period, oversold), RsiAbove(closes, period, overbought);
    var template := RsiThreshold(period, oversold, overbought);
    forall j: nat | j <= i
      ensures on(j) <==> CrossesUp(closes, period, oversold, j)
      ensures off(j) <==> Overbought(closes, period, overbought, j)
      ensures LongAt(template, candles, j) == Latched(on, off, j)
    {
      hide RsiAt;
    }
    hide RsiCrossesUp, RsiAbove, CrossesUp, Overbought, LongAt;
    LatchedSince(on, off, i);
  }

  // ---------------------------------------------------------------- no look-ahead

  /** Two series whose first `n` candles are the same. */
  predicate Agree(a: seq<Candle>, b: seq<Candle>, n: nat) {
    n <= |a| && n <= |b| && a[..n] == b[..n]
  }

  /** A whole negative period sums values after the bar. */
  predicate Ahead(period: real) {
    Whole(period) && period < 0.0
  }

  /** Averages look ahead with such a period, unless the comparison is never true anyway. */
  predicate LooksBackOnly(template: Template) {
    match template
    case MaCrossover(fast, slow) =>
      fast == slow || fast == 0.0 || slow == 0.0 || (!Ahead(fast) && !Ahead(slow))
    case RsiThreshold(_, _, _) => true
    case DonchianBreakout(_) => true
  }

  lemma {:induction false} WindowAgrees(a: seq<real>, b: seq<real>, lo: int, hi: int)
    requires lo <= hi <= |a| && hi <= |b| && forall j :: 0 <= j < hi ==> a[j] == b[j]
    ensures WindowSum(a, lo, hi) == WindowSum(b, lo, hi)
    decreases hi - lo
  {
    if lo == hi {
    } else {
      WindowAgrees(a, b, lo, hi - 1);
    }
  }

  lemma SmaAgrees(a: seq<real>, b: seq<real>, period: real, i: nat)
    requires !Ahead(period) && i < |a| && i < |b| && forall j :: 0 <= j <= i ==> a[j] == b[j]
    ensures SmaAt(a, period, i) == SmaAt(b, period, i)
  {
    WindowAgrees(a, b, 0, i + 1);
    if Whole(period) && 0.0 <= period <= (i + 1) as real {
      WindowAgrees(a, b, i + 1 - period.Floor, i + 1);
    }
  }

  lemma {:induction false} SumsAgree(a: seq<real>, b: seq<real>, n: int)
    requires n < |a| && n < |b| && forall j :: 0 <= j <= n ==> a[j] == b[j]
    ensures GainSum(a, n) == GainSum(b, n) && LossSum(a, n) == LossSum(b, n)
    decreases n
  {
    if n <= 0 {
    } else {
      SumsAgree(a, b, n - 1);
      assert Change(a, n) == Change(b, n);
    }
  }

  lemma {:induction false} AveragesAgree(a: seq<real>, b: seq<real>, period: int, i: int)
    requires period != 0 && period <= i < |a| && i < |b| && forall j :: 0 <= j <= i ==> a[j] == b[j]
    ensures AvgGain(a, period, i) == AvgGain(b, period, i) && AvgLoss(a, period, i) == AvgLoss(b, period, i)
    decreases i - period
  {
    if i == period {
      SumsAgree(a, b, period);
    } else {
      AveragesAgree(a, b, period, i - 1);
      assert Change(a, i) == Change(b, i);
    }
  }

  lemma RsiAgrees(a: seq<real>, b: seq<real>, period: real, i: int)
    requires i < |a| && i < |b| && forall j :: 0 <= j <= i ==> a[j] == b[j]
    ensures RsiAt(a, period, i) == RsiAt(b, period, i)
  {
    if Whole(period) && period != 0.0 && period.Floor <= i {
      AveragesAgree(a, b, period.Floor, i);
    }
  }

  /** The flag of a bar depends on that bar and those before it only. */
  lemma NoLookAhead(template: Template, a: seq<Candle>, b: seq<Candle>, n: nat, i: nat)
    requires LooksBackOnly(template) && Agree(a, b, n) && i < n
    ensures LongAt(template, a, i) == LongAt(template, b, i)
  {
    assert forall j :: 0 <= j < n ==> a[j] == a[..n][j] && b[j] == b[..n][j];
    var ca, cb := Closes(a), Closes(b);
    match template
    case MaCrossover(fast, slow) =>
      if !Ahead(fast) && !Ahead(slow) {
        SmaAgrees(ca, cb, fast, i);
        SmaAgrees(ca, cb, slow, i);
        hide SmaAt;
      }
    case RsiThreshold(period, oversold, overbought) =>
      forall j | -1 <= j <= i
        ensures RsiAt(ca, period, j) == RsiAt(cb, period, j)
      {
        RsiAgrees(ca, cb, period, j);
      }
      hide RsiAt;
      LatchedSame(RsiCrossesUp(ca, period, oversold), RsiAbove(ca, period, overbought),
                  RsiCrossesUp(cb, period, oversold), RsiAbove(cb, period, overbought), i);
    case DonchianBreakout(period) =>
      LatchedSame(Breakout(a, period), Breakdown(a, period), Breakout(b, period), Breakdown(b, period), i);
  }

  // ---------------------------------------------------------------- look-ahead, exactly

  /** What is known at a bar decides its flag. */
  ghost predicate DecidedByPast(template: Template) {
    forall a, b, n: nat, i: nat | Agree(a, b, n) && i < n :: LongAt(template, a, i) == LongAt(template, b, i)
  }

  /** No template looks ahead, except averages with a whole negative period. */
  lemma NoLookAheadExactly(template: Template)
    ensures DecidedByPast(template) <==> LooksBackOnly(template)
  {
    if LooksBackOnly(template) {
      forall a, b, n: nat, i: nat | Agree(a, b, n) && i < n
        ensures LongAt(template, a, i) == LongAt(template, b, i)
      {
        NoLookAhead(template, a, b, n, i);
      }
    } else {
      var k := LastOfWindows(template.fastPeriod, template.slowPeriod);
      var b := Revealing(template.fastPeriod, template.slowPeriod, k);
      var a := b[..k + 1];
      RevealingDiffers(template.fastPeriod, template.slowPeriod, k);
      assert Agree(a, b, k + 1);
      assert LongAt(template, a, k) != LongAt(template, b, k);
    }
  }

  /** A bar with enough bars before it for both averages. */
  function LastOfWindows(fast: real, slow: real): (k: nat)
    ensures (k + 1) as real >= fast && (k + 1) as real >= slow
  {
    if fast > slow then (if fast > 0.0 then fast.Floor else 0) else if slow > 0.0 then slow.Floor else 0
  }

  /** All closes are zero but the last one, which is the last that the average looking ahead at bar `k` sums. */
  function Revealing(fast: real, slow: real, k: nat): (candles: seq<Candle>)
    requires Ahead(fast) || Ahead(slow)
    ensures |candles| > k + 1
  {
    var at := if Ahead(fast) then k - fast.Floor else k - slow.Floor;
    var spike := if Ahead(fast) then 1.0 else -1.0;
    seq(at + 1, j => Candle(j, 0.0, 0.0, 0.0, if j == at then spike else 0.0, 0.0))
  }

  lemma RevealingDiffers(fast: real, slow: real, k: nat)
    requires !LooksBackOnly(MaCrossover(fast, slow)) && (k + 1) as real >= fast && (k + 1) as real >= slow
    ensures var b := Revealing(fast, slow, k);
            !MaLong(b[..k + 1], fast, slow, k) && MaLong(b, fast, slow, k)
  {
    var b := Revealing(fast, slow, k);
    var before, after := Closes(b[..k + 1]), Closes(b);
    var at := |b| - 1;
    SpikeMean(before, at, k, fast);
    SpikeMean(before, at, k, slow);
    SpikeMean(after, at, k, fast);
    SpikeMean(after, at, k, slow);
    hide SmaAt;
    if Ahead(fast) {
      Shares(fast, slow);
    } else {
      Shares(slow, fast);
    }
  }

  /** The mean at bar `k` of values that are zero but for one after it. */
  lemma SpikeMean(values: seq<real>, at: int, k: nat, period: real)
    requires k < at && k < |values| && period != 0.0 && (k + 1) as real >= period
    requires forall j | j != at :: ValueAt(values, j) == 0.0
    ensures SmaAt(values, period, k)
              == Some(if Ahead(period) && -period.Floor <= at <= k - period.Floor
                      then -ValueAt(values, at) / period else 0.0)
  {
    var p := period.Floor;
    SpikeSum(values, at, 0, k + 1);
    if Ahead(period) {
      SpikeSum(values, at, 0, -p);
      SpikeSum(values, at, k + 1, k + 1 - p);
    } else if Whole(period) {
      SpikeSum(values, at, k + 1 - p, k + 1);
    }
    assert 0.0 / period == 0.0;
  }

  lemma {:induction false} SpikeSum(values: seq<real>, at: int, lo: int, hi: int)
    requires lo <= hi && forall j | j != at :: ValueAt(values, j) == 0.0
    ensures WindowSum(values, lo, hi) == if lo <= at < hi then ValueAt(values, at) else 0.0
    decreases hi - lo
  {
    if lo == hi {
    } else {
      SpikeSum(values, at, lo, hi - 1);
    }
  }

  lemma Shares(p: real, q: real)
    requires p < 0.0
    ensures -1.0 / p > 0.0 && 1.0 / p < 0.0
    ensures q < p ==> -1.0 / q < -1.0 / p
  {
    var a, c := -1.0 / p, 1.0 / p;
    assert a * p == -1.0 && c * p == 1.0;
    if q < p {
      var b := -1.0 / q;
      assert b * q == -1.0;
      LargerShare(a, b, p, q);
    }
  }

  lemma LargerShare(a: real, b: real, p: real, q: real)
    requires q < p < 0.0 && a * p == -1.0 && b * q == -1.0
    ensures b < a
  {
    assert b > 0.0;
    assert b * (q - p) < 0.0;
    assert (a - b) * p == b * (q - p);
  }
}
