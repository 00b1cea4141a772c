/**
 The one-position backtest: enter with all equity when the signal turns on, leave when it turns off,
 and pay a fee both times. `Simulate` is the loop; `After` is the state it has reached after `n` candles.
 */
module Simulator {
  import opened Options
  import opened Signals

  /** `pnlPercent` is NaN, given as `None`, when a fee of 100 percent has left nothing to measure against. */
  datatype SimulatedTrade = SimulatedTrade(
    entryTime: int, entryPrice: real, exitTime: int, exitPrice: real, pnlPercent: Option<real>)

  datatype EquityPoint = EquityPoint(time: int, equity: real)

  datatype Summary = Summary(
    totalTrades: nat, winRate: real, totalPnlPercent: real, profitFactor: Option<real>,
    maxDrawdownPercent: real, finalEquity: real)

  datatype SimulationResult = SimulationResult(
    trades: seq<SimulatedTrade>, equityCurve: seq<EquityPoint>, summary: Summary)

  /** `equityAtEntry` is the equity after the entry fee. */
  datatype OpenPosition = OpenPosition(entryTime: int, entryPrice: real, equityAtEntry: real)

  // ---------------------------------------------------------------- arithmetic of one position

  function MarkedEquity(p: OpenPosition, close: real): real
    requires p.entryPrice != 0.0
  {
    p.equityAtEntry * (1.0 + (close - p.entryPrice) / p.entryPrice)
  }

  function Fee(equity: real, feeRate: real): real {
    equity * (1.0 - feeRate)
  }

  /** Equity once the position is sold at `exitPrice`. */
  function ClosePosition(p: OpenPosition, exitPrice: real, feeRate: real): real
    requires p.entryPrice != 0.0
  {
    Fee(MarkedEquity(p, exitPrice), feeRate)
  }

  function PercentOf(part: real, whole: real): real
    requires whole != 0.0
  {
    part / whole * 100.0
  }

  function BuildTrade(p: OpenPosition, exitTime: int, exitPrice: real, equityAfterExit: real): SimulatedTrade {
    SimulatedTrade(p.entryTime, p.entryPrice, exitTime, exitPrice,
                   if p.equityAtEntry == 0.0 then None
                   else Some(Round2(PercentOf(equityAfterExit - p.equityAtEntry, p.equityAtEntry))))
  }

  // ---------------------------------------------------------------- the state after n candles

  /** A signal shorter than the candles reads as false where it is missing. */
  predicate WantLong(signal: seq<bool>, i: nat) {
    i < |signal| && signal[i]
  }

  /** The position may be entered at candle `i`. */
  predicate Entered(signal: seq<bool>, i: nat) {
    WantLong(signal, i) && (i > 0 ==> !WantLong(signal, i - 1))
  }

  /** No position is entered at a price of zero, which would have infinite returns. */
  predicate Enterable(candles: seq<Candle>, signal: seq<bool>) {
    forall i: nat | i < |candles| && Entered(signal, i) :: candles[i].close != 0.0
  }

  /** Prices are not negative, and none is entered at zero. */
  predicate Priced(candles: seq<Candle>, signal: seq<bool>) {
    Enterable(candles, signal) && forall i | 0 <= i < |candles| :: candles[i].close >= 0.0
  }

  datatype State = State(equity: real, position: Option<OpenPosition>, trades: seq<SimulatedTrade>)
  {
    predicate Sound() {
      position.Some? ==> position.value.entryPrice != 0.0
    }

    /** What the account is worth at `close`. */
    function Worth(close: real): real
      requires Sound()
    {
      if position.Some? then MarkedEquity(position.value, close) else equity
    }
  }

  lemma MarkedIsScaled(p: OpenPosition, close: real)
    requires p.entryPrice != 0.0
    ensures MarkedEquity(p, close) == p.equityAtEntry * (close / p.entryPrice)
  {
    Quotients(close, p.entryPrice, p.entryPrice);
  }

  /** One candle: enter, leave, or stay. */
  function Step(s: State, candle: Candle, want: bool, feeRate: real): (r: State)
    requires s.Sound() && (want && s.position.None? ==> candle.close != 0.0)
    ensures r.Sound()
    ensures r.position.Some? <==> want
  {
    if want && s.position.None? then
      var equity := Fee(s.equity, feeRate);
      State(equity, Some(OpenPosition(candle.openTime, candle.close, equity)), s.trades)
    else if !want && s.position.Some? then
      Leave(s, candle, feeRate)
    else
      s
  }

  function Leave(s: State, candle: Candle, feeRate: real): (r: State)
    requires s.Sound() && s.position.Some?
    ensures r.Sound()
  {
    var p := s.position.value;
    var equity := ClosePosition(p, candle.close, feeRate);
    State(equity, None, s.trades + [BuildTrade(p, candle.openTime, candle.close, equity)])
  }

  function After(candles: seq<Candle>, signal: seq<bool>, capital: real, feeRate: real, n: nat): (s: State)
    requires n <= |candles| && Enterable(candles, signal)
    ensures s.Sound()
    ensures s.position.Some? <==> n > 0 && WantLong(signal, n - 1)
  {
    if n == 0 then State(capital, None, [])
    else Step(After(candles, signal, capital, feeRate, n - 1), candles[n - 1], WantLong(signal, n - 1), feeRate)
  }

  /** The unrounded equity curve. */
  function Marked(candles: seq<Candle>, signal: seq<bool>, capital: real, feeRate: real, n: nat): (points: seq<real>)
    requires n <= |candles| && Enterable(candles, signal)
    ensures |points| == n
  {
    if n == 0 then []
    else
      var s := After(candles, signal, capital, feeRate, n);
      Marked(candles, signal, capital, feeRate, n - 1) + [s.Worth(candles[n - 1].close)]
  }

  /** A position still open after the last candle is sold at that candle's close. */
  function Finished(candles: seq<Candle>, signal: seq<bool>, capital: real, feeRate: real): (s: State)
    requires Enterable(candles, signal)
    ensures s.Sound()
  {
    var s := After(candles, signal, capital, feeRate, |candles|);
    if s.position.Some? then Leave(s, candles[|candles| - 1], feeRate) else s
  }

  // ---------------------------------------------------------------- drawdown

  /** The fall from `x` down to `y`, in percent of `x`. */
  function Fall(x: real, y: real): real
    requires x > 0.0
  {
    PercentOf(x - y, x)
  }

  function Highest(points: seq<real>): (peak: real)
    requires points != []
    ensures peak >= points[0] && peak in points
    ensures forall i :: 0 <= i < |points| ==> points[i] <= peak
  {
    var n := |points| - 1;
    if n == 0 then points[0] else
    assert points == points[..n] + [points[n]];
    Max(Highest(points[..n]), points[n])
  }

  /** The largest fall of any point from the highest point so far. */
  function Drawdown(points: seq<real>): (d: real)
    requires points != [] && points[0] > 0.0
    ensures d >= 0.0
  {
    var n := |points| - 1;
    if n == 0 then 0.0 else Max(Drawdown(points[..n]), Fall(Highest(points), points[n]))
  }

  predicate NonNegative(points: seq<real>) {
    forall i :: 0 <= i < |points| ==> points[i] >= 0.0
  }

  /** There is a fall from point `i` to itself or a later point `j`. */
  predicate Pair(points: seq<real>, i: int, j: int) {
    0 <= i <= j < |points| && points[i] > 0.0
  }

  /** `d` is the largest fall from any point to itself or a later one. */
  ghost predicate IsMaxDrawdown(points: seq<real>, d: real) {
    && (forall i, j | Pair(points, i, j) :: Fall(points[i], points[j]) <= d)
    && (exists i, j :: Pair(points, i, j) && Fall(points[i], points[j]) == d)
  }

  lemma FallMonotone(x: real, peak: real, y: real)
    requires 0.0 < x <= peak && y >= 0.0
    ensures Fall(x, y) <= Fall(peak, y)
    ensures Fall(x, x) == 0.0
    ensures Fall(x, y) <= 100.0 && (y > 0.0 ==> Fall(x, y) < 100.0)
  {
    FallShare(x, y);
    FallShare(x, x);
    FallShare(peak, y);
    ShareOrder(x, peak, y);
  }

  lemma FallShare(x: real, y: real)
    requires x > 0.0
    ensures Fall(x, y) == 100.0 - 100.0 * (y / x)
    ensures y == x ==> Fall(x, y) == 0.0
  {
    Quotients(x, y, x);
  }

  lemma ShareOrder(x: real, peak: real, y: real)
    requires 0.0 < x <= peak && y >= 0.0
    ensures y / x >= y / peak >= 0.0
    ensures y > 0.0 ==> y / x > 0.0
  {
    var a, b := y / x, y / peak;
    assert a * x == y && b * peak == y;
    assert a >= 0.0 && b >= 0.0;
    assert (a - b) * x == b * (peak - x);
    LargerFactor(b, peak - x, a - b, x);
  }

  lemma LargerFactor(b: real, gap: real, d: real, x: real)
    requires b >= 0.0 && gap >= 0.0 && x > 0.0 && d * x == b * gap
    ensures d >= 0.0
  {
    assert b * gap >= 0.0;
  }

  /** Comparing each new point with the highest so far is enough to know the largest fall over all pairs. */
  lemma DrawdownStep(points: seq<real>, d: real, y: real)
    requires points != [] && points[0] > 0.0 && NonNegative(points) && y >= 0.0
    requires IsMaxDrawdown(points, d)
    ensures IsMaxDrawdown(points + [y], Max(d, Fall(Highest(points + [y]), y)))
  {
    hide Fall, Highest;
    var all, n := points + [y], |points|;
    var peak := Highest(all);
    var d' := Max(d, Fall(peak, y));
    assert all[n] == y && forall i | 0 <= i < n :: all[i] == points[i];
    forall i, j | Pair(all, i, j)
      ensures Fall(all[i], all[j]) <= d'
    {
      if j == n {
        FallMonotone(all[i], peak, y);
      } else {
        assert Pair(points, i, j);
      }
    }
    if d' == d {
      var i, j :| Pair(points, i, j) && Fall(points[i], points[j]) == d;
      assert Pair(all, i, j) && Fall(all[i], all[j]) == d';
    } else {
      var top :| 0 <= top <= n && all[top] == peak;
      assert Pair(all, top, n) && Fall(all[top], all[n]) == d';
    }
  }

  /** The running comparison finds the largest fall over all pairs of points, and nothing else is that. */
  lemma {:induction false} DrawdownIsMax(points: seq<real>)
    requires points != [] && points[0] > 0.0 && NonNegative(points)
    ensures forall d :: IsMaxDrawdown(points, d) <==> d == Drawdown(points)
  {
    hide Fall, Highest, IsMaxDrawdown;
    var n := |points| - 1;
    if n == 0 {
      OnePoint(points);
    } else {
      DrawdownIsMax(points[..n]);
      DrawdownStep(points[..n], Drawdown(points[..n]), points[n]);
      assert points == points[..n] + [points[n]];
    }
    forall d | IsMaxDrawdown(points, d)
      ensures d == Drawdown(points)
    {
      DrawdownUnique(points, d, Drawdown(points));
    }
  }

  lemma OnePoint(points: seq<real>)
    requires |points| == 1 && points[0] > 0.0
    ensures IsMaxDrawdown(points, 0.0)
  {
    FallMonotone(points[0], points[0], points[0]);
    assert Pair(points, 0, 0) && Fall(points[0], points[0]) == 0.0;
  }

  lemma DrawdownUnique(points: seq<real>, d: real, e: real)
    requires IsMaxDrawdown(points, d) && IsMaxDrawdown(points, e)
    ensures d == e
  {
    hide Fall;
  }

  lemma DrawdownRange(points: seq<real>, d: real)
    requires NonNegative(points) && IsMaxDrawdown(points, d)
    ensures 0.0 <= d <= 100.0
    ensures d == 100.0 <==> exists i, j :: Pair(points, i, j) && points[j] == 0.0
  {
    hide Fall;
    var i, j :| Pair(points, i, j) && Fall(points[i], points[j]) == d;
    FallMonotone(points[i], points[i], points[j]);
    assert Pair(points, i, i);
    if k, l :| Pair(points, k, l) && points[l] == 0.0 {
      FallShare(points[k], points[l]);
      assert Fall(points[k], points[l]) <= d;
    }
  }

  /** With a fee of at most 100 percent the account never goes below zero. */
  lemma {:induction false} NeverBelowZero(
    candles: seq<Candle>, signal: seq<bool>, capital: real, feeRate: real, n: nat)
    requires n <= |candles| && Priced(candles, signal) && capital > 0.0 && feeRate <= 1.0
    ensures var s := After(candles, signal, capital, feeRate, n);
            s.equity >= 0.0
            && (s.position.Some? ==> s.position.value.equityAtEntry >= 0.0 && s.position.value.entryPrice > 0.0)
    ensures NonNegative(Marked(candles, signal, capital, feeRate, n))
  {
    if n == 0 {
    } else {
      NeverBelowZero(candles, signal, capital, feeRate, n - 1);
      hide MarkedEquity, Fee, BuildTrade;
      var before, s := After(candles, signal, capital, feeRate, n - 1), After(candles, signal, capital, feeRate, n);
      var close := candles[n - 1].close;
      FeeKeepsSign(before.equity, feeRate);
      if before.position.Some? {
        MarkedKeepsSign(before.position.value, close);
        FeeKeepsSign(MarkedEquity(before.position.value, close), feeRate);
      }
      if s.position.Some? {
        MarkedKeepsSign(s.position.value, close);
      }
    }
  }

  lemma FeeKeepsSign(equity: real, feeRate: real)
    requires equity >= 0.0 && feeRate <= 1.0
    ensures Fee(equity, feeRate) >= 0.0
  {
  }

  lemma MarkedKeepsSign(p: OpenPosition, close: real)
    requires p.entryPrice > 0.0 && p.equityAtEntry >= 0.0 && close >= 0.0
    ensures MarkedEquity(p, close) >= 0.0
  {
    MarkedIsScaled(p, close);
    var ratio := close / p.entryPrice;
    assert ratio >= 0.0;
  }

  /** The drawdown of a run with such a fee is the largest fall over all pairs from the starting capital on. */
  lemma SimulatedDrawdown(candles: seq<Candle>, signal: seq<bool>, capital: real, feeRate: real)
    requires Priced(candles, signal) && capital > 0.0 && feeRate <= 1.0
    ensures var points := [capital] + Marked(candles, signal, capital, feeRate, |candles|);
            && (forall d :: IsMaxDrawdown(points, d) <==> d == Drawdown(points))
            && 0.0 <= Drawdown(points) <= 100.0
  {
    hide Marked, After, Drawdown, IsMaxDrawdown;
    NeverBelowZero(candles, signal, capital, feeRate, |candles|);
    var points := [capital] + Marked(candles, signal, capital, feeRate, |candles|);
    DrawdownIsMax(points);
    DrawdownRange(points, Drawdown(points));
  }

  /** The series a run's drawdown is taken over. */
  function Points(candles: seq<Candle>, signal: seq<bool>, capital: real, feeRate: real): seq<real>
    requires Enterable(candles, signal)
  {
    [capital] + Marked(candles, signal, capital, feeRate, |candles|)
  }

  ghost predicate LargestOfAllPairs(feeRate: real) {
    forall candles, signal, capital | Priced(candles, signal) && capital > 0.0 ::
      IsMaxDrawdown(Points(candles, signal, capital, feeRate), Drawdown(Points(candles, signal, capital, feeRate)))
  }

  /** The drawdown is the largest fall over all pairs in every run exactly when the fee is at most 100 percent. */
  lemma SimulatedDrawdownExactly(feeRate: real)
    ensures LargestOfAllPairs(feeRate) <==> feeRate <= 1.0
  {
    hide Marked, Drawdown, IsMaxDrawdown;
    if feeRate <= 1.0 {
      forall candles, signal, capital | Priced(candles, signal) && capital > 0.0
        ensures IsMaxDrawdown(Points(candles, signal, capital, feeRate),
                              Drawdown(Points(candles, signal, capital, feeRate)))
      {
        SimulatedDrawdown(candles, signal, capital, feeRate);
      }
    } else {
      var a := feeRate - 1.0;
      var q := 0.5 / (a * a);
      assert a * a * q == 0.5;
      assert q > 0.0;
      SmallPeakFallsFurther(a, q);
    }
  }

  /** Closes of 1, `q`, 1 and 4, bought at the first and sold at the second, and bought again at the third. */
  function Rebound(q: real): seq<Candle> {
    [Candle(0, 1.0, 1.0, 1.0, 1.0, 0.0), Candle(1, q, q, q, q, 0.0),
     Candle(2, 1.0, 1.0, 1.0, 1.0, 0.0), Candle(3, 4.0, 4.0, 4.0, 4.0, 0.0)]
  }

  const IN_OUT_IN: seq<bool> := [true, false, true, true]

  /** A fee of more than 100 percent turns the account around at every deal. */
  lemma ReboundPoints(a: real, q: real)
    requires a > 0.0 && q > 0.0 && a * a * q == 0.5
    ensures Points(Rebound(q), IN_OUT_IN, 1.0, 1.0 + a) == [1.0, -a, 0.5, -a / 2.0, -2.0 * a]
  {
    var c, f := Rebound(q), 1.0 + a;
    hide MarkedEquity, Fee, BuildTrade, After, Marked;
    StartOfRun(c, IN_OUT_IN, 1.0, f);
    StepOfRun(c, IN_OUT_IN, 1.0, f, 0);
    StepOfRun(c, IN_OUT_IN, 1.0, f, 1);
    StepOfRun(c, IN_OUT_IN, 1.0, f, 2);
    StepOfRun(c, IN_OUT_IN, 1.0, f, 3);
    ReboundFees(a, q);
    var entry, again := OpenPosition(0, 1.0, -a), OpenPosition(2, 1.0, -a / 2.0);
    assert After(c, IN_OUT_IN, 1.0, f, 1).position == Some(entry);
    MarkedFromOne(entry, 1.0);
    MarkedFromOne(entry, q);
    var sold := -a * q;
    assert MarkedEquity(entry, q) == sold;
    assert ClosePosition(entry, q, f) == Fee(sold, f) == 0.5;
    assert After(c, IN_OUT_IN, 1.0, f, 2).equity == 0.5;
    assert After(c, IN_OUT_IN, 1.0, f, 3).position == Some(again);
    MarkedFromOne(again, 1.0);
    MarkedFromOne(again, 4.0);
    assert Marked(c, IN_OUT_IN, 1.0, f, 2) == [-a, 0.5];
    assert Marked(c, IN_OUT_IN, 1.0, f, 4) == [-a, 0.5, -a / 2.0, -2.0 * a];
  }

  lemma ReboundFees(a: real, q: real)
    requires a * a * q == 0.5
    ensures Fee(1.0, 1.0 + a) == -a && Fee(-a * q, 1.0 + a) == 0.5 && Fee(0.5, 1.0 + a) == -a / 2.0
  {
  }

  lemma MarkedFromOne(p: OpenPosition, close: real)
    requires p.entryPrice == 1.0
    ensures MarkedEquity(p, close) == p.equityAtEntry * close
  {
    MarkedIsScaled(p, close);
  }

  /** The loop compares with the first peak, and a fall from the second, smaller one is larger in percent. */
  lemma SmallPeakFallsFurther(a: real, q: real)
    requires a > 0.0 && q > 0.0 && a * a * q == 0.5
    ensures var points := Points(Rebound(q), IN_OUT_IN, 1.0, 1.0 + a);
            && Drawdown(points) <= 100.0 + 200.0 * a
            && Pair(points, 2, 4) && Fall(points[2], points[4]) == 100.0 + 400.0 * a
            && !IsMaxDrawdown(points, Drawdown(points))
  {
    ReboundPoints(a, q);
    hide Points, Drawdown;
    var points := Points(Rebound(q), IN_OUT_IN, 1.0, 1.0 + a);
    FromFirst(points, -2.0 * a);
    assert Pair(points, 2, 4);
  }

  /** With a fee of 200 percent the loop reports at most 300 where the account falls by 500. */
  lemma FeeOfTwoHundredPercent()
    ensures var points := Points(Rebound(0.5), IN_OUT_IN, 1.0, 2.0);
            Drawdown(points) <= 300.0 && Pair(points, 2, 4) && Fall(points[2], points[4]) == 500.0
  {
    hide Points, Drawdown, Fall;
    SmallPeakFallsFurther(1.0, 0.5);
  }

  /** Where no point exceeds the first, the drawdown is no larger than the fall from it to a lower bound. */
  lemma {:induction false} FromFirst(points: seq<real>, low: real)
    requires points != [] && points[0] > 0.0
    requires forall i | 0 <= i < |points| :: low <= points[i] <= points[0]
    ensures Drawdown(points) <= Fall(points[0], low)
  {
    var n := |points| - 1;
    FallFurther(points[0], points[n], low);
    if n == 0 {
      FallFurther(points[0], points[0], points[n]);
      FallShare(points[0], points[0]);
    } else {
      FromFirst(points[..n], low);
      hide Fall;
      assert Highest(points) == points[0];
    }
  }

  lemma FallFurther(x: real, y: real, low: real)
    requires x > 0.0 && low <= y
    ensures Fall(x, y) <= Fall(x, low)
  {
    FallShare(x, y);
    FallShare(x, low);
    var a, b := y / x, low / x;
    assert a * x == y && b * x == low;
    LargerFactor(1.0, y - low, a - b, x);
  }

  // ---------------------------------------------------------------- the summary

  /** NaN is neither a win nor a loss. */
  function PercentOfTrade(t: SimulatedTrade): real {
    t.pnlPercent.GetOr(0.0)
  }

  function Wins(trades: seq<SimulatedTrade>): (n: nat)
    ensures n <= |trades|
  {
    if trades == [] then 0
    else Wins(trades[..|trades| - 1]) + if PercentOfTrade(trades[|trades| - 1]) > 0.0 then 1 else 0
  }

  function GrossProfit(trades: seq<SimulatedTrade>): (sum: real)
    ensures sum >= 0.0
  {
    if trades == [] then 0.0 else GrossProfit(trades[..|trades| - 1]) + Max(PercentOfTrade(trades[|trades| - 1]), 0.0)
  }

  function GrossLoss(trades: seq<SimulatedTrade>): (sum: real)
    ensures sum >= 0.0
  {
    if trades == [] then 0.0 else GrossLoss(trades[..|trades| - 1]) + Max(-PercentOfTrade(trades[|trades| - 1]), 0.0)
  }

  function Summarise(trades: seq<SimulatedTrade>, equity: real, capital: real, maxDrawdown: real): Summary
    requires capital != 0.0
  {
    Summary(
      |trades|,
      if |trades| > 0 then Round2(PercentOf(Wins(trades) as real, |trades| as real)) else 0.0,
      Round2(PercentOf(equity - capital, capital)),
      if GrossLoss(trades) > 0.0 then Some(Round2(GrossProfit(trades) / GrossLoss(trades))) else None,
      Round2(maxDrawdown),
      Round2(equity))
  }

  // ---------------------------------------------------------------- the loop

  /** The rounded points the result carries. */
  function Curve(candles: seq<Candle>, points: seq<real>): seq<EquityPoint>
    requires |points| <= |candles|
  {
    seq(|points|, i requires 0 <= i < |points| => EquityPoint(candles[i].openTime, Round2(points[i])))
  }

  /** The result of a run, put together from its parts. */
  function Simulated(candles: seq<Candle>, signal: seq<bool>, startingCapital: real, feePercent: real)
    : SimulationResult
    requires Enterable(candles, signal) && startingCapital > 0.0
  {
    if candles == [] then SimulationResult([], [], Summary(0, 0.0, 0.0, None, 0.0, startingCapital))
    else
      var feeRate := feePercent / 100.0;
      var points := Marked(candles, signal, startingCapital, feeRate, |candles|);
      var end := Finished(candles, signal, startingCapital, feeRate);
      SimulationResult(end.trades, Curve(candles, points),
                       Summarise(end.trades, end.equity, startingCapital, Drawdown([startingCapital] + points)))
  }

  method Simulate(candles: seq<Candle>, signal: seq<bool>, startingCapital: real, feePercent: real)
    returns (result: SimulationResult)
    requires Enterable(candles, signal) && startingCapital > 0.0
    ensures result == Simulated(candles, signal, startingCapital, feePercent)
  {
    hide PercentOf, Fee, MarkedEquity, BuildTrade, Round2, Marked, After, Highest, Drawdown, Curve;
    StartOfRun(candles, signal, startingCapital, feePercent / 100.0);
    if candles == [] {
      return SimulationResult([], [], Summary(0, 0.0, 0.0, None, 0.0, startingCapital));
    }
    var feeRate := feePercent / 100.0;
    var trades: seq<SimulatedTrade> := [];
    var equityCurve: seq<EquityPoint> := [];
    var equity, peak, maxDrawdownPercent := startingCapital, startingCapital, 0.0;
    var position: Option<OpenPosition> := None;
    ghost var points: seq<real> := [];
    for i := 0 to |candles|
      invariant State(equity, position, trades) == After(candles, signal, startingCapital, feeRate, i)
      invariant points == Marked(candles, signal, startingCapital, feeRate, i)
      invariant equityCurve == Curve(candles, points)
      invariant peak == Highest([startingCapital] + points)
      invariant maxDrawdownPercent == Drawdown([startingCapital] + points)
    {
      var candle := candles[i];
      var wantLong := WantLong(signal, i);
      ghost var before := State(equity, position, trades);
      if wantLong && position.None? {
        equity := Fee(equity, feeRate);
        position := Some(OpenPosition(candle.openTime, candle.close, equity));
      } else if !wantLong && position.Some? {
        equity := ClosePosition(position.value, candle.close, feeRate);
        trades := trades + [BuildTrade(position.value, candle.openTime, candle.close, equity)];
        position := None;
      }
      StepOfRun(candles, signal, startingCapital, feeRate, i);
      assert State(equity, position, trades) == Step(before, candle, wantLong, feeRate);
      var markedEquity := if position.Some? then MarkedEquity(position.value, candle.close) else equity;
      equityCurve := equityCurve + [EquityPoint(candle.openTime, Round2(markedEquity))];
      NextPoint(candles, startingCapital, points, markedEquity);
      points := points + [markedEquity];
      if markedEquity > peak { peak := markedEquity; }
      var down := if peak > 0.0 then PercentOf(peak - markedEquity, peak) else 0.0;
      if down > maxDrawdownPercent { maxDrawdownPercent := down; }
    }
    if position.Some? {
      var last := candles[|candles| - 1];
      equity := ClosePosition(position.value, last.close, feeRate);
      trades := trades + [BuildTrade(position.value, last.openTime, last.close, equity)];
    }
    result := SimulationResult(trades, equityCurve, Summarise(trades, equity, startingCapital, maxDrawdownPercent));
  }

  lemma StartOfRun(candles: seq<Candle>, signal: seq<bool>, capital: real, feeRate: real)
    requires Enterable(candles, signal) && capital > 0.0
    ensures After(candles, signal, capital, feeRate, 0) == State(capital, None, [])
    ensures Marked(candles, signal, capital, feeRate, 0) == []
    ensures Curve(candles, []) == []
    ensures [capital] + [] == [capital] && Highest([capital]) == capital && Drawdown([capital]) == 0.0
  {
  }

  lemma StepOfRun(candles: seq<Candle>, signal: seq<bool>, capital: real, feeRate: real, i: nat)
    requires i < |candles| && Enterable(candles, signal)
    ensures var s := Step(After(candles, signal, capital, feeRate, i), candles[i], WantLong(signal, i), feeRate);
            && After(candles, signal, capital, feeRate, i + 1) == s
            && Marked(candles, signal, capital, feeRate, i + 1)
                 == Marked(candles, signal, capital, feeRate, i) + [s.Worth(candles[i].close)]
  {
  }

  lemma NextPoint(candles: seq<Candle>, capital: real, points: seq<real>, y: real)
    requires capital > 0.0 && |points| < |candles|
    ensures var before, after := [capital] + points, [capital] + (points + [y]);
            && Highest(after) == Max(Highest(before), y)
            && Drawdown(after) == Max(Drawdown(before), Fall(Max(Highest(before), y), y))
    ensures Curve(candles, points + [y])
              == Curve(candles, points) + [EquityPoint(candles[|points|].openTime, Round2(y))]
  {
    var before, after := [capital] + points, [capital] + (points + [y]);
    assert after == before + [y] && after[..|before|] == before;
    hide Fall, Round2;
  }
}
