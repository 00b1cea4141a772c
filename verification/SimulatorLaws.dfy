/** What a simulated run means: its trades, its growth, and what it may not look at. */
module SimulatorLaws {
  import opened Options
  import opened Indicators
  import opened Signals
  import opened Simulator

  // ---------------------------------------------------------------- trades are the runs of the signal

  /** The flags the simulator acts on, one per candle; a missing one is false. */
  function Flags(candles: seq<Candle>, signal: seq<bool>): seq<bool> {
    seq(|candles|, i requires 0 <= i < |candles| => i < |signal| && signal[i])
  }

  datatype Stretch = Stretch(start: nat, stop: nat)

  /** `r` is a maximal stretch of set flags among the first `n`. */
  predicate IsMaximalRun(flags: seq<bool>, n: nat, r: Stretch)
    requires n <= |flags|
  {
    && r.start < r.stop <= n
    && (forall k :: r.start <= k < r.stop ==> flags[k])
    && (r.start > 0 ==> !flags[r.start - 1])
    && (r.stop < n ==> !flags[r.stop])
  }

  /** The last of the first `n` flags is set, so that the last run is still going on. */
  predicate Going(flags: seq<bool>, n: nat)
    requires n <= |flags|
  {
    n > 0 && flags[n - 1]
  }

  /** All maximal runs among the first `n` flags, in order. */
  function Runs(flags: seq<bool>, n: nat): (runs: seq<Stretch>)
    requires n <= |flags|
    ensures Going(flags, n) ==> runs != []
  {
    if n == 0 then []
    else
      var before := Runs(flags, n - 1);
      if !flags[n - 1] then before
      else if Going(flags, n - 1) then before[..|before| - 1] + [Stretch(before[|before| - 1].start, n)]
      else before + [Stretch(n - 1, n)]
  }

  /** The listed runs are maximal and apart, and only the last may reach `n`, which it does while it is going on. */
  ghost predicate Fit(flags: seq<bool>, n: nat, runs: seq<Stretch>)
    requires n <= |flags|
  {
    && (forall k :: 0 <= k < |runs| ==> IsMaximalRun(flags, n, runs[k]))
    && (forall j, k :: 0 <= j < k < |runs| ==> runs[j].stop < runs[k].start)
    && (forall k :: 0 <= k < |runs| ==> (runs[k].stop == n <==> (k == |runs| - 1 && Going(flags, n))))
  }

  lemma {:induction false} RunsFit(flags: seq<bool>, n: nat)
    requires n <= |flags|
    ensures Fit(flags, n, Runs(flags, n))
  {
    if n == 0 {
    } else {
      RunsFit(flags, n - 1);
      var before := Runs(flags, n - 1);
      hide Runs;
      if flags[n - 1] {
        if Going(flags, n - 1) {
          ExtendFits(flags, n, before);
        } else {
          OpenFits(flags, n, before);
        }
      }
    }
  }

  lemma ExtendFits(flags: seq<bool>, n: nat, before: seq<Stretch>)
    requires 0 < n <= |flags| && flags[n - 1] && Going(flags, n - 1) && before != [] && Fit(flags, n - 1, before)
    ensures Fit(flags, n, before[..|before| - 1] + [Stretch(before[|before| - 1].start, n)])
  {
    var m := |before| - 1;
    assert IsMaximalRun(flags, n - 1, before[m]);
    assert IsMaximalRun(flags, n, Stretch(before[m].start, n));
  }

  lemma OpenFits(flags: seq<bool>, n: nat, before: seq<Stretch>)
    requires 0 < n <= |flags| && flags[n - 1] && !Going(flags, n - 1) && Fit(flags, n - 1, before)
    ensures Fit(flags, n, before + [Stretch(n - 1, n)])
  {
    assert IsMaximalRun(flags, n, Stretch(n - 1, n));
  }

  lemma RunsStop(flags: seq<bool>, n: nat)
    requires n <= |flags|
    ensures var runs := Runs(flags, n);
            forall k :: 0 <= k < |runs| ==> (runs[k].stop == n <==> (k == |runs| - 1 && Going(flags, n)))
  {
    RunsFit(flags, n);
  }

  /** A run that has ended stays in the list. */
  lemma RunKept(flags: seq<bool>, n: nat, r: Stretch)
    requires 0 < n <= |flags| && r.stop < n && IsMaximalRun(flags, n, r) && r in Runs(flags, n - 1)
    ensures r in Runs(flags, n)
  {
    RunsStop(flags, n - 1);
    hide IsMaximalRun;
    var before, now := Runs(flags, n - 1), Runs(flags, n);
    var k :| 0 <= k < |before| && before[k] == r;
    if flags[n - 1] && Going(flags, n - 1) {
      assert r.stop != n - 1 by { EndsFlagDown(flags, n, r); }
    }
    assert now[k] == r;
  }

  lemma EndsFlagDown(flags: seq<bool>, n: nat, r: Stretch)
    requires r.stop < n <= |flags| && IsMaximalRun(flags, n, r)
    ensures !flags[r.stop]
  {
  }

  lemma RunOpened(flags: seq<bool>, n: nat)
    requires 0 < n <= |flags| && flags[n - 1] && !Going(flags, n - 1)
    ensures Stretch(n - 1, n) in Runs(flags, n)
  {
    assert Runs(flags, n)[|Runs(flags, n - 1)|] == Stretch(n - 1, n);
  }

  /** A run that is going on grows with the next set flag. */
  lemma RunExtended(flags: seq<bool>, n: nat, start: nat)
    requires 0 < n <= |flags| && start < n - 1 && flags[n - 1] && Going(flags, n - 1)
    requires Stretch(start, n - 1) in Runs(flags, n - 1)
    ensures Stretch(start, n) in Runs(flags, n)
  {
    RunsStop(flags, n - 1);
    var before, now := Runs(flags, n - 1), Runs(flags, n);
    var k :| 0 <= k < |before| && before[k] == Stretch(start, n - 1);
    assert now[k] == Stretch(start, n);
  }

  lemma {:induction false} RunsAreAll(flags: seq<bool>, n: nat, r: Stretch)
    requires n <= |flags| && IsMaximalRun(flags, n, r)
    ensures r in Runs(flags, n)
  {
    hide Runs;
    if r.stop < n {
      RunsAreAll(flags, n - 1, r);
      RunKept(flags, n, r);
    } else if r.start == n - 1 {
      RunOpened(flags, n);
    } else {
      RunsAreAll(flags, n - 1, Stretch(r.start, n - 1));
      RunExtended(flags, n, r.start);
    }
  }

  /** The trade a run gives rise to: in at its first candle, out at the candle that ends it. */
  predicate Trades(candles: seq<Candle>, r: Stretch, exit: nat, t: SimulatedTrade)
    requires r.start < |candles| && exit < |candles|
  {
    && t.entryTime == candles[r.start].openTime && t.entryPrice == candles[r.start].close
    && t.exitTime == candles[exit].openTime && t.exitPrice == candles[exit].close
  }

  /** A state against the runs of the first `n` flags: a trade for each ended run, the position for the one going on. */
  ghost predicate Follows(candles: seq<Candle>, runs: seq<Stretch>, n: nat, s: State)
    requires n <= |candles|
  {
    && |runs| == |s.trades| + (if s.position.Some? then 1 else 0)
    && (forall k :: 0 <= k < |s.trades| ==>
          runs[k].start < runs[k].stop < n && Trades(candles, runs[k], runs[k].stop, s.trades[k]))
    && (s.position.Some? ==>
          && runs[|s.trades|].start < runs[|s.trades|].stop == n
          && s.position.value.entryTime == candles[runs[|s.trades|].start].openTime
          && s.position.value.entryPrice == candles[runs[|s.trades|].start].close)
  }

  lemma {:induction false} TradesFollowRuns(
    candles: seq<Candle>, signal: seq<bool>, capital: real, feeRate: real, n: nat)
    requires n <= |candles| && Enterable(candles, signal)
    ensures Follows(candles, Runs(Flags(candles, signal), n), n, After(candles, signal, capital, feeRate, n))
  {
    if n == 0 {
    } else {
      TradesFollowRuns(candles, signal, capital, feeRate, n - 1);
      var flags := Flags(candles, signal);
      var runs := Runs(flags, n - 1);
      var s := After(candles, signal, capital, feeRate, n - 1);
      var s' := After(candles, signal, capital, feeRate, n);
      assert flags[n - 1] == WantLong(signal, n - 1) && (Going(flags, n - 1) <==> s.position.Some?);
      assert s' == Step(s, candles[n - 1], flags[n - 1], feeRate);
      var runs' := Runs(flags, n);
      if !flags[n - 1] && s.position.Some? {
        LeaveFollows(candles, runs, n, s, feeRate);
      } else if !flags[n - 1] {
        assert runs' == runs;
      } else if s.position.Some? {
        assert runs' == runs[..|runs| - 1] + [Stretch(runs[|runs| - 1].start, n)];
      } else {
        assert runs' == runs + [Stretch(n - 1, n)];
      }
    }
  }

  lemma LeaveFollows(candles: seq<Candle>, runs: seq<Stretch>, n: nat, s: State, feeRate: real)
    requires 0 < n <= |candles| && s.Sound() && s.position.Some?
    requires Follows(candles, runs, n - 1, s)
    ensures Follows(candles, runs, n, Leave(s, candles[n - 1], feeRate))
  {
    var s' := Leave(s, candles[n - 1], feeRate);
    TradeFields();
    hide BuildTrade, ClosePosition;
    assert s'.trades == s.trades + [s'.trades[|s.trades|]];
  }

  lemma TradeFields()
    ensures forall p: OpenPosition, time, price, equity ::
              var t := BuildTrade(p, time, price, equity);
              && t.entryTime == p.entryTime && t.entryPrice == p.entryPrice
              && t.exitTime == time && t.exitPrice == price
  {
  }

  /** The trades are exactly the maximal runs of the signal, in order; a run still going on ends at the last candle. */
  lemma TradesAreRuns(candles: seq<Candle>, signal: seq<bool>, capital: real, feeRate: real)
    requires Enterable(candles, signal)
    ensures var flags := Flags(candles, signal);
            var runs := Runs(flags, |candles|);
            var trades := Finished(candles, signal, capital, feeRate).trades;
            && |trades| == |runs|
            && (forall r :: IsMaximalRun(flags, |candles|, r) <==> r in runs)
            && (forall j, k | 0 <= j < k < |runs| :: runs[j].stop < runs[k].start)
            && (forall k | 0 <= k < |runs| ::
                  runs[k].start < runs[k].stop <= |candles|
                  && var exit := if runs[k].stop < |candles| then runs[k].stop else |candles| - 1;
                     Trades(candles, runs[k], exit, trades[k]))
  {
    var flags := Flags(candles, signal);
    var n := |candles|;
    var runs := Runs(flags, n);
    RunsFit(flags, n);
    forall r | IsMaximalRun(flags, n, r)
      ensures r in runs
    {
      RunsAreAll(flags, n, r);
    }
    TradesFollowRuns(candles, signal, capital, feeRate, n);
    TradeFields();
    hide BuildTrade, ClosePosition, After, Runs;
  }

  // ---------------------------------------------------------------- growth

  /** What one trade multiplies the equity by: the price ratio, less the fee twice. */
  function Growth(t: SimulatedTrade, feeRate: real): real
    requires t.entryPrice != 0.0
  {
    (1.0 - feeRate) * (1.0 - feeRate) * (t.exitPrice / t.entryPrice)
  }

  predicate EntryPriced(trades: seq<SimulatedTrade>) {
    forall k :: 0 <= k < |trades| ==> trades[k].entryPrice != 0.0
  }

  function TotalGrowth(trades: seq<SimulatedTrade>, feeRate: real): real
    requires EntryPriced(trades)
  {
    if trades == [] then 1.0
    else TotalGrowth(trades[..|trades| - 1], feeRate) * Growth(trades[|trades| - 1], feeRate)
  }

  /** The open position's equity base is the equity before it less one fee. */
  predicate Grown(s: State, capital: real, feeRate: real) {
    && EntryPriced(s.trades)
    && (s.position.None? ==> s.equity == capital * TotalGrowth(s.trades, feeRate))
    && (s.position.Some? ==> s.position.value.equityAtEntry == Fee(capital * TotalGrowth(s.trades, feeRate), feeRate))
  }

  lemma GrowthOfClose(p: OpenPosition, t: SimulatedTrade, base: real, capital: real, growth: real, feeRate: real)
    requires p.entryPrice != 0.0 && t.entryPrice == p.entryPrice
    requires base == capital * growth && p.equityAtEntry == Fee(base, feeRate)
    ensures ClosePosition(p, t.exitPrice, feeRate) == capital * (growth * Growth(t, feeRate))
  {
    MarkedIsScaled(p, t.exitPrice);
    Rearrange(capital, growth, 1.0 - feeRate, t.exitPrice / t.entryPrice);
  }

  lemma Rearrange(c: real, g: real, f: real, r: real)
    ensures c * g * f * r * f == c * (g * (f * f * r))
  {
  }

  lemma LeaveGrows(s: State, candle: Candle, capital: real, feeRate: real)
    requires s.Sound() && s.position.Some?
    requires Grown(s, capital, feeRate)
    ensures Grown(Leave(s, candle, feeRate), capital, feeRate)
  {
    var p := s.position.value;
    var after := Leave(s, candle, feeRate);
    TradeFields();
    hide BuildTrade, ClosePosition, Growth, Fee;
    var t := after.trades[|s.trades|];
    assert after.trades == s.trades + [t] && after.trades[..|s.trades|] == s.trades;
    GrowthOfClose(p, t, capital * TotalGrowth(s.trades, feeRate), capital, TotalGrowth(s.trades, feeRate), feeRate);
  }

  lemma StartGrows(capital: real, feeRate: real)
    ensures Grown(State(capital, None, []), capital, feeRate)
  {
  }

  lemma StepGrows(s: State, candle: Candle, want: bool, capital: real, feeRate: real)
    requires s.Sound() && (want && s.position.None? ==> candle.close != 0.0) && Grown(s, capital, feeRate)
    ensures Grown(Step(s, candle, want, feeRate), capital, feeRate)
  {
    var r := Step(s, candle, want, feeRate);
    if want && s.position.None? {
      hide TotalGrowth, Fee;
      assert r.trades == s.trades && r.position.value.equityAtEntry == Fee(s.equity, feeRate);
    } else if !want && s.position.Some? {
      LeaveGrows(s, candle, capital, feeRate);
      hide Grown, Leave;
      assert r == Leave(s, candle, feeRate);
    } else {
      assert r == s;
    }
  }

  lemma {:induction false} AfterGrows(candles: seq<Candle>, signal: seq<bool>, capital: real, feeRate: real, n: nat)
    requires n <= |candles| && Enterable(candles, signal)
    ensures Grown(After(candles, signal, capital, feeRate, n), capital, feeRate)
  {
    hide Grown, Step;
    if n == 0 {
      StartGrows(capital, feeRate);
    } else {
      AfterGrows(candles, signal, capital, feeRate, n - 1);
      var before := After(candles, signal, capital, feeRate, n - 1);
      StepGrows(before, candles[n - 1], WantLong(signal, n - 1), capital, feeRate);
    }
  }

  lemma FinalGrown(candles: seq<Candle>, signal: seq<bool>, capital: real, feeRate: real)
    requires Enterable(candles, signal)
    ensures var end := Finished(candles, signal, capital, feeRate);
            end.position.None? && Grown(end, capital, feeRate)
  {
    hide After, Grown, ClosePosition, BuildTrade;
    AfterGrows(candles, signal, capital, feeRate, |candles|);
    var s := After(candles, signal, capital, feeRate, |candles|);
    if s.position.Some? {
      LeaveGrows(s, candles[|candles| - 1], capital, feeRate);
    }
  }

  /** Final equity before rounding: the capital times (1 - fee)^2 * exit / entry over all trades. */
  lemma FinalEquity(candles: seq<Candle>, signal: seq<bool>, capital: real, feeRate: real)
    requires Enterable(candles, signal)
    ensures var end := Finished(candles, signal, capital, feeRate);
            EntryPriced(end.trades) && end.equity == capital * TotalGrowth(end.trades, feeRate)
  {
    hide Finished, TotalGrowth;
    FinalGrown(candles, signal, capital, feeRate);
  }

  /** The return of a price change less one fee, in percent. */
  function NetPercent(feeRate: real, exitPrice: real, entryPrice: real): real
    requires entryPrice != 0.0
  {
    ((1.0 - feeRate) * (exitPrice / entryPrice) - 1.0) * 100.0
  }

  /** A trade's percentage counts the exit fee only: the entry fee is already out of its base. */
  lemma TradePercent(p: OpenPosition, exitTime: int, exitPrice: real, feeRate: real)
    requires p.entryPrice != 0.0 && p.equityAtEntry != 0.0
    ensures BuildTrade(p, exitTime, exitPrice, ClosePosition(p, exitPrice, feeRate)).pnlPercent
              == Some(Round2(NetPercent(feeRate, exitPrice, p.entryPrice)))
  {
    hide MarkedEquity, Round2;
    MarkedIsScaled(p, exitPrice);
    var ratio, keep := exitPrice / p.entryPrice, 1.0 - feeRate;
    var after := ClosePosition(p, exitPrice, feeRate);
    assert after == p.equityAtEntry * ratio * keep;
    Divided(after - p.equityAtEntry, p.equityAtEntry, keep * ratio - 1.0);
    SameRound(PercentOf(after - p.equityAtEntry, p.equityAtEntry), NetPercent(feeRate, exitPrice, p.entryPrice));
  }

  /** The percentage before rounding, measured from the account before the entry fee. */
  function PercentFrom(base: real, p: OpenPosition, exitPrice: real, feeRate: real): real
    requires p.entryPrice != 0.0 && base != 0.0
  {
    PercentOf(ClosePosition(p, exitPrice, feeRate) - base, base)
  }

  /** The reported percentage is net of both fees exactly when there is no fee. */
  lemma NetOfBothFeesExactly(p: OpenPosition, base: real, exitPrice: real, feeRate: real)
    requires p.entryPrice != 0.0 && exitPrice != 0.0 && base != 0.0
    requires p.equityAtEntry == Fee(base, feeRate) && p.equityAtEntry != 0.0
    ensures PercentFrom(p.equityAtEntry, p, exitPrice, feeRate) == PercentFrom(base, p, exitPrice, feeRate)
            <==> feeRate == 0.0
  {
    MarkedIsScaled(p, exitPrice);
    var ratio, keep := exitPrice / p.entryPrice, 1.0 - feeRate;
    var after := ClosePosition(p, exitPrice, feeRate);
    assert ratio != 0.0 && after == base * keep * ratio * keep;
    Divided(after - p.equityAtEntry, p.equityAtEntry, keep * ratio - 1.0);
    Divided(after - base, base, keep * keep * ratio - 1.0);
    assert keep != 0.0;
    NoFee(keep, ratio);
  }

  lemma NoFee(keep: real, ratio: real)
    requires keep != 0.0 && ratio != 0.0
    ensures keep * ratio == keep * keep * ratio <==> keep == 1.0
  {
    var net := keep * ratio;
    assert net != 0.0;
    if net == keep * net {
      assert (keep - 1.0) * net == 0.0;
    }
  }

  /** At a fee of 50 percent and an unchanged price three quarters of the account are gone, and -50 is reported. */
  lemma HalfReported()
    ensures var p := OpenPosition(0, 1.0, Fee(100.0, 0.5));
            && BuildTrade(p, 1, 1.0, ClosePosition(p, 1.0, 0.5)).pnlPercent == Some(-50.0)
            && PercentFrom(100.0, p, 1.0, 0.5) == -75.0
  {
  }

  lemma SameRound(x: real, y: real)
    requires x == y
    ensures Round2(x) == Round2(y)
  {
  }

  // ---------------------------------------------------------------- no look-ahead

  lemma {:induction false} AfterAgrees(
    a: seq<Candle>, b: seq<Candle>, s: seq<bool>, t: seq<bool>, capital: real, feeRate: real, n: nat, i: nat)
    requires Agree(a, b, n) && i <= n && Enterable(a, s) && Enterable(b, t)
    requires forall k :: 0 <= k < n ==> WantLong(s, k) == WantLong(t, k)
    ensures After(a, s, capital, feeRate, i) == After(b, t, capital, feeRate, i)
    ensures Marked(a, s, capital, feeRate, i) == Marked(b, t, capital, feeRate, i)
  {
    if i == 0 {
    } else {
      assert a[i - 1] == a[..n][i - 1] == b[..n][i - 1] == b[i - 1];
      AfterAgrees(a, b, s, t, capital, feeRate, n, i - 1);
    }
  }

  lemma {:induction false} MarkedPrefix(
    candles: seq<Candle>, signal: seq<bool>, capital: real, feeRate: real, n: nat, m: nat)
    requires n <= m <= |candles| && Enterable(candles, signal)
    ensures Marked(candles, signal, capital, feeRate, m)[..n] == Marked(candles, signal, capital, feeRate, n)
    decreases m
  {
    if n == m {
    } else {
      hide After;
      MarkedPrefix(candles, signal, capital, feeRate, n, m - 1);
      assert Marked(candles, signal, capital, feeRate, m)[..n]
          == Marked(candles, signal, capital, feeRate, m - 1)[..n];
    }
  }

  ghost predicate IsSignalOf(signal: seq<bool>, template: Template, candles: seq<Candle>)
  {
    |signal| == |candles| && forall i :: 0 <= i < |candles| ==> signal[i] == LongAt(template, candles, i)
  }

  /** Running a template on the first `n` candles gives the first `n` points of the equity curve on all of them. */
  lemma BacktestNoLookAhead(
    template: Template, candles: seq<Candle>, n: nat, full: seq<bool>, short: seq<bool>, capital: real, feeRate: real)
    requires LooksBackOnly(template) && n <= |candles| && Enterable(candles, full)
    requires IsSignalOf(full, template, candles) && IsSignalOf(short, template, candles[..n])
    ensures short == full[..n] && Enterable(candles[..n], short)
    ensures Curve(candles[..n], Marked(candles[..n], short, capital, feeRate, n))
              == Curve(candles, Marked(candles, full, capital, feeRate, |candles|))[..n]
  {
    forall i | 0 <= i < n
      ensures short[i] == full[i]
    {
      NoLookAhead(template, candles[..n], candles, n, i);
    }
    assert forall i: nat | i < n :: Entered(short, i) == Entered(full, i);
    hide LongAt, After, Round2;
    AfterAgrees(candles[..n], candles, short, full, capital, feeRate, n, n);
    MarkedPrefix(candles, full, capital, feeRate, n, |candles|);
  }

  // ---------------------------------------------------------------- the summary

  function TotalPercent(trades: seq<SimulatedTrade>): real {
    if trades == [] then 0.0 else TotalPercent(trades[..|trades| - 1]) + PercentOfTrade(trades[|trades| - 1])
  }

  /** The positions of the winning trades. */
  function Winners(trades: seq<SimulatedTrade>): set<nat> {
    set i: nat | i < |trades| && PercentOfTrade(trades[i]) > 0.0
  }

  /** Gross profit and gross loss split the total, and the win count is the number of winning trades. */
  lemma {:induction false} SummarySplits(trades: seq<SimulatedTrade>)
    ensures GrossProfit(trades) - GrossLoss(trades) == TotalPercent(trades)
    ensures Wins(trades) == |Winners(trades)|
  {
    if trades == [] {
    } else {
      var n := |trades| - 1;
      SummarySplits(trades[..n]);
      assert Winners(trades) == Winners(trades[..n]) + if PercentOfTrade(trades[n]) > 0.0 then {n} else {};
    }
  }

  // ---------------------------------------------------------------- what is reported, field by field

  function LastClose(candles: seq<Candle>): real
    requires candles != []
  {
    candles[|candles| - 1].close
  }

  /** The percentages of the trades that won, or of those that lost. */
  function Won(trades: seq<SimulatedTrade>): seq<real> {
    if trades == [] then []
    else
      var n := |trades| - 1;
      Won(trades[..n]) + if trades[n].pnlPercent.Some? && trades[n].pnlPercent.value > 0.0
                         then [trades[n].pnlPercent.value] else []
  }

  function Lost(trades: seq<SimulatedTrade>): seq<real> {
    if trades == [] then []
    else
      var n := |trades| - 1;
      Lost(trades[..n]) + if trades[n].pnlPercent.Some? && trades[n].pnlPercent.value < 0.0
                          then [trades[n].pnlPercent.value] else []
  }

  lemma {:induction false} GrossIsTotal(trades: seq<SimulatedTrade>)
    ensures GrossProfit(trades) == Total(Won(trades)) && GrossLoss(trades) == -Total(Lost(trades))
    ensures Wins(trades) == |Won(trades)|
    ensures Lost(trades) == [] <==> GrossLoss(trades) == 0.0
  {
    if trades == [] {
    } else {
      var n := |trades| - 1;
      GrossIsTotal(trades[..n]);
      hide Total;
      TotalNext(Won(trades[..n]), PercentOfTrade(trades[n]));
      TotalNext(Lost(trades[..n]), PercentOfTrade(trades[n]));
      assert Won(trades[..n]) + [] == Won(trades[..n]) && Lost(trades[..n]) + [] == Lost(trades[..n]);
    }
  }

  lemma ReportedIs(candles: seq<Candle>, signal: seq<bool>, capital: real, feePercent: real)
    requires Enterable(candles, signal) && capital > 0.0 && candles != []
    ensures var f := feePercent / 100.0;
            var end := Finished(candles, signal, capital, f);
            var points := Points(candles, signal, capital, f);
            var r := Simulated(candles, signal, capital, feePercent);
            && r.trades == end.trades
            && r.summary.totalTrades == |end.trades|
            && r.summary.winRate
                 == (if end.trades == [] then 0.0
                     else Round2(PercentOf(Wins(end.trades) as real, |end.trades| as real)))
            && r.summary.totalPnlPercent == Round2(PercentOf(end.equity - capital, capital))
            && r.summary.profitFactor
                 == (if GrossLoss(end.trades) > 0.0 then Some(Round2(GrossProfit(end.trades) / GrossLoss(end.trades)))
                     else None)
            && r.summary.maxDrawdownPercent == Round2(Drawdown(points))
            && r.summary.finalEquity == Round2(end.equity)
  {
    hide Finished, Marked, Curve, Round2, PercentOf, Drawdown, Wins, GrossLoss, GrossProfit;
  }

  /** The capital after all its growth. */
  function GrownCapital(capital: real, trades: seq<SimulatedTrade>, feeRate: real): real
    requires EntryPriced(trades)
  {
    capital * TotalGrowth(trades, feeRate)
  }

  lemma PercentGrown(capital: real, trades: seq<SimulatedTrade>, feeRate: real)
    requires capital > 0.0 && EntryPriced(trades)
    ensures PercentOf(GrownCapital(capital, trades, feeRate) - capital, capital)
              == 100.0 * (TotalGrowth(trades, feeRate) - 1.0)
  {
    Divided(GrownCapital(capital, trades, feeRate) - capital, capital, TotalGrowth(trades, feeRate) - 1.0);
  }

  lemma FinalCapital(candles: seq<Candle>, signal: seq<bool>, capital: real, feeRate: real)
    requires Enterable(candles, signal)
    ensures var end := Finished(candles, signal, capital, feeRate);
            EntryPriced(end.trades) && end.equity == GrownCapital(capital, end.trades, feeRate)
  {
    FinalEquity(candles, signal, capital, feeRate);
    hide Finished, TotalGrowth;
  }

  /** Final equity and total percentage: the capital and its growth by (1 - fee)^2 * exit / entry over all trades. */
  lemma GrowthFigures(candles: seq<Candle>, signal: seq<bool>, capital: real, feePercent: real)
    requires Enterable(candles, signal) && capital > 0.0 && candles != []
    ensures var f := feePercent / 100.0;
            var r := Simulated(candles, signal, capital, feePercent);
            && EntryPriced(r.trades)
            && r.summary.finalEquity == Round2(GrownCapital(capital, r.trades, f))
            && r.summary.totalPnlPercent == Round2(100.0 * (TotalGrowth(r.trades, f) - 1.0))
  {
    hide *;
    var f := feePercent / 100.0;
    ReportedIs(candles, signal, capital, feePercent);
    FinalCapital(candles, signal, capital, f);
    PercentGrown(capital, Finished(candles, signal, capital, f).trades, f);
  }

  /** As many trades are reported as the signal has maximal runs. */
  lemma CountFigure(candles: seq<Candle>, signal: seq<bool>, capital: real, feePercent: real)
    requires Enterable(candles, signal) && capital > 0.0 && candles != []
    ensures var r := Simulated(candles, signal, capital, feePercent);
            r.summary.totalTrades == |r.trades| == |Runs(Flags(candles, signal), |candles|)|
  {
    ReportedIs(candles, signal, capital, feePercent);
    TradesAreRuns(candles, signal, capital, feePercent / 100.0);
    hide Finished, Simulated, Runs, Flags, IsMaximalRun;
  }

  /** The win rate is the share of the trades with a profit, in percent. */
  lemma WinRateFigure(candles: seq<Candle>, signal: seq<bool>, capital: real, feePercent: real)
    requires Enterable(candles, signal) && capital > 0.0 && candles != []
    ensures var r := Simulated(candles, signal, capital, feePercent);
            r.summary.winRate == if r.trades == [] then 0.0
                                 else Round2(|Winners(r.trades)| as real / |r.trades| as real * 100.0)
  {
    ReportedIs(candles, signal, capital, feePercent);
    SummarySplits(Finished(candles, signal, capital, feePercent / 100.0).trades);
    hide Finished, Simulated, Round2, Wins, Winners;
  }

  lemma {:induction false} LossesAreNegative(trades: seq<SimulatedTrade>)
    ensures Total(Lost(trades)) == 0.0 <==> Lost(trades) == []
  {
    GrossIsTotal(trades);
  }

  /** The profit factor is the sum of the wins over that of the losses, and missing exactly when nothing was lost. */
  lemma ProfitFactorFigure(candles: seq<Candle>, signal: seq<bool>, capital: real, feePercent: real)
    requires Enterable(candles, signal) && capital > 0.0 && candles != []
    ensures var r := Simulated(candles, signal, capital, feePercent);
            var won, lost := Total(Won(r.trades)), Total(Lost(r.trades));
            && (lost == 0.0 <==> Lost(r.trades) == [])
            && r.summary.profitFactor == if lost == 0.0 then None else Some(Round2(won / -lost))
  {
    hide *;
    var trades := Finished(candles, signal, capital, feePercent / 100.0).trades;
    ReportedIs(candles, signal, capital, feePercent);
    GrossIsTotal(trades);
    LossesAreNegative(trades);
  }

  /** The reported drawdown is the largest fall over all pairs of points, for a fee of at most 100 percent. */
  lemma DrawdownFigure(candles: seq<Candle>, signal: seq<bool>, capital: real, feePercent: real, d: real)
    requires Priced(candles, signal) && capital > 0.0 && candles != [] && feePercent <= 100.0
    requires IsMaxDrawdown(Points(candles, signal, capital, feePercent / 100.0), d)
    ensures Simulated(candles, signal, capital, feePercent).summary.maxDrawdownPercent == Round2(d)
  {
    hide Simulated, Drawdown, IsMaxDrawdown, Marked, Round2, Priced;
    assert Enterable(candles, signal) by { PricedIsEnterable(candles, signal); }
    ReportedIs(candles, signal, capital, feePercent);
    SimulatedDrawdown(candles, signal, capital, feePercent / 100.0);
  }

  lemma PricedIsEnterable(candles: seq<Candle>, signal: seq<bool>)
    requires Priced(candles, signal)
    ensures Enterable(candles, signal)
  {
  }

  /** Without candles nothing has happened. */
  lemma NothingSimulated(signal: seq<bool>, capital: real, feePercent: real)
    requires capital > 0.0
    ensures var r := Simulated([], signal, capital, feePercent);
            && r.trades == [] && r.equityCurve == []
            && r.summary == Summary(0, 0.0, 0.0, None, 0.0, capital)
  {
  }

  /** What an open position is worth: the capital grown so far, less one fee and scaled by the price. */
  function OpenWorth(grown: real, feeRate: real, close: real, entryPrice: real): real
    requires entryPrice != 0.0
  {
    grown * (1.0 - feeRate) * (close / entryPrice)
  }

  lemma WorthOfGrown(s: State, capital: real, feeRate: real, close: real)
    requires s.Sound() && Grown(s, capital, feeRate)
    ensures s.Worth(close)
              == if s.position.None? then GrownCapital(capital, s.trades, feeRate)
                 else OpenWorth(GrownCapital(capital, s.trades, feeRate), feeRate, close, s.position.value.entryPrice)
  {
    hide TotalGrowth;
    if s.position.Some? {
      MarkedIsScaled(s.position.value, close);
    }
  }

  lemma LastMarked(candles: seq<Candle>, signal: seq<bool>, capital: real, feePercent: real)
    requires Enterable(candles, signal) && capital > 0.0 && candles != []
    ensures var s := After(candles, signal, capital, feePercent / 100.0, |candles|);
            var r := Simulated(candles, signal, capital, feePercent);
            && |r.equityCurve| == |candles|
            && r.equityCurve[|candles| - 1]
                 == EquityPoint(candles[|candles| - 1].openTime, Round2(s.Worth(LastClose(candles))))
  {
    hide After, Finished, Summarise, Drawdown, Round2;
  }

  lemma LastTrade(candles: seq<Candle>, signal: seq<bool>, capital: real, feePercent: real)
    requires Enterable(candles, signal) && capital > 0.0 && candles != []
    ensures var s := After(candles, signal, capital, feePercent / 100.0, |candles|);
            var trades := Simulated(candles, signal, capital, feePercent).trades;
            && (s.position.None? ==> trades == s.trades)
            && (s.position.Some? ==>
                  && |trades| == |s.trades| + 1 && trades[..|s.trades|] == s.trades
                  && trades[|s.trades|].entryPrice == s.position.value.entryPrice)
            && (s.position.Some? <==> Flags(candles, signal)[|candles| - 1])
  {
    TradeFields();
    hide After, Summarise, Curve, BuildTrade, ClosePosition;
  }

  /** The last point of the curve, from the trades of the run. */
  lemma LastPoint(candles: seq<Candle>, signal: seq<bool>, capital: real, feePercent: real)
    requires Enterable(candles, signal) && capital > 0.0 && candles != []
    ensures var f := feePercent / 100.0;
            var r := Simulated(candles, signal, capital, feePercent);
            var n, m := |candles|, |r.trades|;
            && EntryPriced(r.trades) && |r.equityCurve| == n
            && r.equityCurve[n - 1].time == candles[n - 1].openTime
            && (!Flags(candles, signal)[n - 1] ==>
                  r.equityCurve[n - 1].equity == Round2(GrownCapital(capital, r.trades, f)))
            && (Flags(candles, signal)[n - 1] ==>
                  && m > 0
                  && r.equityCurve[n - 1].equity
                       == Round2(OpenWorth(GrownCapital(capital, r.trades[..m - 1], f), f, LastClose(candles),
                                           r.trades[m - 1].entryPrice)))
  {
    var f, n := feePercent / 100.0, |candles|;
    AfterGrows(candles, signal, capital, f, n);
    FinalEquity(candles, signal, capital, f);
    LastMarked(candles, signal, capital, feePercent);
    LastTrade(candles, signal, capital, feePercent);
    assert Simulated(candles, signal, capital, feePercent).trades == Finished(candles, signal, capital, f).trades;
    hide Simulated, Finished, After, GrownCapital, OpenWorth, Round2, Flags, MarkedEquity;
    WorthOfGrown(After(candles, signal, capital, f, n), capital, f, LastClose(candles));
  }

  /** The curve of the first candles is the first part of the curve. */
  lemma CurvePrefix(candles: seq<Candle>, signal: seq<bool>, capital: real, feePercent: real, n: nat)
    requires Enterable(candles, signal) && capital > 0.0 && n <= |candles|
    ensures Enterable(candles[..n], signal)
    ensures Simulated(candles[..n], signal, capital, feePercent).equityCurve
              == Simulated(candles, signal, capital, feePercent).equityCurve[..n]
  {
    var f := feePercent / 100.0;
    assert Enterable(candles[..n], signal);
    hide After, Round2, Summarise, Drawdown, Finished, Enterable;
    AfterAgrees(candles[..n], candles, signal, signal, capital, f, n, n);
    MarkedPrefix(candles, signal, capital, f, n, |candles|);
  }

  /** A trade reports its percentage, if it can be measured at all. */
  predicate Measured(t: SimulatedTrade, feeRate: real) {
    && t.entryPrice != 0.0
    && (t.pnlPercent.Some? ==>
          t.pnlPercent.value == Round2(NetPercent(feeRate, t.exitPrice, t.entryPrice)))
  }

  lemma LeaveMeasures(s: State, candle: Candle, feeRate: real)
    requires s.Sound() && s.position.Some? && forall t | t in s.trades :: Measured(t, feeRate)
    ensures var r := Leave(s, candle, feeRate);
            && (forall t | t in r.trades :: Measured(t, feeRate))
            && (r.trades[|s.trades|].pnlPercent.None? <==> s.position.value.equityAtEntry == 0.0)
  {
    var p := s.position.value;
    var t := BuildTrade(p, candle.openTime, candle.close, ClosePosition(p, candle.close, feeRate));
    if p.equityAtEntry != 0.0 {
      TradePercent(p, candle.openTime, candle.close, feeRate);
    }
    assert t.pnlPercent.None? <==> p.equityAtEntry == 0.0;
    assert t.entryPrice == p.entryPrice && t.exitPrice == candle.close;
    hide Round2, PercentOf, ClosePosition, BuildTrade, NetPercent;
    assert Measured(t, feeRate);
    assert Leave(s, candle, feeRate).trades == s.trades + [t];
  }

  lemma {:induction false} AfterMeasures(
    candles: seq<Candle>, signal: seq<bool>, capital: real, feeRate: real, n: nat)
    requires n <= |candles| && Enterable(candles, signal)
    ensures forall t | t in After(candles, signal, capital, feeRate, n).trades :: Measured(t, feeRate)
  {
    if n == 0 {
    } else {
      hide Measured, Leave;
      AfterMeasures(candles, signal, capital, feeRate, n - 1);
      var s := After(candles, signal, capital, feeRate, n - 1);
      if !WantLong(signal, n - 1) && s.position.Some? {
        LeaveMeasures(s, candles[n - 1], feeRate);
      }
    }
  }

  /** The percentage of every trade of a run nets the exit fee and nothing else. */
  lemma TradesMeasured(candles: seq<Candle>, signal: seq<bool>, capital: real, feePercent: real)
    requires Enterable(candles, signal) && capital > 0.0
    ensures forall t | t in Simulated(candles, signal, capital, feePercent).trades :: Measured(t, feePercent / 100.0)
  {
    var f := feePercent / 100.0;
    AfterMeasures(candles, signal, capital, f, |candles|);
    var s := After(candles, signal, capital, f, |candles|);
    hide Measured, Leave, After, Summarise, Curve;
    if s.position.Some? {
      LeaveMeasures(s, candles[|candles| - 1], f);
    }
  }
}
