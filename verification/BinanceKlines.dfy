/**
 Fetching historical candles page by page. The exchange is a series of candles in time order; one
 request returns the first 1000 candles of an inclusive window. The paged walk is proved against
 one simple query over the whole series.
 */
module BinanceKlines {
  import opened Options
  import opened Signals

  const PAGE_LIMIT: nat := 1000
  const MAX_CANDLES: nat := 5000

  const INTERVAL_MS: map<string, int> := map[
    "1m" := 60000,
    "3m" := 3 * 60000,
    "5m" := 5 * 60000,
    "15m" := 15 * 60000,
    "30m" := 30 * 60000,
    "1h" := 60 * 60000,
    "2h" := 2 * 60 * 60000,
    "4h" := 4 * 60 * 60000,
    "6h" := 6 * 60 * 60000,
    "8h" := 8 * 60 * 60000,
    "12h" := 12 * 60 * 60000,
    "1d" := 24 * 60 * 60000,
    "3d" := 3 * 24 * 60 * 60000,
    "1w" := 7 * 24 * 60 * 60000]

  /** What every object inherits: the table of intervals answers to these names as well, with no number. */
  const INHERITED: set<string> := {
    "constructor", "toString", "toLocaleString", "valueOf", "hasOwnProperty", "isPrototypeOf",
    "propertyIsEnumerable", "__proto__", "__defineGetter__", "__defineSetter__", "__lookupGetter__",
    "__lookupSetter__"}

  /** A number of the program, which an arithmetic step on anything else turns into NaN. */
  datatype Number = NaN | Finite(value: int) {
    function Plus(other: Number): Number {
      if Finite? && other.Finite? then Finite(value + other.value) else NaN
    }

    /** Every comparison with NaN is false. */
    predicate Less(other: Number) {
      Finite? && other.Finite? && value < other.value
    }

    predicate AtMost(other: Number) {
      Finite? && other.Finite? && value <= other.value
    }
  }

  /** `None` is a name the table does not know, and NaN stands for an inherited one. */
  function IntervalOf(timeframe: string): (interval: Option<Number>)
    ensures interval.Some? && interval.value.Finite? ==> interval.value.value > 0
  {
    if timeframe in INTERVAL_MS then Some(Finite(INTERVAL_MS[timeframe]))
    else if timeframe in INHERITED then Some(NaN)
    else None
  }

  datatype FetchError = UnsupportedTimeframe | TooManyCandles
  datatype FetchResult = Ok(candles: seq<Candle>) | Err(error: FetchError)

  function DigitsValue(digits: string): int {
    if digits == "" then 0
    else 10 * DigitsValue(digits[..|digits| - 1]) + (digits[|digits| - 1] as int - '0' as int)
  }

  /** Milliseconds of a minute, an hour, a day and a week. */
  function UnitMs(unit: char): int {
    if unit == 'm' then 60000 else if unit == 'h' then 3600000 else if unit == 'd' then 86400000
    else if unit == 'w' then 604800000 else 0
  }

  /** Each timeframe lasts what its name says: a number of minutes, hours, days or weeks. */
  lemma NamesSayDurations(name: string)
    ensures name in INTERVAL_MS <==>
            name in {"1m", "3m", "5m", "15m", "30m", "1h", "2h", "4h", "6h", "8h", "12h", "1d", "3d", "1w"}
    ensures name in INTERVAL_MS ==>
              |name| >= 2 && INTERVAL_MS[name] == DigitsValue(name[..|name| - 1]) * UnitMs(name[|name| - 1])
  {
    SmallNumbers();
    hide DigitsValue;
    assert "1m"[..1] == "1" && "3m"[..1] == "3" && "5m"[..1] == "5";
    assert "15m"[..2] == "15" && "30m"[..2] == "30" && "1h"[..1] == "1";
    assert "2h"[..1] == "2" && "4h"[..1] == "4" && "6h"[..1] == "6";
    assert "8h"[..1] == "8" && "12h"[..2] == "12" && "1d"[..1] == "1";
    assert "3d"[..1] == "3" && "1w"[..1] == "1";
  }

  lemma SmallNumbers()
    ensures DigitsValue("1") == 1 && DigitsValue("2") == 2 && DigitsValue("3") == 3 && DigitsValue("4") == 4
    ensures DigitsValue("5") == 5 && DigitsValue("6") == 6 && DigitsValue("8") == 8
    ensures DigitsValue("12") == 12 && DigitsValue("15") == 15 && DigitsValue("30") == 30
  {
    assert forall c: char :: DigitsValue([c]) == c as int - '0' as int by {
      forall c: char
        ensures DigitsValue([c]) == c as int - '0' as int
      {
        assert [c][..0] == "";
      }
    }
    assert "12"[..1] == "1" && "15"[..1] == "1" && "30"[..1] == "3";
  }

  /** A page has the first thousand candles, or all if there are fewer. */
  lemma PageOfThousand(candles: seq<Candle>)
    ensures var page := FirstPage(candles);
            |page| == (if |candles| < 1000 then |candles| else 1000) && page == candles[..|page|]
  {
  }

  // ---------------------------------------------------------------- the exchange

  /** Candles in time order, at least one interval apart. */
  ghost predicate Spaced(series: seq<Candle>, interval: int) {
    interval > 0 && forall i, j :: 0 <= i < j < |series| ==> series[i].openTime + interval <= series[j].openTime
  }

  /** The simple query: all candles with `lo <= openTime < hi`, in order. */
  function Between(series: seq<Candle>, lo: int, hi: int): seq<Candle> {
    if series == [] then []
    else
      var n := |series| - 1;
      Between(series[..n], lo, hi) + if lo <= series[n].openTime < hi then [series[n]] else []
  }

  function FirstPage(candles: seq<Candle>): seq<Candle> {
    if |candles| <= PAGE_LIMIT then candles else candles[..PAGE_LIMIT]
  }

  /** `page` answers every request as the exchange promises; both window ends are inclusive. */
  ghost predicate Serves(page: (int, int) -> seq<Candle>, series: seq<Candle>) {
    forall start, end :: page(start, end) == FirstPage(Between(series, start, end + 1))
  }

  // ---------------------------------------------------------------- facts about the simple query

  lemma {:induction false} BetweenMembers(series: seq<Candle>, lo: int, hi: int)
    ensures forall c :: c in Between(series, lo, hi) <==> c in series && lo <= c.openTime < hi
  {
    if series == [] {
    } else {
      var n := |series| - 1;
      BetweenMembers(series[..n], lo, hi);
      assert series == series[..n] + [series[n]];
    }
  }

  lemma EarlierThanLast(series: seq<Candle>, lo: int, hi: int, interval: int)
    requires Spaced(series, interval) && series != []
    ensures var before := Between(series[..|series| - 1], lo, hi);
            forall i :: 0 <= i < |before| ==> before[i].openTime + interval <= series[|series| - 1].openTime
  {
    var n := |series| - 1;
    var before := Between(series[..n], lo, hi);
    BetweenMembers(series[..n], lo, hi);
    hide Between;
    forall i | 0 <= i < |before|
      ensures before[i].openTime + interval <= series[n].openTime
    {
      assert before[i] in before;
      var j :| 0 <= j < n && series[..n][j] == before[i];
    }
  }

  lemma {:induction false} BetweenSpaced(series: seq<Candle>, lo: int, hi: int, interval: int)
    requires Spaced(series, interval)
    ensures Spaced(Between(series, lo, hi), interval)
  {
    if series == [] {
    } else {
      EarlierThanLast(series, lo, hi, interval);
      BetweenSpaced(series[..|series| - 1], lo, hi, interval);
      var before, now := Between(series[..|series| - 1], lo, hi), Between(series, lo, hi);
      assert now == before || now == before + [series[|series| - 1]];
      hide Between;
      assert forall i | 0 <= i < |before| :: now[i] == before[i];
    }
  }

  lemma BetweenIs(series: seq<Candle>, lo: int, hi: int, interval: int)
    requires Spaced(series, interval)
    ensures forall c :: c in Between(series, lo, hi) <==> c in series && lo <= c.openTime < hi
    ensures Spaced(Between(series, lo, hi), interval)
  {
    BetweenMembers(series, lo, hi);
    BetweenSpaced(series, lo, hi, interval);
  }

  lemma {:induction false} BetweenEmpty(series: seq<Candle>, lo: int, hi: int)
    requires forall i :: 0 <= i < |series| ==> !(lo <= series[i].openTime < hi)
    ensures Between(series, lo, hi) == []
  {
    if series == [] {
    } else {
      BetweenEmpty(series[..|series| - 1], lo, hi);
    }
  }

  lemma BetweenLast(series: seq<Candle>, lo: int, hi: int)
    requires series != []
    ensures var n := |series| - 1;
            Between(series, lo, hi)
              == Between(series[..n], lo, hi) + if lo <= series[n].openTime < hi then [series[n]] else []
  {
  }

  lemma {:induction false} BetweenSplit(series: seq<Candle>, lo: int, mid: int, hi: int, interval: int)
    requires Spaced(series, interval) && lo <= mid <= hi
    ensures Between(series, lo, hi) == Between(series, lo, mid) + Between(series, mid, hi)
  {
    if series == [] {
    } else {
      var n := |series| - 1;
      BetweenSplit(series[..n], lo, mid, hi, interval);
      BetweenLast(series, lo, mid);
      BetweenLast(series, mid, hi);
      BetweenLast(series, lo, hi);
      if series[n].openTime < mid {
        BetweenEmpty(series[..n], mid, hi);
      }
      hide Between, Spaced;
      Regroup(Between(series[..n], lo, mid), Between(series[..n], mid, hi), series[n]);
    }
  }

  lemma Regroup(a: seq<Candle>, b: seq<Candle>, c: Candle)
    ensures (a + b) + [c] == a + (b + [c])
    ensures b == [] ==> (a + b) + [c] == (a + [c]) + (b + [])
    ensures (a + b) + [] == (a + []) + (b + [])
  {
  }

  lemma InRange(series: seq<Candle>, lo: int, hi: int, i: nat, interval: int)
    requires Spaced(series, interval) && i < |Between(series, lo, hi)|
    ensures lo <= Between(series, lo, hi)[i].openTime < hi
    ensures Between(series, lo, hi)[i] in series
  {
    BetweenIs(series, lo, hi, interval);
    assert Between(series, lo, hi)[i] in Between(series, lo, hi);
  }

  /** Cutting a query's results after the `k`-th is cutting its range just after that candle. */
  lemma BetweenPrefix(series: seq<Candle>, lo: int, hi: int, k: nat, interval: int)
    requires Spaced(series, interval) && 0 < k <= |Between(series, lo, hi)|
    ensures var all := Between(series, lo, hi);
            && lo <= all[k - 1].openTime < hi
            && all[..k] == Between(series, lo, all[k - 1].openTime + 1)
  {
    hide Between;
    var all := Between(series, lo, hi);
    InRange(series, lo, hi, k - 1, interval);
    var mid := all[k - 1].openTime + 1;
    var front, back := Between(series, lo, mid), Between(series, mid, hi);
    BetweenSplit(series, lo, mid, hi, interval);
    if |front| < k {
      InRange(series, mid, hi, k - 1 - |front|, interval);
    } else if |front| > k {
      BetweenIs(series, lo, mid, interval);
      InRange(series, lo, mid, k, interval);
    }
  }

  /** No candle opens within one interval after another. */
  lemma NoneWithinInterval(series: seq<Candle>, c: Candle, interval: int)
    requires Spaced(series, interval) && c in series
    ensures Between(series, c.openTime + 1, c.openTime + interval) == []
  {
    forall i | 0 <= i < |series|
      ensures !(c.openTime + 1 <= series[i].openTime < c.openTime + interval)
    {
      var j :| 0 <= j < |series| && series[j] == c;
    }
    BetweenEmpty(series, c.openTime + 1, c.openTime + interval);
  }

  // ---------------------------------------------------------------- the answer, exactly

  /** The candles in range fill whole pages, and the last page ends one interval before `to` (or nearer). */
  predicate EndsOnPage(inside: seq<Candle>, to: int, interval: int) {
    inside != [] && |inside| % PAGE_LIMIT == 0 && inside[|inside| - 1].openTime + interval >= to
  }

  /** The range from `from` up to `to`, and the candle at `to` as well unless the walk stops just before it. */
  function Expected(series: seq<Candle>, from: int, to: int, interval: int): seq<Candle> {
    if from >= to then []
    else if EndsOnPage(Between(series, from, to), to, interval) then Between(series, from, to)
    else Between(series, from, to + 1)
  }

  /** What the walk has collected when it stands at `cursor`: whole pages, up to one interval before the cursor. */
  ghost predicate Walked(series: seq<Candle>, from: int, cursor: int, candles: seq<Candle>, interval: int) {
    && from <= cursor
    && candles == Between(series, from, cursor)
    && |candles| % PAGE_LIMIT == 0
    && (candles == [] ==> cursor == from)
    && (candles != [] ==> candles[|candles| - 1].openTime + interval == cursor)
  }

  /** A full page moves the walk on. */
  lemma WalkOn(series: seq<Candle>, from: int, cursor: int, candles: seq<Candle>, end: int, interval: int)
    requires Spaced(series, interval) && Walked(series, from, cursor, candles, interval) && cursor < end
    requires |Between(series, cursor, end + 1)| >= PAGE_LIMIT
    ensures var batch := Between(series, cursor, end + 1)[..PAGE_LIMIT];
            var last := batch[PAGE_LIMIT - 1].openTime;
            && cursor <= last <= end
            && Walked(series, from, last + interval, candles + batch, interval)
  {
    hide Between, Spaced;
    var rest := Between(series, cursor, end + 1);
    var last := rest[PAGE_LIMIT - 1];
    var batch := rest[..PAGE_LIMIT];
    BetweenPrefix(series, cursor, end + 1, PAGE_LIMIT, interval);
    InRange(series, cursor, end + 1, PAGE_LIMIT - 1, interval);
    assert interval > 0 by { SpacedInterval(series, interval); }
    NoneWithinInterval(series, last, interval);
    BetweenSplit(series, from, cursor, last.openTime + 1, interval);
    BetweenSplit(series, from, last.openTime + 1, last.openTime + interval, interval);
    assert candles + batch == Between(series, from, last.openTime + interval);
    assert (candles + batch)[|candles + batch| - 1] == last;
  }

  lemma SpacedInterval(series: seq<Candle>, interval: int)
    requires Spaced(series, interval)
    ensures interval > 0
  {
  }

  /** A short page (or an empty one) ends the walk with everything up to and including `to`. */
  lemma WalkEndsShort(series: seq<Candle>, from: int, cursor: int, candles: seq<Candle>, end: int, interval: int)
    requires Spaced(series, interval) && Walked(series, from, cursor, candles, interval) && cursor < end
    requires |Between(series, cursor, end + 1)| < PAGE_LIMIT
    ensures candles + Between(series, cursor, end + 1) == Expected(series, from, end, interval)
  {
    var inside, full := Between(series, from, end), Between(series, from, end + 1);
    var rest := Between(series, cursor, end);
    BetweenSplit(series, from, cursor, end + 1, interval);
    BetweenSplit(series, from, cursor, end, interval);
    BetweenSplit(series, cursor, end, end + 1, interval);
    hide Between;
    NotOnPage(candles, rest, cursor, end, interval);
  }

  lemma NotOnPage(candles: seq<Candle>, rest: seq<Candle>, cursor: int, end: int, interval: int)
    requires |candles| % PAGE_LIMIT == 0 && |rest| < PAGE_LIMIT && cursor < end
    requires candles != [] ==> candles[|candles| - 1].openTime + interval == cursor
    ensures !EndsOnPage(candles + rest, end, interval)
  {
    if rest == [] {
      assert candles + rest == candles;
    }
  }

  /** A walk that reaches `to` on a page boundary has the range, and the candle at `to` only if that page held it. */
  lemma WalkEndsFull(series: seq<Candle>, from: int, cursor: int, candles: seq<Candle>, end: int, interval: int)
    requires Spaced(series, interval) && Walked(series, from, cursor, candles, interval) && from < end <= cursor
    requires candles != [] ==> candles[|candles| - 1].openTime <= end
    ensures candles == Expected(series, from, end, interval)
  {
    hide Between, Spaced;
    var last := candles[|candles| - 1];
    BetweenSplit(series, from, end, cursor, interval);
    if last.openTime < end {
      NoneAfterLast(series, from, end, cursor, interval);
    } else {
      SpacedInterval(series, interval);
      InRange(series, from, cursor, |candles| - 1, interval);
      NoneWithinInterval(series, last, interval);
      BetweenSplit(series, from, end + 1, cursor, interval);
      BetweenSplit(series, from, end, end + 1, interval);
      AtMostOne(series, end, interval);
      assert candles == Between(series, from, end + 1);
      InsideShorter(series, from, end, interval);
    }
  }

  lemma NoneAfterLast(series: seq<Candle>, from: int, end: int, cursor: int, interval: int)
    requires Spaced(series, interval) && from <= end <= cursor
    requires var candles := Between(series, from, cursor);
             candles != [] && candles[|candles| - 1].openTime < end
    ensures Between(series, end, cursor) == []
    ensures Between(series, from, end) == Between(series, from, cursor)
  {
    hide Between, Spaced;
    var tail := Between(series, end, cursor);
    BetweenSplit(series, from, end, cursor, interval);
    if tail != [] {
      InRange(series, end, cursor, |tail| - 1, interval);
    }
  }

  /** With the last of the candles at `end`, the ones before it are one fewer. */
  lemma InsideShorter(series: seq<Candle>, from: int, end: int, interval: int)
    requires Spaced(series, interval) && from < end
    requires var full := Between(series, from, end + 1); full != [] && full[|full| - 1].openTime == end
    ensures |Between(series, from, end + 1)| == |Between(series, from, end)| + 1
  {
    hide Between, Spaced;
    BetweenSplit(series, from, end, end + 1, interval);
    AtMostOne(series, end, interval);
    var inside := Between(series, from, end);
    if Between(series, end, end + 1) == [] {
      InRange(series, from, end, |inside| - 1, interval);
    }
  }

  lemma AtMostOne(series: seq<Candle>, at: int, interval: int)
    requires Spaced(series, interval)
    ensures |Between(series, at, at + 1)| <= 1
  {
    hide Between;
    BetweenIs(series, at, at + 1, interval);
    var found := Between(series, at, at + 1);
    if |found| > 1 {
      InRange(series, at, at + 1, 0, interval);
      InRange(series, at, at + 1, 1, interval);
    }
  }

  // ---------------------------------------------------------------- the walk

  /** `Math.ceil(a / b)` for a positive `b`. */
  function CeilDiv(a: int, b: int): int
    requires b > 0
  {
    -((-a) / b)
  }

  function EstimatedCandles(span: int, interval: Number): Number
    requires interval.Finite? ==> interval.value > 0
  {
    if interval.NaN? then NaN else Finite(CeilDiv(span, interval.value))
  }

  /** The candles of one request, when there is anything to request. */
  function SinglePage(page: (int, int) -> seq<Candle>, from: int, to: int): seq<Candle> {
    if from < to then page(from, to) else []
  }

  method FetchCandles(
    page: (int, int) -> seq<Candle>, timeframe: string, from: int, to: int, ghost series: seq<Candle>)
    returns (result: FetchResult)
    ensures result == Err(UnsupportedTimeframe) <==> timeframe !in INTERVAL_MS && timeframe !in INHERITED
    ensures result == Err(TooManyCandles) <==>
              timeframe in INTERVAL_MS && to - from > 5000 * INTERVAL_MS[timeframe]
    ensures timeframe in INTERVAL_MS && result.Ok? && Serves(page, series) && Spaced(series, INTERVAL_MS[timeframe]) ==>
              result.candles == Expected(series, from, to, INTERVAL_MS[timeframe])
    ensures timeframe in INHERITED ==> result == Ok(SinglePage(page, from, to))
  {
    LookUp(timeframe);
    hide Between, Spaced, Walked, Expected, Serves, INTERVAL_MS, INHERITED, IntervalOf;
    var interval := IntervalOf(timeframe);
    if interval.None? {
      return Err(UnsupportedTimeframe);
    }
    var intervalMs := interval.value;
    var estimatedCandles := EstimatedCandles(to - from, intervalMs);
    if intervalMs.Finite? {
      CeilBound(to - from, intervalMs.value, MAX_CANDLES);
    }
    if Finite(MAX_CANDLES).Less(estimatedCandles) {
      return Err(TooManyCandles);
    }
    var candles: seq<Candle> := [];
    var cursor, end := Finite(from), Finite(to);
    ghost var ok := intervalMs.Finite? && Serves(page, series) && Spaced(series, intervalMs.value);
    StartsWalked(series, from, if intervalMs.Finite? then intervalMs.value else 0);
    while cursor.Less(end)
      invariant intervalMs.Finite? ==> cursor.Finite?
      invariant ok ==> Walked(series, from, cursor.value, candles, intervalMs.value)
      invariant ok && candles != [] ==> from < to && candles[|candles| - 1].openTime <= to
      invariant intervalMs.NaN? && cursor.Finite? ==> candles == [] && cursor == Finite(from)
      invariant intervalMs.NaN? && cursor.NaN? ==> candles == SinglePage(page, from, to)
      decreases if cursor.NaN? then 0 else if cursor.value < to then to - cursor.value + 1 else 1
    {
      var batch := page(cursor.value, to);
      if ok {
        PageServed(page, series, cursor.value, to);
        PageStep(series, from, cursor.value, candles, to, intervalMs.value, batch);
      }
      if |batch| == 0 {
        assert candles + batch == candles;
        return Ok(candles);
      }
      candles := candles + batch;
      var nextCursor := Finite(batch[|batch| - 1].openTime).Plus(intervalMs);
      if nextCursor.AtMost(cursor) {
        return Ok(candles);
      }
      cursor := nextCursor;
      if |batch| < PAGE_LIMIT {
        return Ok(candles);
      }
    }
    if ok {
      if from < to {
        WalkEndsFull(series, from, cursor.value, candles, to, intervalMs.value);
      } else {
        NothingAsked(series, from, to, intervalMs.value);
      }
    }
    return Ok(candles);
  }

  lemma NamesApart()
    ensures INTERVAL_MS.Keys !! INHERITED
  {
  }

  lemma LookUp(timeframe: string)
    ensures timeframe in INTERVAL_MS ==>
              timeframe !in INHERITED && IntervalOf(timeframe) == Some(Finite(INTERVAL_MS[timeframe]))
    ensures timeframe in INHERITED ==> IntervalOf(timeframe) == Some(NaN)
    ensures timeframe !in INTERVAL_MS && timeframe !in INHERITED ==> IntervalOf(timeframe) == None
  {
    NamesApart();
  }

  /** The twelve names of what every object has are let through, whatever the range. */
  lemma InheritedAreFetched(name: string, from: int, to: int)
    requires name in {"constructor", "toString", "toLocaleString", "valueOf", "hasOwnProperty", "isPrototypeOf",
                      "propertyIsEnumerable", "__proto__", "__defineGetter__", "__defineSetter__", "__lookupGetter__",
                      "__lookupSetter__"}
    ensures name !in INTERVAL_MS && name in INHERITED && IntervalOf(name) == Some(NaN)
    ensures !Finite(MAX_CANDLES).Less(EstimatedCandles(to - from, IntervalOf(name).value))
  {
    NamesApart();
    LookUp(name);
    hide IntervalOf, INTERVAL_MS;
  }

  lemma PageServed(page: (int, int) -> seq<Candle>, series: seq<Candle>, start: int, end: int)
    requires Serves(page, series)
    ensures page(start, end) == FirstPage(Between(series, start, end + 1))
  {
  }

  /** One page either ends the walk or continues it, and never steps back. */
  lemma PageStep(
    series: seq<Candle>, from: int, cursor: int, candles: seq<Candle>, end: int, interval: int, batch: seq<Candle>)
    requires Spaced(series, interval) && Walked(series, from, cursor, candles, interval) && cursor < end
    requires batch == FirstPage(Between(series, cursor, end + 1))
    ensures |batch| < PAGE_LIMIT ==> candles + batch == Expected(series, from, end, interval)
    ensures batch != [] ==> cursor < batch[|batch| - 1].openTime + interval && batch[|batch| - 1].openTime <= end
    ensures |batch| >= PAGE_LIMIT ==>
              Walked(series, from, batch[|batch| - 1].openTime + interval, candles + batch, interval)
  {
    SpacedInterval(series, interval);
    hide Between, Spaced, Walked, Expected;
    if |Between(series, cursor, end + 1)| >= PAGE_LIMIT {
      WalkOn(series, from, cursor, candles, end, interval);
    } else {
      WalkEndsShort(series, from, cursor, candles, end, interval);
      if batch != [] {
        InRange(series, cursor, end + 1, |batch| - 1, interval);
      }
    }
  }

  lemma StartsWalked(series: seq<Candle>, from: int, interval: int)
    ensures Walked(series, from, from, [], interval)
  {
    BetweenEmpty(series, from, from);
  }

  lemma NothingAsked(series: seq<Candle>, from: int, to: int, interval: int)
    requires from >= to
    ensures Expected(series, from, to, interval) == []
  {
  }

  lemma CeilBound(a: int, b: int, most: nat)
    requires b > 0
    ensures CeilDiv(a, b) > most <==> a > most * b
  {
    var q, r := (-a) / b, (-a) % b;
    assert -a == b * q + r;
    if -q > most {
      Scaled(b, -q - most - 1);
      assert b * (-q - most - 1) == -(b * q) - most * b - b;
    } else {
      Scaled(b, most + q);
      assert b * (most + q) == most * b + b * q;
    }
  }

  lemma Scaled(b: int, k: int)
    requires b >= 0 && k >= 0
    ensures b * k >= 0
  {
  }

  // ---------------------------------------------------------------- what the answer contains

  lemma {:induction false} SpanBound(candles: seq<Candle>, interval: int)
    requires Spaced(candles, interval) && candles != []
    ensures candles[0].openTime + (|candles| - 1) * interval <= candles[|candles| - 1].openTime
  {
    if |candles| == 1 {
    } else {
      SpanBound(candles[..|candles| - 1], interval);
    }
  }

  /** Never more than 5001 candles. */
  lemma AnswerBound(series: seq<Candle>, from: int, to: int, interval: int)
    requires Spaced(series, interval) && from < to <= from + 5000 * interval
    ensures |Expected(series, from, to, interval)| <= 5001
  {
    hide Between, Spaced, EndsOnPage;
    SpacedInterval(series, interval);
    CountBetween(series, from, to, interval, MAX_CANDLES);
    CountBetween(series, from, to + 1, interval, MAX_CANDLES);
  }

  lemma CountBetween(series: seq<Candle>, lo: int, hi: int, interval: int, most: nat)
    requires Spaced(series, interval) && hi - 1 - lo <= most * interval
    ensures |Between(series, lo, hi)| <= most + 1
  {
    hide Between;
    var found := Between(series, lo, hi);
    if found != [] {
      InRange(series, lo, hi, 0, interval);
      InRange(series, lo, hi, |found| - 1, interval);
      assert Spaced(found, interval) by { BetweenIs(series, lo, hi, interval); }
      hide Spaced;
      SpanBound(found, interval);
      Few(|found| - 1, interval, most);
    }
  }

  lemma Few(n: int, interval: int, most: int)
    requires interval > 0 && n * interval <= most * interval
    ensures n <= most
  {
    if n > most {
      Scaled(interval, n - most - 1);
    }
  }

  /**
   Every candle from `from` up to `to` once and in time order; beyond them at most the one at `to`,
   which is missing exactly when the pages fill up one interval before it.
   */
  lemma AnswerContains(series: seq<Candle>, from: int, to: int, interval: int)
    requires Spaced(series, interval) && from < to
    ensures var answer := Expected(series, from, to, interval);
            && Spaced(answer, interval)
            && (forall c :: c in answer && c.openTime != to <==> c in series && from <= c.openTime < to)
            && (forall c | c in series && c.openTime == to ::
                  c !in answer <==> EndsOnPage(Between(series, from, to), to, interval))
  {
    BetweenIs(series, from, to, interval);
    BetweenIs(series, from, to + 1, interval);
    hide Between, Spaced, EndsOnPage;
  }
}
