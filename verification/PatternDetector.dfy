/**
 Deterministic pattern detection over closed trades: bucketing by time, the search for the weakest
 bucket, and the correlation of position size with outcome.
 */
module PatternDetector {
  import opened Options
  import opened Calendar

  datatype CoachTrade = CoachTrade(
    id: string, symbol: string, side: string, quantity: real, entryPrice: real, pnl: Option<real>,
    status: string, openedAt: int, closedAt: Option<int>)

  // ---------------------------------------------------------------- grouping

  /** The items with the given key, in their order. */
  function Bucket<T>(items: seq<T>, keyFn: T -> string, key: string): seq<T> {
    if items == [] then []
    else
      var n := |items| - 1;
      Bucket(items[..n], keyFn, key) + if keyFn(items[n]) == key then [items[n]] else []
  }

  ghost predicate Occurs<T>(items: seq<T>, keyFn: T -> string, key: string) {
    exists i :: 0 <= i < |items| && keyFn(items[i]) == key
  }

  /** The keys in the order in which they first occur. */
  function Keys<T>(items: seq<T>, keyFn: T -> string): (keys: seq<string>)
    ensures forall k :: k in keys <==> Occurs(items, keyFn, k)
    ensures forall i, j :: 0 <= i < j < |keys| ==> keys[i] != keys[j]
  {
    if items == [] then []
    else
      var n := |items| - 1;
      var before := Keys(items[..n], keyFn);
      var key := keyFn(items[n]);
      OccursGrows(items, keyFn);
      if key in before then before else before + [key]
  }

  lemma OccursGrows<T>(items: seq<T>, keyFn: T -> string)
    requires items != []
    ensures forall k :: Occurs(items, keyFn, k) <==>
                        (Occurs(items[..|items| - 1], keyFn, k) || k == keyFn(items[|items| - 1]))
  {
    var n := |items| - 1;
    forall k | Occurs(items, keyFn, k)
      ensures Occurs(items[..n], keyFn, k) || k == keyFn(items[n])
    {
      var i :| 0 <= i < |items| && keyFn(items[i]) == k;
      if i < n {
        assert keyFn(items[..n][i]) == k;
      }
    }
    forall k | Occurs(items[..n], keyFn, k)
      ensures Occurs(items, keyFn, k)
    {
      var i :| 0 <= i < n && keyFn(items[..n][i]) == k;
      assert keyFn(items[i]) == k;
    }
  }

  /** A `Map` keeps its keys in the order of insertion: `keys` is that order. */
  method GroupBy<T>(items: seq<T>, keyFn: T -> string) returns (keys: seq<string>, buckets: map<string, seq<T>>)
    ensures keys == Keys(items, keyFn)
    ensures forall k :: k in buckets <==> k in keys
    ensures forall k | k in keys :: buckets[k] == Bucket(items, keyFn, k)
  {
    keys, buckets := [], map[];
    for i := 0 to |items|
      invariant keys == Keys(items[..i], keyFn)
      invariant forall k :: k in buckets <==> k in keys
      invariant forall k | k in keys :: buckets[k] == Bucket(items[..i], keyFn, k)
    {
      var item := items[i];
      var key := keyFn(item);
      assert items[..i + 1][..i] == items[..i];
      if key !in buckets {
        NoBucket(items[..i], keyFn, key);
      }
      var bucket := if key in buckets then buckets[key] else [];
      buckets := buckets[key := bucket + [item]];
      if key !in keys {
        keys := keys + [key];
      }
    }
    assert items[..|items|] == items;
  }

  lemma {:induction false} NoBucket<T>(items: seq<T>, keyFn: T -> string, key: string)
    requires key !in Keys(items, keyFn)
    ensures Bucket(items, keyFn, key) == []
  {
    if items == [] {
    } else {
      NoBucket(items[..|items| - 1], keyFn, key);
    }
  }

  // ---------------------------------------------------------------- every item in exactly one bucket

  function BucketSizes<T>(items: seq<T>, keyFn: T -> string, keys: seq<string>): nat {
    if keys == [] then 0
    else BucketSizes(items, keyFn, keys[..|keys| - 1]) + |Bucket(items, keyFn, keys[|keys| - 1])|
  }

  /** An item is in the bucket of its own key and in no other. */
  lemma {:induction false} InOwnBucket<T(!new)>(items: seq<T>, keyFn: T -> string, key: string)
    ensures forall x :: x in Bucket(items, keyFn, key) <==> x in items && keyFn(x) == key
  {
    if items == [] {
    } else {
      var n := |items| - 1;
      InOwnBucket(items[..n], keyFn, key);
      assert items == items[..n] + [items[n]];
    }
  }

  /** A bucket keeps the order of the items: what comes later is put behind. */
  lemma {:induction false} BucketsInOrder<T>(a: seq<T>, b: seq<T>, keyFn: T -> string, key: string)
    ensures Bucket(a + b, keyFn, key) == Bucket(a, keyFn, key) + Bucket(b, keyFn, key)
    ensures |b| == 1 ==> Bucket(b, keyFn, key) == if keyFn(b[0]) == key then b else []
  {
    if b == [] {
      assert a + b == a;
    } else {
      var n := |b| - 1;
      assert (a + b)[..|a| + n] == a + b[..n];
      BucketsInOrder(a, b[..n], keyFn, key);
    }
  }

  /** Keys keep the order in which they first occur: those of the first items come first. */
  lemma {:induction false} KeysInOrder<T>(items: seq<T>, keyFn: T -> string, n: nat)
    requires n <= |items|
    ensures Keys(items[..n], keyFn) <= Keys(items, keyFn)
  {
    if n == |items| {
      assert items[..n] == items;
    } else {
      var rest := items[..|items| - 1];
      assert rest[..n] == items[..n];
      KeysInOrder(rest, keyFn, n);
      assert Keys(rest, keyFn) <= Keys(items, keyFn);
    }
  }

  // ---------------------------------------------------------------- win rates

  predicate IsWin(t: CoachTrade) {
    t.pnl.GetOr(0.0) > 0.0
  }

  function Wins(trades: seq<CoachTrade>): (n: nat)
    ensures n <= |trades|
  {
    if trades == [] then 0 else Wins(trades[..|trades| - 1]) + if IsWin(trades[|trades| - 1]) then 1 else 0
  }

  function WinRate(trades: seq<CoachTrade>): (rate: real)
    ensures 0.0 <= rate <= 1.0
  {
    if |trades| == 0 then 0.0
    else
      Share(Wins(trades), |trades|);
      Wins(trades) as real / |trades| as real
  }

  lemma Share(part: nat, whole: nat)
    requires part <= whole && whole > 0
    ensures 0.0 <= part as real / whole as real <= 1.0
  {
    var q := part as real / whole as real;
    assert q * whole as real == part as real;
    assert (1.0 - q) * whole as real >= 0.0;
  }

  /** Sizes of the buckets and wins in the buckets, summed over `keys`. */
  function BucketWins(trades: seq<CoachTrade>, keyFn: CoachTrade -> string, keys: seq<string>): nat {
    if keys == [] then 0
    else BucketWins(trades, keyFn, keys[..|keys| - 1]) + Wins(Bucket(trades, keyFn, keys[|keys| - 1]))
  }

  predicate Distinct(keys: seq<string>) {
    forall i, j :: 0 <= i < j < |keys| ==> keys[i] != keys[j]
  }

  lemma LastKey(keys: seq<string>, key: string)
    requires keys != [] && Distinct(keys)
    ensures Distinct(keys[..|keys| - 1])
    ensures key in keys <==> key in keys[..|keys| - 1] || key == keys[|keys| - 1]
    ensures key == keys[|keys| - 1] ==> key !in keys[..|keys| - 1]
  {
    assert keys == keys[..|keys| - 1] + [keys[|keys| - 1]];
  }

  /** Adding a trade adds it to the one bucket of its key. */
  lemma {:induction false} AddTrade(
    trades: seq<CoachTrade>, keyFn: CoachTrade -> string, keys: seq<string>)
    requires trades != [] && Distinct(keys)
    ensures var n := |trades| - 1;
            var hit := keyFn(trades[n]) in keys;
            && BucketSizes(trades, keyFn, keys) == BucketSizes(trades[..n], keyFn, keys) + (if hit then 1 else 0)
            && BucketWins(trades, keyFn, keys)
                 == BucketWins(trades[..n], keyFn, keys) + (if hit && IsWin(trades[n]) then 1 else 0)
    decreases |keys|
  {
    if keys == [] {
    } else {
      hide Bucket, Wins, IsWin, Distinct;
      var n, m := |trades| - 1, |keys| - 1;
      LastKey(keys, keyFn(trades[n]));
      AddTrade(trades, keyFn, keys[..m]);
      WinsOfOneMore(trades, keyFn, keys[m]);
    }
  }

  lemma WinsOfOneMore(trades: seq<CoachTrade>, keyFn: CoachTrade -> string, key: string)
    requires trades != []
    ensures var n := |trades| - 1;
            var before, now := Bucket(trades[..n], keyFn, key), Bucket(trades, keyFn, key);
            if keyFn(trades[n]) == key
            then |now| == |before| + 1 && Wins(now) == Wins(before) + if IsWin(trades[n]) then 1 else 0
            else now == before
  {
    var n := |trades| - 1;
    var before := Bucket(trades[..n], keyFn, key);
    if keyFn(trades[n]) == key {
      assert Bucket(trades, keyFn, key) == before + [trades[n]];
      assert (before + [trades[n]])[..|before|] == before;
    } else {
      assert before + [] == before;
    }
  }

  lemma {:induction false} NewKeyEmpty(
    trades: seq<CoachTrade>, keyFn: CoachTrade -> string, key: string, keys: seq<string>)
    requires key !in Keys(trades, keyFn)
    ensures BucketSizes(trades, keyFn, keys + [key]) == BucketSizes(trades, keyFn, keys)
    ensures BucketWins(trades, keyFn, keys + [key]) == BucketWins(trades, keyFn, keys)
  {
    NoBucket(trades, keyFn, key);
    assert (keys + [key])[..|keys|] == keys;
  }

  /** The buckets share out all the trades and all the wins. */
  lemma {:induction false} BucketsPartition(trades: seq<CoachTrade>, keyFn: CoachTrade -> string)
    ensures BucketSizes(trades, keyFn, Keys(trades, keyFn)) == |trades|
    ensures BucketWins(trades, keyFn, Keys(trades, keyFn)) == Wins(trades)
  {
    if trades == [] {
    } else {
      hide Bucket, IsWin, Occurs;
      var n := |trades| - 1;
      var before, now := Keys(trades[..n], keyFn), Keys(trades, keyFn);
      assert now == if keyFn(trades[n]) in before then before else before + [keyFn(trades[n])];
      hide Keys, BucketSizes, BucketWins;
      BucketsPartition(trades[..n], keyFn);
      AddTrade(trades, keyFn, now);
      if keyFn(trades[n]) !in before {
        NewKeyEmpty(trades[..n], keyFn, keyFn(trades[n]), before);
      }
    }
  }

  /** Bucket win rates weighted by bucket size. */
  function WeightedRates(trades: seq<CoachTrade>, keyFn: CoachTrade -> string, keys: seq<string>): real {
    if keys == [] then 0.0
    else
      var b := Bucket(trades, keyFn, keys[|keys| - 1]);
      WeightedRates(trades, keyFn, keys[..|keys| - 1]) + Weighted(b)
  }

  function Weighted(trades: seq<CoachTrade>): real {
    WinRate(trades) * |trades| as real
  }

  lemma RateTimesSize(trades: seq<CoachTrade>)
    ensures Weighted(trades) == Wins(trades) as real
  {
    hide Wins;
    if trades == [] {
      assert Wins(trades) <= 0;
    } else {
      Restored(Wins(trades) as real, |trades| as real);
    }
  }

  lemma {:induction false} WeightedIsWins(trades: seq<CoachTrade>, keyFn: CoachTrade -> string, keys: seq<string>)
    ensures WeightedRates(trades, keyFn, keys) == BucketWins(trades, keyFn, keys) as real
  {
    if keys == [] {
    } else {
      hide WinRate, Weighted, Bucket, Wins;
      WeightedIsWins(trades, keyFn, keys[..|keys| - 1]);
      RateTimesSize(Bucket(trades, keyFn, keys[|keys| - 1]));
    }
  }

  /** The overall win rate is the size-weighted mean of the bucket win rates, whatever the buckets are by. */
  lemma {:induction false} OverallIsWeightedMean(trades: seq<CoachTrade>, keyFn: CoachTrade -> string)
    ensures Weighted(trades) == WeightedRates(trades, keyFn, Keys(trades, keyFn))
  {
    hide *;
    BucketsPartition(trades, keyFn);
    WeightedIsWins(trades, keyFn, Keys(trades, keyFn));
    RateTimesSize(trades);
  }

  // ---------------------------------------------------------------- the time buckets

  const NIGHT_BUCKET_LABEL: string := "night (00-06 UTC)"

  datatype HourRange = HourRange(name: string, from: int, to: int)

  const HOUR_BUCKETS: seq<HourRange> := [
    HourRange(NIGHT_BUCKET_LABEL, 0, 6),
    HourRange("morning (06-12 UTC)", 6, 12),
    HourRange("afternoon (12-18 UTC)", 12, 18),
    HourRange("evening (18-24 UTC)", 18, 24)]

  function Hours(t: int): int {
    t / 3600000 % 24
  }

  predicate Covers(r: HourRange, hour: int) {
    r.from <= hour < r.to
  }

  /** The first range from index `i` on that covers the hour. */
  function FindRange(hour: int, i: nat): (r: Option<HourRange>)
    requires i <= |HOUR_BUCKETS|
    decreases |HOUR_BUCKETS| - i
  {
    if i == |HOUR_BUCKETS| then None
    else if Covers(HOUR_BUCKETS[i], hour) then Some(HOUR_BUCKETS[i])
    else FindRange(hour, i + 1)
  }

  function HourBucketLabel(t: int): string {
    var r := FindRange(Hours(t), 0);
    if r.Some? then r.value.name else NIGHT_BUCKET_LABEL
  }

  /** Each instant is in exactly one hour range, the one its label names. */
  lemma HourBucketIsRange(t: int)
    ensures exists i :: 0 <= i < |HOUR_BUCKETS| && Covers(HOUR_BUCKETS[i], Hours(t))
              && HourBucketLabel(t) == HOUR_BUCKETS[i].name
              && forall j :: 0 <= j < |HOUR_BUCKETS| && Covers(HOUR_BUCKETS[j], Hours(t)) ==> j == i
  {
    var i := Hours(t) / 6;
    assert Covers(HOUR_BUCKETS[i], Hours(t));
    assert FindRange(Hours(t), i) == Some(HOUR_BUCKETS[i]);
    if i > 0 { assert FindRange(Hours(t), i - 1) == FindRange(Hours(t), i); }
    if i > 1 { assert FindRange(Hours(t), i - 2) == FindRange(Hours(t), i); }
    if i > 2 { assert FindRange(Hours(t), i - 3) == FindRange(Hours(t), i); }
  }

  const WEEKDAY_LABELS: seq<string> :=
    ["Sunday", "Monday", "Tuesday", "Wednesday", "Thursday", "Friday", "Saturday"]

  function WeekdayLabel(t: int): string {
    WEEKDAY_LABELS[WeekDayOf(Day(t))]
  }

  // ---------------------------------------------------------------- the weakest bucket

  datatype BucketType = Hour | Weekday

  datatype Candidate = Candidate(name: string, kind: BucketType, trades: seq<CoachTrade>)

  function HourKey(): CoachTrade -> string { (t: CoachTrade) => HourBucketLabel(t.openedAt) }
  function WeekdayKey(): CoachTrade -> string { (t: CoachTrade) => WeekdayLabel(t.openedAt) }

  function CandidatesBy(trades: seq<CoachTrade>, kind: BucketType, keyFn: CoachTrade -> string): seq<Candidate> {
    var keys := Keys(trades, keyFn);
    seq(|keys|, i requires 0 <= i < |keys| => Candidate(keys[i], kind, Bucket(trades, keyFn, keys[i])))
  }

  /** All hour buckets, then all weekday buckets, each kind in the order of first occurrence. */
  function Candidates(trades: seq<CoachTrade>): seq<Candidate> {
    CandidatesBy(trades, Hour, HourKey()) + CandidatesBy(trades, Weekday, WeekdayKey())
  }

  predicate Eligible(c: Candidate) {
    |c.trades| >= 5
  }

  function Deficit(overall: real, c: Candidate): real {
    overall - WinRate(c.trades)
  }

  /** `w` is the first among the eligible candidates with the lowest win rate. */
  ghost predicate IsWeakest(candidates: seq<Candidate>, w: nat) {
    && w < |candidates| && Eligible(candidates[w])
    && (forall j :: 0 <= j < |candidates| && Eligible(candidates[j]) ==>
          WinRate(candidates[w].trades) <= WinRate(candidates[j].trades))
    && (forall j :: 0 <= j < w && Eligible(candidates[j]) ==>
          WinRate(candidates[w].trades) < WinRate(candidates[j].trades))
  }

  /** The state of the search over a prefix of the candidates. */
  ghost predicate Searched(candidates: seq<Candidate>, overall: real, worst: Option<Candidate>, deficit: real) {
    if worst.None? then
      && deficit == 0.0
      && forall j :: 0 <= j < |candidates| && Eligible(candidates[j]) ==> Deficit(overall, candidates[j]) <= 0.0
    else
      && deficit == Deficit(overall, worst.value) > 0.0
      && exists w: nat :: IsWeakest(candidates, w) && candidates[w] == worst.value
  }

  lemma SearchStep(candidates: seq<Candidate>, overall: real, worst: Option<Candidate>, deficit: real, c: Candidate)
    requires Searched(candidates, overall, worst, deficit)
    ensures !Eligible(c) || Deficit(overall, c) <= deficit ==> Searched(candidates + [c], overall, worst, deficit)
    ensures Eligible(c) && Deficit(overall, c) > deficit ==>
              Searched(candidates + [c], overall, Some(c), Deficit(overall, c))
  {
    hide WinRate;
    var more := candidates + [c];
    if Eligible(c) && Deficit(overall, c) > deficit {
      assert IsWeakest(more, |candidates|);
    } else if worst.Some? {
      var w: nat :| IsWeakest(candidates, w) && candidates[w] == worst.value;
      assert IsWeakest(more, w);
    }
  }

  const MAX_RELATED_TRADE_IDS: nat := 10

  datatype Finding = Finding(
    bucketType: BucketType, bucketLabel: string, bucketWinRate: real, overallWinRate: real,
    sampleSize: nat, relatedTradeIds: seq<string>)

  function Ids(trades: seq<CoachTrade>): seq<string> {
    seq(|trades|, i requires 0 <= i < |trades| => trades[i].id)
  }

  function FindingOf(c: Candidate, overall: real): Finding {
    var few := if |c.trades| <= MAX_RELATED_TRADE_IDS then c.trades else c.trades[..MAX_RELATED_TRADE_IDS];
    Finding(c.kind, c.name, Round2(WinRate(c.trades) * 100.0), Round2(overall * 100.0), |c.trades|, Ids(few))
  }

  /** A bucket is weak when it has at least 5 trades and wins at least 0.2 less often than all trades together. */
  predicate Weak(c: Candidate, overall: real) {
    Eligible(c) && Deficit(overall, c) >= 0.2
  }

  /** The search over the buckets of one kind, in the order of their keys. */
  method SearchBuckets(
    closedTrades: seq<CoachTrade>, kind: BucketType, keyFn: CoachTrade -> string, overallWinRate: real,
    worstSoFar: Option<Candidate>, deficitSoFar: real, ghost searched: seq<Candidate>)
    returns (worst: Option<Candidate>, worstDeficit: real)
    requires Searched(searched, overallWinRate, worstSoFar, deficitSoFar)
    ensures Searched(searched + CandidatesBy(closedTrades, kind, keyFn), overallWinRate, worst, worstDeficit)
  {
    hide WinRate, Bucket, Keys, Searched;
    var keys, buckets := GroupBy(closedTrades, keyFn);
    ghost var candidates := CandidatesBy(closedTrades, kind, keyFn);
    worst, worstDeficit := worstSoFar, deficitSoFar;
    assert searched + candidates[..0] == searched;
    for i := 0 to |keys|
      invariant Searched(searched + candidates[..i], overallWinRate, worst, worstDeficit)
    {
      var bucketTrades := buckets[keys[i]];
      var c := Candidate(keys[i], kind, bucketTrades);
      assert searched + candidates[..i + 1] == (searched + candidates[..i]) + [c];
      SearchStep(searched + candidates[..i], overallWinRate, worst, worstDeficit, c);
      if |bucketTrades| < 5 { continue; }
      var deficit := overallWinRate - WinRate(bucketTrades);
      if deficit > worstDeficit {
        worstDeficit, worst := deficit, Some(c);
      }
    }
    assert candidates[..|keys|] == candidates;
  }

  /** What a finding says of a bucket: label, kind, both win rates in percent, size, and its first ten trades. */
  ghost predicate Reports(f: Finding, c: Candidate, trades: seq<CoachTrade>) {
    && f.bucketType == c.kind && f.bucketLabel == c.name && f.sampleSize == |c.trades|
    && f.bucketWinRate == Round2(WinRate(c.trades) * 100.0) && f.overallWinRate == Round2(WinRate(trades) * 100.0)
    && |f.relatedTradeIds| == (if |c.trades| < 10 then |c.trades| else 10)
    && forall i | 0 <= i < |f.relatedTradeIds| :: f.relatedTradeIds[i] == c.trades[i].id
  }

  lemma FindingReports(c: Candidate, trades: seq<CoachTrade>)
    ensures Reports(FindingOf(c, WinRate(trades)), c, trades)
  {
    hide WinRate, Round2;
  }

  method DetectTimeOfDayWeakness(closedTrades: seq<CoachTrade>) returns (finding: Option<Finding>)
    ensures finding.Some? <==>
              exists c | c in Candidates(closedTrades) ::
                |c.trades| >= 5 && WinRate(closedTrades) - WinRate(c.trades) >= 0.2
    ensures finding.Some? ==>
              exists w: nat :: IsWeakest(Candidates(closedTrades), w)
                && Reports(finding.value, Candidates(closedTrades)[w], closedTrades)
  {
    hide WinRate, CandidatesBy, FindingOf, IsWeakest, Reports;
    var overallWinRate := WinRate(closedTrades);
    var worst, worstDeficit := SearchBuckets(closedTrades, Hour, HourKey(), overallWinRate, None, 0.0, []);
    assert [] + CandidatesBy(closedTrades, Hour, HourKey()) == CandidatesBy(closedTrades, Hour, HourKey());
    worst, worstDeficit := SearchBuckets(closedTrades, Weekday, WeekdayKey(), overallWinRate, worst, worstDeficit,
                                         CandidatesBy(closedTrades, Hour, HourKey()));
    SearchEnd(Candidates(closedTrades), overallWinRate, worst, worstDeficit);
    if worst.None? || worstDeficit < 0.2 {
      return None;
    }
    FindingReports(worst.value, closedTrades);
    return Some(FindingOf(worst.value, overallWinRate));
  }

  lemma SearchEnd(candidates: seq<Candidate>, overall: real, worst: Option<Candidate>, deficit: real)
    requires Searched(candidates, overall, worst, deficit)
    ensures worst.Some? && deficit >= 0.2 <==> exists c | c in candidates :: Weak(c, overall)
  {
    hide WinRate;
    if worst.Some? {
      var w: nat :| IsWeakest(candidates, w) && candidates[w] == worst.value;
      assert worst.value in candidates;
      assert deficit >= 0.2 ==> Weak(worst.value, overall);
    }
    forall c | c in candidates && Weak(c, overall)
      ensures worst.Some? && deficit >= 0.2
    {
      var j :| 0 <= j < |candidates| && candidates[j] == c;
      assert Eligible(candidates[j]) && Deficit(overall, candidates[j]) > 0.0;
    }
  }

  // ---------------------------------------------------------------- the buckets, in plain terms

  /** The winning trades. */
  function Winners(trades: seq<CoachTrade>): set<nat> {
    set i: nat | i < |trades| && trades[i].pnl.Some? && trades[i].pnl.value > 0.0
  }

  lemma {:induction false} WinsAreWinners(trades: seq<CoachTrade>)
    ensures Wins(trades) == |Winners(trades)|
  {
    if trades == [] {
    } else {
      var n := |trades| - 1;
      WinsAreWinners(trades[..n]);
      assert Winners(trades) == Winners(trades[..n]) + if IsWin(trades[n]) then {n} else {};
    }
  }

  /** The win rate is the share of the winning trades. */
  lemma WinRateIsShare(trades: seq<CoachTrade>)
    ensures WinRate(trades) == if trades == [] then 0.0 else |Winners(trades)| as real / |trades| as real
  {
    WinsAreWinners(trades);
  }

  function TwoDigits(n: int): string
    requires 0 <= n <= 99
  {
    [('0' as int + n / 10) as char, ('0' as int + n % 10) as char]
  }

  function PartOfDay(i: nat): string
    requires i < 4
  {
    ["night", "morning", "afternoon", "evening"][i]
  }

  function HoursText(from: int, to: int): string
    requires 0 <= from <= 99 && 0 <= to <= 99
  {
    " (" + TwoDigits(from) + "-" + TwoDigits(to) + " UTC)"
  }

  /** The four ranges share out the day, and each one's label says from when to when it runs. */
  lemma LabelsSayRanges(i: nat)
    requires i < 4
    ensures |HOUR_BUCKETS| == 4 && HOUR_BUCKETS[i].from == 6 * i && HOUR_BUCKETS[i].to == 6 * i + 6
    ensures HOUR_BUCKETS[i].name == PartOfDay(i) + HoursText(6 * i, 6 * i + 6)
  {
    TextOfHours();
    LabelTexts();
    hide HoursText, HOUR_BUCKETS;
    assert i == 0 || i == 1 || i == 2 || i == 3;
  }

  lemma LabelTexts()
    ensures HOUR_BUCKETS == [HourRange("night" + " (00-06 UTC)", 0, 6), HourRange("morning" + " (06-12 UTC)", 6, 12),
                             HourRange("afternoon" + " (12-18 UTC)", 12, 18),
                             HourRange("evening" + " (18-24 UTC)", 18, 24)]
  {
    assert NIGHT_BUCKET_LABEL == "night" + " (00-06 UTC)";
    assert "morning (06-12 UTC)" == "morning" + " (06-12 UTC)";
    assert "afternoon (12-18 UTC)" == "afternoon" + " (12-18 UTC)";
    assert "evening (18-24 UTC)" == "evening" + " (18-24 UTC)";
  }

  lemma TextOfHours()
    ensures HoursText(0, 6) == " (00-06 UTC)" && HoursText(6, 12) == " (06-12 UTC)"
    ensures HoursText(12, 18) == " (12-18 UTC)" && HoursText(18, 24) == " (18-24 UTC)"
  {
    assert TwoDigits(0) == "00" && TwoDigits(6) == "06" && TwoDigits(12) == "12";
    assert TwoDigits(18) == "18" && TwoDigits(24) == "24";
    hide TwoDigits;
  }

  /** The UTC hour of an instant: hours since the start of its day. */
  lemma HoursIs(t: int)
    ensures 0 <= Hours(t) <= 23
    ensures 86400000 * Day(t) + 3600000 * Hours(t) <= t < 86400000 * Day(t) + 3600000 * Hours(t) + 3600000
  {
  }

  /** The name of the weekday, counted from Thursday, 1 January 1970. */
  lemma WeekdayLabels(t: int)
    ensures WeekdayLabel(t)
              == ["Thursday", "Friday", "Saturday", "Sunday", "Monday", "Tuesday", "Wednesday"][Day(t) % 7]
  {
    hide Day;
    var d := Day(t) % 7;
    assert (Day(t) + 4) % 7 == if d < 3 then d + 4 else d - 3;
  }

  lemma DifferentRanges(i: nat, j: nat)
    requires i < 4 && j < 4 && HOUR_BUCKETS[i].name == HOUR_BUCKETS[j].name
    ensures i == j
  {
    assert HOUR_BUCKETS[0].name[0] == 'n' && HOUR_BUCKETS[1].name[0] == 'm';
    assert HOUR_BUCKETS[2].name[0] == 'a' && HOUR_BUCKETS[3].name[0] == 'e';
  }

  /** An instant has the label of a range exactly when its hour is in the range. */
  lemma LabelMeansRange(t: int, i: nat)
    requires i < 4
    ensures HourBucketLabel(t) == HOUR_BUCKETS[i].name <==> 6 * i <= Hours(t) < 6 * i + 6
  {
    HourBucketIsRange(t);
    LabelsSayRanges(i);
    hide HourBucketLabel, Hours, HOUR_BUCKETS;
    var j :| 0 <= j < |HOUR_BUCKETS| && Covers(HOUR_BUCKETS[j], Hours(t))
             && HourBucketLabel(t) == HOUR_BUCKETS[j].name
             && forall k :: 0 <= k < |HOUR_BUCKETS| && Covers(HOUR_BUCKETS[k], Hours(t)) ==> k == j;
    if HourBucketLabel(t) == HOUR_BUCKETS[i].name {
      DifferentRanges(i, j);
    }
  }

  lemma CandidateIs(trades: seq<CoachTrade>, kind: BucketType, keyFn: CoachTrade -> string, c: Candidate)
    requires c in CandidatesBy(trades, kind, keyFn)
    ensures c.kind == kind && forall t :: t in c.trades <==> t in trades && keyFn(t) == c.name
    ensures exists t | t in trades :: keyFn(t) == c.name
  {
    InOwnBucket(trades, keyFn, c.name);
    assert c.name in Keys(trades, keyFn);
    assert Occurs(trades, keyFn, c.name);
  }

  /** An hour bucket has the trades that were opened in one range of hours. */
  lemma HourCandidate(trades: seq<CoachTrade>, c: Candidate)
    requires c in Candidates(trades) && c.kind == Hour
    ensures exists i: nat | i < 4 :: c.name == HOUR_BUCKETS[i].name
              && forall t :: t in c.trades <==> t in trades && 6 * i <= Hours(t.openedAt) < 6 * i + 6
  {
    hide Bucket, Keys, Hours, HourBucketLabel, HOUR_BUCKETS;
    assert c in CandidatesBy(trades, Hour, HourKey());
    CandidateIs(trades, Hour, HourKey(), c);
    var t :| t in trades && HourKey()(t) == c.name;
    LabelsSayRanges(0);
    HourBucketIsRange(t.openedAt);
    var i: nat :| i < |HOUR_BUCKETS| && HourBucketLabel(t.openedAt) == HOUR_BUCKETS[i].name;
    forall u: CoachTrade
      ensures HourKey()(u) == c.name <==> 6 * i <= Hours(u.openedAt) < 6 * i + 6
    {
      LabelMeansRange(u.openedAt, i);
    }
  }

  /** A weekday bucket has the trades that were opened on one day of the week. */
  lemma WeekdayCandidate(trades: seq<CoachTrade>, c: Candidate)
    requires c in Candidates(trades) && c.kind == Weekday
    ensures forall t :: t in c.trades <==> t in trades && WeekdayLabel(t.openedAt) == c.name
  {
    hide Bucket, Keys, WeekdayLabel;
    assert c in CandidatesBy(trades, Weekday, WeekdayKey());
    CandidateIs(trades, Weekday, WeekdayKey(), c);
  }

  /** The hour buckets come first, and the buckets of a kind in the order in which their labels first occur. */
  lemma CandidatesInOrder(trades: seq<CoachTrade>, n: nat)
    requires n <= |trades|
    ensures var cs := Candidates(trades);
            forall i, j | 0 <= i < j < |cs| && cs[j].kind == Hour :: cs[i].kind == Hour
    ensures Labels(CandidatesBy(trades[..n], Hour, HourKey())) <= Labels(CandidatesBy(trades, Hour, HourKey()))
    ensures Labels(CandidatesBy(trades[..n], Weekday, WeekdayKey()))
              <= Labels(CandidatesBy(trades, Weekday, WeekdayKey()))
  {
    KeysInOrder(trades, HourKey(), n);
    KeysInOrder(trades, WeekdayKey(), n);
    hide Keys, Bucket;
    LabelsAreKeys(trades, Hour, HourKey());
    LabelsAreKeys(trades[..n], Hour, HourKey());
    LabelsAreKeys(trades, Weekday, WeekdayKey());
    LabelsAreKeys(trades[..n], Weekday, WeekdayKey());
  }

  function Labels(candidates: seq<Candidate>): seq<string> {
    seq(|candidates|, i requires 0 <= i < |candidates| => candidates[i].name)
  }

  lemma LabelsAreKeys(trades: seq<CoachTrade>, kind: BucketType, keyFn: CoachTrade -> string)
    ensures Labels(CandidatesBy(trades, kind, keyFn)) == Keys(trades, keyFn)
  {
  }
}
