/** What the matching of fills means for quantity, money, time and order. */
module TradeMatcherLaws {
  import opened Options
  import opened TradeMatcher

  // ---------------------------------------------------------------- the cases of one fill

  predicate Opposite(p: Option<Position>, fill: Fill) {
    p.Some? && p.value.side != SideOf(fill)
  }

  /** The units of a fill or of a position that one fill lets fall under the epsilon. */
  function Dropped(p: Option<Position>, fill: Fill): real {
    if fill.qty <= EPSILON then fill.qty
    else if !Opposite(p, fill) then 0.0
    else
      var gap := p.value.OpenQuantity() - fill.qty;
      if -EPSILON <= gap <= 0.0 then -gap
      else if 0.0 <= gap <= EPSILON then gap
      else 0.0
  }

  /** The position after a fill that is neither ignored nor on the opposite side. */
  function Extended(p: Option<Position>, fill: Fill): Position {
    (if p.None? then NewPosition(fill) else p.value).Extend(fill.qty, fill.price)
  }

  /** Every way one fill can go. */
  lemma AbsorbCases(p: Option<Position>, fill: Fill)
    requires Held(p)
    ensures var o := Absorb(p, fill, fill.qty);
            if fill.qty <= EPSILON then
              o == Outcome(p, [])
            else if !Opposite(p, fill) then
              o == Outcome(Some(Extended(p, fill)), [])
            else
              var open := p.value.OpenQuantity();
              if fill.qty < open - EPSILON then
                o == Outcome(Some(p.value.Reduce(fill.qty, fill.price)), [])
              else if fill.qty <= open + EPSILON then
                o == Outcome(None, [ClosePosition(p.value.Reduce(Min(fill.qty, open), fill.price), fill.time)])
              else
                o == Outcome(Some(NewPosition(fill).Extend(fill.qty - open, fill.price)),
                             [ClosePosition(p.value.Reduce(open, fill.price), fill.time)])
  {
    if fill.qty > EPSILON {
      var round := Match(p, fill, fill.qty);
      if round.remaining > EPSILON {
        assert round.position == None;
        var second := Match(round.position, fill, round.remaining);
        assert Absorb(second.position, fill, 0.0) == Outcome(second.position, []);
        assert Absorb(round.position, fill, round.remaining) == Outcome(second.position, []);
      }
    }
  }

  lemma RunStep(fills: seq<Fill>)
    requires fills != []
    ensures var n := |fills| - 1;
            var now := Absorb(Run(fills[..n]).position, fills[n], fills[n].qty);
            Run(fills) == Outcome(now.position, Run(fills[..n]).trades + now.trades)
  {
  }

  // ---------------------------------------------------------------- quantity

  function SignedQty(fill: Fill): real {
    if fill.isBuyer then fill.qty else -fill.qty
  }

  /** Units bought less units sold. */
  function Net(fills: seq<Fill>): real {
    if fills == [] then 0.0 else Net(fills[..|fills| - 1]) + SignedQty(fills[|fills| - 1])
  }

  function SignedOpen(p: Option<Position>): real {
    if p.None? then 0.0
    else if p.value.side == Long then p.value.OpenQuantity()
    else -p.value.OpenQuantity()
  }

  predicate NonNegative(fills: seq<Fill>) {
    forall f | f in fills :: f.qty >= 0.0
  }

  function Abs(x: real): real {
    if x < 0.0 then -x else x
  }

  function Times(k: int, unit: real): real {
    k as real * unit
  }

  lemma TimesZero(unit: real)
    ensures Times(0, unit) == 0.0
  {
  }

  lemma TimesNext(k: int, unit: real)
    ensures Times(k + 1, unit) == Times(k, unit) + unit
  {
  }

  lemma QuantityStep(p: Option<Position>, fill: Fill)
    requires Held(p) && fill.qty >= 0.0
    ensures 0.0 <= Dropped(p, fill) <= EPSILON
    ensures Abs(SignedOpen(p) + SignedQty(fill) - SignedOpen(Absorb(p, fill, fill.qty).position)) == Dropped(p, fill)
  {
    AbsorbCases(p, fill);
  }

  /** The position never strays from the fills by more than one epsilon a fill. */
  lemma {:induction false} QuantityDrift(fills: seq<Fill>)
    requires NonNegative(fills)
    ensures Abs(Net(fills) - SignedOpen(Run(fills).position)) <= Times(|fills|, EPSILON)
  {
    hide Absorb, Dropped, Times, SignedQty;
    if fills == [] {
      TimesZero(EPSILON);
    } else {
      var n := |fills| - 1;
      QuantityDrift(fills[..n]);
      QuantityStep(Run(fills[..n]).position, fills[n]);
      TimesNext(n, EPSILON);
    }
  }

  // ---------------------------------------------------------------- whole lots

  /** `q` is a whole number of lots. */
  ghost predicate IsLots(q: real, lot: real) {
    exists k: int :: q == Times(k, lot)
  }

  ghost predicate WholeLots(fills: seq<Fill>, lot: real) {
    lot > EPSILON && forall f | f in fills :: f.qty >= 0.0 && IsLots(f.qty, lot)
  }

  lemma LotsAdd(a: real, b: real, lot: real)
    requires IsLots(a, lot) && IsLots(b, lot)
    ensures IsLots(a + b, lot) && IsLots(a - b, lot) && IsLots(b - a, lot)
  {
    var i: int :| a == Times(i, lot);
    var j: int :| b == Times(j, lot);
    assert a + b == Times(i + j, lot) && a - b == Times(i - j, lot) && b - a == Times(j - i, lot);
  }

  lemma SmallLots(a: real, lot: real)
    requires IsLots(a, lot) && lot > EPSILON && 0.0 <= a <= EPSILON
    ensures a == 0.0
  {
    var k: int :| a == Times(k, lot);
    TimesBound(k, lot);
  }

  lemma TimesBound(k: int, lot: real)
    requires lot > 0.0
    ensures k >= 1 ==> Times(k, lot) >= lot
    ensures k == 0 ==> Times(k, lot) == 0.0
    ensures k <= -1 ==> Times(k, lot) <= -lot
    decreases if k < 0 then -k else k
  {
    if k >= 1 {
      TimesBound(k - 1, lot);
    } else if k <= -1 {
      TimesBound(k + 1, lot);
    }
  }

  lemma LotsStep(p: Option<Position>, fill: Fill, lot: real)
    requires Held(p) && fill.qty >= 0.0 && lot > EPSILON
    requires IsLots(fill.qty, lot) && IsLots(SignedOpen(p), lot)
    ensures Dropped(p, fill) == 0.0
    ensures IsLots(SignedOpen(Absorb(p, fill, fill.qty).position), lot)
  {
    LotsAdd(SignedOpen(p), fill.qty, lot);
    QuantityStep(p, fill);
    if fill.qty <= EPSILON {
      SmallLots(fill.qty, lot);
    } else if Opposite(p, fill) {
      var gap := p.value.OpenQuantity() - fill.qty;
      assert gap == SignedOpen(p) - fill.qty || -gap == SignedOpen(p) + fill.qty;
      assert IsLots(0.0, lot) by { assert 0.0 == Times(0, lot); }
      LotsAdd(0.0, gap, lot) by { if gap != SignedOpen(p) - fill.qty { LotsAdd(0.0, -gap, lot); } }
      if 0.0 <= gap <= EPSILON {
        SmallLots(gap, lot);
      } else if -EPSILON <= gap <= 0.0 {
        SmallLots(-gap, lot);
      }
    }
  }

  /** With whole lots nothing is ever dropped: the open position is the running total of the fills. */
  lemma {:induction false} LotsExact(fills: seq<Fill>, lot: real)
    requires WholeLots(fills, lot)
    ensures SignedOpen(Run(fills).position) == Net(fills)
    ensures IsLots(Net(fills), lot)
  {
    if fills == [] {
      assert 0.0 == Times(0, lot);
    } else {
      var n := |fills| - 1;
      LotsExact(fills[..n], lot);
      LotsStep(Run(fills[..n]).position, fills[n], lot);
      QuantityStep(Run(fills[..n]).position, fills[n]);
    }
  }

  // ---------------------------------------------------------------- money: two ledgers

  /** What the fills on one side were worth: `Long` for everything bought, `Short` for everything sold. */
  function Notional(fills: seq<Fill>, side: Side): real {
    if fills == [] then 0.0 else Notional(fills[..|fills| - 1], side) + Worth(fills[|fills| - 1], side)
  }

  function Worth(fill: Fill, side: Side): real {
    if SideOf(fill) == side then Amount(fill.qty, fill.price) else 0.0
  }

  /** The part of a closed trade that was bought (`Long`) or sold (`Short`). */
  function Leg(t: MatchedTrade, side: Side): real {
    if t.exitPrice.None? then 0.0
    else Amount(t.quantity, if t.side == side then t.entryPrice else t.exitPrice.value)
  }

  function Legs(trades: seq<MatchedTrade>, side: Side): real {
    if trades == [] then 0.0 else Legs(trades[..|trades| - 1], side) + Leg(trades[|trades| - 1], side)
  }

  /** What the open position has bought or sold so far. */
  function Carried(p: Option<Position>, side: Side): real {
    if p.None? then 0.0
    else if p.value.side == side then p.value.entryNotional
    else p.value.exitNotional
  }

  lemma LegsAppend(trades: seq<MatchedTrade>, more: seq<MatchedTrade>, side: Side)
    requires |more| <= 1
    ensures Legs(trades + more, side) == Legs(trades, side) + Legs(more, side)
  {
    if more == [] {
      assert trades + more == trades;
    } else {
      assert (trades + more)[..|trades|] == trades;
      assert more[..0] == [];
    }
  }

  lemma Split(a: real, b: real, price: real)
    ensures Amount(a + b, price) == Amount(a, price) + Amount(b, price)
  {
  }

  lemma AmountOfAverage(notional: real, quantity: real)
    requires quantity > 0.0
    ensures Amount(quantity, AveragePrice(notional, quantity)) == notional
  {
  }

  lemma AmountBound(qty: real, price: real, most: real, top: real)
    requires 0.0 <= qty <= most && 0.0 <= price <= top
    ensures 0.0 <= Amount(qty, price) <= Amount(most, top)
  {
  }

  lemma AverageBound(notional: real, quantity: real, top: real)
    requires quantity > 0.0 && 0.0 <= notional <= Amount(quantity, top)
    ensures 0.0 <= AveragePrice(notional, quantity) <= top
  {
  }

  lemma DifferenceAmount(qty: real, a: real, b: real)
    ensures Amount(qty, a - b) == Amount(qty, a) - Amount(qty, b)
  {
  }

  /** A closed trade's profit is what was sold less what was bought. */
  lemma PnlIsLegs(q: Position, closedAt: int)
    requires q.entryQuantity > 0.0 && q.exitQuantity > 0.0
    ensures var t := ClosePosition(q, closedAt); t.pnl.value == Leg(t, Short) - Leg(t, Long)
  {
    hide Amount, AveragePrice;
    var t := ClosePosition(q, closedAt);
    DifferenceAmount(t.quantity, t.entryPrice, t.exitPrice.value);
    DifferenceAmount(t.quantity, t.exitPrice.value, t.entryPrice);
  }

  /** The side whose ledger loses the dropped units, and the price they are lost at. */
  function LossSide(p: Option<Position>, fill: Fill): Side {
    if Opposite(p, fill) && fill.qty > EPSILON && fill.qty <= p.value.OpenQuantity() then p.value.side else SideOf(fill)
  }

  function LossPrice(p: Option<Position>, fill: Fill): real
    requires Held(p)
  {
    if LossSide(p, fill) == SideOf(fill) then fill.price
    else AveragePrice(p.value.entryNotional, p.value.entryQuantity)
  }

  function Loss(p: Option<Position>, fill: Fill, side: Side): real
    requires Held(p)
  {
    if LossSide(p, fill) == side then Amount(Dropped(p, fill), LossPrice(p, fill)) else 0.0
  }

  /** What one fill bought or sold stays in the position or a trade, but for the dropped units. */
  lemma LedgerStep(p: Option<Position>, fill: Fill, side: Side)
    requires Held(p)
    ensures var o := Absorb(p, fill, fill.qty);
            Carried(p, side) + Worth(fill, side)
              == Carried(o.position, side) + Legs(o.trades, side) + Loss(p, fill, side)
  {
    hide Amount, AveragePrice, ClosePosition;
    if fill.qty > EPSILON && Opposite(p, fill) && fill.qty >= p.value.OpenQuantity() - EPSILON {
      LedgerClose(p.value, fill, side);
    } else {
      AbsorbCases(p, fill);
      Split(0.0, 0.0, LossPrice(p, fill));
    }
  }

  lemma LedgerClose(q: Position, fill: Fill, side: Side)
    requires Held(Some(q)) && fill.qty > EPSILON && q.side != SideOf(fill)
    requires fill.qty >= q.OpenQuantity() - EPSILON
    ensures var o := Absorb(Some(q), fill, fill.qty);
            Carried(Some(q), side) + Worth(fill, side)
              == Carried(o.position, side) + Legs(o.trades, side) + Loss(Some(q), fill, side)
  {
    var closing := Min(fill.qty, q.OpenQuantity());
    CloseOutcome(q, fill, side);
    hide Amount, AveragePrice, ClosePosition, Absorb, Carried, Legs, Leg;
    CloseTrade(q, fill, closing, side);
    Split(closing, fill.qty - closing, fill.price);
    Split(0.0, 0.0, fill.price);
    Split(0.0, 0.0, AveragePrice(q.entryNotional, q.entryQuantity));
  }

  /** One trade comes out, and what is left of the fill starts the next position. */
  lemma CloseOutcome(q: Position, fill: Fill, side: Side)
    requires Held(Some(q)) && fill.qty > EPSILON && q.side != SideOf(fill)
    requires fill.qty >= q.OpenQuantity() - EPSILON
    ensures var o := Absorb(Some(q), fill, fill.qty);
            var t := ClosePosition(q.Reduce(Min(fill.qty, q.OpenQuantity()), fill.price), fill.time);
            var left := fill.qty - q.OpenQuantity();
            && Legs(o.trades, side) == Leg(t, side)
            && Carried(o.position, side)
                 == if left > EPSILON && side == SideOf(fill) then 0.0 + Amount(left, fill.price) else 0.0
  {
    hide Amount, AveragePrice, ClosePosition;
    AbsorbCases(Some(q), fill);
    hide Absorb;
    var t := ClosePosition(q.Reduce(Min(fill.qty, q.OpenQuantity()), fill.price), fill.time);
    assert [t][..0] == [];
    assert Absorb(Some(q), fill, fill.qty).trades == [t];
  }

  /** What the emitted trade takes from the position and the fill when `closing` units are closed. */
  lemma CloseTrade(q: Position, fill: Fill, closing: real, side: Side)
    requires Held(Some(q)) && q.side != SideOf(fill) && 0.0 < closing <= q.OpenQuantity()
    ensures Leg(ClosePosition(q.Reduce(closing, fill.price), fill.time), side)
              == Carried(Some(q), side)
                 + if side == SideOf(fill) then Amount(closing, fill.price)
                   else -Amount(q.OpenQuantity() - closing, AveragePrice(q.entryNotional, q.entryQuantity))
  {
    hide Amount, AveragePrice;
    var q' := q.Reduce(closing, fill.price);
    AmountOfAverage(q'.exitNotional, q'.exitQuantity);
    AmountOfAverage(q.entryNotional, q.entryQuantity);
    Split(q'.exitQuantity, q.OpenQuantity() - closing, AveragePrice(q.entryNotional, q.entryQuantity));
  }

  /** What the dropped units of all the fills were worth on one side. */
  function TotalLoss(fills: seq<Fill>, side: Side): real {
    if fills == [] then 0.0
    else
      var n := |fills| - 1;
      TotalLoss(fills[..n], side) + Loss(Run(fills[..n]).position, fills[n], side)
  }

  /** Every amount bought (or sold) sits in a closed trade, in the open position, or in a dropped residue. */
  lemma {:induction false} Ledger(fills: seq<Fill>, side: Side)
    ensures Notional(fills, side)
              == Legs(Run(fills).trades, side) + Carried(Run(fills).position, side) + TotalLoss(fills, side)
  {
    if fills == [] {
    } else {
      hide Absorb, Loss, Worth, Leg;
      var n := |fills| - 1;
      var before := Run(fills[..n]);
      Ledger(fills[..n], side);
      LedgerStep(before.position, fills[n], side);
      LegsAppend(before.trades, Absorb(before.position, fills[n], fills[n].qty).trades, side);
    }
  }

  /** With whole lots both ledgers are exact. */
  lemma {:induction false} LotsLoseNothing(fills: seq<Fill>, lot: real, side: Side)
    requires WholeLots(fills, lot)
    ensures TotalLoss(fills, side) == 0.0
  {
    if fills == [] {
    } else {
      hide Absorb, Dropped, LossPrice;
      var n := |fills| - 1;
      var before := Run(fills[..n]).position;
      LotsLoseNothing(fills[..n], lot, side);
      LotsExact(fills[..n], lot);
      LotsStep(before, fills[n], lot);
    }
  }

  // ---------------------------------------------------------------- money: the drift in general

  predicate PricedIn(fills: seq<Fill>, top: real) {
    forall f | f in fills :: 0.0 <= f.price <= top
  }

  predicate Fair(p: Option<Position>, top: real) {
    p.Some? ==> 0.0 <= p.value.entryNotional <= Amount(p.value.entryQuantity, top)
  }

  lemma FairStep(p: Option<Position>, fill: Fill, top: real)
    requires Held(p) && Fair(p, top) && fill.qty >= 0.0 && 0.0 <= fill.price <= top
    ensures Fair(Absorb(p, fill, fill.qty).position, top)
  {
    hide Amount, ClosePosition;
    AbsorbCases(p, fill);
    hide Absorb;
    if fill.qty > EPSILON {
      Split(0.0, 0.0, top);
      if !Opposite(p, fill) {
        FairExtended(p.GetOr(NewPosition(fill)), fill.qty, fill.price, top);
      } else if fill.qty > p.value.OpenQuantity() + EPSILON {
        FairExtended(NewPosition(fill), fill.qty - p.value.OpenQuantity(), fill.price, top);
      }
    }
  }

  lemma FairExtended(q: Position, qty: real, price: real, top: real)
    requires Fair(Some(q), top) && qty >= 0.0 && 0.0 <= price <= top
    ensures Fair(Some(q.Extend(qty, price)), top)
  {
    hide Amount;
    AmountBound(qty, price, qty, top);
    Split(q.entryQuantity, qty, top);
  }

  lemma LossBound(p: Option<Position>, fill: Fill, side: Side, top: real)
    requires Held(p) && Fair(p, top) && fill.qty >= 0.0 && 0.0 <= fill.price <= top
    ensures 0.0 <= Loss(p, fill, side) <= Amount(EPSILON, top)
  {
    hide Amount, AveragePrice, Absorb, Dropped;
    QuantityStep(p, fill);
    if LossSide(p, fill) != SideOf(fill) {
      AverageBound(p.value.entryNotional, p.value.entryQuantity, top);
    }
    AmountBound(Dropped(p, fill), LossPrice(p, fill), EPSILON, top);
  }

  /** For any non-negative quantities each ledger misses at most one epsilon at the top price per fill. */
  lemma {:induction false} LossDrift(fills: seq<Fill>, side: Side, top: real)
    requires NonNegative(fills) && PricedIn(fills, top)
    ensures Fair(Run(fills).position, top)
    ensures 0.0 <= TotalLoss(fills, side) <= Times(|fills|, Amount(EPSILON, top))
  {
    hide Absorb, Loss, Times, Amount;
    if fills == [] {
      TimesZero(Amount(EPSILON, top));
    } else {
      var n := |fills| - 1;
      var before := Run(fills[..n]).position;
      LossDrift(fills[..n], side, top);
      FairStep(before, fills[n], top);
      LossBound(before, fills[n], side, top);
      TimesNext(n, Amount(EPSILON, top));
    }
  }

  // ---------------------------------------------------------------- money: profit

  function RealisedPnl(trades: seq<MatchedTrade>): real {
    if trades == [] then 0.0 else RealisedPnl(trades[..|trades| - 1]) + trades[|trades| - 1].pnl.GetOr(0.0)
  }

  /** The one trade a fill can close. */
  lemma ClosedTrade(p: Option<Position>, fill: Fill)
    requires Held(p) && Absorb(p, fill, fill.qty).trades != []
    ensures Opposite(p, fill) && fill.qty > EPSILON && fill.qty >= p.value.OpenQuantity() - EPSILON
    ensures var t := Absorb(p, fill, fill.qty).trades[0];
            && t.status == Closed && t.side == p.value.side
            && t.openedAt == p.value.openedAt && t.closedAt == Some(fill.time)
            && t.quantity > 0.0 && t.exitPrice.Some?
            && t.pnl == Some(Leg(t, Short) - Leg(t, Long))
  {
    AbsorbCases(p, fill);
    var q := p.value.Reduce(Min(fill.qty, p.value.OpenQuantity()), fill.price);
    assert Absorb(p, fill, fill.qty).trades == [ClosePosition(q, fill.time)];
    PnlIsLegs(q, fill.time);
  }

  lemma PnlAppend(trades: seq<MatchedTrade>, more: seq<MatchedTrade>)
    requires |more| <= 1
    ensures RealisedPnl(trades + more)
              == RealisedPnl(trades) + if more == [] then 0.0 else more[0].pnl.GetOr(0.0)
  {
    if more == [] {
      assert trades + more == trades;
    } else {
      assert (trades + more)[..|trades|] == trades;
    }
  }

  /** What one fill earns is what its trade sold less what it bought. */
  lemma PnlStep(p: Option<Position>, fill: Fill)
    requires Held(p)
    ensures var more := Absorb(p, fill, fill.qty).trades;
            (if more == [] then 0.0 else more[0].pnl.GetOr(0.0)) == Legs(more, Short) - Legs(more, Long)
  {
    var more := Absorb(p, fill, fill.qty).trades;
    if more == [] {
    } else {
      ClosedTrade(p, fill);
      hide Absorb, Leg;
      assert more[..0] == [];
    }
  }

  lemma {:induction false} PnlOfRun(fills: seq<Fill>)
    ensures RealisedPnl(Run(fills).trades) == Legs(Run(fills).trades, Short) - Legs(Run(fills).trades, Long)
  {
    if fills == [] {
    } else {
      var n := |fills| - 1;
      var before := Run(fills[..n]);
      RunStep(fills);
      hide Run, Absorb, Legs, RealisedPnl;
      var more := Absorb(before.position, fills[n], fills[n].qty).trades;
      PnlOfRun(fills[..n]);
      PnlStep(before.position, fills[n]);
      PnlAppend(before.trades, more);
      LegsAppend(before.trades, more, Short);
      LegsAppend(before.trades, more, Long);
    }
  }

  /** Profit of the closed trades plus what the open position has taken in, against money in less money out. */
  lemma CashOfRun(fills: seq<Fill>)
    ensures var o := Run(fills);
            RealisedPnl(o.trades) + Carried(o.position, Short) - Carried(o.position, Long)
              == Notional(fills, Short) - Notional(fills, Long) - TotalLoss(fills, Short) + TotalLoss(fills, Long)
  {
    Ledger(fills, Short);
    Ledger(fills, Long);
    PnlOfRun(fills);
  }

  // ---------------------------------------------------------------- sorting changes no total

  lemma {:induction false} InsertTotals(sorted: seq<Fill>, fill: Fill, collation: Collation, side: Side)
    requires IsSorted(sorted, collation)
    ensures Net(InsertFill(sorted, fill, collation)) == Net(sorted) + SignedQty(fill)
    ensures Notional(InsertFill(sorted, fill, collation), side) == Notional(sorted, side) + Worth(fill, side)
  {
    hide SignedQty, Worth;
    var n := |sorted|;
    if n == 0 || Before(sorted[n - 1], fill, collation) {
      assert (sorted + [fill])[..n] == sorted;
    } else {
      InsertTotals(sorted[..n - 1], fill, collation, side);
      var front := InsertFill(sorted[..n - 1], fill, collation);
      assert InsertFill(sorted, fill, collation) == front + [sorted[n - 1]];
      assert (front + [sorted[n - 1]])[..|front|] == front;
    }
  }

  lemma {:induction false} SortTotals(fills: seq<Fill>, collation: Collation, side: Side)
    ensures Net(SortFills(fills, collation)) == Net(fills)
    ensures Notional(SortFills(fills, collation), side) == Notional(fills, side)
  {
    if fills == [] {
    } else {
      var n := |fills| - 1;
      SortTotals(fills[..n], collation, side);
      InsertTotals(SortFills(fills[..n], collation), fills[n], collation, side);
    }
  }

  lemma SortElements(fills: seq<Fill>, collation: Collation)
    ensures |SortFills(fills, collation)| == |fills|
    ensures forall f :: f in SortFills(fills, collation) <==> f in fills
  {
    var sorted := SortFills(fills, collation);
    assert |multiset(sorted)| == |multiset(fills)|;
    assert forall f :: f in sorted <==> f in multiset(sorted);
    assert forall f :: f in fills <==> f in multiset(fills);
  }

  lemma SortKeeps(fills: seq<Fill>, collation: Collation, lot: real, top: real)
    ensures |SortFills(fills, collation)| == |fills|
    ensures NonNegative(fills) ==> NonNegative(SortFills(fills, collation))
    ensures PricedIn(fills, top) ==> PricedIn(SortFills(fills, collation), top)
    ensures WholeLots(fills, lot) ==> WholeLots(SortFills(fills, collation), lot)
  {
    SortElements(fills, collation);
    hide SortFills, IsLots;
  }

  // ---------------------------------------------------------------- the theorems about money

  lemma FinishPnl(o: Outcome)
    requires Held(o.position)
    ensures RealisedPnl(Finish(o)) == RealisedPnl(o.trades)
  {
    if Finish(o) != o.trades {
      assert Finish(o)[..|o.trades|] == o.trades;
    }
  }

  lemma MatchedPnl(fills: seq<Fill>, collation: Collation)
    ensures RealisedPnl(Matched(fills, collation)) == RealisedPnl(Run(SortFills(fills, collation)).trades)
  {
    FinishPnl(Run(SortFills(fills, collation)));
  }

  /** Whole lots that net to zero: every trade is closed and the profits are exactly sales less purchases. */
  lemma {:induction false} CashConservation(fills: seq<Fill>, collation: Collation, lot: real)
    requires WholeLots(fills, lot) && Net(fills) == 0.0
    ensures forall t | t in Matched(fills, collation) :: t.status == Closed
    ensures RealisedPnl(Matched(fills, collation)) == Notional(fills, Short) - Notional(fills, Long)
  {
    var sorted := SortFills(fills, collation);
    SortElements(fills, collation);
    SortTotals(fills, collation, Short);
    SortTotals(fills, collation, Long);
    hide SortFills, Notional;
    LotsExact(sorted, lot);
    LotsLoseNothing(sorted, lot, Short);
    LotsLoseNothing(sorted, lot, Long);
    CashOfRun(sorted);
    RunClosed(sorted);
    FinishPnl(Run(sorted));
  }

  /** In general the profits miss the money that changed hands by at most one epsilon at the top price per fill. */
  lemma CashDrift(fills: seq<Fill>, collation: Collation, top: real)
    requires NonNegative(fills) && PricedIn(fills, top)
    ensures var p := Run(SortFills(fills, collation)).position;
            Abs(RealisedPnl(Matched(fills, collation)) + Carried(p, Short) - Carried(p, Long)
                - (Notional(fills, Short) - Notional(fills, Long)))
              <= Times(|fills|, Amount(EPSILON, top))
  {
    hide *;
    var sorted := SortFills(fills, collation);
    SortKeeps(fills, collation, 0.0, top);
    MatchedPnl(fills, collation);
    SortTotals(fills, collation, Short);
    SortTotals(fills, collation, Long);
    DriftOfRun(sorted, top);
  }

  lemma DriftOfRun(fills: seq<Fill>, top: real)
    requires NonNegative(fills) && PricedIn(fills, top)
    ensures var o := Run(fills);
            Abs(RealisedPnl(o.trades) + Carried(o.position, Short) - Carried(o.position, Long)
                - (Notional(fills, Short) - Notional(fills, Long)))
              <= Times(|fills|, Amount(EPSILON, top))
  {
    hide *;
    LossDrift(fills, Short, top);
    LossDrift(fills, Long, top);
    CashOfRun(fills);
    Between(TotalLoss(fills, Short), TotalLoss(fills, Long), Times(|fills|, Amount(EPSILON, top)));
  }

  lemma Between(x: real, y: real, most: real)
    requires 0.0 <= x <= most && 0.0 <= y <= most
    ensures Abs(y - x) <= most
  {
  }

  // ---------------------------------------------------------------- structure

  predicate IsClosed(t: MatchedTrade) {
    t.status == Closed && t.exitPrice.Some? && t.pnl.Some? && t.closedAt.Some? && t.quantity > 0.0
  }

  lemma {:induction false} RunClosed(fills: seq<Fill>)
    ensures forall t | t in Run(fills).trades :: IsClosed(t)
  {
    if fills == [] {
    } else {
      var n := |fills| - 1;
      var before := Run(fills[..n]);
      RunClosed(fills[..n]);
      if Absorb(before.position, fills[n], fills[n].qty).trades != [] {
        ClosedTrade(before.position, fills[n]);
      }
    }
  }

  predicate InTimeOrder(fills: seq<Fill>) {
    forall i, j :: 0 <= i < j < |fills| ==> fills[i].time <= fills[j].time
  }

  /** The trades follow each other in time, and the open position follows them all. */
  ghost predicate Chained(o: Outcome, now: int) {
    && (forall t | t in o.trades :: IsClosed(t) && t.openedAt <= t.closedAt.value <= now)
    && (forall i, j :: 0 <= i < j < |o.trades| ==> o.trades[i].closedAt.value <= o.trades[j].openedAt)
    && (o.position.Some? ==> o.position.value.openedAt <= now)
    && (o.position.Some? ==> forall t | t in o.trades :: t.closedAt.value <= o.position.value.openedAt)
  }

  lemma OpenedAtCases(p: Option<Position>, fill: Fill)
    requires Held(p)
    ensures var o := Absorb(p, fill, fill.qty);
            && (o.position.Some? ==>
                  o.position.value.openedAt == if p.Some? && o.trades == [] then p.value.openedAt else fill.time)
            && (o.trades == [] && p.Some? ==> o.position.Some?)
  {
    AbsorbCases(p, fill);
  }

  lemma ChainStep(before: Outcome, last: int, now: Outcome, fill: Fill)
    requires Chained(before, last) && last <= fill.time
    requires |now.trades| <= 1
    requires now.trades != [] ==> before.position.Some? && IsClosed(now.trades[0])
    requires now.trades != [] ==> now.trades[0].openedAt == before.position.value.openedAt
    requires now.trades != [] ==> now.trades[0].closedAt == Some(fill.time)
    requires now.position.Some? && before.position.Some? && now.trades == [] ==>
               now.position.value.openedAt == before.position.value.openedAt
    requires now.position.Some? && (before.position.None? || now.trades != []) ==>
               now.position.value.openedAt == fill.time
    ensures Chained(Outcome(now.position, before.trades + now.trades), fill.time)
  {
    if now.trades == [] {
      assert before.trades + now.trades == before.trades;
    } else {
      assert now.trades == [now.trades[0]];
    }
  }

  lemma {:induction false} RunChained(fills: seq<Fill>)
    requires InTimeOrder(fills) && fills != []
    ensures Chained(Run(fills), fills[|fills| - 1].time)
  {
    var n := |fills| - 1;
    var fill := fills[n];
    var before := Run(fills[..n]);
    var now := Absorb(before.position, fill, fill.qty);
    RunStep(fills);
    OpenedAtCases(before.position, fill);
    if now.trades != [] {
      ClosedTrade(before.position, fill);
    }
    if n == 0 {
      ChainStep(before, fill.time, now, fill);
    } else {
      hide Absorb, Run, Leg, Chained;
      RunChained(fills[..n]);
      ChainStep(before, fills[n - 1].time, now, fill);
    }
  }

  function OpenCount(p: Option<Position>): nat {
    if p.Some? then 1 else 0
  }

  /** Every trade, closed or open, has a fill of its own that opened it. */
  lemma {:induction false} RunCount(fills: seq<Fill>)
    ensures |Run(fills).trades| + OpenCount(Run(fills).position) <= |fills|
  {
    if fills == [] {
    } else {
      var n := |fills| - 1;
      RunCount(fills[..n]);
      RunStep(fills);
      AbsorbCases(Run(fills[..n]).position, fills[n]);
      hide Run, Absorb, ClosePosition;
    }
  }

  /** Closed trades with all their fields set and in time order, and only the last one open if one is. */
  predicate Shaped(trades: seq<MatchedTrade>, open: bool) {
    && (forall i | 0 <= i < |trades| ::
          && (trades[i].status == Open <==> (i == |trades| - 1 && open))
          && (trades[i].status == Closed ==>
                IsClosed(trades[i]) && trades[i].openedAt <= trades[i].closedAt.value)
          && (trades[i].status == Open ==> trades[i].quantity > EPSILON && trades[i].closedAt.None?))
    && (forall i, j | 0 <= i < j < |trades| ::
          trades[i].closedAt.Some? && trades[i].closedAt.value <= trades[j].openedAt)
    && (open ==> trades != [])
  }

  /** The shape of every result: never more trades than fills, the open one included, in time order. */
  lemma Structure(fills: seq<Fill>, collation: Collation)
    ensures Shaped(Matched(fills, collation), Run(SortFills(fills, collation)).position.Some?)
    ensures |Matched(fills, collation)| <= |fills|
  {
    var sorted := SortFills(fills, collation);
    SortElements(fills, collation);
    assert InTimeOrder(sorted);
    hide SortFills, Run, RoundsLeft, AveragePrice, InTimeOrder, IsSorted, Chained, Shaped;
    if sorted == [] {
      NothingChained(sorted);
    } else {
      RunChained(sorted);
    }
    RunCount(sorted);
    hide Finish;
    ChainedFinish(Run(sorted), if sorted == [] then 0 else sorted[|sorted| - 1].time);
  }

  lemma NothingChained(fills: seq<Fill>)
    requires fills == []
    ensures Chained(Run(fills), 0)
  {
  }

  lemma ChainedFinish(o: Outcome, now: int)
    requires Held(o.position) && Chained(o, now)
    ensures Shaped(Finish(o), o.position.Some?)
    ensures |Finish(o)| == |o.trades| + OpenCount(o.position)
  {
    var trades := Finish(o);
    assert forall i | 0 <= i < |o.trades| :: trades[i] == o.trades[i] && trades[i] in o.trades;
  }

  /** The signed quantity of the trade that is still open in a result. */
  function OpenUnits(trades: seq<MatchedTrade>): real {
    if trades == [] || trades[|trades| - 1].status == Closed then 0.0
    else if trades[|trades| - 1].side == Long then trades[|trades| - 1].quantity
    else -trades[|trades| - 1].quantity
  }

  lemma OpenUnitsOfRun(fills: seq<Fill>)
    ensures OpenUnits(Finish(Run(fills))) == SignedOpen(Run(fills).position)
  {
    RunClosed(fills);
    var o := Run(fills);
    hide Run, AveragePrice;
    if o.position.None? && o.trades != [] {
      assert o.trades[|o.trades| - 1] in o.trades;
    }
  }

  lemma OpenUnitsOfMatched(fills: seq<Fill>, collation: Collation)
    ensures OpenUnits(Matched(fills, collation)) == SignedOpen(Run(SortFills(fills, collation)).position)
  {
    OpenUnitsOfRun(SortFills(fills, collation));
  }

  /** The quantity reported open is the units bought less those sold, to within one epsilon per fill. */
  lemma OpenQuantityDrift(fills: seq<Fill>, collation: Collation)
    requires NonNegative(fills)
    ensures Abs(Net(fills) - OpenUnits(Matched(fills, collation))) <= Times(|fills|, EPSILON)
  {
    hide *;
    var sorted := SortFills(fills, collation);
    SortKeeps(fills, collation, 0.0, 0.0);
    SortTotals(fills, collation, Long);
    OpenUnitsOfMatched(fills, collation);
    QuantityDrift(sorted);
  }

  /** With whole lots it is exactly the units bought less those sold. */
  lemma OpenQuantityExact(fills: seq<Fill>, collation: Collation, lot: real)
    requires WholeLots(fills, lot)
    ensures OpenUnits(Matched(fills, collation)) == Net(fills)
  {
    hide *;
    var sorted := SortFills(fills, collation);
    SortKeeps(fills, collation, lot, 0.0);
    SortTotals(fills, collation, Long);
    OpenUnitsOfMatched(fills, collation);
    LotsExact(sorted, lot);
  }

  // ---------------------------------------------------------------- an independent reading of whole lots

  /** What the fills say a closed trade must be. */
  datatype Ending = Ending(
    side: Side, openedAt: int, closedAt: int, quantity: real, entryPrice: real, exitPrice: real, pnl: real)

  predicate SameSign(a: real, b: real) {
    (a > 0.0 && b > 0.0) || (a < 0.0 && b < 0.0)
  }

  /** When the running total last left zero or changed sign. */
  function LeftZeroAt(fills: seq<Fill>): int {
    if fills == [] then 0
    else
      var n := |fills| - 1;
      if SameSign(Net(fills[..n]), Net(fills)) then LeftZeroAt(fills[..n]) else fills[n].time
  }

  /** Units that have moved the running total away from zero since then. */
  function EntryUnits(fills: seq<Fill>): real {
    if fills == [] then 0.0
    else
      var n := |fills| - 1;
      if !SameSign(Net(fills[..n]), Net(fills)) then Abs(Net(fills))
      else EntryUnits(fills[..n]) + if SameSign(Net(fills), SignedQty(fills[n])) then fills[n].qty else 0.0
  }

  /** What those units were worth. */
  function EntryCost(fills: seq<Fill>): real {
    if fills == [] then 0.0
    else
      var n := |fills| - 1;
      if !SameSign(Net(fills[..n]), Net(fills)) then Amount(Abs(Net(fills)), fills[n].price)
      else EntryCost(fills[..n])
           + if SameSign(Net(fills), SignedQty(fills[n])) then Amount(fills[n].qty, fills[n].price) else 0.0
  }

  function EntryPrice(fills: seq<Fill>): real {
    if EntryUnits(fills) > 0.0 then AveragePrice(EntryCost(fills), EntryUnits(fills)) else 0.0
  }

  /** What the units that have moved it back towards zero since then were worth. */
  function ExitCost(fills: seq<Fill>): real {
    if fills == [] then 0.0
    else
      var n := |fills| - 1;
      if !SameSign(Net(fills[..n]), Net(fills)) then 0.0
      else ExitCost(fills[..n])
           + if SameSign(Net(fills), -SignedQty(fills[n])) then Amount(fills[n].qty, fills[n].price) else 0.0
  }

  /** A trade that `fill` ends: everything entered since the last zero goes out, the rest of it at the fill's price. */
  function EndingAt(earlier: seq<Fill>, fill: Fill): Ending {
    var side := if Net(earlier) > 0.0 then Long else Short;
    var proceeds := ExitCost(earlier) + Amount(Abs(Net(earlier)), fill.price);
    Ending(side, LeftZeroAt(earlier), fill.time, EntryUnits(earlier), EntryPrice(earlier),
           if EntryUnits(earlier) > 0.0 then AveragePrice(proceeds, EntryUnits(earlier)) else 0.0,
           if side == Long then proceeds - EntryCost(earlier) else EntryCost(earlier) - proceeds)
  }

  /** The moments at which the running total of bought less sold units reaches or crosses zero. */
  function ZeroCrossings(fills: seq<Fill>): seq<Ending> {
    if fills == [] then []
    else
      var n := |fills| - 1;
      var before, after := Net(fills[..n]), Net(fills);
      ZeroCrossings(fills[..n])
      + if before == 0.0 || SameSign(before, after) then [] else [EndingAt(fills[..n], fills[n])]
  }

  function EndingOf(t: MatchedTrade): Ending {
    Ending(t.side, t.openedAt, t.closedAt.GetOr(0), t.quantity, t.entryPrice, t.exitPrice.GetOr(0.0), t.pnl.GetOr(0.0))
  }

  lemma SignOfOpen(p: Option<Position>)
    requires Held(p)
    ensures SignedOpen(p) > 0.0 <==> p.Some? && p.value.side == Long
    ensures SignedOpen(p) < 0.0 <==> p.Some? && p.value.side == Short
  {
  }

  /** The open position as the fills tell it. */
  ghost predicate Tells(p: Option<Position>, fills: seq<Fill>) {
    p.Some? ==>
      && p.value.openedAt == LeftZeroAt(fills)
      && p.value.entryQuantity == EntryUnits(fills)
      && p.value.entryNotional == EntryCost(fills)
      && p.value.exitNotional == ExitCost(fills)
  }

  /** The running total of whole lots before and after the last fill, and the position's view of it. */
  ghost predicate Follows(p: Option<Position>, fills: seq<Fill>)
    requires Held(p) && fills != []
  {
    var n := |fills| - 1;
    && Dropped(p, fills[n]) == 0.0
    && SignedOpen(p) == Net(fills[..n])
    && SignedOpen(Absorb(p, fills[n], fills[n].qty).position) == Net(fills)
    && Tells(p, fills[..n])
  }

  lemma TellsStep(p: Option<Position>, fills: seq<Fill>)
    requires Held(p) && fills != [] && Follows(p, fills)
    ensures Tells(Absorb(p, fills[|fills| - 1], fills[|fills| - 1].qty).position, fills)
  {
    hide Absorb, Dropped, SignedOpen, Net, Amount;
    var fill := fills[|fills| - 1];
    PositionStep(p, fill);
    SignOfOpen(p);
  }

  lemma EndingStep(p: Option<Position>, fills: seq<Fill>)
    requires Held(p) && fills != [] && Follows(p, fills)
    ensures var n := |fills| - 1;
            Endings(Absorb(p, fills[n], fills[n].qty).trades)
              == if Net(fills[..n]) == 0.0 || SameSign(Net(fills[..n]), Net(fills)) then []
                 else [EndingAt(fills[..n], fills[n])]
  {
    hide Absorb, Dropped, SignedOpen, Net, Amount, AveragePrice, Endings;
    CrossingStep(p, fills[|fills| - 1]);
    SignOfOpen(p);
    OpenIsAbs(p);
  }

  /** Fill by fill: the position is as the fills tell, and every trade closed is a zero crossing. */
  lemma {:induction false} RunEndings(fills: seq<Fill>, lot: real)
    requires WholeLots(fills, lot)
    ensures Tells(Run(fills).position, fills)
    ensures Endings(Run(fills).trades) == ZeroCrossings(fills)
  {
    if fills == [] {
    } else {
      var n := |fills| - 1;
      var before := Run(fills[..n]);
      LotsRun(fills, lot);
      RunStep(fills);
      hide Run, Absorb, Dropped, SignedOpen, Net, Endings, WholeLots, Tells, EndingAt;
      RunEndings(fills[..n], lot);
      TellsStep(before.position, fills);
      EndingStep(before.position, fills);
      EndingsAppend(before.trades, Absorb(before.position, fills[n], fills[n].qty).trades);
    }
  }

  lemma OpenIsAbs(p: Option<Position>)
    requires Held(p)
    ensures p.Some? ==> p.value.OpenQuantity() == Abs(SignedOpen(p)) && p.value.entryQuantity > 0.0
  {
  }

  /** A result without the trade that is still open. */
  function ClosedPart(trades: seq<MatchedTrade>): seq<MatchedTrade> {
    if trades != [] && trades[|trades| - 1].status == Open then trades[..|trades| - 1] else trades
  }

  /**
   With whole lots the closed trades are the zero crossings of the running total, one for one and in order,
   with the span, size, both prices and the profit that the fills imply.
   */
  lemma TradesAreZeroCrossings(fills: seq<Fill>, collation: Collation, lot: real)
    requires WholeLots(fills, lot)
    ensures var closed := ClosedPart(Matched(fills, collation));
            && Endings(closed) == ZeroCrossings(SortFills(fills, collation))
            && forall t | t in closed :: IsClosed(t)
  {
    hide Run, SortFills, ZeroCrossings, Endings, WholeLots, AveragePrice;
    var sorted := SortFills(fills, collation);
    SortKeeps(fills, collation, lot, 0.0);
    RunEndings(sorted, lot);
    RunClosed(sorted);
    ClosedOfFinish(Run(sorted));
  }

  lemma ClosedOfFinish(o: Outcome)
    requires Held(o.position) && forall t | t in o.trades :: IsClosed(t)
    ensures ClosedPart(Finish(o)) == o.trades
  {
    hide AveragePrice;
    if o.position.None? && o.trades != [] {
      assert o.trades[|o.trades| - 1] in o.trades;
    }
  }

  lemma LotsRun(fills: seq<Fill>, lot: real)
    requires WholeLots(fills, lot) && fills != []
    ensures var n := |fills| - 1;
            var before := Run(fills[..n]).position;
            && WholeLots(fills[..n], lot)
            && Dropped(before, fills[n]) == 0.0
            && SignedOpen(before) == Net(fills[..n])
            && SignedOpen(Run(fills).position) == Net(fills)
  {
    hide Run, Absorb, Dropped, Net, SignedOpen;
    var n := |fills| - 1;
    LotsExact(fills[..n], lot);
    LotsExact(fills, lot);
    LotsStep(Run(fills[..n]).position, fills[n], lot);
  }

  function Endings(trades: seq<MatchedTrade>): seq<Ending> {
    seq(|trades|, i requires 0 <= i < |trades| => EndingOf(trades[i]))
  }

  lemma EndingsAppend(a: seq<MatchedTrade>, b: seq<MatchedTrade>)
    ensures Endings(a + b) == Endings(a) + Endings(b)
  {
  }

  /** What a position that is sold out to the last unit turns into. */
  function Closing(q: Position, fill: Fill): Ending
    requires q.entryQuantity > 0.0
  {
    var proceeds := q.exitNotional + Amount(q.OpenQuantity(), fill.price);
    Ending(q.side, q.openedAt, fill.time, q.entryQuantity, AveragePrice(q.entryNotional, q.entryQuantity),
           AveragePrice(proceeds, q.entryQuantity),
           if q.side == Long then proceeds - q.entryNotional else q.entryNotional - proceeds)
  }

  lemma ClosingIs(q: Position, fill: Fill)
    requires q.entryQuantity > 0.0 && q.side != SideOf(fill)
    ensures EndingOf(ClosePosition(q.Reduce(q.OpenQuantity(), fill.price), fill.time)) == Closing(q, fill)
  {
    hide Amount, AveragePrice;
    var q' := q.Reduce(q.OpenQuantity(), fill.price);
    PnlIsLegs(q', fill.time);
    AmountOfAverage(q'.entryNotional, q.entryQuantity);
    AmountOfAverage(q'.exitNotional, q.entryQuantity);
  }

  /** A fill ends a trade exactly when it takes the open units to zero or to the other sign. */
  lemma CrossingStep(p: Option<Position>, fill: Fill)
    requires Held(p) && Dropped(p, fill) == 0.0
    ensures var o := Absorb(p, fill, fill.qty);
            var before, after := SignedOpen(p), SignedOpen(o.position);
            Endings(o.trades)
              == if before == 0.0 || SameSign(before, after) then [] else [Closing(p.value, fill)]
  {
    var o := Absorb(p, fill, fill.qty);
    SignOfOpen(p);
    SignOfOpen(o.position);
    AbsorbCases(p, fill);
    hide Absorb, Amount, AveragePrice, ClosePosition, EndingOf, Closing;
    if Opposite(p, fill) {
      ClosingIs(p.value, fill);
    }
  }

  /** What one fill does to a position that stays open, and what a new one starts with. */
  lemma PositionStep(p: Option<Position>, fill: Fill)
    requires Held(p) && Dropped(p, fill) == 0.0
    ensures var after := Absorb(p, fill, fill.qty).position;
            var open := SignedOpen(after);
            after.Some? ==>
              if SameSign(SignedOpen(p), open) then
                && after.value.openedAt == p.value.openedAt
                && after.value.entryQuantity
                     == p.value.entryQuantity + (if SameSign(open, SignedQty(fill)) then fill.qty else 0.0)
                && after.value.entryNotional
                     == p.value.entryNotional
                        + (if SameSign(open, SignedQty(fill)) then Amount(fill.qty, fill.price) else 0.0)
                && after.value.exitNotional
                     == p.value.exitNotional
                        + (if SameSign(open, -SignedQty(fill)) then Amount(fill.qty, fill.price) else 0.0)
              else
                && after.value.openedAt == fill.time
                && after.value.entryQuantity == Abs(open)
                && after.value.entryNotional == Amount(Abs(open), fill.price)
                && after.value.exitNotional == 0.0
  {
    var o := Absorb(p, fill, fill.qty);
    SignOfOpen(p);
    SignOfOpen(o.position);
    AbsorbCases(p, fill);
    hide Absorb, Amount, AveragePrice, ClosePosition;
  }

  /** The trade left open is sized and priced by the fills since the running total last left zero. */
  lemma OpenTradeOfLots(fills: seq<Fill>, collation: Collation, lot: real)
    requires WholeLots(fills, lot) && Net(fills) != 0.0
    ensures var sorted := SortFills(fills, collation);
            var trades := Matched(fills, collation);
            && trades != []
            && trades[|trades| - 1]
                 == MatchedTrade(if Net(fills) > 0.0 then Long else Short, EntryPrice(sorted), None, Abs(Net(fills)),
                                 None, Open, LeftZeroAt(sorted), None)
  {
    hide Run, SortFills, Net, EntryUnits, EntryCost, ExitCost, LeftZeroAt, AveragePrice, WholeLots, ZeroCrossings,
      Endings;
    var sorted := SortFills(fills, collation);
    SortKeeps(fills, collation, lot, 0.0);
    SortTotals(fills, collation, Long);
    LotsExact(sorted, lot);
    RunEndings(sorted, lot);
    SignOfOpen(Run(sorted).position);
  }

  // ---------------------------------------------------------------- one and two fills, in plain numbers

  lemma RunOfOne(a: Fill)
    ensures Run([a]) == Absorb(None, a, a.qty)
  {
    hide Absorb;
    assert [a][..0] == [];
    assert [] + Absorb(None, a, a.qty).trades == Absorb(None, a, a.qty).trades;
  }

  lemma RunOfTwo(a: Fill, b: Fill)
    ensures var first := Absorb(None, a, a.qty);
            var second := Absorb(first.position, b, b.qty);
            Run([a, b]) == Outcome(second.position, first.trades + second.trades)
  {
    hide Absorb;
    RunOfOne(a);
    assert [a, b][..1] == [a];
    RunStep([a, b]);
  }

  /** A fill alone is ignored up to 1e-12 units, and otherwise left open at its own price, quantity and time. */
  lemma SingleFill(fill: Fill, collation: Collation)
    ensures Matched([fill], collation)
              == if fill.qty <= 0.000000000001 then [] else [LeftOpen(fill)]
  {
    assert SortFills([fill], collation) == [fill] by { assert [fill][..0] == []; }
    RunOfOne(fill);
    AbsorbCases(None, fill);
    hide SortFills, Run, Absorb;
    if fill.qty > EPSILON {
      OpenOfOne(fill, []);
    }
  }

  /** The open trade of a single fill. */
  function LeftOpen(fill: Fill): MatchedTrade {
    MatchedTrade(if fill.isBuyer then Long else Short, fill.price, None, fill.qty, None, Open, fill.time, None)
  }

  function Opened(fill: Fill): Position {
    NewPosition(fill).Extend(fill.qty, fill.price)
  }

  /** What a single fill leaves open. */
  lemma OpenOfOne(fill: Fill, trades: seq<MatchedTrade>)
    requires fill.qty > EPSILON
    ensures Finish(Outcome(Some(Opened(fill)), trades))
              == trades + [LeftOpen(fill)]
  {
    hide AveragePrice, Amount;
    AverageOfAmount(fill.qty, fill.price);
  }

  lemma AverageOfAmount(qty: real, price: real)
    requires qty > 0.0
    ensures AveragePrice(0.0 + Amount(qty, price), 0.0 + qty) == price
  {
    Divided(qty * price, qty, price);
  }

  /** The first is earlier, or of the same time with an id that sorts first. */
  predicate Precedes(a: Fill, b: Fill, collation: Collation) {
    a.time < b.time || (a.time == b.time && collation(a.id) < collation(b.id))
  }

  /** Of two fills the earlier one goes first, and of two at one time the one with the lesser id. */
  lemma LesserIdFirst(a: Fill, b: Fill, collation: Collation)
    requires Precedes(a, b, collation)
    ensures SortFills([a, b], collation) == SortFills([b, a], collation) == [a, b]
    ensures var first := Absorb(None, a, a.qty);
            var second := Absorb(first.position, b, b.qty);
            Matched([a, b], collation) == Matched([b, a], collation)
              == Finish(Outcome(second.position, first.trades + second.trades))
    ensures Matched([a, b], collation) == Finish(Run([a, b]))
  {
    hide Absorb, Finish;
    SortedTwo(a, b, [a, b], collation);
    SortedTwo(a, b, [b, a], collation);
    RunOfTwo(a, b);
  }

  lemma SortedTwo(a: Fill, b: Fill, fills: seq<Fill>, collation: Collation)
    requires Precedes(a, b, collation) && (fills == [a, b] || fills == [b, a])
    ensures SortFills(fills, collation) == [a, b]
  {
    SortOrder(fills, collation);
    var sorted := SortFills(fills, collation);
    hide SortFills;
    assert multiset(fills) == multiset{a, b};
    assert |sorted| == |multiset(sorted)| == 2;
    assert sorted[0] in multiset(sorted) && sorted[1] in multiset(sorted);
    assert sorted == [sorted[0], sorted[1]];
    assert multiset(sorted) == multiset{sorted[0], sorted[1]};
  }

  /** The order of the sorted fills: by time, and among equal times by the sort key of the id. */
  lemma SortOrder(fills: seq<Fill>, collation: Collation)
    ensures var sorted := SortFills(fills, collation);
            && multiset(sorted) == multiset(fills)
            && forall i, j | 0 <= i < j < |sorted| ::
                 sorted[i].time < sorted[j].time
                 || (sorted[i].time == sorted[j].time && collation(sorted[i].id) <= collation(sorted[j].id))
  {
    hide SortFills;
  }

  /** The trade that buying and selling again (or the other way about) comes to. */
  function RoundTripTrade(a: Fill, b: Fill): MatchedTrade {
    MatchedTrade(if a.isBuyer then Long else Short, a.price, Some(b.price), a.qty,
                 Some(if a.isBuyer then Gain(a.qty, a.price, b.price) else Gain(a.qty, b.price, a.price)),
                 Closed, a.time, Some(b.time))
  }

  /** What is gained on units bought at one price and sold at another. */
  function Gain(qty: real, buyPrice: real, sellPrice: real): real {
    qty * (sellPrice - buyPrice)
  }

  lemma RoundTripCloses(a: Fill, b: Fill)
    requires a.isBuyer != b.isBuyer && a.qty == b.qty > EPSILON
    ensures ClosePosition(Opened(a).Reduce(b.qty, b.price), b.time) == RoundTripTrade(a, b)
  {
    hide AveragePrice, Amount;
    AverageOfAmount(a.qty, a.price);
    AverageOfAmount(b.qty, b.price);
    var p := Opened(a).Reduce(b.qty, b.price);
    var t := ClosePosition(p, b.time);
    assert p.exitQuantity == a.qty && t.entryPrice == a.price && t.exitPrice == Some(b.price);
    hide Gain;
    GainIsAmount(a.qty, a.price, b.price);
    GainIsAmount(a.qty, b.price, a.price);
  }

  lemma GainIsAmount(qty: real, buyPrice: real, sellPrice: real)
    ensures Gain(qty, buyPrice, sellPrice) == Amount(qty, sellPrice - buyPrice)
  {
  }

  lemma RoundTripRun(a: Fill, b: Fill)
    requires a.isBuyer != b.isBuyer && a.qty == b.qty > EPSILON
    ensures Run([a, b]) == Outcome(None, [RoundTripTrade(a, b)])
  {
    RunOfTwo(a, b);
    AbsorbCases(None, a);
    var p := Opened(a);
    AbsorbCases(Some(p), b);
    RoundTripCloses(a, b);
    hide Absorb, Run, Amount, AveragePrice, ClosePosition, RoundTripTrade;
    assert Absorb(None, a, a.qty) == Outcome(Some(p), []);
    assert Absorb(Some(p), b, b.qty) == Outcome(None, [RoundTripTrade(a, b)]);
  }

  /** Bought and sold again, in whatever order the fills arrive: one closed trade, in plain numbers. */
  lemma RoundTrip(a: Fill, b: Fill, collation: Collation)
    requires Precedes(a, b, collation) && a.isBuyer != b.isBuyer && a.qty == b.qty > EPSILON
    ensures Matched([a, b], collation) == Matched([b, a], collation)
              == [RoundTripTrade(a, b)]
  {
    LesserIdFirst(a, b, collation);
    RoundTripRun(a, b);
    FinishNothing([RoundTripTrade(a, b)]);
    hide *;
  }

  lemma FinishNothing(trades: seq<MatchedTrade>)
    ensures Finish(Outcome(None, trades)) == trades
  {
  }

  /**
   A market order that sweeps the book against a position: of its two fills at one time the one with the lesser id
   closes the position, and the other one opens the next.
   */
  lemma Sweep(held: Fill, a: Fill, b: Fill, collation: Collation)
    requires Precedes(held, a, collation) && Precedes(a, b, collation) && a.time == b.time
    requires a.isBuyer == b.isBuyer != held.isBuyer && held.qty == a.qty > EPSILON && b.qty > EPSILON
    ensures Matched([b, held, a], collation)
              == [RoundTripTrade(held, a), LeftOpen(b)]
  {
    hide *;
    SweepSorted(held, a, b, collation);
    SweepRun(held, a, b);
    OpenOfOne(b, [RoundTripTrade(held, a)]);
    MatchedBy([b, held, a], [held, a, b], collation);
    assert [RoundTripTrade(held, a)] + [LeftOpen(b)] == [RoundTripTrade(held, a), LeftOpen(b)];
  }

  lemma MatchedBy(fills: seq<Fill>, sorted: seq<Fill>, collation: Collation)
    requires SortFills(fills, collation) == sorted
    ensures Matched(fills, collation) == Finish(Run(sorted))
  {
  }

  lemma SweepRun(held: Fill, a: Fill, b: Fill)
    requires a.isBuyer != held.isBuyer && held.qty == a.qty > EPSILON && b.qty > EPSILON
    ensures Run([held, a, b]) == Outcome(Some(Opened(b)), [RoundTripTrade(held, a)])
  {
    RoundTripRun(held, a);
    AbsorbCases(None, b);
    assert [held, a, b][..2] == [held, a];
    RunStep([held, a, b]);
    hide Absorb, Run, RoundTripTrade, Opened;
    assert Absorb(None, b, b.qty) == Outcome(Some(Extended(None, b)), []);
    assert Extended(None, b) == Opened(b) by { OpenedIs(b); }
  }

  lemma OpenedIs(fill: Fill)
    ensures Extended(None, fill) == Opened(fill)
  {
  }

  lemma SweepSorted(held: Fill, a: Fill, b: Fill, collation: Collation)
    requires Precedes(held, a, collation) && Precedes(a, b, collation)
    ensures SortFills([b, held, a], collation) == [held, a, b]
  {
    ThreeInOrder(held, a, b, collation);
    hide SortFills, IsSorted, TieFree, Precedes;
    assert multiset([b, held, a]) == multiset([held, a, b]);
    SortedUnique([held, a, b], SortFills([b, held, a], collation), collation);
  }

  lemma ThreeInOrder(a: Fill, b: Fill, c: Fill, collation: Collation)
    requires Precedes(a, b, collation) && Precedes(b, c, collation)
    ensures IsSorted([a, b, c], collation) && TieFree([a, b, c], collation)
  {
    assert forall x | x in [a, b, c] :: x == a || x == b || x == c;
  }

  // ---------------------------------------------------------------- order

  /** Fills with the same (time, id) key are the same fill. */
  ghost predicate TieFree(fills: seq<Fill>, collation: Collation) {
    forall a, b | a in fills && b in fills :: Tied(a, b, collation) ==> a == b
  }

  lemma {:induction false} SortedUnique(a: seq<Fill>, b: seq<Fill>, collation: Collation)
    requires IsSorted(a, collation) && IsSorted(b, collation)
    requires multiset(a) == multiset(b) && TieFree(a, collation)
    ensures a == b
  {
    assert |a| == |multiset(a)| == |multiset(b)| == |b|;
    if a == [] {
    } else {
      var n := |a| - 1;
      SameLast(a, b, collation);
      WithoutLast(a);
      WithoutLast(b);
      assert IsSorted(a[..n], collation) && IsSorted(b[..n], collation);
      assert TieFree(a[..n], collation);
      hide IsSorted, TieFree;
      SortedUnique(a[..n], b[..n], collation);
    }
  }

  lemma WithoutLast(a: seq<Fill>)
    requires a != []
    ensures a == a[..|a| - 1] + [a[|a| - 1]]
    ensures multiset(a[..|a| - 1]) == multiset(a) - multiset{a[|a| - 1]}
  {
    assert a == a[..|a| - 1] + [a[|a| - 1]];
  }

  lemma SameLast(a: seq<Fill>, b: seq<Fill>, collation: Collation)
    requires IsSorted(a, collation) && IsSorted(b, collation)
    requires |a| == |b| > 0 && multiset(a) == multiset(b) && TieFree(a, collation)
    ensures a[|a| - 1] == b[|a| - 1]
  {
    var n := |a| - 1;
    assert a[n] in multiset(b) && b[n] in multiset(a);
    var i :| 0 <= i <= n && b[i] == a[n];
    var j :| 0 <= j <= n && a[j] == b[n];
    assert Before(a[j], a[n], collation) && Before(b[i], b[n], collation);
    assert Tied(a[n], b[n], collation);
  }

  /** With distinct keys the order in which the fills arrive does not matter. */
  lemma OrderIndependence(fills: seq<Fill>, permuted: seq<Fill>, collation: Collation)
    requires multiset(fills) == multiset(permuted) && TieFree(fills, collation)
    ensures Matched(fills, collation) == Matched(permuted, collation)
  {
    SortElements(fills, collation);
    SortedUnique(SortFills(fills, collation), SortFills(permuted, collation), collation);
  }

  /** The fills with the key of `x`, in their order. */
  function TiedWith(fills: seq<Fill>, x: Fill, collation: Collation): seq<Fill> {
    if fills == [] then []
    else
      var n := |fills| - 1;
      TiedWith(fills[..n], x, collation) + if Tied(fills[n], x, collation) then [fills[n]] else []
  }

  lemma TiedWithAppend(fills: seq<Fill>, fill: Fill, x: Fill, collation: Collation)
    ensures Tied(fill, x, collation) ==>
              TiedWith(fills + [fill], x, collation) == TiedWith(fills, x, collation) + [fill]
    ensures !Tied(fill, x, collation) ==> TiedWith(fills + [fill], x, collation) == TiedWith(fills, x, collation)
  {
    assert (fills + [fill])[..|fills|] == fills;
  }

  lemma {:induction false} InsertStable(sorted: seq<Fill>, fill: Fill, x: Fill, collation: Collation)
    requires IsSorted(sorted, collation)
    ensures TiedWith(InsertFill(sorted, fill, collation), x, collation) == TiedWith(sorted + [fill], x, collation)
  {
    var n := |sorted|;
    if n == 0 || Before(sorted[n - 1], fill, collation) {
    } else {
      var last, rest := sorted[n - 1], sorted[..n - 1];
      var front := InsertFill(rest, fill, collation);
      assert InsertFill(sorted, fill, collation) == front + [last];
      assert !(Tied(last, x, collation) && Tied(fill, x, collation));
      assert sorted == rest + [last];
      hide InsertFill, IsSorted, Before, Tied, TiedWith;
      InsertStable(rest, fill, x, collation);
      TiedWithAppend(front, last, x, collation);
      TiedWithAppend(rest, fill, x, collation);
      TiedWithAppend(rest, last, x, collation);
      TiedWithAppend(sorted, fill, x, collation);
    }
  }

  lemma SortNext(fills: seq<Fill>, fill: Fill, collation: Collation)
    ensures SortFills(fills + [fill], collation) == InsertFill(SortFills(fills, collation), fill, collation)
  {
    assert (fills + [fill])[..|fills|] == fills;
  }

  /** Sorting keeps tied fills in the order of their arrival. */
  lemma {:induction false} SortStable(fills: seq<Fill>, x: Fill, collation: Collation)
    ensures TiedWith(SortFills(fills, collation), x, collation) == TiedWith(fills, x, collation)
  {
    if fills == [] {
    } else {
      hide SortFills, InsertFill, Tied, TiedWith;
      var rest, fill := fills[..|fills| - 1], fills[|fills| - 1];
      assert fills == rest + [fill];
      SortStable(rest, x, collation);
      SortNext(rest, fill, collation);
      InsertStable(SortFills(rest, collation), fill, x, collation);
      TiedWithAppend(SortFills(rest, collation), fill, x, collation);
      TiedWithAppend(rest, fill, x, collation);
    }
  }

  lemma {:induction false} TiedMembers(fills: seq<Fill>, x: Fill, collation: Collation)
    ensures forall f :: f in TiedWith(fills, x, collation) <==> f in fills && Tied(f, x, collation)
  {
    if fills == [] {
    } else {
      var n := |fills| - 1;
      TiedMembers(fills[..n], x, collation);
      assert fills == fills[..n] + [fills[n]];
    }
  }

  ghost predicate SameTies(a: seq<Fill>, b: seq<Fill>, collation: Collation) {
    forall x :: TiedWith(a, x, collation) == TiedWith(b, x, collation)
  }

  /** The last of a sorted series is no earlier than the last of another one with the same ties. */
  lemma LastNotBefore(a: seq<Fill>, b: seq<Fill>, collation: Collation)
    requires a != [] && IsSorted(b, collation) && SameTies(a, b, collation)
    ensures b != [] && Before(a[|a| - 1], b[|b| - 1], collation)
  {
    var x := a[|a| - 1];
    TiedMembers(a, x, collation);
    TiedMembers(b, x, collation);
    assert x in TiedWith(b, x, collation);
    var i :| 0 <= i < |b| && b[i] == x;
  }

  lemma TiedWithLast(a: seq<Fill>, x: Fill, collation: Collation)
    requires a != []
    ensures var n := |a| - 1;
            TiedWith(a, x, collation)
              == TiedWith(a[..n], x, collation) + if Tied(a[n], x, collation) then [a[n]] else []
  {
  }

  /** Sorted series are the same when every tied group is. */
  lemma {:induction false} StableUnique(a: seq<Fill>, b: seq<Fill>, collation: Collation)
    requires IsSorted(a, collation) && IsSorted(b, collation) && SameTies(a, b, collation)
    ensures a == b
  {
    if a == [] {
      if b != [] {
        LastNotBefore(b, a, collation);
      }
    } else {
      LastNotBefore(a, b, collation);
      LastNotBefore(b, a, collation);
      var n, m := |a| - 1, |b| - 1;
      assert Tied(a[n], b[m], collation) && Tied(b[m], b[m], collation);
      TiedWithLast(a, b[m], collation);
      TiedWithLast(b, b[m], collation);
      LastOf(TiedWith(a[..n], b[m], collation), a[n], TiedWith(b[..m], b[m], collation), b[m]);
      forall x
        ensures TiedWith(a[..n], x, collation) == TiedWith(b[..m], x, collation)
      {
        TiedWithLast(a, x, collation);
        TiedWithLast(b, x, collation);
        var before, before' := TiedWith(a[..n], x, collation), TiedWith(b[..m], x, collation);
        assert TiedWith(a, x, collation) == TiedWith(b, x, collation);
        if Tied(a[n], x, collation) {
          LastOf(before, a[n], before', b[m]);
        } else {
          assert before + [] == before && before' + [] == before';
        }
      }
      assert IsSorted(a[..n], collation) && IsSorted(b[..m], collation);
      hide IsSorted, TiedWith, Tied;
      StableUnique(a[..n], b[..m], collation);
      assert a == a[..n] + [a[n]] && b == b[..m] + [b[m]];
    }
  }

  lemma LastOf(a: seq<Fill>, x: Fill, b: seq<Fill>, y: Fill)
    requires a + [x] == b + [y]
    ensures x == y && a == b
  {
    assert (a + [x])[|a|] == x && (b + [y])[|b|] == y;
    assert (a + [x])[..|a|] == a && (b + [y])[..|b|] == b;
  }

  /** Two arrivals of fills sort alike exactly when the fills of every key arrive alike. */
  lemma SortsAlike(a: seq<Fill>, b: seq<Fill>, collation: Collation)
    ensures SortFills(a, collation) == SortFills(b, collation) <==> SameTies(a, b, collation)
  {
    var sa, sb := SortFills(a, collation), SortFills(b, collation);
    forall x
      ensures TiedWith(sa, x, collation) == TiedWith(a, x, collation)
      ensures TiedWith(sb, x, collation) == TiedWith(b, x, collation)
    {
      SortStable(a, x, collation);
      SortStable(b, x, collation);
    }
    hide SortFills, IsSorted, TiedWith;
    if SameTies(a, b, collation) {
      assert SameTies(sa, sb, collation);
      StableUnique(sa, sb, collation);
    } else {
      assert sa == sb ==> SameTies(a, b, collation);
    }
  }

  /** Two fills of one exchange match, which share its price and id: which of them arrives first matters. */
  lemma TiesCanMatter(collation: Collation)
    ensures var buy := Fill("a", "BTCUSDT", 100.0, 1.0, true, 1);
            var sell := Fill("a", "BTCUSDT", 100.0, 1.0, false, 1);
            Matched([buy, sell], collation) != Matched([sell, buy], collation)
  {
    var buy := Fill("a", "BTCUSDT", 100.0, 1.0, true, 1);
    var sell := Fill("a", "BTCUSDT", 100.0, 1.0, false, 1);
    TwoTied(buy, sell, collation);
    TwoTied(sell, buy, collation);
  }

  lemma TwoTied(a: Fill, b: Fill, collation: Collation)
    requires Tied(a, b, collation) && a.qty == b.qty == 1.0 && a.isBuyer != b.isBuyer
    ensures Matched([a, b], collation) != [] && Matched([a, b], collation)[0].side == SideOf(a)
  {
    assert [a, b][..1] == [a] && [a][..0] == [];
    assert SortFills([a], collation) == [a];
    assert SortFills([a, b], collation) == [a, b];
    assert Run([a]).position == Some(NewPosition(a).Extend(1.0, a.price)) by { AbsorbCases(None, a); }
    AbsorbCases(Run([a]).position, b);
    assert Run([a, b]).trades != [];
    ClosedTrade(Run([a]).position, b);
  }
}
