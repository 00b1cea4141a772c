/**
 Weighted-average position accounting: a stream of fills becomes round-trip trades.
 `MatchFillsToTrades` is the loop; `Absorb`, `Run` and `Matched` are the functions it is proved
 against, and `TradeMatcherLaws` says what those functions mean for money and quantity.
 */
module TradeMatcher {
  import opened Options

  const EPSILON: real := 0.000000000001

  datatype Side = Long | Short
  datatype Status = Open | Closed

  datatype Fill = Fill(id: string, symbol: string, price: real, qty: real, isBuyer: bool, time: int)

  datatype MatchedTrade = MatchedTrade(
    side: Side,
    entryPrice: real,
    exitPrice: Option<real>,
    quantity: real,
    pnl: Option<real>,
    status: Status,
    openedAt: int,
    closedAt: Option<int>)

  /** What `qty` units are worth at `price`. */
  function Amount(qty: real, price: real): real {
    qty * price
  }

  function AveragePrice(notional: real, quantity: real): real
    requires quantity > 0.0
  {
    notional / quantity
  }

  /** The value of an open position at one moment. */
  datatype Position = Position(
    side: Side,
    entryNotional: real,
    entryQuantity: real,
    exitNotional: real,
    exitQuantity: real,
    openedAt: int)
  {
    function OpenQuantity(): real {
      entryQuantity - exitQuantity
    }

    function Extend(qty: real, price: real): Position {
      this.(entryNotional := entryNotional + Amount(qty, price), entryQuantity := entryQuantity + qty)
    }

    function Reduce(qty: real, price: real): (r: Position)
      ensures r.OpenQuantity() == OpenQuantity() - qty && r.exitQuantity == exitQuantity + qty
    {
      this.(exitNotional := exitNotional + Amount(qty, price), exitQuantity := exitQuantity + qty)
    }
  }

  // ---------------------------------------------------------------- sorting

  /** `localeCompare` is a total preorder on strings, given here by the sort key it compares. */
  type Collation = string -> real

  predicate Before(a: Fill, b: Fill, collation: Collation) {
    a.time < b.time || (a.time == b.time && collation(a.id) <= collation(b.id))
  }

  predicate Tied(a: Fill, b: Fill, collation: Collation) {
    a.time == b.time && collation(a.id) == collation(b.id)
  }

  predicate IsSorted(fills: seq<Fill>, collation: Collation) {
    forall i, j :: 0 <= i < j < |fills| ==> Before(fills[i], fills[j], collation)
  }

  /** Puts `fill` behind every fill that does not have to follow it. */
  function InsertFill(sorted: seq<Fill>, fill: Fill, collation: Collation): (r: seq<Fill>)
    requires IsSorted(sorted, collation)
    ensures IsSorted(r, collation)
    ensures multiset(r) == multiset(sorted) + multiset{fill}
  {
    var n := |sorted|;
    if n == 0 || Before(sorted[n - 1], fill, collation) then
      sorted + [fill]
    else
      var front := InsertFill(sorted[..n - 1], fill, collation);
      assert sorted == sorted[..n - 1] + [sorted[n - 1]];
      AllBefore(front, sorted[..n - 1], fill, sorted[n - 1], collation);
      SortedAppend(front, sorted[n - 1], collation);
      hide IsSorted, Before;
      front + [sorted[n - 1]]
  }

  lemma SortedAppend(front: seq<Fill>, last: Fill, collation: Collation)
    requires IsSorted(front, collation) && forall x :: x in front ==> Before(x, last, collation)
    ensures IsSorted(front + [last], collation)
  {
  }

  lemma AllBefore(front: seq<Fill>, rest: seq<Fill>, fill: Fill, last: Fill, collation: Collation)
    requires multiset(front) == multiset(rest) + multiset{fill}
    requires Before(fill, last, collation)
    requires forall x :: x in rest ==> Before(x, last, collation)
    ensures forall x :: x in front ==> Before(x, last, collation)
  {
    forall x | x in front
      ensures Before(x, last, collation)
    {
      assert x in multiset(front);
    }
  }

  /** The stable sort by (time, id) that the fills go through first. */
  function SortFills(fills: seq<Fill>, collation: Collation): (r: seq<Fill>)
    ensures IsSorted(r, collation)
    ensures multiset(r) == multiset(fills)
  {
    if fills == [] then
      []
    else
      var n := |fills| - 1;
      assert fills == fills[..n] + [fills[n]];
      InsertFill(SortFills(fills[..n], collation), fills[n], collation)
  }

  // ---------------------------------------------------------------- one fill

  /** What holds of the position between two fills. */
  predicate Held(p: Option<Position>) {
    p.Some? ==> p.value.OpenQuantity() > EPSILON && p.value.exitQuantity >= 0.0
  }

  function SideOf(fill: Fill): Side {
    if fill.isBuyer then Long else Short
  }

  function NewPosition(fill: Fill): Position {
    Position(SideOf(fill), 0.0, 0.0, 0.0, 0.0, fill.time)
  }

  function ClosePosition(p: Position, closedAt: int): MatchedTrade
    requires p.entryQuantity > 0.0 && p.exitQuantity > 0.0
  {
    var entryPrice := AveragePrice(p.entryNotional, p.entryQuantity);
    var exitPrice := AveragePrice(p.exitNotional, p.exitQuantity);
    var pnl := Amount(p.exitQuantity, if p.side == Long then exitPrice - entryPrice else entryPrice - exitPrice);
    MatchedTrade(p.side, entryPrice, Some(exitPrice), p.exitQuantity, Some(pnl), Closed, p.openedAt, Some(closedAt))
  }

  /** How many rounds the matching loop still needs for what remains of a fill: never more than two. */
  function RoundsLeft(p: Option<Position>, fill: Fill, remaining: real): (rounds: nat)
    ensures rounds <= 2
    ensures remaining > EPSILON <==> rounds > 0
  {
    if remaining <= EPSILON then 0
    else if p.None? || p.value.side == SideOf(fill) then 1
    else 2
  }

  datatype Round = Round(position: Option<Position>, remaining: real, trades: seq<MatchedTrade>)

  /** One round of the matching loop. */
  function Match(p: Option<Position>, fill: Fill, remaining: real): (r: Round)
    requires Held(p) && remaining > EPSILON
    ensures Held(r.position)
    ensures |r.trades| == 1 ==> r.position.None?
    ensures RoundsLeft(p, fill, remaining) == 1 ==> r.trades == []
    ensures RoundsLeft(r.position, fill, r.remaining) < RoundsLeft(p, fill, remaining)
  {
    var q := if p.None? then NewPosition(fill) else p.value;
    if q.side == SideOf(fill) then
      Round(Some(q.Extend(remaining, fill.price)), 0.0, [])
    else
      var closing := Min(remaining, q.OpenQuantity());
      var q' := q.Reduce(closing, fill.price);
      if q'.OpenQuantity() <= EPSILON
      then Round(None, remaining - closing, [ClosePosition(q', fill.time)])
      else Round(Some(q'), remaining - closing, [])
  }

  datatype Outcome = Outcome(position: Option<Position>, trades: seq<MatchedTrade>)

  /** The position and the newly closed trades once `remaining` units of `fill` are dealt with. */
  function Absorb(p: Option<Position>, fill: Fill, remaining: real): (r: Outcome)
    requires Held(p)
    ensures Held(r.position)
    ensures |r.trades| <= 1
    ensures RoundsLeft(p, fill, remaining) <= 1 ==> r.trades == []
    decreases RoundsLeft(p, fill, remaining)
  {
    if remaining <= EPSILON then
      Outcome(p, [])
    else
      var round := Match(p, fill, remaining);
      var rest := Absorb(round.position, fill, round.remaining);
      Outcome(rest.position, round.trades + rest.trades)
  }

  // ---------------------------------------------------------------- all fills

  /** The state after the fills in the order given. */
  function Run(fills: seq<Fill>): (r: Outcome)
    ensures Held(r.position)
    ensures |r.trades| <= |fills|
  {
    if fills == [] then
      Outcome(None, [])
    else
      var n := |fills| - 1;
      var before := Run(fills[..n]);
      var now := Absorb(before.position, fills[n], fills[n].qty);
      Outcome(now.position, before.trades + now.trades)
  }

  function OpenTrade(p: Position): MatchedTrade
    requires p.entryQuantity > 0.0
  {
    MatchedTrade(p.side, AveragePrice(p.entryNotional, p.entryQuantity), None,
                 p.OpenQuantity(), None, Open, p.openedAt, None)
  }

  function Finish(o: Outcome): seq<MatchedTrade>
    requires Held(o.position)
  {
    if o.position.Some? && o.position.value.OpenQuantity() > EPSILON
    then o.trades + [OpenTrade(o.position.value)]
    else o.trades
  }

  function Matched(fills: seq<Fill>, collation: Collation): seq<MatchedTrade> {
    Finish(Run(SortFills(fills, collation)))
  }

  // ---------------------------------------------------------------- the loop

  /** The open position as the loop holds it: one object, updated in place. */
  class OpenPosition {
    const side: Side
    const openedAt: int
    var entryNotional: real
    var entryQuantity: real
    var exitNotional: real
    var exitQuantity: real

    constructor (side: Side, openedAt: int)
      ensures Value() == Position(side, 0.0, 0.0, 0.0, 0.0, openedAt)
    {
      this.side, this.openedAt := side, openedAt;
      entryNotional, entryQuantity, exitNotional, exitQuantity := 0.0, 0.0, 0.0, 0.0;
    }

    function Value(): Position
      reads this
    {
      Position(side, entryNotional, entryQuantity, exitNotional, exitQuantity, openedAt)
    }

    method Extend(qty: real, price: real)
      modifies this
      ensures Value() == old(Value()).Extend(qty, price)
    {
      entryNotional := entryNotional + Amount(qty, price);
      entryQuantity := entryQuantity + qty;
    }

    method Reduce(qty: real, price: real)
      modifies this
      ensures Value() == old(Value()).Reduce(qty, price)
    {
      exitNotional := exitNotional + Amount(qty, price);
      exitQuantity := exitQuantity + qty;
    }
  }

  ghost function ValueOf(p: OpenPosition?): Option<Position>
    reads p
  {
    if p == null then None else Some(p.Value())
  }

  /** An outcome with the trades that were closed before it. */
  function Following(closed: seq<MatchedTrade>, o: Outcome): Outcome {
    Outcome(o.position, closed + o.trades)
  }

  lemma FollowingNothing(o: Outcome)
    ensures Following([], o) == o
  {
  }

  lemma AbsorbNext(closed: seq<MatchedTrade>, p: Option<Position>, fill: Fill, remaining: real)
    requires Held(p) && remaining > EPSILON
    ensures var round := Match(p, fill, remaining);
            Following(closed, Absorb(p, fill, remaining))
              == Following(closed + round.trades, Absorb(round.position, fill, round.remaining))
  {
    hide Match;
    var round := Match(p, fill, remaining);
    var rest := Absorb(round.position, fill, round.remaining).trades;
    assert closed + (round.trades + rest) == (closed + round.trades) + rest;
  }

  lemma AbsorbNothing(closed: seq<MatchedTrade>, p: Option<Position>, fill: Fill, remaining: real)
    requires Held(p) && remaining <= EPSILON
    ensures Following(closed, Absorb(p, fill, remaining)) == Outcome(p, closed)
  {
  }

  /** The matching loop for one fill. */
  method MatchFill(position: OpenPosition?, fill: Fill) returns (after: OpenPosition?, closed: seq<MatchedTrade>)
    requires Held(ValueOf(position))
    modifies position
    ensures after == null || after == position || fresh(after)
    ensures Outcome(ValueOf(after), closed) == Absorb(old(ValueOf(position)), fill, fill.qty)
  {
    hide RoundsLeft, ClosePosition, Position.Extend, Position.Reduce, Absorb, Following;
    after, closed := position, [];
    var remainingQty := fill.qty;
    FollowingNothing(Absorb(ValueOf(position), fill, fill.qty));
    while remainingQty > EPSILON
      invariant after == null || after == position || fresh(after)
      invariant Held(ValueOf(after))
      invariant Absorb(old(ValueOf(position)), fill, fill.qty)
             == Following(closed, Absorb(ValueOf(after), fill, remainingQty))
      decreases RoundsLeft(ValueOf(after), fill, remainingQty)
    {
      ghost var round := Match(ValueOf(after), fill, remainingQty);
      AbsorbNext(closed, ValueOf(after), fill, remainingQty);
      if after == null {
        after := new OpenPosition(SideOf(fill), fill.time);
      }
      if after.side == SideOf(fill) {
        after.Extend(remainingQty, fill.price);
        remainingQty := 0.0;
        assert closed + round.trades == closed;
        assert Round(ValueOf(after), remainingQty, []) == round;
        continue;
      }
      var closingQty := Min(remainingQty, after.entryQuantity - after.exitQuantity);
      after.Reduce(closingQty, fill.price);
      remainingQty := remainingQty - closingQty;
      if after.entryQuantity - after.exitQuantity <= EPSILON {
        closed := closed + [ClosePosition(after.Value(), fill.time)];
        after := null;
      } else {
        assert closed + round.trades == closed;
      }
    }
    AbsorbNothing(closed, ValueOf(after), fill, remainingQty);
  }

  method MatchFillsToTrades(fills: seq<Fill>, collation: Collation) returns (trades: seq<MatchedTrade>)
    ensures trades == Matched(fills, collation)
  {
    hide Absorb, SortFills, OpenTrade;
    var sorted := SortFills(fills, collation);
    trades := [];
    var position: OpenPosition? := null;
    for i := 0 to |sorted|
      invariant position != null ==> fresh(position)
      invariant Outcome(ValueOf(position), trades) == Run(sorted[..i])
    {
      assert sorted[..i + 1][..i] == sorted[..i];
      var closed;
      position, closed := MatchFill(position, sorted[i]);
      trades := trades + closed;
    }
    assert sorted[..|sorted|] == sorted;
    if position != null && position.entryQuantity - position.exitQuantity > EPSILON {
      trades := trades + [OpenTrade(position.Value())];
    }
  }
}
