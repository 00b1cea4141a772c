/**
 Stripe webhooks: deliveries may be repeated, may fail and be retried, and update one table of
 subscriptions. `BillingService` holds the rows; `Deliver` and `Run` say what deliveries do to them.
 Each delivery is one atomic step.
 */
module Billing {
  import opened Options

  datatype Plan = Free | Standard | Premium
  datatype Status = Active | Trialing | PastDue | Canceled | Incomplete

  datatype Subscription = Subscription(
    plan: Plan,
    status: Status,
    stripeCustomerId: Option<string>,
    stripeSubscriptionId: Option<string>,
    stripePriceId: Option<string>,
    currentPeriodEnd: Option<int>,
    cancelAtPeriodEnd: bool)

  /** The database keeps customer and subscription ids unique among the rows that have one. */
  predicate UniqueIds(rows: map<string, Subscription>) {
    && (forall u, v | u in rows && v in rows ::
          rows[u].stripeCustomerId.Some? && rows[u].stripeCustomerId == rows[v].stripeCustomerId ==> u == v)
    && (forall u, v | u in rows && v in rows ::
          rows[u].stripeSubscriptionId.Some? && rows[u].stripeSubscriptionId == rows[v].stripeSubscriptionId ==> u == v)
  }

  /** The rows by user id, of which each user has at most one. */
  type Table = rows: map<string, Subscription> | UniqueIds(rows) witness map[]

  datatype CheckoutSession = CheckoutSession(
    clientReferenceId: Option<string>,
    metadataUserId: Option<string>,
    metadataPlan: Option<string>,
    customer: Option<string>,
    subscription: Option<string>)

  datatype StripeSubscription = StripeSubscription(
    id: string,
    customer: string,
    priceId: Option<string>,
    status: string,
    currentPeriodEnd: int,
    cancelAtPeriodEnd: bool)

  datatype Payload =
    | CheckoutCompleted(session: CheckoutSession)
    | SubscriptionUpdated(subscription: StripeSubscription)
    | SubscriptionDeleted(subscription: StripeSubscription)
    | OtherEvent

  datatype Event = Event(id: string, payload: Payload)

  /** `recordable` says whether the write of the processed id, should it come to that, succeeds. */
  datatype Delivery = Delivery(event: Event, recordable: bool)

  /** The two configured price ids. */
  datatype Prices = Prices(standard: Option<string>, premium: Option<string>)

  // ---------------------------------------------------------------- small mappings

  /** Neither missing nor empty. */
  predicate Truthy(s: Option<string>) {
    s.Some? && s.value != ""
  }

  function ParsePlan(value: Option<string>): Option<Plan> {
    if value == Some("STANDARD") then Some(Standard)
    else if value == Some("PREMIUM") then Some(Premium)
    else None
  }

  function ResolvePlanFromPriceId(prices: Prices, priceId: Option<string>): Option<Plan> {
    if !Truthy(priceId) then None
    else if priceId == prices.standard then Some(Standard)
    else if priceId == prices.premium then Some(Premium)
    else None
  }

  function MapStripeStatus(status: string): Status {
    if status == "active" then Active
    else if status == "trialing" then Trialing
    else if status == "past_due" || status == "unpaid" then PastDue
    else if status == "canceled" || status == "incomplete_expired" then Canceled
    else Incomplete
  }

  function EffectivePlan(row: Option<Subscription>, now: int): Plan {
    if row.None? then Free
    else
      var s := row.value;
      var isLapsed := (s.status == Canceled || s.status == PastDue)
                      && (s.currentPeriodEnd.None? || s.currentPeriodEnd.value < now);
      if isLapsed then Free else s.plan
  }

  // ---------------------------------------------------------------- the table

  function FindByCustomer(rows: Table, customer: string): (user: Option<string>)
    ensures user.Some? ==> user.value in rows && rows[user.value].stripeCustomerId == Some(customer)
    ensures user.None? ==> forall u | u in rows :: rows[u].stripeCustomerId != Some(customer)
  {
    if exists u | u in rows :: rows[u].stripeCustomerId == Some(customer) then
      var u :| u in rows && rows[u].stripeCustomerId == Some(customer);
      Some(u)
    else None
  }

  function FindBySubscription(rows: Table, id: string): (user: Option<string>)
    ensures user.Some? ==> user.value in rows && rows[user.value].stripeSubscriptionId == Some(id)
    ensures user.None? ==> forall u | u in rows :: rows[u].stripeSubscriptionId != Some(id)
  {
    if exists u | u in rows :: rows[u].stripeSubscriptionId == Some(id) then
      var u :| u in rows && rows[u].stripeSubscriptionId == Some(id);
      Some(u)
    else None
  }

  /** An update fails, changing nothing, when there is no such row or it would repeat another row's Stripe id. */
  function Update(rows: Table, user: string, row: Subscription): (r: Option<Table>)
    ensures r.Some? ==> user in rows && r.value == rows[user := row]
  {
    if user in rows && UniqueIds(rows[user := row]) then Some(rows[user := row]) else None
  }

  // ---------------------------------------------------------------- the handlers

  function CheckoutUser(session: CheckoutSession): Option<string> {
    if session.clientReferenceId.Some? then session.clientReferenceId else session.metadataUserId
  }

  function AfterCheckout(rows: Table, session: CheckoutSession): Option<Table> {
    var user := CheckoutUser(session);
    if !Truthy(user) || !Truthy(session.customer) || !Truthy(session.subscription) then Some(rows)
    else if user.value !in rows then None
    else
      Update(rows, user.value, rows[user.value].(
        plan := ParsePlan(session.metadataPlan).GetOr(Standard),
        status := Active,
        stripeCustomerId := session.customer,
        stripeSubscriptionId := session.subscription))
  }

  /** The row after an update event; a missing price id leaves the stored one. */
  function Updated(row: Subscription, subscription: StripeSubscription, prices: Prices): Subscription {
    row.(plan := ResolvePlanFromPriceId(prices, subscription.priceId).GetOr(row.plan),
         status := MapStripeStatus(subscription.status),
         currentPeriodEnd := Some(subscription.currentPeriodEnd * 1000),
         cancelAtPeriodEnd := subscription.cancelAtPeriodEnd,
         stripeSubscriptionId := Some(subscription.id),
         stripePriceId := if subscription.priceId.Some? then subscription.priceId else row.stripePriceId)
  }

  function AfterUpdated(rows: Table, subscription: StripeSubscription, prices: Prices): Option<Table> {
    var user := FindByCustomer(rows, subscription.customer);
    if user.None? then Some(rows)
    else Update(rows, user.value, Updated(rows[user.value], subscription, prices))
  }

  function AfterDeleted(rows: Table, subscription: StripeSubscription): Option<Table> {
    var user := FindBySubscription(rows, subscription.id);
    if user.None? then Some(rows)
    else Update(rows, user.value, rows[user.value].(plan := Free, status := Canceled, cancelAtPeriodEnd := false))
  }

  /** The rows after a handler ran, or nothing when it threw. */
  function Apply(rows: Table, payload: Payload, prices: Prices): Option<Table> {
    match payload
    case CheckoutCompleted(session) => AfterCheckout(rows, session)
    case SubscriptionUpdated(subscription) => AfterUpdated(rows, subscription, prices)
    case SubscriptionDeleted(subscription) => AfterDeleted(rows, subscription)
    case OtherEvent => Some(rows)
  }

  // ---------------------------------------------------------------- deliveries

  datatype State = State(rows: Table, processed: set<string>)

  /** The last two fail the request: nothing happened, or the rows are written but the event is not recorded. */
  datatype Outcome = Skipped | Processed | Failed | Unrecorded

  function OutcomeOf(s: State, delivery: Delivery, prices: Prices): Outcome {
    if delivery.event.id in s.processed then Skipped
    else if Apply(s.rows, delivery.event.payload, prices).None? then Failed
    else if delivery.recordable then Processed
    else Unrecorded
  }

  /** Unless the event is recorded, the next delivery tries again. */
  function Deliver(s: State, delivery: Delivery, prices: Prices): State {
    var outcome := OutcomeOf(s, delivery, prices);
    if outcome == Skipped || outcome == Failed then s
    else
      var rows := Apply(s.rows, delivery.event.payload, prices).value;
      State(rows, if outcome == Processed then s.processed + {delivery.event.id} else s.processed)
  }

  function Run(s: State, deliveries: seq<Delivery>, prices: Prices): State {
    if deliveries == [] then s
    else Deliver(Run(s, deliveries[..|deliveries| - 1], prices), deliveries[|deliveries| - 1], prices)
  }

  // ---------------------------------------------------------------- the service

  class BillingService {
    const prices: Prices
    var subscriptions: Table
    var processed: set<string>

    constructor (prices: Prices)
      ensures this.prices == prices && subscriptions == map[] && processed == {}
    {
      this.prices := prices;
      subscriptions, processed := map[], {};
    }

    /** A new user's row; it fails, changing nothing, when the user has one. */
    method CreateFreeSubscription(user: string) returns (ok: bool)
      modifies this`subscriptions
      ensures ok <==> user !in old(subscriptions)
      ensures !ok ==> subscriptions == old(subscriptions)
      ensures ok ==> subscriptions.Keys == old(subscriptions).Keys + {user}
      ensures ok ==> subscriptions[user] == Subscription(Free, Active, None, None, None, None, false)
      ensures ok ==> forall v | v in old(subscriptions) :: subscriptions[v] == old(subscriptions)[v]
    {
      ok := user !in subscriptions;
      if ok {
        subscriptions := subscriptions[user := Subscription(Free, Active, None, None, None, None, false)];
      }
    }

    /** The row writes; false stands for the exception a failed write raises. */
    method UpdateRow(user: string, row: Subscription) returns (ok: bool)
      modifies this`subscriptions
      ensures ok == Update(old(subscriptions), user, row).Some?
      ensures subscriptions == Update(old(subscriptions), user, row).GetOr(old(subscriptions))
    {
      var after := Update(subscriptions, user, row);
      ok := after.Some?;
      if ok {
        subscriptions := after.value;
      }
    }

    method HandleCheckoutCompleted(session: CheckoutSession) returns (ok: bool)
      modifies this`subscriptions
      ensures ok == AfterCheckout(old(subscriptions), session).Some?
      ensures subscriptions == AfterCheckout(old(subscriptions), session).GetOr(old(subscriptions))
    {
      var userId := if session.clientReferenceId.Some? then session.clientReferenceId else session.metadataUserId;
      if !Truthy(userId) {
        return true;
      }
      if !Truthy(session.customer) || !Truthy(session.subscription) {
        return true;
      }
      if userId.value !in subscriptions {
        return false;
      }
      var plan := ParsePlan(session.metadataPlan).GetOr(Standard);
      ok := UpdateRow(userId.value, subscriptions[userId.value].(
        plan := plan, status := Active, stripeCustomerId := session.customer,
        stripeSubscriptionId := session.subscription));
    }

    method HandleSubscriptionUpdated(subscription: StripeSubscription) returns (ok: bool)
      modifies this`subscriptions
      ensures ok == AfterUpdated(old(subscriptions), subscription, prices).Some?
      ensures subscriptions == AfterUpdated(old(subscriptions), subscription, prices).GetOr(old(subscriptions))
    {
      var existing := FindByCustomer(subscriptions, subscription.customer);
      if existing.None? {
        return true;
      }
      ok := UpdateRow(existing.value, Updated(subscriptions[existing.value], subscription, prices));
    }

    method HandleSubscriptionDeleted(subscription: StripeSubscription) returns (ok: bool)
      modifies this`subscriptions
      ensures ok == AfterDeleted(old(subscriptions), subscription).Some?
      ensures subscriptions == AfterDeleted(old(subscriptions), subscription).GetOr(old(subscriptions))
    {
      var existing := FindBySubscription(subscriptions, subscription.id);
      if existing.None? {
        return true;
      }
      ok := UpdateRow(existing.value, subscriptions[existing.value].(
        plan := Free, status := Canceled, cancelAtPeriodEnd := false));
    }

    method HandleWebhookEvent(event: Event, recordable: bool) returns (outcome: Outcome)
      modifies this`subscriptions, this`processed
      ensures outcome == OutcomeOf(old(State(subscriptions, processed)), Delivery(event, recordable), prices)
      ensures State(subscriptions, processed)
           == Deliver(old(State(subscriptions, processed)), Delivery(event, recordable), prices)
    {
      if event.id in processed {
        return Skipped;
      }
      var ok := true;
      match event.payload {
        case CheckoutCompleted(session) => ok := HandleCheckoutCompleted(session);
        case SubscriptionUpdated(subscription) => ok := HandleSubscriptionUpdated(subscription);
        case SubscriptionDeleted(subscription) => ok := HandleSubscriptionDeleted(subscription);
        case OtherEvent =>
      }
      if !ok {
        return Failed;
      }
      if !recordable {
        return Unrecorded;
      }
      processed := processed + {event.id};
      return Processed;
    }
  }

  // ---------------------------------------------------------------- handlers are idempotent

  /** The user whose row an event is about. */
  function TargetOf(rows: Table, payload: Payload): (user: Option<string>)
    ensures user.Some? ==> user.value in rows
  {
    match payload
    case CheckoutCompleted(session) =>
      var user := CheckoutUser(session);
      if !Truthy(user) || !Truthy(session.customer) || !Truthy(session.subscription) || user.value !in rows then None
      else user
    case SubscriptionUpdated(subscription) => FindByCustomer(rows, subscription.customer)
    case SubscriptionDeleted(subscription) => FindBySubscription(rows, subscription.id)
    case OtherEvent => None
  }

  /** The row says what the event says; what the event leaves open is not asked of it. */
  predicate Reflects(row: Subscription, payload: Payload, prices: Prices) {
    match payload
    case CheckoutCompleted(session) =>
      && row.plan == ParsePlan(session.metadataPlan).GetOr(Standard) && row.status == Active
      && row.stripeCustomerId == session.customer && row.stripeSubscriptionId == session.subscription
    case SubscriptionUpdated(subscription) =>
      var plan := ResolvePlanFromPriceId(prices, subscription.priceId);
      && (plan.Some? ==> row.plan == plan.value)
      && (subscription.priceId.Some? ==> row.stripePriceId == subscription.priceId)
      && row.status == MapStripeStatus(subscription.status)
      && row.currentPeriodEnd == Some(subscription.currentPeriodEnd * 1000)
      && row.cancelAtPeriodEnd == subscription.cancelAtPeriodEnd
      && row.stripeSubscriptionId == Some(subscription.id)
    case SubscriptionDeleted(_) => row.plan == Free && row.status == Canceled && !row.cancelAtPeriodEnd
    case OtherEvent => true
  }

  /** There is no row the event is about, or that row reflects it. */
  predicate UpToDate(rows: Table, payload: Payload, prices: Prices) {
    var user := TargetOf(rows, payload);
    user.None? || Reflects(rows[user.value], payload, prices)
  }

  /** An event that was handled once changes nothing when handled again later exactly when the rows reflect it then. */
  lemma RepeatHarmless(rows: Table, later: Table, payload: Payload, prices: Prices)
    requires Apply(rows, payload, prices).Some? && rows.Keys <= later.Keys
    ensures Apply(later, payload, prices) == Some(later) <==> UpToDate(later, payload, prices)
  {
    var user := TargetOf(later, payload);
    if user.Some? && Reflects(later[user.value], payload, prices) {
      SameRow(later, user.value);
    }
  }

  /** Right after it was handled they do. */
  lemma HandledIsReflected(rows: Table, payload: Payload, prices: Prices)
    requires Apply(rows, payload, prices).Some?
    ensures UpToDate(Apply(rows, payload, prices).value, payload, prices)
  {
    TargetStays(rows, payload, prices);
  }

  lemma TargetStays(rows: Table, payload: Payload, prices: Prices)
    requires Apply(rows, payload, prices).Some?
    ensures TargetOf(Apply(rows, payload, prices).value, payload) == TargetOf(rows, payload)
  {
    var after := Apply(rows, payload, prices).value;
    match payload
    case CheckoutCompleted(session) =>
    case SubscriptionUpdated(subscription) =>
      var user := FindByCustomer(rows, subscription.customer);
      if user.Some? {
        assert after[user.value].stripeCustomerId == Some(subscription.customer);
        assert FindByCustomer(after, subscription.customer) == user;
      }
    case SubscriptionDeleted(subscription) =>
      var user := FindBySubscription(rows, subscription.id);
      if user.Some? {
        assert after[user.value].stripeSubscriptionId == Some(subscription.id);
        assert FindBySubscription(after, subscription.id) == user;
      }
    case OtherEvent =>
  }

  lemma SameRow(rows: Table, user: string)
    requires user in rows
    ensures Update(rows, user, rows[user]) == Some(rows)
  {
    assert rows[user := rows[user]] == rows;
  }

  /** So running a handler again right after it succeeded changes nothing. */
  lemma HandlerTwice(rows: Table, payload: Payload, prices: Prices)
    requires Apply(rows, payload, prices).Some?
    ensures Apply(Apply(rows, payload, prices).value, payload, prices) == Apply(rows, payload, prices)
  {
    OneRowAtMost(rows, payload, prices);
    HandledIsReflected(rows, payload, prices);
    hide Apply, UpToDate;
    RepeatHarmless(rows, Apply(rows, payload, prices).value, payload, prices);
  }

  /** No event adds or removes a row, and it changes at most one. */
  lemma OneRowAtMost(rows: Table, payload: Payload, prices: Prices)
    requires Apply(rows, payload, prices).Some?
    ensures var after := Apply(rows, payload, prices).value;
            && after.Keys == rows.Keys
            && forall u, v | u in rows && v in rows :: after[u] != rows[u] && after[v] != rows[v] ==> u == v
  {
    hide UniqueIds, Updated;
  }

  /** A completed checkout entitles its user to the plan paid for, STANDARD when none is named, whatever the time. */
  lemma CheckoutEntitles(rows: Table, session: CheckoutSession, prices: Prices, now: int)
    requires Truthy(CheckoutUser(session)) && Truthy(session.customer) && Truthy(session.subscription)
    ensures var user := CheckoutUser(session).value;
            var after := Apply(rows, CheckoutCompleted(session), prices);
            && (after.Some? <==> user in rows && forall v | v in rows && v != user ::
                  rows[v].stripeCustomerId != session.customer && rows[v].stripeSubscriptionId != session.subscription)
            && (after.Some? ==>
                  && EffectivePlan(Some(after.value[user]), now)
                       == (if session.metadataPlan == Some("PREMIUM") then Premium else Standard)
                  && FindByCustomer(after.value, session.customer.value) == Some(user)
                  && FindBySubscription(after.value, session.subscription.value) == Some(user))
  {
    var user := CheckoutUser(session).value;
    if user in rows {
      var row := rows[user].(plan := ParsePlan(session.metadataPlan).GetOr(Standard), status := Active,
        stripeCustomerId := session.customer, stripeSubscriptionId := session.subscription);
      NewIds(rows, user, row);
    }
  }

  /** A row with new ids may be written exactly when no other row has either of them. */
  lemma NewIds(rows: Table, user: string, row: Subscription)
    requires user in rows && row.stripeCustomerId.Some? && row.stripeSubscriptionId.Some?
    ensures UniqueIds(rows[user := row]) <==>
            forall v | v in rows && v != user ::
              && rows[v].stripeCustomerId != row.stripeCustomerId
              && rows[v].stripeSubscriptionId != row.stripeSubscriptionId
  {
    var after := rows[user := row];
    if UniqueIds(after) {
      forall v | v in rows && v != user
        ensures rows[v].stripeCustomerId != row.stripeCustomerId
        ensures rows[v].stripeSubscriptionId != row.stripeSubscriptionId
      {
        assert after[v] == rows[v] && after[user] == row;
      }
    }
  }

  /**
   What a processed update entitles its customer to: the plan of the price, or the old plan when the price is not
   configured; for a cancelled or unpaid subscription only until the period that was paid for ends.
   */
  lemma UpdateEntitles(rows: Table, subscription: StripeSubscription, prices: Prices, user: string, now: int)
    requires user in rows && rows[user].stripeCustomerId == Some(subscription.customer)
    requires Apply(rows, SubscriptionUpdated(subscription), prices).Some?
    ensures var row := Apply(rows, SubscriptionUpdated(subscription), prices).value[user];
            var lapses := subscription.status in {"canceled", "incomplete_expired", "past_due", "unpaid"};
            EffectivePlan(Some(row), now)
              == if lapses && now > subscription.currentPeriodEnd * 1000 then Free
                 else ResolvePlanFromPriceId(prices, subscription.priceId).GetOr(rows[user].plan)
  {
    assert FindByCustomer(rows, subscription.customer) == Some(user);
  }

  /** A processed cancellation leaves its subscription's owner on the free plan, whatever the time. */
  lemma DeletedIsFree(rows: Table, subscription: StripeSubscription, prices: Prices, user: string, now: int)
    requires user in rows && rows[user].stripeSubscriptionId == Some(subscription.id)
    ensures var after := Apply(rows, SubscriptionDeleted(subscription), prices);
            after.Some? && user in after.value && EffectivePlan(Some(after.value[user]), now) == Free
  {
    assert FindBySubscription(rows, subscription.id) == Some(user);
    var row := rows[user].(plan := Free, status := Canceled, cancelAtPeriodEnd := false);
    SameIdsUnique(rows, user, row);
  }

  lemma SameIdsUnique(rows: Table, user: string, row: Subscription)
    requires user in rows
    requires row.stripeCustomerId == rows[user].stripeCustomerId
    requires row.stripeSubscriptionId == rows[user].stripeSubscriptionId
    ensures UniqueIds(rows[user := row])
  {
  }

  // ---------------------------------------------------------------- what each event writes

  /** Which names of a status mean which status; every other name means INCOMPLETE. */
  lemma StatusNames(status: string)
    ensures MapStripeStatus(status) == Active <==> status == "active"
    ensures MapStripeStatus(status) == Trialing <==> status == "trialing"
    ensures MapStripeStatus(status) == PastDue <==> status in {"past_due", "unpaid"}
    ensures MapStripeStatus(status) == Canceled <==> status in {"canceled", "incomplete_expired"}
    ensures MapStripeStatus(status) == Incomplete <==>
            status !in {"active", "trialing", "past_due", "unpaid", "canceled", "incomplete_expired"}
  {
    var six := ["active", "trialing", "past_due", "unpaid", "canceled", "incomplete_expired"];
    assert |six[0]| == 6 && |six[1]| == 8 && |six[2]| == 8 && |six[3]| == 6 && |six[4]| == 8 && |six[5]| == 18;
    assert six[0][0] == 'a' && six[1][0] == 't' && six[2][0] == 'p' && six[3][0] == 'u' && six[4][0] == 'c';
  }

  /** A price means a plan when it is one of the two configured ones; the standard one is asked first. */
  lemma PlanOfPrice(prices: Prices, priceId: Option<string>)
    ensures ResolvePlanFromPriceId(prices, priceId) == Some(Standard) <==>
            priceId.Some? && priceId.value != "" && prices.standard == priceId
    ensures ResolvePlanFromPriceId(prices, priceId) == Some(Premium) <==>
            priceId.Some? && priceId.value != "" && prices.standard != priceId && prices.premium == priceId
    ensures ResolvePlanFromPriceId(prices, priceId) != Some(Free)
  {
  }

  /** The plan counts until the period ends, and for an active subscription, or one on trial, for good. */
  lemma EffectivePlanIs(row: Option<Subscription>, now: int)
    ensures row.None? ==> EffectivePlan(row, now) == Free
    ensures row.Some? && row.value.status in {Active, Trialing, Incomplete} ==>
              EffectivePlan(row, now) == row.value.plan
    ensures row.Some? && row.value.status in {Canceled, PastDue} ==>
              var end := row.value.currentPeriodEnd;
              EffectivePlan(row, now) == if end.Some? && now <= end.value then row.value.plan else Free
  {
  }

  /** Two users may have rows unless they share a customer or a subscription; having none is not sharing. */
  lemma TwoRows(u: string, v: string, a: Subscription, b: Subscription)
    requires u != v
    ensures UniqueIds(map[u := a, v := b]) <==>
            (a.stripeCustomerId.None? || a.stripeCustomerId != b.stripeCustomerId)
            && (a.stripeSubscriptionId.None? || a.stripeSubscriptionId != b.stripeSubscriptionId)
  {
    var rows := map[u := a, v := b];
    assert rows[u] == a && rows[v] == b;
  }

  /** All rows but one are as they were. */
  predicate OthersSame(rows: Table, after: Table, user: string) {
    after.Keys == rows.Keys && forall v | v in rows && v != user :: after[v] == rows[v]
  }

  /** A checkout without a user, a customer or a subscription is passed over. */
  lemma CheckoutIgnored(rows: Table, session: CheckoutSession, prices: Prices)
    requires var user := if session.clientReferenceId.Some? then session.clientReferenceId else session.metadataUserId;
             || user in {None, Some("")}
             || session.customer in {None, Some("")}
             || session.subscription in {None, Some("")}
    ensures Apply(rows, CheckoutCompleted(session), prices) == Some(rows)
  {
  }

  /** Any other checkout fails without the user's row or with ids of another row, and else writes these four fields. */
  lemma CheckoutWrites(rows: Table, session: CheckoutSession, prices: Prices, user: string)
    requires Some(user) == if session.clientReferenceId.Some? then session.clientReferenceId else session.metadataUserId
    requires user != "" && session.customer !in {None, Some("")} && session.subscription !in {None, Some("")}
    ensures var after := Apply(rows, CheckoutCompleted(session), prices);
            && (after.Some? <==> user in rows && forall v | v in rows && v != user ::
                  rows[v].stripeCustomerId != session.customer && rows[v].stripeSubscriptionId != session.subscription)
            && (after.Some? ==>
                  && user in after.value && OthersSame(rows, after.value, user)
                  && after.value[user]
                       == Subscription(if session.metadataPlan == Some("PREMIUM") then Premium else Standard, Active,
                                       session.customer, session.subscription, rows[user].stripePriceId,
                                       rows[user].currentPeriodEnd, rows[user].cancelAtPeriodEnd))
  {
    CheckoutEntitles(rows, session, prices, 0);
    if user in rows {
      assert "PREMIUM" != "STANDARD" by { assert "PREMIUM"[0] != "STANDARD"[0]; }
    }
  }

  /** An update of a customer without a row is passed over. */
  lemma UpdateIgnored(rows: Table, subscription: StripeSubscription, prices: Prices)
    requires forall u | u in rows :: rows[u].stripeCustomerId != Some(subscription.customer)
    ensures Apply(rows, SubscriptionUpdated(subscription), prices) == Some(rows)
  {
  }

  /** Any other update fails if another row has the subscription, and else writes these six fields. */
  lemma UpdateWrites(rows: Table, subscription: StripeSubscription, prices: Prices, user: string)
    requires user in rows && rows[user].stripeCustomerId == Some(subscription.customer)
    ensures var after := Apply(rows, SubscriptionUpdated(subscription), prices);
            var plan := ResolvePlanFromPriceId(prices, subscription.priceId);
            && (after.Some? <==> forall v | v in rows && v != user ::
                  rows[v].stripeSubscriptionId != Some(subscription.id))
            && (after.Some? ==>
                  && user in after.value && OthersSame(rows, after.value, user)
                  && after.value[user]
                       == Subscription(if plan.Some? then plan.value else rows[user].plan,
                                       MapStripeStatus(subscription.status),
                                       rows[user].stripeCustomerId, Some(subscription.id),
                                       if subscription.priceId.Some? then subscription.priceId
                                       else rows[user].stripePriceId,
                                       Some(subscription.currentPeriodEnd * 1000), subscription.cancelAtPeriodEnd))
  {
    assert FindByCustomer(rows, subscription.customer) == Some(user);
    NewIds(rows, user, Updated(rows[user], subscription, prices));
  }

  /** The end of a subscription that no row has is passed over. */
  lemma DeletionIgnored(rows: Table, subscription: StripeSubscription, prices: Prices)
    requires forall u | u in rows :: rows[u].stripeSubscriptionId != Some(subscription.id)
    ensures Apply(rows, SubscriptionDeleted(subscription), prices) == Some(rows)
  {
  }

  /** Any other leaves its owner's row cancelled on the free plan, with all ids and dates. */
  lemma DeletionWrites(rows: Table, subscription: StripeSubscription, prices: Prices, user: string)
    requires user in rows && rows[user].stripeSubscriptionId == Some(subscription.id)
    ensures var after := Apply(rows, SubscriptionDeleted(subscription), prices);
            && after.Some? && user in after.value && OthersSame(rows, after.value, user)
            && after.value[user]
                 == Subscription(Free, Canceled, rows[user].stripeCustomerId, rows[user].stripeSubscriptionId,
                                 rows[user].stripePriceId, rows[user].currentPeriodEnd, false)
  {
    DeletedIsFree(rows, subscription, prices, user, 0);
    assert FindBySubscription(rows, subscription.id) == Some(user);
  }

  /** Events of other types are recorded, and nothing else. */
  lemma OtherEventIgnored(rows: Table, prices: Prices)
    ensures Apply(rows, OtherEvent, prices) == Some(rows)
  {
  }

  /** What a delivery comes to: nothing when the id is known or the handler throws, and else its writes and record. */
  lemma DeliveryWrites(s: State, delivery: Delivery, prices: Prices)
    ensures var after := Deliver(s, delivery, prices);
            var rows := Apply(s.rows, delivery.event.payload, prices);
            && (delivery.event.id in s.processed || rows.None? ==> after == s)
            && (delivery.event.id !in s.processed && rows.Some? ==>
                  && after.rows == rows.value
                  && (delivery.recordable ==> after.processed == s.processed + {delivery.event.id})
                  && (!delivery.recordable ==> after.processed == s.processed))
  {
    hide Apply;
  }

  // ---------------------------------------------------------------- whole runs

  lemma {:induction false} RunAppend(s: State, a: seq<Delivery>, b: seq<Delivery>, prices: Prices)
    ensures Run(s, a + b, prices) == Run(Run(s, a, prices), b, prices)
  {
    hide Deliver;
    if b == [] {
      assert a + b == a;
    } else {
      var n := |b| - 1;
      assert (a + b)[..|a + b| - 1] == a + b[..n];
      RunAppend(s, a, b[..n], prices);
    }
  }

  lemma {:induction false} ProcessedStays(s: State, deliveries: seq<Delivery>, prices: Prices)
    ensures s.processed <= Run(s, deliveries, prices).processed
  {
    if deliveries == [] {
    } else {
      ProcessedStays(s, deliveries[..|deliveries| - 1], prices);
    }
  }

  /** The outcome of the delivery at position `i`. */
  function OutcomeAt(s: State, deliveries: seq<Delivery>, i: nat, prices: Prices): Outcome
    requires i < |deliveries|
  {
    OutcomeOf(Run(s, deliveries[..i], prices), deliveries[i], prices)
  }

  /** After its first successful delivery an event id is skipped for good. */
  lemma SkippedAfterSuccess(s: State, deliveries: seq<Delivery>, i: nat, j: nat, prices: Prices)
    requires i < j < |deliveries| && deliveries[i].event.id == deliveries[j].event.id
    requires OutcomeAt(s, deliveries, i, prices) == Processed
    ensures OutcomeAt(s, deliveries, j, prices) == Skipped
  {
    var middle := deliveries[i + 1..j];
    assert deliveries[..i + 1][..i] == deliveries[..i];
    assert deliveries[..j] == deliveries[..i + 1] + middle;
    RunAppend(s, deliveries[..i + 1], middle, prices);
    ProcessedStays(Run(s, deliveries[..i + 1], prices), middle, prices);
  }

  /** The event was delivered successfully before position `n`. */
  ghost predicate SucceededBefore(s: State, deliveries: seq<Delivery>, id: string, n: nat, prices: Prices)
    requires n <= |deliveries|
  {
    exists i :: 0 <= i < n && deliveries[i].event.id == id && OutcomeAt(s, deliveries, i, prices) == Processed
  }

  lemma Recorded(s: State, delivery: Delivery, prices: Prices)
    ensures Deliver(s, delivery, prices).processed
              == if OutcomeOf(s, delivery, prices) == Processed then s.processed + {delivery.event.id} else s.processed
  {
  }

  lemma RunNext(s: State, deliveries: seq<Delivery>, n: nat, prices: Prices)
    requires 0 < n <= |deliveries|
    ensures Run(s, deliveries[..n], prices) == Deliver(Run(s, deliveries[..n - 1], prices), deliveries[n - 1], prices)
  {
    assert deliveries[..n][..n - 1] == deliveries[..n - 1];
    hide Deliver;
  }

  lemma SucceededNext(s: State, deliveries: seq<Delivery>, id: string, n: nat, prices: Prices)
    requires 0 < n <= |deliveries|
    ensures SucceededBefore(s, deliveries, id, n, prices) <==>
            SucceededBefore(s, deliveries, id, n - 1, prices)
            || (deliveries[n - 1].event.id == id
                && OutcomeOf(Run(s, deliveries[..n - 1], prices), deliveries[n - 1], prices) == Processed)
  {
    assert OutcomeAt(s, deliveries, n - 1, prices)
        == OutcomeOf(Run(s, deliveries[..n - 1], prices), deliveries[n - 1], prices);
    hide OutcomeAt, OutcomeOf, Run;
    if SucceededBefore(s, deliveries, id, n, prices) {
      var i :| 0 <= i < n && deliveries[i].event.id == id && OutcomeAt(s, deliveries, i, prices) == Processed;
      assert i < n - 1 || i == n - 1;
    }
  }

  lemma {:induction false} ProcessedComesFrom(s: State, deliveries: seq<Delivery>, id: string, n: nat, prices: Prices)
    requires n <= |deliveries|
    ensures id in Run(s, deliveries[..n], prices).processed <==>
            id in s.processed || SucceededBefore(s, deliveries, id, n, prices)
  {
    if n == 0 {
      assert deliveries[..n] == [];
    } else {
      hide *;
      ProcessedComesFrom(s, deliveries, id, n - 1, prices);
      SucceededNext(s, deliveries, id, n, prices);
      RunNext(s, deliveries, n, prices);
      Recorded(Run(s, deliveries[..n - 1], prices), deliveries[n - 1], prices);
    }
  }

  /** A delivery is skipped exactly when an earlier delivery of its event was successful, in this run or before it. */
  lemma SkippedExactly(s: State, deliveries: seq<Delivery>, j: nat, prices: Prices)
    requires j < |deliveries|
    ensures OutcomeAt(s, deliveries, j, prices) == Skipped <==>
            deliveries[j].event.id in s.processed || SucceededBefore(s, deliveries, deliveries[j].event.id, j, prices)
  {
    ProcessedComesFrom(s, deliveries, deliveries[j].event.id, j, prices);
  }

  /** Deleting a delivery that comes after a successful one of the same event changes nothing. */
  lemma DuplicateDoesNotMatter(s: State, deliveries: seq<Delivery>, i: nat, j: nat, prices: Prices)
    requires i < j < |deliveries| && deliveries[i].event.id == deliveries[j].event.id
    requires OutcomeAt(s, deliveries, i, prices) == Processed
    ensures Run(s, deliveries[..j] + deliveries[j + 1..], prices) == Run(s, deliveries, prices)
  {
    SkippedAfterSuccess(s, deliveries, i, j, prices);
    assert deliveries == (deliveries[..j] + [deliveries[j]]) + deliveries[j + 1..];
    RunAppend(s, deliveries[..j] + [deliveries[j]], deliveries[j + 1..], prices);
    RunAppend(s, deliveries[..j], deliveries[j + 1..], prices);
    assert (deliveries[..j] + [deliveries[j]])[..j] == deliveries[..j];
  }

  /** The deliveries without those that follow a successful delivery of the same event. */
  function Deduplicated(s: State, deliveries: seq<Delivery>, prices: Prices): seq<Delivery> {
    if deliveries == [] then []
    else
      var n := |deliveries| - 1;
      Deduplicated(s, deliveries[..n], prices)
      + if OutcomeAt(s, deliveries, n, prices) == Skipped then [] else [deliveries[n]]
  }

  /** A run and the run without repeated deliveries end in the same state. */
  lemma {:induction false} Deduplication(s: State, deliveries: seq<Delivery>, prices: Prices)
    ensures Run(s, Deduplicated(s, deliveries, prices), prices) == Run(s, deliveries, prices)
  {
    if deliveries == [] {
    } else {
      var n := |deliveries| - 1;
      var before := Deduplicated(s, deliveries[..n], prices);
      Deduplication(s, deliveries[..n], prices);
      if OutcomeAt(s, deliveries, n, prices) == Skipped {
        assert Deduplicated(s, deliveries, prices) == before;
      } else {
        assert (before + [deliveries[n]])[..|before|] == before;
      }
    }
  }

  /** In the deduplicated run every event is recorded at most once, after what failed, and none is skipped. */
  lemma {:induction false} DeduplicatedRunsEachOnce(s: State, deliveries: seq<Delivery>, prices: Prices)
    ensures var kept := Deduplicated(s, deliveries, prices);
            && (forall i | 0 <= i < |kept| :: OutcomeAt(s, kept, i, prices) != Skipped)
            && (forall i, j | 0 <= i < j < |kept| && kept[i].event.id == kept[j].event.id ::
                  OutcomeAt(s, kept, i, prices) in {Failed, Unrecorded})
  {
    NoneSkipped(s, deliveries, prices);
    var kept := Deduplicated(s, deliveries, prices);
    forall i, j | 0 <= i < j < |kept| && kept[i].event.id == kept[j].event.id
      ensures OutcomeAt(s, kept, i, prices) in {Failed, Unrecorded}
    {
      if OutcomeAt(s, kept, i, prices) == Processed {
        SkippedAfterSuccess(s, kept, i, j, prices);
      }
    }
  }

  lemma {:induction false} NoneSkipped(s: State, deliveries: seq<Delivery>, prices: Prices)
    ensures var kept := Deduplicated(s, deliveries, prices);
            forall i | 0 <= i < |kept| :: OutcomeAt(s, kept, i, prices) != Skipped
  {
    if deliveries == [] {
    } else {
      var n := |deliveries| - 1;
      var before, kept := Deduplicated(s, deliveries[..n], prices), Deduplicated(s, deliveries, prices);
      NoneSkipped(s, deliveries[..n], prices);
      Deduplication(s, deliveries[..n], prices);
      forall i | 0 <= i < |kept|
        ensures OutcomeAt(s, kept, i, prices) != Skipped
      {
        if i < |before| {
          assert kept[..i] == before[..i] && kept[i] == before[i];
          assert OutcomeAt(s, before, i, prices) != Skipped;
        } else {
          assert kept[..i] == before;
        }
      }
    }
  }

  // ---------------------------------------------------------------- an event that could not be recorded

  /** Delivered again at once, an event that was not recorded comes to what one delivery would have come to. */
  lemma RetryAfterUnrecorded(s: State, event: Event, prices: Prices)
    requires OutcomeOf(s, Delivery(event, false), prices) == Unrecorded
    ensures var retried := Deliver(s, Delivery(event, false), prices);
            && OutcomeOf(retried, Delivery(event, true), prices) == Processed
            && Deliver(retried, Delivery(event, true), prices) == Deliver(s, Delivery(event, true), prices)
  {
    hide Apply;
    HandlerTwice(s.rows, event.payload, prices);
  }

  /** Runs from states that differ only in whether one event is recorded, over deliveries of other events. */
  lemma {:induction false} RunApart(s: State, deliveries: seq<Delivery>, id: string, prices: Prices)
    requires id !in s.processed && forall d | d in deliveries :: d.event.id != id
    ensures var plain := Run(s, deliveries, prices);
            && id !in plain.processed
            && Run(State(s.rows, s.processed + {id}), deliveries, prices) == State(plain.rows, plain.processed + {id})
  {
    if deliveries == [] {
    } else {
      hide Apply;
      RunApart(s, deliveries[..|deliveries| - 1], id, prices);
    }
  }

  lemma {:induction false} RunKeepsKeys(s: State, deliveries: seq<Delivery>, prices: Prices)
    ensures Run(s, deliveries, prices).rows.Keys == s.rows.Keys
  {
    if deliveries == [] {
    } else {
      var n := |deliveries| - 1;
      var before := Run(s, deliveries[..n], prices);
      RunKeepsKeys(s, deliveries[..n], prices);
      if Apply(before.rows, deliveries[n].event.payload, prices).Some? {
        OneRowAtMost(before.rows, deliveries[n].event.payload, prices);
      }
      hide Apply;
    }
  }

  lemma RunAround(s: State, first: Delivery, middle: seq<Delivery>, last: Delivery, prices: Prices)
    ensures Run(s, [first] + middle + [last], prices)
         == Deliver(Run(Deliver(s, first, prices), middle, prices), last, prices)
  {
    hide Deliver;
    var one := [first];
    assert one[..0] == [];
    assert Run(s, one, prices) == Deliver(s, first, prices);
    RunAppend(s, one, middle, prices);
    assert (one + middle + [last])[..|one + middle|] == one + middle;
  }

  /**
   Whatever other events come between, the retry of an event that was handled but not recorded leads where a recorded
   delivery would have led exactly when the rows still reflect the event by then.
   */
  lemma LateRetryExactly(s: State, event: Event, middle: seq<Delivery>, prices: Prices)
    requires OutcomeOf(s, Delivery(event, false), prices) == Unrecorded
    requires forall d | d in middle :: d.event.id != event.id
    ensures var lost, kept := Delivery(event, false), Delivery(event, true);
            Run(s, [lost] + middle + [kept], prices) == Run(s, [kept] + middle + [kept], prices) <==>
            UpToDate(Run(s, [lost] + middle, prices).rows, event.payload, prices)
  {
    hide Run, Apply, UpToDate;
    var lost, kept := Delivery(event, false), Delivery(event, true);
    var after := Deliver(s, lost, prices);
    RunAround(s, lost, middle, kept, prices);
    RunAround(s, kept, middle, kept, prices);
    RunFirst(s, lost, middle, prices);
    RunApart(after, middle, event.id, prices);
    RunKeepsKeys(after, middle, prices);
    OneRowAtMost(s.rows, event.payload, prices);
    RepeatHarmless(s.rows, Run(after, middle, prices).rows, event.payload, prices);
  }

  lemma RunFirst(s: State, first: Delivery, rest: seq<Delivery>, prices: Prices)
    ensures Run(s, [first] + rest, prices) == Run(Deliver(s, first, prices), rest, prices)
  {
    hide Deliver;
    var one := [first];
    assert one[..0] == [];
    assert Run(s, one, prices) == Deliver(s, first, prices);
    RunAppend(s, one, rest, prices);
  }

  /** Two updates that leave a row alike when the second follows the first. */
  predicate SameEffect(a: StripeSubscription, b: StripeSubscription) {
    && MapStripeStatus(a.status) == MapStripeStatus(b.status)
    && a.currentPeriodEnd == b.currentPeriodEnd
    && a.cancelAtPeriodEnd == b.cancelAtPeriodEnd
    && (b.priceId.None? || b.priceId == a.priceId)
  }

  /** With a later update of the same subscription between, a retry is harmless exactly when that one says the same. */
  lemma LateRetryOfUpdate(
    s: State, first: string, second: string, a: StripeSubscription, b: StripeSubscription, prices: Prices)
    requires first != second && first !in s.processed && second !in s.processed
    requires a.id == b.id && a.customer == b.customer && ResolvePlanFromPriceId(prices, a.priceId).Some?
    requires Apply(s.rows, SubscriptionUpdated(a), prices).Some?
    ensures var x, y := Event(first, SubscriptionUpdated(a)), Event(second, SubscriptionUpdated(b));
            var lost, kept, between := Delivery(x, false), Delivery(x, true), [Delivery(y, true)];
            Run(s, [lost] + between + [kept], prices) == Run(s, [kept] + between + [kept], prices) <==>
            FindByCustomer(s.rows, a.customer).None? || SameEffect(a, b)
  {
    var x, y := Event(first, SubscriptionUpdated(a)), Event(second, SubscriptionUpdated(b));
    var lost, between := Delivery(x, false), [Delivery(y, true)];
    hide Apply, UpToDate, SameEffect, ResolvePlanFromPriceId, FindByCustomer;
    LateRetryExactly(s, x, between, prices);
    RunFirst(s, lost, between, prices);
    RunFirst(Deliver(s, lost, prices), Delivery(y, true), [], prices);
    assert [Delivery(y, true)] + [] == between;
    UpdateOverwrites(s.rows, a, b, prices);
    UpdatedReflects(s.rows, a, b, prices);
  }

  lemma UpdatedReflects(rows: Table, a: StripeSubscription, b: StripeSubscription, prices: Prices)
    requires a.id == b.id && a.customer == b.customer && ResolvePlanFromPriceId(prices, a.priceId).Some?
    requires Apply(rows, SubscriptionUpdated(a), prices).Some?
    ensures var once := Apply(rows, SubscriptionUpdated(a), prices);
            var twice := Apply(once.value, SubscriptionUpdated(b), prices);
            twice.Some? ==>
              (UpToDate(twice.value, SubscriptionUpdated(a), prices) <==>
               FindByCustomer(rows, a.customer).None? || SameEffect(a, b))
  {
    var once := Apply(rows, SubscriptionUpdated(a), prices).value;
    var user := FindByCustomer(rows, a.customer);
    TargetStays(rows, SubscriptionUpdated(a), prices);
    if Apply(once, SubscriptionUpdated(b), prices).Some? && user.Some? {
      TargetStays(once, SubscriptionUpdated(b), prices);
      var twice := Apply(once, SubscriptionUpdated(b), prices).value;
      assert twice[user.value] == Updated(Updated(rows[user.value], a, prices), b, prices);
      RowReflects(rows[user.value], a, b, prices);
      hide Apply, Updated, Reflects, SameEffect;
    }
  }

  lemma RowReflects(row: Subscription, a: StripeSubscription, b: StripeSubscription, prices: Prices)
    requires a.id == b.id && ResolvePlanFromPriceId(prices, a.priceId).Some?
    ensures Reflects(Updated(Updated(row, a, prices), b, prices), SubscriptionUpdated(a), prices) <==> SameEffect(a, b)
  {
  }

  /** Delivered again after a later update of the same subscription, it takes that update back. */
  lemma LateRetryReverts(
    s: State, first: string, second: string, a: StripeSubscription, b: StripeSubscription, prices: Prices)
    requires first != second && first !in s.processed && second !in s.processed
    requires a.id == b.id && a.customer == b.customer && ResolvePlanFromPriceId(prices, a.priceId).Some?
    requires Apply(s.rows, SubscriptionUpdated(a), prices).Some?
    ensures var x, y := Event(first, SubscriptionUpdated(a)), Event(second, SubscriptionUpdated(b));
            var run := Run(s, [Delivery(x, false), Delivery(y, true), Delivery(x, true)], prices);
            && run.rows == Apply(s.rows, SubscriptionUpdated(a), prices).value
            && run.processed == s.processed + {second, first}
  {
    var x, y := Event(first, SubscriptionUpdated(a)), Event(second, SubscriptionUpdated(b));
    UpdateOverwrites(s.rows, a, b, prices);
    hide Apply, Run, ResolvePlanFromPriceId;
    RunOfThree(s, Delivery(x, false), Delivery(y, true), Delivery(x, true), prices);
  }

  /** The row with and without the retry. */
  lemma TwoUpdates(s: State, user: string, first: string, second: string,
                   a: StripeSubscription, b: StripeSubscription, prices: Prices)
    requires first != second && first !in s.processed && second !in s.processed
    requires a.id == b.id && a.customer == b.customer && ResolvePlanFromPriceId(prices, a.priceId).Some?
    requires Apply(s.rows, SubscriptionUpdated(a), prices).Some?
    requires FindByCustomer(s.rows, a.customer) == Some(user)
    ensures var x, y := Event(first, SubscriptionUpdated(a)), Event(second, SubscriptionUpdated(b));
            var lost, kept, between := Delivery(x, false), Delivery(x, true), [Delivery(y, true)];
            var retried := Run(s, [lost] + between + [kept], prices).rows;
            var clean := Run(s, [kept] + between + [kept], prices).rows;
            && user in retried && retried[user] == Updated(s.rows[user], a, prices)
            && user in clean && clean[user] == Updated(Updated(s.rows[user], a, prices), b, prices)
  {
    var x, y := Event(first, SubscriptionUpdated(a)), Event(second, SubscriptionUpdated(b));
    var lost, kept, between := Delivery(x, false), Delivery(x, true), [Delivery(y, true)];
    hide Run, Updated, ResolvePlanFromPriceId;
    assert [lost] + between + [kept] == [lost, Delivery(y, true), kept];
    assert [kept] + between + [kept] == [kept, Delivery(y, true), kept];
    LateRetryReverts(s, first, second, a, b, prices);
    RunOfThree(s, kept, Delivery(y, true), kept, prices);
    UpdateOverwrites(s.rows, a, b, prices);
    TargetStays(s.rows, SubscriptionUpdated(a), prices);
  }

  /** An upgrade that comes before the retry of an older event is lost: the user pays for PREMIUM and has STANDARD. */
  lemma UpgradeLost()
    ensures var prices := Prices(Some("price_standard"), Some("price_premium"));
            var row :=
              Subscription(Standard, Active, Some("cus_1"), Some("sub_1"), Some("price_standard"), None, false);
            var s := State(map["u" := row], {});
            var a := StripeSubscription("sub_1", "cus_1", Some("price_standard"), "active", 1000, false);
            var b := a.(priceId := Some("price_premium"));
            var x, y := Event("evt_1", SubscriptionUpdated(a)), Event("evt_2", SubscriptionUpdated(b));
            var lost, kept, between := Delivery(x, false), Delivery(x, true), [Delivery(y, true)];
            var retried := Run(s, [lost] + between + [kept], prices).rows;
            var clean := Run(s, [kept] + between + [kept], prices).rows;
            && "u" in retried && EffectivePlan(Some(retried["u"]), 0) == Standard
            && "u" in clean && EffectivePlan(Some(clean["u"]), 0) == Premium
  {
    var prices := Prices(Some("price_standard"), Some("price_premium"));
    var row := Subscription(Standard, Active, Some("cus_1"), Some("sub_1"), Some("price_standard"), None, false);
    var s := State(map["u" := row], {});
    var a := StripeSubscription("sub_1", "cus_1", Some("price_standard"), "active", 1000, false);
    var b := a.(priceId := Some("price_premium"));
    assert "price_standard" != "price_premium" by { assert "price_standard"[6] != "price_premium"[6]; }
    assert "evt_1" != "evt_2" by { assert "evt_1"[4] != "evt_2"[4]; }
    assert s.rows["u"].stripeCustomerId == Some(a.customer);
    assert FindByCustomer(s.rows, a.customer) == Some("u");
    SameIdsUnique(s.rows, "u", Updated(row, a, prices));
    TwoUpdates(s, "u", "evt_1", "evt_2", a, b, prices);
    hide Run, Apply;
  }

  lemma RunOfThree(s: State, d: Delivery, e: Delivery, f: Delivery, prices: Prices)
    ensures Run(s, [d, e, f], prices) == Deliver(Deliver(Deliver(s, d, prices), e, prices), f, prices)
  {
    hide Deliver;
    var one, two, three := [d], [d, e], [d, e, f];
    assert one[..0] == [] && two[..1] == one && three[..2] == two;
    assert Run(s, one, prices) == Deliver(s, d, prices);
    assert Run(s, two, prices) == Deliver(Run(s, one, prices), e, prices);
  }

  /** Updates of one subscription leave nothing of each other, but for a price they do not name. */
  lemma UpdateOverwrites(rows: Table, a: StripeSubscription, b: StripeSubscription, prices: Prices)
    requires a.id == b.id && a.customer == b.customer && ResolvePlanFromPriceId(prices, a.priceId).Some?
    requires Apply(rows, SubscriptionUpdated(a), prices).Some?
    ensures var once := Apply(rows, SubscriptionUpdated(a), prices);
            var twice := Apply(once.value, SubscriptionUpdated(b), prices);
            twice.Some? && Apply(twice.value, SubscriptionUpdated(a), prices) == once
  {
    var user := FindByCustomer(rows, a.customer);
    if user.Some? {
      var once := Apply(rows, SubscriptionUpdated(a), prices).value;
      var row := once[user.value];
      assert FindByCustomer(once, a.customer) == user;
      SameIdsUnique(once, user.value, Updated(row, b, prices));
      var twice := Apply(once, SubscriptionUpdated(b), prices).value;
      assert twice == once[user.value := Updated(row, b, prices)];
      assert twice[user.value].stripeCustomerId == Some(a.customer);
      assert FindByCustomer(twice, a.customer) == user;
      PutBack(once, user.value, Updated(row, b, prices));
      UpdatedAgain(rows[user.value], a, b, prices);
    }
  }

  lemma UpdatedAgain(row: Subscription, a: StripeSubscription, b: StripeSubscription, prices: Prices)
    requires ResolvePlanFromPriceId(prices, a.priceId).Some?
    ensures Updated(Updated(Updated(row, a, prices), b, prices), a, prices) == Updated(row, a, prices)
  {
  }

  lemma PutBack(rows: map<string, Subscription>, user: string, row: Subscription)
    requires user in rows
    ensures rows[user := row][user := rows[user]] == rows
  {
  }
}
