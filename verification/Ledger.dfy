/** The payment ledger: what webhooks collect against the fee an order was priced at. */
module Ledger {
  import opened Model
  import opened OrderService
  import opened DeliveryService
  import opened AccountService
  import opened FanOuts
  import opened Effects
  import opened Histories
  import opened Runs
  import ShippingFee

  /** A webhook that passes all checks, for a payment of the order. */
  ghost predicate Processes(db: Db, call: Call, id: Id) {
    && call.CallWebhook? && call.valid && call.orderCode != TEST_ORDER_CODE && id in db.orders
    && var found := FindPayment(db, call.orderCode);
    found.Some? && db.payments[found.value].orderId == id
  }

  /** What a call collects for an order. */
  ghost function Received(db: Db, call: Call, id: Id): int {
    if Processes(db, call, id) then call.amount else 0
  }

  /** What a run collects for an order. */
  ghost function TotalReceived(db: Db, calls: seq<Call>, id: Id): int {
    if calls == [] then 0
    else
      var front := calls[..|calls| - 1];
      TotalReceived(db, front, id) + Received(Run(db, front), calls[|calls| - 1], id)
  }

  /** A staff member delivers an order that is to be paid in cash. */
  predicate CashSettles(db: Db, call: Call, id: Id) {
    && call.CallUpdateStatus? && call.orderId == id && call.role == Staff && call.status.status == Delivered
    && Given(call.status.finishedImage)
    && id in db.orders && db.orders[id].latestStatus == InTransport && db.orders[id].paymentMethod == Some(Cash)
  }

  /** A student places the order, or claims it. */
  ghost predicate Prices(db: Db, call: Call, id: Id) {
    call.CallCreateOrder? &&
    (Claims(db, call.request, call.now, id) || (id == call.newOrder && Places(db, id, call.request, call.now)))
  }

  /** The columns of an order the ledger is about: they stay put, except that money comes in. */
  ghost predicate Settles(order: Order, order': Order, received: int) {
    && order'.studentId == order.studentId
    && order'.shippingFee == order.shippingFee
    && order'.paymentMethod == order.paymentMethod
    && Outstanding(order') == Outstanding(order) - received
    && (order.remainingAmount.Some? ==> order'.remainingAmount.Some?)
  }

  predicate PaidAgrees(order: Order) {
    order.isPaid <==> Outstanding(order) <= 0
  }

  /** What a call does to an order with an owner: money comes in by a processed webhook alone, and
      only that and a cash delivery change whether the order is paid. */
  ghost predicate StepsLedger(db: Db, call: Call, id: Id, order: Order, order': Order) {
    && Settles(order, order', Received(db, call, id))
    && order'.isPaid == if Processes(db, call, id) then Outstanding(order') <= 0
                        else order.isPaid || CashSettles(db, call, id)
  }

  /** createOrder leaves the money of an order that has an owner alone. */
  lemma FittingSettles(db: Db, request: OrderRequest, now: nat, delay: nat, write: OrderWrite, id: Id)
    requires Fits(db, request, now, delay, write) && Owned(db, id)
    ensures id in Applied(db, write).orders
    ensures Settles(db.orders[id], Applied(db, write).orders[id], 0)
    ensures Applied(db, write).orders[id].isPaid == db.orders[id].isPaid
  {
  }

  lemma CreateOrderSettles(db: Db, call: Call, id: Id)
    requires call.CallCreateOrder? && Owned(db, id)
    ensures id in Step(db, call).db.orders && StepsLedger(db, call, id, db.orders[id], Step(db, call).db.orders[id])
  {
    var write := CreateOrderEffect(db, call.newOrder, call.request, call.now, call.delay);
    FittingSettles(db, call.request, call.now, call.delay, write, id);
  }

  lemma UpdateStatusSettles(db: Db, call: Call, id: Id)
    requires call.CallUpdateStatus? && id in db.orders
    ensures id in Step(db, call).db.orders && StepsLedger(db, call, id, db.orders[id], Step(db, call).db.orders[id])
  {
    UpdateStatusEffect(db, call.orderId, call.status, call.role, call.now);
  }

  lemma TripStatusSettles(db: Db, call: Call, id: Id)
    requires call.CallTripStatus? && id in db.orders
    ensures id in Step(db, call).db.orders && StepsLedger(db, call, id, db.orders[id], Step(db, call).db.orders[id])
  {
    var writes := TripStatusEffect(db, call.deliveryId, call.trip, call.caller, call.clock, call.now);
    FanOutOnlyStatus(db, writes, id);
  }

  lemma WebhookEffect(db: Db, call: Call, id: Id)
    requires call.CallWebhook? && id in db.orders
    ensures id in Step(db, call).db.orders
    ensures Step(db, call).db.orders[id] ==
            if Processes(db, call, id) then Collected(db.orders[id], call.amount) else db.orders[id]
  {
  }

  lemma WebhookSettles(db: Db, call: Call, id: Id)
    requires call.CallWebhook? && id in db.orders
    ensures id in Step(db, call).db.orders && StepsLedger(db, call, id, db.orders[id], Step(db, call).db.orders[id])
  {
    WebhookEffect(db, call, id);
  }

  lemma QuietSettles(db: Db, call: Call, id: Id)
    requires !WritesStatus(call) && !call.CallWebhook? && id in db.orders && id in Step(db, call).db.orders
    ensures StepsLedger(db, call, id, db.orders[id], Step(db, call).db.orders[id])
  {
    QuietOrder(db, call, id);
  }

  /** Every call steps the ledger of every order that has an owner and stays. */
  lemma StepSettles(db: Db, call: Call, id: Id)
    requires Owned(db, id) && id in Step(db, call).db.orders
    ensures StepsLedger(db, call, id, db.orders[id], Step(db, call).db.orders[id])
  {
    match call
    case CallCreateOrder(_, _, _, _) => CreateOrderSettles(db, call, id);
    case CallUpdateStatus(_, _, _, _) => UpdateStatusSettles(db, call, id);
    case CallTripStatus(_, _, _, _, _) => TripStatusSettles(db, call, id);
    case CallWebhook(_, _, _, _) => WebhookSettles(db, call, id);
    case _ => QuietSettles(db, call, id);
  }

  /** For an order with an owner, any run that does not delete it leaves as outstanding what was
      outstanding before, less the amounts its webhooks collected. */
  lemma {:induction false} RunSettles(db: Db, calls: seq<Call>, id: Id)
    requires Owned(db, id) && !Ever(db, calls, Deletion(id))
    ensures id in Run(db, calls).orders
    ensures Settles(db.orders[id], Run(db, calls).orders[id], TotalReceived(db, calls, id))
  {
    if calls != [] {
      var front, last := calls[..|calls| - 1], calls[|calls| - 1];
      assert calls == front + [last];
      EverExtends(db, front, last, Deletion(id));
      RunSettles(db, front, id);
      StepKeepsOrder(Run(db, front), last, id);
      StepSettles(Run(db, front), last, id);
    }
  }

  /** A processed webhook that takes money back. */
  ghost function Refund(id: Id): Event {
    (db: Db, call: Call) => Processes(db, call, id) && call.amount < 0
  }

  /** Once an order is paid and nothing is outstanding, it stays so over every run without a refund,
      cash deliveries included. */
  lemma {:induction false} PaidNeverReverts(db: Db, calls: seq<Call>, id: Id)
    requires Owned(db, id) && db.orders[id].isPaid && Outstanding(db.orders[id]) <= 0
    requires !Ever(db, calls, Deletion(id)) && !Ever(db, calls, Refund(id))
    ensures Owned(Run(db, calls), id) && Run(db, calls).orders[id].isPaid && Outstanding(Run(db, calls).orders[id]) <= 0
  {
    if calls != [] {
      var front, last := calls[..|calls| - 1], calls[|calls| - 1];
      assert calls == front + [last];
      EverExtends(db, front, last, Deletion(id));
      EverExtends(db, front, last, Refund(id));
      PaidNeverReverts(db, front, id);
      StepKeepsOrder(Run(db, front), last, id);
      StepSettles(Run(db, front), last, id);
    }
  }

  lemma OthersKeepOwner(db: Db, call: Call, id: Id)
    requires !call.CallCreateOrder? && Owned(Step(db, call).db, id)
    ensures Owned(db, id)
  {
    match call
    case CallUpdateStatus(order, dto, role, now) => UpdateStatusEffect(db, order, dto, role, now);
    case CallTripStatus(trip, dto, caller, clock, now) =>
      var writes := TripStatusEffect(db, trip, dto, caller, clock, now);
      FanOutKeeps(db, writes);
      FanOutOnlyStatus(db, writes, id);
    case _ => QuietCall(db, call, id);
  }

  lemma CreateOrderPrices(db: Db, call: Call, id: Id)
    requires call.CallCreateOrder?
    ensures Owned(Step(db, call).db, id) && !Owned(db, id) <==> Prices(db, call, id)
  {
    var write := CreateOrderEffect(db, call.newOrder, call.request, call.now, call.delay);
  }

  /** Only a student's placing or claiming gives an order its owner. */
  lemma PricesExactly(db: Db, call: Call, id: Id)
    ensures Owned(Step(db, call).db, id) && !Owned(db, id) <==> Prices(db, call, id)
  {
    if call.CallCreateOrder? {
      CreateOrderPrices(db, call, id);
    } else if Owned(Step(db, call).db, id) {
      OthersKeepOwner(db, call, id);
    }
  }

  /** Pricing starts the ledger at the whole fee, between 5000 and 15000. An order created by its
      student starts unpaid; a claimed one keeps what was said of it before, which agrees with the
      price exactly if it was not marked paid. */
  lemma PricingStartsLedger(db: Db, call: Call, id: Id)
    requires Prices(db, call, id)
    ensures Owned(Step(db, call).db, id)
    ensures var order := Step(db, call).db.orders[id];
            && order.remainingAmount == order.shippingFee && order.shippingFee.Some?
            && 5000 <= order.shippingFee.value <= 15000
            && (PaidAgrees(order) <==> (id in db.orders ==> !db.orders[id].isPaid))
  {
    var write := CreateOrderEffect(db, call.newOrder, call.request, call.now, call.delay);
    var dto := call.request.student;
    ShippingFee.FeeBounds(Some(dto.room), dto.building, dto.dormitory, dto.weight);
  }

  /** What makes flag and amount disagree: cash taken for an order with money outstanding, or the
      claim of an order that webhooks had already marked paid. */
  ghost predicate Disturbs(db: Db, call: Call, id: Id) {
    || (CashSettles(db, call, id) && Outstanding(db.orders[id]) > 0)
    || (Prices(db, call, id) && id in db.orders && db.orders[id].isPaid)
  }

  /** What makes them agree: any processed webhook, cash taken for an order with nothing outstanding,
      and any other pricing. */
  ghost predicate Clears(db: Db, call: Call, id: Id) {
    || Processes(db, call, id)
    || (CashSettles(db, call, id) && Outstanding(db.orders[id]) <= 0)
    || (Prices(db, call, id) && (id in db.orders ==> !db.orders[id].isPaid))
  }

  /** One call, seen from an order that has an owner afterwards: flag and amount agree exactly if the
      call clears them, or they agreed before and the call does not disturb them. */
  lemma StepPaidAgreement(db: Db, call: Call, id: Id)
    requires Owned(Step(db, call).db, id)
    ensures PaidAgrees(Step(db, call).db.orders[id]) <==>
            Clears(db, call, id) || (Owned(db, id) && PaidAgrees(db.orders[id]) && !Disturbs(db, call, id))
  {
    PricesExactly(db, call, id);
    if Owned(db, id) {
      StepSettles(db, call, id);
    } else {
      PricingStartsLedger(db, call, id);
    }
  }

  ghost function Disturbing(id: Id): Event {
    (db: Db, call: Call) => Disturbs(db, call, id)
  }

  ghost function Clearing(id: Id): Event {
    (db: Db, call: Call) => Clears(db, call, id)
  }

  /** In every reachable state, `isPaid` of an order with an owner says that nothing is outstanding,
      unless flag and amount were disturbed and have not been cleared since: exactly then not. */
  lemma {:induction false} PaidFlagExactly(db: Db, calls: seq<Call>, id: Id)
    requires Initial(db) && Owned(Run(db, calls), id)
    ensures PaidAgrees(Run(db, calls).orders[id]) <==> !Since(db, calls, Disturbing(id), Clearing(id))
  {
    var front, last := calls[..|calls| - 1], calls[|calls| - 1];
    assert calls == front + [last];
    SinceExtends(db, front, last, Disturbing(id), Clearing(id));
    StepPaidAgreement(Run(db, front), last, id);
    PricesExactly(Run(db, front), last, id);
    if Owned(Run(db, front), id) {
      PaidFlagExactly(db, front, id);
    }
  }

  /** A processed webhook turns a paid order unpaid exactly if more is outstanding than it brings,
      which on an order settled by cash is every partial payment. */
  lemma WebhookUnpays(db: Db, call: Call, id: Id)
    requires Processes(db, call, id) && db.orders[id].isPaid
    ensures id in Step(db, call).db.orders
    ensures !Step(db, call).db.orders[id].isPaid <==> Outstanding(db.orders[id]) > call.amount
  {
    WebhookSettles(db, call, id);
  }

  /** The delivery of a cash order by staff succeeds, marks it paid and collects nothing: it leaves
      flag and amount in agreement exactly if nothing was outstanding. */
  lemma CashDeliveryAgreement(db: Db, call: Call, id: Id)
    requires CashSettles(db, call, id)
    ensures Step(db, call).verdict == Done && id in Step(db, call).db.orders
    ensures var order := Step(db, call).db.orders[id];
            && order.isPaid && Outstanding(order) == Outstanding(db.orders[id])
            && (PaidAgrees(order) <==> Outstanding(db.orders[id]) <= 0)
  {
    UpdateStatusEffect(db, call.orderId, call.status, call.role, call.now);
  }

  /** The order balances in a database reached by `since` after it was priced in `priced`. */
  ghost predicate Balances(priced: Db, since: seq<Call>, id: Id) {
    Owned(Run(priced, since), id) &&
    var order := Run(priced, since).orders[id];
    order.shippingFee.Some? && order.remainingAmount.Some? &&
    order.remainingAmount.value == order.shippingFee.value - TotalReceived(priced, since, id)
  }

  lemma BalanceContinues(priced: Db, since: seq<Call>, call: Call, id: Id)
    requires Balances(priced, since, id) && id in Step(Run(priced, since), call).db.orders
    ensures Balances(priced, since + [call], id)
  {
    assert (since + [call])[..|since|] == since;
    StepSettles(Run(priced, since), call, id);
  }

  ghost function Pricing(id: Id): Event {
    (db: Db, call: Call) => Prices(db, call, id)
  }

  ghost predicate BalancesSince(db: Db, calls: seq<Call>, id: Id, k: nat) {
    k < |calls| && Balances(Run(db, calls[..k + 1]), calls[k + 1..], id)
  }

  lemma BalancesSinceContinues(db: Db, front: seq<Call>, last: Call, id: Id, k: nat)
    requires BalancesSince(db, front, id, k) && id in Step(Run(db, front), last).db.orders
    ensures BalancesSince(db, front + [last], id, k)
  {
    var calls := front + [last];
    assert calls[..k + 1] == front[..k + 1] && calls[k + 1..] == front[k + 1..] + [last];
    RunSplit(db, front, k + 1);
    BalanceContinues(Run(db, front[..k + 1]), front[k + 1..], last, id);
  }

  lemma BalancesSinceStarts(db: Db, front: seq<Call>, last: Call, id: Id)
    requires Prices(Run(db, front), last, id)
    ensures BalancesSince(db, front + [last], id, |front|)
  {
    var calls := front + [last];
    assert calls[..|front|] == front && calls[..|front| + 1] == calls && calls[|front| + 1..] == [];
    PricingStartsLedger(Run(db, front), last, id);
  }

  /** The ledger of every owned order in every reachable state: some call of the run priced it, and
      what remains is the fee less everything collected since. */
  lemma {:induction false} LedgerBalances(db: Db, calls: seq<Call>, id: Id) returns (k: nat)
    requires Initial(db) && Owned(Run(db, calls), id)
    ensures At(db, calls, Pricing(id), k) && BalancesSince(db, calls, id, k)
  {
    var front, last := calls[..|calls| - 1], calls[|calls| - 1];
    assert calls == front + [last];
    if Owned(Run(db, front), id) {
      k := LedgerBalances(db, front, id);
      BalancesSinceContinues(db, front, last, id, k);
    } else {
      k := |front|;
      PricesExactly(Run(db, front), last, id);
      BalancesSinceStarts(db, front, last, id);
    }
    AtExtends(db, front, last, Pricing(id), k);
  }

  /** The state the ledger speaks of is the one the run ends in. */
  lemma LedgerSpeaksOfRun(db: Db, calls: seq<Call>, id: Id, k: nat)
    requires BalancesSince(db, calls, id, k)
    ensures id in Run(db, calls).orders && Run(db, calls).orders[id].remainingAmount.Some? &&
            Run(db, calls).orders[id].shippingFee.Some?
    ensures Run(db, calls).orders[id].remainingAmount.value ==
            Run(db, calls).orders[id].shippingFee.value - TotalReceived(Run(db, calls[..k + 1]), calls[k + 1..], id)
  {
    RunSplit(db, calls, k + 1);
  }
}
