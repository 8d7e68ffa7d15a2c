/** Whole runs: the service calls as data, one step a call, and runs as lists of calls. */
module Runs {
  import opened Model
  import opened OrderService
  import opened DeliveryService
  import opened AccountService

  /** A service call with everything its environment contributes: the identifiers the database
      generates, the seconds its writes happen in, the rows a query returns first. In
      `CallTripStatus`, `clock` gives for each order the second of its own transaction. */
  datatype Call =
    | CallCreateOrder(newOrder: Id, request: OrderRequest, now: nat, delay: nat)
    | CallUpdateStatus(orderId: Id, status: UpdateStatusDto, role: Role, now: nat)
    | CallDeleteOrder(orderId: Id, role: Role, latest: nat)
    | CallDelayOrders(orderIds: seq<Id>, timeslot: string)
    | CallCreateDelivery(newDelivery: Id, delivery: CreateDeliveryDto, now: nat)
    | CallUpdateDelivery(deliveryId: Id, update: UpdateDeliveryDto)
    | CallTripStatus(deliveryId: Id, trip: UpdateTripDto, caller: Caller, clock: Id -> nat, now: nat)
    | CallDeleteDelivery(deliveryId: Id, latest: nat)
    | CallCreatePayment(newPayment: Id, orderId: Id, amount: int, orderCode: nat)
    | CallWebhook(valid: bool, orderCode: nat, amount: int, account: Account)
    | CallUserStatus(userId: Id, userStatus: UserStatus)

  ghost function Step(db: Db, call: Call): Reply {
    match call
    case CallCreateOrder(newId, request, now, delay) => CreateOrder(db, newId, request, now, delay)
    case CallUpdateStatus(id, dto, role, now) => UpdateStatus(db, id, dto, role, now)
    case CallDeleteOrder(id, role, latest) => DeleteOrder(db, id, role, latest)
    case CallDelayOrders(ids, timeslot) => DelayOrders(db, ids, timeslot)
    case CallCreateDelivery(newId, dto, now) => CreateDelivery(db, newId, dto, now)
    case CallUpdateDelivery(id, dto) => UpdateDelivery(db, id, dto)
    case CallTripStatus(id, dto, caller, clock, now) => UpdateDeliveryStatus(db, id, dto, caller, clock, now)
    case CallDeleteDelivery(id, latest) => DeleteDelivery(db, id, latest)
    case CallCreatePayment(newId, orderId, amount, orderCode) => CreatePayment(db, newId, orderId, amount, orderCode)
    case CallWebhook(valid, orderCode, amount, account) => HandleWebhook(db, valid, orderCode, amount, account)
    case CallUserStatus(userId, status) => UpdateUserStatus(db, userId, status)
  }

  /** The database after a list of calls, refused ones included. */
  ghost function Run(db: Db, calls: seq<Call>): Db {
    if calls == [] then db else Step(Run(db, calls[..|calls| - 1]), calls[|calls| - 1]).db
  }

  /** An empty shop: registered users without faults, no orders, deliveries or payments. */
  ghost predicate Initial(db: Db) {
    db.orders == map[] && db.deliveries == map[] && db.payments == map[] &&
    forall u :: u in db.users ==>
      db.users[u].status == Available && (db.users[u].student.Some? ==> db.users[u].student.value.numberFault == 0)
  }

  /** Something that may be the case when a call is made. */
  type Event = (Db, Call) -> bool

  /** The `k`-th call of a run meets an event. */
  ghost predicate At(db: Db, calls: seq<Call>, event: Event, k: int) {
    0 <= k < |calls| && event(Run(db, calls[..k]), calls[k])
  }

  /** Some call of the run meets the event. */
  ghost predicate Ever(db: Db, calls: seq<Call>, event: Event) {
    exists k :: At(db, calls, event, k)
  }

  /** Some call of the run meets the first event, and no later one the second. */
  ghost predicate Since(db: Db, calls: seq<Call>, starts: Event, stops: Event) {
    exists k :: At(db, calls, starts, k) && NoneAfter(db, calls, stops, k)
  }

  ghost predicate NoneAfter(db: Db, calls: seq<Call>, event: Event, k: int) {
    forall j :: k < j ==> !At(db, calls, event, j)
  }

  lemma AtExtends(db: Db, front: seq<Call>, last: Call, event: Event, k: int)
    ensures At(db, front + [last], event, k) <==>
            if k == |front| then event(Run(db, front), last) else At(db, front, event, k)
  {
    var calls := front + [last];
    assert calls[..|front|] == front;
    assert 0 <= k < |front| ==> calls[..k] == front[..k];
  }

  lemma EverExtends(db: Db, front: seq<Call>, last: Call, event: Event)
    ensures Ever(db, front + [last], event) <==> Ever(db, front, event) || event(Run(db, front), last)
  {
    forall k ensures At(db, front + [last], event, k) <==>
                     if k == |front| then event(Run(db, front), last) else At(db, front, event, k)
    {
      AtExtends(db, front, last, event, k);
    }
    assert event(Run(db, front), last) ==> At(db, front + [last], event, |front|);
  }

  lemma SinceExtends(db: Db, front: seq<Call>, last: Call, starts: Event, stops: Event)
    ensures Since(db, front + [last], starts, stops) <==>
            starts(Run(db, front), last) || (Since(db, front, starts, stops) && !stops(Run(db, front), last))
  {
    var calls := front + [last];
    forall k, event ensures At(db, calls, event, k) <==>
                            if k == |front| then event(Run(db, front), last) else At(db, front, event, k)
    {
      AtExtends(db, front, last, event, k);
    }
    if starts(Run(db, front), last) {
      assert At(db, calls, starts, |front|) && NoneAfter(db, calls, stops, |front|);
    }
    if Since(db, front, starts, stops) && !stops(Run(db, front), last) {
      var k :| At(db, front, starts, k) && NoneAfter(db, front, stops, k);
      assert At(db, calls, starts, k) && NoneAfter(db, calls, stops, k);
    }
    if Since(db, calls, starts, stops) && !starts(Run(db, front), last) {
      var k :| At(db, calls, starts, k) && NoneAfter(db, calls, stops, k);
      assert k < |front| && !At(db, calls, stops, |front|);
      assert At(db, front, starts, k) && NoneAfter(db, front, stops, k);
    }
  }

  lemma RunExtends(db: Db, front: seq<Call>, last: Call)
    ensures Run(db, front + [last]) == Step(Run(db, front), last).db
  {
    assert (front + [last])[..|front|] == front;
  }

  lemma {:induction false} RunSplit(db: Db, calls: seq<Call>, k: nat)
    requires k <= |calls|
    ensures Run(db, calls) == Run(Run(db, calls[..k]), calls[k..])
  {
    if k < |calls| {
      var front, last := calls[..|calls| - 1], calls[|calls| - 1];
      RunSplit(db, front, k);
      assert front[..k] == calls[..k] && calls[k..] == front[k..] + [last];
      RunExtends(Run(db, calls[..k]), front[k..], last);
    } else {
      assert calls[..k] == calls;
    }
  }

  lemma RunAppends(db: Db, calls: seq<Call>, more: seq<Call>)
    ensures Run(db, calls + more) == Run(Run(db, calls), more)
  {
    RunSplit(db, calls + more, |calls|);
    assert (calls + more)[..|calls|] == calls && (calls + more)[|calls|..] == more;
  }
}
