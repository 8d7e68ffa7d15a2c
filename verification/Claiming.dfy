/** Which orders without an owner a student can still claim. */
module Claiming {
  import opened Model
  import opened OrderService
  import opened DeliveryService
  import opened FanOuts
  import opened Effects
  import opened Histories
  import opened Runs
  import Delays

  /** A successful delay gives the order a date, ... */
  ghost predicate Dates(db: Db, call: Call, id: Id) {
    Delays.Redates(db, call, id) && call.timeslot != ""
  }

  /** ... or takes it away again, as only a delay to the empty text does. */
  ghost predicate Undates(db: Db, call: Call, id: Id) {
    (Delays.Redates(db, call, id) && call.timeslot == "") || Deletes(db, call, id)
  }

  ghost predicate Unowned(db: Db, id: Id) {
    id in db.orders && db.orders[id].studentId.None?
  }

  predicate NoPlace(order: Order) {
    order.room.None? && order.building.None? && order.dormitory.None?
  }

  predicate SamePlace(order: Order, order': Order) {
    order'.room == order.room && order'.building == order.building && order'.dormitory == order.dormitory
  }

  /** What a call may do to an order that has no owner afterwards: nothing but a delay dates it. */
  ghost predicate UnownedStep(db: Db, call: Call, id: Id, order': Order) {
    if id in db.orders then
      Unowned(db, id) && SamePlace(db.orders[id], order') &&
      order'.deliveryDate == if Delays.Redates(db, call, id) then Some(call.timeslot) else db.orders[id].deliveryDate
    else NoPlace(order') && order'.deliveryDate.None?
  }

  lemma FittingUnowned(db: Db, request: OrderRequest, now: nat, delay: nat, write: OrderWrite, id: Id)
    requires Fits(db, request, now, delay, write) && Unowned(Applied(db, write), id)
    ensures var order' := Applied(db, write).orders[id];
            if id in db.orders then
              Unowned(db, id) && SamePlace(db.orders[id], order') && order'.deliveryDate == db.orders[id].deliveryDate
            else NoPlace(order') && order'.deliveryDate.None?
  {
  }

  lemma CreateOrderUnowned(db: Db, call: Call, id: Id)
    requires call.CallCreateOrder? && Unowned(Step(db, call).db, id)
    ensures UnownedStep(db, call, id, Step(db, call).db.orders[id])
  {
    var write := CreateOrderEffect(db, call.newOrder, call.request, call.now, call.delay);
    FittingUnowned(db, call.request, call.now, call.delay, write, id);
  }

  lemma StatusCallUnowned(db: Db, call: Call, id: Id)
    requires (call.CallUpdateStatus? || call.CallTripStatus?) && Unowned(Step(db, call).db, id)
    ensures UnownedStep(db, call, id, Step(db, call).db.orders[id])
  {
    if call.CallUpdateStatus? {
      UpdateStatusEffect(db, call.orderId, call.status, call.role, call.now);
    } else {
      var writes := TripStatusEffect(db, call.deliveryId, call.trip, call.caller, call.clock, call.now);
      FanOutKeeps(db, writes);
      FanOutOnlyStatus(db, writes, id);
    }
  }

  lemma StepUnowned(db: Db, call: Call, id: Id)
    requires Unowned(Step(db, call).db, id)
    ensures UnownedStep(db, call, id, Step(db, call).db.orders[id])
  {
    if call.CallCreateOrder? {
      CreateOrderUnowned(db, call, id);
    } else if WritesStatus(call) {
      StatusCallUnowned(db, call, id);
    } else if call.CallDelayOrders? {
      Delays.DelayAllOrNone(db, call.orderIds, call.timeslot);
    } else {
      QuietOrder(db, call, id);
    }
  }

  ghost function Dating(id: Id): Event {
    (db: Db, call: Call) => Dates(db, call, id)
  }

  ghost function Undating(id: Id): Event {
    (db: Db, call: Call) => Undates(db, call, id)
  }

  /** In every reachable state, an order without an owner can be claimed, unless it was delayed to a
      text that is not empty, and not to the empty text since: exactly then not. */
  lemma {:induction false} ClaimableExactly(db: Db, calls: seq<Call>, id: Id)
    requires Initial(db) && Unowned(Run(db, calls), id)
    ensures NoPlace(Run(db, calls).orders[id])
    ensures Claimable(Run(db, calls).orders[id]) <==> !Since(db, calls, Dating(id), Undating(id))
  {
    var front, last := calls[..|calls| - 1], calls[|calls| - 1];
    assert calls == front + [last];
    SinceExtends(db, front, last, Dating(id), Undating(id));
    StepUnowned(Run(db, front), last, id);
    if id in Run(db, front).orders {
      StepKeepsOrder(Run(db, front), last, id);
      ClaimableExactly(db, front, id);
    } else {
      AbsentIsFresh(db, front, id, Dating(id), Undating(id));
    }
  }
}
