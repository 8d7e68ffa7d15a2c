/** Delaying orders: all or none, and when never to an earlier date. */
module Delays {
  import opened Model
  import opened OrderService
  import opened FanOuts
  import opened Effects
  import opened Integrity
  import opened Histories
  import opened Runs
  import Decimal
  import Ledger

  /** An order that may be delayed to a time. */
  ghost predicate Delayable(db: Db, id: Id, timeslot: string) {
    && id in db.orders
    && (InSomeDelivery(db, id) ==> db.orders[id].latestStatus == Canceled)
    && !Exceeds(Due(db, db.orders[id]), db.numberOf(timeslot))
  }

  /** A delay succeeds exactly for a list of distinct existing orders none of which is in a
      delivery without being canceled, and none of which is due later; then all of them, and no
      other order, are due at the new time. A text that is no number is later than nothing. */
  lemma DelayAllOrNone(db: Db, ids: seq<Id>, timeslot: string)
    ensures var reply := DelayOrders(db, ids, timeslot);
            && (reply.verdict == Done <==> NoDuplicates(ids) && forall id :: id in ids ==> Delayable(db, id, timeslot))
            && (reply.verdict == Done ==>
                  reply.db.orders.Keys == db.orders.Keys &&
                  forall id :: id in db.orders ==>
                    if id in ids then reply.db.orders[id] == db.orders[id].(deliveryDate := Some(timeslot)) &&
                                      Due(db, reply.db.orders[id]) == db.numberOf(timeslot)
                    else reply.db.orders[id] == db.orders[id])
            && reply.db == db.(orders := reply.db.orders)
            && (reply.verdict != Done ==> reply.db == db)
  {
    FindManyComplete(db, ids);
    var reply := DelayOrders(db, ids, timeslot);
    if reply.verdict == Done {
      forall id | id in ids ensures Delayable(db, id, timeslot) {
        assert id in FindMany(db, ids);
      }
    }
  }

  /** Both times are numbers, and the second is not before the first. */
  predicate NotBefore(a: Number, b: Number) {
    a != NaN && b != NaN && !Exceeds(a, b)
  }

  /** A successful delay of the order, ... */
  ghost predicate Redates(db: Db, call: Call, id: Id) {
    && call.CallDelayOrders? && id in call.orderIds
    && NoDuplicates(call.orderIds) && forall o :: o in call.orderIds ==> Delayable(db, o, call.timeslot)
  }

  /** ... to a text that is no number. */
  ghost predicate Blurs(db: Db, call: Call, id: Id) {
    Redates(db, call, id) && db.numberOf(call.timeslot) == NaN
  }

  lemma StatusCallKeepsDate(db: Db, call: Call, id: Id)
    requires WritesStatus(call) && Owned(db, id)
    ensures Owned(Step(db, call).db, id)
    ensures Step(db, call).db.orders[id].deliveryDate == db.orders[id].deliveryDate
    ensures Step(db, call).db.numberOf == db.numberOf
  {
    match call
    case CallCreateOrder(newId, request, now, delay) =>
      var write := CreateOrderEffect(db, newId, request, now, delay);
    case CallUpdateStatus(order, dto, role, now) => UpdateStatusEffect(db, order, dto, role, now);
    case CallTripStatus(trip, dto, caller, clock, now) =>
      var writes := TripStatusEffect(db, trip, dto, caller, clock, now);
      FanOutOnlyStatus(db, writes, id);
  }

  lemma OtherCallsKeepDate(db: Db, call: Call, id: Id)
    requires !WritesStatus(call) && !call.CallDelayOrders? && Owned(db, id) && !Deletes(db, call, id)
    ensures Owned(Step(db, call).db, id)
    ensures Step(db, call).db.orders[id].deliveryDate == db.orders[id].deliveryDate
    ensures Step(db, call).db.numberOf == db.numberOf
  {
    StepKeepsOrder(db, call, id);
    QuietOrder(db, call, id);
  }

  lemma DelayMovesForward(db: Db, call: Call, id: Id)
    requires call.CallDelayOrders? && Owned(db, id) && Due(db, db.orders[id]) != NaN
    ensures var after := Step(db, call).db;
            Owned(after, id) && after.numberOf == db.numberOf &&
            (NotBefore(Due(db, db.orders[id]), Due(db, after.orders[id])) <==> !Blurs(db, call, id))
  {
    DelayAllOrNone(db, call.orderIds, call.timeslot);
  }

  /** One call: a date that is a number stays one and does not move back, exactly if the call is not
      a delay to a text that is no number. */
  lemma StepMovesForward(db: Db, call: Call, id: Id)
    requires Owned(db, id) && !Deletes(db, call, id) && Due(db, db.orders[id]) != NaN
    ensures var after := Step(db, call).db;
            Owned(after, id) && after.numberOf == db.numberOf &&
            (NotBefore(Due(db, db.orders[id]), Due(db, after.orders[id])) <==> !Blurs(db, call, id))
  {
    if WritesStatus(call) {
      StatusCallKeepsDate(db, call, id);
    } else if call.CallDelayOrders? {
      DelayMovesForward(db, call, id);
    } else {
      OtherCallsKeepDate(db, call, id);
    }
  }

  ghost function Blurring(id: Id): Event {
    (db: Db, call: Call) => Blurs(db, call, id)
  }

  /** Once an order has an owner and a date that is a number, a run without a delay to a text that is
      no number keeps the date a number and never moves it to an earlier time. */
  lemma {:induction false} DatesOnlyMoveForward(db: Db, calls: seq<Call>, id: Id)
    requires Owned(db, id) && Due(db, db.orders[id]) != NaN
    requires !Ever(db, calls, Deletion(id)) && !Ever(db, calls, Blurring(id))
    ensures Owned(Run(db, calls), id) && Run(db, calls).numberOf == db.numberOf
    ensures NotBefore(Due(db, db.orders[id]), Due(db, Run(db, calls).orders[id]))
  {
    if calls != [] {
      var front, last := calls[..|calls| - 1], calls[|calls| - 1];
      assert calls == front + [last];
      EverExtends(db, front, last, Deletion(id));
      EverExtends(db, front, last, Blurring(id));
      DatesOnlyMoveForward(db, front, id);
      StepMovesForward(Run(db, front), last, id);
    }
  }

  /** The date does not move back in any call of the run. */
  ghost predicate AlwaysForward(db: Db, calls: seq<Call>, id: Id) {
    forall k :: 0 <= k < |calls| ==> ForwardAt(db, calls, id, k)
  }

  ghost predicate ForwardAt(db: Db, calls: seq<Call>, id: Id, k: nat)
    requires k < |calls|
  {
    var before, after := Run(db, calls[..k]), Run(db, calls[..k + 1]);
    id in before.orders && id in after.orders && NotBefore(Due(db, before.orders[id]), Due(db, after.orders[id]))
  }

  lemma AlwaysForwardExtends(db: Db, front: seq<Call>, last: Call, id: Id)
    ensures AlwaysForward(db, front + [last], id) <==>
            AlwaysForward(db, front, id) && ForwardAt(db, front + [last], id, |front|)
  {
    var calls := front + [last];
    forall k: nat | k < |front| ensures ForwardAt(db, calls, id, k) <==> ForwardAt(db, front, id, k) {
      assert calls[..k] == front[..k] && calls[..k + 1] == front[..k + 1];
    }
  }

  /** Exactly these runs do: each call keeps the date a number and not earlier than before, if and
      only if no call of the run delays the order to a text that is no number. */
  lemma {:induction false} ForwardExactly(db: Db, calls: seq<Call>, id: Id)
    requires Owned(db, id) && Due(db, db.orders[id]) != NaN && !Ever(db, calls, Deletion(id))
    ensures AlwaysForward(db, calls, id) <==> !Ever(db, calls, Blurring(id))
  {
    if calls != [] {
      var front, last := calls[..|calls| - 1], calls[|calls| - 1];
      assert calls == front + [last];
      EverExtends(db, front, last, Deletion(id));
      EverExtends(db, front, last, Blurring(id));
      ForwardExactly(db, front, id);
      AlwaysForwardExtends(db, front, last, id);
      if !Ever(db, front, Blurring(id)) {
        DatesOnlyMoveForward(db, front, id);
        StepMovesForward(Run(db, front), last, id);
        assert calls[..|front|] == front && calls[..|front| + 1] == calls;
      }
    }
  }

  /** After a delay to a text that is no number, a free order may be delayed to any time at all,
      earlier ones included. */
  lemma BlurThenBack(db: Db, id: Id, blur: string, timeslot: string)
    requires id in db.orders && (InSomeDelivery(db, id) ==> db.orders[id].latestStatus == Canceled)
    requires db.numberOf(blur) == NaN
    ensures var once := DelayOrders(db, [id], blur);
            && once.verdict == Done
            && var twice := DelayOrders(once.db, [id], timeslot);
            twice.verdict == Done && id in twice.db.orders && Due(db, twice.db.orders[id]) == db.numberOf(timeslot)
  {
    DelayAllOrNone(db, [id], blur);
    var once := DelayOrders(db, [id], blur).db;
    assert id in [id];
    DelayAllOrNone(once, [id], timeslot);
  }

  /** The runtime reads decimal renderings as the numbers they render. */
  ghost predicate ReadsDecimals(db: Db) {
    forall n: nat :: db.numberOf(Decimal.ToText(n)) == Finite(n as real)
  }

  /** A successful delay to a number, or the placing or claiming of the order, which sets its date. */
  ghost predicate Sharpens(db: Db, call: Call, id: Id) {
    (Redates(db, call, id) && db.numberOf(call.timeslot) != NaN) || Ledger.Prices(db, call, id)
  }

  lemma PricedDate(db: Db, call: Call, id: Id)
    requires Ledger.Prices(db, call, id) && ReadsDecimals(db)
    ensures id in Step(db, call).db.orders && Due(db, Step(db, call).db.orders[id]) != NaN
  {
    var write := CreateOrderEffect(db, call.newOrder, call.request, call.now, call.delay);
    assert db.numberOf(Decimal.ToText(FirstSecond(call.request.student.deliveryDay))) != NaN;
  }

  lemma OwnedDate(db: Db, call: Call, id: Id)
    requires Owned(db, id) && id in Step(db, call).db.orders
    ensures Step(db, call).db.orders[id].deliveryDate ==
            if Redates(db, call, id) then Some(call.timeslot) else db.orders[id].deliveryDate
  {
    if WritesStatus(call) {
      StatusCallKeepsDate(db, call, id);
    } else if call.CallDelayOrders? {
      DelayAllOrNone(db, call.orderIds, call.timeslot);
    } else {
      StepKeepsOrder(db, call, id);
      OtherCallsKeepDate(db, call, id);
    }
  }

  /** One call, seen from an order that has an owner afterwards. */
  lemma StepDue(db: Db, call: Call, id: Id)
    requires ReadsDecimals(db) && Owned(Step(db, call).db, id)
    ensures Due(db, Step(db, call).db.orders[id]) != NaN <==>
            Sharpens(db, call, id) || (Owned(db, id) && Due(db, db.orders[id]) != NaN && !Blurs(db, call, id))
  {
    Ledger.PricesExactly(db, call, id);
    if Owned(db, id) {
      OwnedDate(db, call, id);
    } else {
      PricedDate(db, call, id);
    }
  }

  ghost function Sharpening(id: Id): Event {
    (db: Db, call: Call) => Sharpens(db, call, id)
  }

  /** In every reachable state the date of an order with an owner is a number, unless the order was
      delayed to a text that is none and has not been delayed to a number, placed or claimed since:
      exactly then not. */
  lemma {:induction false} DateIsNumberExactly(db: Db, calls: seq<Call>, id: Id)
    requires Initial(db) && ReadsDecimals(db) && Owned(Run(db, calls), id)
    ensures Due(db, Run(db, calls).orders[id]) != NaN <==> !Since(db, calls, Blurring(id), Sharpening(id))
  {
    var front, last := calls[..|calls| - 1], calls[|calls| - 1];
    assert calls == front + [last];
    SinceExtends(db, front, last, Blurring(id), Sharpening(id));
    RunRulesFixed(db, front);
    StepDue(Run(db, front), last, id);
    if Owned(Run(db, front), id) {
      DateIsNumberExactly(db, front, id);
    } else {
      Ledger.PricesExactly(Run(db, front), last, id);
    }
  }
}
