/** Which refused calls leave the tables as they were. */
module Refusals {
  import opened Model
  import opened OrderService
  import opened DeliveryService
  import opened FanOuts
  import opened Effects
  import opened Runs

  /** A student claims an order an admin registered, but the order has left PENDING. */
  ghost predicate ClaimsTooLate(db: Db, call: Call) {
    call.CallCreateOrder? && call.request.ByStudent? &&
    var found := FindExistingOrder(db, call.request.student.checkCode, call.request.student.brand);
    found.Some? && Claims(db, call.request, call.now, found.value) && db.orders[found.value].latestStatus != Pending
  }

  /** A delivery is accepted although it has orders and all of them are canceled. */
  ghost predicate AcceptsCanceled(db: Db, call: Call) {
    && call.CallTripStatus? && call.trip.status == TripAccepted
    && !IsGoingDelivery(db, call.caller.id)
    && !Given(call.trip.reason) && !Given(call.trip.canceledImage)
    && call.deliveryId in db.deliveries
    && var links := db.deliveries[call.deliveryId].links;
    links != [] && AllOrdersCanceled(db, links)
  }

  lemma UpdateStatusRefusalAtomic(db: Db, id: Id, dto: UpdateStatusDto, role: Role, now: nat)
    requires UpdateStatus(db, id, dto, role, now).verdict != Done
    ensures UpdateStatus(db, id, dto, role, now).db == db
  {
  }

  lemma CreateOrderRefusal(db: Db, call: Call)
    requires call.CallCreateOrder? && Step(db, call).verdict != Done
    ensures Step(db, call).db != db <==> ClaimsTooLate(db, call)
  {
    var write := CreateOrderEffect(db, call.newOrder, call.request, call.now, call.delay);
    if ClaimsTooLate(db, call) {
      var dto := call.request.student;
      var id := FindExistingOrder(db, dto.checkCode, dto.brand).value;
      var claimed := db.(orders := db.orders[id := Claimed(db.orders[id], call.request.studentId, dto)]);
      ConfirmEffect(claimed, id, Student, call.now, call.delay);
      assert Step(db, call).db == claimed && claimed.orders[id].studentId.Some?;
    }
  }

  lemma TripStatusRefusal(db: Db, call: Call)
    requires call.CallTripStatus? && Step(db, call).verdict != Done
    requires call.deliveryId in db.deliveries ==> DistinctOrders(db.deliveries[call.deliveryId].links)
    ensures Step(db, call).db != db <==> AcceptsCanceled(db, call)
  {
  }

  /** A call that throws changes the tables in exactly two cases: a claim of an order that is no
      longer pending, and an accept of a delivery whose orders are all canceled. */
  lemma RefusalExactly(db: Db, call: Call)
    requires forall d :: d in db.deliveries ==> DistinctOrders(db.deliveries[d].links)
    requires Step(db, call).verdict != Done
    ensures Step(db, call).db != db <==> ClaimsTooLate(db, call) || AcceptsCanceled(db, call)
  {
    match call
    case CallCreateOrder(_, _, _, _) => CreateOrderRefusal(db, call);
    case CallUpdateStatus(id, dto, role, now) => UpdateStatusRefusalAtomic(db, id, dto, role, now);
    case CallTripStatus(_, _, _, _, _) => TripStatusRefusal(db, call);
    case _ =>
  }

  /** What the refused claim leaves behind: the order belongs to the student, with address, date
      and price, in the status it had. */
  lemma LateClaimSticks(db: Db, call: Call)
    requires ClaimsTooLate(db, call)
    ensures var dto := call.request.student;
            var id := FindExistingOrder(db, dto.checkCode, dto.brand).value;
            Step(db, call) == Reply(db.(orders := db.orders[id := Claimed(db.orders[id], call.request.studentId, dto)]),
                                    Refused(InvalidTransition))
  {
    var dto := call.request.student;
    var id := FindExistingOrder(db, dto.checkCode, dto.brand).value;
    ConfirmEffect(db.(orders := db.orders[id := Claimed(db.orders[id], call.request.studentId, dto)]), id, Student,
                  call.now, call.delay);
  }

  /** What the refused accept leaves behind: the delivery as it was, but its canceled orders back
      in transport. */
  lemma CanceledOrdersRevived(db: Db, call: Call, id: Id)
    requires AcceptsCanceled(db, call) && DistinctOrders(db.deliveries[call.deliveryId].links)
    requires IsMember(db.deliveries[call.deliveryId].links, id) && id in db.orders
    ensures Step(db, call).verdict == Refused(CancelEvidenceMissing)
    ensures Step(db, call).db.deliveries == db.deliveries
    ensures id in Step(db, call).db.orders && Step(db, call).db.orders[id].latestStatus == InTransport
  {
    var links := db.deliveries[call.deliveryId].links;
    TransportAt(db, links, call.clock, id);
    FanOutKeeps(db, TransportWrites(links, call.clock));
  }
}
