/** What the calls on orders promise, case by case: when each succeeds, why it is refused, and every
    column it writes. */
module OrderContracts {
  import opened Model
  import opened OrderRules
  import opened OrderService
  import opened Effects
  import opened Integrity
  import Decimal

  /** An admin may cancel until the order is delivered, a staff member an order in transport, a student
      an order that is not in transport yet. */
  predicate CancelableBy(role: Role, status: OrderStatus) {
    || (role == Admin && status in {Pending, Accepted, ReceivedExternal, InTransport})
    || (role == Staff && status == InTransport)
    || (role == Student && status in {Pending, Accepted, ReceivedExternal})
  }

  /** The steps that are no cancel: forward one by one, a rejection, and back to the start. */
  const MOVES: set<(OrderStatus, OrderStatus)> :=
    {(Pending, Accepted), (Accepted, ReceivedExternal), (ReceivedExternal, InTransport), (InTransport, Delivered),
     (Pending, Rejected), (Rejected, Pending), (Canceled, Pending)}

  predicate ByStudentFault(dto: UpdateStatusDto) {
    dto.status == Canceled && dto.cancelReasonType == Some(FromStudent)
  }

  /** The owner of an order is a user with a student row. */
  predicate OwnerIsStudent(db: Db, order: Order) {
    order.studentId.Some? && order.studentId.value in db.users && db.users[order.studentId.value].student.Some?
  }

  predicate MayUpdate(db: Db, order: Order, dto: UpdateStatusDto, role: Role) {
    if dto.status == Canceled then
      && CancelableBy(role, order.latestStatus)
      && dto.cancelReasonType.Some? && Given(dto.reason) && Given(dto.canceledImage)
      && (ByStudentFault(dto) ==> OwnerIsStudent(db, order))
    else
      && (order.latestStatus, dto.status) in MOVES
      && (dto.status == ReceivedExternal ==> Given(dto.receivedImage))
      && (dto.status == Delivered ==> Given(dto.finishedImage))
  }

  /** The new row: the status, the second, the picture, and a reason that names who caused a cancel. */
  predicate IsRowOf(row: StatusRow, dto: UpdateStatusDto, now: nat) {
    && row.status == dto.status && row.time == Decimal.ToText(now) && row.canceledImage == dto.canceledImage
    && (dto.cancelReasonType.None? || !Given(dto.reason) ==> row.reason == None)
    && (dto.cancelReasonType == Some(FromStaff) && Given(dto.reason) ==>
          row.reason == Some("Lí do xuất phát từ nhân viên: " + dto.reason.value))
    && (dto.cancelReasonType == Some(FromStudent) && Given(dto.reason) ==>
          row.reason == Some("Lí do xuất phát từ sinh viên: " + dto.reason.value))
  }

  /** The order afterwards: one row more, its status in the column, the pictures that came with the
      call, and paid if a staff member has delivered it for cash. */
  predicate OrderUpdated(before: Order, after: Order, dto: UpdateStatusDto, role: Role, now: nat) {
    && |after.history| == |before.history| + 1 && after.history[..|before.history|] == before.history
    && IsRowOf(after.history[|before.history|], dto, now) && after.latestStatus == dto.status
    && (dto.finishedImage.Some? ==> after.finishedImage == dto.finishedImage)
    && (dto.finishedImage.None? ==> after.finishedImage == before.finishedImage)
    && (dto.receivedImage.Some? ==> after.receivedImage == dto.receivedImage)
    && (dto.receivedImage.None? ==> after.receivedImage == before.receivedImage)
    && (after.isPaid <==>
          before.isPaid || (role == Staff && dto.status == Delivered && before.paymentMethod == Some(Cash)))
    && after == before.(history := after.history, latestStatus := after.latestStatus, isPaid := after.isPaid,
                        finishedImage := after.finishedImage, receivedImage := after.receivedImage)
  }

  /** A fault threshold: the regulation's, or the environment's where there is none or it is zero. */
  lemma BanThresholdExactly(db: Db, dormitory: Option<Dormitory>)
    ensures dormitory.Some? && dormitory.value in db.regulations && db.regulations[dormitory.value] != 0 ==>
              BanThreshold(db, dormitory) == db.regulations[dormitory.value]
    ensures dormitory.None? || dormitory.value !in db.regulations || db.regulations[dormitory.value] == 0 ==>
              BanThreshold(db, dormitory) == db.defaultThreshold
  {
  }

  /** No other user than one changes, and of that one neither the role nor the dormitory. */
  ghost predicate OnlyUser(db: Db, db': Db, user: Id) {
    && db'.users.Keys == db.users.Keys
    && (forall u :: u in db.users && u != user ==> db'.users[u] == db.users[u])
    && (user in db.users ==>
          && db'.users[user].role == db.users[user].role
          && db'.users[user].student.Some? == db.users[user].student.Some?
          && (db.users[user].student.Some? ==>
                db'.users[user].student.value.dormitory == db.users[user].student.value.dormitory))
  }

  /** One fault more for the owner, and a ban from the threshold on. */
  ghost predicate OwnerCharged(db: Db, db': Db, owner: Id)
    requires owner in db.users && db.users[owner].student.Some?
  {
    && OnlyUser(db, db', owner)
    && var before, after := db.users[owner], db'.users[owner];
    && after.student.value.numberFault == before.student.value.numberFault + 1
    && after.status == (if before.student.value.numberFault + 1 >= BanThreshold(db, before.student.value.dormitory)
                        then Banned else before.status)
  }

  ghost predicate StatusUpdated(db: Db, db': Db, id: Id, dto: UpdateStatusDto, role: Role, now: nat)
    requires id in db.orders
  {
    && id in db'.orders && db' == db.(orders := db.orders[id := db'.orders[id]], users := db'.users)
    && OrderUpdated(db.orders[id], db'.orders[id], dto, role, now)
    && (ByStudentFault(dto) ==>
          OwnerIsStudent(db, db.orders[id]) && OwnerCharged(db, db', db.orders[id].studentId.value))
    && (!ByStudentFault(dto) ==> db'.users == db.users)
  }

  /** Why an updateStatus is refused. */
  predicate UpdateRefusal(db: Db, id: Id, dto: UpdateStatusDto, role: Role, why: Refusal) {
    if why == OrderNotFound then id !in db.orders
    else
      && id in db.orders
      && var order := db.orders[id];
      match why
      case ReceivedImageMissing => dto.status == ReceivedExternal && !Given(dto.receivedImage)
      case FinishedImageMissing => dto.status == Delivered && !Given(dto.finishedImage)
      case CancelForbidden => dto.status == Canceled && !CancelableBy(role, order.latestStatus)
      case CancelReasonMissing =>
        dto.status == Canceled && CancelableBy(role, order.latestStatus) &&
        (dto.cancelReasonType.None? || !Given(dto.reason))
      case CancelImageMissing =>
        dto.status == Canceled && dto.cancelReasonType.Some? && Given(dto.reason) && !Given(dto.canceledImage)
      case StudentNotFound => ByStudentFault(dto) && Given(dto.canceledImage) && !OwnerIsStudent(db, order)
      case InvalidTransition =>
        dto.status != Canceled && (order.latestStatus, dto.status) !in MOVES
      case _ => false
  }

  ghost predicate UpdateStatusOutcome(db: Db, id: Id, dto: UpdateStatusDto, role: Role, now: nat, reply: Reply) {
    && (reply.verdict == Done <==> id in db.orders && MayUpdate(db, db.orders[id], dto, role))
    && (reply.verdict == Done ==> StatusUpdated(db, reply.db, id, dto, role, now))
    && (reply.verdict != Done ==> reply.db == db && UpdateRefusal(db, id, dto, role, reply.verdict.why))
  }

  lemma AllowedSteps(role: Role, from: OrderStatus, to: OrderStatus)
    ensures HasCancelPermission(role, from) <==> CancelableBy(role, from)
    ensures IsValidTransition(from, to) <==>
            if to == Canceled then from in {Pending, Accepted, ReceivedExternal, InTransport} else (from, to) in MOVES
  {
  }

  lemma ReasonExactly(dto: UpdateStatusDto, now: nat)
    ensures IsRowOf(StatusRowOf(dto, now), dto, now)
  {
  }

  lemma ChargeExactly(db: Db, owner: Id)
    requires owner in db.users && db.users[owner].student.Some?
    ensures OwnerCharged(db, ChargeFault(db, owner), owner)
    ensures ChargeFault(db, owner) == db.(users := ChargeFault(db, owner).users)
  {
  }

  lemma AcceptsExactly(db: Db, order: Order, dto: UpdateStatusDto, role: Role)
    ensures Accepts(db, order, dto, role) <==> MayUpdate(db, order, dto, role)
  {
    AllowedSteps(role, order.latestStatus, dto.status);
  }

  lemma UpdatedExactly(order: Order, dto: UpdateStatusDto, role: Role, now: nat)
    ensures OrderUpdated(order, Updated(order, dto, role, now), dto, role, now)
  {
    ReasonExactly(dto, now);
  }

  lemma StatusUpdatedExactly(db: Db, id: Id, dto: UpdateStatusDto, role: Role, now: nat)
    requires UpdateStatus(db, id, dto, role, now).verdict == Done
    ensures id in db.orders && StatusUpdated(db, UpdateStatus(db, id, dto, role, now).db, id, dto, role, now)
  {
    UpdateStatusEffect(db, id, dto, role, now);
    UpdatedExactly(db.orders[id], dto, role, now);
    if ByStudentFault(dto) {
      ChargeExactly(db, db.orders[id].studentId.value);
    }
  }

  lemma RefusedExactly(db: Db, id: Id, dto: UpdateStatusDto, role: Role, now: nat)
    requires UpdateStatus(db, id, dto, role, now).verdict != Done
    ensures UpdateRefusal(db, id, dto, role, UpdateStatus(db, id, dto, role, now).verdict.why)
  {
    if id in db.orders {
      AllowedSteps(role, db.orders[id].latestStatus, dto.status);
    }
  }

  /** updateStatus, for every call: who may make it in which status, and all it writes. */
  lemma UpdateStatusExactly(db: Db, id: Id, dto: UpdateStatusDto, role: Role, now: nat)
    ensures UpdateStatusOutcome(db, id, dto, role, now, UpdateStatus(db, id, dto, role, now))
  {
    UpdateStatusEffect(db, id, dto, role, now);
    if id in db.orders {
      AcceptsExactly(db, db.orders[id], dto, role);
    }
    if UpdateStatus(db, id, dto, role, now).verdict == Done {
      StatusUpdatedExactly(db, id, dto, role, now);
    } else {
      RefusedExactly(db, id, dto, role, now);
    }
  }

  ghost predicate HasLink(db: Db, orderId: Id) {
    exists d, k :: d in db.deliveries && 0 <= k < |db.deliveries[d].links| &&
      db.deliveries[d].links[k].orderId == orderId
  }

  ghost predicate DeleteOrderOutcome(db: Db, id: Id, role: Role, latest: nat, reply: Reply) {
    && (reply.verdict == Done <==>
          && id in db.orders && !HasLink(db, id)
          && (role == Student ==> latest < |db.orders[id].history| &&
                                  db.orders[id].history[latest].status in {Pending, Rejected}))
    && (reply.verdict == Done ==>
          && reply.db == db.(orders := reply.db.orders, payments := reply.db.payments)
          && reply.db.orders.Keys == db.orders.Keys - {id}
          && (forall o :: o in reply.db.orders ==> reply.db.orders[o] == db.orders[o])
          && (forall p :: p in reply.db.payments <==> p in db.payments && db.payments[p].orderId != id)
          && (forall p :: p in reply.db.payments ==> reply.db.payments[p] == db.payments[p]))
    && (reply.verdict != Done ==> reply.db == db)
    && (reply.verdict == Refused(OrderNotFound) <==> id !in db.orders)
    && (reply.verdict == Refused(StillReferenced) ==> HasLink(db, id))
    && (reply.verdict == Refused(DeleteForbidden) ==> role == Student)
    && (reply.verdict.Refused? ==> reply.verdict.why in {OrderNotFound, StillReferenced, DeleteForbidden})
  }

  /** deleteOrder: students delete pending and rejected orders only, nobody one that is in a delivery;
      with the order exactly its payments go. */
  lemma DeleteOrderExactly(db: Db, id: Id, role: Role, latest: nat)
    ensures DeleteOrderOutcome(db, id, role, latest, DeleteOrder(db, id, role, latest))
  {
  }

  /** `later` is no earlier time than `date`, as far as both are numbers. */
  predicate NotEarlier(later: Number, date: Number) {
    || later == NaN || date == NaN || later == PlusInfinity || date == MinusInfinity
    || (later.Finite? && date.Finite? && later.value >= date.value)
    || later == date
  }

  ghost predicate FreeToDelay(db: Db, id: Id, timeslot: string) {
    && id in db.orders && (HasLink(db, id) ==> db.orders[id].latestStatus == Canceled)
    && NotEarlier(db.numberOf(timeslot),
                  if db.orders[id].deliveryDate.Some? then db.numberOf(db.orders[id].deliveryDate.value)
                  else Finite(0.0))
  }

  ghost predicate DelayOrdersOutcome(db: Db, ids: seq<Id>, timeslot: string, reply: Reply) {
    && (reply.verdict == Done <==> NoDuplicates(ids) && forall id :: id in ids ==> FreeToDelay(db, id, timeslot))
    && reply.db == db.(orders := reply.db.orders) && reply.db.orders.Keys == db.orders.Keys
    && (forall o :: o in db.orders ==>
          reply.db.orders[o] ==
          if reply.verdict == Done && o in ids then db.orders[o].(deliveryDate := Some(timeslot)) else db.orders[o])
    && (reply.verdict == Refused(OrdersMissing) <==> !NoDuplicates(ids) || exists id :: id in ids && id !in db.orders)
    && (reply.verdict == Refused(AlreadyInDelivery) ==>
          exists id :: id in ids && id in db.orders && HasLink(db, id) && db.orders[id].latestStatus != Canceled)
    && (reply.verdict == Refused(DelayedBackwards) ==>
          forall id :: id in ids ==> id in db.orders && (HasLink(db, id) ==> db.orders[id].latestStatus == Canceled))
    && (reply.verdict.Refused? ==> reply.verdict.why in {OrdersMissing, AlreadyInDelivery, DelayedBackwards})
  }

  /** delayOrders: all listed orders get the new date, or none. */
  lemma DelayOrdersExactly(db: Db, ids: seq<Id>, timeslot: string)
    ensures DelayOrdersOutcome(db, ids, timeslot, DelayOrders(db, ids, timeslot))
  {
    FindManyComplete(db, ids);
    var reply := DelayOrders(db, ids, timeslot);
    assert forall id :: InSomeDelivery(db, id) <==> HasLink(db, id);
    assert forall id :: id in FindMany(db, ids) <==> id in ids && id in db.orders;
    if reply.verdict == Done {
      forall id | id in ids ensures FreeToDelay(db, id, timeslot) {
        assert id in FindMany(db, ids);
      }
    }
  }
}
