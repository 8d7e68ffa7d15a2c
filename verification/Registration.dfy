/** What createOrder means for its caller: when it succeeds, and what it leaves behind. */
module Registration {
  import opened Model
  import opened OrderService
  import opened Effects
  import opened Integrity
  import Decimal
  import ShippingFee

  /** The order is the one a check code and a brand stand for. */
  predicate Matches(order: Order, checkCode: string, brand: string) {
    order.checkCode == checkCode && order.brand == brand
  }

  ghost predicate KeyTaken(db: Db, checkCode: string, brand: string) {
    exists id :: id in db.orders && Matches(db.orders[id], checkCode, brand)
  }

  /** The order has a date, or some part of an address. */
  predicate IsPlaced(order: Order) {
    Given(order.deliveryDate) || Given(order.room) || Given(order.building) || order.dormitory.Some?
  }

  /** A student may order at all: registered, not banned, and not for today. */
  predicate Welcome(db: Db, student: Id, dto: StudentOrderDto, now: nat) {
    && student in db.users && db.users[student].student.Some? && db.users[student].status != Banned
    && dto.deliveryDay != now / 86400
  }

  /** ... and an order with the key may only be a pending one without owner, date and place. */
  ghost predicate StudentMayOrder(db: Db, newId: Id, student: Id, dto: StudentOrderDto, now: nat) {
    && Welcome(db, student, dto, now)
    && (forall id :: id in db.orders && Matches(db.orders[id], dto.checkCode, dto.brand) ==>
          db.orders[id].studentId == None && !IsPlaced(db.orders[id]) && db.orders[id].latestStatus == Pending)
    && (newId in db.orders ==> KeyTaken(db, dto.checkCode, dto.brand))
  }

  /** An admin may register: an order with the key may only be a pending one that has a date or a
      place, be it a student's or one that was given a date by a delay. */
  ghost predicate AdminMayOrder(db: Db, newId: Id, dto: AdminOrderDto) {
    && (forall id :: id in db.orders && Matches(db.orders[id], dto.checkCode, dto.brand) ==>
          IsPlaced(db.orders[id]) && db.orders[id].latestStatus == Pending)
    && (newId in db.orders ==> KeyTaken(db, dto.checkCode, dto.brand))
  }

  /** No table but the orders, and of them no other row, differs. */
  ghost predicate OnlyOrder(db: Db, db': Db, id: Id) {
    && db' == db.(orders := db'.orders) && db'.orders.Keys == db.orders.Keys + {id}
    && forall o :: o in db.orders && o != id ==> db'.orders[o] == db.orders[o]
  }

  /** The order went on to ACCEPTED by two rows. */
  ghost predicate AcceptedTwice(order: Order, order': Order, now: nat, delay: nat) {
    && order.latestStatus == Pending && order'.latestStatus == Accepted
    && order'.history == order.history + [HistoryRow(Accepted, Decimal.ToText(now), None, None),
                                          HistoryRow(Accepted, Decimal.ToText(now + delay), None, None)]
  }

  ghost predicate JustCreated(order: Order, now: nat) {
    && order.latestStatus == Pending && order.history == [HistoryRow(Pending, Decimal.ToText(now), None, None)]
    && !order.isPaid && order.shipperId == None && order.finishedImage == None && order.receivedImage == None
  }

  /** The order is the student's, with key, address, date and price: a new pending one with all of the
      parcel's columns, or one that had no owner, now accepted and otherwise as it was. */
  ghost predicate Placed(db: Db, db': Db, id: Id, student: Id, dto: StudentOrderDto, now: nat, delay: nat) {
    && OnlyOrder(db, db', id)
    && var order := db'.orders[id];
    && Matches(order, dto.checkCode, dto.brand) && order.studentId == Some(student)
    && order.room == Some(dto.room) && order.building == Some(dto.building) && order.dormitory == Some(dto.dormitory)
    && order.deliveryDate == Some(Decimal.ToText(dto.deliveryDay * 86400))
    && order.shippingFee == order.remainingAmount ==
         Some(ShippingFee.Fee(Some(dto.room), dto.building, dto.dormitory, dto.weight))
    && if id in db.orders then
         && db.orders[id].studentId == None && AcceptedTwice(db.orders[id], order, now, delay)
         && order.product == db.orders[id].product && order.weight == db.orders[id].weight
         && order.paymentMethod == db.orders[id].paymentMethod && order.isPaid == db.orders[id].isPaid
         && order.shipperId == db.orders[id].shipperId
         && order.finishedImage == db.orders[id].finishedImage && order.receivedImage == db.orders[id].receivedImage
       else
         && JustCreated(order, now)
         && order.product == Some(dto.product) && order.weight == Some(dto.weight)
         && order.paymentMethod == Some(dto.paymentMethod)
  }

  /** The order carries the key: a new pending one of which nothing else is known, or one that was
      there, now accepted, with the owner it had, if any. */
  ghost predicate Registered(db: Db, db': Db, id: Id, dto: AdminOrderDto, now: nat, delay: nat) {
    && OnlyOrder(db, db', id)
    && var order := db'.orders[id];
    && Matches(order, dto.checkCode, dto.brand)
    && if id in db.orders then
         AcceptedTwice(db.orders[id], order, now, delay) &&
         order == db.orders[id].(latestStatus := order.latestStatus, history := order.history)
       else
         && JustCreated(order, now) && order.studentId == None
         && order.product == None && order.weight == None && order.paymentMethod == None
         && order.room == None && order.building == None && order.dormitory == None && order.deliveryDate == None
         && order.shippingFee == None && order.remainingAmount == None
  }

  /** Why a student's createOrder is refused. */
  ghost predicate StudentRefusal(db: Db, newId: Id, student: Id, dto: StudentOrderDto, now: nat, why: Refusal) {
    match why
    case UserNotFound => student !in db.users
    case AccountBanned => student in db.users && db.users[student].status == Banned
    case SameDayDelivery => dto.deliveryDay == now / 86400
    case StudentNotFound => student in db.users && db.users[student].student == None
    case OwnedByAnother =>
      exists id :: id in db.orders && Matches(db.orders[id], dto.checkCode, dto.brand) &&
                   db.orders[id].studentId.Some? && db.orders[id].studentId != Some(student)
    case AlreadyCreated =>
      exists id :: id in db.orders && Matches(db.orders[id], dto.checkCode, dto.brand) &&
                   (db.orders[id].studentId == Some(student) ||
                    (db.orders[id].studentId == None && IsPlaced(db.orders[id])))
    case InvalidTransition =>
      exists id :: id in db.orders && Matches(db.orders[id], dto.checkCode, dto.brand) &&
                   db.orders[id].studentId == None && db.orders[id].latestStatus != Pending
    case DuplicateKey => newId in db.orders
    case _ => false
  }

  ghost predicate AdminRefusal(db: Db, newId: Id, dto: AdminOrderDto, why: Refusal) {
    match why
    case AlreadyCreated =>
      exists id :: id in db.orders && Matches(db.orders[id], dto.checkCode, dto.brand) && !IsPlaced(db.orders[id])
    case InvalidTransition =>
      exists id :: id in db.orders && Matches(db.orders[id], dto.checkCode, dto.brand) && IsPlaced(db.orders[id]) &&
                   db.orders[id].latestStatus != Pending
    case DuplicateKey => newId in db.orders
    case _ => false
  }

  lemma StudentOrderRefused(db: Db, newId: Id, student: Id, dto: StudentOrderDto, now: nat, delay: nat)
    requires CreateStudentOrder(db, newId, student, dto, now, delay).verdict != Done
    ensures StudentRefusal(db, newId, student, dto, now,
                           CreateStudentOrder(db, newId, student, dto, now, delay).verdict.why)
  {
    var found := FindExistingOrder(db, dto.checkCode, dto.brand);
    if found.Some? {
      assert Matches(db.orders[found.value], dto.checkCode, dto.brand);
      ConfirmEffect(db.(orders := db.orders[found.value := Claimed(db.orders[found.value], student, dto)]), found.value,
                    Student, now, delay);
    }
  }

  lemma AdminOrderRefused(db: Db, newId: Id, dto: AdminOrderDto, now: nat, delay: nat)
    requires CreateAdminOrder(db, newId, dto, now, delay).verdict != Done
    ensures AdminRefusal(db, newId, dto, CreateAdminOrder(db, newId, dto, now, delay).verdict.why)
  {
    var found := FindExistingOrder(db, dto.checkCode, dto.brand);
    if found.Some? {
      assert Matches(db.orders[found.value], dto.checkCode, dto.brand);
      ConfirmEffect(db, found.value, Admin, now, delay);
    }
  }

  lemma StudentOrderSucceeds(db: Db, newId: Id, student: Id, dto: StudentOrderDto, now: nat, delay: nat)
    requires UniqueKeys(db.orders)
    ensures CreateStudentOrder(db, newId, student, dto, now, delay).verdict == Done <==>
            StudentMayOrder(db, newId, student, dto, now)
  {
    var found := FindExistingOrder(db, dto.checkCode, dto.brand);
    if found.Some? && HasStudentRow(db, Some(student)) {
      ConfirmEffect(db.(orders := db.orders[found.value := Claimed(db.orders[found.value], student, dto)]), found.value,
                    Student, now, delay);
    }
  }

  lemma AdminOrderSucceeds(db: Db, newId: Id, dto: AdminOrderDto, now: nat, delay: nat)
    requires UniqueKeys(db.orders)
    ensures CreateAdminOrder(db, newId, dto, now, delay).verdict == Done <==> AdminMayOrder(db, newId, dto)
  {
    var found := FindExistingOrder(db, dto.checkCode, dto.brand);
    if found.Some? {
      ConfirmEffect(db, found.value, Admin, now, delay);
    }
  }

  lemma WrittenIsPlaced(db: Db, newId: Id, student: Id, dto: StudentOrderDto, now: nat, delay: nat, write: OrderWrite)
    requires Fits(db, ByStudent(student, dto), now, delay, write) && (write.Insert? || write.ClaimAndConfirmation?)
    ensures Placed(db, Applied(db, write), write.id, student, dto, now, delay)
  {
  }

  /** A student's createOrder succeeds exactly if the student may order; then exactly one order is
      written, and it is the student's. */
  lemma StudentOrderExactly(db: Db, newId: Id, student: Id, dto: StudentOrderDto, now: nat, delay: nat)
    requires UniqueKeys(db.orders)
    ensures var reply := CreateStudentOrder(db, newId, student, dto, now, delay);
            && (reply.verdict == Done <==> StudentMayOrder(db, newId, student, dto, now))
            && (reply.verdict == Done ==> exists id :: Placed(db, reply.db, id, student, dto, now, delay))
            && (reply.verdict != Done ==> StudentRefusal(db, newId, student, dto, now, reply.verdict.why))
            && CreateOrder(db, newId, ByStudent(student, dto), now, delay) == reply
  {
    if CreateStudentOrder(db, newId, student, dto, now, delay).verdict != Done {
      StudentOrderRefused(db, newId, student, dto, now, delay);
    }
    StudentOrderSucceeds(db, newId, student, dto, now, delay);
    var write := StudentOrderEffect(db, newId, student, dto, now, delay);
    if write.Insert? || write.ClaimAndConfirmation? {
      WrittenIsPlaced(db, newId, student, dto, now, delay, write);
    }
  }

  /** An admin's createOrder succeeds exactly if the admin may register; then exactly one order is
      written, and otherwise nothing. */
  lemma AdminOrderExactly(db: Db, newId: Id, dto: AdminOrderDto, now: nat, delay: nat)
    requires UniqueKeys(db.orders)
    ensures var reply := CreateAdminOrder(db, newId, dto, now, delay);
            && (reply.verdict == Done <==> AdminMayOrder(db, newId, dto))
            && (reply.verdict == Done ==> exists id :: Registered(db, reply.db, id, dto, now, delay))
            && (reply.verdict != Done ==> reply.db == db && AdminRefusal(db, newId, dto, reply.verdict.why))
            && forall admin :: CreateOrder(db, newId, ByAdmin(admin, dto), now, delay) == reply
  {
    if CreateAdminOrder(db, newId, dto, now, delay).verdict != Done {
      AdminOrderRefused(db, newId, dto, now, delay);
    }
    AdminOrderSucceeds(db, newId, dto, now, delay);
    var write := AdminOrderEffect(db, newId, 0, dto, now, delay);
    if write.Insert? || write.Confirmation? {
      assert Registered(db, Applied(db, write), write.id, dto, now, delay);
    }
  }

  /** Staff may not create orders. */
  lemma StaffOrderRefused(db: Db, newId: Id, staffId: Id, now: nat, delay: nat)
    ensures CreateOrder(db, newId, ByStaff(staffId), now, delay) == Reply(db, Refused(InvalidCreation))
  {
  }
}
