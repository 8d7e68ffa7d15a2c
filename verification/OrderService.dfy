/** What the calls of src/orders/orders.service.impl.ts do to the tables, as functions on the
    database. Every function follows the order of the service's reads and writes, so that a call
    that throws half-way returns the database with the writes it had already made. */
module OrderService {
  import opened Model
  import opened OrderRules
  import Decimal
  import ShippingFee

  datatype UpdateStatusDto = UpdateStatusDto(
    status: OrderStatus,
    canceledImage: Option<string>,
    reason: Option<string>,
    finishedImage: Option<string>,
    cancelReasonType: Option<CancelType>,
    receivedImage: Option<string>)

  /** `deliveryDay` is the day number (UTC, days since the epoch) of the DTO's calendar date. */
  datatype StudentOrderDto = StudentOrderDto(
    checkCode: string,
    brand: string,
    product: string,
    deliveryDay: nat,
    weight: real,
    room: string,
    building: string,
    dormitory: Dormitory,
    paymentMethod: PaymentMethod)

  datatype AdminOrderDto = AdminOrderDto(checkCode: string, brand: string)

  /** A createOrder call with the caller's role: each role sends its own DTO, staff may not. */
  datatype OrderRequest =
    | ByStudent(studentId: Id, student: StudentOrderDto)
    | ByAdmin(adminId: Id, admin: AdminOrderDto)
    | ByStaff(staffId: Id)

  const SECONDS_PER_DAY := 86400

  const ACCEPT := UpdateStatusDto(Accepted, None, None, None, None, None)

  function PlainRow(status: OrderStatus, now: nat): StatusRow {
    HistoryRow(status, Decimal.ToText(now), None, None)
  }

  /** One createOrderStatusHistory transaction on an order row. */
  function WithStatus(order: Order, row: StatusRow, finishedImage: Option<string>,
                      receivedImage: Option<string>): Order {
    order.(latestStatus := row.status,
           history := order.history + [row],
           finishedImage := Coalesce(finishedImage, order.finishedImage),
           receivedImage := Coalesce(receivedImage, order.receivedImage))
  }

  /** createOrderStatusHistory: the history row and the denormalised columns, in one
      transaction, which fails as a whole when the order does not exist. */
  function AppendStatus(db: Db, id: Id, row: StatusRow, finishedImage: Option<string>,
                        receivedImage: Option<string>): Db {
    if id in db.orders then
      db.(orders := db.orders[id := WithStatus(db.orders[id], row, finishedImage, receivedImage)])
    else db
  }

  /** The threshold of the student's dormitory; a missing or zero one falls back to the
      environment's. */
  function BanThreshold(db: Db, dormitory: Option<Dormitory>): int {
    if dormitory.Some? && dormitory.value in db.regulations && db.regulations[dormitory.value] != 0
    then db.regulations[dormitory.value]
    else db.defaultThreshold
  }

  predicate HasStudentRow(db: Db, id: Option<Id>) {
    id.Some? && id.value in db.users && db.users[id.value].student.Some?
  }

  /** One more fault for a student, and a ban once the threshold is reached. */
  function ChargeFault(db: Db, student: Id): Db
    requires HasStudentRow(db, Some(student))
  {
    var user := db.users[student];
    var row := user.student.value;
    var faults := row.numberFault + 1;
    var charged := user.(student := Some(row.(numberFault := faults)));
    db.(users := db.users[student :=
      if faults >= BanThreshold(db, row.dormitory) then charged.(status := Banned) else charged])
  }

  /** The checks of a cancel, ending with the fault write of a student-caused one. */
  function CancelChecks(db: Db, order: Order, dto: UpdateStatusDto, role: Role): Reply {
    if !HasCancelPermission(role, order.latestStatus) then Reply(db, Refused(CancelForbidden))
    else if dto.cancelReasonType.None? || !Given(dto.reason) then Reply(db, Refused(CancelReasonMissing))
    else if !Given(dto.canceledImage) then Reply(db, Refused(CancelImageMissing))
    else if dto.cancelReasonType == Some(FromStudent) then
      if !HasStudentRow(db, order.studentId) then Reply(db, Refused(StudentNotFound))
      else Reply(ChargeFault(db, order.studentId.value), Done)
    else Reply(db, Done)
  }

  /** The history row an accepted updateStatus call writes. */
  function StatusRowOf(dto: UpdateStatusDto, now: nat): StatusRow {
    HistoryRow(dto.status, Decimal.ToText(now), MapReason(dto.cancelReasonType, dto.reason),
               dto.canceledImage)
  }

  predicate SettlesByCash(order: Order, dto: UpdateStatusDto, role: Role) {
    role == Staff && dto.status == Delivered && order.paymentMethod == Some(Cash)
  }

  function SettleByCash(db: Db, id: Id, dto: UpdateStatusDto, role: Role): Db
    requires id in db.orders
  {
    if SettlesByCash(db.orders[id], dto, role) then
      db.(orders := db.orders[id := db.orders[id].(isPaid := true)])
    else db
  }

  function UpdateStatus(db: Db, id: Id, dto: UpdateStatusDto, role: Role, now: nat): Reply {
    if id !in db.orders then Reply(db, Refused(OrderNotFound))
    else
      var order := db.orders[id];
      if dto.status == ReceivedExternal && !Given(dto.receivedImage) then
        Reply(db, Refused(ReceivedImageMissing))
      else if dto.status == Delivered && !Given(dto.finishedImage) then
        Reply(db, Refused(FinishedImageMissing))
      else
        var checked := if dto.status == Canceled then CancelChecks(db, order, dto, role) else Reply(db, Done);
        if checked.verdict.Refused? then checked
        else if !IsValidTransition(order.latestStatus, dto.status) then
          Reply(checked.db, Refused(InvalidTransition))
        else
          var settled := SettleByCash(checked.db, id, dto, role);
          Reply(AppendStatus(settled, id, StatusRowOf(dto, now), dto.finishedImage, dto.receivedImage), Done)
  }

  predicate HasKey(order: Order, checkCode: string, brand: string) {
    order.checkCode == checkCode && order.brand == brand
  }

  /** The order findFirst returns for a check code and a brand. */
  ghost function FindExistingOrder(db: Db, checkCode: string, brand: string): (found: Option<Id>)
    ensures found.Some? ==> found.value in db.orders && HasKey(db.orders[found.value], checkCode, brand)
    ensures found.None? ==> forall id :: id in db.orders ==> !HasKey(db.orders[id], checkCode, brand)
  {
    if exists id :: id in db.orders && HasKey(db.orders[id], checkCode, brand) then
      var id :| id in db.orders && HasKey(db.orders[id], checkCode, brand);
      Some(id)
    else None
  }

  /** Nobody has filled in the address and the date: the order was registered by an admin. */
  predicate LacksAddress(order: Order) {
    !Given(order.deliveryDate) && !Given(order.room) && !Given(order.building) && order.dormitory.None?
  }

  predicate Claimable(order: Order) {
    order.studentId.None? && LacksAddress(order)
  }

  function FirstSecond(day: nat): nat {
    day * SECONDS_PER_DAY
  }

  function DateText(day: nat): string {
    Decimal.ToText(FirstSecond(day))
  }

  ghost function FeeOf(dto: StudentOrderDto): int {
    ShippingFee.Fee(Some(dto.room), dto.building, dto.dormitory, dto.weight)
  }

  /** The columns a student writes into an order an admin registered first. */
  ghost function Claimed(order: Order, student: Id, dto: StudentOrderDto): Order {
    order.(studentId := Some(student),
           shippingFee := Some(FeeOf(dto)),
           deliveryDate := Some(DateText(dto.deliveryDay)),
           room := Some(dto.room),
           building := Some(dto.building),
           dormitory := Some(dto.dormitory),
           remainingAmount := Some(FeeOf(dto)))
  }

  ghost function NewStudentOrder(student: Id, dto: StudentOrderDto, now: nat): Order {
    Order(dto.checkCode, dto.brand, Some(student), None, Some(dto.product), Some(dto.weight),
          Some(dto.paymentMethod), Some(dto.room), Some(dto.building), Some(dto.dormitory),
          Some(DateText(dto.deliveryDay)), Some(FeeOf(dto)), Some(FeeOf(dto)), false, None, None,
          Pending, [PlainRow(Pending, now)])
  }

  function NewAdminOrder(dto: AdminOrderDto, now: nat): Order {
    Order(dto.checkCode, dto.brand, None, None, None, None, None, None, None, None, None, None, None,
          false, None, None, Pending, [PlainRow(Pending, now)])
  }

  function InsertOrder(db: Db, newId: Id, order: Order): Reply {
    if newId in db.orders then Reply(db, Refused(DuplicateKey))
    else Reply(db.(orders := db.orders[newId := order]), Done)
  }

  /** updateStatus to ACCEPTED, then createOrderStatusHistory ACCEPTED once more, `delay`
      seconds later. */
  function Confirm(db: Db, id: Id, role: Role, now: nat, delay: nat): Reply {
    var accepted := UpdateStatus(db, id, ACCEPT, role, now);
    if accepted.verdict.Refused? then accepted
    else Reply(AppendStatus(accepted.db, id, PlainRow(Accepted, now + delay), None, None), Done)
  }

  ghost function CreateStudentOrder(db: Db, newId: Id, student: Id, dto: StudentOrderDto, now: nat,
                                    delay: nat): Reply {
    if student !in db.users then Reply(db, Refused(UserNotFound))
    else if db.users[student].status == Banned then Reply(db, Refused(AccountBanned))
    else if dto.deliveryDay == now / SECONDS_PER_DAY then Reply(db, Refused(SameDayDelivery))
    else
      match FindExistingOrder(db, dto.checkCode, dto.brand)
      case Some(id) =>
        var existing := db.orders[id];
        if Claimable(existing) then
          if !HasStudentRow(db, Some(student)) then Reply(db, Refused(StudentNotFound))
          else Confirm(db.(orders := db.orders[id := Claimed(existing, student, dto)]), id, Student, now, delay)
        else if existing.studentId.Some? && existing.studentId != Some(student) then
          Reply(db, Refused(OwnedByAnother))
        else Reply(db, Refused(AlreadyCreated))
      case None =>
        if !HasStudentRow(db, Some(student)) then Reply(db, Refused(StudentNotFound))
        else InsertOrder(db, newId, NewStudentOrder(student, dto, now))
  }

  ghost function CreateAdminOrder(db: Db, newId: Id, dto: AdminOrderDto, now: nat, delay: nat): Reply {
    match FindExistingOrder(db, dto.checkCode, dto.brand)
    case Some(id) =>
      if LacksAddress(db.orders[id]) then Reply(db, Refused(AlreadyCreated))
      else Confirm(db, id, Admin, now, delay)
    case None => InsertOrder(db, newId, NewAdminOrder(dto, now))
  }

  /** `newId` is the identifier the database generates for a new order. */
  ghost function CreateOrder(db: Db, newId: Id, request: OrderRequest, now: nat, delay: nat): Reply {
    match request
    case ByStudent(student, dto) => CreateStudentOrder(db, newId, student, dto, now, delay)
    case ByAdmin(_, dto) => CreateAdminOrder(db, newId, dto, now, delay)
    case ByStaff(_) => Reply(db, Refused(InvalidCreation))
  }

  predicate InSomeDelivery(db: Db, orderId: Id) {
    exists d, k :: d in db.deliveries && 0 <= k < |db.deliveries[d].links| &&
      db.deliveries[d].links[k].orderId == orderId
  }

  /** deleteOrder. `latest` is the index of the history row the database returns as the latest
      one. Link rows restrict the delete, payments go with the order. */
  ghost function DeleteOrder(db: Db, id: Id, role: Role, latest: nat): Reply {
    if id !in db.orders then Reply(db, Refused(OrderNotFound))
    else if role == Student && !(latest < |db.orders[id].history| &&
                                 db.orders[id].history[latest].status in {Rejected, Pending}) then
      Reply(db, Refused(DeleteForbidden))
    else if InSomeDelivery(db, id) then Reply(db, Refused(StillReferenced))
    else
      Reply(db.(orders := db.orders - {id},
                payments := map p | p in db.payments && db.payments[p].orderId != id :: db.payments[p]),
            Done)
  }

  /** `Number(deliveryDate)`: `Number(null)` is zero. */
  function Due(db: Db, order: Order): Number {
    if order.deliveryDate.Some? then db.numberOf(order.deliveryDate.value) else Finite(0.0)
  }

  /** The rows findMany returns for a list of ids: each matching row once. */
  function FindMany(db: Db, ids: seq<Id>): set<Id> {
    set id | id in ids && id in db.orders
  }

  function Redated(orders: map<Id, Order>, ids: set<Id>, timeslot: string): map<Id, Order> {
    map id | id in orders :: if id in ids then orders[id].(deliveryDate := Some(timeslot)) else orders[id]
  }

  ghost function DelayOrders(db: Db, ids: seq<Id>, timeslot: string): Reply {
    var found := FindMany(db, ids);
    if |found| != |ids| then Reply(db, Refused(OrdersMissing))
    else if exists id :: id in found && InSomeDelivery(db, id) && db.orders[id].latestStatus != Canceled then
      Reply(db, Refused(AlreadyInDelivery))
    else if exists id :: id in found && Exceeds(Due(db, db.orders[id]), db.numberOf(timeslot)) then
      Reply(db, Refused(DelayedBackwards))
    else Reply(db.(orders := Redated(db.orders, found, timeslot)), Done)
  }
}
