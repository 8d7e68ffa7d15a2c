/** What each writing call comes to: at most one order row, or one fan-out, and what it refuses. */
module Effects {
  import opened Model
  import opened OrderRules
  import opened OrderService
  import opened DeliveryService

  /** The order row after a successful updateStatus. */
  function Updated(order: Order, dto: UpdateStatusDto, role: Role, now: nat): Order {
    WithStatus(if SettlesByCash(order, dto, role) then order.(isPaid := true) else order,
               StatusRowOf(dto, now), dto.finishedImage, dto.receivedImage)
  }

  predicate IsStudentCancel(dto: UpdateStatusDto) {
    dto.status == Canceled && dto.cancelReasonType == Some(FromStudent)
  }

  /** What a successful updateStatus must have been given. */
  predicate Accepts(db: Db, order: Order, dto: UpdateStatusDto, role: Role) {
    && IsValidTransition(order.latestStatus, dto.status)
    && (dto.status == ReceivedExternal ==> Given(dto.receivedImage))
    && (dto.status == Delivered ==> Given(dto.finishedImage))
    && (dto.status == Canceled ==>
          HasCancelPermission(role, order.latestStatus) && dto.cancelReasonType.Some? &&
          Given(dto.reason) && Given(dto.canceledImage))
    && (IsStudentCancel(dto) ==> HasStudentRow(db, order.studentId))
  }

  /** updateStatus succeeds exactly if everything it needs is given; then it rewrites its order
      and, for a student-caused cancel, charges the owner. A refused call changes nothing, although
      the fault is written before the transition is checked. */
  lemma UpdateStatusEffect(db: Db, id: Id, dto: UpdateStatusDto, role: Role, now: nat)
    ensures var reply := UpdateStatus(db, id, dto, role, now);
            && (reply.verdict == Done <==> id in db.orders && Accepts(db, db.orders[id], dto, role))
            && (reply.verdict != Done ==> reply.db == db)
            && (reply.verdict == Done ==>
                  reply.db == db.(orders := db.orders[id := Updated(db.orders[id], dto, role, now)],
                                  users := if IsStudentCancel(dto)
                                           then ChargeFault(db, db.orders[id].studentId.value).users
                                           else db.users))
  {
  }

  /** An order that has gained a row: it shows the row's status, keeps a picture that is not replaced,
      and is otherwise the same. */
  ghost predicate StatusWritten(order: Order, order': Order, row: StatusRow, finishedImage: Option<string>,
                                receivedImage: Option<string>) {
    && order'.history == order.history + [row] && order'.latestStatus == row.status
    && order'.finishedImage == (if finishedImage.None? then order.finishedImage else finishedImage)
    && order'.receivedImage == (if receivedImage.None? then order.receivedImage else receivedImage)
    && order' == order.(history := order'.history, latestStatus := order'.latestStatus,
                        finishedImage := order'.finishedImage, receivedImage := order'.receivedImage)
  }

  /** A status transaction writes to its order, to nothing else, and to nothing at all without it. */
  lemma AppendStatusEffect(db: Db, id: Id, row: StatusRow, finishedImage: Option<string>, receivedImage: Option<string>)
    ensures var after := AppendStatus(db, id, row, finishedImage, receivedImage);
            && after == db.(orders := after.orders) && after.orders.Keys == db.orders.Keys
            && (forall o :: o in db.orders && o != id ==> after.orders[o] == db.orders[o])
            && (id in db.orders ==> StatusWritten(db.orders[id], after.orders[id], row, finishedImage, receivedImage))
  {
  }

  /** An order accepted twice, as createOrder leaves it. */
  function Twice(order: Order, now: nat, delay: nat): Order {
    WithStatus(WithStatus(order, PlainRow(Accepted, now), None, None), PlainRow(Accepted, now + delay), None, None)
  }

  /** Confirming succeeds exactly on a pending order. */
  lemma ConfirmEffect(db: Db, id: Id, role: Role, now: nat, delay: nat)
    requires id in db.orders
    ensures Confirm(db, id, role, now, delay) ==
            if db.orders[id].latestStatus == Pending
            then Reply(db.(orders := db.orders[id := Twice(db.orders[id], now, delay)]), Done)
            else Reply(db, Refused(InvalidTransition))
  {
  }

  /** The checks a student's createOrder makes before it looks for an order. */
  predicate Eligible(db: Db, student: Id, dto: StudentOrderDto, now: nat) {
    student in db.users && db.users[student].status != Banned && db.users[student].student.Some? &&
    dto.deliveryDay != now / SECONDS_PER_DAY
  }

  /** A student's createOrder claims an order that an admin registered, ... */
  ghost predicate Claims(db: Db, request: OrderRequest, now: nat, id: Id) {
    && request.ByStudent? && Eligible(db, request.studentId, request.student, now)
    && FindExistingOrder(db, request.student.checkCode, request.student.brand) == Some(id)
    && Claimable(db.orders[id])
  }

  /** ... or places a new one. */
  ghost predicate Places(db: Db, newId: Id, request: OrderRequest, now: nat) {
    && request.ByStudent? && Eligible(db, request.studentId, request.student, now)
    && FindExistingOrder(db, request.student.checkCode, request.student.brand) == None
    && newId !in db.orders
  }

  /** The one order row a createOrder call writes, if any. */
  datatype OrderWrite =
    | NoWrite
    | Insert(id: Id, row: Order)
    | Claim(id: Id, row: Order)
    | Confirmation(id: Id, row: Order)
    | ClaimAndConfirmation(id: Id, row: Order)

  function Applied(db: Db, write: OrderWrite): Db {
    if write.NoWrite? then db else db.(orders := db.orders[write.id := write.row])
  }

  /** A write stays within what its kind allows. */
  ghost predicate Fits(db: Db, request: OrderRequest, now: nat, delay: nat, write: OrderWrite) {
    match write
    case NoWrite => true
    case Insert(id, row) =>
      && id !in db.orders
      && (match request
          case ByStudent(student, dto) =>
            Places(db, id, request, now) && row == NewStudentOrder(student, dto, now)
          case ByAdmin(_, dto) =>
            row == NewAdminOrder(dto, now) && FindExistingOrder(db, dto.checkCode, dto.brand) == None
          case ByStaff(_) => false)
    case Claim(id, row) =>
      && Claims(db, request, now, id) && db.orders[id].latestStatus != Pending
      && row == Claimed(db.orders[id], request.studentId, request.student)
    case Confirmation(id, row) =>
      && request.ByAdmin? && FindExistingOrder(db, request.admin.checkCode, request.admin.brand) == Some(id)
      && !LacksAddress(db.orders[id])
      && db.orders[id].latestStatus == Pending && row == Twice(db.orders[id], now, delay)
    case ClaimAndConfirmation(id, row) =>
      && Claims(db, request, now, id) && db.orders[id].latestStatus == Pending
      && row == Twice(Claimed(db.orders[id], request.studentId, request.student), now, delay)
  }

  lemma StudentOrderEffect(db: Db, newId: Id, student: Id, dto: StudentOrderDto, now: nat, delay: nat)
    returns (write: OrderWrite)
    ensures var reply, request := CreateStudentOrder(db, newId, student, dto, now, delay), ByStudent(student, dto);
            && reply.db == Applied(db, write) && Fits(db, request, now, delay, write)
            && (reply.verdict == Done <==> !write.NoWrite? && !write.Claim?)
            && (write.Insert? ==> write.id == newId)
            && (Places(db, newId, request, now) ==> write.Insert?)
            && forall id :: Claims(db, request, now, id) ==>
               (write.Claim? || write.ClaimAndConfirmation?) && write.id == id
  {
    write := NoWrite;
    var found := FindExistingOrder(db, dto.checkCode, dto.brand);
    if Eligible(db, student, dto, now) {
      if found.Some? && Claimable(db.orders[found.value]) {
        var id := found.value;
        var claimed := Claimed(db.orders[id], student, dto);
        var claimedDb := db.(orders := db.orders[id := claimed]);
        ConfirmEffect(claimedDb, id, Student, now, delay);
        if claimed.latestStatus == Pending {
          write := ClaimAndConfirmation(id, Twice(claimed, now, delay));
          assert claimedDb.orders[id := write.row] == db.orders[id := write.row];
        } else {
          write := Claim(id, claimed);
        }
      } else if found.None? && newId !in db.orders {
        write := Insert(newId, NewStudentOrder(student, dto, now));
      }
    }
  }

  lemma AdminOrderEffect(db: Db, newId: Id, admin: Id, dto: AdminOrderDto, now: nat, delay: nat)
    returns (write: OrderWrite)
    ensures var reply := CreateAdminOrder(db, newId, dto, now, delay);
            && reply.db == Applied(db, write) && Fits(db, ByAdmin(admin, dto), now, delay, write)
            && (reply.verdict == Done <==> !write.NoWrite?)
            && !write.Claim? && (write.Insert? ==> write.id == newId)
  {
    write := NoWrite;
    var found := FindExistingOrder(db, dto.checkCode, dto.brand);
    if found.Some? {
      var id := found.value;
      ConfirmEffect(db, id, Admin, now, delay);
      if !LacksAddress(db.orders[id]) && db.orders[id].latestStatus == Pending {
        write := Confirmation(id, Twice(db.orders[id], now, delay));
      }
    } else if newId !in db.orders {
      write := Insert(newId, NewAdminOrder(dto, now));
    }
  }

  /** createOrder writes at most one order row, and keeps a write although it throws exactly when
      a student claims an order that has left PENDING. */
  lemma CreateOrderEffect(db: Db, newId: Id, request: OrderRequest, now: nat, delay: nat) returns (write: OrderWrite)
    ensures CreateOrder(db, newId, request, now, delay).db == Applied(db, write)
    ensures Fits(db, request, now, delay, write)
    ensures CreateOrder(db, newId, request, now, delay).verdict == Done <==> !write.NoWrite? && !write.Claim?
    ensures write.Insert? ==> write.id == newId
    ensures Places(db, newId, request, now) ==> write.Insert?
    ensures forall id :: Claims(db, request, now, id) ==>
            (write.Claim? || write.ClaimAndConfirmation?) && write.id == id
  {
    match request
    case ByStudent(student, dto) => write := StudentOrderEffect(db, newId, student, dto, now, delay);
    case ByAdmin(admin, dto) => write := AdminOrderEffect(db, newId, admin, dto, now, delay);
    case ByStaff(_) => write := NoWrite;
  }

  /** The status writes of an updateDeliveryStatus call. */
  ghost predicate TripWrites(db: Db, id: Id, dto: UpdateTripDto, clock: Id -> nat, writes: seq<Write>) {
    || writes == []
    || (id in db.deliveries && dto.status == TripAccepted && !Given(dto.reason) && !Given(dto.canceledImage) &&
        writes == TransportWrites(db.deliveries[id].links, clock))
    || (id in db.deliveries && dto.status == TripCanceled && HasCancelEvidence(dto) &&
        writes == CancelWrites(InTransportLinks(db, db.deliveries[id].links), dto, clock))
  }

  ghost predicate OnlyStatusOf(trip: Delivery, trip': Delivery) {
    trip' == trip.(latestStatus := trip'.latestStatus, history := trip'.history) &&
    trip'.history != [] && trip'.history[..|trip'.history| - 1] == trip.history &&
    trip'.history[|trip.history|].status == trip'.latestStatus
  }

  /** A reply that comes to a fan-out and, if it is a success, one row of a delivery. */
  ghost predicate IsTripReply(db: Db, id: Id, dto: UpdateTripDto, now: nat, writes: seq<Write>, reply: Reply) {
    && reply.db == db.(orders := FanOut(db, writes).orders, deliveries := reply.db.deliveries)
    && (reply.verdict != Done ==> reply.db.deliveries == db.deliveries)
    && (reply.verdict == Done ==>
          id in db.deliveries && id in reply.db.deliveries &&
          reply.db.deliveries == db.deliveries[id := reply.db.deliveries[id]] &&
          OnlyStatusOf(db.deliveries[id], reply.db.deliveries[id]) &&
          reply.db.deliveries[id].history[|db.deliveries[id].history|].time == Decimal.ToText(now) &&
          reply.db.deliveries[id].latestStatus in {dto.status, TripCanceled})
  }

  lemma CancelTripEffect(db: Db, id: Id, dto: UpdateTripDto, clock: Id -> nat, now: nat)
    requires id in db.deliveries && dto.status == TripCanceled
    ensures var writes := if HasCancelEvidence(dto)
                          then CancelWrites(InTransportLinks(db, db.deliveries[id].links), dto, clock) else [];
            IsTripReply(db, id, dto, now, writes, CancelTrip(db, id, dto, clock, now))
  {
    FanOutKeeps(db, CancelWrites(InTransportLinks(db, db.deliveries[id].links), dto, clock));
  }

  lemma ProceedTripEffect(db: Db, id: Id, dto: UpdateTripDto, clock: Id -> nat, now: nat)
    requires id in db.deliveries
    ensures var writes := if dto.status == TripAccepted then TransportWrites(db.deliveries[id].links, clock) else [];
            IsTripReply(db, id, dto, now, writes, ProceedTrip(db, id, dto, clock, now))
  {
    FanOutKeeps(db, TransportWrites(db.deliveries[id].links, clock));
  }

  /** updateDeliveryStatus comes to one fan-out and, if it succeeds, one row of its delivery. */
  lemma TripStatusEffect(db: Db, id: Id, dto: UpdateTripDto, caller: Caller, clock: Id -> nat, now: nat)
    returns (writes: seq<Write>)
    ensures TripWrites(db, id, dto, clock, writes)
    ensures IsGoingDelivery(db, caller.id) && dto.status == TripAccepted ==> writes == []
    ensures IsTripReply(db, id, dto, now, writes, UpdateDeliveryStatus(db, id, dto, caller, clock, now))
  {
    writes := [];
    if id in db.deliveries {
      var links := db.deliveries[id].links;
      if dto.status == TripCanceled {
        CancelTripEffect(db, id, dto, clock, now);
        if HasCancelEvidence(dto) {
          writes := CancelWrites(InTransportLinks(db, links), dto, clock);
        }
      } else {
        ProceedTripEffect(db, id, dto, clock, now);
        if dto.status == TripAccepted && !IsGoingDelivery(db, caller.id) && !Given(dto.reason) &&
          !Given(dto.canceledImage) {
          writes := TransportWrites(links, clock);
        }
      }
    }
  }
}
