/** The fault counter of a student against the history rows that charge the student. */
module Faults {
  import opened Model
  import opened OrderRules
  import opened OrderService
  import opened DeliveryService
  import opened AccountService
  import opened Effects
  import opened Histories
  import opened Runs

  /** The student-caused cancels in a history. */
  function FaultRows(h: seq<StatusRow>): nat {
    if h == [] then 0 else FaultRows(h[..|h| - 1]) + if IsStudentFault(h[|h| - 1]) then 1 else 0
  }

  /** What an order charges to a student. */
  function Charge(order: Order, student: Id): nat {
    if order.studentId == Some(student) then FaultRows(order.history) else 0
  }

  /** What all orders together charge to a student. */
  ghost function Charged(orders: map<Id, Order>, student: Id): nat {
    if orders == map[] then 0
    else
      var id :| id in orders;
      Charge(orders[id], student) + Charged(orders - {id}, student)
  }

  lemma FaultRowsExtend(h: seq<StatusRow>, row: StatusRow)
    ensures FaultRows(h + [row]) == FaultRows(h) + if IsStudentFault(row) then 1 else 0
  {
  }

  /** Any order may be taken out of the sum. */
  lemma {:induction false} ChargedSplit(orders: map<Id, Order>, student: Id, id: Id)
    requires id in orders
    ensures Charged(orders, student) == Charge(orders[id], student) + Charged(orders - {id}, student)
    decreases |orders|
  {
    var first :| first in orders &&
      Charged(orders, student) == Charge(orders[first], student) + Charged(orders - {first}, student);
    if first != id {
      ChargedSplit(orders - {first}, student, id);
      ChargedSplit(orders - {id}, student, first);
      assert orders - {first} - {id} == orders - {id} - {first};
    }
  }

  /** Writing one row changes the sum by what that row charges. */
  lemma ChargedUpdate(orders: map<Id, Order>, student: Id, id: Id, row: Order)
    ensures Charged(orders[id := row], student) == Charged(orders - {id}, student) + Charge(row, student)
    ensures id in orders ==> Charged(orders, student) == Charged(orders - {id}, student) + Charge(orders[id], student)
    ensures id !in orders ==> Charged(orders, student) == Charged(orders - {id}, student)
  {
    ChargedSplit(orders[id := row], student, id);
    assert orders[id := row] - {id} == orders - {id};
    if id in orders {
      ChargedSplit(orders, student, id);
    } else {
      assert orders - {id} == orders;
    }
  }

  /** Orders that charge alike, one by one, charge alike together. */
  lemma {:induction false} ChargedSame(orders: map<Id, Order>, orders': map<Id, Order>, student: Id)
    requires orders'.Keys == orders.Keys
    requires forall id :: id in orders ==> Charge(orders'[id], student) == Charge(orders[id], student)
    ensures Charged(orders', student) == Charged(orders, student)
    decreases |orders|
  {
    if orders == map[] {
      assert orders' == map[];
    } else {
      var id :| id in orders;
      ChargedSplit(orders, student, id);
      ChargedSplit(orders', student, id);
      ChargedSame(orders - {id}, orders' - {id}, student);
    }
  }

  function FaultCounter(db: Db, student: Id): int {
    if HasStudentRow(db, Some(student)) then db.users[student].student.value.numberFault else 0
  }

  /** Orders nobody owns carry no row that charges a student. */
  ghost predicate UnownedUncharged(db: Db) {
    forall id :: id in db.orders && db.orders[id].studentId.None? ==> FaultRows(db.orders[id].history) == 0
  }

  /** How much more a counter shows than the orders of the student account for. */
  ghost function Excess(db: Db, student: Id): int {
    FaultCounter(db, student) - Charged(db.orders, student)
  }

  lemma UpdatedCharge(order: Order, dto: UpdateStatusDto, role: Role, now: nat)
    ensures FaultRows(Updated(order, dto, role, now).history) ==
            FaultRows(order.history) + if IsStudentCancel(dto) && Given(dto.reason) then 1 else 0
  {
    FaultRowsExtend(order.history, StatusRowOf(dto, now));
    FaultOfMapReason(StatusRowOf(dto, now), dto.cancelReasonType, dto.reason);
  }

  lemma ChargeFaultCounter(db: Db, owner: Id, student: Id)
    requires HasStudentRow(db, Some(owner))
    ensures FaultCounter(ChargeFault(db, owner), student) ==
            FaultCounter(db, student) + if student == owner then 1 else 0
  {
  }

  lemma OneOrderExcess(db: Db, db': Db, id: Id, row: Order, student: Id)
    requires UnownedUncharged(db) && id in db.orders && db'.orders == db.orders[id := row]
    requires row.studentId.None? ==> FaultRows(row.history) == 0
    requires FaultCounter(db', student) - FaultCounter(db, student) ==
             Charge(row, student) - Charge(db.orders[id], student)
    ensures Excess(db', student) == Excess(db, student) && UnownedUncharged(db')
  {
    ChargedUpdate(db.orders, student, id, row);
  }

  lemma AcceptedStatusKeepsExcess(db: Db, after: Db, id: Id, dto: UpdateStatusDto, role: Role, now: nat, student: Id)
    requires UnownedUncharged(db) && id in db.orders && Accepts(db, db.orders[id], dto, role)
    requires after.orders == db.orders[id := Updated(db.orders[id], dto, role, now)]
    requires after.users == if IsStudentCancel(dto) then ChargeFault(db, db.orders[id].studentId.value).users
             else db.users
    ensures Excess(after, student) == Excess(db, student) && UnownedUncharged(after)
  {
    var owner := db.orders[id].studentId;
    UpdatedCharge(db.orders[id], dto, role, now);
    if IsStudentCancel(dto) {
      ChargeFaultCounter(db, owner.value, student);
      assert FaultCounter(after, student) == FaultCounter(ChargeFault(db, owner.value), student);
    } else {
      assert FaultCounter(after, student) == FaultCounter(db, student);
    }
    OneOrderExcess(db, after, id, Updated(db.orders[id], dto, role, now), student);
  }

  /** updateStatus charges the owner's counter exactly when it writes a charging row. */
  lemma UpdateStatusKeepsExcess(db: Db, id: Id, dto: UpdateStatusDto, role: Role, now: nat, student: Id)
    requires UnownedUncharged(db)
    ensures var after := UpdateStatus(db, id, dto, role, now).db;
            Excess(after, student) == Excess(db, student) && UnownedUncharged(after)
  {
    UpdateStatusEffect(db, id, dto, role, now);
    if id in db.orders && Accepts(db, db.orders[id], dto, role) {
      AcceptedStatusKeepsExcess(db, UpdateStatus(db, id, dto, role, now).db, id, dto, role, now, student);
    }
  }

  lemma TwiceCharge(order: Order, now: nat, delay: nat)
    ensures FaultRows(Twice(order, now, delay).history) == FaultRows(order.history)
  {
  }

  /** What createOrder writes into an order charges what was there, and takes no owner away. */
  lemma FittingCharge(db: Db, request: OrderRequest, now: nat, delay: nat, write: OrderWrite)
    requires Fits(db, request, now, delay, write) && !write.NoWrite?
    ensures FaultRows(write.row.history) == if write.id in db.orders then FaultRows(db.orders[write.id].history) else 0
    ensures write.id in db.orders && db.orders[write.id].studentId.Some? ==>
              write.row.studentId == db.orders[write.id].studentId
  {
    if write.Insert? {
      FaultRowsExtend([], PlainRow(Pending, now));
      assert [] + [PlainRow(Pending, now)] == [PlainRow(Pending, now)];
    } else {
      TwiceCharge(db.orders[write.id], now, delay);
    }
  }

  lemma FittingExcess(db: Db, id: Id, row: Order, student: Id)
    requires UnownedUncharged(db)
    requires FaultRows(row.history) == if id in db.orders then FaultRows(db.orders[id].history) else 0
    requires id in db.orders && db.orders[id].studentId.Some? ==> row.studentId == db.orders[id].studentId
    ensures var after := db.(orders := db.orders[id := row]);
            Excess(after, student) == Excess(db, student) && UnownedUncharged(after)
  {
    ChargedUpdate(db.orders, student, id, row);
  }

  /** createOrder charges nobody: a claimed order had no owner and so no charging row. */
  lemma CreateOrderKeepsExcess(db: Db, newId: Id, request: OrderRequest, now: nat, delay: nat, student: Id)
    requires UnownedUncharged(db)
    ensures var after := CreateOrder(db, newId, request, now, delay).db;
            Excess(after, student) == Excess(db, student) && UnownedUncharged(after)
  {
    var write := CreateOrderEffect(db, newId, request, now, delay);
    if !write.NoWrite? {
      FittingCharge(db, request, now, delay, write);
      FittingExcess(db, write.id, write.row, student);
    }
  }

  /** Writes that charge nobody keep every sum. */
  ghost predicate Chargeless(orders: map<Id, Order>, orders': map<Id, Order>) {
    && orders'.Keys == orders.Keys
    && forall id :: id in orders ==>
         orders'[id].studentId == orders[id].studentId &&
         FaultRows(orders'[id].history) == FaultRows(orders[id].history)
  }

  lemma ChargelessKeepsExcess(db: Db, db': Db, student: Id)
    requires UnownedUncharged(db) && Chargeless(db.orders, db'.orders) && db'.users == db.users
    ensures Excess(db', student) == Excess(db, student) && UnownedUncharged(db')
  {
    ChargedSame(db.orders, db'.orders, student);
  }

  lemma OneRowChargeless(orders: map<Id, Order>, orders': map<Id, Order>, id: Id, row: StatusRow)
    requires Chargeless(orders, orders') && id in orders && !IsStudentFault(row)
    ensures Chargeless(orders, orders'[id := WithStatus(orders'[id], row, None, None)])
  {
  }

  /** A delivery call writes IN_TRANSPORT rows and cancels with the staff prefix only. */
  lemma TripRowsHarmless(db: Db, id: Id, dto: UpdateTripDto, clock: Id -> nat, writes: seq<Write>, k: nat)
    requires TripWrites(db, id, dto, clock, writes) && k < |writes|
    ensures !IsStudentFault(writes[k].row)
  {
    if dto.status == TripCanceled {
      assert writes[k].row == CancelRow(dto, clock(writes[k].orderId));
      FaultOfMapReason(writes[k].row, Some(FromStaff), dto.reason);
    } else {
      assert writes[k].row == PlainRow(InTransport, clock(writes[k].orderId));
    }
  }

  lemma {:induction false} FanOutChargeless(db: Db, writes: seq<Write>)
    requires forall k :: 0 <= k < |writes| ==> !IsStudentFault(writes[k].row)
    ensures Chargeless(db.orders, FanOut(db, writes).orders)
  {
    if writes != [] {
      var front, last := writes[..|writes| - 1], writes[|writes| - 1];
      FanOutChargeless(db, front);
      if last.orderId in db.orders {
        OneRowChargeless(db.orders, FanOut(db, front).orders, last.orderId, last.row);
      }
    }
  }

  lemma TripStatusKeepsExcess(db: Db, id: Id, dto: UpdateTripDto, caller: Caller, clock: Id -> nat, now: nat,
                              student: Id)
    requires UnownedUncharged(db)
    ensures var after := UpdateDeliveryStatus(db, id, dto, caller, clock, now).db;
            Excess(after, student) == Excess(db, student) && UnownedUncharged(after)
  {
    var writes := TripStatusEffect(db, id, dto, caller, clock, now);
    forall k | 0 <= k < |writes| ensures !IsStudentFault(writes[k].row) {
      TripRowsHarmless(db, id, dto, clock, writes, k);
    }
    FanOutChargeless(db, writes);
    ChargelessKeepsExcess(db, UpdateDeliveryStatus(db, id, dto, caller, clock, now).db, student);
  }

  /** What a deletion takes out of the sum without taking it off the counter. */
  ghost function Forgotten(db: Db, call: Call, student: Id): nat {
    if call.CallDeleteOrder? && Deletes(db, call, call.orderId) then Charge(db.orders[call.orderId], student) else 0
  }

  lemma DeleteOrderExcess(db: Db, call: Call, student: Id)
    requires UnownedUncharged(db) && call.CallDeleteOrder?
    ensures Excess(Step(db, call).db, student) == Excess(db, student) + Forgotten(db, call, student)
    ensures UnownedUncharged(Step(db, call).db)
  {
    if call.orderId in db.orders {
      ChargedSplit(db.orders, student, call.orderId);
    }
  }

  /** An administrator bans the student, or lifts a ban. */
  ghost predicate SetsCounter(db: Db, call: Call, student: Id) {
    && call.CallUserStatus? && call.userId == student
    && HasStudentRow(db, Some(student)) && db.users[student].role == Student
    && (call.userStatus == Banned || (call.userStatus == Available && db.users[student].status == Banned))
  }

  /** By how much that moves the counter: to the threshold, or to one below it, but not below zero. */
  ghost function ByHand(db: Db, call: Call, student: Id): int {
    if SetsCounter(db, call, student) then
      var row := db.users[student].student.value;
      (if call.userStatus == Banned then BanThreshold(db, row.dormitory) else Max(UnbanBase(db, row) - 1, 0))
      - row.numberFault
    else 0
  }

  lemma UserStatusCounter(db: Db, userId: Id, status: UserStatus, student: Id)
    ensures FaultCounter(UpdateUserStatus(db, userId, status).db, student) ==
            FaultCounter(db, student) + ByHand(db, CallUserStatus(userId, status), student)
  {
  }

  lemma UserStatusExcess(db: Db, call: Call, student: Id)
    requires UnownedUncharged(db) && call.CallUserStatus?
    ensures Excess(Step(db, call).db, student) == Excess(db, student) + ByHand(db, call, student)
    ensures UnownedUncharged(Step(db, call).db)
  {
    UserStatusCounter(db, call.userId, call.userStatus, student);
    assert Step(db, call).db.orders == db.orders;
  }

  lemma QuietChargeless(db: Db, call: Call)
    requires !WritesStatus(call) && !call.CallDeleteOrder? && !call.CallUserStatus?
    ensures Chargeless(db.orders, Step(db, call).db.orders) && Step(db, call).db.users == db.users
  {
    var after := Step(db, call).db;
    assert after.orders.Keys == db.orders.Keys && after.users == db.users;
    forall id | id in db.orders
      ensures after.orders[id].studentId == db.orders[id].studentId
      ensures FaultRows(after.orders[id].history) == FaultRows(db.orders[id].history)
    {
      QuietCall(db, call, id);
    }
  }

  lemma StepExcess(db: Db, call: Call, student: Id)
    requires UnownedUncharged(db)
    ensures UnownedUncharged(Step(db, call).db)
    ensures Excess(Step(db, call).db, student) ==
            Excess(db, student) + Forgotten(db, call, student) + ByHand(db, call, student)
  {
    match call
    case CallCreateOrder(newId, request, now, delay) => CreateOrderKeepsExcess(db, newId, request, now, delay, student);
    case CallUpdateStatus(id, dto, role, now) => UpdateStatusKeepsExcess(db, id, dto, role, now, student);
    case CallTripStatus(id, dto, caller, clock, now) => TripStatusKeepsExcess(db, id, dto, caller, clock, now, student);
    case CallDeleteOrder(_, _, _) => DeleteOrderExcess(db, call, student);
    case CallUserStatus(_, _) => UserStatusExcess(db, call, student);
    case _ =>
      QuietChargeless(db, call);
      ChargelessKeepsExcess(db, Step(db, call).db, student);
  }

  /** What the deletions of a run have forgotten of a student. */
  ghost function TotalForgotten(db: Db, calls: seq<Call>, student: Id): nat {
    if calls == [] then 0
    else
      var front := calls[..|calls| - 1];
      TotalForgotten(db, front, student) + Forgotten(Run(db, front), calls[|calls| - 1], student)
  }

  /** What the bans and unbans of a run have moved the counter by. */
  ghost function TotalByHand(db: Db, calls: seq<Call>, student: Id): int {
    if calls == [] then 0
    else
      var front := calls[..|calls| - 1];
      TotalByHand(db, front, student) + ByHand(Run(db, front), calls[|calls| - 1], student)
  }

  /** Fault conservation. Over every run, the counter of a student equals the number of
      student-caused cancel rows over all orders the student owns, plus those of the student's orders
      that were deleted on the way, plus what bans and unbans moved it by. */
  lemma {:induction false} FaultConservation(db: Db, calls: seq<Call>, student: Id)
    requires Initial(db)
    ensures UnownedUncharged(Run(db, calls))
    ensures FaultCounter(Run(db, calls), student) ==
            Charged(Run(db, calls).orders, student) + TotalForgotten(db, calls, student) +
            TotalByHand(db, calls, student)
  {
    if calls != [] {
      FaultConservation(db, calls[..|calls| - 1], student);
      StepExcess(Run(db, calls[..|calls| - 1]), calls[|calls| - 1], student);
    }
  }

  /** A deletion takes charging rows of the student with it. */
  ghost function Forgetting(student: Id): Event {
    (db: Db, call: Call) => Forgotten(db, call, student) > 0
  }

  ghost function CounterSetting(student: Id): Event {
    (db: Db, call: Call) => SetsCounter(db, call, student)
  }

  lemma {:induction false} NothingForgotten(db: Db, calls: seq<Call>, student: Id)
    ensures TotalForgotten(db, calls, student) == 0 <==> !Ever(db, calls, Forgetting(student))
  {
    if calls != [] {
      var front, last := calls[..|calls| - 1], calls[|calls| - 1];
      NothingForgotten(db, front, student);
      EverExtends(db, front, last, Forgetting(student));
      assert calls == front + [last];
    }
  }

  lemma {:induction false} NothingByHand(db: Db, calls: seq<Call>, student: Id)
    requires !Ever(db, calls, CounterSetting(student))
    ensures TotalByHand(db, calls, student) == 0
  {
    if calls != [] {
      var front, last := calls[..|calls| - 1], calls[|calls| - 1];
      EverExtends(db, front, last, CounterSetting(student));
      assert calls == front + [last];
      NothingByHand(db, front, student);
    }
  }

  /** So where no administrator has set it, the counter is the number of charging rows that still
      exist exactly if no order with such a row of the student was ever deleted. */
  lemma CounterShowsRows(db: Db, calls: seq<Call>, student: Id)
    requires Initial(db)
    requires !Ever(db, calls, CounterSetting(student))
    ensures FaultCounter(Run(db, calls), student) == Charged(Run(db, calls).orders, student) <==>
            !Ever(db, calls, Forgetting(student))
  {
    FaultConservation(db, calls, student);
    NothingForgotten(db, calls, student);
    NothingByHand(db, calls, student);
  }
}
