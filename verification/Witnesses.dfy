/** Runs of an empty shop that reach the states in which the code does not do what one would expect.
    Identifiers, times, users and texts are arbitrary. */
module Witnesses {
  import opened Model
  import opened OrderRules
  import opened OrderService
  import opened DeliveryService
  import opened AccountService
  import opened FanOuts
  import opened Effects
  import opened Histories
  import opened Runs
  import opened Grammar
  import opened Faults
  import opened Refusals
  import Bans
  import Claiming
  import Decimal
  import DeliveryContracts
  import Delays
  import Ledger
  import RoundTrip
  import ShippingFee
  import Trips

  lemma Then(db: Db, calls: seq<Call>, call: Call, before: Db, after: Db)
    requires Run(db, calls) == before && Step(before, call).db == after
    ensures Run(db, calls + [call]) == after
  {
    RunExtends(db, calls, call);
  }

  function Plain(status: OrderStatus): UpdateStatusDto {
    UpdateStatusDto(status, None, None, None, None, None)
  }

  function Cancel(cancelType: CancelType, reason: string, image: string): UpdateStatusDto {
    UpdateStatusDto(Canceled, Some(image), Some(reason), None, Some(cancelType), None)
  }

  function With(db: Db, id: Id, order: Order): Db {
    db.(orders := db.orders[id := order])
  }

  lemma AdminCreates(db: Db, id: Id, admin: Id, dto: AdminOrderDto, now: nat)
    requires id !in db.orders && forall o :: o in db.orders ==> !HasKey(db.orders[o], dto.checkCode, dto.brand)
    ensures Step(db, CallCreateOrder(id, ByAdmin(admin, dto), now, 0)).db == With(db, id, NewAdminOrder(dto, now))
  {
    assert FindExistingOrder(db, dto.checkCode, dto.brand) == None;
  }

  lemma StudentPlaces(db: Db, id: Id, student: Id, dto: StudentOrderDto, now: nat)
    requires db.orders == map[] && Eligible(db, student, dto, now)
    ensures Step(db, CallCreateOrder(id, ByStudent(student, dto), now, 0)).db ==
            With(db, id, NewStudentOrder(student, dto, now))
  {
    assert FindExistingOrder(db, dto.checkCode, dto.brand) == None;
  }

  lemma Updates(db: Db, id: Id, dto: UpdateStatusDto, role: Role, now: nat)
    requires id in db.orders && Accepts(db, db.orders[id], dto, role) && !IsStudentCancel(dto)
    ensures Step(db, CallUpdateStatus(id, dto, role, now)).db == With(db, id, Updated(db.orders[id], dto, role, now))
  {
    UpdateStatusEffect(db, id, dto, role, now);
  }

  /** One more accepted update of an order, at the end of a run. */
  lemma UpdateThen(db: Db, front: seq<Call>, base: Db, id: Id, order: Order, dto: UpdateStatusDto, role: Role, now: nat)
    returns (calls: seq<Call>)
    requires Run(db, front) == With(base, id, order)
    requires Accepts(With(base, id, order), order, dto, role) && !IsStudentCancel(dto)
    ensures calls == front + [CallUpdateStatus(id, dto, role, now)]
    ensures Run(db, calls) == With(base, id, Updated(order, dto, role, now))
  {
    var before, after := With(base, id, order), With(base, id, Updated(order, dto, role, now));
    Updates(before, id, dto, role, now);
    assert With(before, id, after.orders[id]) == after;
    calls := front + [CallUpdateStatus(id, dto, role, now)];
    Then(db, front, CallUpdateStatus(id, dto, role, now), before, after);
  }

  function OneOrderTrip(id: Id, staffId: Id): CreateDeliveryDto {
    CreateDeliveryDto([id], Some(staffId), 0)
  }

  function ShippedBy(db: Db, id: Id, staffId: Id): Order
    requires id in db.orders
  {
    db.orders[id].(shipperId := Some(staffId))
  }

  /** A new delivery of one order that is in no other. */
  lemma Assigns(db: Db, d: Id, id: Id, staffId: Id, now: nat)
    requires id in db.orders && d !in db.deliveries && !InSomeDelivery(db, id)
    ensures Step(db, CallCreateDelivery(d, OneOrderTrip(id, staffId), now)).db ==
            With(db, id, ShippedBy(db, id, staffId)).(
              deliveries := db.deliveries[d := NewTrip(OneOrderTrip(id, staffId), now)])
  {
    var dto := OneOrderTrip(id, staffId);
    assert FindMany(db, dto.orderIds) == {id};
    assert Shipped(db.orders, {id}, Some(staffId)) == db.orders[id := ShippedBy(db, id, staffId)];
  }

  const ACCEPT_TRIP := UpdateTripDto(TripAccepted, None, None)

  /** An admin's order with the key is rejected; then the student claims it. */
  lemma LateClaimHappens(db: Db, id: Id, other: Id, admin: Id, student: Id, dto: StudentOrderDto, now: nat)
    returns (calls: seq<Call>, claim: Call)
    requires Initial(db) && Eligible(db, student, dto, now)
    ensures ClaimsTooLate(Run(db, calls), claim)
    ensures Step(Run(db, calls), claim).verdict == Refused(InvalidTransition)
    ensures Step(Run(db, calls), claim).db != Run(db, calls)
  {
    var key := AdminOrderDto(dto.checkCode, dto.brand);
    var create := CallCreateOrder(id, ByAdmin(admin, key), now, 0);
    var reject := CallUpdateStatus(id, Plain(Rejected), Admin, now);
    var created := With(db, id, NewAdminOrder(key, now));
    var rejected := With(created, id, Updated(created.orders[id], Plain(Rejected), Admin, now));
    AdminCreates(db, id, admin, key, now);
    Then(db, [], create, db, created);
    Updates(created, id, Plain(Rejected), Admin, now);
    Then(db, [create], reject, created, rejected);
    calls, claim := [create] + [reject], CallCreateOrder(other, ByStudent(student, dto), now, 0);
    assert HasKey(rejected.orders[id], dto.checkCode, dto.brand);
    assert FindExistingOrder(rejected, dto.checkCode, dto.brand) == Some(id);
    LateClaimSticks(rejected, claim);
    assert Step(rejected, claim).db.orders[id].studentId == Some(student);
  }

  /** An admin's order is canceled and put into a delivery. */
  lemma CanceledShipped(db: Db, id: Id, d: Id, admin: Id, staffId: Id, key: AdminOrderDto, dto: UpdateStatusDto,
                        now: nat)
    returns (calls: seq<Call>)
    requires Initial(db) && dto.status == Canceled && dto.cancelReasonType == Some(FromStaff)
    requires Given(dto.reason) && Given(dto.canceledImage)
    ensures var canceled := Updated(NewAdminOrder(key, now), dto, Admin, now).(shipperId := Some(staffId));
            Run(db, calls) == With(db, id, canceled).(deliveries := map[d := NewTrip(OneOrderTrip(id, staffId), now)])
  {
    var deliver := CallCreateDelivery(d, OneOrderTrip(id, staffId), now);
    var order := Updated(NewAdminOrder(key, now), dto, Admin, now);
    calls := RegisteredReached(db, id, admin, key, now);
    calls := UpdateThen(db, calls, db, id, NewAdminOrder(key, now), dto, Admin, now);
    AddsTrip(With(db, id, order), d, id, staffId, now);
    Then(db, calls, deliver, With(db, id, order),
         With(db, id, order.(shipperId := Some(staffId))).(
           deliveries := map[d := NewTrip(OneOrderTrip(id, staffId), now)]));
    calls := calls + [deliver];
  }

  /** An admin's order is canceled, put into a delivery, and the delivery is accepted. */
  lemma CanceledAcceptHappens(db: Db, id: Id, d: Id, admin: Id, staffId: Id, key: AdminOrderDto, reason: string,
                              image: string, now: nat)
    returns (calls: seq<Call>, accept: Call)
    requires Initial(db) && reason != "" && image != ""
    ensures AcceptsCanceled(Run(db, calls), accept)
    ensures id in Run(db, calls).orders && Run(db, calls).orders[id].latestStatus == Canceled
    ensures id in Step(Run(db, calls), accept).db.orders &&
            Step(Run(db, calls), accept).db.orders[id].latestStatus == InTransport
    ensures Step(Run(db, calls), accept).verdict == Refused(CancelEvidenceMissing)
  {
    calls := CanceledShipped(db, id, d, admin, staffId, key, Cancel(FromStaff, reason, image), now);
    accept := CallTripStatus(d, ACCEPT_TRIP, Caller(staffId, Staff), (o: Id) => now, now);
    var shipped := Run(db, calls);
    assert shipped.deliveries[d].links == [Link(id, 1)];
    assert shipped.deliveries[d].links[0].orderId == id;
    CanceledOrdersRevived(shipped, accept, id);
  }

  /** An order that is not RECEIVED_EXTERNAL is put into a delivery, and the delivery accepted. */
  lemma ForcedThen(db: Db, front: seq<Call>, id: Id, d: Id, staffId: Id, now: nat)
    returns (calls: seq<Call>, accept: Call)
    requires Initial(db) && id in Run(db, front).orders && Run(db, front).deliveries == map[]
    requires Run(db, front).orders[id].latestStatus != ReceivedExternal
    ensures id in Run(db, calls).orders && SameTrail(Run(db, front).orders[id], Run(db, calls).orders[id])
    ensures ForcesTransport(Run(db, calls), accept, id) && WasForced(db, calls + [accept], id)
    ensures var after := Run(db, calls + [accept]); id in after.orders && !Strict(after.orders[id].history)
  {
    var deliver := CallCreateDelivery(d, OneOrderTrip(id, staffId), now);
    accept := CallTripStatus(d, ACCEPT_TRIP, Caller(staffId, Staff), (o: Id) => now, now);
    var before := Run(db, front);
    Assigns(before, d, id, staffId, now);
    var shipped := Step(before, deliver).db;
    calls := front + [deliver];
    Then(db, front, deliver, before, shipped);
    assert shipped.deliveries[d].links[0].orderId == id;
    SinceExtends(db, calls, accept, Forcing(id), Deletion(id));
    StepKeepsOrder(shipped, accept, id);
    RunExtends(db, calls, accept);
    StrictExactly(db, calls + [accept], id);
  }

  /** An admin's order is put into a delivery and the delivery accepted, all while it is pending. */
  lemma ForcingHappens(db: Db, id: Id, d: Id, admin: Id, staffId: Id, key: AdminOrderDto, now: nat)
    returns (calls: seq<Call>)
    requires Initial(db)
    ensures WasForced(db, calls, id) && id in Run(db, calls).orders && !Strict(Run(db, calls).orders[id].history)
  {
    var create := CallCreateOrder(id, ByAdmin(admin, key), now, 0);
    AdminCreates(db, id, admin, key, now);
    Then(db, [], create, db, With(db, id, NewAdminOrder(key, now)));
    var front, accept := ForcedThen(db, [create], id, d, staffId, now);
    calls := front + [accept];
  }

  lemma StudentCancels(db: Db, id: Id, student: Id, dto: UpdateStatusDto, now: nat)
    requires id in db.orders && db.orders[id].studentId == Some(student) && IsStudentCancel(dto)
    requires Accepts(db, db.orders[id], dto, Student)
    ensures Step(db, CallUpdateStatus(id, dto, Student, now)).db ==
            With(ChargeFault(db, student), id, Updated(db.orders[id], dto, Student, now))
  {
    UpdateStatusEffect(db, id, dto, Student, now);
  }

  /** A student's order after the student canceled it and returned it to PENDING. */
  ghost function Revived(student: Id, dto: StudentOrderDto, cancel: UpdateStatusDto, now: nat): Order {
    Updated(Updated(NewStudentOrder(student, dto, now), cancel, Student, now), Plain(Pending), Student, now)
  }

  lemma RevivedCharges(student: Id, dto: StudentOrderDto, cancel: UpdateStatusDto, now: nat)
    requires IsStudentCancel(cancel) && Given(cancel.reason)
    ensures Charge(Revived(student, dto, cancel, now), student) >= 1
    ensures |Revived(student, dto, cancel, now).history| == 3 &&
            Revived(student, dto, cancel, now).history[2].status == Pending
  {
    UpdatedCharge(NewStudentOrder(student, dto, now), cancel, Student, now);
    UpdatedCharge(Updated(NewStudentOrder(student, dto, now), cancel, Student, now), Plain(Pending), Student, now);
  }

  lemma PlacedReached(db: Db, id: Id, student: Id, dto: StudentOrderDto, now: nat) returns (calls: seq<Call>)
    requires Initial(db) && Eligible(db, student, dto, now)
    ensures calls == [CallCreateOrder(id, ByStudent(student, dto), now, 0)]
    ensures Run(db, calls) == With(db, id, NewStudentOrder(student, dto, now))
  {
    calls := [CallCreateOrder(id, ByStudent(student, dto), now, 0)];
    StudentPlaces(db, id, student, dto, now);
    Then(db, [], calls[0], db, With(db, id, NewStudentOrder(student, dto, now)));
  }

  /** The owner of a pending order cancels it and takes the blame, at the end of a run. */
  lemma SelfCancelThen(db: Db, front: seq<Call>, base: Db, id: Id, order: Order, student: Id, dto: UpdateStatusDto,
                       now: nat)
    returns (calls: seq<Call>)
    requires Run(db, front) == With(base, id, order) && order.studentId == Some(student) &&
             order.latestStatus == Pending
    requires HasStudentRow(base, Some(student)) && IsStudentCancel(dto) && Given(dto.reason) && Given(dto.canceledImage)
    ensures calls == front + [CallUpdateStatus(id, dto, Student, now)]
    ensures Run(db, calls) == With(ChargeFault(base, student), id, Updated(order, dto, Student, now))
  {
    var before, after := With(base, id, order), With(ChargeFault(base, student), id, Updated(order, dto, Student, now));
    StudentCancels(before, id, student, dto, now);
    assert With(ChargeFault(before, student), id, after.orders[id]) == after;
    calls := front + [CallUpdateStatus(id, dto, Student, now)];
    Then(db, front, CallUpdateStatus(id, dto, Student, now), before, after);
  }

  lemma RevivedReached(db: Db, id: Id, student: Id, dto: StudentOrderDto, cancelDto: UpdateStatusDto, now: nat)
    returns (calls: seq<Call>)
    requires Initial(db) && Eligible(db, student, dto, now)
    requires IsStudentCancel(cancelDto) && Given(cancelDto.reason) && Given(cancelDto.canceledImage)
    ensures forall k :: 0 <= k < |calls| ==> !calls[k].CallUserStatus?
    ensures Run(db, calls) == With(ChargeFault(db, student), id, Revived(student, dto, cancelDto, now))
  {
    calls := PlacedReached(db, id, student, dto, now);
    var order := NewStudentOrder(student, dto, now);
    calls := SelfCancelThen(db, calls, db, id, order, student, cancelDto, now);
    calls := UpdateThen(db, calls, ChargeFault(db, student), id, Updated(order, cancelDto, Student, now),
                        Plain(Pending), Student, now);
  }

  /** A student cancels an order, as the student's own fault, returns it to PENDING, and deletes it:
      the counter no longer shows what the orders do. */
  lemma ForgettingHappens(db: Db, id: Id, student: Id, dto: StudentOrderDto, reason: string, image: string, now: nat)
    returns (calls: seq<Call>)
    requires Initial(db) && Eligible(db, student, dto, now) && reason != "" && image != ""
    ensures Ever(db, calls, Forgetting(student)) && !Ever(db, calls, CounterSetting(student))
    ensures FaultCounter(Run(db, calls), student) != Charged(Run(db, calls).orders, student)
  {
    var cancelDto := Cancel(FromStudent, reason, image);
    var front := RevivedReached(db, id, student, dto, cancelDto, now);
    var delete := CallDeleteOrder(id, Student, 2);
    calls := front + [delete];
    RevivedCharges(student, dto, cancelDto, now);
    assert Deletes(Run(db, front), delete, id);
    EverExtends(db, front, delete, Forgetting(student));
    CounterShowsRows(db, calls, student);
  }

  function Pictured(status: OrderStatus, image: string): UpdateStatusDto {
    UpdateStatusDto(status, None, None, Some(image), None, Some(image))
  }

  /** An order in transport, moved there step by step with the pictures that are asked for. */
  ghost function Transported(order: Order, image: string, now: nat): Order {
    Updated(Updated(Updated(order, Plain(Accepted), Admin, now), Pictured(ReceivedExternal, image), Admin, now),
            Plain(InTransport), Admin, now)
  }

  lemma TransportedReached(db: Db, front: seq<Call>, id: Id, image: string, now: nat) returns (calls: seq<Call>)
    requires id in Run(db, front).orders && Run(db, front).orders[id].latestStatus == Pending && image != ""
    ensures Run(db, calls) == With(Run(db, front), id, Transported(Run(db, front).orders[id], image, now))
  {
    var before := Run(db, front);
    var order := before.orders[id];
    assert With(before, id, order) == before;
    calls := UpdateThen(db, front, before, id, order, Plain(Accepted), Admin, now);
    var accepted := Updated(order, Plain(Accepted), Admin, now);
    calls := UpdateThen(db, calls, before, id, accepted, Pictured(ReceivedExternal, image), Admin, now);
    var received := Updated(accepted, Pictured(ReceivedExternal, image), Admin, now);
    calls := UpdateThen(db, calls, before, id, received, Plain(InTransport), Admin, now);
  }

  /** A student's cash order that a staff member is about to deliver. */
  ghost function Carried(student: Id, dto: StudentOrderDto, image: string, now: nat): Order {
    Transported(NewStudentOrder(student, dto, now), image, now)
  }

  lemma CarriedReached(db: Db, id: Id, student: Id, dto: StudentOrderDto, image: string, now: nat)
    returns (calls: seq<Call>)
    requires Initial(db) && Eligible(db, student, dto, now) && image != ""
    ensures Run(db, calls) == With(db, id, Carried(student, dto, image, now))
  {
    calls := PlacedReached(db, id, student, dto, now);
    calls := TransportedReached(db, calls, id, image, now);
    var created := With(db, id, NewStudentOrder(student, dto, now));
    assert With(created, id, Carried(student, dto, image, now)) == With(db, id, Carried(student, dto, image, now));
  }

  /** A staff member delivers a student's cash order: it is paid, with the whole fee outstanding. */
  lemma CashDeliveryHappens(db: Db, id: Id, student: Id, dto: StudentOrderDto, image: string, now: nat)
    returns (calls: seq<Call>)
    requires Initial(db) && Eligible(db, student, dto, now) && dto.paymentMethod == Cash && image != ""
    ensures Since(db, calls, Ledger.Disturbing(id), Ledger.Clearing(id))
    ensures Run(db, calls).payments == map[] && id in Run(db, calls).orders
    ensures Run(db, calls).orders[id].isPaid && Outstanding(Run(db, calls).orders[id]) == FeeOf(dto) >= 5000
  {
    var front := CarriedReached(db, id, student, dto, image, now);
    var deliver := CallUpdateStatus(id, Pictured(Delivered, image), Staff, now);
    ShippingFee.FeeBounds(Some(dto.room), dto.building, dto.dormitory, dto.weight);
    var carried := With(db, id, Carried(student, dto, image, now));
    calls := UpdateThen(db, front, db, id, carried.orders[id], Pictured(Delivered, image), Staff, now);
    assert Ledger.Disturbs(carried, deliver, id);
    SinceExtends(db, front, deliver, Ledger.Disturbing(id), Ledger.Clearing(id));
  }

  /** A first payment is asked for; its notification will be processed. */
  lemma Pays(db: Db, payment: Id, id: Id, orderCode: nat, hook: Call)
    requires db.payments == map[] && id in db.orders && orderCode != TEST_ORDER_CODE
    requires hook.CallWebhook? && hook.valid && hook.orderCode == orderCode
    ensures var after := Step(db, CallCreatePayment(payment, id, 1, orderCode)).db;
            after.orders == db.orders && Ledger.Processes(after, hook, id)
  {
    var after := db.(payments := map[payment := Payment(id, 1, false, orderCode, NO_ACCOUNT)]);
    assert CreatePayment(db, payment, id, 1, orderCode).db == after;
    assert after.payments[payment].orderCode == orderCode;
    assert FindPayment(after, orderCode) == Some(payment);
  }

  /** Then a payment of part of the fee comes in: the order is unpaid again. */
  lemma UnpaidAgainHappens(db: Db, id: Id, payment: Id, orderCode: nat, student: Id, dto: StudentOrderDto,
                           image: string, now: nat)
    returns (calls: seq<Call>, hook: Call)
    requires Initial(db) && Eligible(db, student, dto, now) && dto.paymentMethod == Cash && image != ""
    requires orderCode != TEST_ORDER_CODE
    ensures hook.CallWebhook? && 0 < hook.amount < FeeOf(dto)
    ensures id in Run(db, calls).orders && Run(db, calls).orders[id].isPaid
    ensures id in Step(Run(db, calls), hook).db.orders && !Step(Run(db, calls), hook).db.orders[id].isPaid
  {
    var front := CashDeliveryHappens(db, id, student, dto, image, now);
    var pay := CallCreatePayment(payment, id, 1, orderCode);
    hook := CallWebhook(true, orderCode, 1, NO_ACCOUNT);
    calls := front + [pay];
    var delivered := Run(db, front);
    Pays(delivered, payment, id, orderCode, hook);
    Then(db, front, pay, delivered, Step(delivered, pay).db);
    Ledger.WebhookUnpays(Run(db, calls), hook, id);
  }

  /** The picture of a received order is blanked by the update that delivers the order. */
  lemma BlankedPictureHappens(db: Db, id: Id, student: Id, dto: StudentOrderDto, image: string, now: nat)
    returns (calls: seq<Call>)
    requires Initial(db) && Eligible(db, student, dto, now) && image != ""
    ensures id in Run(db, calls).orders && !Given(Run(db, calls).orders[id].receivedImage)
    ensures Mentions(Run(db, calls).orders[id].history, ReceivedExternal)
  {
    var front := CarriedReached(db, id, student, dto, image, now);
    var blanking := UpdateStatusDto(Delivered, None, None, Some(image), None, Some(""));
    var carried := With(db, id, Carried(student, dto, image, now));
    calls := UpdateThen(db, front, db, id, carried.orders[id], blanking, Staff, now);
    assert Run(db, calls).orders[id].history[2].status == ReceivedExternal;
  }

  /** A banned student is deactivated and made available again. */
  lemma LiftedBanHappens(db: Db, student: Id) returns (calls: seq<Call>)
    requires Initial(db) && Bans.Regulated(db, student)
    ensures Bans.Regulated(Run(db, calls), student)
    ensures Run(db, calls).users[student].status == Available
    ensures Bans.Faults(Run(db, calls), student) >= Bans.Threshold(Run(db, calls), student)
  {
    var ban := CallUserStatus(student, Banned);
    var deactivate := CallUserStatus(student, Deactivated);
    var free := CallUserStatus(student, Available);
    var banned := UpdateUserStatus(db, student, Banned).db;
    Then(db, [], ban, db, banned);
    var deactivated := UpdateUserStatus(banned, student, Deactivated).db;
    Then(db, [ban], deactivate, banned, deactivated);
    var freed := UpdateUserStatus(deactivated, student, Available).db;
    Then(db, [ban] + [deactivate], free, deactivated, freed);
    calls := [ban] + [deactivate] + [free];
  }

  lemma UserStatusApart(base: Db, id: Id, order: Order, student: Id, status: UserStatus)
    ensures UpdateUserStatus(With(base, id, order), student, status).db ==
            With(UpdateUserStatus(base, student, status).db, id, order)
  {
    if HasStudentRow(base, Some(student)) {
      var row := base.users[student].student.value;
      var with := With(base, id, order);
      assert BanThreshold(with, row.dormitory) == BanThreshold(base, row.dormitory);
      assert UnbanBase(with, row) == UnbanBase(base, row);
    }
  }

  lemma UserStatusThen(db: Db, front: seq<Call>, base: Db, id: Id, order: Order, student: Id, status: UserStatus)
    returns (calls: seq<Call>)
    requires Run(db, front) == With(base, id, order)
    ensures Run(db, calls) == With(UpdateUserStatus(base, student, status).db, id, order)
  {
    var call := CallUserStatus(student, status);
    calls := front + [call];
    UserStatusApart(base, id, order, student, status);
    Then(db, front, call, With(base, id, order), With(UpdateUserStatus(base, student, status).db, id, order));
  }

  lemma BanChargeUnban(db: Db, student: Id)
    requires HasStudentRow(db, Some(student)) && db.users[student].role == Student
    requires Bans.Unregulated(db, db.users[student].student.value.dormitory) && db.defaultThreshold >= 1
    ensures var banned := UpdateUserStatus(db, student, Banned).db;
            && HasStudentRow(banned, Some(student))
            && var freed := UpdateUserStatus(ChargeFault(banned, student), student, Available).db;
            HasStudentRow(freed, Some(student)) && freed.users[student].status == Available &&
            Bans.Faults(freed, student) == db.defaultThreshold
  {
  }

  /** Without a regulation: a banned student is charged once more, and unbanned at the threshold. */
  lemma FreeAtThresholdHappens(db: Db, id: Id, student: Id, dto: StudentOrderDto, reason: string, image: string,
                               now: nat)
    returns (calls: seq<Call>)
    requires Initial(db) && Eligible(db, student, dto, now) && reason != "" && image != ""
    requires db.users[student].role == Student && Bans.Unregulated(db, db.users[student].student.value.dormitory)
    requires db.defaultThreshold >= 1
    ensures HasStudentRow(Run(db, calls), Some(student)) && Run(db, calls).users[student].status == Available
    ensures Bans.Faults(Run(db, calls), student) == db.defaultThreshold
  {
    BanChargeUnban(db, student);
    var order, cancelDto := NewStudentOrder(student, dto, now), Cancel(FromStudent, reason, image);
    var banned := UpdateUserStatus(db, student, Banned).db;
    calls := PlacedReached(db, id, student, dto, now);
    calls := UserStatusThen(db, calls, db, id, order, student, Banned);
    calls := SelfCancelThen(db, calls, banned, id, order, student, cancelDto, now);
    calls := UserStatusThen(db, calls, ChargeFault(banned, student), id, Updated(order, cancelDto, Student, now),
                            student, Available);
  }

  /** A shop with two orders, each in a pending delivery of the same staff member. */
  ghost predicate TwoTrips(db: Db, o: Id, o': Id, d: Id, d': Id, staffId: Id) {
    && o != o' && d != d' && o in db.orders && o' in db.orders && db.deliveries.Keys == {d, d'}
    && db.deliveries[d].links == [Link(o, 1)] && db.deliveries[d'].links == [Link(o', 1)]
    && db.deliveries[d].staffId == db.deliveries[d'].staffId == Some(staffId)
    && db.orders[o].latestStatus == db.orders[o'].latestStatus == Pending
    && db.deliveries[d].latestStatus == db.deliveries[d'].latestStatus == TripPending
  }

  lemma TwoOrdersReached(db: Db, o: Id, o': Id, admin: Id, key: AdminOrderDto, key': AdminOrderDto, now: nat)
    returns (calls: seq<Call>)
    requires Initial(db) && o != o' && key.checkCode != key'.checkCode
    ensures Run(db, calls) == With(With(db, o, NewAdminOrder(key, now)), o', NewAdminOrder(key', now))
  {
    var create := CallCreateOrder(o, ByAdmin(admin, key), now, 0);
    var create' := CallCreateOrder(o', ByAdmin(admin, key'), now, 0);
    var one := With(db, o, NewAdminOrder(key, now));
    AdminCreates(db, o, admin, key, now);
    Then(db, [], create, db, one);
    AdminCreates(one, o', admin, key', now);
    calls := [create] + [create'];
    Then(db, [create], create', one, With(one, o', NewAdminOrder(key', now)));
  }

  lemma AddsTrip(db: Db, d: Id, o: Id, staffId: Id, now: nat)
    requires o in db.orders && d !in db.deliveries
    requires forall e :: e in db.deliveries ==> |db.deliveries[e].links| == 1 && db.deliveries[e].links[0].orderId != o
    ensures var after := Step(db, CallCreateDelivery(d, OneOrderTrip(o, staffId), now)).db;
            after.deliveries == db.deliveries[d := NewTrip(OneOrderTrip(o, staffId), now)]
            && after.orders == db.orders[o := ShippedBy(db, o, staffId)]
  {
    Assigns(db, d, o, staffId, now);
  }

  lemma TwoTripsReached(db: Db, o: Id, o': Id, d: Id, d': Id, admin: Id, staffId: Id, key: AdminOrderDto,
                        key': AdminOrderDto, now: nat)
    returns (calls: seq<Call>)
    requires Initial(db) && o != o' && d != d' && key.checkCode != key'.checkCode
    ensures TwoTrips(Run(db, calls), o, o', d, d', staffId)
  {
    var front := TwoOrdersReached(db, o, o', admin, key, key', now);
    var two := Run(db, front);
    var deliver := CallCreateDelivery(d, OneOrderTrip(o, staffId), now);
    var deliver' := CallCreateDelivery(d', OneOrderTrip(o', staffId), now);
    AddsTrip(two, d, o, staffId, now);
    var three := Step(two, deliver).db;
    Then(db, front, deliver, two, three);
    AddsTrip(three, d', o', staffId, now);
    calls := front + [deliver] + [deliver'];
    Then(db, front + [deliver], deliver', three, Step(three, deliver').db);
  }

  /** An accept by a caller without a running delivery starts a delivery whose order is not canceled. */
  lemma Starts(db: Db, d: Id, o: Id, caller: Caller, now: nat)
    requires d in db.deliveries && db.deliveries[d].links == [Link(o, 1)] && !IsGoingDelivery(db, caller.id)
    requires o in db.orders && db.orders[o].latestStatus != Canceled
    ensures var after := Step(db, CallTripStatus(d, ACCEPT_TRIP, caller, (x: Id) => now, now)).db;
            after.deliveries.Keys == db.deliveries.Keys
            && after.deliveries[d].latestStatus == TripAccepted &&
               after.deliveries[d].staffId == db.deliveries[d].staffId
            && (forall e :: e in db.deliveries && e != d ==> after.deliveries[e] == db.deliveries[e])
            && after.orders.Keys == db.orders.Keys
            && forall x :: x in db.orders && x != o ==> after.orders[x] == db.orders[x]
  {
    var clock := (x: Id) => now;
    var links := db.deliveries[d].links;
    assert links[0].orderId == o && !AllOrdersCanceled(db, links) by {
      assert !HasStatus(db, links[0], Canceled);
    }
    FanOutKeeps(db, TransportWrites(links, clock));
    forall x | x in db.orders && x != o ensures FanOut(db, TransportWrites(links, clock)).orders[x] == db.orders[x] {
      TransportAt(db, links, clock, x);
    }
  }

  /** Two deliveries of one staff member are accepted by somebody else: both run. */
  lemma BrokenOneTripHappens(db: Db, o: Id, o': Id, d: Id, d': Id, admin: Id, staffId: Id, key: AdminOrderDto,
                             key': AdminOrderDto, now: nat)
    returns (calls: seq<Call>)
    requires Initial(db) && o != o' && d != d' && key.checkCode != key'.checkCode && admin != staffId
    ensures !Trips.OneTrip(Run(db, calls))
  {
    var front := TwoTripsReached(db, o, o', d, d', admin, staffId, key, key', now);
    var accept := CallTripStatus(d, ACCEPT_TRIP, Caller(admin, Admin), (x: Id) => now, now);
    var accept' := CallTripStatus(d', ACCEPT_TRIP, Caller(admin, Admin), (x: Id) => now, now);
    var pending := Run(db, front);
    var one := Step(pending, accept).db;
    Starts(pending, d, o, Caller(admin, Admin), now);
    Then(db, front, accept, pending, one);
    var two := Step(one, accept').db;
    Starts(one, d', o', Caller(admin, Admin), now);
    Then(db, front + [accept], accept', one, two);
    calls := front + [accept] + [accept'];
    assert Trips.IsRunning(two, d, staffId) && Trips.IsRunning(two, d', staffId);
  }

  lemma AddsSecond(db: Db, d: Id, o: Id, o': Id)
    requires d in db.deliveries && db.deliveries[d].latestStatus == TripPending &&
             db.deliveries[d].links == Numbered([o])
    requires o' in db.orders && o != o'
    ensures UpdateDelivery(db, d, UpdateDeliveryDto(Some([o']), None, None)).verdict == Done
  {
    assert FindMany(db, [o']) == {o'};
    var links := Numbered([o]) + Numbered([o']);
    assert links[0].orderId == o && links[1].orderId == o' && |links| == 2;
  }

  /** A second order is added to a pending delivery: its count and its numbering are wrong. */
  lemma RecountLostHappens(db: Db, o: Id, o': Id, d: Id, admin: Id, staffId: Id, key: AdminOrderDto,
                           key': AdminOrderDto, now: nat)
    returns (calls: seq<Call>)
    requires Initial(db) && o != o' && key.checkCode != key'.checkCode
    ensures d in Run(db, calls).deliveries
    ensures Run(db, calls).deliveries[d].numberOrder != |Run(db, calls).deliveries[d].links|
    ensures !RoundTrip.DistinctSequences(Run(db, calls).deliveries[d].links)
  {
    var front := TwoOrdersReached(db, o, o', admin, key, key', now);
    var two := Run(db, front);
    var deliver := CallCreateDelivery(d, OneOrderTrip(o, staffId), now);
    AddsTrip(two, d, o, staffId, now);
    var shipped := Step(two, deliver).db;
    Then(db, front, deliver, two, shipped);
    var dto := UpdateDeliveryDto(Some([o']), None, None);
    AddsSecond(shipped, d, o, o');
    RoundTrip.UpdateLosesCount(shipped, d, dto);
    Then(db, front + [deliver], CallUpdateDelivery(d, dto), shipped, UpdateDelivery(shipped, d, dto).db);
    calls := front + [deliver] + [CallUpdateDelivery(d, dto)];
  }

  /** An order that was received and is in transport is forced there once more by the accept of a
      delivery it was put into. */
  lemma ForcingAfterReceipt(db: Db, id: Id, d: Id, student: Id, staffId: Id, dto: StudentOrderDto, image: string,
                            now: nat)
    returns (calls: seq<Call>, accept: Call)
    requires Initial(db) && Eligible(db, student, dto, now) && image != ""
    ensures id in Run(db, calls).orders && Mentions(Run(db, calls).orders[id].history, ReceivedExternal)
    ensures Run(db, calls).orders[id].latestStatus == InTransport && ForcesTransport(Run(db, calls), accept, id)
    ensures var after := Run(db, calls + [accept]); id in after.orders && !Strict(after.orders[id].history)
  {
    var front := CarriedReached(db, id, student, dto, image, now);
    assert Run(db, front).orders[id].history[2].status == ReceivedExternal;
    calls, accept := ForcedThen(db, front, id, d, staffId, now);
  }

  /** The delay of one order while there are no deliveries. */
  lemma DelayThen(db: Db, front: seq<Call>, base: Db, id: Id, order: Order, timeslot: string)
    returns (calls: seq<Call>)
    requires Run(db, front) == With(base, id, order) && base.deliveries == map[]
    requires !Exceeds(Due(base, order), base.numberOf(timeslot))
    ensures Run(db, calls) == With(base, id, order.(deliveryDate := Some(timeslot)))
    ensures calls == front + [CallDelayOrders([id], timeslot)]
  {
    var before, after := With(base, id, order), With(base, id, order.(deliveryDate := Some(timeslot)));
    calls := front + [CallDelayOrders([id], timeslot)];
    Delays.DelayAllOrNone(before, [id], timeslot);
    var delayed := DelayOrders(before, [id], timeslot);
    assert id in [id];
    assert delayed.db.orders == after.orders;
    Then(db, front, CallDelayOrders([id], timeslot), before, after);
  }

  lemma RegisteredReached(db: Db, id: Id, admin: Id, key: AdminOrderDto, now: nat) returns (calls: seq<Call>)
    requires Initial(db)
    ensures calls == [CallCreateOrder(id, ByAdmin(admin, key), now, 0)]
    ensures Run(db, calls) == With(db, id, NewAdminOrder(key, now))
  {
    calls := [CallCreateOrder(id, ByAdmin(admin, key), now, 0)];
    AdminCreates(db, id, admin, key, now);
    Then(db, [], calls[0], db, With(db, id, NewAdminOrder(key, now)));
  }

  /** An admin's order is given a date by a delay: the student it is for can no longer claim it. */
  lemma UnclaimableHappens(db: Db, id: Id, other: Id, admin: Id, student: Id, dto: StudentOrderDto, timeslot: string,
                           now: nat)
    returns (calls: seq<Call>)
    requires Initial(db) && Eligible(db, student, dto, now) && timeslot != ""
    requires !Exceeds(Finite(0.0), db.numberOf(timeslot))
    ensures Claiming.Unowned(Run(db, calls), id) && Run(db, calls).orders[id].latestStatus == Pending
    ensures HasKey(Run(db, calls).orders[id], dto.checkCode, dto.brand) && !Claimable(Run(db, calls).orders[id])
    ensures Step(Run(db, calls), CallCreateOrder(other, ByStudent(student, dto), now, 0)) ==
            Reply(Run(db, calls), Refused(AlreadyCreated))
  {
    var key := AdminOrderDto(dto.checkCode, dto.brand);
    calls := RegisteredReached(db, id, admin, key, now);
    calls := DelayThen(db, calls, db, id, NewAdminOrder(key, now), timeslot);
    var dated := Run(db, calls);
    assert FindExistingOrder(dated, dto.checkCode, dto.brand) == Some(id) by {
      assert HasKey(dated.orders[id], dto.checkCode, dto.brand);
    }
  }

  /** ... and an admin who registers it again confirms it: accepted, without an owner. */
  lemma OwnerlessMatchHappens(db: Db, id: Id, other: Id, admin: Id, key: AdminOrderDto, timeslot: string, now: nat)
    returns (calls: seq<Call>)
    requires Initial(db) && timeslot != "" && !Exceeds(Finite(0.0), db.numberOf(timeslot))
    ensures Claiming.Unowned(Run(db, calls), id) && Run(db, calls).orders[id].latestStatus == Accepted
  {
    calls := RegisteredReached(db, id, admin, key, now);
    calls := DelayThen(db, calls, db, id, NewAdminOrder(key, now), timeslot);
    var dated := Run(db, calls);
    assert FindExistingOrder(dated, key.checkCode, key.brand) == Some(id) by {
      assert HasKey(dated.orders[id], key.checkCode, key.brand);
    }
    ConfirmEffect(dated, id, Admin, now, 0);
    var again := CallCreateOrder(other, ByAdmin(admin, key), now, 0);
    Then(db, calls, again, dated, With(dated, id, Twice(dated.orders[id], now, 0)));
    calls := calls + [again];
  }

  /** An admin's order is paid for before anybody claims it. */
  lemma PrepaidReached(db: Db, id: Id, payment: Id, orderCode: nat, admin: Id, key: AdminOrderDto, hook: Call, now: nat)
    returns (calls: seq<Call>)
    requires Initial(db) && orderCode != TEST_ORDER_CODE
    requires hook == CallWebhook(true, orderCode, 1, NO_ACCOUNT)
    ensures Run(db, calls).orders == map[id := Collected(NewAdminOrder(key, now), 1)]
    ensures Run(db, calls).users == db.users
    ensures calls != [] && calls[|calls| - 1] == hook && Ledger.Processes(Run(db, calls), hook, id)
  {
    var front := RegisteredReached(db, id, admin, key, now);
    var registered := Run(db, front);
    var pay := CallCreatePayment(payment, id, 1, orderCode);
    var billed := registered.(payments := map[payment := Payment(id, 1, false, orderCode, NO_ACCOUNT)]);
    Then(db, front, pay, registered, billed);
    BilledIsProcessed(billed, payment, id, orderCode, hook);
    calls := front + [pay] + [hook];
    Then(db, front + [pay], hook, billed, Step(billed, hook).db);
  }

  lemma BilledIsProcessed(db: Db, payment: Id, id: Id, orderCode: nat, hook: Call)
    requires db.payments.Keys == {payment} && db.payments[payment].orderCode == orderCode
    requires db.payments[payment].orderId == id && id in db.orders && orderCode != TEST_ORDER_CODE
    requires hook == CallWebhook(true, orderCode, 1, NO_ACCOUNT)
    ensures Ledger.Processes(db, hook, id) && Ledger.Processes(Step(db, hook).db, hook, id)
    ensures Step(db, hook).db.orders == db.orders[id := Collected(db.orders[id], 1)]
    ensures Step(db, hook).db.users == db.users
  {
    assert FindPayment(db, orderCode) == Some(payment);
    var after := Step(db, hook).db;
    assert after.payments.Keys == {payment} && after.payments[payment].orderCode == orderCode;
    assert FindPayment(after, orderCode) == Some(payment);
  }

  /** A student claims such an order: it is paid, with the whole fee outstanding. */
  lemma PrepaidClaimHappens(db: Db, id: Id, other: Id, payment: Id, orderCode: nat, admin: Id, student: Id,
                            dto: StudentOrderDto, now: nat)
    returns (calls: seq<Call>, claim: Call)
    requires Initial(db) && Eligible(db, student, dto, now) && orderCode != TEST_ORDER_CODE
    ensures Ledger.Disturbs(Run(db, calls), claim, id)
    ensures var after := Step(Run(db, calls), claim).db;
            Owned(after, id) && after.orders[id].isPaid && !Ledger.PaidAgrees(after.orders[id])
  {
    var key := AdminOrderDto(dto.checkCode, dto.brand);
    var hook := CallWebhook(true, orderCode, 1, NO_ACCOUNT);
    calls := PrepaidReached(db, id, payment, orderCode, admin, key, hook, now);
    claim := CallCreateOrder(other, ByStudent(student, dto), now, 0);
    var before := Run(db, calls);
    assert FindExistingOrder(before, dto.checkCode, dto.brand) == Some(id) by {
      assert HasKey(before.orders[id], dto.checkCode, dto.brand);
    }
    assert Ledger.Prices(before, claim, id);
    Ledger.PricingStartsLedger(before, claim, id);
  }

  /** A notification arrives a second time: its amount is taken off again. */
  lemma RedeliveryHappens(db: Db, id: Id, payment: Id, orderCode: nat, admin: Id, key: AdminOrderDto, now: nat)
    returns (calls: seq<Call>, hook: Call)
    requires Initial(db) && orderCode != TEST_ORDER_CODE
    ensures calls != [] && calls[|calls| - 1] == hook && hook.CallWebhook? && id in Run(db, calls).orders
    ensures var again := Step(Run(db, calls), hook).db;
            id in again.orders && Outstanding(again.orders[id]) != Outstanding(Run(db, calls).orders[id])
  {
    hook := CallWebhook(true, orderCode, 1, NO_ACCOUNT);
    calls := PrepaidReached(db, id, payment, orderCode, admin, key, hook, now);
    Ledger.WebhookEffect(Run(db, calls), hook, id);
  }

  /** A student's order is delayed to a text that is no number, and then to the first second there
      was: it is due earlier than before. */
  lemma BackwardsHappens(db: Db, id: Id, student: Id, dto: StudentOrderDto, blur: string, now: nat)
    returns (calls: seq<Call>, order: Order)
    requires Initial(db) && Eligible(db, student, dto, now) && dto.deliveryDay > 0
    requires Delays.ReadsDecimals(db) && db.numberOf(blur) == NaN
    ensures order == NewStudentOrder(student, dto, now)
    ensures id in Run(db, calls).orders && Exceeds(Due(db, order), Due(db, Run(db, calls).orders[id]))
  {
    order := NewStudentOrder(student, dto, now);
    calls := PlacedReached(db, id, student, dto, now);
    calls := DelayThen(db, calls, db, id, order, blur);
    calls := DelayThen(db, calls, db, id, order.(deliveryDate := Some(blur)), Decimal.ToText(0));
    assert db.numberOf(Decimal.ToText(FirstSecond(dto.deliveryDay))) == Finite(FirstSecond(dto.deliveryDay) as real);
    assert db.numberOf(Decimal.ToText(0)) == Finite(0.0);
  }

  /** A pending delivery is handed to another staff member. */
  lemma ReassignmentHappens(db: Db, id: Id, d: Id, admin: Id, staffId: Id, staffId': Id, key: AdminOrderDto, now: nat)
    returns (calls: seq<Call>, update: Call)
    requires Initial(db) && staffId != staffId'
    ensures d in Run(db, calls).deliveries && Run(db, calls).deliveries[d].staffId == Some(staffId)
    ensures var reply := Step(Run(db, calls), update);
            reply.verdict == Done && d in reply.db.deliveries && reply.db.deliveries[d].staffId == Some(staffId')
  {
    var front := RegisteredReached(db, id, admin, key, now);
    var registered := Run(db, front);
    var deliver := CallCreateDelivery(d, OneOrderTrip(id, staffId), now);
    AddsTrip(registered, d, id, staffId, now);
    calls := front + [deliver];
    var shipped := Step(registered, deliver).db;
    Then(db, front, deliver, registered, shipped);
    var dto := UpdateDeliveryDto(Some([]), Some(staffId'), None);
    update := CallUpdateDelivery(d, dto);
    DeliveryContracts.UpdateDeliveryExactly(shipped, d, dto);
  }
}
