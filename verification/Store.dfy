/** The services at work: the tables as mutable state, and one method a service call that updates
    them step by step. Each method is proved to do what the function of its service says, and to
    keep the tables intact. */
module Store {
  import opened Model
  import opened OrderRules
  import opened OrderService
  import opened DeliveryService
  import opened AccountService
  import opened Effects
  import opened Integrity
  import opened RoundTrip
  import opened Pagination
  import opened Registration
  import opened OrderContracts
  import opened DeliveryContracts
  import opened AccountContracts
  import Statistics
  import Clocks
  import Decimal
  import ShippingFee

  class Store {
    var orders: map<Id, Order>
    var deliveries: map<Id, Delivery>
    var users: map<Id, User>
    var payments: map<Id, Payment>
    const regulations: map<Dormitory, int>
    const defaultThreshold: int
    const numberOf: string -> Number

    function Tables(): Db
      reads this
    {
      Db(orders, deliveries, users, payments, regulations, defaultThreshold, numberOf)
    }

    ghost predicate Valid()
      reads this
    {
      Intact(Tables())
    }

    /** A shop without orders. */
    constructor (users: map<Id, User>, regulations: map<Dormitory, int>, defaultThreshold: int,
                 numberOf: string -> Number)
      ensures Valid()
      ensures Tables() == Db(map[], map[], users, map[], regulations, defaultThreshold, numberOf)
    {
      this.orders, this.deliveries, this.users, this.payments := map[], map[], users, map[];
      this.regulations, this.defaultThreshold, this.numberOf := regulations, defaultThreshold, numberOf;
    }

    method FindExistingOrder(checkCode: string, brand: string) returns (found: Option<Id>)
      requires Valid()
      ensures found == OrderService.FindExistingOrder(Tables(), checkCode, brand)
    {
      if id :| id in orders && HasKey(orders[id], checkCode, brand) {
        found := Some(id);
      } else {
        found := None;
      }
    }

    method FindPayment(orderCode: nat) returns (found: Option<Id>)
      requires Valid()
      ensures found == AccountService.FindPayment(Tables(), orderCode)
    {
      if p :| p in payments && payments[p].orderCode == orderCode {
        found := Some(p);
      } else {
        found := None;
      }
    }

    /** One status transaction: the order gains the row, shows its status, and keeps a picture that
        is not replaced; nothing else changes, and nothing at all without the order. */
    method CreateOrderStatusHistory(id: Id, status: OrderStatus, now: nat, reason: Option<string>,
                                    canceledImage: Option<string>, finishedImage: Option<string>,
                                    receivedImage: Option<string>)
      modifies this`orders
      ensures Tables() == AppendStatus(old(Tables()), id,
                                       HistoryRow(status, Decimal.ToText(now), reason, canceledImage),
                                       finishedImage, receivedImage)
      ensures old(Valid()) ==> Valid()
      ensures orders.Keys == old(orders).Keys && forall o :: o in orders && o != id ==> orders[o] == old(orders)[o]
      ensures id in orders ==>
                StatusWritten(old(orders)[id], orders[id],
                              HistoryRow(status, Decimal.ToText(now), reason, canceledImage),
                              finishedImage, receivedImage)
    {
      if Valid() {
        AppendStatusKeepsIntact(Tables(), id, HistoryRow(status, Decimal.ToText(now), reason, canceledImage),
                                finishedImage, receivedImage);
      }
      AppendStatusEffect(Tables(), id, HistoryRow(status, Decimal.ToText(now), reason, canceledImage), finishedImage,
                         receivedImage);
      if id in orders {
        var order := orders[id];
        var row := HistoryRow(status, Decimal.ToText(now), reason, canceledImage);
        order := order.(history := order.history + [row]);
        order := order.(latestStatus := status);
        if finishedImage.Some? {
          order := order.(finishedImage := finishedImage);
        }
        if receivedImage.Some? {
          order := order.(receivedImage := receivedImage);
        }
        orders := orders[id := order];
      }
    }

    /** The fault transaction of a student-caused cancel: one fault more, and a ban from the threshold
        on. */
    method ChargeStudent(studentId: Id)
      requires HasStudentRow(Tables(), Some(studentId))
      modifies this`users
      ensures Tables() == ChargeFault(old(Tables()), studentId)
      ensures OwnerCharged(old(Tables()), Tables(), studentId)
    {
      ChargeExactly(Tables(), studentId);
      var student := users[studentId].student.value;
      var newFailedCount := student.numberFault + 1;
      var bannedThreshold := BanThreshold(Tables(), student.dormitory);
      var shouldBan := newFailedCount >= bannedThreshold;
      var user := users[studentId].(student := Some(student.(numberFault := newFailedCount)));
      if shouldBan {
        user := user.(status := Banned);
      }
      users := users[studentId := user];
    }

    /** The checks of a cancel, and the fault transaction. */
    method CheckCancel(order: Order, dto: UpdateStatusDto, role: Role) returns (verdict: Verdict)
      modifies this`users
      ensures Reply(Tables(), verdict) == CancelChecks(old(Tables()), order, dto, role)
    {
      if !HasCancelPermission(role, order.latestStatus) {
        return Refused(CancelForbidden);
      }
      if dto.cancelReasonType.None? || !Given(dto.reason) {
        return Refused(CancelReasonMissing);
      }
      if !Given(dto.canceledImage) {
        return Refused(CancelImageMissing);
      }
      if dto.cancelReasonType == Some(FromStudent) {
        if !HasStudentRow(Tables(), order.studentId) {
          return Refused(StudentNotFound);
        }
        ChargeStudent(order.studentId.value);
      }
      verdict := Done;
    }

    method UpdateStatus(id: Id, dto: UpdateStatusDto, role: Role, now: nat) returns (verdict: Verdict)
      modifies this`orders, this`users
      ensures Reply(Tables(), verdict) == OrderService.UpdateStatus(old(Tables()), id, dto, role, now)
      ensures UpdateStatusOutcome(old(Tables()), id, dto, role, now, Reply(Tables(), verdict))
      ensures old(Valid()) ==> Valid()
    {
      if Valid() {
        UpdateStatusKeepsIntact(Tables(), id, dto, role, now);
      }
      verdict := Done;
      if id !in orders {
        verdict := Refused(OrderNotFound);
      } else if dto.status == ReceivedExternal && !Given(dto.receivedImage) {
        verdict := Refused(ReceivedImageMissing);
      } else if dto.status == Delivered && !Given(dto.finishedImage) {
        verdict := Refused(FinishedImageMissing);
      } else {
        var order := orders[id];
        if dto.status == Canceled {
          verdict := CheckCancel(order, dto, role);
        }
        if verdict == Done {
          verdict := MoveOrder(id, dto, role, now);
        }
      }
      UpdateStatusExactly(old(Tables()), id, dto, role, now);
    }

    /** The transition check, the cash settlement, and the status transaction. */
    method MoveOrder(id: Id, dto: UpdateStatusDto, role: Role, now: nat) returns (verdict: Verdict)
      requires id in orders
      modifies this`orders
      ensures Reply(Tables(), verdict) ==
              if !IsValidTransition(old(orders)[id].latestStatus, dto.status)
              then Reply(old(Tables()), Refused(InvalidTransition))
              else Reply(AppendStatus(SettleByCash(old(Tables()), id, dto, role), id, StatusRowOf(dto, now),
                                      dto.finishedImage, dto.receivedImage), Done)
    {
      var order := orders[id];
      if !IsValidTransition(order.latestStatus, dto.status) {
        return Refused(InvalidTransition);
      }
      if role == Staff && dto.status == Delivered && order.paymentMethod == Some(Cash) {
        orders := orders[id := orders[id].(isPaid := true)];
      }
      CreateOrderStatusHistory(id, dto.status, now, MapReason(dto.cancelReasonType, dto.reason), dto.canceledImage,
                               dto.finishedImage, dto.receivedImage);
      verdict := Done;
    }

    /** The two-party match: updateStatus to ACCEPTED, and one more ACCEPTED row. */
    method ConfirmOrder(id: Id, role: Role, now: nat, delay: nat) returns (verdict: Verdict)
      modifies this`orders, this`users
      ensures Reply(Tables(), verdict) == Confirm(old(Tables()), id, role, now, delay)
    {
      verdict := UpdateStatus(id, ACCEPT, role, now);
      if verdict.Refused? {
        return;
      }
      CreateOrderStatusHistory(id, Accepted, now + delay, None, None, None, None);
    }

    method CreateOrder(newId: Id, request: OrderRequest, now: nat, delay: nat) returns (verdict: Verdict)
      requires Valid()
      modifies this`orders, this`users
      ensures Reply(Tables(), verdict) == OrderService.CreateOrder(old(Tables()), newId, request, now, delay)
      ensures Valid()
    {
      match request
      case ByStudent(student, dto) => verdict := CreateStudentOrder(newId, student, dto, now, delay);
      case ByAdmin(_, dto) => verdict := CreateAdminOrder(newId, dto, now, delay);
      case ByStaff(_) => verdict := Refused(InvalidCreation);
    }

    /** A student's columns in an order that an admin registered. */
    method ClaimOrder(id: Id, student: Id, dto: StudentOrderDto)
      requires id in orders
      modifies this`orders
      ensures orders == old(orders)[id := Claimed(old(orders)[id], student, dto)]
    {
      var amount := ShippingFee.GetShippingFee(Some(dto.room), dto.building, dto.dormitory, dto.weight);
      orders := orders[id := orders[id].(
        studentId := Some(student),
        shippingFee := Some(amount),
        deliveryDate := Some(DateText(dto.deliveryDay)),
        room := Some(dto.room),
        building := Some(dto.building),
        dormitory := Some(dto.dormitory),
        remainingAmount := Some(amount))];
    }

    method CreateStudentOrder(newId: Id, student: Id, dto: StudentOrderDto, now: nat, delay: nat)
      returns (verdict: Verdict)
      requires Valid()
      modifies this`orders, this`users
      ensures Reply(Tables(), verdict) ==
              OrderService.CreateStudentOrder(old(Tables()), newId, student, dto, now, delay)
      ensures Valid()
      ensures verdict == Done <==> old(StudentMayOrder(Tables(), newId, student, dto, now))
      ensures verdict == Done ==> exists id :: Placed(old(Tables()), Tables(), id, student, dto, now, delay)
    {
      CreateOrderKeepsIntact(Tables(), newId, ByStudent(student, dto), now, delay);
      var today := now / SECONDS_PER_DAY;
      if student !in users {
        verdict := Refused(UserNotFound);
      } else if users[student].status == Banned {
        verdict := Refused(AccountBanned);
      } else if dto.deliveryDay == today {
        verdict := Refused(SameDayDelivery);
      } else {
        var found := FindExistingOrder(dto.checkCode, dto.brand);
        if found.None? {
          verdict := PlaceOrder(newId, student, dto, now);
        } else if orders[found.value].studentId.None? && LacksAddress(orders[found.value]) {
          if users[student].student.None? {
            verdict := Refused(StudentNotFound);
          } else {
            ClaimOrder(found.value, student, dto);
            verdict := ConfirmOrder(found.value, Student, now, delay);
          }
        } else if orders[found.value].studentId.Some? && orders[found.value].studentId.value != student {
          verdict := Refused(OwnedByAnother);
        } else {
          verdict := Refused(AlreadyCreated);
        }
      }
      StudentOrderExactly(old(Tables()), newId, student, dto, now, delay);
    }

    /** A new order of a student, pending and priced. */
    method PlaceOrder(newId: Id, student: Id, dto: StudentOrderDto, now: nat) returns (verdict: Verdict)
      requires student in users
      modifies this`orders
      ensures Reply(Tables(), verdict) ==
              if users[student].student.None? then Reply(old(Tables()), Refused(StudentNotFound))
              else InsertOrder(old(Tables()), newId, NewStudentOrder(student, dto, now))
    {
      if users[student].student.None? {
        return Refused(StudentNotFound);
      }
      if newId in orders {
        return Refused(DuplicateKey);
      }
      var amount := ShippingFee.GetShippingFee(Some(dto.room), dto.building, dto.dormitory, dto.weight);
      orders := orders[newId := Order(dto.checkCode, dto.brand, Some(student), None, Some(dto.product),
        Some(dto.weight), Some(dto.paymentMethod), Some(dto.room), Some(dto.building), Some(dto.dormitory),
        Some(DateText(dto.deliveryDay)), Some(amount), Some(amount), false, None, None, Pending,
        [PlainRow(Pending, now)])];
      verdict := Done;
    }

    method CreateAdminOrder(newId: Id, dto: AdminOrderDto, now: nat, delay: nat) returns (verdict: Verdict)
      requires Valid()
      modifies this`orders, this`users
      ensures Reply(Tables(), verdict) == OrderService.CreateAdminOrder(old(Tables()), newId, dto, now, delay)
      ensures Valid()
      ensures verdict == Done <==> old(AdminMayOrder(Tables(), newId, dto))
      ensures verdict == Done ==> exists id :: Registered(old(Tables()), Tables(), id, dto, now, delay)
      ensures verdict != Done ==> Tables() == old(Tables())
    {
      CreateOrderKeepsIntact(Tables(), newId, ByAdmin(0, dto), now, delay);
      AdminOrderExactly(Tables(), newId, dto, now, delay);
      var found := FindExistingOrder(dto.checkCode, dto.brand);
      if found.Some? {
        if LacksAddress(orders[found.value]) {
          return Refused(AlreadyCreated);
        }
        verdict := ConfirmOrder(found.value, Admin, now, delay);
      } else if newId in orders {
        return Refused(DuplicateKey);
      } else {
        orders := orders[newId := NewAdminOrder(dto, now)];
        verdict := Done;
      }
    }

    method DeleteOrder(id: Id, role: Role, latest: nat) returns (verdict: Verdict)
      requires Valid()
      modifies this`orders, this`payments
      ensures Reply(Tables(), verdict) == OrderService.DeleteOrder(old(Tables()), id, role, latest)
      ensures DeleteOrderOutcome(old(Tables()), id, role, latest, Reply(Tables(), verdict))
      ensures Valid()
    {
      DeleteOrderExactly(Tables(), id, role, latest);
      DeleteOrderKeepsIntact(Tables(), id, role, latest);
      if id !in orders {
        return Refused(OrderNotFound);
      }
      if role == Student && !(latest < |orders[id].history| &&
                              orders[id].history[latest].status in {Rejected, Pending}) {
        return Refused(DeleteForbidden);
      }
      if InSomeDelivery(Tables(), id) {
        return Refused(StillReferenced);
      }
      orders := orders - {id};
      payments := map p | p in payments && payments[p].orderId != id :: payments[p];
      verdict := Done;
    }

    method DelayOrders(ids: seq<Id>, timeslot: string) returns (verdict: Verdict)
      requires Valid()
      modifies this`orders
      ensures Reply(Tables(), verdict) == OrderService.DelayOrders(old(Tables()), ids, timeslot)
      ensures DelayOrdersOutcome(old(Tables()), ids, timeslot, Reply(Tables(), verdict))
      ensures Valid()
    {
      DelayOrdersKeepsIntact(Tables(), ids, timeslot);
      FindManyComplete(Tables(), ids);
      var found := FindMany(Tables(), ids);
      if |found| != |ids| {
        verdict := Refused(OrdersMissing);
      } else if exists id :: id in found && InSomeDelivery(Tables(), id) && orders[id].latestStatus != Canceled {
        verdict := Refused(AlreadyInDelivery);
      } else if exists id :: id in found && Exceeds(Due(Tables(), orders[id]), numberOf(timeslot)) {
        verdict := Refused(DelayedBackwards);
      } else {
        RedateOrders(ids, timeslot);
        verdict := Done;
      }
      DelayOrdersExactly(old(Tables()), ids, timeslot);
    }

    method RedateOrders(ids: seq<Id>, timeslot: string)
      requires forall id :: id in ids ==> id in orders
      modifies this`orders
      ensures orders == Redated(old(orders), FindMany(old(Tables()), ids), timeslot)
    {
      var date := Some(timeslot);
      for i := 0 to |ids|
        invariant orders.Keys == old(orders).Keys
        invariant forall id :: id in old(orders) ==>
                    orders[id] == if id in ids[..i] then old(orders)[id].(deliveryDate := date) else old(orders)[id]
      {
        assert ids[i] in ids;
        orders := orders[ids[i] := orders[ids[i]].(deliveryDate := date)];
        assert ids[..i + 1] == ids[..i] + [ids[i]];
      }
      assert ids[..|ids|] == ids;
    }

    method CreateDelivery(newId: Id, dto: CreateDeliveryDto, now: nat) returns (verdict: Verdict)
      requires Valid()
      modifies this`orders, this`deliveries
      ensures Reply(Tables(), verdict) == DeliveryService.CreateDelivery(old(Tables()), newId, dto, now)
      ensures CreateDeliveryOutcome(old(Tables()), newId, dto, now, Reply(Tables(), verdict))
      ensures Valid()
    {
      CreateDeliveryKeepsIntact(Tables(), newId, dto, now);
      var found := FindMany(Tables(), dto.orderIds);
      if |found| != |dto.orderIds| {
        verdict := Refused(OrdersMissing);
      } else if exists id :: id in found && Unavailable(Tables(), id) {
        verdict := Refused(NotReceivedYet);
      } else if newId in deliveries {
        verdict := Refused(DuplicateKey);
      } else {
        FindManyComplete(Tables(), dto.orderIds);
        AssignShipper(dto.orderIds, dto.staffId);
        deliveries := deliveries[newId := NewTrip(dto, now)];
        verdict := Done;
      }
      CreateDeliveryExactly(old(Tables()), newId, dto, now);
    }

    method AssignShipper(ids: seq<Id>, staffId: Option<Id>)
      requires forall id :: id in ids ==> id in orders
      modifies this`orders
      ensures orders == Shipped(old(orders), FindMany(old(Tables()), ids), staffId)
    {
      for i := 0 to |ids|
        invariant orders.Keys == old(orders).Keys
        invariant forall id :: id in old(orders) ==>
                    orders[id] ==
                    if id in ids[..i] && staffId.Some? then old(orders)[id].(shipperId := staffId) else old(orders)[id]
      {
        assert ids[i] in ids;
        if staffId.Some? {
          orders := orders[ids[i] := orders[ids[i]].(shipperId := staffId)];
        }
        assert ids[..i + 1] == ids[..i] + [ids[i]];
      }
      assert ids[..|ids|] == ids;
    }

    /** getDelivery: the orders of a delivery, when the database returns its link rows as
        `fetched`. */
    method GetDelivery(id: Id, fetched: seq<Link>) returns (listed: Option<seq<Order>>)
      requires Valid()
      requires id in deliveries ==> multiset(fetched) == multiset(deliveries[id].links)
      ensures listed.None? <==> id !in deliveries
      ensures listed.Some? ==>
                |listed.value| == |ListedOrders(fetched)| &&
                forall k :: 0 <= k < |listed.value| ==>
                  ListedOrders(fetched)[k] in orders && listed.value[k] == orders[ListedOrders(fetched)[k]]
    {
      if id !in deliveries {
        return None;
      }
      var sorted := SortBySequence(fetched);
      forall k | 0 <= k < |sorted| ensures sorted[k].orderId in orders {
        assert sorted[k] in multiset(deliveries[id].links);
        assert LinksSound(deliveries[id], orders);
      }
      listed := Some(seq(|sorted|, k requires 0 <= k < |sorted| && sorted[k].orderId in orders
                           reads this`orders => orders[sorted[k].orderId]));
    }

    method UpdateDelivery(id: Id, dto: UpdateDeliveryDto) returns (verdict: Verdict)
      requires Valid()
      modifies this`deliveries
      ensures Reply(Tables(), verdict) == DeliveryService.UpdateDelivery(old(Tables()), id, dto)
      ensures UpdateDeliveryOutcome(old(Tables()), id, dto, Reply(Tables(), verdict))
      ensures Valid()
    {
      UpdateDeliveryExactly(Tables(), id, dto);
      UpdateDeliveryKeepsIntact(Tables(), id, dto);
      if id !in deliveries {
        return Refused(DeliveryNotFound);
      }
      var trip := deliveries[id];
      if trip.latestStatus != TripPending {
        return Refused(DeliveryNotPending);
      }
      if dto.orderIds.None? || |FindMany(Tables(), dto.orderIds.value)| != |dto.orderIds.value| {
        return Refused(OrdersMissing);
      }
      var links := trip.links + Numbered(dto.orderIds.value);
      if !DistinctOrders(links) {
        return Refused(DuplicateKey);
      }
      if dto.limitTime.Some? {
        trip := trip.(limitTime := dto.limitTime.value);
      }
      if dto.staffId.Some? {
        trip := trip.(staffId := dto.staffId);
      }
      deliveries := deliveries[id := trip.(links := links)];
      verdict := Done;
    }

    /** The status transactions of a fan-out, in one of the orders they may commit in. */
    method RunFanOut(writes: seq<Write>)
      modifies this`orders
      ensures Tables() == FanOut(old(Tables()), writes)
    {
      ghost var before := Tables();
      for i := 0 to |writes|
        invariant Tables() == FanOut(before, writes[..i])
      {
        var row := writes[i].row;
        if writes[i].orderId in orders {
          orders := orders[writes[i].orderId := WithStatus(orders[writes[i].orderId], row, None, None)];
        }
        assert writes[..i + 1][..i] == writes[..i];
      }
      assert writes[..|writes|] == writes;
    }

    method UpdateDeliveryStatus(id: Id, dto: UpdateTripDto, caller: Caller, clock: Id -> nat, now: nat)
      returns (verdict: Verdict)
      requires Valid()
      modifies this`orders, this`deliveries
      ensures Reply(Tables(), verdict) ==
              DeliveryService.UpdateDeliveryStatus(old(Tables()), id, dto, caller, clock, now)
      ensures TripStatusOutcome(old(Tables()), id, dto, caller, clock, now, Reply(Tables(), verdict))
      ensures Valid()
    {
      TripStatusExactly(Tables(), id, dto, caller, clock, now);
      TripStatusKeepsIntact(Tables(), id, dto, caller, clock, now);
      var isGoingDelivery := IsGoingDelivery(Tables(), caller.id);
      if isGoingDelivery && dto.status == TripAccepted {
        return Refused(TripInProgress);
      }
      if id !in deliveries {
        return Refused(DeliveryNotFound);
      }
      if dto.status == TripCanceled {
        verdict := CancelDelivery(id, dto, clock, now);
      } else if (dto.status == TripPending || dto.status == TripAccepted) &&
                (Given(dto.reason) || Given(dto.canceledImage)) {
        verdict := Refused(UnexpectedCancelEvidence);
      } else {
        verdict := ProceedDelivery(id, dto, clock, now);
      }
    }

    /** A cancel cascades to the orders in transport. */
    method CancelDelivery(id: Id, dto: UpdateTripDto, clock: Id -> nat, now: nat) returns (verdict: Verdict)
      requires id in deliveries
      modifies this`orders, this`deliveries
      ensures Reply(Tables(), verdict) == CancelTrip(old(Tables()), id, dto, clock, now)
    {
      if !Given(dto.reason) || !Given(dto.canceledImage) {
        return Refused(CancelEvidenceMissing);
      }
      var inTransportOrders := InTransportLinks(Tables(), deliveries[id].links);
      RunFanOut(CancelWrites(inTransportOrders, dto, clock));
      WriteTripStatus(id, TripCanceled, dto, now);
      verdict := Done;
    }

    /** Any other status; whether all orders are canceled is decided on the rows read first. */
    method ProceedDelivery(id: Id, dto: UpdateTripDto, clock: Id -> nat, now: nat) returns (verdict: Verdict)
      requires id in deliveries
      modifies this`orders, this`deliveries
      ensures Reply(Tables(), verdict) == ProceedTrip(old(Tables()), id, dto, clock, now)
    {
      var links := deliveries[id].links;
      var loaded := Tables();
      if dto.status == TripAccepted {
        RunFanOut(TransportWrites(links, clock));
      }
      FanOutKeeps(loaded, TransportWrites(links, clock));
      var isAllOrdersCanceled := AllOrdersCanceled(loaded, links);
      if isAllOrdersCanceled && (!Given(dto.reason) || !Given(dto.canceledImage)) {
        return Refused(CancelEvidenceMissing);
      }
      WriteTripStatus(id, if isAllOrdersCanceled then TripCanceled else dto.status, dto, now);
      verdict := Done;
    }

    method WriteTripStatus(id: Id, status: TripStatus, dto: UpdateTripDto, now: nat)
      requires id in deliveries
      modifies this`deliveries
      ensures Tables() == AppendTripStatus(old(Tables()), id, status, dto, now)
    {
      var row := HistoryRow(status, Decimal.ToText(now), dto.reason, dto.canceledImage);
      var trip := deliveries[id].(history := deliveries[id].history + [row]);
      trip := trip.(latestStatus := status);
      deliveries := deliveries[id := trip];
    }

    method DeleteDelivery(id: Id, latest: nat) returns (verdict: Verdict)
      requires Valid()
      modifies this`deliveries
      ensures Reply(Tables(), verdict) == DeliveryService.DeleteDelivery(old(Tables()), id, latest)
      ensures DeleteDeliveryOutcome(old(Tables()), id, latest, Reply(Tables(), verdict))
      ensures Valid()
    {
      DeleteDeliveryExactly(Tables(), id, latest);
      DeleteDeliveryKeepsIntact(Tables(), id, latest);
      if id !in deliveries {
        return Refused(DeliveryNotFound);
      }
      if !(latest < |deliveries[id].history| && deliveries[id].history[latest].status == TripPending) {
        return Refused(DeliveryNotPending);
      }
      if deliveries[id].links != [] {
        return Refused(StillReferenced);
      }
      deliveries := deliveries - {id};
      verdict := Done;
    }

    method CreatePayment(newId: Id, orderId: Id, amount: int, orderCode: nat) returns (verdict: Verdict)
      requires Valid()
      modifies this`payments
      ensures Reply(Tables(), verdict) == AccountService.CreatePayment(old(Tables()), newId, orderId, amount, orderCode)
      ensures CreatePaymentOutcome(old(Tables()), newId, orderId, amount, orderCode, Reply(Tables(), verdict))
      ensures Valid()
    {
      CreatePaymentExactly(Tables(), newId, orderId, amount, orderCode);
      CreatePaymentKeepsIntact(Tables(), newId, orderId, amount, orderCode);
      if orderId !in orders {
        return Refused(OrderNotFound);
      }
      var taken := FindPayment(orderCode);
      if newId in payments || taken.Some? {
        return Refused(DuplicateKey);
      }
      payments := payments[newId := Payment(orderId, amount, false, orderCode, NO_ACCOUNT)];
      verdict := Done;
    }

    method HandleWebhook(valid: bool, orderCode: nat, amount: int, account: Account) returns (verdict: Verdict)
      requires Valid()
      modifies this`orders, this`payments
      ensures Reply(Tables(), verdict) == AccountService.HandleWebhook(old(Tables()), valid, orderCode, amount, account)
      ensures WebhookOutcome(old(Tables()), valid, orderCode, amount, account, Reply(Tables(), verdict))
      ensures Valid()
    {
      WebhookKeepsIntact(Tables(), valid, orderCode, amount, account);
      if !valid {
        verdict := Refused(InvalidSignature);
      } else if orderCode == TEST_ORDER_CODE {
        verdict := Refused(TestOrderCode);
      } else {
        verdict := TakePayment(orderCode, amount, account);
      }
      WebhookExactly(old(Tables()), valid, orderCode, amount, account);
    }

    /** The ledger transaction of a valid notification. */
    method TakePayment(orderCode: nat, amount: int, account: Account) returns (verdict: Verdict)
      requires Valid() && orderCode != TEST_ORDER_CODE
      modifies this`orders, this`payments
      ensures Reply(Tables(), verdict) == AccountService.HandleWebhook(old(Tables()), true, orderCode, amount, account)
    {
      var found := FindPayment(orderCode);
      if found.None? {
        return Refused(PaymentNotFound);
      }
      var payment := payments[found.value];
      if payment.orderId !in orders {
        return Refused(OrderNotFound);
      }
      var order := orders[payment.orderId];
      var newRemainingAmount := (if order.remainingAmount.Some? then order.remainingAmount.value else 0) - amount;
      var isPaid := newRemainingAmount <= 0;
      orders := orders[payment.orderId := order.(remainingAmount := Some(newRemainingAmount), isPaid := isPaid)];
      payment := WithAccount(payment.(isPaid := true), account);
      payments := payments[found.value := payment];
      verdict := Done;
    }

    method UpdateUserStatus(userId: Id, status: UserStatus) returns (verdict: Verdict)
      requires Valid()
      modifies this`users
      ensures Reply(Tables(), verdict) == AccountService.UpdateUserStatus(old(Tables()), userId, status)
      ensures UserStatusOutcome(old(Tables()), userId, status, Reply(Tables(), verdict))
      ensures Valid()
    {
      UserStatusExactly(Tables(), userId, status);
      UserStatusKeepsIntact(Tables(), userId, status);
      if userId !in users {
        return Refused(UserNotFound);
      }
      var user := users[userId];
      var isUnBanned := user.role == Student && user.status == Banned && status == Available;
      var data := user.(status := status);
      if status == Banned && user.role == Student {
        if user.student.None? {
          return Refused(StudentNotFound);
        }
        var bannedThreshold := BanThreshold(Tables(), user.student.value.dormitory);
        data := data.(student := Some(user.student.value.(numberFault := bannedThreshold)));
      } else if isUnBanned {
        if user.student.None? {
          return Refused(StudentNotFound);
        }
        var oldNumberFault := UnbanBase(Tables(), user.student.value);
        data := data.(student := Some(user.student.value.(numberFault := Max(oldNumberFault - 1, 0))));
      }
      users := users[userId := data];
      verdict := Done;
    }

    /** getOrders. `rows` lists the matching orders in the database's order, which is the requested
        one. For each order, `latest` tells which history row the database returns as the first, and
        `histories` in what order it returns them all. The shipper of an order is a user. */
    method GetOrders(query: OrderQuery, caller: Caller, finds: Finder, rows: seq<Id>, latest: Id -> nat,
                     histories: Id -> seq<StatusRow>)
      returns (totalElements: nat, totalPages: nat, results: seq<ListedOrder>)
      requires query.page >= 1 && query.size >= 1
      requires NoDuplicates(rows) && SortedRows(orders, rows, query)
      requires forall id :: id in rows <==> id in orders && Where(orders[id], query, caller, finds)
      requires forall id :: id in rows ==>
                 && id in orders && Clocks.IsLatest(orders[id].history, latest(id))
                 && NewestFirst(orders[id].history, histories(id))
                 && (orders[id].shipperId.Some? ==> orders[id].shipperId.value in users)
      ensures totalElements == |Unexcluded(orders, query, caller, finds)|
      ensures totalPages == TotalPages(totalElements, query.size)
      ensures |results| == |Page(rows, query.page, query.size)|
      ensures forall k :: 0 <= k < |results| ==>
                var id := Page(rows, query.page, query.size)[k];
                && id in orders && !Excluded(orders[id], query, caller, finds)
                && IsListing(orders[id], results[k], latest(id))
      ensures caller.role == Student ==>
                forall k :: 0 <= k < |results| ==> results[k].order.studentId == Some(caller.id)
      ensures query.isPaid.Some? ==> forall k :: 0 <= k < |results| ==> results[k].order.isPaid == query.isPaid.value
      ensures query.sortBy.Some? ==>
                var page := Page(rows, query.page, query.size);
                forall i, j :: 0 <= i < j < |page| ==>
                  && page[i] in orders && page[j] in orders
                  && (!query.descending ==> query.sortBy.value(orders[page[i]], orders[page[j]]))
                  && (query.descending ==> query.sortBy.value(orders[page[j]], orders[page[i]]))
    {
      forall id | id in orders
        ensures Where(orders[id], query, caller, finds) <==> !Excluded(orders[id], query, caller, finds)
      {
        WhereExactly(orders[id], query, caller, finds);
      }
      assert Matching(orders, query, caller, finds) == Unexcluded(orders, query, caller, finds);
      CountMatching(orders, query, caller, finds, rows);
      totalElements := |rows|;
      totalPages := TotalPages(totalElements, query.size);
      var page := Page(rows, query.page, query.size);
      forall i, j | 0 <= i < j < |page|
        ensures page[i] in orders && page[j] in orders && InOrder(orders[page[i]], orders[page[j]], query)
      {
        PagesInOrder(orders, rows, query, query.page, i, query.page, j, query.size);
      }
      results := ListPage(page, latest, histories);
    }

    /** The rows of a page, each with its recomputed status, its history and its shipper. */
    method ListPage(page: seq<Id>, latest: Id -> nat, histories: Id -> seq<StatusRow>)
      returns (results: seq<ListedOrder>)
      requires forall id :: id in page ==>
                 && id in orders && latest(id) < |orders[id].history|
                 && NewestFirst(orders[id].history, histories(id))
                 && (orders[id].shipperId.Some? ==> orders[id].shipperId.value in users)
      ensures |results| == |page|
      ensures forall k :: 0 <= k < |page| ==>
                page[k] in orders && IsListing(orders[page[k]], results[k], latest(page[k]))
    {
      results := [];
      for k := 0 to |page|
        invariant |results| == k
        invariant forall j :: 0 <= j < k ==>
                    page[j] in orders && IsListing(orders[page[j]], results[j], latest(page[j]))
      {
        assert page[k] in page;
        var order := orders[page[k]];
        var listed := ListedOrder(Reported(order, latest(page[k])), histories(page[k]), None);
        if order.shipperId.Some? {
          listed := listed.(staff := Some(users[order.shipperId.value]));
        }
        results := results + [listed];
      }
    }

    /** How an order is shown: with the status of the history row found as the latest, its history with
        the latest times first, and the user row of its shipper. */
    ghost predicate IsListing(order: Order, listed: ListedOrder, latest: nat)
      reads this
    {
      && latest < |order.history| && listed.order == order.(latestStatus := order.history[latest].status)
      && NewestFirst(order.history, listed.historyTime)
      && (order.shipperId.Some? ==>
            order.shipperId.value in users && listed.staff == Some(users[order.shipperId.value]))
      && (order.shipperId.None? ==> listed.staff == None)
    }

    /** getOrdersStatsForStaff. The two queries return the counted rows in some order. */
    method GetOrdersStatsForStaff(span: Statistics.Span, staffId: Id, now: nat, orderRows: seq<Id>, tripRows: seq<Id>,
                                  civil: Statistics.Calendar, arrange: seq<string> -> seq<string>)
      returns (totalOrders: nat, totalShippingFee: int, resultByDay: seq<Statistics.DayStats>)
      requires NoDuplicates(orderRows) && NoDuplicates(tripRows)
      requires forall periods :: multiset(arrange(periods)) == multiset(periods)
      requires forall id :: id in orderRows <==>
                 id in orders && Statistics.CountsOrder(orders[id], staffId, Statistics.StartText(now, span))
      requires forall id :: id in tripRows <==>
                 id in deliveries && Statistics.CountsTrip(deliveries[id], staffId, Statistics.StartText(now, span))
      ensures var start := Statistics.StartText(now, span);
              totalOrders == |Statistics.DeliveredSince(orders, staffId, start)|
      ensures forall id :: id in orderRows ==>
                id in orders && orders[id].shipperId == Some(staffId) && orders[id].latestStatus == Delivered
      ensures forall id :: id in tripRows ==>
                && id in deliveries && deliveries[id].staffId == Some(staffId)
                && deliveries[id].latestStatus == TripFinished
      ensures totalShippingFee == Statistics.Total(Statistics.RowsOf(orders, orderRows), Statistics.FeeWeight())
      ensures Statistics.IsResult(Statistics.RowsOf(orders, orderRows), Statistics.RowsOf(deliveries, tripRows), civil,
                                  resultByDay)
    {
      var start := Statistics.StartText(now, span);
      ghost var counted := Statistics.CountedOrders(orders, staffId, start);
      DistinctCount(orderRows, counted);
      assert Among(orderRows, counted) == counted;
      assert counted == Statistics.DeliveredSince(orders, staffId, start);
      totalOrders, totalShippingFee, resultByDay :=
        Statistics.Summarize(Statistics.RowsOf(orders, orderRows), Statistics.RowsOf(deliveries, tripRows), civil,
                             arrange);
    }
  }
}
