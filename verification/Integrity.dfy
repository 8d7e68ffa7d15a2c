/** What the schema and the creating calls keep true of the tables: references lead to rows, link
    rows of a delivery are for distinct orders, and the keys the services look up are unique. */
module Integrity {
  import opened Model
  import opened OrderService
  import opened DeliveryService
  import opened AccountService
  import opened Effects
  import opened Runs

  predicate NoDuplicates(ids: seq<Id>) {
    forall i, j :: 0 <= i < j < |ids| ==> ids[i] != ids[j]
  }

  lemma NoDuplicatesSplit(ids: seq<Id>)
    requires ids != []
    ensures NoDuplicates(ids) <==>
            NoDuplicates(ids[..|ids| - 1]) && ids[|ids| - 1] !in ids[..|ids| - 1]
  {
  }

  predicate AllIn(ids: seq<Id>, rows: set<Id>) {
    forall id :: id in ids ==> id in rows
  }

  function Among(ids: seq<Id>, rows: set<Id>): set<Id> {
    set id | id in ids && id in rows
  }

  lemma {:induction false} DistinctCount(ids: seq<Id>, rows: set<Id>)
    ensures |Among(ids, rows)| <= |ids|
    ensures |Among(ids, rows)| == |ids| <==> NoDuplicates(ids) && AllIn(ids, rows)
  {
    if ids == [] {
      assert Among(ids, rows) == {};
    } else {
      var front, last := ids[..|ids| - 1], ids[|ids| - 1];
      DistinctCount(front, rows);
      NoDuplicatesSplit(ids);
      assert forall id :: id in ids <==> id in front || id == last;
      assert AllIn(ids, rows) <==> AllIn(front, rows) && last in rows;
      if last in rows && last !in front {
        assert Among(ids, rows) == Among(front, rows) + {last};
      } else {
        assert Among(ids, rows) == Among(front, rows);
      }
    }
  }

  /** The length check after findMany is a pigeonhole test: as many rows as ids come back exactly
      if no id is listed twice and every id exists. */
  lemma FindManyComplete(db: Db, ids: seq<Id>)
    ensures |FindMany(db, ids)| == |ids| <==> NoDuplicates(ids) && forall id :: id in ids ==> id in db.orders
  {
    DistinctCount(ids, db.orders.Keys);
    assert FindMany(db, ids) == Among(ids, db.orders.Keys);
  }

  ghost predicate UniqueKeys(orders: map<Id, Order>) {
    forall i, j :: i in orders && j in orders && HasKey(orders[i], orders[j].checkCode, orders[j].brand) ==> i == j
  }

  ghost predicate UniqueCodes(payments: map<Id, Payment>) {
    forall p, q :: p in payments && q in payments && payments[p].orderCode == payments[q].orderCode ==> p == q
  }

  ghost predicate LinksSound(trip: Delivery, orders: map<Id, Order>) {
    DistinctOrders(trip.links) && forall k :: 0 <= k < |trip.links| ==> trip.links[k].orderId in orders
  }

  ghost predicate LinksExist(db: Db) {
    forall d :: d in db.deliveries ==> LinksSound(db.deliveries[d], db.orders)
  }

  ghost predicate PaymentsExist(db: Db) {
    forall p :: p in db.payments ==> db.payments[p].orderId in db.orders
  }

  ghost predicate OwnersExist(db: Db) {
    forall o :: o in db.orders && db.orders[o].studentId.Some? ==> HasStudentRow(db, db.orders[o].studentId)
  }

  ghost predicate Intact(db: Db) {
    UniqueKeys(db.orders) && UniqueCodes(db.payments) && LinksExist(db) && PaymentsExist(db) && OwnersExist(db)
  }

  /** Writing one order row, of an old or a new order, keeps the tables intact. */
  lemma OneOrderKeepsIntact(db: Db, id: Id, row: Order)
    requires Intact(db)
    requires row.studentId.Some? ==> HasStudentRow(db, row.studentId)
    requires forall o :: o in db.orders && HasKey(db.orders[o], row.checkCode, row.brand) ==> o == id
    ensures Intact(db.(orders := db.orders[id := row]))
  {
  }

  lemma AppendStatusKeepsIntact(db: Db, id: Id, row: StatusRow, finishedImage: Option<string>,
                                receivedImage: Option<string>)
    requires Intact(db)
    ensures Intact(AppendStatus(db, id, row, finishedImage, receivedImage))
  {
    if id in db.orders {
      OneOrderKeepsIntact(db, id, WithStatus(db.orders[id], row, finishedImage, receivedImage));
    }
  }

  /** A fan-out leaves the references of every order alone. */
  lemma FanOutKeepsIntact(db: Db, writes: seq<Write>)
    requires Intact(db)
    ensures Intact(db.(orders := FanOut(db, writes).orders))
    decreases |writes|
  {
    FanOutKeeps(db, writes);
    if writes == [] {
      assert db.(orders := db.orders) == db;
    } else {
      var front, last := writes[..|writes| - 1], writes[|writes| - 1];
      FanOutKeepsIntact(db, front);
      FanOutKeeps(db, front);
      var before := FanOut(db, front);
      if last.orderId in before.orders {
        OneOrderKeepsIntact(before, last.orderId, WithStatus(before.orders[last.orderId], last.row, None, None));
      }
    }
  }

  /** Users may change, as long as no student row disappears. */
  lemma UsersKeepIntact(db: Db, users: map<Id, User>)
    requires Intact(db)
    requires forall u :: u in db.users ==> u in users && (db.users[u].student.Some? ==> users[u].student.Some?)
    ensures Intact(db.(users := users))
  {
  }

  lemma CreateOrderKeepsIntact(db: Db, newId: Id, request: OrderRequest, now: nat, delay: nat)
    requires Intact(db)
    ensures Intact(CreateOrder(db, newId, request, now, delay).db)
  {
    var write := CreateOrderEffect(db, newId, request, now, delay);
    if !write.NoWrite? {
      OneOrderKeepsIntact(db, write.id, write.row);
    }
  }

  lemma UpdateStatusKeepsIntact(db: Db, id: Id, dto: UpdateStatusDto, role: Role, now: nat)
    requires Intact(db)
    ensures Intact(UpdateStatus(db, id, dto, role, now).db)
  {
    UpdateStatusEffect(db, id, dto, role, now);
    var after := UpdateStatus(db, id, dto, role, now).db;
    if id in db.orders && Accepts(db, db.orders[id], dto, role) {
      UsersKeepIntact(db, after.users);
      OneOrderKeepsIntact(db.(users := after.users), id, after.orders[id]);
    }
  }

  lemma DeleteOrderKeepsIntact(db: Db, id: Id, role: Role, latest: nat)
    requires Intact(db)
    ensures Intact(DeleteOrder(db, id, role, latest).db)
  {
  }

  predicate SameReferences(order: Order, order': Order) {
    order'.checkCode == order.checkCode && order'.brand == order.brand && order'.studentId == order.studentId
  }

  /** Rewriting orders without touching key or owner keeps the tables intact. */
  lemma RewritesKeepIntact(db: Db, orders: map<Id, Order>)
    requires Intact(db) && orders.Keys == db.orders.Keys
    requires forall o :: o in orders ==> SameReferences(db.orders[o], orders[o])
    ensures Intact(db.(orders := orders))
  {
  }

  lemma OneDeliveryKeepsIntact(db: Db, id: Id, trip: Delivery)
    requires Intact(db) && LinksSound(trip, db.orders)
    ensures Intact(db.(deliveries := db.deliveries[id := trip]))
  {
  }

  lemma CreateDeliveryKeepsIntact(db: Db, newId: Id, dto: CreateDeliveryDto, now: nat)
    requires Intact(db)
    ensures Intact(CreateDelivery(db, newId, dto, now).db)
  {
    FindManyComplete(db, dto.orderIds);
    var shipped := Shipped(db.orders, FindMany(db, dto.orderIds), dto.staffId);
    if CreateDelivery(db, newId, dto, now).verdict == Done {
      RewritesKeepIntact(db, shipped);
      assert forall k :: 0 <= k < |dto.orderIds| ==> dto.orderIds[k] in dto.orderIds;
      OneDeliveryKeepsIntact(db.(orders := shipped), newId, NewTrip(dto, now));
    }
  }

  lemma UpdateDeliveryKeepsIntact(db: Db, id: Id, dto: UpdateDeliveryDto)
    requires Intact(db)
    ensures Intact(UpdateDelivery(db, id, dto).db)
  {
    if UpdateDelivery(db, id, dto).verdict == Done {
      var ids := dto.orderIds.value;
      FindManyComplete(db, ids);
      assert forall k :: 0 <= k < |ids| ==> ids[k] in ids;
      OneDeliveryKeepsIntact(db, id, UpdateDelivery(db, id, dto).db.deliveries[id]);
    }
  }

  lemma TripStatusKeepsIntact(db: Db, id: Id, dto: UpdateTripDto, caller: Caller, clock: Id -> nat, now: nat)
    requires Intact(db)
    ensures Intact(UpdateDeliveryStatus(db, id, dto, caller, clock, now).db)
  {
    var writes := TripStatusEffect(db, id, dto, caller, clock, now);
    var reply := UpdateDeliveryStatus(db, id, dto, caller, clock, now);
    FanOutKeepsIntact(db, writes);
    FanOutKeeps(db, writes);
    if reply.verdict == Done {
      OneDeliveryKeepsIntact(db.(orders := reply.db.orders), id, reply.db.deliveries[id]);
    } else {
      assert reply.db == db.(orders := FanOut(db, writes).orders);
    }
  }

  lemma WebhookKeepsIntact(db: Db, valid: bool, orderCode: nat, amount: int, account: Account)
    requires Intact(db)
    ensures Intact(HandleWebhook(db, valid, orderCode, amount, account).db)
  {
  }

  lemma CreatePaymentKeepsIntact(db: Db, newId: Id, orderId: Id, amount: int, orderCode: nat)
    requires Intact(db)
    ensures Intact(CreatePayment(db, newId, orderId, amount, orderCode).db)
  {
  }

  lemma UserStatusKeepsIntact(db: Db, userId: Id, status: UserStatus)
    requires Intact(db)
    ensures Intact(UpdateUserStatus(db, userId, status).db)
  {
    var after := UpdateUserStatus(db, userId, status).db;
    assert after == db.(users := after.users);
    UsersKeepIntact(db, after.users);
  }

  lemma DelayOrdersKeepsIntact(db: Db, ids: seq<Id>, timeslot: string)
    requires Intact(db)
    ensures Intact(DelayOrders(db, ids, timeslot).db)
  {
    if DelayOrders(db, ids, timeslot).verdict == Done {
      RewritesKeepIntact(db, Redated(db.orders, FindMany(db, ids), timeslot));
    }
  }

  lemma DeleteDeliveryKeepsIntact(db: Db, id: Id, latest: nat)
    requires Intact(db)
    ensures Intact(DeleteDelivery(db, id, latest).db)
  {
  }

  /** Every call keeps the tables intact, whether it succeeds or throws. */
  lemma StepKeepsIntact(db: Db, call: Call)
    requires Intact(db)
    ensures Intact(Step(db, call).db)
  {
    match call
    case CallCreateOrder(newId, request, now, delay) => CreateOrderKeepsIntact(db, newId, request, now, delay);
    case CallUpdateStatus(id, dto, role, now) => UpdateStatusKeepsIntact(db, id, dto, role, now);
    case CallDeleteOrder(id, role, latest) => DeleteOrderKeepsIntact(db, id, role, latest);
    case CallDelayOrders(ids, timeslot) => DelayOrdersKeepsIntact(db, ids, timeslot);
    case CallCreateDelivery(newId, dto, now) => CreateDeliveryKeepsIntact(db, newId, dto, now);
    case CallUpdateDelivery(id, dto) => UpdateDeliveryKeepsIntact(db, id, dto);
    case CallTripStatus(id, dto, caller, clock, now) => TripStatusKeepsIntact(db, id, dto, caller, clock, now);
    case CallDeleteDelivery(id, latest) => DeleteDeliveryKeepsIntact(db, id, latest);
    case CallCreatePayment(newId, orderId, amount, orderCode) =>
      CreatePaymentKeepsIntact(db, newId, orderId, amount, orderCode);
    case CallWebhook(valid, orderCode, amount, account) => WebhookKeepsIntact(db, valid, orderCode, amount, account);
    case CallUserStatus(userId, status) => UserStatusKeepsIntact(db, userId, status);
  }

  /** Over every run of all calls: no dangling reference, no order twice in a delivery, no two
      orders with one check code and brand, no two payments with one order code. */
  lemma {:induction false} RunKeepsIntact(db: Db, calls: seq<Call>)
    requires Intact(db)
    ensures Intact(Run(db, calls))
  {
    if calls != [] {
      RunKeepsIntact(db, calls[..|calls| - 1]);
      StepKeepsIntact(Run(db, calls[..|calls| - 1]), calls[|calls| - 1]);
    }
  }

  lemma InitialIsIntact(db: Db)
    requires Initial(db)
    ensures Intact(db)
  {
  }
}
