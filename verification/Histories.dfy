/** How one step of the system may move one order's status history. */
module Histories {
  import opened Model
  import opened OrderRules
  import opened OrderService
  import opened DeliveryService
  import opened AccountService
  import opened FanOuts
  import opened Effects
  import opened Integrity
  import opened Runs
  import Decimal

  /** A move of a history: none, a row the transition table allows, the two ACCEPTED rows of a
      two-party match, or an IN_TRANSPORT row that an accepted delivery forces on an order the
      table would not let into transport. */
  datatype Move =
    | Stay
    | ByTable(row: StatusRow, second: nat, finishedImage: Option<string>, receivedImage: Option<string>)
    | Matched(now: nat, delay: nat)
    | Forced(second: nat)

  /** Two orders agree on everything createOrderStatusHistory writes. */
  ghost predicate SameTrail(order: Order, order': Order) {
    && order'.history == order.history
    && order'.latestStatus == order.latestStatus
    && order'.finishedImage == order.finishedImage
    && order'.receivedImage == order.receivedImage
  }

  /** A cancel row carries its reason and its image. */
  predicate Documented(row: StatusRow) {
    row.status == Canceled ==> row.reason.Some? && Given(row.canceledImage)
  }

  ghost predicate Moves(order: Order, order': Order, move: Move) {
    match move
    case Stay => SameTrail(order, order')
    case ByTable(row, second, finishedImage, receivedImage) =>
      && SameTrail(WithStatus(order, row, finishedImage, receivedImage), order')
      && IsValidTransition(order.latestStatus, row.status)
      && row.time == Decimal.ToText(second)
      && Documented(row)
      && (row.status == Delivered ==> Given(finishedImage))
      && (row.status == ReceivedExternal ==> Given(receivedImage))
    case Matched(now, delay) => order.latestStatus == Pending && SameTrail(Twice(order, now, delay), order')
    case Forced(second) =>
      order.latestStatus != ReceivedExternal &&
      SameTrail(WithStatus(order, PlainRow(InTransport, second), None, None), order')
  }

  /** The call writes IN_TRANSPORT to the orders of its delivery, be it refused afterwards. */
  ghost predicate Transports(db: Db, call: Call) {
    && call.CallTripStatus? && call.trip.status == TripAccepted
    && !IsGoingDelivery(db, call.caller.id)
    && !Given(call.trip.reason) && !Given(call.trip.canceledImage)
    && call.deliveryId in db.deliveries
  }

  /** ... and to this order, whose status is not RECEIVED_EXTERNAL at that moment: it has not been
      received yet, or is past that. */
  ghost predicate ForcesTransport(db: Db, call: Call, id: Id) {
    && Transports(db, call)
    && id in db.orders && IsMember(db.deliveries[call.deliveryId].links, id)
    && db.orders[id].latestStatus != ReceivedExternal
  }

  /** All clock readings of a call lie between two seconds. */
  ghost predicate Window(call: Call, from: nat, to: nat) {
    match call
    case CallCreateOrder(_, _, now, delay) => from <= now && now + delay <= to
    case CallUpdateStatus(_, _, _, now) => from <= now <= to
    case CallCreateDelivery(_, _, now) => from <= now <= to
    case CallTripStatus(_, _, _, clock, now) => from <= now <= to && forall id :: from <= clock(id) <= to
    case _ => from <= to
  }

  ghost predicate Within(move: Move, from: nat, to: nat) {
    match move
    case Stay => true
    case ByTable(_, second, _, _) => from <= second <= to
    case Matched(now, delay) => from <= now && now + delay <= to
    case Forced(second) => from <= second <= to
  }

  lemma CreateOrderMove(db: Db, call: Call, id: Id) returns (move: Move)
    requires call.CallCreateOrder? && id in db.orders
    ensures id in Step(db, call).db.orders && Moves(db.orders[id], Step(db, call).db.orders[id], move)
    ensures !move.Forced?
    ensures forall from, to :: Window(call, from, to) ==> Within(move, from, to)
  {
    var write := CreateOrderEffect(db, call.newOrder, call.request, call.now, call.delay);
    if !write.NoWrite? && write.id == id && (write.Confirmation? || write.ClaimAndConfirmation?) {
      move := Matched(call.now, call.delay);
    } else {
      move := Stay;
    }
  }

  lemma UpdateStatusMove(db: Db, call: Call, id: Id) returns (move: Move)
    requires call.CallUpdateStatus? && id in db.orders
    ensures id in Step(db, call).db.orders && Moves(db.orders[id], Step(db, call).db.orders[id], move)
    ensures !move.Forced?
    ensures forall from, to :: Window(call, from, to) ==> Within(move, from, to)
  {
    UpdateStatusEffect(db, call.orderId, call.status, call.role, call.now);
    if id == call.orderId && Accepts(db, db.orders[id], call.status, call.role) {
      move := ByTable(StatusRowOf(call.status, call.now), call.now, call.status.finishedImage,
                      call.status.receivedImage);
    } else {
      move := Stay;
    }
  }

  lemma MemberMove(order: Order, second: nat) returns (move: Move)
    ensures Moves(order, WithStatus(order, PlainRow(InTransport, second), None, None), move)
    ensures move.Forced? <==> order.latestStatus != ReceivedExternal
    ensures forall from: nat, to: nat :: from <= second <= to ==> Within(move, from, to)
  {
    if order.latestStatus == ReceivedExternal {
      move := ByTable(PlainRow(InTransport, second), second, None, None);
    } else {
      move := Forced(second);
    }
  }

  lemma TransportReply(db: Db, call: Call)
    requires Transports(db, call)
    ensures Step(db, call).db.orders ==
            FanOut(db, TransportWrites(db.deliveries[call.deliveryId].links, call.clock)).orders
  {
  }

  lemma TransportMove(db: Db, call: Call, id: Id) returns (move: Move)
    requires Intact(db) && Transports(db, call) && id in db.orders
    ensures id in Step(db, call).db.orders && Moves(db.orders[id], Step(db, call).db.orders[id], move)
    ensures move.Forced? <==> ForcesTransport(db, call, id)
    ensures forall from, to :: Window(call, from, to) ==> Within(move, from, to)
  {
    var links := db.deliveries[call.deliveryId].links;
    assert LinksSound(db.deliveries[call.deliveryId], db.orders);
    TransportAt(db, links, call.clock, id);
    TransportReply(db, call);
    if IsMember(links, id) {
      move := MemberMove(db.orders[id], call.clock(id));
    } else {
      move := Stay;
    }
  }

  lemma TripStatusMove(db: Db, call: Call, id: Id) returns (move: Move)
    requires Intact(db) && call.CallTripStatus? && id in db.orders
    ensures id in Step(db, call).db.orders && Moves(db.orders[id], Step(db, call).db.orders[id], move)
    ensures move.Forced? <==> ForcesTransport(db, call, id)
    ensures forall from, to :: Window(call, from, to) ==> Within(move, from, to)
  {
    if Transports(db, call) {
      move := TransportMove(db, call, id);
    } else {
      var writes := TripStatusEffect(db, call.deliveryId, call.trip, call.caller, call.clock, call.now);
      move := Stay;
      if writes != [] {
        var links := db.deliveries[call.deliveryId].links;
        assert LinksSound(db.deliveries[call.deliveryId], db.orders);
        CancelAt(db, links, call.trip, call.clock, id);
        if CascadesTo(db, links, id) {
          move := ByTable(CancelRow(call.trip, call.clock(id)), call.clock(id), None, None);
        }
      }
    }
  }

  /** Only three calls write order status rows. */
  predicate WritesStatus(call: Call) {
    call.CallCreateOrder? || call.CallUpdateStatus? || call.CallTripStatus?
  }

  ghost predicate Owned(db: Db, id: Id) {
    id in db.orders && db.orders[id].studentId.Some?
  }

  /** All that the other calls may do to an order row. */
  ghost predicate QuietEdit(order: Order, order': Order, call: Call) {
    || order' == order
    || (call.CallDelayOrders? && order' == order.(deliveryDate := Some(call.timeslot)))
    || (call.CallCreateDelivery? && order' == order.(shipperId := order'.shipperId))
    || (call.CallWebhook? && order' == Collected(order, call.amount))
  }

  lemma QuietOrder(db: Db, call: Call, id: Id)
    requires !WritesStatus(call) && id in Step(db, call).db.orders
    ensures id in db.orders && QuietEdit(db.orders[id], Step(db, call).db.orders[id], call)
  {
    match call
    case CallDelayOrders(_, _) =>
    case CallCreateDelivery(_, _, _) =>
    case CallWebhook(_, _, _, _) =>
    case CallDeleteOrder(_, _, _) =>
    case _ =>
  }

  /** Every other call leaves the trail, the key and the owner of every surviving order alone, and
      creates no order. */
  lemma QuietCall(db: Db, call: Call, id: Id)
    requires !WritesStatus(call) && id in Step(db, call).db.orders
    ensures id in db.orders && SameTrail(db.orders[id], Step(db, call).db.orders[id])
    ensures SameReferences(db.orders[id], Step(db, call).db.orders[id])
  {
    QuietOrder(db, call, id);
  }

  ghost predicate SameRules(db: Db, db': Db) {
    db'.regulations == db.regulations && db'.defaultThreshold == db.defaultThreshold && db'.numberOf == db.numberOf
  }

  lemma QuietRules(db: Db, call: Call)
    requires !WritesStatus(call)
    ensures SameRules(db, Step(db, call).db)
  {
  }

  /** No call changes the regulations or the environment. */
  lemma RulesFixed(db: Db, call: Call)
    ensures SameRules(db, Step(db, call).db)
  {
    match call
    case CallCreateOrder(newId, request, now, delay) =>
      var write := CreateOrderEffect(db, newId, request, now, delay);
    case CallUpdateStatus(id, dto, role, now) => UpdateStatusEffect(db, id, dto, role, now);
    case CallTripStatus(id, dto, caller, clock, now) =>
      var writes := TripStatusEffect(db, id, dto, caller, clock, now);
    case _ => QuietRules(db, call);
  }

  lemma {:induction false} RunRulesFixed(db: Db, calls: seq<Call>)
    ensures SameRules(db, Run(db, calls))
  {
    if calls != [] {
      RunRulesFixed(db, calls[..|calls| - 1]);
      RulesFixed(Run(db, calls[..|calls| - 1]), calls[|calls| - 1]);
    }
  }

  /** The calls that write deliveries. */
  predicate TouchesTrips(call: Call) {
    call.CallCreateDelivery? || call.CallUpdateDelivery? || call.CallTripStatus? || call.CallDeleteDelivery?
  }

  lemma TripsUntouched(db: Db, call: Call)
    requires !TouchesTrips(call)
    ensures Step(db, call).db.deliveries == db.deliveries
  {
    match call
    case CallCreateOrder(newId, request, now, delay) =>
      var write := CreateOrderEffect(db, newId, request, now, delay);
    case CallUpdateStatus(id, dto, role, now) => UpdateStatusEffect(db, id, dto, role, now);
    case _ =>
  }

  /** Every call moves the history of every surviving order in one of the four ways, and forces a
      row exactly if it transports an order whose status is not RECEIVED_EXTERNAL. */
  lemma OrderMove(db: Db, call: Call, id: Id) returns (move: Move)
    requires Intact(db) && id in db.orders && id in Step(db, call).db.orders
    ensures Moves(db.orders[id], Step(db, call).db.orders[id], move)
    ensures move.Forced? <==> ForcesTransport(db, call, id)
    ensures forall from, to :: Window(call, from, to) ==> Within(move, from, to)
  {
    match call
    case CallCreateOrder(_, _, _, _) => move := CreateOrderMove(db, call, id);
    case CallUpdateStatus(_, _, _, _) => move := UpdateStatusMove(db, call, id);
    case CallTripStatus(_, _, _, _, _) => move := TripStatusMove(db, call, id);
    case _ =>
      QuietCall(db, call, id);
      move := Stay;
  }

  /** A new order starts with the one row PENDING and without evidence images. */
  lemma OrderBirth(db: Db, call: Call, id: Id)
    requires id !in db.orders && id in Step(db, call).db.orders
    ensures call.CallCreateOrder?
    ensures var order := Step(db, call).db.orders[id];
            order.history == [PlainRow(Pending, call.now)] && order.latestStatus == Pending &&
            order.finishedImage == None && order.receivedImage == None
  {
    match call
    case CallCreateOrder(newId, request, second, delay) =>
      var write := CreateOrderEffect(db, newId, request, second, delay);
    case CallUpdateStatus(order, dto, role, second) =>
      UpdateStatusEffect(db, order, dto, role, second);
      assert false;
    case CallTripStatus(trip, dto, caller, clock, second) =>
      var writes := TripStatusEffect(db, trip, dto, caller, clock, second);
      FanOutKeeps(db, writes);
      assert false;
    case _ =>
      QuietCall(db, call, id);
      assert false;
  }

  /** The call deletes the order: a student's deletion is let through by the latest status, and link
      rows restrict every deletion. */
  ghost predicate Deletes(db: Db, call: Call, id: Id) {
    && call.CallDeleteOrder? && call.orderId == id && id in db.orders
    && (call.role == Student ==> call.latest < |db.orders[id].history| &&
                                 db.orders[id].history[call.latest].status in {Rejected, Pending})
    && !InSomeDelivery(db, id)
  }

  ghost function Deletion(id: Id): Event {
    (db: Db, call: Call) => Deletes(db, call, id)
  }

  /** Only its deletion removes an order. */
  lemma StepKeepsOrder(db: Db, call: Call, id: Id)
    requires id in db.orders
    ensures id in Step(db, call).db.orders <==> !Deletes(db, call, id)
  {
    match call
    case CallCreateOrder(newId, request, now, delay) =>
      var write := CreateOrderEffect(db, newId, request, now, delay);
    case CallUpdateStatus(order, dto, role, now) => UpdateStatusEffect(db, order, dto, role, now);
    case CallTripStatus(trip, dto, caller, clock, now) =>
      var writes := TripStatusEffect(db, trip, dto, caller, clock, now);
      FanOutKeeps(db, writes);
    case _ =>
  }

  /** What can only happen to an existing order, and is over once it is deleted, has not happened to
      an order that is not there. */
  lemma {:induction false} AbsentIsFresh(db: Db, calls: seq<Call>, id: Id, starts: Event, stops: Event)
    requires Initial(db) && id !in Run(db, calls).orders
    requires forall d, c :: starts(d, c) ==> id in d.orders && !c.CallDeleteOrder?
    requires forall d, c :: Deletes(d, c, id) ==> stops(d, c)
    ensures !Since(db, calls, starts, stops)
  {
    if calls != [] {
      var front, last := calls[..|calls| - 1], calls[|calls| - 1];
      assert calls == front + [last];
      SinceExtends(db, front, last, starts, stops);
      if id in Run(db, front).orders {
        StepKeepsOrder(Run(db, front), last, id);
      } else {
        AbsentIsFresh(db, front, id, starts, stops);
      }
    }
  }
}
