/** What the calls of src/deliveries/deliveries.service.impl.ts do to the tables. */
module DeliveryService {
  import opened Model
  import opened OrderRules
  import OrderService
  import Decimal

  datatype CreateDeliveryDto = CreateDeliveryDto(orderIds: seq<Id>, staffId: Option<Id>, limitTime: int)

  /** Every field of an update is optional; an absent one is left alone. */
  datatype UpdateDeliveryDto = UpdateDeliveryDto(
    orderIds: Option<seq<Id>>,
    staffId: Option<Id>,
    limitTime: Option<int>)

  datatype UpdateTripDto = UpdateTripDto(status: TripStatus, reason: Option<string>, canceledImage: Option<string>)

  /** One status write of a fan-out: the order, and the history row its transaction writes. */
  datatype Write = Write(orderId: Id, row: StatusRow)

  /** The link rows for a list of orders, numbered from 1. */
  function Numbered(orderIds: seq<Id>): seq<Link> {
    seq(|orderIds|, i requires 0 <= i < |orderIds| => Link(orderIds[i], i + 1))
  }

  function AppendWrite(db: Db, write: Write): Db {
    OrderService.AppendStatus(db, write.orderId, write.row, None, None)
  }

  /** The status transactions of a fan-out, one after the other. */
  function FanOut(db: Db, writes: seq<Write>): Db {
    if writes == [] then db else AppendWrite(FanOut(db, writes[..|writes| - 1]), writes[|writes| - 1])
  }

  /** One write for every link of a list, each with the second its own transaction runs in. */
  function TransportWrites(links: seq<Link>, clock: Id -> nat): seq<Write> {
    seq(|links|, i requires 0 <= i < |links| =>
      Write(links[i].orderId, OrderService.PlainRow(InTransport, clock(links[i].orderId))))
  }

  predicate HasStatus(db: Db, link: Link, status: OrderStatus) {
    link.orderId in db.orders && db.orders[link.orderId].latestStatus == status
  }

  /** The links whose order is being transported, in link order. */
  function InTransportLinks(db: Db, links: seq<Link>): seq<Link> {
    if links == [] then []
    else
      var front := InTransportLinks(db, links[..|links| - 1]);
      if HasStatus(db, links[|links| - 1], InTransport) then front + [links[|links| - 1]] else front
  }

  function CancelRow(dto: UpdateTripDto, now: nat): StatusRow {
    HistoryRow(Canceled, Decimal.ToText(now), MapReason(Some(FromStaff), dto.reason), dto.canceledImage)
  }

  function CancelWrites(links: seq<Link>, dto: UpdateTripDto, clock: Id -> nat): seq<Write> {
    seq(|links|, i requires 0 <= i < |links| =>
      Write(links[i].orderId, CancelRow(dto, clock(links[i].orderId))))
  }

  function AppendTripStatus(db: Db, id: Id, status: TripStatus, dto: UpdateTripDto, now: nat): Db
    requires id in db.deliveries
  {
    var trip := db.deliveries[id];
    var row := HistoryRow(status, Decimal.ToText(now), dto.reason, dto.canceledImage);
    db.(deliveries := db.deliveries[id := trip.(latestStatus := status, history := trip.history + [row])])
  }

  function Shipped(orders: map<Id, Order>, ids: set<Id>, staffId: Option<Id>): map<Id, Order> {
    map id | id in orders ::
      if id in ids then orders[id].(shipperId := Coalesce(staffId, orders[id].shipperId)) else orders[id]
  }

  function NewTrip(dto: CreateDeliveryDto, now: nat): Delivery {
    var createdAt := Decimal.ToText(now);
    Delivery(dto.staffId, dto.limitTime, createdAt, |dto.orderIds|, Numbered(dto.orderIds), TripPending,
             [HistoryRow(TripPending, createdAt, None, None)])
  }

  /** An order may join a second delivery only once it has been received from outside. */
  predicate Unavailable(db: Db, orderId: Id) {
    OrderService.InSomeDelivery(db, orderId) && orderId in db.orders &&
    db.orders[orderId].latestStatus != ReceivedExternal
  }

  ghost function CreateDelivery(db: Db, newId: Id, dto: CreateDeliveryDto, now: nat): Reply {
    var found := OrderService.FindMany(db, dto.orderIds);
    if |found| != |dto.orderIds| then Reply(db, Refused(OrdersMissing))
    else if exists id :: id in found && Unavailable(db, id) then Reply(db, Refused(NotReceivedYet))
    else if newId in db.deliveries then Reply(db, Refused(DuplicateKey))
    else
      Reply(db.(orders := Shipped(db.orders, found, dto.staffId),
                deliveries := db.deliveries[newId := NewTrip(dto, now)]),
            Done)
  }

  /** Two link rows of one delivery for one order violate the primary key of the link table. */
  predicate DistinctOrders(links: seq<Link>) {
    forall i, j :: 0 <= i < j < |links| ==> links[i].orderId != links[j].orderId
  }

  /** updateDelivery: without an order list the service dereferences undefined and throws. */
  function UpdateDelivery(db: Db, id: Id, dto: UpdateDeliveryDto): Reply {
    if id !in db.deliveries then Reply(db, Refused(DeliveryNotFound))
    else if db.deliveries[id].latestStatus != TripPending then Reply(db, Refused(DeliveryNotPending))
    else if dto.orderIds.None? then Reply(db, Refused(OrdersMissing))
    else if |OrderService.FindMany(db, dto.orderIds.value)| != |dto.orderIds.value| then
      Reply(db, Refused(OrdersMissing))
    else
      var trip := db.deliveries[id];
      var links := trip.links + Numbered(dto.orderIds.value);
      if !DistinctOrders(links) then Reply(db, Refused(DuplicateKey))
      else
        Reply(db.(deliveries := db.deliveries[id := trip.(
                    limitTime := if dto.limitTime.Some? then dto.limitTime.value else trip.limitTime,
                    staffId := Coalesce(dto.staffId, trip.staffId),
                    links := links)]),
              Done)
  }

  /** The staff member already has an accepted delivery. */
  predicate IsGoingDelivery(db: Db, staffId: Id) {
    exists d :: d in db.deliveries && db.deliveries[d].staffId == Some(staffId) &&
      db.deliveries[d].latestStatus == TripAccepted
  }

  predicate AllOrdersCanceled(db: Db, links: seq<Link>) {
    forall k :: 0 <= k < |links| ==> HasStatus(db, links[k], Canceled)
  }

  predicate HasCancelEvidence(dto: UpdateTripDto) {
    Given(dto.reason) && Given(dto.canceledImage)
  }

  /** The branch of updateDeliveryStatus for a status other than CANCELED. Whether all orders are
      canceled is decided on the rows read before the fan-out. */
  function ProceedTrip(db: Db, id: Id, dto: UpdateTripDto, clock: Id -> nat, now: nat): Reply
    requires id in db.deliveries
  {
    var links := db.deliveries[id].links;
    var moved := if dto.status == TripAccepted then FanOut(db, TransportWrites(links, clock)) else db;
    if AllOrdersCanceled(db, links) && !HasCancelEvidence(dto) then Reply(moved, Refused(CancelEvidenceMissing))
    else
      FanOutKeeps(db, TransportWrites(links, clock));
      Reply(AppendTripStatus(moved, id, if AllOrdersCanceled(db, links) then TripCanceled else dto.status, dto, now),
            Done)
  }

  /** The branch of updateDeliveryStatus for CANCELED, which cascades to the transported orders. */
  function CancelTrip(db: Db, id: Id, dto: UpdateTripDto, clock: Id -> nat, now: nat): Reply
    requires id in db.deliveries
  {
    if !HasCancelEvidence(dto) then Reply(db, Refused(CancelEvidenceMissing))
    else
      var writes := CancelWrites(InTransportLinks(db, db.deliveries[id].links), dto, clock);
      FanOutKeeps(db, writes);
      Reply(AppendTripStatus(FanOut(db, writes), id, TripCanceled, dto, now), Done)
  }

  ghost function UpdateDeliveryStatus(db: Db, id: Id, dto: UpdateTripDto, caller: Caller, clock: Id -> nat,
                                      now: nat): Reply {
    if IsGoingDelivery(db, caller.id) && dto.status == TripAccepted then Reply(db, Refused(TripInProgress))
    else if id !in db.deliveries then Reply(db, Refused(DeliveryNotFound))
    else if dto.status == TripCanceled then CancelTrip(db, id, dto, clock, now)
    else if dto.status in {TripPending, TripAccepted} && (Given(dto.reason) || Given(dto.canceledImage)) then
      Reply(db, Refused(UnexpectedCancelEvidence))
    else ProceedTrip(db, id, dto, clock, now)
  }

  /** deleteDelivery, `latest` being the index of the history row the database returns as the
      latest one. Link rows restrict the delete. */
  function DeleteDelivery(db: Db, id: Id, latest: nat): Reply {
    if id !in db.deliveries then Reply(db, Refused(DeliveryNotFound))
    else if !(latest < |db.deliveries[id].history| && db.deliveries[id].history[latest].status == TripPending) then
      Reply(db, Refused(DeliveryNotPending))
    else if db.deliveries[id].links != [] then Reply(db, Refused(StillReferenced))
    else Reply(db.(deliveries := db.deliveries - {id}), Done)
  }

  /** A fan-out writes the order table only, and neither adds nor removes an order. */
  lemma {:induction false} FanOutKeeps(db: Db, writes: seq<Write>)
    ensures FanOut(db, writes) == db.(orders := FanOut(db, writes).orders)
    ensures FanOut(db, writes).orders.Keys == db.orders.Keys
  {
    if writes != [] {
      FanOutKeeps(db, writes[..|writes| - 1]);
    }
  }
}
