/** What the calls on deliveries promise, case by case: when each succeeds, why it is refused, and
    every column it writes. */
module DeliveryContracts {
  import opened Model
  import opened OrderService
  import opened DeliveryService
  import opened FanOuts
  import opened Effects
  import opened Integrity
  import opened OrderContracts
  import Decimal

  /** No other delivery differs. */
  ghost predicate OnlyTrip(db: Db, db': Db, d: Id) {
    && db'.deliveries.Keys == db.deliveries.Keys + {d}
    && forall e :: e in db.deliveries && e != d ==> db'.deliveries[e] == db.deliveries[e]
  }

  /** One link for each order, in the given order, numbered from 1. */
  predicate LinksTo(links: seq<Link>, orderIds: seq<Id>) {
    |links| == |orderIds| && forall k :: 0 <= k < |links| ==> links[k] == Link(orderIds[k], k + 1)
  }

  ghost predicate CreateDeliveryOutcome(db: Db, newId: Id, dto: CreateDeliveryDto, now: nat, reply: Reply) {
    && (reply.verdict == Done <==>
          && newId !in db.deliveries && NoDuplicates(dto.orderIds)
          && forall id :: id in dto.orderIds ==>
               id in db.orders && (HasLink(db, id) ==> db.orders[id].latestStatus == ReceivedExternal))
    && (reply.verdict == Done ==>
          && reply.db == db.(orders := reply.db.orders, deliveries := reply.db.deliveries)
          && OnlyTrip(db, reply.db, newId)
          && var trip := reply.db.deliveries[newId];
          && trip.staffId == dto.staffId && trip.limitTime == dto.limitTime && trip.numberOrder == |dto.orderIds|
          && LinksTo(trip.links, dto.orderIds) && trip.latestStatus == TripPending
          && trip.createdAt == Decimal.ToText(now)
          && trip.history == [HistoryRow(TripPending, Decimal.ToText(now), None, None)]
          && reply.db.orders.Keys == db.orders.Keys
          && forall o :: o in db.orders ==>
               reply.db.orders[o] ==
               if o in dto.orderIds && dto.staffId.Some? then db.orders[o].(shipperId := dto.staffId) else db.orders[o])
    && (reply.verdict != Done ==> reply.db == db)
    && (reply.verdict == Refused(OrdersMissing) <==>
          !NoDuplicates(dto.orderIds) || exists id :: id in dto.orderIds && id !in db.orders)
    && (reply.verdict == Refused(NotReceivedYet) ==>
          exists id :: id in dto.orderIds && id in db.orders && HasLink(db, id) &&
                       db.orders[id].latestStatus != ReceivedExternal)
    && (reply.verdict == Refused(DuplicateKey) ==> newId in db.deliveries)
    && (reply.verdict.Refused? ==> reply.verdict.why in {OrdersMissing, NotReceivedYet, DuplicateKey})
  }

  /** createDelivery: for distinct existing orders, of which those that are in a delivery already have
      been received from outside. */
  lemma CreateDeliveryExactly(db: Db, newId: Id, dto: CreateDeliveryDto, now: nat)
    ensures CreateDeliveryOutcome(db, newId, dto, now, CreateDelivery(db, newId, dto, now))
  {
    FindManyComplete(db, dto.orderIds);
    var reply := CreateDelivery(db, newId, dto, now);
    assert forall id :: id in FindMany(db, dto.orderIds) <==> id in dto.orderIds && id in db.orders;
    assert forall id :: InSomeDelivery(db, id) <==> HasLink(db, id);
    if reply.verdict == Done {
      forall id | id in dto.orderIds
        ensures id in db.orders && (HasLink(db, id) ==> db.orders[id].latestStatus == ReceivedExternal)
      {
        assert id in FindMany(db, dto.orderIds);
      }
    }
  }

  /** The order is linked to the delivery. */
  predicate IsLinked(trip: Delivery, id: Id) {
    exists k :: 0 <= k < |trip.links| && trip.links[k].orderId == id
  }

  ghost predicate MayUpdateTrip(db: Db, d: Id, dto: UpdateDeliveryDto) {
    && d in db.deliveries && db.deliveries[d].latestStatus == TripPending
    && dto.orderIds.Some? && NoDuplicates(dto.orderIds.value)
    && forall id :: id in dto.orderIds.value ==> id in db.orders && !IsLinked(db.deliveries[d], id)
  }

  ghost predicate TripUpdated(db: Db, db': Db, d: Id, dto: UpdateDeliveryDto)
    requires d in db.deliveries && dto.orderIds.Some?
  {
    && db' == db.(deliveries := db'.deliveries) && OnlyTrip(db, db', d)
    && var before, after := db.deliveries[d], db'.deliveries[d];
    && (dto.staffId.Some? ==> after.staffId == dto.staffId)
    && (dto.staffId.None? ==> after.staffId == before.staffId)
    && (dto.limitTime.Some? ==> after.limitTime == dto.limitTime.value)
    && (dto.limitTime.None? ==> after.limitTime == before.limitTime)
    && |after.links| == |before.links| + |dto.orderIds.value|
    && after.links[..|before.links|] == before.links
    && LinksTo(after.links[|before.links|..], dto.orderIds.value)
    && after == before.(staffId := after.staffId, limitTime := after.limitTime, links := after.links)
  }

  ghost predicate UpdateDeliveryOutcome(db: Db, d: Id, dto: UpdateDeliveryDto, reply: Reply) {
    && (reply.verdict == Done <==> MayUpdateTrip(db, d, dto))
    && (reply.verdict == Done ==> TripUpdated(db, reply.db, d, dto))
    && (reply.verdict != Done ==> reply.db == db)
    && (reply.verdict == Refused(DeliveryNotFound) <==> d !in db.deliveries)
    && (reply.verdict == Refused(DeliveryNotPending) <==>
          d in db.deliveries && db.deliveries[d].latestStatus != TripPending)
    && (reply.verdict == Refused(OrdersMissing) ==>
          dto.orderIds.None? || !NoDuplicates(dto.orderIds.value) ||
          exists id :: id in dto.orderIds.value && id !in db.orders)
    && (reply.verdict == Refused(DuplicateKey) ==>
          d in db.deliveries && dto.orderIds.Some? &&
          exists id :: id in dto.orderIds.value && IsLinked(db.deliveries[d], id))
    && (reply.verdict.Refused? ==>
          reply.verdict.why in {DeliveryNotFound, DeliveryNotPending, OrdersMissing, DuplicateKey})
  }

  /** Adding distinct orders keeps the links distinct exactly if none of them is linked. */
  lemma AddedDistinct(links: seq<Link>, orderIds: seq<Id>)
    requires DistinctOrders(links) && NoDuplicates(orderIds)
    ensures DistinctOrders(links + Numbered(orderIds)) <==>
            forall k, j :: 0 <= k < |links| && 0 <= j < |orderIds| ==> links[k].orderId != orderIds[j]
  {
    var all := links + Numbered(orderIds);
    if DistinctOrders(all) {
      forall k, j | 0 <= k < |links| && 0 <= j < |orderIds| ensures links[k].orderId != orderIds[j] {
        assert all[k] == links[k] && all[|links| + j].orderId == orderIds[j];
      }
    }
  }

  lemma NoneLinked(trip: Delivery, orderIds: seq<Id>)
    requires DistinctOrders(trip.links) && NoDuplicates(orderIds)
    ensures DistinctOrders(trip.links + Numbered(orderIds)) <==>
            forall id :: id in orderIds ==> !IsLinked(trip, id)
  {
    AddedDistinct(trip.links, orderIds);
    if forall id :: id in orderIds ==> !IsLinked(trip, id) {
      forall k, j | 0 <= k < |trip.links| && 0 <= j < |orderIds| ensures trip.links[k].orderId != orderIds[j] {
        assert orderIds[j] in orderIds;
      }
    }
  }

  /** updateDelivery: for a pending delivery and distinct existing orders, none of them in it. */
  lemma UpdateDeliveryExactly(db: Db, d: Id, dto: UpdateDeliveryDto)
    requires d in db.deliveries ==> DistinctOrders(db.deliveries[d].links)
    ensures UpdateDeliveryOutcome(db, d, dto, UpdateDelivery(db, d, dto))
  {
    if d in db.deliveries && dto.orderIds.Some? {
      var ids := dto.orderIds.value;
      FindManyComplete(db, ids);
      if NoDuplicates(ids) {
        NoneLinked(db.deliveries[d], ids);
      }
      var reply := UpdateDelivery(db, d, dto);
      if reply.verdict == Done {
        var before, after := db.deliveries[d], reply.db.deliveries[d];
        assert after.links[..|before.links|] == before.links;
        assert after.links[|before.links|..] == Numbered(ids);
      }
    }
  }

  /** Every order of the delivery is there and canceled. */
  predicate AllCanceled(db: Db, trip: Delivery) {
    forall k :: 0 <= k < |trip.links| ==>
      trip.links[k].orderId in db.orders && db.orders[trip.links[k].orderId].latestStatus == Canceled
  }

  ghost predicate IsDriving(db: Db, staffId: Id) {
    exists d :: d in db.deliveries && db.deliveries[d].staffId == Some(staffId) &&
      db.deliveries[d].latestStatus == TripAccepted
  }

  predicate WithEvidence(dto: UpdateTripDto) {
    Given(dto.reason) && Given(dto.canceledImage)
  }

  ghost predicate MaySetTrip(db: Db, d: Id, dto: UpdateTripDto, caller: Caller) {
    && d in db.deliveries
    && match dto.status
       case TripCanceled => WithEvidence(dto)
       case TripFinished => AllCanceled(db, db.deliveries[d]) ==> WithEvidence(dto)
       case TripPending =>
         !AllCanceled(db, db.deliveries[d]) && !Given(dto.reason) && !Given(dto.canceledImage)
       case TripAccepted =>
         !AllCanceled(db, db.deliveries[d]) && !Given(dto.reason) && !Given(dto.canceledImage) &&
         !IsDriving(db, caller.id)
  }

  /** The delivery afterwards: one row more with the call's reason and picture, and its status in the
      column, which is CANCELED for a cancel and where every order is canceled. */
  ghost predicate TripSet(db: Db, before: Delivery, after: Delivery, dto: UpdateTripDto, now: nat) {
    && after.latestStatus ==
       (if dto.status == TripCanceled || AllCanceled(db, before) then TripCanceled else dto.status)
    && after.history ==
       before.history + [HistoryRow(after.latestStatus, Decimal.ToText(now), dto.reason, dto.canceledImage)]
    && after == before.(latestStatus := after.latestStatus, history := after.history)
  }

  /** An order of the delivery afterwards: an accept writes IN_TRANSPORT to each, a cancel CANCELED to
      those in transport, and no other status anything. */
  ghost predicate OrderSet(before: Order, after: Order, linked: bool, dto: UpdateTripDto, second: nat) {
    if linked && dto.status == TripAccepted then
      after == before.(latestStatus := InTransport,
                       history := before.history + [HistoryRow(InTransport, Decimal.ToText(second), None, None)])
    else if linked && dto.status == TripCanceled && before.latestStatus == InTransport then
      dto.reason.Some? &&
      after == before.(latestStatus := Canceled,
                       history := before.history +
                         [HistoryRow(Canceled, Decimal.ToText(second),
                                     Some("Lí do xuất phát từ nhân viên: " + dto.reason.value),
                                     dto.canceledImage)])
    else after == before
  }

  ghost predicate TripStatusOutcome(db: Db, d: Id, dto: UpdateTripDto, caller: Caller, clock: Id -> nat, now: nat,
                                    reply: Reply) {
    && (reply.verdict == Done <==> MaySetTrip(db, d, dto, caller))
    && reply.db == db.(orders := reply.db.orders, deliveries := reply.db.deliveries)
    && reply.db.orders.Keys == db.orders.Keys
    && (reply.verdict == Done ==>
          && OnlyTrip(db, reply.db, d) && d in db.deliveries
          && TripSet(db, db.deliveries[d], reply.db.deliveries[d], dto, now)
          && forall o :: o in db.orders ==>
               OrderSet(db.orders[o], reply.db.orders[o], IsLinked(db.deliveries[d], o), dto, clock(o)))
    && (reply.verdict != Done ==> reply.db.deliveries == db.deliveries)
    && (reply.verdict == Refused(TripInProgress) <==> dto.status == TripAccepted && IsDriving(db, caller.id))
    && (reply.verdict == Refused(DeliveryNotFound) ==> d !in db.deliveries)
    && (reply.verdict == Refused(UnexpectedCancelEvidence) ==>
          dto.status in {TripPending, TripAccepted} && (Given(dto.reason) || Given(dto.canceledImage)))
    && (reply.verdict == Refused(CancelEvidenceMissing) ==>
          d in db.deliveries && !WithEvidence(dto) &&
          (dto.status == TripCanceled || AllCanceled(db, db.deliveries[d])))
    && (reply.verdict.Refused? ==>
          reply.verdict.why in {TripInProgress, DeliveryNotFound, UnexpectedCancelEvidence, CancelEvidenceMissing})
  }

  lemma OrderSetExactly(db: Db, d: Id, dto: UpdateTripDto, caller: Caller, clock: Id -> nat, now: nat, o: Id)
    requires d in db.deliveries && DistinctOrders(db.deliveries[d].links) && o in db.orders
    requires UpdateDeliveryStatus(db, d, dto, caller, clock, now).verdict == Done
    ensures var after := UpdateDeliveryStatus(db, d, dto, caller, clock, now).db;
            o in after.orders && OrderSet(db.orders[o], after.orders[o], IsLinked(db.deliveries[d], o), dto, clock(o))
  {
    if dto.status == TripCanceled {
      CancelCascade(db, d, dto, caller, clock, now, o);
    } else if dto.status == TripAccepted {
      AcceptCascade(db, d, dto, caller, clock, now, o);
    }
  }

  lemma CanceledTripSet(db: Db, d: Id, dto: UpdateTripDto, clock: Id -> nat, now: nat)
    requires d in db.deliveries && dto.status == TripCanceled
    requires CancelTrip(db, d, dto, clock, now).verdict == Done
    ensures var after := CancelTrip(db, d, dto, clock, now).db;
            OnlyTrip(db, after, d) && TripSet(db, db.deliveries[d], after.deliveries[d], dto, now)
  {
    FanOutKeeps(db, CancelWrites(InTransportLinks(db, db.deliveries[d].links), dto, clock));
  }

  lemma ProceededTripSet(db: Db, d: Id, dto: UpdateTripDto, clock: Id -> nat, now: nat)
    requires d in db.deliveries && dto.status != TripCanceled
    requires ProceedTrip(db, d, dto, clock, now).verdict == Done
    ensures var after := ProceedTrip(db, d, dto, clock, now).db;
            OnlyTrip(db, after, d) && TripSet(db, db.deliveries[d], after.deliveries[d], dto, now)
  {
    FanOutKeeps(db, TransportWrites(db.deliveries[d].links, clock));
  }

  lemma TripSetExactly(db: Db, d: Id, dto: UpdateTripDto, caller: Caller, clock: Id -> nat, now: nat)
    requires UpdateDeliveryStatus(db, d, dto, caller, clock, now).verdict == Done
    ensures var after := UpdateDeliveryStatus(db, d, dto, caller, clock, now).db;
            && d in db.deliveries && OnlyTrip(db, after, d)
            && TripSet(db, db.deliveries[d], after.deliveries[d], dto, now)
  {
    if dto.status == TripCanceled {
      CanceledTripSet(db, d, dto, clock, now);
    } else {
      ProceededTripSet(db, d, dto, clock, now);
    }
  }

  lemma MaySetExactly(db: Db, d: Id, dto: UpdateTripDto, caller: Caller, clock: Id -> nat, now: nat)
    ensures UpdateDeliveryStatus(db, d, dto, caller, clock, now).verdict == Done <==> MaySetTrip(db, d, dto, caller)
  {
  }

  /** updateDeliveryStatus, for every call: when it succeeds, the row and the column it leaves on the
      delivery, and what it does to every order. */
  lemma TripStatusExactly(db: Db, d: Id, dto: UpdateTripDto, caller: Caller, clock: Id -> nat, now: nat)
    requires d in db.deliveries ==> DistinctOrders(db.deliveries[d].links)
    ensures TripStatusOutcome(db, d, dto, caller, clock, now, UpdateDeliveryStatus(db, d, dto, caller, clock, now))
  {
    var reply := UpdateDeliveryStatus(db, d, dto, caller, clock, now);
    MaySetExactly(db, d, dto, caller, clock, now);
    var writes := TripStatusEffect(db, d, dto, caller, clock, now);
    FanOutKeeps(db, writes);
    if reply.verdict == Done {
      TripSetExactly(db, d, dto, caller, clock, now);
      forall o | o in db.orders
        ensures OrderSet(db.orders[o], reply.db.orders[o], IsLinked(db.deliveries[d], o), dto, clock(o))
      {
        OrderSetExactly(db, d, dto, caller, clock, now, o);
      }
    }
  }

  ghost predicate DeleteDeliveryOutcome(db: Db, d: Id, latest: nat, reply: Reply) {
    && (reply.verdict == Done <==>
          && d in db.deliveries && db.deliveries[d].links == []
          && latest < |db.deliveries[d].history| && db.deliveries[d].history[latest].status == TripPending)
    && (reply.verdict == Done ==>
          && reply.db == db.(deliveries := reply.db.deliveries)
          && reply.db.deliveries.Keys == db.deliveries.Keys - {d}
          && forall e :: e in reply.db.deliveries ==> reply.db.deliveries[e] == db.deliveries[e])
    && (reply.verdict != Done ==> reply.db == db)
    && (reply.verdict == Refused(DeliveryNotFound) <==> d !in db.deliveries)
    && (reply.verdict == Refused(StillReferenced) ==> d in db.deliveries && db.deliveries[d].links != [])
    && (reply.verdict == Refused(DeliveryNotPending) ==>
          d in db.deliveries &&
          !(latest < |db.deliveries[d].history| && db.deliveries[d].history[latest].status == TripPending))
    && (reply.verdict.Refused? ==> reply.verdict.why in {DeliveryNotFound, StillReferenced, DeliveryNotPending})
  }

  /** deleteDelivery: one that is pending by its latest row and has no orders. */
  lemma DeleteDeliveryExactly(db: Db, d: Id, latest: nat)
    ensures DeleteDeliveryOutcome(db, d, latest, DeleteDelivery(db, d, latest))
  {
  }
}
