/** From the order list of a new delivery to the order list getDelivery shows. */
module RoundTrip {
  import opened Model
  import opened OrderService
  import opened DeliveryService
  import opened Effects
  import opened Integrity
  import opened Histories
  import opened Runs

  predicate SortedLinks(links: seq<Link>) {
    forall i, j :: 0 <= i < j < |links| ==> links[i].orderSequence <= links[j].orderSequence
  }

  predicate DistinctSequences(links: seq<Link>) {
    forall i, j :: 0 <= i < j < |links| ==> links[i].orderSequence != links[j].orderSequence
  }

  /** Put a link behind all links with the same or a smaller number. */
  function InsertLink(links: seq<Link>, link: Link): (r: seq<Link>)
    requires SortedLinks(links)
    ensures SortedLinks(r) && multiset(r) == multiset(links) + multiset{link}
    ensures forall k :: 0 <= k < |r| ==> r[k] in links || r[k] == link
  {
    if links == [] || links[|links| - 1].orderSequence <= link.orderSequence then links + [link]
    else
      var last := links[|links| - 1];
      var front := links[..|links| - 1];
      assert links == front + [last];
      InsertLink(front, link) + [last]
  }

  /** The stable sort by `orderSequence`. */
  function SortBySequence(links: seq<Link>): (r: seq<Link>)
    ensures SortedLinks(r) && multiset(r) == multiset(links)
  {
    if links == [] then []
    else
      assert links == links[..|links| - 1] + [links[|links| - 1]];
      InsertLink(SortBySequence(links[..|links| - 1]), links[|links| - 1])
  }

  /** The links with a number, in the order they come in. */
  function WithNumber(links: seq<Link>, n: int): seq<Link> {
    if links == [] then []
    else
      var front, last := WithNumber(links[..|links| - 1], n), links[|links| - 1];
      if last.orderSequence == n then front + [last] else front
  }

  lemma WithNumberAppend(links: seq<Link>, link: Link, n: int)
    ensures WithNumber(links + [link], n) == WithNumber(links, n) + if link.orderSequence == n then [link] else []
  {
    assert (links + [link])[..|links|] == links;
  }

  lemma {:induction false} InsertIsStable(links: seq<Link>, link: Link, n: int)
    requires SortedLinks(links)
    ensures WithNumber(InsertLink(links, link), n) == WithNumber(links + [link], n)
  {
    if links != [] && links[|links| - 1].orderSequence > link.orderSequence {
      var front, last := links[..|links| - 1], links[|links| - 1];
      InsertIsStable(front, link, n);
      assert links == front + [last];
      WithNumberAppend(front, last, n);
      WithNumberAppend(front, link, n);
      WithNumberAppend(links, link, n);
      WithNumberAppend(InsertLink(front, link), last, n);
    }
  }

  /** Links with one number keep the order the database returned them in. */
  lemma {:induction false} SortIsStable(links: seq<Link>, n: int)
    ensures WithNumber(SortBySequence(links), n) == WithNumber(links, n)
  {
    if links != [] {
      var front, last := links[..|links| - 1], links[|links| - 1];
      assert links == front + [last];
      SortIsStable(front, n);
      InsertIsStable(SortBySequence(front), last, n);
      WithNumberAppend(front, last, n);
      WithNumberAppend(SortBySequence(front), last, n);
    }
  }

  lemma SameFirst(a: seq<Link>, b: seq<Link>)
    requires SortedLinks(a) && DistinctSequences(a) && SortedLinks(b) && multiset(a) == multiset(b) && a != []
    ensures b != [] && a[0] == b[0]
  {
    assert a[0] in multiset(b);
    var j :| 0 <= j < |b| && b[j] == a[0];
    assert b[0] in multiset(a);
    var i :| 0 <= i < |a| && a[i] == b[0];
    assert a[0].orderSequence == a[i].orderSequence;
  }

  lemma TailMultiset(a: seq<Link>)
    requires a != []
    ensures multiset(a[1..]) == multiset(a) - multiset{a[0]}
  {
    assert a == [a[0]] + a[1..];
  }

  /** Sorting by distinct numbers has one outcome. */
  lemma {:induction false} SortedUnique(a: seq<Link>, b: seq<Link>)
    requires SortedLinks(a) && DistinctSequences(a) && SortedLinks(b) && multiset(a) == multiset(b)
    ensures a == b
    decreases |a|
  {
    if a == [] {
      assert |b| == |multiset(b)| == 0;
    } else {
      SameFirst(a, b);
      TailMultiset(a);
      TailMultiset(b);
      SortedUnique(a[1..], b[1..]);
      assert a == [a[0]] + a[1..] && b == [a[0]] + b[1..];
    }
  }

  /** The orders getDelivery lists, when the database returns the link rows as `fetched`. */
  function ListedOrders(fetched: seq<Link>): seq<Id> {
    var sorted := SortBySequence(fetched);
    seq(|sorted|, i requires 0 <= i < |sorted| => sorted[i].orderId)
  }

  lemma NumberedRoundTrip(orderIds: seq<Id>, fetched: seq<Link>)
    requires multiset(fetched) == multiset(Numbered(orderIds))
    ensures ListedOrders(fetched) == orderIds
  {
    SortedUnique(Numbered(orderIds), SortBySequence(fetched));
  }

  /** The calls that may change or remove the links of a delivery. */
  predicate MayRelink(call: Call, d: Id) {
    (call.CallUpdateDelivery? || call.CallDeleteDelivery?) && call.deliveryId == d
  }

  /** Only updateDelivery touches the links of a delivery, and nothing but its creation its count. */
  lemma LinksMove(db: Db, call: Call, d: Id)
    requires d in db.deliveries
    requires !MayRelink(call, d)
    ensures d in Step(db, call).db.deliveries
    ensures Step(db, call).db.deliveries[d].links == db.deliveries[d].links
    ensures Step(db, call).db.deliveries[d].numberOrder == db.deliveries[d].numberOrder
  {
    if call.CallTripStatus? {
      var writes := TripStatusEffect(db, call.deliveryId, call.trip, call.caller, call.clock, call.now);
    } else if !TouchesTrips(call) {
      TripsUntouched(db, call);
    }
  }

  lemma {:induction false} LinksStay(db: Db, calls: seq<Call>, d: Id)
    requires d in db.deliveries
    requires forall k :: 0 <= k < |calls| ==> !MayRelink(calls[k], d)
    ensures d in Run(db, calls).deliveries
    ensures Run(db, calls).deliveries[d].links == db.deliveries[d].links
    ensures Run(db, calls).deliveries[d].numberOrder == db.deliveries[d].numberOrder
  {
    if calls != [] {
      LinksStay(db, calls[..|calls| - 1], d);
      LinksMove(Run(db, calls[..|calls| - 1]), calls[|calls| - 1], d);
    }
  }

  /** A successful createDelivery had a list without duplicates of existing orders, numbers their
      links from 1, and hands exactly these orders to the staff member, if one is named. */
  lemma CreatedDelivery(db: Db, newId: Id, dto: CreateDeliveryDto, now: nat)
    requires CreateDelivery(db, newId, dto, now).verdict == Done
    ensures NoDuplicates(dto.orderIds) && forall id :: id in dto.orderIds ==> id in db.orders
    ensures var after := CreateDelivery(db, newId, dto, now).db;
            && newId in after.deliveries && after.deliveries[newId].links == Numbered(dto.orderIds)
            && after.deliveries[newId].numberOrder == |dto.orderIds|
            && after.deliveries[newId].staffId == dto.staffId && after.deliveries[newId].latestStatus == TripPending
            && after.orders.Keys == db.orders.Keys
            && forall o :: o in db.orders ==>
                 after.orders[o] ==
                 if o in dto.orderIds && dto.staffId.Some? then db.orders[o].(shipperId := dto.staffId)
                 else db.orders[o]
  {
    FindManyComplete(db, dto.orderIds);
  }

  /** From its creation on, after any calls but an update or a deletion of this delivery,
      getDelivery lists the orders of a delivery in exactly the submitted order, however the link
      rows come back, and the count is right. */
  lemma DeliveryRoundTrip(db: Db, newId: Id, dto: CreateDeliveryDto, now: nat, calls: seq<Call>, fetched: seq<Link>)
    requires CreateDelivery(db, newId, dto, now).verdict == Done
    requires forall k :: 0 <= k < |calls| ==> !MayRelink(calls[k], newId)
    ensures var after := Run(CreateDelivery(db, newId, dto, now).db, calls);
            && newId in after.deliveries
            && after.deliveries[newId].numberOrder == |dto.orderIds|
            && (multiset(fetched) == multiset(after.deliveries[newId].links) ==> ListedOrders(fetched) == dto.orderIds)
  {
    CreatedDelivery(db, newId, dto, now);
    LinksStay(CreateDelivery(db, newId, dto, now).db, calls, newId);
    if multiset(fetched) == multiset(Numbered(dto.orderIds)) {
      NumberedRoundTrip(dto.orderIds, fetched);
    }
  }

  /** What createDelivery and every update keep: the numbering starts with 1. */
  predicate StartsWithOne(links: seq<Link>) {
    links != [] ==> links[0].orderSequence == 1
  }

  lemma AppendedSequences(links: seq<Link>, orderIds: seq<Id>)
    requires StartsWithOne(links)
    ensures StartsWithOne(links + Numbered(orderIds))
    ensures DistinctSequences(links + Numbered(orderIds)) <==>
            DistinctSequences(links) && (orderIds == [] || links == [])
  {
    var added := Numbered(orderIds);
    var all := links + added;
    if orderIds != [] && links != [] {
      assert all[0].orderSequence == 1 && all[|links|].orderSequence == 1;
    } else {
      assert all == links || all == added;
    }
  }

  /** updateDelivery numbers the added links from 1 again and does not recount. A right count stays
      right exactly if nothing was added; the sequence numbers are distinct afterwards exactly if they
      were before, and nothing was added or there was nothing before. */
  lemma UpdateLosesCount(db: Db, d: Id, dto: UpdateDeliveryDto)
    requires d in db.deliveries && StartsWithOne(db.deliveries[d].links)
    requires UpdateDelivery(db, d, dto).verdict == Done
    ensures var before, after := db.deliveries[d], UpdateDelivery(db, d, dto).db.deliveries[d];
            && dto.orderIds.Some? && StartsWithOne(after.links)
            && (before.numberOrder == |before.links| ==>
                  (after.numberOrder == |after.links| <==> dto.orderIds.value == []))
            && (DistinctSequences(after.links) <==>
                  DistinctSequences(before.links) && (dto.orderIds.value == [] || before.links == []))
  {
    AppendedSequences(db.deliveries[d].links, dto.orderIds.value);
  }

  /** An updateDelivery that goes through and adds orders. */
  ghost predicate Adds(db: Db, call: Call, d: Id) {
    && call.CallUpdateDelivery? && call.deliveryId == d && d in db.deliveries
    && db.deliveries[d].latestStatus == TripPending
    && call.update.orderIds.Some? && call.update.orderIds.value != []
    && |FindMany(db, call.update.orderIds.value)| == |call.update.orderIds.value|
    && DistinctOrders(db.deliveries[d].links + Numbered(call.update.orderIds.value))
  }

  ghost function Adding(d: Id): Event {
    (db: Db, call: Call) => Adds(db, call, d)
  }

  /** A delivery that has orders stays; its count stays, and only an addition changes how many orders
      it has. */
  lemma StepCounts(db: Db, call: Call, d: Id)
    requires d in db.deliveries
    ensures db.deliveries[d].links != [] ==> d in Step(db, call).db.deliveries
    ensures d in Step(db, call).db.deliveries ==>
              var trip := Step(db, call).db.deliveries[d];
              && trip.numberOrder == db.deliveries[d].numberOrder
              && |trip.links| == |db.deliveries[d].links| +
                                 if Adds(db, call, d) then |call.update.orderIds.value| else 0
  {
    if !MayRelink(call, d) {
      LinksMove(db, call, d);
    }
  }

  /** A new delivery counts its orders. */
  lemma NewTripCounts(db: Db, call: Call, d: Id)
    requires d !in db.deliveries && d in Step(db, call).db.deliveries
    ensures Step(db, call).db.deliveries[d].numberOrder == |Step(db, call).db.deliveries[d].links|
  {
    if call.CallTripStatus? {
      var writes := TripStatusEffect(db, call.deliveryId, call.trip, call.caller, call.clock, call.now);
      assert false;
    } else if !TouchesTrips(call) {
      TripsUntouched(db, call);
      assert false;
    }
  }

  /** In every reachable state the count of a delivery is the number of its orders if and only if no
      update of the run has added orders to it, and it never is more. */
  lemma {:induction false} CountExactly(db: Db, calls: seq<Call>, d: Id)
    requires Initial(db)
    ensures var after := Run(db, calls);
            && (d in after.deliveries ==>
                  after.deliveries[d].numberOrder <= |after.deliveries[d].links| &&
                  (after.deliveries[d].numberOrder == |after.deliveries[d].links| <==> !Ever(db, calls, Adding(d))))
            && (d !in after.deliveries ==> !Ever(db, calls, Adding(d)))
  {
    if calls != [] {
      var front, last := calls[..|calls| - 1], calls[|calls| - 1];
      assert calls == front + [last];
      CountExactly(db, front, d);
      EverExtends(db, front, last, Adding(d));
      if d in Run(db, front).deliveries {
        StepCounts(Run(db, front), last, d);
      } else if d in Run(db, calls).deliveries {
        NewTripCounts(Run(db, front), last, d);
      }
    }
  }

  /** ... to a delivery that already has some. */
  ghost predicate AddsMore(db: Db, call: Call, d: Id) {
    Adds(db, call, d) && db.deliveries[d].links != []
  }

  ghost function AddingMore(d: Id): Event {
    (db: Db, call: Call) => AddsMore(db, call, d)
  }

  /** What one call does to the links of a delivery. */
  lemma StepLinks(db: Db, call: Call, d: Id)
    requires d in db.deliveries && d in Step(db, call).db.deliveries
    ensures Step(db, call).db.deliveries[d].links ==
            db.deliveries[d].links + if Adds(db, call, d) then Numbered(call.update.orderIds.value) else []
  {
    if !MayRelink(call, d) {
      LinksMove(db, call, d);
    }
  }

  lemma StepSequences(db: Db, call: Call, d: Id)
    requires d in db.deliveries && StartsWithOne(db.deliveries[d].links) && d in Step(db, call).db.deliveries
    ensures var links := Step(db, call).db.deliveries[d].links;
            && StartsWithOne(links)
            && (DistinctSequences(links) <==> DistinctSequences(db.deliveries[d].links) && !AddsMore(db, call, d))
  {
    StepLinks(db, call, d);
    if Adds(db, call, d) {
      AppendedSequences(db.deliveries[d].links, call.update.orderIds.value);
    } else {
      assert db.deliveries[d].links + [] == db.deliveries[d].links;
    }
  }

  /** A new delivery numbers its orders from 1. */
  lemma NewTripSequences(db: Db, call: Call, d: Id)
    requires d !in db.deliveries && d in Step(db, call).db.deliveries
    ensures var links := Step(db, call).db.deliveries[d].links; StartsWithOne(links) && DistinctSequences(links)
  {
    if call.CallTripStatus? {
      var writes := TripStatusEffect(db, call.deliveryId, call.trip, call.caller, call.clock, call.now);
      assert false;
    } else if !TouchesTrips(call) {
      TripsUntouched(db, call);
      assert false;
    }
  }

  /** In every reachable state the sequence numbers of a delivery are distinct if and only if no update
      of the run has added orders to it when it already had some. */
  lemma {:induction false} SequencesExactly(db: Db, calls: seq<Call>, d: Id)
    requires Initial(db)
    ensures var after := Run(db, calls);
            && (d in after.deliveries ==>
                  StartsWithOne(after.deliveries[d].links) &&
                  (DistinctSequences(after.deliveries[d].links) <==> !Ever(db, calls, AddingMore(d))))
            && (d !in after.deliveries ==> !Ever(db, calls, AddingMore(d)))
  {
    if calls != [] {
      var front, last := calls[..|calls| - 1], calls[|calls| - 1];
      assert calls == front + [last];
      SequencesExactly(db, front, d);
      EverExtends(db, front, last, AddingMore(d));
      if d in Run(db, front).deliveries {
        StepCounts(Run(db, front), last, d);
        if d in Run(db, calls).deliveries {
          StepSequences(Run(db, front), last, d);
        }
      } else if d in Run(db, calls).deliveries {
        NewTripSequences(Run(db, front), last, d);
      }
    }
  }
}
