/** Fan-outs: concurrent status transactions on the orders of one delivery commute. */
module FanOuts {
  import opened Model
  import opened OrderRules
  import opened OrderService
  import opened DeliveryService

  predicate DistinctTargets(writes: seq<Write>) {
    forall i, j :: 0 <= i < j < |writes| ==> writes[i].orderId != writes[j].orderId
  }

  ghost predicate IsTarget(writes: seq<Write>, id: Id) {
    exists k :: 0 <= k < |writes| && writes[k].orderId == id
  }

  /** What a fan-out with one write an order leaves of an order: a target has gained its row, and
      any other order is as before. */
  lemma {:induction false} FanOutAt(db: Db, writes: seq<Write>, id: Id)
    requires DistinctTargets(writes) && id in db.orders
    ensures id in FanOut(db, writes).orders
    ensures forall k :: 0 <= k < |writes| && writes[k].orderId == id ==>
              FanOut(db, writes).orders[id] == WithStatus(db.orders[id], writes[k].row, None, None)
    ensures !IsTarget(writes, id) ==> FanOut(db, writes).orders[id] == db.orders[id]
  {
    if writes != [] {
      var n := |writes| - 1;
      var front := writes[..n];
      FanOutAt(db, front, id);
      if writes[n].orderId == id {
        assert !IsTarget(front, id);
      } else {
        assert FanOut(db, writes).orders[id] == FanOut(db, front).orders[id];
        assert forall k :: 0 <= k < |writes| && writes[k].orderId == id ==> k < n && front[k] == writes[k];
      }
    }
  }

  /** Of an order, a fan-out writes nothing but the status and the history. */
  lemma {:induction false} FanOutOnlyStatus(db: Db, writes: seq<Write>, id: Id)
    requires id in db.orders
    ensures id in FanOut(db, writes).orders
    ensures var order := FanOut(db, writes).orders[id];
            order == db.orders[id].(latestStatus := order.latestStatus, history := order.history)
  {
    if writes != [] {
      FanOutOnlyStatus(db, writes[..|writes| - 1], id);
    }
  }

  /** Two interleavings of a fan-out: the same transactions, each order's exactly once. */
  ghost predicate Interleavings(writes: seq<Write>, writes': seq<Write>) {
    DistinctTargets(writes) && DistinctTargets(writes') && forall w :: w in writes <==> w in writes'
  }

  /** Whatever order the concurrent transactions commit in, the store ends up the same. */
  lemma FanOutConfluent(db: Db, writes: seq<Write>, writes': seq<Write>)
    requires Interleavings(writes, writes')
    ensures FanOut(db, writes) == FanOut(db, writes')
  {
    FanOutKeeps(db, writes);
    FanOutKeeps(db, writes');
    forall id | id in db.orders
      ensures FanOut(db, writes).orders[id] == FanOut(db, writes').orders[id]
    {
      FanOutAt(db, writes, id);
      FanOutAt(db, writes', id);
      if IsTarget(writes, id) {
        var k :| 0 <= k < |writes| && writes[k].orderId == id;
        assert writes[k] in writes';
        var k' :| 0 <= k' < |writes'| && writes'[k'] == writes[k];
      } else {
        assert forall k :: 0 <= k < |writes'| ==> writes'[k] in writes;
      }
    }
  }

  /** The transported links of a delivery are exactly those with an order in transport. */
  lemma {:induction false} InTransportLinksMembers(db: Db, links: seq<Link>, link: Link)
    ensures link in InTransportLinks(db, links) <==> link in links && HasStatus(db, link, InTransport)
  {
    if links != [] {
      var front, last := links[..|links| - 1], links[|links| - 1];
      InTransportLinksMembers(db, front, link);
      assert link in links <==> link in front || link == last by {
        assert links == front + [last];
      }
    }
  }

  lemma {:induction false} InTransportLinksDistinct(db: Db, links: seq<Link>)
    requires DistinctOrders(links)
    ensures DistinctOrders(InTransportLinks(db, links))
  {
    if links != [] {
      var front, last := links[..|links| - 1], links[|links| - 1];
      InTransportLinksDistinct(db, front);
      var moving := InTransportLinks(db, front);
      forall k | 0 <= k < |moving| ensures moving[k].orderId != last.orderId {
        assert moving[k] in moving;
        InTransportLinksMembers(db, front, moving[k]);
        var i :| 0 <= i < |front| && front[i] == moving[k];
        assert links[i] == moving[k];
      }
    }
  }

  ghost predicate IsMember(links: seq<Link>, id: Id) {
    exists k :: 0 <= k < |links| && links[k].orderId == id
  }

  /** The orders a cancel of a delivery cascades to. */
  ghost predicate CascadesTo(db: Db, links: seq<Link>, id: Id) {
    id in db.orders && IsMember(links, id) && db.orders[id].latestStatus == InTransport
  }

  /** The cascade writes to an order exactly if it is a member in transport. */
  lemma CancelTargets(db: Db, links: seq<Link>, dto: UpdateTripDto, clock: Id -> nat, id: Id)
    requires DistinctOrders(links)
    ensures DistinctTargets(CancelWrites(InTransportLinks(db, links), dto, clock))
    ensures IsTarget(CancelWrites(InTransportLinks(db, links), dto, clock), id) <==> CascadesTo(db, links, id)
  {
    InTransportLinksDistinct(db, links);
    var moving := InTransportLinks(db, links);
    var writes := CancelWrites(moving, dto, clock);
    if CascadesTo(db, links, id) {
      var k :| 0 <= k < |links| && links[k].orderId == id;
      InTransportLinksMembers(db, links, links[k]);
      var m :| 0 <= m < |moving| && moving[m] == links[k];
      assert writes[m].orderId == id;
    }
    if IsTarget(writes, id) {
      var m :| 0 <= m < |writes| && writes[m].orderId == id;
      assert moving[m] in moving;
      InTransportLinksMembers(db, links, moving[m]);
    }
  }

  /** The cascade of a cancel, seen from any order. */
  lemma CancelAt(db: Db, links: seq<Link>, dto: UpdateTripDto, clock: Id -> nat, id: Id)
    requires DistinctOrders(links) && id in db.orders
    ensures var after := FanOut(db, CancelWrites(InTransportLinks(db, links), dto, clock)).orders;
            id in after &&
            after[id] ==
            if CascadesTo(db, links, id) then WithStatus(db.orders[id], CancelRow(dto, clock(id)), None, None)
            else db.orders[id]
  {
    var writes := CancelWrites(InTransportLinks(db, links), dto, clock);
    CancelTargets(db, links, dto, clock, id);
    FanOutAt(db, writes, id);
    if CascadesTo(db, links, id) {
      var k :| 0 <= k < |writes| && writes[k].orderId == id;
      assert writes[k].row == CancelRow(dto, clock(id));
    }
  }

  lemma TransportTargets(links: seq<Link>, clock: Id -> nat, id: Id)
    requires DistinctOrders(links)
    ensures DistinctTargets(TransportWrites(links, clock))
    ensures IsTarget(TransportWrites(links, clock), id) <==> IsMember(links, id)
  {
    var writes := TransportWrites(links, clock);
    if IsMember(links, id) {
      var k :| 0 <= k < |links| && links[k].orderId == id;
      assert writes[k].orderId == id;
    }
    if IsTarget(writes, id) {
      var k :| 0 <= k < |writes| && writes[k].orderId == id;
      assert links[k].orderId == id;
    }
  }

  /** The fan-out of an accept, seen from any order. */
  lemma TransportAt(db: Db, links: seq<Link>, clock: Id -> nat, id: Id)
    requires DistinctOrders(links) && id in db.orders
    ensures var after := FanOut(db, TransportWrites(links, clock)).orders;
            id in after &&
            after[id] ==
            if IsMember(links, id) then WithStatus(db.orders[id], PlainRow(InTransport, clock(id)), None, None)
            else db.orders[id]
  {
    var writes := TransportWrites(links, clock);
    TransportTargets(links, clock, id);
    FanOutAt(db, writes, id);
    if IsMember(links, id) {
      var k :| 0 <= k < |writes| && writes[k].orderId == id;
      assert writes[k].row == PlainRow(InTransport, clock(id));
    }
  }

  lemma {:induction false} DistinctOnce(writes: seq<Write>, w: Write)
    requires DistinctTargets(writes)
    ensures multiset(writes)[w] <= 1
  {
    if writes != [] {
      var front, last := writes[..|writes| - 1], writes[|writes| - 1];
      assert writes == front + [last];
      DistinctOnce(front, w);
      assert w == last ==> w !in front;
    }
  }

  lemma TwiceCounted(writes: seq<Write>, i: nat, j: nat)
    requires i < j < |writes| && writes[i] == writes[j]
    ensures multiset(writes)[writes[i]] >= 2
  {
    assert writes == writes[..j] + [writes[j]] + writes[j + 1..];
    assert writes[i] == writes[..j][i];
  }

  /** However the transactions of a fan-out are permuted, they are an interleaving of it. */
  lemma PermutationInterleaves(writes: seq<Write>, writes': seq<Write>)
    requires DistinctTargets(writes) && multiset(writes') == multiset(writes)
    ensures Interleavings(writes, writes')
  {
    assert forall w :: w in writes' <==> w in multiset(writes');
    assert forall w :: w in writes <==> w in multiset(writes);
    forall i, j | 0 <= i < j < |writes'| ensures writes'[i].orderId != writes'[j].orderId {
      if writes'[i].orderId == writes'[j].orderId {
        assert writes'[i] in writes && writes'[j] in writes;
        TwiceCounted(writes', i, j);
        DistinctOnce(writes, writes'[i]);
        assert false;
      }
    }
  }

  /** So for a delivery without repeated orders, the transactions of an accept leave the same store
      in every order they may commit in, ... */
  lemma AcceptConfluent(db: Db, links: seq<Link>, clock: Id -> nat, committed: seq<Write>)
    requires DistinctOrders(links) && multiset(committed) == multiset(TransportWrites(links, clock))
    ensures FanOut(db, committed) == FanOut(db, TransportWrites(links, clock))
  {
    TransportTargets(links, clock, 0);
    PermutationInterleaves(TransportWrites(links, clock), committed);
    FanOutConfluent(db, TransportWrites(links, clock), committed);
  }

  /** ... and so do those of a cancel. */
  lemma CancelConfluent(db: Db, links: seq<Link>, dto: UpdateTripDto, clock: Id -> nat, committed: seq<Write>)
    requires DistinctOrders(links)
    requires multiset(committed) == multiset(CancelWrites(InTransportLinks(db, links), dto, clock))
    ensures FanOut(db, committed) == FanOut(db, CancelWrites(InTransportLinks(db, links), dto, clock))
  {
    CancelTargets(db, links, dto, clock, 0);
    PermutationInterleaves(CancelWrites(InTransportLinks(db, links), dto, clock), committed);
    FanOutConfluent(db, CancelWrites(InTransportLinks(db, links), dto, clock), committed);
  }

  /** A successful cancel of a delivery, seen from any order: exactly the delivery's orders in
      transport gain one CANCELED row with the staff reason, so none of its orders remains in
      transport, and any other order is unchanged. Nothing else changes but the delivery. */
  lemma CancelCascade(db: Db, id: Id, dto: UpdateTripDto, caller: Caller, clock: Id -> nat, now: nat, o: Id)
    requires dto.status == TripCanceled
    requires id in db.deliveries && DistinctOrders(db.deliveries[id].links)
    requires UpdateDeliveryStatus(db, id, dto, caller, clock, now).verdict == Done
    requires o in db.orders
    ensures var links, after := db.deliveries[id].links, UpdateDeliveryStatus(db, id, dto, caller, clock, now).db;
            && after.orders.Keys == db.orders.Keys
            && (CascadesTo(db, links, o) ==>
                  after.orders[o] == db.orders[o].(
                    latestStatus := Canceled,
                    history := db.orders[o].history +
                      [HistoryRow(Canceled, Decimal.ToText(clock(o)), Some(STAFF_REASON + dto.reason.value),
                                  dto.canceledImage)]))
            && (!CascadesTo(db, links, o) ==> after.orders[o] == db.orders[o])
            && (IsMember(links, o) ==> after.orders[o].latestStatus != InTransport)
            && id in after.deliveries && after.deliveries[id].latestStatus == TripCanceled
            && after == db.(orders := after.orders, deliveries := db.deliveries[id := after.deliveries[id]])
  {
    var links := db.deliveries[id].links;
    var writes := CancelWrites(InTransportLinks(db, links), dto, clock);
    FanOutKeeps(db, writes);
    CancelAt(db, links, dto, clock, o);
  }

  /** A successful accept of a delivery, seen from any order: exactly the delivery's orders gain
      one IN_TRANSPORT row, whatever their status was, and any other order is unchanged. */
  lemma AcceptCascade(db: Db, id: Id, dto: UpdateTripDto, caller: Caller, clock: Id -> nat, now: nat, o: Id)
    requires dto.status == TripAccepted
    requires id in db.deliveries && DistinctOrders(db.deliveries[id].links)
    requires UpdateDeliveryStatus(db, id, dto, caller, clock, now).verdict == Done
    requires o in db.orders
    ensures var links, after := db.deliveries[id].links, UpdateDeliveryStatus(db, id, dto, caller, clock, now).db;
            && after.orders.Keys == db.orders.Keys
            && (IsMember(links, o) ==>
                  after.orders[o] == db.orders[o].(
                    latestStatus := InTransport,
                    history := db.orders[o].history + [PlainRow(InTransport, clock(o))]))
            && (!IsMember(links, o) ==> after.orders[o] == db.orders[o])
            && id in after.deliveries && after.deliveries[id].latestStatus == TripAccepted
            && after == db.(orders := after.orders, deliveries := db.deliveries[id := after.deliveries[id]])
  {
    var links := db.deliveries[id].links;
    var writes := TransportWrites(links, clock);
    FanOutKeeps(db, writes);
    TransportAt(db, links, clock, o);
  }
}
