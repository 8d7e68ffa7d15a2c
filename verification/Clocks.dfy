/** Which history row a query for the latest one returns, when times are texts with a resolution
    of one second. */
module Clocks {
  import opened Model
  import opened Decimal
  import opened OrderService
  import opened DeliveryService
  import opened Effects
  import opened Integrity
  import opened Histories
  import opened Grammar
  import opened Pagination
  import opened Runs

  /** A row that `orderBy: { time: 'desc' }` may put first. */
  ghost predicate IsLatest<S>(h: seq<HistoryRow<S>>, pick: nat) {
    pick < |h| && forall j :: 0 <= j < |h| ==> TextLeq(h[j].time, h[pick].time)
  }

  /** The numbers behind the time texts of a history never go back, have ten digits, and are at
      most `to`. */
  ghost predicate IsClock<S>(h: seq<HistoryRow<S>>, seconds: seq<nat>, to: nat) {
    && |seconds| == |h|
    && (forall i :: 0 <= i < |h| ==> h[i].time == ToText(seconds[i]) && TenDigits(seconds[i]) && seconds[i] <= to)
    && (forall i, j :: 0 <= i < j < |h| ==> seconds[i] <= seconds[j])
  }

  ghost predicate Clocked<S>(h: seq<HistoryRow<S>>, to: nat) {
    exists seconds :: IsClock(h, seconds, to)
  }

  lemma ClockedExtends<S>(h: seq<HistoryRow<S>>, from: nat, row: HistoryRow<S>, second: nat, to: nat)
    requires Clocked(h, from) && from <= second <= to && TenDigits(second)
    requires row.time == ToText(second)
    ensures Clocked(h + [row], to)
  {
    var seconds :| IsClock(h, seconds, from);
    assert IsClock(h + [row], seconds + [second], to);
  }

  lemma ClockedLater<S>(h: seq<HistoryRow<S>>, from: nat, to: nat)
    requires Clocked(h, from) && from <= to
    ensures Clocked(h, to)
  {
    var seconds :| IsClock(h, seconds, from);
    assert IsClock(h, seconds, to);
  }

  ghost predicate ApartAt<S>(h: seq<HistoryRow<S>>, i: nat)
    requires i < |h| - 1
  {
    h[i].status != h[i + 1].status ==> h[i].time != h[i + 1].time
  }

  /** Rows of different statuses next to each other were written in different seconds. */
  ghost predicate SecondsApart<S>(h: seq<HistoryRow<S>>) {
    forall i: nat :: i < |h| - 1 ==> ApartAt(h, i)
  }

  /** Every row that ties with the last one has its status. */
  ghost predicate TiesAgree<S>(h: seq<HistoryRow<S>>) {
    forall i :: 0 <= i < |h| && h[i].time == h[|h| - 1].time ==> h[i].status == h[|h| - 1].status
  }

  /** A row the query may return is one that ties with the last written row. */
  lemma LatestTies<S>(h: seq<HistoryRow<S>>, to: nat, pick: nat)
    requires Clocked(h, to) && pick < |h|
    ensures IsLatest(h, pick) <==> h[pick].time == h[|h| - 1].time
  {
    var seconds :| IsClock(h, seconds, to);
    var last := |h| - 1;
    forall j | 0 <= j < |h|
      ensures TextLeq(h[j].time, h[pick].time) <==> seconds[j] <= seconds[pick]
      ensures h[j].time == h[pick].time <==> seconds[j] == seconds[pick]
    {
      ClockOrder(seconds[j], seconds[pick]);
    }
    assert TextLeq(h[last].time, h[pick].time) <==> seconds[last] <= seconds[pick];
  }

  /** The recomputed status is the last written one for every row the query may return, exactly if
      the ties with the last row agree. */
  lemma LatestStatusExactly<S>(h: seq<HistoryRow<S>>, to: nat)
    requires h != [] && Clocked(h, to)
    ensures TiesAgree(h) <==> forall pick: nat :: IsLatest(h, pick) ==> h[pick].status == h[|h| - 1].status
  {
    forall pick: nat | pick < |h| ensures IsLatest(h, pick) <==> h[pick].time == h[|h| - 1].time {
      LatestTies(h, to, pick);
    }
  }

  /** A row that ties with the last one ties with all in between. */
  lemma NextTies<S>(h: seq<HistoryRow<S>>, seconds: seq<nat>, to: nat, i: nat)
    requires IsClock(h, seconds, to) && i < |h| - 1 && h[i].time == h[|h| - 1].time
    ensures h[i + 1].time == h[|h| - 1].time
  {
    ClockOrder(seconds[i], seconds[|h| - 1]);
    ClockOrder(seconds[i + 1], seconds[|h| - 1]);
  }

  lemma {:induction false} ApartTiesAgree<S>(h: seq<HistoryRow<S>>, seconds: seq<nat>, to: nat, i: nat)
    requires IsClock(h, seconds, to) && SecondsApart(h)
    requires i < |h| && h[i].time == h[|h| - 1].time
    ensures h[i].status == h[|h| - 1].status
    decreases |h| - i
  {
    if i < |h| - 1 {
      NextTies(h, seconds, to, i);
      assert ApartAt(h, i);
      ApartTiesAgree(h, seconds, to, i + 1);
    }
  }

  lemma ApartAgrees<S>(h: seq<HistoryRow<S>>, to: nat, pick: nat)
    requires Clocked(h, to) && SecondsApart(h) && IsLatest(h, pick)
    ensures h[pick].status == h[|h| - 1].status
  {
    LatestTies(h, to, pick);
    var seconds :| IsClock(h, seconds, to);
    ApartTiesAgree(h, seconds, to, pick);
  }

  /** A delivery's status column is its last row's status. */
  ghost predicate GoodTrip(trip: Delivery) {
    trip.history != [] && trip.latestStatus == trip.history[|trip.history| - 1].status
  }

  ghost predicate AllTrips(db: Db) {
    forall d :: d in db.deliveries ==> GoodTrip(db.deliveries[d])
  }

  /** A step leaves the history of a delivery alone, or appends the row of an updateDeliveryStatus
      call, or starts it with PENDING. */
  ghost predicate TripMoves(db: Db, call: Call, d: Id, trip: Delivery) {
    || (d in db.deliveries && trip.history == db.deliveries[d].history &&
        trip.latestStatus == db.deliveries[d].latestStatus)
    || (d in db.deliveries && call.CallTripStatus? && |trip.history| == |db.deliveries[d].history| + 1 &&
        trip.history[..|db.deliveries[d].history|] == db.deliveries[d].history &&
        trip.history[|db.deliveries[d].history|].time == ToText(call.now) &&
        trip.history[|db.deliveries[d].history|].status == trip.latestStatus)
    || (d !in db.deliveries && call.CallCreateDelivery? && trip.latestStatus == TripPending &&
        trip.history == [HistoryRow(TripPending, ToText(call.now), None, None)])
  }

  lemma TripStatusTripMove(db: Db, call: Call, d: Id)
    requires call.CallTripStatus? && d in Step(db, call).db.deliveries
    ensures TripMoves(db, call, d, Step(db, call).db.deliveries[d])
  {
    var writes := TripStatusEffect(db, call.deliveryId, call.trip, call.caller, call.clock, call.now);
  }

  lemma TripMove(db: Db, call: Call, d: Id)
    requires d in Step(db, call).db.deliveries
    ensures TripMoves(db, call, d, Step(db, call).db.deliveries[d])
  {
    if call.CallTripStatus? {
      TripStatusTripMove(db, call, d);
    } else if !TouchesTrips(call) {
      TripsUntouched(db, call);
    }
  }

  lemma TripMoveKeepsGood(db: Db, call: Call, d: Id)
    requires AllTrips(db) && d in Step(db, call).db.deliveries
    ensures GoodTrip(Step(db, call).db.deliveries[d])
  {
    TripMove(db, call, d);
  }

  /** The status column of a delivery is the status of its last row, in every reachable state. */
  lemma {:induction false} TripStatusIsLastRow(db: Db, calls: seq<Call>)
    requires Initial(db)
    ensures AllTrips(Run(db, calls))
  {
    if calls != [] {
      var before := Run(db, calls[..|calls| - 1]);
      TripStatusIsLastRow(db, calls[..|calls| - 1]);
      forall d | d in Run(db, calls).deliveries ensures GoodTrip(Run(db, calls).deliveries[d]) {
        TripMoveKeepsGood(before, calls[|calls| - 1], d);
      }
    }
  }

  ghost predicate AllClocked(db: Db, to: nat) {
    && (forall o :: o in db.orders ==> Clocked(db.orders[o].history, to))
    && (forall d :: d in db.deliveries ==> Clocked(db.deliveries[d].history, to))
  }

  lemma SingleClocked<S>(row: HistoryRow<S>, second: nat, to: nat)
    requires row.time == ToText(second) && TenDigits(second) && second <= to
    ensures Clocked([row], to)
  {
    assert IsClock([row], [second], to);
  }

  lemma MoveKeepsClocked(order: Order, order': Order, move: Move, from: nat, to: nat)
    requires Clocked(order.history, from) && from <= to && TenDigits(from) && TenDigits(to)
    requires Moves(order, order', move) && Within(move, from, to)
    ensures Clocked(order'.history, to)
  {
    match move
    case Stay => ClockedLater(order.history, from, to);
    case ByTable(row, second, _, _) => ClockedExtends(order.history, from, row, second, to);
    case Matched(now, delay) =>
      ClockedExtends(order.history, from, PlainRow(Accepted, now), now, now + delay);
      ClockedExtends(order.history + [PlainRow(Accepted, now)], now + delay, PlainRow(Accepted, now + delay),
                     now + delay, to);
    case Forced(second) => ClockedExtends(order.history, from, PlainRow(InTransport, second), second, to);
  }

  lemma StepKeepsClocked(db: Db, call: Call, from: nat, to: nat)
    requires Intact(db) && AllClocked(db, from)
    requires Window(call, from, to) && from <= to && TenDigits(from) && TenDigits(to)
    ensures AllClocked(Step(db, call).db, to)
  {
    var after := Step(db, call).db;
    forall o | o in after.orders ensures Clocked(after.orders[o].history, to) {
      if o in db.orders {
        var move := OrderMove(db, call, o);
        MoveKeepsClocked(db.orders[o], after.orders[o], move, from, to);
      } else {
        OrderBirth(db, call, o);
        SingleClocked(PlainRow(Pending, call.now), call.now, to);
      }
    }
    forall d | d in after.deliveries ensures Clocked(after.deliveries[d].history, to) {
      TripStepKeepsClocked(db, call, d, from, to);
    }
  }

  lemma TripStepKeepsClocked(db: Db, call: Call, d: Id, from: nat, to: nat)
    requires AllClocked(db, from) && d in Step(db, call).db.deliveries
    requires Window(call, from, to) && from <= to && TenDigits(from) && TenDigits(to)
    ensures Clocked(Step(db, call).db.deliveries[d].history, to)
  {
    TripMove(db, call, d);
    var trip := Step(db, call).db.deliveries[d];
    if d in db.deliveries {
      TripRowKeepsClocked(db.deliveries[d], trip, if call.CallTripStatus? then call.now else from, from, to);
    } else {
      SingleClocked(trip.history[0], call.now, to);
    }
  }

  lemma TripRowKeepsClocked(trip: Delivery, trip': Delivery, now: nat, from: nat, to: nat)
    requires Clocked(trip.history, from)
    requires from <= to && TenDigits(from) && TenDigits(to)
    requires
      || trip'.history == trip.history
      || (|trip'.history| == |trip.history| + 1 && trip'.history[..|trip.history|] == trip.history &&
          trip'.history[|trip.history|].time == ToText(now) && from <= now <= to)
    ensures Clocked(trip'.history, to)
  {
    if trip'.history == trip.history {
      ClockedLater(trip.history, from, to);
    } else {
      var row := trip'.history[|trip.history|];
      assert trip'.history == trip.history + [row];
      ClockedExtends(trip.history, from, row, now, to);
    }
  }

  /** A run under a clock: each call's readings lie between two bounds, and the bounds never go
      back. Two calls may still happen in one second. */
  ghost predicate ClockedRun(calls: seq<Call>, bounds: seq<nat>) {
    && |bounds| == |calls| + 1
    && (forall k :: 0 <= k < |bounds| ==> TenDigits(bounds[k]))
    && (forall k :: 0 <= k < |calls| ==> bounds[k] <= bounds[k + 1] && Window(calls[k], bounds[k], bounds[k + 1]))
  }

  lemma {:induction false} RunKeepsClocked(db: Db, calls: seq<Call>, bounds: seq<nat>)
    requires Initial(db) && ClockedRun(calls, bounds)
    ensures AllClocked(Run(db, calls), bounds[|calls|])
  {
    if calls != [] {
      var n := |calls| - 1;
      RunKeepsClocked(db, calls[..n], bounds[..n + 1]);
      InitialIsIntact(db);
      RunKeepsIntact(db, calls[..n]);
      StepKeepsClocked(Run(db, calls[..n]), calls[n], bounds[n], bounds[n + 1]);
    }
  }

  /** In every reachable state under a clock, if writes of different statuses to an order fell in
      different seconds, the status recomputed from the history is the status column that the
      page was filtered by, whichever of the tied rows the query returns. */
  lemma RecomputedStatusAgrees(db: Db, calls: seq<Call>, bounds: seq<nat>, id: Id, pick: nat)
    requires Initial(db) && ClockedRun(calls, bounds) && id in Run(db, calls).orders
    requires SecondsApart(Run(db, calls).orders[id].history)
    requires IsLatest(Run(db, calls).orders[id].history, pick)
    ensures Run(db, calls).orders[id].history[pick].status == Run(db, calls).orders[id].latestStatus
  {
    var after := Run(db, calls);
    RunKeepsClocked(db, calls, bounds);
    LatestStatusIsLastRow(db, calls, id);
    ApartAgrees(after.orders[id].history, bounds[|calls|], pick);
  }

  /** So a page filtered by a status shows that status on every order. */
  lemma FilteredPageShowsStatus(db: Db, calls: seq<Call>, bounds: seq<nat>, id: Id, pick: nat, query: OrderQuery,
                                caller: Caller, finds: Finder)
    requires Initial(db) && ClockedRun(calls, bounds) && id in Run(db, calls).orders
    requires SecondsApart(Run(db, calls).orders[id].history)
    requires IsLatest(Run(db, calls).orders[id].history, pick)
    requires query.status.Some? && Where(Run(db, calls).orders[id], query, caller, finds)
    ensures Reported(Run(db, calls).orders[id], pick).latestStatus == query.status.value
  {
    RecomputedStatusAgrees(db, calls, bounds, id, pick);
  }

  lemma TripGuards(db: Db, d: Id, pick: nat, dto: UpdateDeliveryDto)
    requires d in db.deliveries && pick < |db.deliveries[d].history|
    requires db.deliveries[d].history[pick].status == db.deliveries[d].latestStatus
    ensures UpdateDelivery(db, d, dto).verdict == Refused(DeliveryNotPending) <==>
            DeleteDelivery(db, d, pick).verdict == Refused(DeliveryNotPending)
  {
  }

  lemma TripPickAgrees(db: Db, calls: seq<Call>, bounds: seq<nat>, d: Id, pick: nat)
    requires Initial(db) && ClockedRun(calls, bounds) && d in Run(db, calls).deliveries
    requires SecondsApart(Run(db, calls).deliveries[d].history)
    requires IsLatest(Run(db, calls).deliveries[d].history, pick)
    ensures Run(db, calls).deliveries[d].history[pick].status == Run(db, calls).deliveries[d].latestStatus
  {
    var after := Run(db, calls);
    RunKeepsClocked(db, calls, bounds);
    TripStatusIsLastRow(db, calls);
    assert GoodTrip(after.deliveries[d]);
    ApartAgrees(after.deliveries[d].history, bounds[|calls|], pick);
  }

  /** Under the same condition, updateDelivery (which reads the column) and deleteDelivery (which
      reads the history) consider the same deliveries pending. */
  lemma PendingGuardsAgree(db: Db, calls: seq<Call>, bounds: seq<nat>, d: Id, pick: nat, dto: UpdateDeliveryDto)
    requires Initial(db) && ClockedRun(calls, bounds) && d in Run(db, calls).deliveries
    requires SecondsApart(Run(db, calls).deliveries[d].history)
    requires IsLatest(Run(db, calls).deliveries[d].history, pick)
    ensures UpdateDelivery(Run(db, calls), d, dto).verdict == Refused(DeliveryNotPending) <==>
            DeleteDelivery(Run(db, calls), d, pick).verdict == Refused(DeliveryNotPending)
  {
    TripPickAgrees(db, calls, bounds, d, pick);
    TripGuards(Run(db, calls), d, pick, dto);
  }

  /** Within one second the two may differ: an order created and rejected in the same second may
      be reported as still pending. */
  lemma SameSecondTie(db: Db, id: Id, now: nat)
    requires id in db.orders && TenDigits(now)
    requires db.orders[id].history == [PlainRow(Pending, now)] && db.orders[id].latestStatus == Pending
    ensures var after := UpdateStatus(db, id, UpdateStatusDto(Rejected, None, None, None, None, None), Admin, now).db;
            && id in after.orders
            && IsLatest(after.orders[id].history, 0)
            && after.orders[id].history[0].status == Pending
            && after.orders[id].latestStatus == Rejected
  {
    var dto := UpdateStatusDto(Rejected, None, None, None, None, None);
    UpdateStatusEffect(db, id, dto, Admin, now);
    TextLeqReflexive(ToText(now));
  }
}
