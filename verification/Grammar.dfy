/** The language of order histories, the denormalised status, and the evidence an order carries. */
module Grammar {
  import opened Model
  import opened OrderRules
  import opened OrderService
  import opened FanOuts
  import opened Effects
  import opened Integrity
  import opened Histories
  import opened Runs

  type History = seq<StatusRow>

  /** The second ACCEPTED row of a two-party match, right after PENDING and ACCEPTED. */
  ghost predicate RepeatedAccept(h: History, i: int) {
    2 <= i < |h| && h[i - 2].status == Pending && h[i - 1].status == Accepted && h[i].status == Accepted
  }

  /** A row the order service alone may write after the one before it. */
  ghost predicate Regular(h: History, i: int) {
    1 <= i < |h| && (IsValidTransition(h[i - 1].status, h[i].status) || RepeatedAccept(h, i))
  }

  /** A history that follows the transition table, but for the repeated ACCEPTED of a match. */
  ghost predicate Strict(h: History) {
    forall i :: 1 <= i < |h| ==> Regular(h, i)
  }

  /** Accepting a delivery may write IN_TRANSPORT after any row. */
  ghost predicate Allowed(h: History, i: int) {
    Regular(h, i) || (1 <= i < |h| && h[i].status == InTransport)
  }

  ghost predicate Mixed(h: History) {
    forall i :: 1 <= i < |h| ==> Allowed(h, i)
  }

  ghost predicate Mentions(h: History, status: OrderStatus) {
    exists i :: 0 <= i < |h| && h[i].status == status
  }

  /** An order in good order: a history that starts with PENDING and follows the mixed grammar, a
      status column equal to the last row, and the evidence its statuses call for. */
  ghost predicate GoodTrail(order: Order) {
    && order.history != [] && order.history[0].status == Pending
    && order.latestStatus == order.history[|order.history| - 1].status
    && Mixed(order.history)
    && (order.latestStatus == Delivered ==> Given(order.finishedImage))
    && (Mentions(order.history, ReceivedExternal) ==> order.receivedImage.Some?)
    && (forall i :: 0 <= i < |order.history| ==> Documented(order.history[i]))
  }

  lemma RegularExtends(h: History, row: StatusRow, i: int)
    ensures 1 <= i < |h| ==> (Regular(h + [row], i) <==> Regular(h, i))
  {
  }

  lemma MixedExtends(h: History, row: StatusRow)
    requires h != [] && Mixed(h)
    requires IsValidTransition(h[|h| - 1].status, row.status) || row.status == InTransport ||
             RepeatedAccept(h + [row], |h|)
    ensures Mixed(h + [row])
  {
    var h' := h + [row];
    forall i | 1 <= i < |h'| ensures Allowed(h', i) {
      RegularExtends(h, row, i);
      assert i < |h| ==> Allowed(h, i);
    }
  }

  lemma StrictExtends(h: History, row: StatusRow)
    requires h != [] && Strict(h)
    requires IsValidTransition(h[|h| - 1].status, row.status) || RepeatedAccept(h + [row], |h|)
    ensures Strict(h + [row])
  {
    var h' := h + [row];
    forall i | 1 <= i < |h'| ensures Regular(h', i) {
      RegularExtends(h, row, i);
    }
  }

  lemma MentionsExtends(h: History, row: StatusRow, status: OrderStatus)
    ensures Mentions(h + [row], status) <==> Mentions(h, status) || row.status == status
  {
    var h' := h + [row];
    if Mentions(h, status) {
      var i :| 0 <= i < |h| && h[i].status == status;
      assert h'[i].status == status;
    }
    if row.status == status {
      assert h'[|h|].status == status;
    }
    if Mentions(h', status) {
      var i :| 0 <= i < |h'| && h'[i].status == status;
      assert i < |h| ==> h[i].status == status;
    }
  }

  /** One row, regular or IN_TRANSPORT, with the evidence it calls for. */
  lemma RowKeepsGood(order: Order, row: StatusRow, finishedImage: Option<string>, receivedImage: Option<string>)
    requires GoodTrail(order)
    requires IsValidTransition(order.latestStatus, row.status) || row.status == InTransport ||
             RepeatedAccept(order.history + [row], |order.history|)
    requires Documented(row)
    requires row.status == Delivered ==> Given(finishedImage)
    requires row.status == ReceivedExternal ==> Given(receivedImage)
    ensures GoodTrail(WithStatus(order, row, finishedImage, receivedImage))
  {
    MixedExtends(order.history, row);
    MentionsExtends(order.history, row, ReceivedExternal);
  }

  lemma MatchRepeats(h: History, first: StatusRow, second: StatusRow)
    requires h != [] && h[|h| - 1].status == Pending && first.status == second.status == Accepted
    ensures RepeatedAccept(h + [first] + [second], |h| + 1)
  {
  }

  lemma MatchKeepsStrict(h: History, first: StatusRow, second: StatusRow)
    requires h != [] && h[|h| - 1].status == Pending && first.status == second.status == Accepted
    requires Strict(h)
    ensures Strict(h + [first] + [second])
  {
    StrictExtends(h, first);
    MatchRepeats(h, first, second);
    StrictExtends(h + [first], second);
  }

  lemma MatchKeepsGood(order: Order, first: StatusRow, second: StatusRow)
    requires GoodTrail(order) && order.latestStatus == Pending
    requires first.status == second.status == Accepted
    ensures GoodTrail(WithStatus(WithStatus(order, first, None, None), second, None, None))
  {
    RowKeepsGood(order, first, None, None);
    var once := WithStatus(order, first, None, None);
    assert RepeatedAccept(once.history + [second], |once.history|) by {
      MatchRepeats(order.history, first, second);
    }
    RowKeepsGood(once, second, None, None);
  }

  lemma SameTrailSameGood(order: Order, order': Order)
    requires SameTrail(order, order')
    ensures GoodTrail(order) <==> GoodTrail(order')
  {
  }

  /** No move spoils a good trail, and only a forced one leaves the strict grammar. */
  lemma MoveKeepsGood(order: Order, order': Order, move: Move)
    requires GoodTrail(order) && Moves(order, order', move)
    ensures GoodTrail(order')
    ensures Strict(order.history) && !move.Forced? ==> Strict(order'.history)
  {
    match move
    case Stay => SameTrailSameGood(order, order');
    case ByTable(row, second, finishedImage, receivedImage) =>
      RowKeepsGood(order, row, finishedImage, receivedImage);
      SameTrailSameGood(WithStatus(order, row, finishedImage, receivedImage), order');
      if Strict(order.history) {
        StrictExtends(order.history, row);
      }
    case Matched(now, delay) =>
      MatchKeepsGood(order, PlainRow(Accepted, now), PlainRow(Accepted, now + delay));
      if Strict(order.history) {
        MatchKeepsStrict(order.history, PlainRow(Accepted, now), PlainRow(Accepted, now + delay));
      }
      SameTrailSameGood(Twice(order, now, delay), order');
    case Forced(second) =>
      RowKeepsGood(order, PlainRow(InTransport, second), None, None);
      SameTrailSameGood(WithStatus(order, PlainRow(InTransport, second), None, None), order');
  }

  lemma StrictPrefix(h: History, n: nat)
    requires n <= |h| && Strict(h)
    ensures Strict(h[..n])
  {
    forall i | 1 <= i < n ensures Regular(h[..n], i) {
      assert Regular(h, i);
    }
  }

  /** A forced row leaves the strict grammar, and no move returns to it. */
  lemma MoveKeepsBroken(order: Order, order': Order, move: Move)
    requires GoodTrail(order) && Moves(order, order', move)
    requires !Strict(order.history) || move.Forced?
    ensures !Strict(order'.history)
  {
    var n := |order.history|;
    assert order'.history[..n] == order.history;
    if move.Forced? {
      assert !Regular(order'.history, n);
    } else if Strict(order'.history) {
      StrictPrefix(order'.history, n);
      assert false;
    }
  }

  ghost predicate AllGood(db: Db) {
    forall id :: id in db.orders ==> GoodTrail(db.orders[id])
  }

  lemma StepKeepsGood(db: Db, call: Call)
    requires Intact(db) && AllGood(db)
    ensures AllGood(Step(db, call).db)
  {
    var after := Step(db, call).db;
    forall id | id in after.orders ensures GoodTrail(after.orders[id]) {
      if id in db.orders {
        var move := OrderMove(db, call, id);
        MoveKeepsGood(db.orders[id], after.orders[id], move);
      } else {
        OrderBirth(db, call, id);
      }
    }
  }

  /** In every reachable state of the whole system, whatever mixture of calls led there, every
      order has a good trail. */
  lemma {:induction false} RunsKeepGood(db: Db, calls: seq<Call>)
    requires Initial(db)
    ensures Intact(Run(db, calls)) && AllGood(Run(db, calls))
  {
    InitialIsIntact(db);
    RunKeepsIntact(db, calls);
    if calls != [] {
      var front := calls[..|calls| - 1];
      RunsKeepGood(db, front);
      RunKeepsIntact(db, front);
      StepKeepsGood(Run(db, front), calls[|calls| - 1]);
    }
  }

  ghost function Forcing(id: Id): Event {
    (db: Db, call: Call) => ForcesTransport(db, call, id)
  }

  /** Since the order was created, some call wrote IN_TRANSPORT to it in a status other than
      RECEIVED_EXTERNAL. */
  ghost predicate WasForced(db: Db, calls: seq<Call>, id: Id) {
    Since(db, calls, Forcing(id), Deletion(id))
  }

  lemma StepStrict(db: Db, call: Call, id: Id)
    requires Intact(db) && AllGood(db) && id in Step(db, call).db.orders
    ensures id in db.orders ==>
              (Strict(Step(db, call).db.orders[id].history) <==>
               Strict(db.orders[id].history) && !ForcesTransport(db, call, id))
    ensures id !in db.orders ==> Strict(Step(db, call).db.orders[id].history) && !ForcesTransport(db, call, id)
  {
    if id in db.orders {
      var order, order' := db.orders[id], Step(db, call).db.orders[id];
      var move := OrderMove(db, call, id);
      MoveKeepsGood(order, order', move);
      if !Strict(order.history) || move.Forced? {
        MoveKeepsBroken(order, order', move);
      }
    } else {
      OrderBirth(db, call, id);
    }
  }

  /** In every reachable state, the history of an order is strict if and only if no call has forced
      it since it was created. */
  lemma {:induction false} StrictExactly(db: Db, calls: seq<Call>, id: Id)
    requires Initial(db) && id in Run(db, calls).orders
    ensures Strict(Run(db, calls).orders[id].history) <==> !WasForced(db, calls, id)
  {
    var front, last := calls[..|calls| - 1], calls[|calls| - 1];
    assert calls == front + [last];
    SinceExtends(db, front, last, Forcing(id), Deletion(id));
    RunsKeepGood(db, front);
    StepStrict(Run(db, front), last, id);
    if id in Run(db, front).orders {
      StepKeepsOrder(Run(db, front), last, id);
      StrictExactly(db, front, id);
    } else {
      AbsentIsFresh(db, front, id, Forcing(id), Deletion(id));
    }
  }

  lemma UnforcedIsStrict(db: Db, calls: seq<Call>, id: Id)
    requires Initial(db) && id in Run(db, calls).orders && !WasForced(db, calls, id)
    ensures GoodTrail(Run(db, calls).orders[id]) && Strict(Run(db, calls).orders[id].history)
  {
    RunsKeepGood(db, calls);
    StrictExactly(db, calls, id);
  }

  /** The status column of an order is the status of its last row, in every reachable state. */
  lemma LatestStatusIsLastRow(db: Db, calls: seq<Call>, id: Id)
    requires Initial(db) && id in Run(db, calls).orders
    ensures var order := Run(db, calls).orders[id];
            order.history != [] && order.latestStatus == order.history[|order.history| - 1].status
  {
    RunsKeepGood(db, calls);
    assert GoodTrail(Run(db, calls).orders[id]);
  }

  /** With deliveries mixed in, two neighbouring rows are a table transition, the repeated ACCEPTED
      of a match, or end in IN_TRANSPORT; DELIVERED still directly follows IN_TRANSPORT. */
  lemma MixedGrammar(db: Db, calls: seq<Call>, id: Id, i: int)
    requires Initial(db) && id in Run(db, calls).orders
    requires 0 <= i < |Run(db, calls).orders[id].history|
    ensures var h := Run(db, calls).orders[id].history;
            && (i == 0 ==> h[i].status == Pending)
            && (i > 0 ==>
                  IsValidTransition(h[i - 1].status, h[i].status) || RepeatedAccept(h, i) ||
                  h[i].status == InTransport)
            && (h[i].status == Delivered ==> i > 0 && h[i - 1].status == InTransport)
  {
    RunsKeepGood(db, calls);
    var order := Run(db, calls).orders[id];
    assert GoodTrail(order);
    if i > 0 {
      assert Allowed(order.history, i);
    }
  }

  /** The statuses of the rows from `from` up to `to`. */
  function Statuses(h: History, from: nat, to: nat): seq<OrderStatus>
    requires from <= to <= |h|
  {
    seq(to - from, i requires 0 <= i < to - from => h[from + i].status)
  }

  /** For an order no delivery has forced, DELIVERED occurs only as the last row of its history, and
      what leads to it since the last PENDING is exactly ACCEPTED (once, or twice after a match),
      RECEIVED_EXTERNAL and IN_TRANSPORT. */
  lemma StrictGrammar(db: Db, calls: seq<Call>, id: Id, i: int) returns (from: nat)
    requires Initial(db) && id in Run(db, calls).orders
    requires !WasForced(db, calls, id)
    requires 0 <= i < |Run(db, calls).orders[id].history|
    requires Run(db, calls).orders[id].history[i].status == Delivered
    ensures var h := Run(db, calls).orders[id].history;
            && i == |h| - 1
            && from <= i
            && Statuses(h, from, i + 1) in {
                 [Pending, Accepted, ReceivedExternal, InTransport, Delivered],
                 [Pending, Accepted, Accepted, ReceivedExternal, InTransport, Delivered]}
  {
    UnforcedIsStrict(db, calls, id);
    var order := Run(db, calls).orders[id];
    from := DeliveredPath(order.history, i);
  }

  lemma DeliveredPath(h: History, i: int) returns (from: nat)
    requires h != [] && h[0].status == Pending && Strict(h)
    requires 0 <= i < |h| && h[i].status == Delivered
    ensures i == |h| - 1 && from <= i
    ensures Statuses(h, from, i + 1) in {
              [Pending, Accepted, ReceivedExternal, InTransport, Delivered],
              [Pending, Accepted, Accepted, ReceivedExternal, InTransport, Delivered]}
  {
    assert i + 1 < |h| ==> Regular(h, i + 1);
    assert Regular(h, i) && Regular(h, i - 1) && Regular(h, i - 2) && Regular(h, i - 3);
    if h[i - 4].status == Pending {
      from := i - 4;
      assert Statuses(h, from, i + 1) == [Pending, Accepted, ReceivedExternal, InTransport, Delivered];
    } else {
      from := i - 5;
      assert Statuses(h, from, i + 1) == [Pending, Accepted, Accepted, ReceivedExternal, InTransport, Delivered];
    }
  }

  function CountPending(h: History): nat {
    if h == [] then 0
    else CountPending(h[..|h| - 1]) + if h[|h| - 1].status == Pending then 1 else 0
  }

  /** How far into its epoch a row is: an epoch starts with PENDING and has at most six rows. */
  ghost function Rank(h: History, i: nat): nat
    requires i < |h|
  {
    match h[i].status
    case Pending => 1
    case Accepted => if RepeatedAccept(h, i) then 3 else 2
    case Rejected => 2
    case ReceivedExternal => 4
    case InTransport => 5
    case Delivered => 6
    case Canceled => 6
  }

  lemma RankRises(h: History, i: nat)
    requires 1 <= i < |h| && Regular(h, i) && (i >= 2 ==> Regular(h, i - 1)) && h[0].status == Pending
    ensures h[i].status == Pending || Rank(h, i) > Rank(h, i - 1)
  {
  }

  lemma {:induction false} EpochBound(h: History)
    requires h != [] && h[0].status == Pending && Strict(h)
    ensures CountPending(h) >= 1
    ensures |h| <= 6 * (CountPending(h) - 1) + Rank(h, |h| - 1)
  {
    var n := |h| - 1;
    if n == 0 {
      assert h[..0] == [];
    } else {
      var front := h[..n];
      forall i | 1 <= i < n ensures Regular(front, i) {
        assert Regular(h, i);
        assert h == front + [h[n]];
        RegularExtends(front, h[n], i);
      }
      EpochBound(front);
      assert Regular(h, n) && (n >= 2 ==> Regular(h, n - 1));
      RankRises(h, n);
      assert RepeatedAccept(front, n - 1) <==> RepeatedAccept(h, n - 1);
      assert Rank(front, n - 1) == Rank(h, n - 1);
    }
  }

  /** For an order no delivery has forced, a history has at most six rows for each of its PENDING
      rows, in every reachable state. */
  lemma BoundedEpochs(db: Db, calls: seq<Call>, id: Id)
    requires Initial(db) && id in Run(db, calls).orders
    requires !WasForced(db, calls, id)
    ensures var h := Run(db, calls).orders[id].history; |h| <= 6 * CountPending(h)
  {
    UnforcedIsStrict(db, calls, id);
    var order := Run(db, calls).orders[id];
    EpochBound(order.history);
  }

  /** In every reachable state a delivered order has its picture, an order that was ever received
      from outside has that column set, if only to the empty text, and every cancel row has its reason
      and its picture. */
  lemma EvidenceIsKept(db: Db, calls: seq<Call>, id: Id)
    requires Initial(db) && id in Run(db, calls).orders
    ensures var order := Run(db, calls).orders[id];
            && (order.latestStatus == Delivered ==> Given(order.finishedImage))
            && (Mentions(order.history, ReceivedExternal) ==> order.receivedImage.Some?)
            && forall i :: 0 <= i < |order.history| && order.history[i].status == Canceled ==>
                 order.history[i].reason.Some? && Given(order.history[i].canceledImage)
  {
    RunsKeepGood(db, calls);
    var order := Run(db, calls).orders[id];
    assert GoodTrail(order);
    forall i | 0 <= i < |order.history| && order.history[i].status == Canceled
      ensures order.history[i].reason.Some? && Given(order.history[i].canceledImage)
    {
      assert Documented(order.history[i]);
    }
  }

  /** A successful updateStatus of the order sends a picture of its receipt, ... */
  ghost predicate SendsPicture(db: Db, call: Call, id: Id) {
    call.CallUpdateStatus? && call.orderId == id && id in db.orders &&
    Accepts(db, db.orders[id], call.status, call.role) && Given(call.status.receivedImage)
  }

  /** ... or an empty text in its place, as any later update may. */
  ghost predicate BlanksPicture(db: Db, call: Call, id: Id) {
    call.CallUpdateStatus? && call.orderId == id && id in db.orders &&
    Accepts(db, db.orders[id], call.status, call.role) && call.status.receivedImage == Some("")
  }

  lemma UpdateStatusPicture(db: Db, call: Call, id: Id)
    requires call.CallUpdateStatus? && id in db.orders
    ensures id in Step(db, call).db.orders
    ensures Given(Step(db, call).db.orders[id].receivedImage) <==>
            SendsPicture(db, call, id) || (Given(db.orders[id].receivedImage) && !BlanksPicture(db, call, id))
  {
    UpdateStatusEffect(db, call.orderId, call.status, call.role, call.now);
  }

  /** No other call touches the picture. */
  lemma OthersKeepPicture(db: Db, call: Call, id: Id)
    requires !call.CallUpdateStatus? && id in db.orders && id in Step(db, call).db.orders
    ensures Step(db, call).db.orders[id].receivedImage == db.orders[id].receivedImage
  {
    match call
    case CallCreateOrder(newId, request, now, delay) =>
      var write := CreateOrderEffect(db, newId, request, now, delay);
    case CallTripStatus(trip, dto, caller, clock, now) =>
      var writes := TripStatusEffect(db, trip, dto, caller, clock, now);
      FanOutOnlyStatus(db, writes, id);
    case _ => QuietCall(db, call, id);
  }

  lemma StepPicture(db: Db, call: Call, id: Id)
    requires id in db.orders && id in Step(db, call).db.orders
    ensures Given(Step(db, call).db.orders[id].receivedImage) <==>
            SendsPicture(db, call, id) || (Given(db.orders[id].receivedImage) && !BlanksPicture(db, call, id))
  {
    if call.CallUpdateStatus? {
      UpdateStatusPicture(db, call, id);
    } else {
      OthersKeepPicture(db, call, id);
    }
  }

  ghost function PictureSent(id: Id): Event {
    (db: Db, call: Call) => SendsPicture(db, call, id)
  }

  ghost function PictureLost(id: Id): Event {
    (db: Db, call: Call) => BlanksPicture(db, call, id) || Deletes(db, call, id)
  }

  /** In every reachable state, the picture of an order's receipt is there and not empty if and only
      if some successful update has sent one and none since has sent an empty text. So an
      order that was received has lost its picture exactly if it was blanked afterwards. */
  lemma {:induction false} ReceivedImageExactly(db: Db, calls: seq<Call>, id: Id)
    requires Initial(db) && id in Run(db, calls).orders
    ensures Given(Run(db, calls).orders[id].receivedImage) <==> Since(db, calls, PictureSent(id), PictureLost(id))
  {
    var front, last := calls[..|calls| - 1], calls[|calls| - 1];
    assert calls == front + [last];
    SinceExtends(db, front, last, PictureSent(id), PictureLost(id));
    if id in Run(db, front).orders {
      StepKeepsOrder(Run(db, front), last, id);
      StepPicture(Run(db, front), last, id);
      ReceivedImageExactly(db, front, id);
    } else {
      OrderBirth(Run(db, front), last, id);
      AbsentIsFresh(db, front, id, PictureSent(id), PictureLost(id));
    }
  }
}
