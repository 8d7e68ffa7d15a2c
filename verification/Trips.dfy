/** One running trip for each staff member. */
module Trips {
  import opened Model
  import opened DeliveryService
  import opened Effects
  import opened Histories
  import opened Runs

  ghost predicate IsRunning(db: Db, d: Id, staffId: Id) {
    d in db.deliveries && db.deliveries[d].staffId == Some(staffId) && db.deliveries[d].latestStatus == TripAccepted
  }

  /** No staff member has two accepted deliveries. */
  ghost predicate OneTrip(db: Db) {
    forall s: Id, d: Id, e: Id :: IsRunning(db, d, s) && IsRunning(db, e, s) ==> d == e
  }

  /** If the call accepts a delivery, the caller is the delivery's own staff member. */
  ghost predicate AcceptsOwn(db: Db, call: Call) {
    call.CallTripStatus? && call.trip.status == TripAccepted && call.deliveryId in db.deliveries ==>
      db.deliveries[call.deliveryId].staffId == Some(call.caller.id)
  }

  /** What a call may do to the running of a delivery: leave it, stop it, or, for an accept, start
      the delivery of a caller who has none running. */
  lemma RunningMove(db: Db, call: Call, d: Id, s: Id)
    requires IsRunning(Step(db, call).db, d, s) && !IsRunning(db, d, s)
    ensures call.CallTripStatus? && call.deliveryId == d && call.trip.status == TripAccepted
    ensures d in db.deliveries && db.deliveries[d].staffId == Some(s) && !IsGoingDelivery(db, call.caller.id)
  {
    if call.CallTripStatus? {
      var writes := TripStatusEffect(db, call.deliveryId, call.trip, call.caller, call.clock, call.now);
    } else if !TouchesTrips(call) {
      TripsUntouched(db, call);
      assert false;
    } else {
      assert false;
    }
  }

  lemma StepKeepsOneTrip(db: Db, call: Call)
    requires OneTrip(db) && AcceptsOwn(db, call)
    ensures OneTrip(Step(db, call).db)
  {
    var after := Step(db, call).db;
    forall s: Id, d: Id, e: Id | IsRunning(after, d, s) && IsRunning(after, e, s) ensures d == e {
      if !IsRunning(db, d, s) {
        RunningMove(db, call, d, s);
      }
      if !IsRunning(db, e, s) {
        RunningMove(db, call, e, s);
      }
    }
  }

  /** If every accept is made by the delivery's own staff member, then in every reachable state each
      staff member has at most one accepted delivery, reassignments included. */
  lemma {:induction false} AtMostOneRunningTrip(db: Db, calls: seq<Call>)
    requires Initial(db)
    requires forall k :: 0 <= k < |calls| ==> AcceptsOwn(Run(db, calls[..k]), calls[k])
    ensures OneTrip(Run(db, calls))
  {
    if calls != [] {
      var front := calls[..|calls| - 1];
      assert forall k :: 0 <= k < |front| ==> front[..k] == calls[..k] && front[k] == calls[k];
      AtMostOneRunningTrip(db, front);
      StepKeepsOneTrip(Run(db, front), calls[|calls| - 1]);
    }
  }

  /** The guard looks at the caller, not at the delivery's staff member: a successful accept keeps
      the one-trip rule exactly if no other delivery of that staff member is running. */
  lemma AcceptKeepsOneTrip(db: Db, id: Id, dto: UpdateTripDto, caller: Caller, clock: Id -> nat, now: nat)
    requires OneTrip(db) && dto.status == TripAccepted
    requires UpdateDeliveryStatus(db, id, dto, caller, clock, now).verdict == Done
    ensures id in db.deliveries
    ensures OneTrip(UpdateDeliveryStatus(db, id, dto, caller, clock, now).db) <==>
            db.deliveries[id].staffId.None? ||
            forall e: Id :: IsRunning(db, e, db.deliveries[id].staffId.value) ==> e == id
  {
    var writes := TripStatusEffect(db, id, dto, caller, clock, now);
    var after := UpdateDeliveryStatus(db, id, dto, caller, clock, now).db;
    assert forall s: Id, e: Id :: e != id ==> (IsRunning(after, e, s) <==> IsRunning(db, e, s));
    assert forall s: Id :: IsRunning(after, id, s) <==> db.deliveries[id].staffId == Some(s);
  }

  /** An accept that goes through. */
  ghost predicate AcceptsTrip(db: Db, call: Call) {
    && call.CallTripStatus? && call.trip.status == TripAccepted && !IsGoingDelivery(db, call.caller.id)
    && !Given(call.trip.reason) && !Given(call.trip.canceledImage)
    && call.deliveryId in db.deliveries && !AllOrdersCanceled(db, db.deliveries[call.deliveryId].links)
  }

  lemma AcceptsTripExactly(db: Db, call: Call)
    requires call.CallTripStatus? && call.trip.status == TripAccepted
    ensures Step(db, call).verdict == Done <==> AcceptsTrip(db, call)
  {
  }

  /** ... while another delivery of the same staff member is running. */
  ghost predicate Doubles(db: Db, call: Call) {
    && AcceptsTrip(db, call) && db.deliveries[call.deliveryId].staffId.Some?
    && exists e: Id :: e != call.deliveryId && IsRunning(db, e, db.deliveries[call.deliveryId].staffId.value)
  }

  lemma OthersKeepOneTrip(db: Db, call: Call)
    requires OneTrip(db) && !AcceptsTrip(db, call)
    ensures OneTrip(Step(db, call).db)
  {
    var after := Step(db, call).db;
    forall s: Id, d: Id | IsRunning(after, d, s) ensures IsRunning(db, d, s) {
      if !IsRunning(db, d, s) {
        RunningMove(db, call, d, s);
        AcceptsTripExactly(db, call);
        var writes := TripStatusEffect(db, call.deliveryId, call.trip, call.caller, call.clock, call.now);
        assert false;
      }
    }
  }

  /** One call: from a state with the rule, the rule is kept exactly if the call is not an accept that
      goes through while another delivery of the same staff member is running. */
  lemma StepOneTrip(db: Db, call: Call)
    requires OneTrip(db)
    ensures OneTrip(Step(db, call).db) <==> !Doubles(db, call)
  {
    if AcceptsTrip(db, call) {
      AcceptsTripExactly(db, call);
      AcceptKeepsOneTrip(db, call.deliveryId, call.trip, call.caller, call.clock, call.now);
    } else {
      OthersKeepOneTrip(db, call);
    }
  }

  ghost predicate OneTripAfter(db: Db, calls: seq<Call>, k: nat)
    requires k <= |calls|
  {
    OneTrip(Run(db, calls[..k]))
  }

  ghost predicate AlwaysOneTrip(db: Db, calls: seq<Call>) {
    forall k: nat :: k <= |calls| ==> OneTripAfter(db, calls, k)
  }

  lemma AlwaysOneTripExtends(db: Db, front: seq<Call>, last: Call)
    ensures AlwaysOneTrip(db, front + [last]) <==> AlwaysOneTrip(db, front) && OneTrip(Run(db, front + [last]))
    ensures AlwaysOneTrip(db, front) ==> OneTrip(Run(db, front))
  {
    var calls := front + [last];
    forall k: nat | k <= |front| ensures OneTripAfter(db, calls, k) <==> OneTripAfter(db, front, k) {
      assert calls[..k] == front[..k];
    }
    assert calls[..|calls|] == calls && front[..|front|] == front;
    assert OneTripAfter(db, calls, |calls|) <==> OneTrip(Run(db, calls));
    assert OneTripAfter(db, front, |front|) <==> OneTrip(Run(db, front));
  }

  ghost function Doubling(): Event {
    (db: Db, call: Call) => Doubles(db, call)
  }

  /** Over a run, each staff member has at most one accepted delivery all the time if and only if no
      accept went through while another delivery of the same staff member was running. */
  lemma {:induction false} OneTripExactly(db: Db, calls: seq<Call>)
    requires OneTrip(db)
    ensures AlwaysOneTrip(db, calls) <==> !Ever(db, calls, Doubling())
  {
    if calls == [] {
      assert calls[..0] == calls;
    } else {
      var front, last := calls[..|calls| - 1], calls[|calls| - 1];
      assert calls == front + [last];
      OneTripExactly(db, front);
      EverExtends(db, front, last, Doubling());
      AlwaysOneTripExtends(db, front, last);
      if AlwaysOneTrip(db, front) {
        StepOneTrip(Run(db, front), last);
      }
    }
  }

  /** A delivery changes hands only while it is pending. */
  lemma ReassignedOnlyWhilePending(db: Db, call: Call, d: Id)
    requires d in db.deliveries && d in Step(db, call).db.deliveries
    requires Step(db, call).db.deliveries[d].staffId != db.deliveries[d].staffId
    ensures call.CallUpdateDelivery? && db.deliveries[d].latestStatus == TripPending
  {
    if call.CallTripStatus? {
      var writes := TripStatusEffect(db, call.deliveryId, call.trip, call.caller, call.clock, call.now);
    } else if !TouchesTrips(call) {
      TripsUntouched(db, call);
    }
  }
}
