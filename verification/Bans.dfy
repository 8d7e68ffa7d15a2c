/** The ban threshold and the fault counter. */
module Bans {
  import opened Model
  import opened OrderService
  import opened AccountService
  import opened Effects
  import opened Histories
  import opened Runs

  /** A student whose dormitory has a regulation with a threshold of at least one. */
  ghost predicate Regulated(db: Db, student: Id) {
    HasStudentRow(db, Some(student)) && db.users[student].role == Student &&
    var dormitory := db.users[student].student.value.dormitory;
    dormitory.Some? && dormitory.value in db.regulations && db.regulations[dormitory.value] >= 1
  }

  function Threshold(db: Db, student: Id): int
    requires HasStudentRow(db, Some(student))
  {
    BanThreshold(db, db.users[student].student.value.dormitory)
  }

  /** A student whose threshold, the dormitory's or the environment's, is at least one. */
  ghost predicate Bannable(db: Db, student: Id) {
    HasStudentRow(db, Some(student)) && db.users[student].role == Student && Threshold(db, student) >= 1
  }

  function Faults(db: Db, student: Id): int
    requires HasStudentRow(db, Some(student))
  {
    db.users[student].student.value.numberFault
  }

  /** Banned exactly from the threshold on. */
  ghost predicate BanAgrees(db: Db, student: Id)
    requires HasStudentRow(db, Some(student))
  {
    db.users[student].status == Banned <==> Faults(db, student) >= Threshold(db, student)
  }

  /** A successful cancel charges the student. */
  ghost predicate Charges(db: Db, call: Call, student: Id) {
    && call.CallUpdateStatus? && IsStudentCancel(call.status)
    && call.orderId in db.orders && db.orders[call.orderId].studentId == Some(student)
    && Accepts(db, db.orders[call.orderId], call.status, call.role)
  }

  predicate SetsStatus(call: Call, student: Id) {
    call.CallUserStatus? && call.userId == student
  }

  /** An administrator deactivates the student while banned, or unbans the student although one fault
      less is still too many. */
  ghost predicate LiftsBan(db: Db, call: Call, student: Id) {
    && SetsStatus(call, student) && HasStudentRow(db, Some(student)) && db.users[student].status == Banned
    && (call.userStatus == Deactivated ||
        (call.userStatus == Available && UnbanBase(db, db.users[student].student.value) > Threshold(db, student)))
  }

  /** With a regulation for the dormitory no unban does that; without one it does exactly if the
      counter has run past the threshold. */
  lemma UnbanLifts(db: Db, student: Id)
    requires Bannable(db, student) && db.users[student].status == Banned
    ensures LiftsBan(db, CallUserStatus(student, Available), student) <==>
            Unregulated(db, db.users[student].student.value.dormitory) && Faults(db, student) > db.defaultThreshold
  {
  }

  /** A charge, or a ban by hand. */
  ghost predicate Renews(db: Db, call: Call, student: Id) {
    Charges(db, call, student) || (SetsStatus(call, student) && call.userStatus == Banned)
  }

  /** The user table changes in two calls only. */
  lemma UsersUntouched(db: Db, call: Call)
    requires !call.CallUpdateStatus? && !call.CallUserStatus?
    ensures Step(db, call).db.users == db.users
  {
    match call
    case CallCreateOrder(newId, request, now, delay) =>
      var write := CreateOrderEffect(db, newId, request, now, delay);
    case CallTripStatus(id, dto, caller, clock, now) =>
      var writes := TripStatusEffect(db, id, dto, caller, clock, now);
    case _ =>
  }

  lemma UpdateStatusUser(db: Db, call: Call, student: Id)
    requires call.CallUpdateStatus? && HasStudentRow(db, Some(student))
    ensures student in Step(db, call).db.users
    ensures Step(db, call).db.users[student] ==
            if Charges(db, call, student) then ChargeFault(db, student).users[student] else db.users[student]
  {
    UpdateStatusEffect(db, call.orderId, call.status, call.role, call.now);
  }

  /** Only a charge and a status change by hand touch the row of a student. */
  lemma StepUser(db: Db, call: Call, student: Id)
    requires HasStudentRow(db, Some(student)) && !SetsStatus(call, student)
    ensures student in Step(db, call).db.users
    ensures Step(db, call).db.users[student] ==
            if Charges(db, call, student) then ChargeFault(db, student).users[student] else db.users[student]
  {
    if call.CallUpdateStatus? {
      UpdateStatusUser(db, call, student);
    } else if !call.CallUserStatus? {
      UsersUntouched(db, call);
    }
  }

  /** What every call keeps: a banned student's counter has reached the threshold. */
  ghost predicate BanFounded(db: Db, student: Id) {
    Bannable(db, student) && (db.users[student].status == Banned ==> Faults(db, student) >= Threshold(db, student))
  }

  /** What a call does to the agreement of ban and counter. */
  ghost predicate BanStep(db: Db, call: Call, db': Db, student: Id)
    requires BanFounded(db, student)
  {
    && BanFounded(db', student) && Threshold(db', student) == Threshold(db, student)
    && (BanAgrees(db', student) <==>
          Renews(db, call, student) || (BanAgrees(db, student) && !LiftsBan(db, call, student)))
  }

  lemma UserStatusBan(db: Db, call: Call, student: Id)
    requires BanFounded(db, student) && SetsStatus(call, student)
    ensures BanStep(db, call, Step(db, call).db, student)
  {
  }

  /** One call: ban and counter agree afterwards exactly if the call charges or bans the student, or
      they agreed before and the call does not lift a ban that stands. */
  lemma StepBan(db: Db, call: Call, student: Id)
    requires BanFounded(db, student)
    ensures BanStep(db, call, Step(db, call).db, student)
  {
    if SetsStatus(call, student) {
      UserStatusBan(db, call, student);
    } else {
      StepUser(db, call, student);
      RulesFixed(db, call);
    }
  }

  ghost function Lifting(student: Id): Event {
    (db: Db, call: Call) => LiftsBan(db, call, student)
  }

  ghost function Renewing(student: Id): Event {
    (db: Db, call: Call) => Renews(db, call, student)
  }

  /** In every reachable state a student is banned exactly while the counter has reached the
      threshold, unless such a ban was lifted and the student has not been charged or banned since:
      exactly then not. */
  lemma {:induction false} BannedExactly(db: Db, calls: seq<Call>, student: Id)
    requires Initial(db) && Bannable(db, student)
    ensures BanFounded(Run(db, calls), student) && Threshold(Run(db, calls), student) == Threshold(db, student)
    ensures BanAgrees(Run(db, calls), student) <==> !Since(db, calls, Lifting(student), Renewing(student))
  {
    if calls != [] {
      var front, last := calls[..|calls| - 1], calls[|calls| - 1];
      assert calls == front + [last];
      BannedExactly(db, front, student);
      SinceExtends(db, front, last, Lifting(student), Renewing(student));
      StepBan(Run(db, front), last, student);
    }
  }

  /** Over every run that never lifts such a ban, the student is banned exactly while the counter has
      reached the threshold. */
  lemma BannedIffThreshold(db: Db, calls: seq<Call>, student: Id)
    requires Initial(db) && Bannable(db, student)
    requires !Ever(db, calls, Lifting(student))
    ensures var after := Run(db, calls);
            && Bannable(after, student) && Threshold(after, student) == Threshold(db, student)
            && (after.users[student].status == Banned <==> Faults(after, student) >= Threshold(after, student))
  {
    BannedExactly(db, calls, student);
  }

  ghost function TouchingUser(student: Id): Event {
    (db: Db, call: Call) => Charges(db, call, student) || SetsStatus(call, student)
  }

  lemma {:induction false} UserStays(db: Db, calls: seq<Call>, student: Id)
    requires HasStudentRow(db, Some(student)) && !Ever(db, calls, TouchingUser(student))
    ensures student in Run(db, calls).users && Run(db, calls).users[student] == db.users[student]
    ensures SameRules(db, Run(db, calls))
  {
    if calls != [] {
      var front, last := calls[..|calls| - 1], calls[|calls| - 1];
      assert calls == front + [last];
      EverExtends(db, front, last, TouchingUser(student));
      UserStays(db, front, student);
      StepUser(Run(db, front), last, student);
      RulesFixed(Run(db, front), last);
    }
  }

  /** The next charge of a student one below the threshold is a ban. */
  lemma ChargeAtBrink(db: Db, call: Call, student: Id)
    requires Regulated(db, student) && Faults(db, student) == Threshold(db, student) - 1 && Charges(db, call, student)
    ensures var after := Step(db, call).db;
            HasStudentRow(after, Some(student)) && after.users[student].status == Banned &&
            Faults(after, student) == Threshold(db, student)
  {
    StepUser(db, call, student);
  }

  /** An unban leaves the counter one below the threshold. Whatever happens then, as long as nobody
      sets the student's status: until the next successful cancel that is the student's fault the
      student stays free, and that cancel bans again. */
  lemma UnbanIsProbation(db: Db, student: Id, calls: seq<Call>, next: Call)
    requires Regulated(db, student) && db.users[student].status == Banned
    requires var freed := UpdateUserStatus(db, student, Available).db;
             !Ever(freed, calls, TouchingUser(student)) && Charges(Run(freed, calls), next, student)
    ensures UpdateUserStatus(db, student, Available).verdict == Done
    ensures var after := Run(UpdateUserStatus(db, student, Available).db, calls);
            && HasStudentRow(after, Some(student)) && after.users[student].status == Available
            && Faults(after, student) == Threshold(db, student) - 1
            && var again := Step(after, next).db;
            HasStudentRow(again, Some(student)) && again.users[student].status == Banned &&
            Faults(again, student) == Threshold(db, student)
  {
    var freed := UpdateUserStatus(db, student, Available).db;
    UserStays(freed, calls, student);
    ChargeAtBrink(Run(freed, calls), next, student);
  }

  /** A banned student's createOrder changes nothing. */
  lemma BannedCannotOrder(db: Db, newId: Id, student: Id, dto: StudentOrderDto, now: nat, delay: nat)
    requires student in db.users && db.users[student].status == Banned
    ensures CreateOrder(db, newId, ByStudent(student, dto), now, delay) == Reply(db, Refused(AccountBanned))
  {
  }

  /** No regulation, or one with the threshold zero, which both calls take for none. */
  predicate Unregulated(db: Db, dormitory: Option<Dormitory>) {
    dormitory.None? || dormitory.value !in db.regulations || db.regulations[dormitory.value] == 0
  }

  /** Without a regulation for the dormitory the environment's threshold decides a ban, but an
      unban counts from the old counter: the unban keeps the agreement exactly if the counter had
      not run past the threshold. */
  lemma UnbanWithoutRegulation(db: Db, student: Id)
    requires HasStudentRow(db, Some(student)) && db.users[student].role == Student && db.users[student].status == Banned
    requires Unregulated(db, db.users[student].student.value.dormitory)
    requires db.defaultThreshold >= 1 && BanAgrees(db, student)
    ensures var freed := UpdateUserStatus(db, student, Available).db;
            HasStudentRow(freed, Some(student)) && freed.users[student].status == Available &&
            (BanAgrees(freed, student) <==> Faults(db, student) == db.defaultThreshold)
  {
  }
}
