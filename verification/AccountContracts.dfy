/** What the calls on payments and accounts promise, case by case. */
module AccountContracts {
  import opened Model
  import opened OrderService
  import opened AccountService
  import opened Integrity
  import opened OrderContracts

  ghost predicate CreatePaymentOutcome(db: Db, newId: Id, orderId: Id, amount: int, orderCode: nat, reply: Reply) {
    && (reply.verdict == Done <==>
          && orderId in db.orders && newId !in db.payments
          && forall p :: p in db.payments ==> db.payments[p].orderCode != orderCode)
    && (reply.verdict == Done ==>
          && reply.db == db.(payments := reply.db.payments)
          && reply.db.payments.Keys == db.payments.Keys + {newId}
          && (forall p :: p in db.payments ==> reply.db.payments[p] == db.payments[p])
          && reply.db.payments[newId] == Payment(orderId, amount, false, orderCode, Account(None, None, None)))
    && (reply.verdict != Done ==> reply.db == db)
    && (reply.verdict == Refused(OrderNotFound) <==> orderId !in db.orders)
    && (reply.verdict.Refused? ==> reply.verdict.why in {OrderNotFound, DuplicateKey})
  }

  /** createPayOSPayment: one unpaid payment with a code of its own, for an existing order. */
  lemma CreatePaymentExactly(db: Db, newId: Id, orderId: Id, amount: int, orderCode: nat)
    ensures CreatePaymentOutcome(db, newId, orderId, amount, orderCode,
                                 CreatePayment(db, newId, orderId, amount, orderCode))
  {
  }

  /** What a notification leaves of an account column: its own text, else what was there. */
  predicate Overwritten(given: Option<string>, before: Option<string>, after: Option<string>) {
    (given.Some? ==> after == given) && (given.None? ==> after == before)
  }

  /** The money of an order: the amount off what is outstanding (nothing, if it has no price yet), and
      paid exactly if nothing remains. */
  predicate MoneyTaken(before: Order, after: Order, amount: int) {
    && after.remainingAmount.Some?
    && (before.remainingAmount.Some? ==> after.remainingAmount.value == before.remainingAmount.value - amount)
    && (before.remainingAmount.None? ==> after.remainingAmount.value == -amount)
    && (after.isPaid <==> after.remainingAmount.value <= 0)
    && after == before.(remainingAmount := after.remainingAmount, isPaid := after.isPaid)
  }

  predicate PaymentPaid(before: Payment, after: Payment, account: Account) {
    && after.isPaid
    && Overwritten(account.bankName, before.account.bankName, after.account.bankName)
    && Overwritten(account.name, before.account.name, after.account.name)
    && Overwritten(account.number, before.account.number, after.account.number)
    && after == before.(isPaid := true, account := after.account)
  }

  /** The payment with the code, and its order, take the money; nothing else changes. */
  ghost predicate Processed(db: Db, db': Db, p: Id, amount: int, account: Account)
    requires p in db.payments && db.payments[p].orderId in db.orders
  {
    var o := db.payments[p].orderId;
    && p in db'.payments && o in db'.orders
    && db' == db.(orders := db.orders[o := db'.orders[o]], payments := db.payments[p := db'.payments[p]])
    && MoneyTaken(db.orders[o], db'.orders[o], amount) && PaymentPaid(db.payments[p], db'.payments[p], account)
  }

  ghost predicate IsTarget(db: Db, orderCode: nat, p: Id) {
    p in db.payments && db.payments[p].orderCode == orderCode && db.payments[p].orderId in db.orders
  }

  ghost predicate WebhookOutcome(db: Db, valid: bool, orderCode: nat, amount: int, account: Account, reply: Reply) {
    && (reply.verdict == Done <==> valid && orderCode != 123 && exists p :: IsTarget(db, orderCode, p))
    && (reply.verdict == Done ==>
          forall p :: IsTarget(db, orderCode, p) ==> Processed(db, reply.db, p, amount, account))
    && (reply.verdict != Done ==> reply.db == db)
    && (reply.verdict == Refused(InvalidSignature) <==> !valid)
    && (reply.verdict == Refused(TestOrderCode) <==> valid && orderCode == 123)
    && (reply.verdict == Refused(PaymentNotFound) ==>
          forall p :: p in db.payments ==> db.payments[p].orderCode != orderCode)
    && (reply.verdict.Refused? ==>
          reply.verdict.why in {InvalidSignature, TestOrderCode, PaymentNotFound, OrderNotFound})
  }

  /** handleWebhook: what a notification does, and when it does nothing. */
  lemma WebhookExactly(db: Db, valid: bool, orderCode: nat, amount: int, account: Account)
    requires UniqueCodes(db.payments)
    ensures WebhookOutcome(db, valid, orderCode, amount, account, HandleWebhook(db, valid, orderCode, amount, account))
  {
    var found := FindPayment(db, orderCode);
    assert found.Some? ==> forall p :: IsTarget(db, orderCode, p) ==> p == found.value;
    assert found.Some? && db.payments[found.value].orderId in db.orders ==> IsTarget(db, orderCode, found.value);
  }

  /** The fault counter an unban leaves: one below the regulation's threshold, or, where there is no
      regulation or it is zero, one below the old counter, and never below zero. */
  predicate Unbanned(db: Db, before: StudentRow, after: int) {
    var regulated :=
      before.dormitory.Some? && before.dormitory.value in db.regulations && db.regulations[before.dormitory.value] != 0;
    && (regulated && db.regulations[before.dormitory.value] >= 1 ==>
          after == db.regulations[before.dormitory.value] - 1)
    && (regulated && db.regulations[before.dormitory.value] < 1 ==> after == 0)
    && (!regulated && before.numberFault >= 1 ==> after == before.numberFault - 1)
    && (!regulated && before.numberFault < 1 ==> after == 0)
  }

  /** The user afterwards: the status of the call, whoever it is; the counter of a student is set by a
      ban and by the end of one, and by nothing else. */
  predicate StatusSet(db: Db, before: User, after: User, status: UserStatus) {
    && after.status == status && after.role == before.role
    && if before.role == Student && (status == Banned || (status == Available && before.status == Banned)) then
         && before.student.Some? && after.student.Some?
         && after.student.value == before.student.value.(numberFault := after.student.value.numberFault)
         && (status == Banned ==>
               after.student.value.numberFault == BanThreshold(db, before.student.value.dormitory))
         && (status == Available ==> Unbanned(db, before.student.value, after.student.value.numberFault))
       else after.student == before.student
  }

  ghost predicate UserStatusOutcome(db: Db, userId: Id, status: UserStatus, reply: Reply) {
    && (reply.verdict == Done <==>
          && userId in db.users
          && var user := db.users[userId];
          (user.role == Student && (status == Banned || (status == Available && user.status == Banned)) ==>
             user.student.Some?))
    && (reply.verdict == Done ==>
          && reply.db == db.(users := reply.db.users) && OnlyUser(db, reply.db, userId)
          && StatusSet(db, db.users[userId], reply.db.users[userId], status))
    && (reply.verdict != Done ==> reply.db == db)
    && (reply.verdict == Refused(UserNotFound) <==> userId !in db.users)
    && (reply.verdict.Refused? ==> reply.verdict.why in {UserNotFound, StudentNotFound})
  }

  /** updateUserStatus, for every user and every status. */
  lemma UserStatusExactly(db: Db, userId: Id, status: UserStatus)
    ensures UserStatusOutcome(db, userId, status, UpdateUserStatus(db, userId, status))
  {
  }
}
