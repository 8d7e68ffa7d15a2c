/** What src/payment/payment.service.impl.ts and the status change of
    src/users/users.service.impl.ts do to the tables. */
module AccountService {
  import opened Model
  import OrderService

  const TEST_ORDER_CODE := 123

  const NO_ACCOUNT := Account(None, None, None)

  /** createPayOSPayment: one unpaid payment row with a unique order code. */
  ghost function CreatePayment(db: Db, newId: Id, orderId: Id, amount: int, orderCode: nat): Reply {
    if orderId !in db.orders then Reply(db, Refused(OrderNotFound))
    else if newId in db.payments || exists p :: p in db.payments && db.payments[p].orderCode == orderCode then
      Reply(db, Refused(DuplicateKey))
    else Reply(db.(payments := db.payments[newId := Payment(orderId, amount, false, orderCode, NO_ACCOUNT)]), Done)
  }

  ghost function FindPayment(db: Db, orderCode: nat): (found: Option<Id>)
    ensures found.Some? ==> found.value in db.payments && db.payments[found.value].orderCode == orderCode
    ensures found.None? ==> forall p :: p in db.payments ==> db.payments[p].orderCode != orderCode
  {
    if exists p :: p in db.payments && db.payments[p].orderCode == orderCode then
      var p :| p in db.payments && db.payments[p].orderCode == orderCode;
      Some(p)
    else None
  }

  /** `null - amount` is `-amount` in JavaScript. */
  function Outstanding(order: Order): int {
    if order.remainingAmount.Some? then order.remainingAmount.value else 0
  }

  function Collected(order: Order, amount: int): Order {
    var remaining := Outstanding(order) - amount;
    order.(remainingAmount := Some(remaining), isPaid := remaining <= 0)
  }

  function WithAccount(payment: Payment, account: Account): Payment {
    payment.(account := Account(Coalesce(account.bankName, payment.account.bankName),
                                Coalesce(account.name, payment.account.name),
                                Coalesce(account.number, payment.account.number)))
  }

  /** handleWebhook. Whatever goes wrong is caught and logged; `Refused` says the tables were
      left alone. `valid` is the outcome of the signature check. */
  ghost function HandleWebhook(db: Db, valid: bool, orderCode: nat, amount: int, account: Account): Reply {
    if !valid then Reply(db, Refused(InvalidSignature))
    else if orderCode == TEST_ORDER_CODE then Reply(db, Refused(TestOrderCode))
    else
      match FindPayment(db, orderCode)
      case None => Reply(db, Refused(PaymentNotFound))
      case Some(p) =>
        var payment := db.payments[p];
        if payment.orderId !in db.orders then Reply(db, Refused(OrderNotFound))
        else
          Reply(db.(orders := db.orders[payment.orderId := Collected(db.orders[payment.orderId], amount)],
                    payments := db.payments[p := WithAccount(payment.(isPaid := true), account)]),
                Done)
  }

  /** The fault counter an unban starts from: the dormitory's threshold, else the old counter. */
  function UnbanBase(db: Db, row: StudentRow): int {
    if row.dormitory.Some? && row.dormitory.value in db.regulations && db.regulations[row.dormitory.value] != 0
    then db.regulations[row.dormitory.value]
    else row.numberFault
  }

  function Max(x: int, y: int): int {
    if x < y then y else x
  }

  /** updateUserStatus: a ban raises the counter to the threshold, an unban sets it one below,
      any other change touches the status only. Updating the counter of a student without a
      student row fails as a whole. */
  function UpdateUserStatus(db: Db, userId: Id, status: UserStatus): Reply {
    if userId !in db.users then Reply(db, Refused(UserNotFound))
    else
      var user := db.users[userId];
      var isUnban := user.role == Student && user.status == Banned && status == Available;
      if (status == Banned && user.role == Student) || isUnban then
        if user.student.None? then Reply(db, Refused(StudentNotFound))
        else
          var row := user.student.value;
          var faults :=
            if isUnban then Max(UnbanBase(db, row) - 1, 0) else OrderService.BanThreshold(db, row.dormitory);
          var student := Some(row.(numberFault := faults));
          Reply(db.(users := db.users[userId := user.(status := status, student := student)]), Done)
      else Reply(db.(users := db.users[userId := user.(status := status)]), Done)
  }
}
