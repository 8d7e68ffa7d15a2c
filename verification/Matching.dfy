/** The two-party registration: student and admin register one order, in either order. */
module Matching {
  import opened Model
  import opened OrderService
  import opened Effects
  import Decimal

  /** The columns the claim of a student does not copy from the request. */
  function WithoutParcel(order: Order): Order {
    order.(product := None, weight := None, paymentMethod := None)
  }

  /** What the two registrations of an order come to, the first at `first`, the second at `second`. */
  ghost function MatchedOrder(student: Id, dto: StudentOrderDto, first: nat, second: nat, delay: nat): Order {
    Twice(NewStudentOrder(student, dto, first), second, delay)
  }

  /** The student may order at both times, and nobody has registered the key. */
  ghost predicate MayRegister(db: Db, id: Id, student: Id, dto: StudentOrderDto, first: nat, second: nat) {
    && id !in db.orders && FindExistingOrder(db, dto.checkCode, dto.brand) == None
    && student in db.users && db.users[student].status != Banned && db.users[student].student.Some?
    && dto.deliveryDay != first / SECONDS_PER_DAY && dto.deliveryDay != second / SECONDS_PER_DAY
  }

  lemma OnlyMatch(db: Db, id: Id, row: Order)
    requires FindExistingOrder(db, row.checkCode, row.brand) == None
    ensures FindExistingOrder(db.(orders := db.orders[id := row]), row.checkCode, row.brand) == Some(id)
  {
    var after := db.(orders := db.orders[id := row]);
    assert HasKey(after.orders[id], row.checkCode, row.brand);
    var found := FindExistingOrder(after, row.checkCode, row.brand);
    assert found.Some?;
  }

  lemma StudentThenAdmin(db: Db, id: Id, other: Id, student: Id, dto: StudentOrderDto, admin: Id, first: nat,
                         lag: nat, second: nat, delay: nat)
    requires MayRegister(db, id, student, dto, first, second)
    ensures var one := CreateOrder(db, id, ByStudent(student, dto), first, lag);
            && one.verdict == Done
            && CreateOrder(one.db, other, ByAdmin(admin, AdminOrderDto(dto.checkCode, dto.brand)), second, delay) ==
               Reply(db.(orders := db.orders[id := MatchedOrder(student, dto, first, second, delay)]), Done)
  {
    var row := NewStudentOrder(student, dto, first);
    var one := db.(orders := db.orders[id := row]);
    OnlyMatch(db, id, row);
    Decimal.ToTextRoundTrip(dto.deliveryDay * SECONDS_PER_DAY);
    assert !LacksAddress(row);
    ConfirmEffect(one, id, Admin, second, delay);
    assert one.orders[id := Twice(row, second, delay)] == db.orders[id := Twice(row, second, delay)];
  }

  lemma AdminThenStudent(db: Db, id: Id, other: Id, student: Id, dto: StudentOrderDto, admin: Id, first: nat,
                         lag: nat, second: nat, delay: nat)
    requires MayRegister(db, id, student, dto, first, second)
    ensures var one := CreateOrder(db, id, ByAdmin(admin, AdminOrderDto(dto.checkCode, dto.brand)), first, lag);
            && one.verdict == Done
            && CreateOrder(one.db, other, ByStudent(student, dto), second, delay) ==
               Reply(db.(orders := db.orders[id := WithoutParcel(MatchedOrder(student, dto, first, second, delay))]),
                     Done)
  {
    var row := NewAdminOrder(AdminOrderDto(dto.checkCode, dto.brand), first);
    var one := db.(orders := db.orders[id := row]);
    OnlyMatch(db, id, row);
    var claimed := Claimed(row, student, dto);
    var claimedDb := one.(orders := one.orders[id := claimed]);
    ConfirmEffect(claimedDb, id, Student, second, delay);
    var final := Twice(claimed, second, delay);
    assert final == WithoutParcel(MatchedOrder(student, dto, first, second, delay));
    assert claimedDb.orders[id := final] == db.orders[id := final];
  }

  /** Both parties register an order, the student first or the admin first. */
  ghost function StudentFirst(db: Db, id: Id, other: Id, student: Id, dto: StudentOrderDto, admin: Id, first: nat,
                              lag: nat, second: nat, delay: nat): Reply {
    CreateOrder(CreateOrder(db, id, ByStudent(student, dto), first, lag).db, other,
                ByAdmin(admin, AdminOrderDto(dto.checkCode, dto.brand)), second, delay)
  }

  ghost function AdminFirst(db: Db, id: Id, other: Id, student: Id, dto: StudentOrderDto, admin: Id, first: nat,
                            lag: nat, second: nat, delay: nat): Reply {
    CreateOrder(CreateOrder(db, id, ByAdmin(admin, AdminOrderDto(dto.checkCode, dto.brand)), first, lag).db, other,
                ByStudent(student, dto), second, delay)
  }

  /** Whoever registers a fresh key first, both calls succeed and the tables end up the same but for
      the three parcel columns: one new order with the key, owned by the student, with the same
      address, date, fee and outstanding amount, ACCEPTED, with the same three history rows. */
  lemma MatchIsConfluent(db: Db, id: Id, other: Id, student: Id, dto: StudentOrderDto, admin: Id, first: nat,
                         lag: nat, second: nat, delay: nat)
    requires MayRegister(db, id, student, dto, first, second)
    ensures var matched := MatchedOrder(student, dto, first, second, delay);
            && StudentFirst(db, id, other, student, dto, admin, first, lag, second, delay) ==
               Reply(db.(orders := db.orders[id := matched]), Done)
            && AdminFirst(db, id, other, student, dto, admin, first, lag, second, delay) ==
               Reply(db.(orders := db.orders[id := WithoutParcel(matched)]), Done)
  {
    StudentThenAdmin(db, id, other, student, dto, admin, first, lag, second, delay);
    AdminThenStudent(db, id, other, student, dto, admin, first, lag, second, delay);
  }

  /** Both leave exactly one order with the key. */
  lemma OneOrderWithKey(db: Db, id: Id, student: Id, dto: StudentOrderDto, first: nat, second: nat, delay: nat, o: Id)
    requires MayRegister(db, id, student, dto, first, second)
    requires o in db.orders || o == id
    ensures var matched := MatchedOrder(student, dto, first, second, delay);
            && (HasKey(db.orders[id := matched][o], dto.checkCode, dto.brand) <==> o == id)
            && (HasKey(db.orders[id := WithoutParcel(matched)][o], dto.checkCode, dto.brand) <==> o == id)
  {
  }

  /** The order both end in. */
  lemma MatchedOrderColumns(student: Id, dto: StudentOrderDto, first: nat, second: nat, delay: nat)
    ensures var order := MatchedOrder(student, dto, first, second, delay);
            && HasKey(order, dto.checkCode, dto.brand) && order.studentId == Some(student)
            && order.room == Some(dto.room) && order.building == Some(dto.building) &&
               order.dormitory == Some(dto.dormitory)
            && order.deliveryDate == Some(DateText(dto.deliveryDay))
            && order.shippingFee == order.remainingAmount == Some(FeeOf(dto)) && !order.isPaid
            && order.latestStatus == Accepted
            && order.history == [PlainRow(Pending, first), PlainRow(Accepted, second),
                                 PlainRow(Accepted, second + delay)]
  {
  }
}
