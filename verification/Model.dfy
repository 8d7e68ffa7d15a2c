/** The tables of the order service, one datatype a row, and the database as a value.

    A relation that Prisma exposes as a list on its parent row (an order's or a delivery's
    status history, the order/delivery link rows of a delivery, the student row of a user) is
    a field of that parent here, so that a cascade deletes exactly what the schema cascades. */
module Model {

  datatype Option<+T> = None | Some(value: T)

  /** The identifiers are opaque tokens; only their equality matters. */
  type Id = nat

  datatype Role = Admin | Student | Staff

  datatype UserStatus = Available | Deactivated | Banned

  datatype Dormitory = DormA | DormB

  datatype PaymentMethod = Credit | Cash | Momo

  datatype OrderStatus =
    | Pending | Accepted | Rejected | Delivered | Canceled | InTransport | ReceivedExternal

  datatype TripStatus = TripPending | TripAccepted | TripFinished | TripCanceled

  /** A row of OrderStatusHistory or of DeliveryStatusHistory: the columns are the same. */
  datatype HistoryRow<+S> = HistoryRow(
    status: S,
    time: string,
    reason: Option<string>,
    canceledImage: Option<string>)

  type StatusRow = HistoryRow<OrderStatus>

  type TripRow = HistoryRow<TripStatus>

  /** A row of Order. `history` lists its status rows in the order they were written. */
  datatype Order = Order(
    checkCode: string,
    brand: string,
    studentId: Option<Id>,
    shipperId: Option<Id>,
    product: Option<string>,
    weight: Option<real>,
    paymentMethod: Option<PaymentMethod>,
    room: Option<string>,
    building: Option<string>,
    dormitory: Option<Dormitory>,
    deliveryDate: Option<string>,
    shippingFee: Option<int>,
    remainingAmount: Option<int>,
    isPaid: bool,
    finishedImage: Option<string>,
    receivedImage: Option<string>,
    latestStatus: OrderStatus,
    history: seq<StatusRow>)

  /** A row of OrdersOnDeliveries, seen from its delivery. */
  datatype Link = Link(orderId: Id, orderSequence: int)

  /** A row of Delivery with its links and its status rows. */
  datatype Delivery = Delivery(
    staffId: Option<Id>,
    limitTime: int,
    createdAt: string,
    numberOrder: nat,
    links: seq<Link>,
    latestStatus: TripStatus,
    history: seq<TripRow>)

  datatype StudentRow = StudentRow(dormitory: Option<Dormitory>, numberFault: int)

  datatype User = User(role: Role, status: UserStatus, student: Option<StudentRow>)

  /** The three columns about the account a payment came from. */
  datatype Account = Account(bankName: Option<string>, name: Option<string>, number: Option<string>)

  datatype Payment = Payment(orderId: Id, amount: int, isPaid: bool, orderCode: nat, account: Account)

  /** What JavaScript's `Number` makes of a text. */
  datatype Number = NaN | MinusInfinity | Finite(value: real) | PlusInfinity

  /** `a > b`, which no NaN satisfies. */
  predicate Exceeds(a: Number, b: Number) {
    a != NaN && b != NaN && a != b &&
    (a.PlusInfinity? || b.MinusInfinity? || (a.Finite? && b.Finite? && a.value > b.value))
  }

  /** All tables. `regulations` maps a dormitory to its ban threshold; `defaultThreshold` is the
      value of the environment variable BANNED_STUDENT_NUMBER, and `numberOf` is the runtime's
      `Number` on texts. */
  datatype Db = Db(
    orders: map<Id, Order>,
    deliveries: map<Id, Delivery>,
    users: map<Id, User>,
    payments: map<Id, Payment>,
    regulations: map<Dormitory, int>,
    defaultThreshold: int,
    numberOf: string -> Number)

  /** The authenticated user a service call is made for. */
  datatype Caller = Caller(id: Id, role: Role)

  /** Why a service call throws. */
  datatype Refusal =
    | OrderNotFound
    | ReceivedImageMissing
    | FinishedImageMissing
    | CancelForbidden
    | CancelReasonMissing
    | CancelImageMissing
    | StudentNotFound
    | InvalidTransition
    | UserNotFound
    | AccountBanned
    | SameDayDelivery
    | OwnedByAnother
    | AlreadyCreated
    | InvalidCreation
    | DeleteForbidden
    | StillReferenced
    | OrdersMissing
    | AlreadyInDelivery
    | DelayedBackwards
    | NotReceivedYet
    | DeliveryNotFound
    | DeliveryNotPending
    | DuplicateKey
    | TripInProgress
    | CancelEvidenceMissing
    | UnexpectedCancelEvidence
    | InvalidSignature
    | TestOrderCode
    | PaymentNotFound

  datatype Verdict = Done | Refused(why: Refusal)

  /** What a call leaves behind: the database, and whether it returned or threw. A call that
      throws half-way keeps what it had already written. */
  datatype Reply = Reply(db: Db, verdict: Verdict)

  /** JavaScript truthiness of an optional text: present and not empty. */
  predicate Given(text: Option<string>) {
    text.Some? && text.value != ""
  }

  /** Prisma leaves a column alone when the new value is undefined. */
  function Coalesce<T>(update: Option<T>, stored: Option<T>): Option<T> {
    if update.Some? then update else stored
  }
}
