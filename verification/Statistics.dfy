/** The per-day statistics of a staff member. */
module Statistics {
  import opened Model
  import opened Decimal

  /** A calendar day, as the time zone of the server shows a timestamp. */
  datatype Civil = Civil(day: nat, month: nat, year: nat)

  /** One bucket of `groupedByDay`. */
  datatype Bucket = Bucket(orderCount: int, totalShippingFee: int, deliveryCount: int)

  datatype DayStats = DayStats(period: string, stats: Bucket)

  /** getDateFromUnixTimestamp: day, month and the last two digits of the year. */
  function Print(date: Civil): string {
    ToText(date.day) + "/" + ToText(date.month) + "/" + ToText(date.year % 100)
  }

  function Split(text: string, separator: char): seq<string> {
    if separator !in text then [text]
    else if text[0] == separator then [""] + Split(text[1..], separator)
    else
      var rest := Split(text[1..], separator);
      if rest == [] then [text] else [[text[0]] + rest[0]] + rest[1..]
  }

  function NumberOf(text: string): nat {
    if forall c :: c in text ==> IsDigit(c) then ToNumber(text) else 0
  }

  /** The date a period is sorted by: the parts between the slashes, in this century. */
  function Parse(period: string): Civil {
    var parts := Split(period, '/');
    if |parts| == 3 then Civil(NumberOf(parts[0]), NumberOf(parts[1]), 2000 + NumberOf(parts[2]))
    else Civil(0, 0, 0)
  }

  predicate Earlier(a: Civil, b: Civil) {
    a.year < b.year || (a.year == b.year && (a.month < b.month || (a.month == b.month && a.day < b.day)))
  }

  predicate NotLater(a: Civil, b: Civil) {
    Earlier(a, b) || a == b
  }

  lemma {:induction false} SplitAt(head: string, separator: char, tail: string)
    requires separator !in head
    ensures Split(head + [separator] + tail, separator) == [head] + Split(tail, separator)
  {
    var text := head + [separator] + tail;
    if head == "" {
      assert text[1..] == tail;
    } else {
      assert text[0] == head[0] && text[|head|] == separator;
      assert text[1..] == head[1..] + [separator] + tail;
      SplitAt(head[1..], separator, tail);
      assert [head[0]] + head[1..] == head;
    }
  }

  /** Splitting a printed period on the slashes gets the day, the month and the year of the
      century back. */
  lemma ParsePrint(date: Civil)
    ensures Parse(Print(date)) == date.(year := 2000 + date.year % 100)
  {
    ToTextRoundTrip(date.day);
    ToTextRoundTrip(date.month);
    ToTextRoundTrip(date.year % 100);
    var tail := ToText(date.month) + "/" + ToText(date.year % 100);
    assert Print(date) == ToText(date.day) + ['/'] + tail;
    SplitAt(ToText(date.day), '/', tail);
    assert tail == ToText(date.month) + ['/'] + ToText(date.year % 100);
    SplitAt(ToText(date.month), '/', ToText(date.year % 100));
    assert '/' !in ToText(date.year % 100);
  }

  /** Two days share a period exactly if they agree up to the century. */
  lemma PrintInjective(a: Civil, b: Civil)
    ensures Print(a) == Print(b) <==> a.day == b.day && a.month == b.month && a.year % 100 == b.year % 100
  {
    ParsePrint(a);
    ParsePrint(b);
  }

  /** No day is printed like an invalid time. */
  lemma PrintIsDay(date: Civil)
    ensures Print(date) != NO_DAY
  {
    ToTextRoundTrip(date.day);
    assert ToText(date.day)[0] in ToText(date.day);
    assert Print(date)[0] == ToText(date.day)[0];
  }

  lemma SameCentury(year: nat)
    requires 2000 <= year < 2100
    ensures 2000 + year % 100 == year
  {
  }

  /** Within 2000 to 2099 a period names one day, and sorting by period sorts by date. */
  lemma PeriodNamesDay(a: Civil, b: Civil)
    requires 2000 <= a.year < 2100 && 2000 <= b.year < 2100
    ensures Print(a) == Print(b) <==> a == b
    ensures Earlier(Parse(Print(a)), Parse(Print(b))) <==> Earlier(a, b)
  {
    ParsePrint(a);
    ParsePrint(b);
    SameCentury(a.year);
    SameCentury(b.year);
  }

  /** The weights of the rows of one period. */
  ghost function SumOn<T>(rows: seq<T>, periodOf: T -> string, weightOf: T -> int, period: string): int {
    if rows == [] then 0
    else
      var last := rows[|rows| - 1];
      SumOn(rows[..|rows| - 1], periodOf, weightOf, period) + if periodOf(last) == period then weightOf(last) else 0
  }

  ghost function Total<T>(rows: seq<T>, weightOf: T -> int): int {
    if rows == [] then 0 else Total(rows[..|rows| - 1], weightOf) + weightOf(rows[|rows| - 1])
  }

  ghost function SumOver<T>(rows: seq<T>, periodOf: T -> string, weightOf: T -> int, periods: seq<string>): int {
    if periods == [] then 0
    else
      SumOver(rows, periodOf, weightOf, periods[..|periods| - 1]) +
      SumOn(rows, periodOf, weightOf, periods[|periods| - 1])
  }

  predicate Distinct(periods: seq<string>) {
    forall i, j :: 0 <= i < j < |periods| ==> periods[i] != periods[j]
  }

  lemma {:induction false} SumOverEmpty<T>(periodOf: T -> string, weightOf: T -> int, periods: seq<string>)
    ensures SumOver([], periodOf, weightOf, periods) == 0
  {
    if periods != [] {
      SumOverEmpty(periodOf, weightOf, periods[..|periods| - 1]);
    }
  }

  /** One more row adds its weight to one of the distinct periods, if it is listed. */
  lemma {:induction false} SumOverExtend<T>(rows: seq<T>, row: T, periodOf: T -> string, weightOf: T -> int,
                                            periods: seq<string>)
    requires Distinct(periods)
    ensures SumOver(rows + [row], periodOf, weightOf, periods) ==
            SumOver(rows, periodOf, weightOf, periods) + if periodOf(row) in periods then weightOf(row) else 0
  {
    assert (rows + [row])[..|rows|] == rows;
    if periods != [] {
      var front, last := periods[..|periods| - 1], periods[|periods| - 1];
      SumOverExtend(rows, row, periodOf, weightOf, front);
      assert periods == front + [last];
      assert last !in front;
    }
  }

  /** Nothing is lost and nothing counted twice: over distinct periods that cover all rows, the sums
      of the periods add up to the total. */
  lemma {:induction false} Conservation<T>(rows: seq<T>, periodOf: T -> string, weightOf: T -> int,
                                           periods: seq<string>)
    requires Distinct(periods)
    requires forall k :: 0 <= k < |rows| ==> periodOf(rows[k]) in periods
    ensures SumOver(rows, periodOf, weightOf, periods) == Total(rows, weightOf)
  {
    if rows == [] {
      SumOverEmpty(periodOf, weightOf, periods);
    } else {
      var front, last := rows[..|rows| - 1], rows[|rows| - 1];
      assert rows == front + [last];
      Conservation(front, periodOf, weightOf, periods);
      SumOverExtend(front, last, periodOf, weightOf, periods);
    }
  }

  /** A way to tell the period of a row. */
  type PeriodOf<!T> = T -> string

  /** The calendar of the server: the day it shows for a stored time, if the time is a valid one. */
  type Calendar = string -> Option<Civil>

  /** What getDateFromUnixTimestamp prints for an invalid time. */
  const NO_DAY := "NaN/NaN/NaN"

  function PeriodText(day: Option<Civil>): string {
    if day.Some? then Print(day.value) else NO_DAY
  }

  function OrderDay(civil: Calendar, order: Order): Option<Civil> {
    civil(if order.deliveryDate.Some? then order.deliveryDate.value else "")
  }

  function TripDay(civil: Calendar, trip: Delivery): Option<Civil> {
    civil(trip.createdAt)
  }

  /** The period an order, or a delivery, is counted for. */
  function OrderPeriod(civil: Calendar): PeriodOf<Order> {
    (order: Order) => PeriodText(OrderDay(civil, order))
  }

  function TripPeriod(civil: Calendar): PeriodOf<Delivery> {
    (trip: Delivery) => PeriodText(TripDay(civil, trip))
  }

  /** All times are valid. */
  ghost predicate AllDated(orders: seq<Order>, trips: seq<Delivery>, civil: Calendar) {
    && (forall k :: 0 <= k < |orders| ==> OrderDay(civil, orders[k]).Some?)
    && (forall k :: 0 <= k < |trips| ==> TripDay(civil, trips[k]).Some?)
  }

  function FeeWeight(): Order -> int {
    (order: Order) => if order.shippingFee.Some? then order.shippingFee.value else 0
  }

  function One<T>(): T -> int {
    (row: T) => 1
  }

  const EMPTY_BUCKET := Bucket(0, 0, 0)

  /** A bucket holds exactly the rows of its period. */
  ghost predicate IsBucket(orders: seq<Order>, trips: seq<Delivery>, orderPeriod: PeriodOf<Order>,
                           tripPeriod: PeriodOf<Delivery>, period: string, stats: Bucket) {
    && stats.orderCount == SumOn(orders, orderPeriod, One<Order>(), period)
    && stats.totalShippingFee == SumOn(orders, orderPeriod, FeeWeight(), period)
    && stats.deliveryCount == SumOn(trips, tripPeriod, One<Delivery>(), period)
  }

  /** The keys of the accumulator, in insertion order, none twice. */
  ghost predicate Keyed(periods: seq<string>, groupedByDay: map<string, Bucket>) {
    Distinct(periods) && forall period :: period in groupedByDay <==> period in periods
  }

  ghost predicate AllBuckets(orders: seq<Order>, trips: seq<Delivery>, orderPeriod: PeriodOf<Order>,
                             tripPeriod: PeriodOf<Delivery>, groupedByDay: map<string, Bucket>) {
    forall period :: period in groupedByDay ==>
      IsBucket(orders, trips, orderPeriod, tripPeriod, period, groupedByDay[period])
  }

  ghost predicate Covers<T>(rows: seq<T>, periodOf: PeriodOf<T>, periods: seq<string>) {
    forall k :: 0 <= k < |rows| ==> periodOf(rows[k]) in periods
  }

  /** What is known of the accumulator after some orders and deliveries. */
  ghost predicate Groups(orders: seq<Order>, trips: seq<Delivery>, orderPeriod: PeriodOf<Order>,
                         tripPeriod: PeriodOf<Delivery>, periods: seq<string>, groupedByDay: map<string, Bucket>) {
    && Keyed(periods, groupedByDay)
    && AllBuckets(orders, trips, orderPeriod, tripPeriod, groupedByDay)
    && Covers(orders, orderPeriod, periods)
    && Covers(trips, tripPeriod, periods)
    && AllOccur(orders, trips, orderPeriod, tripPeriod, periods)
  }

  ghost predicate AllOccur(orders: seq<Order>, trips: seq<Delivery>, orderPeriod: PeriodOf<Order>,
                           tripPeriod: PeriodOf<Delivery>, periods: seq<string>) {
    forall period :: period in periods ==> Occurs(orders, trips, orderPeriod, tripPeriod, period)
  }

  /** Some row is counted for the period. */
  ghost predicate Occurs(orders: seq<Order>, trips: seq<Delivery>, orderPeriod: PeriodOf<Order>,
                         tripPeriod: PeriodOf<Delivery>, period: string) {
    || (exists k :: 0 <= k < |orders| && orderPeriod(orders[k]) == period)
    || (exists k :: 0 <= k < |trips| && tripPeriod(trips[k]) == period)
  }

  lemma {:induction false} SumOnAbsent<T>(rows: seq<T>, periodOf: PeriodOf<T>, weightOf: T -> int, period: string)
    requires forall k :: 0 <= k < |rows| ==> periodOf(rows[k]) != period
    ensures SumOn(rows, periodOf, weightOf, period) == 0
  {
    if rows != [] {
      SumOnAbsent(rows[..|rows| - 1], periodOf, weightOf, period);
    }
  }

  lemma SumOnExtend<T>(rows: seq<T>, row: T, periodOf: PeriodOf<T>, weightOf: T -> int, period: string)
    ensures SumOn(rows + [row], periodOf, weightOf, period) ==
            SumOn(rows, periodOf, weightOf, period) + if periodOf(row) == period then weightOf(row) else 0
  {
  }

  /** The bucket of a period, empty while no row has been counted for it. */
  function BucketOf(groupedByDay: map<string, Bucket>, period: string): Bucket {
    if period in groupedByDay then groupedByDay[period] else EMPTY_BUCKET
  }

  function WithPeriod(periods: seq<string>, period: string): seq<string> {
    if period in periods then periods else periods + [period]
  }

  lemma BucketOfIsBucket(orders: seq<Order>, trips: seq<Delivery>, orderPeriod: PeriodOf<Order>,
                         tripPeriod: PeriodOf<Delivery>, periods: seq<string>, groupedByDay: map<string, Bucket>,
                         period: string)
    requires Groups(orders, trips, orderPeriod, tripPeriod, periods, groupedByDay)
    ensures IsBucket(orders, trips, orderPeriod, tripPeriod, period, BucketOf(groupedByDay, period))
  {
    if period !in groupedByDay {
      SumOnAbsent(orders, orderPeriod, One<Order>(), period);
      SumOnAbsent(orders, orderPeriod, FeeWeight(), period);
      SumOnAbsent(trips, tripPeriod, One<Delivery>(), period);
    }
  }

  lemma OccursLater(orders: seq<Order>, trips: seq<Delivery>, orders': seq<Order>, trips': seq<Delivery>,
                    orderPeriod: PeriodOf<Order>, tripPeriod: PeriodOf<Delivery>, period: string)
    requires Occurs(orders, trips, orderPeriod, tripPeriod, period)
    ensures Occurs(orders + orders', trips + trips', orderPeriod, tripPeriod, period)
  {
    if k :| 0 <= k < |orders| && orderPeriod(orders[k]) == period {
      assert (orders + orders')[k] == orders[k];
    } else if k :| 0 <= k < |trips| && tripPeriod(trips[k]) == period {
      assert (trips + trips')[k] == trips[k];
    }
  }

  function AddOrder(stats: Bucket, fee: int): Bucket {
    Bucket(stats.orderCount + 1, stats.totalShippingFee + fee, stats.deliveryCount)
  }

  function AddTrip(stats: Bucket): Bucket {
    Bucket(stats.orderCount, stats.totalShippingFee, stats.deliveryCount + 1)
  }

  lemma KeyedExtends(periods: seq<string>, groupedByDay: map<string, Bucket>, day: string, stats: Bucket)
    requires Keyed(periods, groupedByDay)
    ensures Keyed(WithPeriod(periods, day), groupedByDay[day := stats])
  {
  }

  lemma CoversExtends<T>(rows: seq<T>, row: T, periodOf: PeriodOf<T>, periods: seq<string>)
    requires Covers(rows, periodOf, periods)
    ensures Covers(rows + [row], periodOf, WithPeriod(periods, periodOf(row)))
  {
  }

  lemma CoversLater<T>(rows: seq<T>, periodOf: PeriodOf<T>, periods: seq<string>, day: string)
    requires Covers(rows, periodOf, periods)
    ensures Covers(rows, periodOf, WithPeriod(periods, day))
  {
  }

  lemma OrderOccurs(orders: seq<Order>, trips: seq<Delivery>, orderPeriod: PeriodOf<Order>,
                    tripPeriod: PeriodOf<Delivery>, periods: seq<string>, order: Order)
    requires AllOccur(orders, trips, orderPeriod, tripPeriod, periods)
    ensures AllOccur(orders + [order], trips, orderPeriod, tripPeriod, WithPeriod(periods, orderPeriod(order)))
  {
    assert trips + [] == trips;
    assert (orders + [order])[|orders|] == order;
    forall period | period in periods ensures Occurs(orders + [order], trips, orderPeriod, tripPeriod, period) {
      OccursLater(orders, trips, [order], [], orderPeriod, tripPeriod, period);
    }
  }

  lemma TripOccurs(orders: seq<Order>, trips: seq<Delivery>, orderPeriod: PeriodOf<Order>,
                   tripPeriod: PeriodOf<Delivery>, periods: seq<string>, trip: Delivery)
    requires AllOccur(orders, trips, orderPeriod, tripPeriod, periods)
    ensures AllOccur(orders, trips + [trip], orderPeriod, tripPeriod, WithPeriod(periods, tripPeriod(trip)))
  {
    assert orders + [] == orders;
    assert (trips + [trip])[|trips|] == trip;
    forall period | period in periods ensures Occurs(orders, trips + [trip], orderPeriod, tripPeriod, period) {
      OccursLater(orders, trips, [], [trip], orderPeriod, tripPeriod, period);
    }
  }

  lemma OrderBuckets(orders: seq<Order>, trips: seq<Delivery>, orderPeriod: PeriodOf<Order>,
                     tripPeriod: PeriodOf<Delivery>, periods: seq<string>, groupedByDay: map<string, Bucket>,
                     order: Order)
    requires Groups(orders, trips, orderPeriod, tripPeriod, periods, groupedByDay)
    ensures var day := orderPeriod(order);
            AllBuckets(orders + [order], trips, orderPeriod, tripPeriod,
              groupedByDay[day := AddOrder(BucketOf(groupedByDay, day), FeeWeight()(order))])
  {
    var day := orderPeriod(order);
    var counted := groupedByDay[day := AddOrder(BucketOf(groupedByDay, day), FeeWeight()(order))];
    forall period | period in counted
      ensures IsBucket(orders + [order], trips, orderPeriod, tripPeriod, period, counted[period])
    {
      BucketOfIsBucket(orders, trips, orderPeriod, tripPeriod, periods, groupedByDay, period);
      SumOnExtend(orders, order, orderPeriod, One<Order>(), period);
      SumOnExtend(orders, order, orderPeriod, FeeWeight(), period);
    }
  }

  lemma TripBuckets(orders: seq<Order>, trips: seq<Delivery>, orderPeriod: PeriodOf<Order>,
                    tripPeriod: PeriodOf<Delivery>, periods: seq<string>, groupedByDay: map<string, Bucket>,
                    trip: Delivery)
    requires Groups(orders, trips, orderPeriod, tripPeriod, periods, groupedByDay)
    ensures var day := tripPeriod(trip);
            AllBuckets(orders, trips + [trip], orderPeriod, tripPeriod,
              groupedByDay[day := AddTrip(BucketOf(groupedByDay, day))])
  {
    var day := tripPeriod(trip);
    var counted := groupedByDay[day := AddTrip(BucketOf(groupedByDay, day))];
    forall period | period in counted
      ensures IsBucket(orders, trips + [trip], orderPeriod, tripPeriod, period, counted[period])
    {
      BucketOfIsBucket(orders, trips, orderPeriod, tripPeriod, periods, groupedByDay, period);
      SumOnExtend(trips, trip, tripPeriod, One<Delivery>(), period);
    }
  }

  /** The accumulator: its keys in insertion order, and its buckets. */
  datatype Grouping = Grouping(periods: seq<string>, buckets: map<string, Bucket>)

  function PlusOrder(groups: Grouping, day: string, fee: int): Grouping {
    Grouping(WithPeriod(groups.periods, day), groups.buckets[day := AddOrder(BucketOf(groups.buckets, day), fee)])
  }

  function PlusTrip(groups: Grouping, day: string): Grouping {
    Grouping(WithPeriod(groups.periods, day), groups.buckets[day := AddTrip(BucketOf(groups.buckets, day))])
  }

  /** The accumulator after some orders, and after some deliveries on top. */
  function GroupedOrders(orders: seq<Order>, orderPeriod: PeriodOf<Order>): Grouping {
    if orders == [] then Grouping([], map[])
    else
      var last := orders[|orders| - 1];
      PlusOrder(GroupedOrders(orders[..|orders| - 1], orderPeriod), orderPeriod(last), FeeWeight()(last))
  }

  function GroupedTrips(base: Grouping, trips: seq<Delivery>, tripPeriod: PeriodOf<Delivery>): Grouping {
    if trips == [] then base
    else PlusTrip(GroupedTrips(base, trips[..|trips| - 1], tripPeriod), tripPeriod(trips[|trips| - 1]))
  }

  lemma {:induction false} GroupedOrdersAreGroups(orders: seq<Order>, orderPeriod: PeriodOf<Order>,
                                                  tripPeriod: PeriodOf<Delivery>)
    ensures var groups := GroupedOrders(orders, orderPeriod);
            Groups(orders, [], orderPeriod, tripPeriod, groups.periods, groups.buckets)
  {
    if orders != [] {
      var front, last := orders[..|orders| - 1], orders[|orders| - 1];
      GroupedOrdersAreGroups(front, orderPeriod, tripPeriod);
      var groups := GroupedOrders(front, orderPeriod);
      var day := orderPeriod(last);
      assert front + [last] == orders;
      KeyedExtends(groups.periods, groups.buckets, day, AddOrder(BucketOf(groups.buckets, day), FeeWeight()(last)));
      OrderBuckets(front, [], orderPeriod, tripPeriod, groups.periods, groups.buckets, last);
      CoversExtends(front, last, orderPeriod, groups.periods);
      OrderOccurs(front, [], orderPeriod, tripPeriod, groups.periods, last);
    }
  }

  lemma {:induction false} GroupedTripsAreGroups(orders: seq<Order>, trips: seq<Delivery>, orderPeriod: PeriodOf<Order>,
                                                 tripPeriod: PeriodOf<Delivery>, base: Grouping)
    requires Groups(orders, [], orderPeriod, tripPeriod, base.periods, base.buckets)
    ensures var groups := GroupedTrips(base, trips, tripPeriod);
            Groups(orders, trips, orderPeriod, tripPeriod, groups.periods, groups.buckets)
  {
    if trips != [] {
      var front, last := trips[..|trips| - 1], trips[|trips| - 1];
      GroupedTripsAreGroups(orders, front, orderPeriod, tripPeriod, base);
      var groups := GroupedTrips(base, front, tripPeriod);
      var day := tripPeriod(last);
      assert front + [last] == trips;
      KeyedExtends(groups.periods, groups.buckets, day, AddTrip(BucketOf(groups.buckets, day)));
      TripBuckets(orders, front, orderPeriod, tripPeriod, groups.periods, groups.buckets, last);
      CoversLater(orders, orderPeriod, groups.periods, day);
      CoversExtends(front, last, tripPeriod, groups.periods);
      TripOccurs(orders, front, orderPeriod, tripPeriod, groups.periods, last);
    }
  }

  /** The loop over the orders. */
  method GroupOrders(orders: seq<Order>, orderPeriod: PeriodOf<Order>) returns (groups: Grouping)
    ensures groups == GroupedOrders(orders, orderPeriod)
  {
    var periods: seq<string>, groupedByDay: map<string, Bucket> := [], map[];
    for i := 0 to |orders|
      invariant Grouping(periods, groupedByDay) == GroupedOrders(orders[..i], orderPeriod)
    {
      var day := orderPeriod(orders[i]);
      var stats := BucketOf(groupedByDay, day);
      if day !in periods {
        periods := periods + [day];
      }
      stats := stats.(orderCount := stats.orderCount + 1);
      var fee := if orders[i].shippingFee.Some? then orders[i].shippingFee.value else 0;
      stats := stats.(totalShippingFee := stats.totalShippingFee + fee);
      groupedByDay := groupedByDay[day := stats];
      assert orders[..i + 1][..i] == orders[..i];
    }
    assert orders[..|orders|] == orders;
    groups := Grouping(periods, groupedByDay);
  }

  /** The loop that adds the deliveries to the groups of the orders. */
  method GroupTrips(base: Grouping, trips: seq<Delivery>, tripPeriod: PeriodOf<Delivery>) returns (groups: Grouping)
    ensures groups == GroupedTrips(base, trips, tripPeriod)
  {
    var periods, groupedByDay := base.periods, base.buckets;
    for j := 0 to |trips|
      invariant Grouping(periods, groupedByDay) == GroupedTrips(base, trips[..j], tripPeriod)
    {
      var day := tripPeriod(trips[j]);
      var stats := BucketOf(groupedByDay, day);
      if day !in periods {
        periods := periods + [day];
      }
      stats := stats.(deliveryCount := stats.deliveryCount + 1);
      groupedByDay := groupedByDay[day := stats];
      assert trips[..j + 1][..j] == trips[..j];
    }
    assert trips[..|trips|] == trips;
    groups := Grouping(periods, groupedByDay);
  }

  predicate SortedBy(dateOf: string -> Civil, periods: seq<string>) {
    forall i, j :: 0 <= i < j < |periods| ==> NotLater(dateOf(periods[i]), dateOf(periods[j]))
  }

  /** Put a period behind all periods that are not later. */
  function InsertPeriod(dateOf: string -> Civil, periods: seq<string>, period: string): (r: seq<string>)
    requires SortedBy(dateOf, periods)
    ensures SortedBy(dateOf, r) && multiset(r) == multiset(periods) + multiset{period}
    ensures forall k :: 0 <= k < |r| ==> r[k] in periods || r[k] == period
  {
    if periods == [] || NotLater(dateOf(periods[|periods| - 1]), dateOf(period)) then periods + [period]
    else
      var front, last := periods[..|periods| - 1], periods[|periods| - 1];
      assert periods == front + [last];
      InsertPeriod(dateOf, front, period) + [last]
  }

  /** The stable sort of the keys by date. */
  function SortPeriods(dateOf: string -> Civil, periods: seq<string>): (r: seq<string>)
    ensures SortedBy(dateOf, r) && multiset(r) == multiset(periods)
  {
    if periods == [] then []
    else
      assert periods == periods[..|periods| - 1] + [periods[|periods| - 1]];
      InsertPeriod(dateOf, SortPeriods(dateOf, periods[..|periods| - 1]), periods[|periods| - 1])
  }

  lemma {:induction false} DistinctByMultiset(periods: seq<string>)
    ensures Distinct(periods) <==> forall period :: multiset(periods)[period] <= 1
  {
    if periods != [] {
      var front, last := periods[..|periods| - 1], periods[|periods| - 1];
      DistinctByMultiset(front);
      assert periods == front + [last];
      assert Distinct(periods) <==> Distinct(front) && last !in front by {
        if last in front {
          var i :| 0 <= i < |front| && front[i] == last;
          assert periods[i] == periods[|periods| - 1];
        }
      }
      assert multiset(periods) == multiset(front) + multiset{last};
      assert last in front <==> multiset(front)[last] >= 1;
      assert multiset(periods)[last] == multiset(front)[last] + 1;
      assert forall period :: period != last ==> multiset(periods)[period] == multiset(front)[period];
    }
  }

  function PeriodsOf(result: seq<DayStats>): seq<string> {
    seq(|result|, i requires 0 <= i < |result| => result[i].period)
  }

  ghost predicate StrictlyChronological(periods: seq<string>) {
    forall i, j :: 0 <= i < j < |periods| ==> Earlier(Parse(periods[i]), Parse(periods[j]))
  }

  /** What the statistics promise of `resultByDay`: distinct periods, one for every day that has an
      order or a delivery and no other, each with exactly the rows of its day; rows with invalid times
      are those of one more period. Without such rows the periods are strictly chronological. */
  ghost predicate IsResult(orders: seq<Order>, trips: seq<Delivery>, civil: Calendar, result: seq<DayStats>) {
    && Distinct(PeriodsOf(result))
    && (AllDated(orders, trips, civil) ==> StrictlyChronological(PeriodsOf(result)))
    && (forall k :: 0 <= k < |result| ==>
          IsBucket(orders, trips, OrderPeriod(civil), TripPeriod(civil), result[k].period, result[k].stats))
    && (forall period :: period in PeriodsOf(result) <==>
          Occurs(orders, trips, OrderPeriod(civil), TripPeriod(civil), period))
  }

  /** Distinct printed periods that are sorted are strictly sorted. */
  lemma SortedStrictly(sorted: seq<string>, i: nat, j: nat, a: Civil, b: Civil)
    requires Distinct(sorted) && SortedBy(Parse, sorted)
    requires i < j < |sorted| && sorted[i] == Print(a) && sorted[j] == Print(b)
    ensures Earlier(Parse(sorted[i]), Parse(sorted[j]))
  {
    ParsePrint(a);
    ParsePrint(b);
    PrintInjective(a, b);
    assert sorted[i] != sorted[j];
    assert NotLater(Parse(sorted[i]), Parse(sorted[j]));
  }

  method SumFees(orders: seq<Order>) returns (totalShippingFee: int)
    ensures totalShippingFee == Total(orders, FeeWeight())
  {
    totalShippingFee := 0;
    for i := 0 to |orders|
      invariant totalShippingFee == Total(orders[..i], FeeWeight())
    {
      totalShippingFee := totalShippingFee + if orders[i].shippingFee.Some? then orders[i].shippingFee.value else 0;
      assert orders[..i + 1][..i] == orders[..i];
    }
    assert orders[..|orders|] == orders;
  }

  /** The groups, as a list in the order of the given periods. */
  function Listed(periods: seq<string>, groupedByDay: map<string, Bucket>): seq<DayStats>
    requires forall period :: period in periods ==> period in groupedByDay
  {
    seq(|periods|, i requires 0 <= i < |periods| => DayStats(periods[i], groupedByDay[periods[i]]))
  }

  lemma OccursPrinted(orders: seq<Order>, trips: seq<Delivery>, civil: Calendar, period: string)
    returns (day: Option<Civil>)
    requires Occurs(orders, trips, OrderPeriod(civil), TripPeriod(civil), period)
    ensures period == PeriodText(day)
    ensures AllDated(orders, trips, civil) ==> day.Some?
    ensures AllInCentury(orders, trips, civil) ==> InCentury(day)
  {
    if k :| 0 <= k < |orders| && OrderPeriod(civil)(orders[k]) == period {
      day := OrderDay(civil, orders[k]);
    } else {
      var k :| 0 <= k < |trips| && TripPeriod(civil)(trips[k]) == period;
      day := TripDay(civil, trips[k]);
    }
  }

  lemma GroupsOccur(orders: seq<Order>, trips: seq<Delivery>, orderPeriod: PeriodOf<Order>,
                    tripPeriod: PeriodOf<Delivery>, periods: seq<string>, groupedByDay: map<string, Bucket>,
                    period: string)
    requires Groups(orders, trips, orderPeriod, tripPeriod, periods, groupedByDay)
    ensures period in periods <==> Occurs(orders, trips, orderPeriod, tripPeriod, period)
  {
  }

  lemma SortedGroupsAreResult(orders: seq<Order>, trips: seq<Delivery>, civil: Calendar, periods: seq<string>,
                              groupedByDay: map<string, Bucket>, sorted: seq<string>)
    requires Groups(orders, trips, OrderPeriod(civil), TripPeriod(civil), periods, groupedByDay)
    requires Distinct(sorted) && (NO_DAY !in periods ==> SortedBy(Parse, sorted))
    requires forall period :: period in sorted <==> period in periods
    ensures IsResult(orders, trips, civil, Listed(sorted, groupedByDay))
  {
    var result := Listed(sorted, groupedByDay);
    assert PeriodsOf(result) == sorted;
    forall period
      ensures period in sorted <==> Occurs(orders, trips, OrderPeriod(civil), TripPeriod(civil), period)
    {
      GroupsOccur(orders, trips, OrderPeriod(civil), TripPeriod(civil), periods, groupedByDay, period);
    }
    if AllDated(orders, trips, civil) {
      SortedChronologically(orders, trips, civil, sorted);
    }
    forall k | 0 <= k < |result|
      ensures IsBucket(orders, trips, OrderPeriod(civil), TripPeriod(civil), result[k].period, result[k].stats)
    {
      assert sorted[k] in groupedByDay;
    }
  }

  lemma SortedChronologically(orders: seq<Order>, trips: seq<Delivery>, civil: Calendar, sorted: seq<string>)
    requires AllDated(orders, trips, civil)
    requires Distinct(sorted) && (NO_DAY !in sorted ==> SortedBy(Parse, sorted))
    requires forall period :: period in sorted ==>
               Occurs(orders, trips, OrderPeriod(civil), TripPeriod(civil), period)
    ensures StrictlyChronological(sorted)
  {
    if NO_DAY in sorted {
      var day := OccursPrinted(orders, trips, civil, NO_DAY);
      PrintIsDay(day.value);
      assert false;
    }
    forall i, j | 0 <= i < j < |sorted| ensures Earlier(Parse(sorted[i]), Parse(sorted[j])) {
      var a := OccursPrinted(orders, trips, civil, sorted[i]);
      var b := OccursPrinted(orders, trips, civil, sorted[j]);
      SortedStrictly(sorted, i, j, a.value, b.value);
    }
  }

  lemma SameMembers(periods: seq<string>, arranged: seq<string>)
    requires Distinct(periods) && multiset(arranged) == multiset(periods)
    ensures forall period :: period in arranged <==> period in periods
    ensures Distinct(arranged)
  {
    assert forall period :: period in arranged <==> period in multiset(arranged);
    assert forall period :: period in periods <==> period in multiset(periods);
    DistinctByMultiset(periods);
    DistinctByMultiset(arranged);
  }

  /** The loops and the sort of getOrdersStatsForStaff, from the rows its two queries return. A period
      of invalid times makes the comparison of the sort inconsistent; `arrange` is what the runtime's
      sort then makes of a list. */
  method Summarize(orders: seq<Order>, trips: seq<Delivery>, civil: Calendar, arrange: seq<string> -> seq<string>)
    returns (totalOrders: nat, totalShippingFee: int, resultByDay: seq<DayStats>)
    requires forall periods :: multiset(arrange(periods)) == multiset(periods)
    ensures totalOrders == |orders| && totalShippingFee == Total(orders, FeeWeight())
    ensures IsResult(orders, trips, civil, resultByDay)
  {
    totalOrders := |orders|;
    totalShippingFee := SumFees(orders);
    var groups := GroupOrders(orders, OrderPeriod(civil));
    GroupedOrdersAreGroups(orders, OrderPeriod(civil), TripPeriod(civil));
    GroupedTripsAreGroups(orders, trips, OrderPeriod(civil), TripPeriod(civil), groups);
    groups := GroupTrips(groups, trips, TripPeriod(civil));
    var sorted := if NO_DAY in groups.periods then arrange(groups.periods) else SortPeriods(Parse, groups.periods);
    SameMembers(groups.periods, sorted);
    SortedGroupsAreResult(orders, trips, civil, groups.periods, groups.buckets, sorted);
    resultByDay := Listed(sorted, groups.buckets);
  }

  /** One column of the result, summed. */
  function SumColumn(result: seq<DayStats>, column: Bucket -> int): int {
    if result == [] then 0 else SumColumn(result[..|result| - 1], column) + column(result[|result| - 1].stats)
  }

  lemma {:induction false} ColumnIsSumOver<T>(result: seq<DayStats>, column: Bucket -> int, rows: seq<T>,
                                              periodOf: PeriodOf<T>, weightOf: T -> int)
    requires forall k :: 0 <= k < |result| ==>
             column(result[k].stats) == SumOn(rows, periodOf, weightOf, result[k].period)
    ensures SumColumn(result, column) == SumOver(rows, periodOf, weightOf, PeriodsOf(result))
  {
    if result != [] {
      var front := result[..|result| - 1];
      ColumnIsSumOver(front, column, rows, periodOf, weightOf);
      assert PeriodsOf(result)[..|result| - 1] == PeriodsOf(front);
    }
  }

  lemma {:induction false} TotalOfOnes<T>(rows: seq<T>)
    ensures Total(rows, One<T>()) == |rows|
  {
    if rows != [] {
      TotalOfOnes(rows[..|rows| - 1]);
    }
  }

  lemma ResultCovers(orders: seq<Order>, trips: seq<Delivery>, civil: Calendar, result: seq<DayStats>)
    requires IsResult(orders, trips, civil, result)
    ensures Distinct(PeriodsOf(result))
    ensures forall k :: 0 <= k < |orders| ==> OrderPeriod(civil)(orders[k]) in PeriodsOf(result)
    ensures forall k :: 0 <= k < |trips| ==> TripPeriod(civil)(trips[k]) in PeriodsOf(result)
  {
  }

  /** Summed over all days, the three columns are the totals of the input lists. */
  lemma StatisticsConserve(orders: seq<Order>, trips: seq<Delivery>, civil: Calendar, result: seq<DayStats>)
    requires IsResult(orders, trips, civil, result)
    ensures SumColumn(result, (b: Bucket) => b.orderCount) == |orders|
    ensures SumColumn(result, (b: Bucket) => b.totalShippingFee) == Total(orders, FeeWeight())
    ensures SumColumn(result, (b: Bucket) => b.deliveryCount) == |trips|
  {
    var periods := PeriodsOf(result);
    ResultCovers(orders, trips, civil, result);
    ColumnIsSumOver(result, (b: Bucket) => b.orderCount, orders, OrderPeriod(civil), One<Order>());
    ColumnIsSumOver(result, (b: Bucket) => b.totalShippingFee, orders, OrderPeriod(civil), FeeWeight());
    ColumnIsSumOver(result, (b: Bucket) => b.deliveryCount, trips, TripPeriod(civil), One<Delivery>());
    Conservation(orders, OrderPeriod(civil), One<Order>(), periods);
    Conservation(orders, OrderPeriod(civil), FeeWeight(), periods);
    Conservation(trips, TripPeriod(civil), One<Delivery>(), periods);
    TotalOfOnes(orders);
    TotalOfOnes(trips);
  }

  ghost function SumIf<T>(rows: seq<T>, counts: T -> bool, weightOf: T -> int): int {
    if rows == [] then 0
    else
      var last := rows[|rows| - 1];
      SumIf(rows[..|rows| - 1], counts, weightOf) + if counts(last) then weightOf(last) else 0
  }

  lemma {:induction false} SumOnIsSumIf<T>(rows: seq<T>, periodOf: PeriodOf<T>, weightOf: T -> int, period: string,
                                           counts: T -> bool)
    requires forall k :: 0 <= k < |rows| ==> (periodOf(rows[k]) == period <==> counts(rows[k]))
    ensures SumOn(rows, periodOf, weightOf, period) == SumIf(rows, counts, weightOf)
  {
    if rows != [] {
      SumOnIsSumIf(rows[..|rows| - 1], periodOf, weightOf, period, counts);
    }
  }

  function OrderOn(civil: Calendar, day: Option<Civil>): Order -> bool {
    (order: Order) => OrderDay(civil, order) == day
  }

  function TripOn(civil: Calendar, day: Option<Civil>): Delivery -> bool {
    (trip: Delivery) => TripDay(civil, trip) == day
  }

  /** A bucket holds exactly the rows of a calendar day, or, for no day, those with invalid times. */
  ghost predicate IsDayBucket(orders: seq<Order>, trips: seq<Delivery>, civil: Calendar, day: Option<Civil>,
                              stats: Bucket) {
    && stats.orderCount == SumIf(orders, OrderOn(civil, day), One<Order>())
    && stats.totalShippingFee == SumIf(orders, OrderOn(civil, day), FeeWeight())
    && stats.deliveryCount == SumIf(trips, TripOn(civil, day), One<Delivery>())
  }

  predicate InCentury(day: Option<Civil>) {
    day.Some? ==> 2000 <= day.value.year < 2100
  }

  ghost predicate AllInCentury(orders: seq<Order>, trips: seq<Delivery>, civil: Calendar) {
    && (forall k :: 0 <= k < |orders| ==> InCentury(OrderDay(civil, orders[k])))
    && (forall k :: 0 <= k < |trips| ==> InCentury(TripDay(civil, trips[k])))
  }

  /** The day a period names. */
  function DayOf(period: string): Option<Civil> {
    if period == NO_DAY then None else Some(Parse(period))
  }

  lemma PeriodTextNamesDay(a: Option<Civil>)
    requires InCentury(a)
    ensures DayOf(PeriodText(a)) == a
  {
    if a.Some? {
      ParsePrint(a.value);
      SameCentury(a.value.year);
      PrintIsDay(a.value);
    }
  }

  lemma PeriodIsDay(orders: seq<Order>, trips: seq<Delivery>, civil: Calendar, day: Option<Civil>, stats: Bucket)
    requires AllInCentury(orders, trips, civil) && InCentury(day)
    requires IsBucket(orders, trips, OrderPeriod(civil), TripPeriod(civil), PeriodText(day), stats)
    ensures IsDayBucket(orders, trips, civil, day, stats)
  {
    var period := PeriodText(day);
    PeriodTextNamesDay(day);
    forall k | 0 <= k < |orders| ensures OrderPeriod(civil)(orders[k]) == period <==> OrderOn(civil, day)(orders[k]) {
      PeriodTextNamesDay(OrderDay(civil, orders[k]));
    }
    forall k | 0 <= k < |trips| ensures TripPeriod(civil)(trips[k]) == period <==> TripOn(civil, day)(trips[k]) {
      PeriodTextNamesDay(TripDay(civil, trips[k]));
    }
    SumOnIsSumIf(orders, OrderPeriod(civil), One<Order>(), period, OrderOn(civil, day));
    SumOnIsSumIf(orders, OrderPeriod(civil), FeeWeight(), period, OrderOn(civil, day));
    SumOnIsSumIf(trips, TripPeriod(civil), One<Delivery>(), period, TripOn(civil, day));
  }

  lemma BucketNamesDay(orders: seq<Order>, trips: seq<Delivery>, civil: Calendar, result: seq<DayStats>, k: nat)
    requires IsResult(orders, trips, civil, result) && AllInCentury(orders, trips, civil) && k < |result|
    ensures var day := DayOf(result[k].period);
            && result[k].period == PeriodText(day) && (AllDated(orders, trips, civil) ==> day.Some?)
            && IsDayBucket(orders, trips, civil, day, result[k].stats)
  {
    assert PeriodsOf(result)[k] in PeriodsOf(result);
    var day := OccursPrinted(orders, trips, civil, result[k].period);
    PeriodTextNamesDay(day);
    PeriodIsDay(orders, trips, civil, day, result[k].stats);
  }

  /** The days the periods of a result name. */
  function DaysOf(result: seq<DayStats>): seq<Option<Civil>> {
    seq(|result|, k requires 0 <= k < |result| => DayOf(result[k].period))
  }

  /** As long as the server's calendar stays between 2000 and 2099, each bucket counts exactly the rows
      of one calendar day, or those with invalid times; ... */
  lemma ResultNamesDays(orders: seq<Order>, trips: seq<Delivery>, civil: Calendar, result: seq<DayStats>)
    requires IsResult(orders, trips, civil, result) && AllInCentury(orders, trips, civil)
    ensures forall k :: 0 <= k < |result| ==>
              result[k].period == PeriodText(DaysOf(result)[k]) &&
              IsDayBucket(orders, trips, civil, DaysOf(result)[k], result[k].stats)
  {
    forall k | 0 <= k < |result|
      ensures result[k].period == PeriodText(DaysOf(result)[k])
      ensures IsDayBucket(orders, trips, civil, DaysOf(result)[k], result[k].stats)
    {
      BucketNamesDay(orders, trips, civil, result, k);
    }
  }

  /** ... if all times are valid, the days are strictly later and later; ... */
  lemma DaysChronological(orders: seq<Order>, trips: seq<Delivery>, civil: Calendar, result: seq<DayStats>, i: nat,
                          j: nat)
    requires IsResult(orders, trips, civil, result) && AllInCentury(orders, trips, civil)
    requires AllDated(orders, trips, civil) && i < j < |result|
    ensures DaysOf(result)[i].Some? && DaysOf(result)[j].Some?
    ensures Earlier(DaysOf(result)[i].value, DaysOf(result)[j].value)
  {
    BucketNamesDay(orders, trips, civil, result, i);
    BucketNamesDay(orders, trips, civil, result, j);
    assert PeriodsOf(result)[i] == result[i].period && PeriodsOf(result)[j] == result[j].period;
  }

  /** ... and every row's day has a bucket. */
  lemma DaysCover(orders: seq<Order>, trips: seq<Delivery>, civil: Calendar, result: seq<DayStats>)
    requires IsResult(orders, trips, civil, result) && AllInCentury(orders, trips, civil)
    ensures forall k :: 0 <= k < |orders| ==> OrderDay(civil, orders[k]) in DaysOf(result)
    ensures forall k :: 0 <= k < |trips| ==> TripDay(civil, trips[k]) in DaysOf(result)
  {
    ResultCovers(orders, trips, civil, result);
    forall k | 0 <= k < |orders| ensures OrderDay(civil, orders[k]) in DaysOf(result) {
      assert OrderPeriod(civil)(orders[k]) in PeriodsOf(result);
      DayListed(result, OrderDay(civil, orders[k]));
    }
    forall k | 0 <= k < |trips| ensures TripDay(civil, trips[k]) in DaysOf(result) {
      assert TripPeriod(civil)(trips[k]) in PeriodsOf(result);
      DayListed(result, TripDay(civil, trips[k]));
    }
  }

  lemma DayListed(result: seq<DayStats>, day: Option<Civil>)
    requires InCentury(day) && PeriodText(day) in PeriodsOf(result)
    ensures day in DaysOf(result)
  {
    var k :| 0 <= k < |result| && PeriodsOf(result)[k] == PeriodText(day);
    PeriodTextNamesDay(day);
    assert DaysOf(result)[k] == day;
  }

  /** The two queries of getOrdersStatsForStaff: the delivered orders and the finished deliveries of
      the staff member since the start time. Times are compared as texts. */
  datatype Span = Week | Month | Year

  function SpanDays(span: Span): nat {
    match span
    case Week => 7
    case Month => 30
    case Year => 365
  }

  function StartText(now: nat, span: Span): string {
    var start: int := now - SpanDays(span) * 24 * 60 * 60;
    if start < 0 then "-" + ToText(-start) else ToText(start)
  }

  predicate CountsOrder(order: Order, staffId: Id, start: string) {
    order.shipperId == Some(staffId) && order.latestStatus == Delivered &&
    order.deliveryDate.Some? && TextLeq(start, order.deliveryDate.value)
  }

  function CountedOrders(orders: map<Id, Order>, staffId: Id, start: string): set<Id> {
    set id | id in orders && CountsOrder(orders[id], staffId, start)
  }

  predicate CountsTrip(trip: Delivery, staffId: Id, start: string) {
    trip.staffId == Some(staffId) && trip.latestStatus == TripFinished && TextLeq(start, trip.createdAt)
  }

  function RowsOf<T>(table: map<Id, T>, ids: seq<Id>): seq<T>
    requires forall id :: id in ids ==> id in table
  {
    seq(|ids|, k requires 0 <= k < |ids| => table[ids[k]])
  }

  /** How long ago a span begins. */
  function SpanSeconds(span: Span): nat {
    match span
    case Week => 604_800
    case Month => 2_592_000
    case Year => 31_536_000
  }

  /** The orders the staff member has delivered, as far as they were due from a start time on. */
  ghost function DeliveredSince(orders: map<Id, Order>, staffId: Id, start: string): set<Id> {
    set id | id in orders && orders[id].shipperId == Some(staffId) && orders[id].latestStatus == Delivered &&
             orders[id].deliveryDate != None && TextLeq(start, orders[id].deliveryDate.value)
  }

  lemma StartTextExactly(now: nat, span: Span)
    requires now >= SpanSeconds(span)
    ensures StartText(now, span) == ToText(now - SpanSeconds(span))
  {
  }

  /** An order is counted exactly if the staff member has delivered it and it was due within the last 7,
      30 or 365 days, as long as all times have ten digits. */
  lemma CountedOrderExactly(order: Order, staffId: Id, seconds: nat, now: nat, span: Span)
    requires order.deliveryDate == Some(ToText(seconds)) && TenDigits(seconds)
    requires now >= SpanSeconds(span) && TenDigits(now - SpanSeconds(span))
    ensures CountsOrder(order, staffId, StartText(now, span)) <==>
            order.shipperId == Some(staffId) && order.latestStatus == Delivered && now - seconds <= SpanSeconds(span)
  {
    StartTextExactly(now, span);
    SinceStart(seconds, now, SpanSeconds(span));
  }

  lemma SinceStart(seconds: nat, now: nat, length: nat)
    requires now >= length && TenDigits(now - length) && TenDigits(seconds)
    ensures TextLeq(ToText(now - length), ToText(seconds)) <==> now - seconds <= length
  {
    ClockOrder(now - length, seconds);
  }

  /** A delivery is counted exactly if the staff member has finished it and it was created within the
      span. */
  lemma CountedTripExactly(trip: Delivery, staffId: Id, seconds: nat, now: nat, span: Span)
    requires trip.createdAt == ToText(seconds) && TenDigits(seconds)
    requires now >= SpanSeconds(span) && TenDigits(now - SpanSeconds(span))
    ensures CountsTrip(trip, staffId, StartText(now, span)) <==>
            trip.staffId == Some(staffId) && trip.latestStatus == TripFinished && now - seconds <= SpanSeconds(span)
  {
    StartTextExactly(now, span);
    SinceStart(seconds, now, SpanSeconds(span));
  }

  /** The fees of some orders. */
  function Fees(orders: seq<Order>): int {
    if orders == [] then 0
    else Fees(orders[1..]) + match orders[0].shippingFee case Some(fee) => fee case None => 0
  }

  lemma {:induction false} TotalFees(orders: seq<Order>)
    ensures Total(orders, FeeWeight()) == Fees(orders)
  {
    if orders != [] {
      TotalFees(orders[1..]);
      TotalFirst(orders, FeeWeight());
    }
  }

  lemma {:induction false} TotalFirst<T>(rows: seq<T>, weightOf: T -> int)
    requires rows != []
    ensures Total(rows, weightOf) == weightOf(rows[0]) + Total(rows[1..], weightOf)
  {
    var front := rows[..|rows| - 1];
    if front != [] {
      TotalFirst(front, weightOf);
      assert front[1..] == rows[1..][..|rows[1..]| - 1];
    }
  }
}
