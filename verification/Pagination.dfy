/** The order list: the filter of getOrders and its pages. */
module Pagination {
  import opened Model
  import opened OrderService
  import opened Integrity
  import Decimal

  /** Whether one order does not come after another by a column, in the database's order. */
  type Column = (Order, Order) -> bool

  /** The query of getOrders. `startDay` and `endDay` are UTC days. */
  datatype OrderQuery = OrderQuery(
    page: nat,
    size: nat,
    search: Option<string>,
    status: Option<OrderStatus>,
    isPaid: Option<bool>,
    sortBy: Option<Column>,
    descending: bool,
    startDay: Option<nat>,
    endDay: Option<nat>)

  /** Whether the database finds a search text in a column, without regard to case. */
  type Finder = (string, string) -> bool

  /** The `where` clause. Dates are compared as texts; an absent date matches no bound, and an absent
      product no search. */
  predicate Where(order: Order, query: OrderQuery, caller: Caller, finds: Finder) {
    && (caller.role == Student ==> order.studentId == Some(caller.id))
    && (Given(query.search) ==>
          finds(query.search.value, order.checkCode) ||
          (order.product.Some? && finds(query.search.value, order.product.value)))
    && (query.status.Some? ==> order.latestStatus == query.status.value)
    && (query.isPaid.Some? ==> order.isPaid == query.isPaid.value)
    && DateFilter(order, query)
  }

  /** Why an order is not listed: it is not the student's own, the search text is in neither column, or
      status, paid flag or date are not the requested ones. */
  predicate Excluded(order: Order, query: OrderQuery, caller: Caller, finds: Finder) {
    || (caller.role == Student && order.studentId != Some(caller.id))
    || (query.search.Some? && query.search.value != "" && !finds(query.search.value, order.checkCode) &&
        (order.product == None || !finds(query.search.value, order.product.value)))
    || (query.status.Some? && query.status.value != order.latestStatus)
    || (query.isPaid.Some? && query.isPaid.value != order.isPaid)
    || !DateFilter(order, query)
  }

  ghost function Unexcluded(orders: map<Id, Order>, query: OrderQuery, caller: Caller, finds: Finder): set<Id> {
    set id | id in orders && !Excluded(orders[id], query, caller, finds)
  }

  /** The list leaves out an order for one of these reasons and for no other. */
  lemma WhereExactly(order: Order, query: OrderQuery, caller: Caller, finds: Finder)
    ensures Where(order, query, caller, finds) <==> !Excluded(order, query, caller, finds)
  {
  }

  predicate Unfiltered(query: OrderQuery) {
    !Given(query.search) && query.status.None? && query.isPaid.None? && query.startDay.None? && query.endDay.None?
  }

  /** A query without filters lists all orders for an admin or a staff member, and for a student
      exactly the student's own. */
  lemma UnfilteredListsAll(orders: map<Id, Order>, query: OrderQuery, caller: Caller, finds: Finder)
    requires Unfiltered(query)
    ensures caller.role != Student ==> Matching(orders, query, caller, finds) == orders.Keys
    ensures caller.role == Student ==>
              Matching(orders, query, caller, finds) == set id | id in orders && orders[id].studentId == Some(caller.id)
  {
  }

  predicate LowerBound(order: Order, query: OrderQuery) {
    query.startDay.Some? ==>
      order.deliveryDate.Some? && Decimal.TextLeq(DateText(query.startDay.value), order.deliveryDate.value)
  }

  predicate UpperBound(order: Order, query: OrderQuery) {
    query.endDay.Some? ==>
      order.deliveryDate.Some? && Decimal.TextLeq(order.deliveryDate.value, DateText(query.endDay.value + 1))
  }

  predicate DateFilter(order: Order, query: OrderQuery) {
    LowerBound(order, query) && UpperBound(order, query)
  }

  /** The requested order of two rows. */
  predicate InOrder(a: Order, b: Order, query: OrderQuery) {
    query.sortBy.None? || (if query.descending then query.sortBy.value(b, a) else query.sortBy.value(a, b))
  }

  predicate SortedRows(orders: map<Id, Order>, rows: seq<Id>, query: OrderQuery) {
    forall i, j :: 0 <= i < j < |rows| && rows[i] in orders && rows[j] in orders ==>
      InOrder(orders[rows[i]], orders[rows[j]], query)
  }

  function Matching(orders: map<Id, Order>, query: OrderQuery, caller: Caller, finds: Finder): set<Id> {
    set id | id in orders && Where(orders[id], query, caller, finds)
  }

  /** An order as the list shows it: its status is that of the history row found as the latest. */
  function Reported(order: Order, latest: nat): Order {
    if latest < |order.history| then order.(latestStatus := order.history[latest].status) else order
  }

  /** A row of the list: the order, its history, and the user row of its shipper. */
  datatype ListedOrder = ListedOrder(order: Order, historyTime: seq<StatusRow>, staff: Option<User>)

  /** What `orderBy: { time: 'desc' }` makes of a history: all its rows, the latest texts first. */
  ghost predicate NewestFirst(history: seq<StatusRow>, fetched: seq<StatusRow>) {
    && multiset(fetched) == multiset(history)
    && forall i, j :: 0 <= i < j < |fetched| ==> Decimal.TextLeq(fetched[j].time, fetched[i].time)
  }

  /** A list of all matching orders, none twice, is as long as there are matching orders. */
  lemma CountMatching(orders: map<Id, Order>, query: OrderQuery, caller: Caller, finds: Finder, rows: seq<Id>)
    requires NoDuplicates(rows)
    requires forall id :: id in rows <==> id in orders && Where(orders[id], query, caller, finds)
    ensures |rows| == |Matching(orders, query, caller, finds)|
  {
    var matching := Matching(orders, query, caller, finds);
    assert Among(rows, matching) == matching;
    DistinctCount(rows, matching);
  }

  function Min(x: nat, y: nat): nat {
    if x < y then x else y
  }

  /** `skip: (page - 1) * size, take: size`. */
  function Page<T>(rows: seq<T>, page: nat, size: nat): (r: seq<T>)
    requires page >= 1
    ensures |r| <= size
  {
    var from := Min((page - 1) * size, |rows|);
    rows[from..Min(from + size, |rows|)]
  }

  /** `Math.ceil(totalElements / size)`. */
  function TotalPages(totalElements: nat, size: nat): nat
    requires size >= 1
  {
    (totalElements + size - 1) / size
  }

  /** Pages 1 to `count`, one after the other. */
  function Pages<T>(rows: seq<T>, count: nat, size: nat): seq<T> {
    if count == 0 then [] else Pages(rows, count - 1, size) + Page(rows, count, size)
  }

  lemma {:induction false} PagesArePrefix<T>(rows: seq<T>, count: nat, size: nat)
    ensures Pages(rows, count, size) == rows[..Min(count * size, |rows|)]
  {
    if count > 0 {
      PagesArePrefix(rows, count - 1, size);
      assert count * size == (count - 1) * size + size;
    }
  }

  lemma CeilingBounds(n: nat, size: nat)
    requires size >= 1
    ensures TotalPages(n, size) * size >= n
    ensures n > 0 ==> TotalPages(n, size) >= 1 && (TotalPages(n, size) - 1) * size < n
    ensures n == 0 ==> TotalPages(n, size) == 0
  {
  }

  /** The pages 1 to `totalPages`, put together, are the whole list. */
  lemma PagesCover<T>(rows: seq<T>, size: nat)
    requires size >= 1
    ensures Pages(rows, TotalPages(|rows|, size), size) == rows
  {
    CeilingBounds(|rows|, size);
    PagesArePrefix(rows, TotalPages(|rows|, size), size);
  }

  lemma ScaleMonotone(x: int, y: int, size: nat)
    requires x <= y
    ensures x * size <= y * size
  {
  }

  /** All pages before the last are full, the last one is not empty, and later ones are. */
  lemma PageSizes<T>(rows: seq<T>, page: nat, size: nat)
    requires size >= 1 && page >= 1
    ensures page < TotalPages(|rows|, size) ==> |Page(rows, page, size)| == size
    ensures page == TotalPages(|rows|, size) ==> 1 <= |Page(rows, page, size)| <= size
    ensures page > TotalPages(|rows|, size) ==> Page(rows, page, size) == []
  {
    var pages := TotalPages(|rows|, size);
    CeilingBounds(|rows|, size);
    assert (page - 1) * size + size == page * size;
    if page < pages {
      ScaleMonotone(page, pages - 1, size);
    } else if page > pages {
      ScaleMonotone(pages, page - 1, size);
    }
  }

  /** Where a row is: row `i` is entry `i % size` of page `i / size + 1`, and no other entry of any
      page stands for it. */
  lemma RowPlace<T>(rows: seq<T>, i: nat, size: nat, page: nat, j: nat)
    requires size >= 1 && i < |rows| && page >= 1
    ensures (j < |Page(rows, page, size)| && (page - 1) * size + j == i) <==> (page == i / size + 1 && j == i % size)
    ensures page == i / size + 1 && j == i % size ==>
            j < |Page(rows, page, size)| && Page(rows, page, size)[j] == rows[i]
  {
    var q := i / size;
    assert i == q * size + i % size;
    if j < |Page(rows, page, size)| && (page - 1) * size + j == i {
      DivisionUnique(size, q, i % size, page - 1, j);
    }
    if page == q + 1 && j == i % size {
      assert (page - 1) * size == q * size;
    }
  }

  /** Of a list without repetitions, every row is on exactly one page. */
  lemma RowOnOnePage<T>(rows: seq<T>, i: nat, size: nat, page: nat)
    requires size >= 1 && i < |rows| && page >= 1
    requires forall j, k :: 0 <= j < k < |rows| ==> rows[j] != rows[k]
    ensures rows[i] in Page(rows, page, size) <==> page == i / size + 1
  {
    if rows[i] in Page(rows, page, size) {
      var j: nat :| j < |Page(rows, page, size)| && Page(rows, page, size)[j] == rows[i];
      assert rows[(page - 1) * size + j] == rows[i];
      RowPlace(rows, i, size, page, j);
    }
    RowPlace(rows, i, size, page, i % size);
  }

  /** The requested order holds within every page and from page to page. */
  lemma PagesInOrder(orders: map<Id, Order>, rows: seq<Id>, query: OrderQuery, page: nat, j: nat, page': nat, j': nat,
                     size: nat)
    requires SortedRows(orders, rows, query) && (forall id :: id in rows ==> id in orders)
    requires 1 <= page && 1 <= page' && j < |Page(rows, page, size)| && j' < |Page(rows, page', size)|
    requires page < page' || (page == page' && j < j')
    ensures Page(rows, page, size)[j] in orders && Page(rows, page', size)[j'] in orders
    ensures InOrder(orders[Page(rows, page, size)[j]], orders[Page(rows, page', size)[j']], query)
  {
    var i, i' := (page - 1) * size + j, (page' - 1) * size + j';
    assert Page(rows, page, size)[j] == rows[i] && Page(rows, page', size)[j'] == rows[i'];
    if page < page' {
      ScaleMonotone(page, page' - 1, size);
      assert (page - 1) * size + size == page * size;
    }
  }

  lemma DivisionUnique(size: nat, q: int, r: int, q': int, r': int)
    requires 0 <= r < size && 0 <= r' < size && q * size + r == q' * size + r'
    ensures q == q' && r == r'
  {
    if q < q' {
      ScaleMonotone(q + 1, q', size);
    } else if q' < q {
      ScaleMonotone(q' + 1, q, size);
    }
  }

  predicate FromStart(seconds: nat, query: OrderQuery) {
    query.startDay.Some? ==> FirstSecond(query.startDay.value) <= seconds
  }

  predicate UntilEnd(seconds: nat, query: OrderQuery) {
    query.endDay.Some? ==> seconds <= FirstSecond(query.endDay.value + 1)
  }

  /** What the date filter should select: `endDay` with all its seconds, up to the first of the next. */
  predicate InRange(seconds: nat, query: OrderQuery) {
    FromStart(seconds, query) && UntilEnd(seconds, query)
  }

  predicate TenDigitQuery(query: OrderQuery) {
    && (query.startDay.Some? ==> Decimal.TenDigits(FirstSecond(query.startDay.value)))
    && (query.endDay.Some? ==> Decimal.TenDigits(FirstSecond(query.endDay.value + 1)))
  }

  /** The text comparisons of the date filter select what the numbers would, as long as all dates
      have ten digits. */
  lemma DateFilterIsNumeric(order: Order, seconds: nat, query: OrderQuery)
    requires order.deliveryDate == Some(Decimal.ToText(seconds))
    requires Decimal.TenDigits(seconds) && TenDigitQuery(query)
    ensures DateFilter(order, query) <==> InRange(seconds, query)
  {
    if query.startDay.Some? {
      Decimal.ClockOrder(FirstSecond(query.startDay.value), seconds);
    }
    if query.endDay.Some? {
      Decimal.ClockOrder(seconds, FirstSecond(query.endDay.value + 1));
    }
  }

  /** An order without a date is found exactly if no bound is given. */
  lemma UndatedOrders(order: Order, query: OrderQuery)
    requires order.deliveryDate.None?
    ensures DateFilter(order, query) <==> query.startDay.None? && query.endDay.None?
  {
  }

  /** The filter includes its upper bound, and the dates that createOrder stores are midnights: an
      order for a day is found from its day on up to the day after `endDay`. */
  lemma DateFilterDays(order: Order, day: nat, query: OrderQuery)
    requires order.deliveryDate == Some(DateText(day))
    requires Decimal.TenDigits(FirstSecond(day)) && TenDigitQuery(query)
    ensures DateFilter(order, query) <==>
            (query.startDay.Some? ==> query.startDay.value <= day) &&
            (query.endDay.Some? ==> day <= query.endDay.value + 1)
  {
    DateFilterIsNumeric(order, FirstSecond(day), query);
  }

  /** A bound is absent, or its text comparison with the date is the comparison of the numbers. */
  predicate LowerSorts(seconds: nat, query: OrderQuery) {
    query.startDay.Some? ==> Decimal.SortsAsNumbers(FirstSecond(query.startDay.value), seconds)
  }

  predicate UpperSorts(seconds: nat, query: OrderQuery) {
    query.endDay.Some? ==> Decimal.SortsAsNumbers(seconds, FirstSecond(query.endDay.value + 1))
  }

  /** Whatever the digits, a bound selects what the number would exactly if the two dates sort as
      texts the way they do as numbers. */
  lemma LowerBoundExactly(order: Order, seconds: nat, query: OrderQuery)
    requires order.deliveryDate == Some(Decimal.ToText(seconds))
    ensures (LowerBound(order, query) <==> FromStart(seconds, query)) <==> LowerSorts(seconds, query)
  {
    if query.startDay.Some? {
      Decimal.TextOrderExactly(FirstSecond(query.startDay.value), seconds);
    }
  }

  lemma UpperBoundExactly(order: Order, seconds: nat, query: OrderQuery)
    requires order.deliveryDate == Some(Decimal.ToText(seconds))
    ensures (UpperBound(order, query) <==> UntilEnd(seconds, query)) <==> UpperSorts(seconds, query)
  {
    if query.endDay.Some? {
      Decimal.TextOrderExactly(seconds, FirstSecond(query.endDay.value + 1));
    }
  }

  /** The whole filter selects what the numbers would exactly if both bounds sort as numbers, or one
      that does not is masked: the order is excluded by the other bound, or both are wrong about an
      order that lies within one of them only. */
  lemma DateFilterExactly(order: Order, seconds: nat, query: OrderQuery)
    requires order.deliveryDate == Some(Decimal.ToText(seconds))
    ensures (DateFilter(order, query) <==> InRange(seconds, query)) <==>
            match (LowerSorts(seconds, query), UpperSorts(seconds, query))
            case (true, true) => true
            case (true, false) => !FromStart(seconds, query)
            case (false, true) => !UntilEnd(seconds, query)
            case (false, false) => FromStart(seconds, query) != UntilEnd(seconds, query)
  {
    LowerBoundExactly(order, seconds, query);
    UpperBoundExactly(order, seconds, query);
  }

  /** They do not for an order of 9 September 2001 and a list from 10 September 2001 on. */
  lemma EarlierDateSelected(order: Order, query: OrderQuery)
    requires order.deliveryDate == Some(DateText(11574))
    requires query.startDay == Some(11575) && query.endDay == None
    ensures DateFilter(order, query) && !InRange(FirstSecond(11574), query)
  {
    var seconds, start := FirstSecond(11574), FirstSecond(11575);
    Decimal.TenDigitsLength(start);
    Decimal.NineDigitsLength(seconds);
    Decimal.LongerOrder(start, seconds, 1);
    assert Decimal.Leading(start, 1) == Decimal.Leading(start / 10, 0) < seconds;
  }
}
