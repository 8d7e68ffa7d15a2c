# Orders, deliveries and accounts: a verified model

This project models the order and delivery lifecycle of the backend as one shared store, together
with the accounts attached to it: fault counters and bans, fees, payments and webhooks, statistics
and order lists. It proves properties of single calls, of fan-outs in any interleaving, and of
whole runs of any mixture of calls.

How it is laid out:

- `Model.dfy` has a datatype for each table row and `Db`, all tables as one value. Status histories,
  link rows and student rows are fields of the row that owns them, as in the Prisma schema.
- `OrderService.dfy`, `DeliveryService.dfy` and `AccountService.dfy` give, for each service call, a
  function from a `Db` to a `Reply`: the tables left behind, and whether the call returned or threw.
  A call that throws half-way returns what it had already written.
- `Store.dfy` is the imperative side: a class with the tables as fields and a method for each
  service call, with the service's steps and loops. Each method is proved equal to its function, to
  keep the tables intact, and to meet the contract of its call. `ShippingFee.dfy` and
  `Statistics.dfy` hold further loops.
- `OrderContracts.dfy`, `DeliveryContracts.dfy`, `AccountContracts.dfy` and `Registration.dfy` say for
  every call, in terms of columns alone, when it succeeds, why it is refused and what it writes; the
  methods of the store promise the same. `Effects.dfy`, `FanOuts.dfy` and `Histories.dfy` say what a
  call can do to one row.
- `Runs.dfy` lists the calls as data, runs them, and says what it is for something to have happened
  in a run, or since; the other files prove the main results.

What a call takes from its environment is a parameter: new identifiers, the second each write
happens in, the row a query with ties returns first, the result of the webhook signature check, the
calendar of the server. A run theorem holds for all of these.

Where the code does not do what one would expect, the model follows the code, a lemma says exactly
when the expectation holds, and the row below names the condition. `Witnesses.dfy` has runs from an
empty shop that reach the failing states. The main such results:

- Two kinds of refused calls leave writes behind (`Refusals.RefusalExactly`).
- An accepted delivery forces its orders into transport, also those that are not, or no longer,
  RECEIVED_EXTERNAL (`Grammar.StrictExactly`).
- A delay of an order nobody owns yet keeps students from claiming it and lets an admin confirm it
  without an owner (`Claiming.ClaimableExactly`).
- Deleting an order forgets its student faults but not the counter (`Faults.CounterShowsRows`).
- Cash settles an order without collecting, and an order marked paid before it is claimed stays so:
  `isPaid` and the outstanding amount then disagree until a webhook comes in
  (`Ledger.PaidFlagExactly`), and that webhook can turn the order unpaid (`Ledger.WebhookUnpays`).
- A notification that arrives twice counts twice (`Webhooks.RedeliveryExactly`).
- Deactivating a banned student lifts the ban and leaves the counter (`Bans.BannedExactly`), and so
  can an unban where the dormitory has no regulation (`Bans.UnbanLifts`).
- The one-trip rule depends on who presses accept (`Trips.OneTripExactly`).
- `updateDelivery` makes the count and the numbering of a delivery wrong (`RoundTrip.CountExactly`,
  `RoundTrip.SequencesExactly`).
- Within one second a recomputed status may be an older one (`Clocks.SameSecondTie`).
- A later call can blank the picture of a received order (`Grammar.ReceivedImageExactly`).
- A delay to a text that is no number takes the protection of the date away (`Delays.ForwardExactly`).
- The date filter of the order list finds the orders of the day after its end date
  (`Pagination.DateFilterDays`), and compares dates as texts (`Pagination.DateFilterExactly`).

## Model

| member | source | states |
|---|---|---|
| Store.Store.UpdateStatus | src/orders/orders.service.impl.ts:361-468 | succeeds exactly for the steps of an order with what each needs (a cancel: an admin until delivery, a staff member in transport, a student before, with type, reason and picture); then it writes the row, column, pictures, paid flag and fault of the call and nothing else, and refused it writes nothing; references and keys stay intact |
| OrderContracts.UpdateStatusExactly | src/orders/orders.service.impl.ts:366-467 | the same for every call of updateStatus, with the reason of each refusal, stated over explicit pairs of statuses and roles |
| OrderContracts.BanThresholdExactly | src/orders/orders.service.impl.ts:403-410 | the threshold of a ban is the regulation's, or the environment's where there is none or it is zero |
| Store.Store.CreateOrder | src/orders/orders.service.impl.ts:159-332 | createOrder of each role, with its partial writes, does what its function says and keeps the tables intact |
| Store.Store.CreateStudentOrder | src/orders/orders.service.impl.ts:165-268 | succeeds exactly if the student is registered and not banned, does not order for today, and any order with the key is a pending one without owner, date and place; then exactly one order is written, the student's, priced, with address and date, new and pending or accepted by two rows; the tables stay intact |
| Registration.StudentOrderExactly | src/orders/orders.service.impl.ts:165-268 | the success condition, the effect on every column and the reason of each refusal of a student's createOrder, stated without the lookup |
| Store.Store.CreateAdminOrder | src/orders/orders.service.impl.ts:269-328 | succeeds exactly if any order with the key is a pending one that has a date or a place, whoever owns it; then exactly one order is written, a new pending one without an owner, or the one that was there, accepted by two rows and otherwise as it was; refused it writes nothing |
| Registration.AdminOrderExactly | src/orders/orders.service.impl.ts:269-328 | the success condition, the effect and the reason of each refusal of an admin's createOrder, stated without the lookup |
| Registration.StaffOrderRefused | src/orders/orders.service.impl.ts:329-331 | staff may not create orders |
| Claiming.ClaimableExactly | src/orders/orders.service.impl.ts:179-193 | in every reachable state an order without an owner can be claimed if and only if it has not been delayed to a non-empty text, or has been delayed to the empty text since; room, building and dormitory are always absent |
| Claiming.StepUnowned | src/orders/orders.service.impl.ts:179-193 | what one call of any kind does to date and place of an order without an owner |
| Store.Store.CreateOrderStatusHistory | src/orders/utils/order.util.ts:18-46 | the history of the order grows by exactly the row, its status column shows the row's status, a picture that is not given stays, no other column and no other order changes, and references and keys stay intact |
| Store.Store.DeleteOrder | src/orders/orders.service.impl.ts:470-492 | succeeds exactly for an order that is in no delivery and, for a student, whose latest row is pending or rejected; then the order and exactly its payments go |
| OrderContracts.DeleteOrderExactly | src/orders/orders.service.impl.ts:470-492 | the same for every call of deleteOrder |
| Store.Store.DelayOrders | src/orders/orders.service.impl.ts:695-740 | for any timeslot text: succeeds exactly for distinct existing orders that are in no delivery or canceled and not due later; then exactly these get the date, and otherwise nothing changes |
| OrderContracts.DelayOrdersExactly | src/orders/orders.service.impl.ts:695-740 | the same for every call of delayOrders, with the reason of each refusal |
| Store.Store.GetOrders | src/orders/orders.service.impl.ts:60-146 | the requested page, in the requested or the reversed order, of exactly the orders that nothing excludes (a student sees only the student's own; search, status, paid flag and dates narrow the list), their number, the number of pages, and each order with its recomputed status, its history sorted by time and its shipper |
| Pagination.WhereExactly | src/orders/orders.service.impl.ts:66-94 | an order is left out for one of five reasons and for no other |
| Pagination.UnfilteredListsAll | src/orders/orders.service.impl.ts:66-69 | without filters admins and staff see all orders and students exactly their own |
| Pagination.UndatedOrders | src/orders/orders.service.impl.ts:82-94 | an order without a date is found exactly if no bound is given |
| Store.Store.GetOrdersStatsForStaff | src/orders/orders.service.impl.ts:516-605 | the orders the staff member has delivered and the deliveries finished since the start time are counted, summed and grouped by day |
| Statistics.CountedOrderExactly | src/orders/orders.service.impl.ts:523-547 | for ten-digit seconds, an order counts exactly if the staff member has delivered it and it was due within 7, 30 or 365 days |
| Statistics.CountedTripExactly | src/orders/orders.service.impl.ts:550-558 | and a delivery exactly if the staff member has finished it and it was created within the span |
| Statistics.TotalFees | src/orders/orders.service.impl.ts:563-563 | the total is the sum of the fees, an absent fee being nothing |
| Store.Store.CreateDelivery | src/deliveries/deliveries.service.impl.ts:36-120 | succeeds exactly for distinct existing orders of which those in a delivery already are RECEIVED_EXTERNAL; then it writes one pending delivery with all its columns and the shipper of exactly these orders, and refused nothing |
| DeliveryContracts.CreateDeliveryExactly | src/deliveries/deliveries.service.impl.ts:36-120 | the same for every call of createDelivery, with the reason of each refusal |
| Store.Store.GetDelivery | src/deliveries/deliveries.service.impl.ts:128-172 | every listed order exists and the rows come in the order of `ListedOrders`, for every order the link rows are fetched in |
| Store.Store.UpdateDelivery | src/deliveries/deliveries.service.impl.ts:174-219 | succeeds exactly for a pending delivery and distinct existing orders that are not in it; then staff member and limit time are the given ones, if any, the links are the old ones and those of the listed orders numbered from 1, and nothing else changes |
| DeliveryContracts.UpdateDeliveryExactly | src/deliveries/deliveries.service.impl.ts:174-219 | the same for every call of updateDelivery, with the reason of each refusal |
| Store.Store.UpdateDeliveryStatus | src/deliveries/deliveries.service.impl.ts:221-370 | when a call succeeds, for each status; the column and the new row are CANCELED for a cancel and where every order is canceled, else the requested status, with the call's reason and picture; an accept writes IN_TRANSPORT to every order of the delivery, a cancel CANCELED to those in transport, any other status nothing |
| DeliveryContracts.TripStatusExactly | src/deliveries/deliveries.service.impl.ts:221-370 | the same for every call of updateDeliveryStatus, with the reason of each refusal |
| Store.Store.RunFanOut | src/deliveries/deliveries.service.impl.ts:317-323 | a loop over the transactions leaves what the fan-out function says |
| Store.Store.DeleteDelivery | src/deliveries/deliveries.service.impl.ts:372-387 | succeeds exactly for a delivery that is pending by its latest row and has no orders; then exactly it goes |
| DeliveryContracts.DeleteDeliveryExactly | src/deliveries/deliveries.service.impl.ts:372-387 | the same for every call of deleteDelivery |
| Store.Store.HandleWebhook | src/payment/payment.service.impl.ts:104-161 | a valid notification with the code of a payment takes its amount off the order, sets the paid flag exactly if nothing remains, marks the payment paid and overwrites the account columns that are given; any other changes nothing |
| AccountContracts.WebhookExactly | src/payment/payment.service.impl.ts:104-161 | the same for every notification |
| Store.Store.CreatePayment | src/payment/payment.service.impl.ts:75-102 | one unpaid payment row with a fresh order code, for an existing order |
| AccountContracts.CreatePaymentExactly | src/payment/payment.service.impl.ts:75-102 | the same for every call |
| Store.Store.UpdateUserStatus | src/users/users.service.impl.ts:100-157 | the status of the call is stored for every user; the counter of a student is set to the threshold by a ban and below it by the end of one, and by nothing else; no other user changes |
| AccountContracts.UserStatusExactly | src/users/users.service.impl.ts:100-157 | the same for every user and every status |
| Integrity.RunKeepsIntact | prisma/schema.prisma:82-153 | over every run: no dangling link, payment or owner, no order twice in a delivery, check code and brand unique, order codes unique |
| Integrity.FindManyComplete | src/deliveries/deliveries.service.impl.ts:40-51 | the length check after findMany passes exactly for lists without duplicates of existing orders |
| Effects.UpdateStatusEffect | src/orders/orders.service.impl.ts:366-467 | updateStatus succeeds exactly if all it needs is given; refused it changes nothing, although the fault is written before the transition is checked |
| Effects.CreateOrderEffect | src/orders/orders.service.impl.ts:163-328 | createOrder writes at most one order row, of one of four kinds, and which it is |
| Effects.ConfirmEffect | src/orders/orders.service.impl.ts:284-291 | confirming succeeds exactly on a pending order and writes ACCEPTED twice |
| Effects.TripStatusEffect | src/deliveries/deliveries.service.impl.ts:226-369 | updateDeliveryStatus comes to one fan-out and at most one delivery row |
| OrderRules.PermissionImpliesTransition | src/orders/utils/order.util.ts:212-237 | wherever a role may cancel, the transition table allows the cancel |
| OrderRules.TransitionImpliesPermission | src/orders/utils/order.util.ts:212-237 | a state leads to CANCELED in the table exactly if some role may cancel in it |
| OrderRules.MapReasonInjective | src/orders/utils/order.util.ts:201-210 | the reason column determines who caused the cancel and the given text |
| OrderRules.FaultOfMapReason | src/orders/utils/order.util.ts:201-210 | a cancel row carries the student prefix exactly if the cancel was declared student-caused |
| Refusals.UpdateStatusRefusalAtomic | src/orders/orders.service.impl.ts:366-434 | every refused updateStatus leaves the whole store unchanged |
| Refusals.RefusalExactly | src/orders/orders.service.impl.ts:195-215 | of all calls, a refused one changes the store exactly if it claims an order that has left PENDING or accepts a delivery whose orders are all canceled |
| Refusals.LateClaimSticks | src/orders/orders.service.impl.ts:195-215 | what a refused claim leaves behind |
| Refusals.CanceledOrdersRevived | src/deliveries/deliveries.service.impl.ts:317-330 | what a refused accept leaves behind: canceled orders back in transport |
| Histories.OrderMove | src/orders/utils/order.util.ts:18-46 | any call moves the history of any order in one of four ways, and forces a row exactly if it transports an order whose status is not RECEIVED_EXTERNAL at that moment |
| Grammar.LatestStatusIsLastRow | src/orders/utils/order.util.ts:27-45 | in every reachable state the status column of an order is the status of its last row |
| Grammar.MixedGrammar | src/deliveries/deliveries.service.impl.ts:317-323 | over all mixed runs a history starts with PENDING, neighbours are a table transition, a match's repeated ACCEPTED or end in IN_TRANSPORT, and DELIVERED directly follows IN_TRANSPORT |
| Grammar.StrictExactly | src/deliveries/deliveries.service.impl.ts:317-323 | over all runs of all calls, the history of an order follows the transition table (but for a match's repeated ACCEPTED) if and only if, since the order was created, no accept of a delivery has hit it in a status other than RECEIVED_EXTERNAL |
| Grammar.StrictGrammar | src/orders/utils/order.util.ts:225-237 | for an order no delivery has forced, DELIVERED is only ever the last row and is led to by PENDING, ACCEPTED once or twice, RECEIVED_EXTERNAL, IN_TRANSPORT |
| Grammar.BoundedEpochs | src/orders/utils/order.util.ts:225-233 | for an order no delivery has forced, a history has at most six rows for each PENDING row |
| Grammar.EvidenceIsKept | src/orders/orders.service.impl.ts:374-391 | over all runs a delivered order has a picture, the receipt column of an ever received one is set (possibly to the empty text), and every cancel row has reason and picture |
| Grammar.ReceivedImageExactly | src/orders/utils/order.util.ts:37-44 | over all runs, the picture of an order's receipt is there and not empty if and only if some update sent one and none since sent an empty text |
| Faults.FaultConservation | src/orders/orders.service.impl.ts:392-429 | over every run from an empty shop, the counter equals the student-caused cancel rows over all orders the student owns, plus those deleted with their orders on the way, plus what bans and unbans by hand moved it by |
| Faults.CounterShowsRows | src/orders/orders.service.impl.ts:480-491 | where nobody set it by hand, the counter is the number of such rows that exist if and only if no permitted deletion of the run took one with it |
| Matching.MatchIsConfluent | src/orders/orders.service.impl.ts:179-256 | student then admin and admin then student both succeed and leave the same tables but for product, weight and payment method |
| Matching.OneOrderWithKey | src/orders/orders.service.impl.ts:272-320 | both leave exactly one order with the check code and brand |
| Matching.MatchedOrderColumns | src/orders/orders.service.impl.ts:195-216 | owner, address, date, fee, outstanding amount, status and the three history rows of a matched order |
| FanOuts.FanOutConfluent | src/deliveries/deliveries.service.impl.ts:260-280 | the concurrent status transactions of a fan-out leave the same store in whatever order they commit |
| FanOuts.AcceptConfluent | src/deliveries/deliveries.service.impl.ts:317-323 | for the accept of a delivery, every permutation of its transactions leaves the same store |
| FanOuts.CancelConfluent | src/deliveries/deliveries.service.impl.ts:260-280 | and so for its cancel |
| FanOuts.CancelCascade | src/deliveries/deliveries.service.impl.ts:255-306 | a successful cancel adds one CANCELED row with the staff reason to exactly the delivery's orders in transport, and changes nothing else |
| FanOuts.AcceptCascade | src/deliveries/deliveries.service.impl.ts:317-323 | a successful accept adds one IN_TRANSPORT row to exactly the delivery's orders, whatever their status |
| Clocks.TripStatusIsLastRow | src/deliveries/deliveries.service.impl.ts:293-306 | in every reachable state the status column of a delivery is the status of its last row |
| Clocks.LatestStatusExactly | src/orders/utils/order.util.ts:58-65 | the recomputed status is the last written one for every row the query may return, exactly if the rows tied with the last one agree |
| Clocks.RecomputedStatusAgrees | src/orders/orders.service.impl.ts:113-115 | under a clock that never goes back, if different statuses fell in different seconds, the recomputed status is the column |
| Clocks.FilteredPageShowsStatus | src/orders/orders.service.impl.ts:76-78 | then a page filtered by a status shows that status |
| Clocks.PendingGuardsAgree | src/deliveries/deliveries.service.impl.ts:378-384 | then updateDelivery and deleteDelivery consider the same deliveries pending |
| Clocks.SameSecondTie | src/orders/utils/order.util.ts:32 | two statuses in one second: the query may return the older one |
| Decimal.SameLengthOrder | src/orders/utils/order.util.ts:32 | decimal renderings with equally many digits compare as texts the way the numbers do |
| Decimal.ClockOrder | src/orders/orders.service.impl.ts:520-558 | from 2001 to 2286 the text order of time columns is the order of the clock |
| Decimal.TextOrderExactly | src/orders/orders.service.impl.ts:543-555 | two decimal renderings sort as texts the way their numbers do if and only if they have equally many digits or the shorter number is at most the leading digits of the longer one |
| Ledger.RunSettles | src/payment/payment.service.impl.ts:128-148 | for an owned order any run leaves the outstanding amount less what its webhooks brought; fee and owner stay |
| Ledger.LedgerBalances | src/payment/payment.service.impl.ts:139-148 | in every reachable state, every owned order was priced by some call of the run and has balanced since: remaining = fee - collected |
| Ledger.LedgerSpeaksOfRun | src/payment/payment.service.impl.ts:139-148 | the balance is that of the run's final state |
| Ledger.PricesExactly | src/orders/orders.service.impl.ts:195-255 | an order gets its owner exactly if a student places it or claims it |
| Ledger.PricingStartsLedger | src/orders/orders.service.impl.ts:238-255 | the ledger starts at the whole fee, between 5000 and 15000, and agrees with `isPaid` exactly if the order was not marked paid before |
| Ledger.PaidFlagExactly | src/payment/payment.service.impl.ts:139-148 | in every reachable state `isPaid` of an owned order says exactly that nothing is outstanding, if and only if there was no cash delivery with money outstanding and no claim of an order marked paid, or a processed webhook, a new pricing or a cash delivery with nothing outstanding came later |
| Ledger.StepPaidAgreement | src/payment/payment.service.impl.ts:139-148 | what one call of any kind does to that agreement |
| Ledger.PaidNeverReverts | src/payment/payment.service.impl.ts:139-148 | an order that is paid with nothing outstanding stays so over every run without a refund, cash deliveries included |
| Ledger.CashDeliveryAgreement | src/orders/orders.service.impl.ts:437-444 | a cash delivery marks the order paid and collects nothing, so flag and amount agree exactly if nothing was outstanding |
| Ledger.WebhookUnpays | src/payment/payment.service.impl.ts:139-148 | a webhook turns a paid order unpaid exactly if it brings less than is outstanding |
| Webhooks.ArrivalOrderIrrelevant | src/payment/payment.service.impl.ts:128-161 | the same webhooks leave the same amounts, flags and payments in whatever order they arrive; only the accounts of a payment may differ |
| Webhooks.CompatibleArrivals | src/payment/payment.service.impl.ts:150-158 | and the accounts are the same too if no two webhooks contradict each other about one payment |
| Webhooks.ArrivalOrderOfRuns | src/payment/payment.service.impl.ts:128-161 | so, after any run, two runs of the same webhooks in different orders end in the same tables but for the accounts |
| Webhooks.RedeliveryExactly | src/payment/payment.service.impl.ts:129-158 | a second delivery of one notification takes its amount off again; it leaves the tables alone if and only if nothing was processed or the amount is zero |
| Bans.BannedExactly | src/orders/orders.service.impl.ts:402-428 | in every reachable state a student with a threshold of at least 1 is banned exactly while the counter has reached it, if and only if no standing ban was lifted (by a deactivation, or by an unban that leaves the counter at the threshold), or the student was charged or banned since |
| Bans.StepBan | src/orders/orders.service.impl.ts:402-428 | what one call of any kind does to that agreement |
| Bans.BannedIffThreshold | src/orders/orders.service.impl.ts:402-428 | over every run that lifts no such ban, banned exactly while the counter has reached the threshold |
| Bans.UnbanLifts | src/users/users.service.impl.ts:136-148 | an unban lifts a standing ban if and only if the dormitory has no regulation and the counter has run past the threshold |
| Bans.UnbanIsProbation | src/users/users.service.impl.ts:136-148 | after an unban and any calls that neither charge the student nor set the status, the student is still free and one below the threshold, and the next student-caused cancel bans again |
| Bans.BannedCannotOrder | src/orders/orders.service.impl.ts:167-173 | a banned student's createOrder changes nothing |
| Bans.UnbanWithoutRegulation | src/users/users.service.impl.ts:137-147 | without a regulation, or with the threshold 0, an unban keeps ban and counter in step exactly if the counter had not run past the threshold |
| Trips.AtMostOneRunningTrip | src/deliveries/deliveries.service.impl.ts:227-232 | if every accept is made by the delivery's own staff member, no staff member ever has two accepted deliveries |
| Trips.OneTripExactly | src/deliveries/deliveries.service.impl.ts:227-232 | over a run, every staff member has at most one accepted delivery all the time if and only if no accept went through while another delivery of the same staff member was running |
| Trips.AcceptKeepsOneTrip | src/deliveries/deliveries.service.impl.ts:227-232 | an accept keeps the rule exactly if no other delivery of that staff member is running, whoever makes the call |
| Trips.ReassignedOnlyWhilePending | src/deliveries/deliveries.service.impl.ts:187-206 | a delivery changes hands only while it is pending |
| RoundTrip.CreatedDelivery | src/deliveries/deliveries.service.impl.ts:70-106 | a created delivery numbers its links 1 to n, counts n, and assigns exactly its orders to the staff member |
| RoundTrip.DeliveryRoundTrip | src/deliveries/deliveries.service.impl.ts:94-163 | after any calls but an update or deletion of the delivery, getDelivery lists the orders in the submitted order for every order of the fetched rows |
| RoundTrip.SortIsStable | src/deliveries/deliveries.service.impl.ts:161-163 | orders with one sequence number are listed in the order the database returned them in |
| RoundTrip.CountExactly | src/deliveries/deliveries.service.impl.ts:202-216 | in every reachable state the count of a delivery is the number of its orders if and only if no updateDelivery of the run has added orders to it |
| RoundTrip.SequencesExactly | src/deliveries/deliveries.service.impl.ts:202-216 | in every reachable state the sequence numbers of a delivery are distinct if and only if no updateDelivery of the run has added orders to it when it already had some |
| RoundTrip.UpdateLosesCount | src/deliveries/deliveries.service.impl.ts:202-216 | an update keeps a right count exactly if it adds nothing; the numbers are distinct afterwards exactly if they were before and it adds nothing or there was nothing |
| Statistics.Summarize | src/orders/orders.service.impl.ts:561-605 | the loops and the sort give totals and a list with a bucket for exactly the periods that occur, each holding exactly the rows of its period, invalid dates being one period; without invalid dates the list is strictly chronological |
| Statistics.GroupOrders | src/orders/orders.service.impl.ts:566-575 | the accumulator loop over the orders |
| Statistics.GroupTrips | src/orders/orders.service.impl.ts:578-584 | the loop that adds the deliveries |
| Statistics.StatisticsConserve | src/orders/orders.service.impl.ts:562-598 | summed over all days, the three columns are the totals of the input lists |
| Statistics.ParsePrint | src/date/date.service.impl.ts:29-35 | splitting a printed day on the slashes gets day, month and year of the century back |
| Statistics.PrintInjective | src/date/date.service.impl.ts:29-35 | two days share a bucket exactly if they agree up to the century |
| Statistics.PeriodNamesDay | src/orders/orders.service.impl.ts:588-594 | from 2000 to 2099 a period names one day and sorting by period sorts by date |
| Statistics.ResultNamesDays | src/orders/orders.service.impl.ts:566-598 | so each bucket then counts exactly the rows of one calendar day, or exactly those with invalid dates |
| Statistics.DaysChronological | src/orders/orders.service.impl.ts:588-594 | without invalid dates the days are strictly chronological |
| Statistics.DaysCover | src/orders/orders.service.impl.ts:566-598 | and every row's day has a bucket |
| ShippingFee.GetShippingFee | src/orders/utils/order.util.ts:157-195 | the accumulating loops over the tiers come to one table lookup under the cap |
| ShippingFee.TiersDisjoint | src/orders/utils/order.util.ts:108-154 | no building is listed in two tiers |
| ShippingFee.FeeExactly | src/orders/utils/order.util.ts:157-195 | 5000, 8000 or 12000 by weight, 0, 1000 or 2000 by the first character of the room, the surcharge of the building, and at most 15000 |
| ShippingFee.SurchargesA | src/orders/utils/order.util.ts:108-138 | 2000 for A1 to A20 but A4, A7, A8 and A9, 4000 for AH1, AH2, AG3 and AG4, and nothing for any other name |
| ShippingFee.SurchargesB | src/orders/utils/order.util.ts:139-153 | 2000 for BC1 to BC6 and BE1 to BE4, 4000 for BA1 to BA5 and BB1 to BB5, and nothing for any other name |
| ShippingFee.FeeBounds | src/orders/utils/order.util.ts:79-194 | every fee is a whole number of thousands from 5000 to 15000 |
| ShippingFee.CapCondition | src/orders/utils/order.util.ts:194-194 | the cap bites exactly above 3 kg when floor and building add more than 3000 |
| ShippingFee.FeeMonotone | src/orders/utils/order.util.ts:163-179 | the fee never falls with the weight or the leading digit of the room |
| Pagination.PagesCover | src/orders/orders.service.impl.ts:103-139 | pages 1 to totalPages put together are the whole list |
| Pagination.PageSizes | src/orders/orders.service.impl.ts:106-107 | all pages before the last are full, the last is not empty, later ones are |
| Pagination.RowOnOnePage | src/orders/orders.service.impl.ts:106-107 | of distinct rows, each is on page i / size + 1 and on no other |
| Pagination.RowPlace | src/orders/orders.service.impl.ts:106-107 | and there at exactly one place |
| Pagination.PagesInOrder | src/orders/orders.service.impl.ts:96-108 | the requested order holds within pages and from page to page |
| Pagination.DateFilterIsNumeric | src/orders/orders.service.impl.ts:82-94 | for ten-digit seconds the two text comparisons select exactly the dates from the first second of the start day to the first second of the day after the end day |
| Pagination.DateFilterDays | src/orders/orders.service.impl.ts:82-94 | an order placed for a day is found from its day on up to the day after the end day |
| Pagination.LowerBoundExactly | src/orders/orders.service.impl.ts:82-86 | whatever the digits, the lower bound selects what the number would if and only if the two dates sort as texts the way they do as numbers |
| Pagination.UpperBoundExactly | src/orders/orders.service.impl.ts:87-94 | and so the upper bound |
| Pagination.DateFilterExactly | src/orders/orders.service.impl.ts:82-94 | and the filter with any bounds if and only if both sort as numbers, or the one that does not is masked by the other |
| Pagination.EarlierDateSelected | src/orders/orders.service.impl.ts:82-86 | a list from 10 September 2001 on shows an order of 9 September 2001 |
| Delays.DelayAllOrNone | src/orders/orders.service.impl.ts:698-737 | for any timeslot text, a delay succeeds exactly for distinct existing orders that are free and not due later than the number the text reads as, if it is one, and then moves exactly these |
| Delays.DatesOnlyMoveForward | src/orders/orders.service.impl.ts:721-723 | no run without a delay to a text that is no number moves the date of an owned order to an earlier time |
| Delays.ForwardExactly | src/orders/orders.service.impl.ts:721-723 | each call of a run keeps the date a number and not earlier than before if and only if no call of the run delays the order to a text that is no number |
| Delays.BlurThenBack | src/orders/orders.service.impl.ts:721-723 | after such a delay a free order can be moved to any earlier time |
| Delays.DateIsNumberExactly | src/orders/orders.service.impl.ts:238-246 | in every reachable state the date of an owned order is a number if and only if the order was not delayed to a text that is none, or has been delayed to a number, placed or claimed since |
| Witnesses.LateClaimHappens | src/orders/orders.service.impl.ts:195-215 | an admin registers, rejects, and a student claims: the refused claim stays |
| Witnesses.CanceledAcceptHappens | src/deliveries/deliveries.service.impl.ts:317-330 | a canceled order is put into a delivery and the refused accept takes it back into transport |
| Witnesses.ForcingHappens | src/deliveries/deliveries.service.impl.ts:317-323 | a pending order is forced into transport, and its history leaves the table |
| Witnesses.ForcingAfterReceipt | src/deliveries/deliveries.service.impl.ts:317-323 | so is an order that was received and is already in transport |
| Witnesses.UnclaimableHappens | src/orders/orders.service.impl.ts:179-193 | a delay of an admin's order keeps its student from claiming it |
| Witnesses.OwnerlessMatchHappens | src/orders/orders.service.impl.ts:279-291 | and lets an admin confirm it without an owner |
| Witnesses.PrepaidClaimHappens | src/orders/orders.service.impl.ts:195-215 | an order paid for before it is claimed is paid with the whole fee outstanding |
| Witnesses.RedeliveryHappens | src/payment/payment.service.impl.ts:129-158 | a notification that arrives again takes its amount off again |
| Witnesses.BackwardsHappens | src/orders/orders.service.impl.ts:721-723 | a delay to a text that is no number, then one to an earlier time |
| Witnesses.ForgettingHappens | src/orders/orders.service.impl.ts:480-491 | a student cancels, returns the order to PENDING and deletes it: counter and rows differ |
| Witnesses.CashDeliveryHappens | src/orders/orders.service.impl.ts:437-444 | a cash order delivered by staff is paid with the whole fee outstanding |
| Witnesses.UnpaidAgainHappens | src/payment/payment.service.impl.ts:139-148 | and a partial payment turns it unpaid |
| Witnesses.BlankedPictureHappens | src/orders/utils/order.util.ts:37-44 | a received and delivered order without a picture of its receipt |
| Witnesses.LiftedBanHappens | src/users/users.service.impl.ts:112-154 | ban, deactivation, activation: a free student at the threshold |
| Witnesses.FreeAtThresholdHappens | src/users/users.service.impl.ts:137-147 | without a regulation, a ban, one more charge and an unban: a free student at the threshold |
| Witnesses.RecountLostHappens | src/deliveries/deliveries.service.impl.ts:202-216 | a second order is added to a pending delivery: count and numbering are wrong |
| Witnesses.BrokenOneTripHappens | src/deliveries/deliveries.service.impl.ts:227-232 | two deliveries of one staff member accepted by somebody else both run |
| Witnesses.ReassignmentHappens | src/deliveries/deliveries.service.impl.ts:202-206 | a pending delivery is handed to another staff member |

## Left out

- Notifications, e-mail, push, uploads, OCR, websockets and the routing client: external; notification calls are taken as no-ops that succeed.
- Controllers, guards and DTO validation: calls carry the typed DTO of their service signature, so an optional text is absent or a text, and a JSON `null` in its place is not modelled.
- Registration, tokens, tickets, regulation slots, reports and role changes: short guard-then-write methods; regulations, roles and dormitories are fixed during a run, and users are not deleted.
- updateOrderInfo: an unchecked overwrite of any columns, which no invariant on these columns survives.
- getOrdersStatsForStudent, getCurrentOrder, getOrder and getDeliveries: plain queries.
- Store.Store.GetOrders: whether a text contains the search text without regard to case, and the order of a sort column, are the database's and are parameters; of the shipper the whole user row stands for the four columns shown.
- Statistics.Summarize: the calendar of the server, which shows a day for a valid time and none for another, and the runtime's sort of a list that contains the period of invalid times are parameters; the order of two dates is that of year, month and day.
- Money is an integer and weight a real; NaN and rounding of floats do not occur.
- The display id of a delivery is not modelled.
- Staff ids are taken to name existing staff rows.
- A student without a dormitory is treated as one whose dormitory has no regulation; the service passes null to a filter on a column that is never null, which the database client may refuse, so the call may throw instead.
- A call runs atomically, except that the transactions of a fan-out may commit in any order; two calls do not interleave.
