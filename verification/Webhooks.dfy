/** Webhooks commute: the order they arrive in does not matter. */
module Webhooks {
  import opened Model
  import opened AccountService
  import opened Integrity
  import opened Runs

  datatype Hook = Hook(valid: bool, orderCode: nat, amount: int, account: Account)

  ghost function Handle(db: Db, hook: Hook): Db {
    HandleWebhook(db, hook.valid, hook.orderCode, hook.amount, hook.account).db
  }

  ghost function HandleAll(db: Db, hooks: seq<Hook>): Db
    decreases |hooks|
  {
    if hooks == [] then db else HandleAll(Handle(db, hooks[0]), hooks[1..])
  }

  /** The payment a webhook is for, if it is processed at all. */
  ghost function Target(db: Db, hook: Hook): Option<Id> {
    if !hook.valid || hook.orderCode == TEST_ORDER_CODE then None
    else
      var found := FindPayment(db, hook.orderCode);
      if found.Some? && db.payments[found.value].orderId in db.orders then found else None
  }

  function Marked(payment: Payment, account: Account): Payment {
    WithAccount(payment.(isPaid := true), account)
  }

  ghost function Paid(db: Db, p: Id, hook: Hook): Db
    requires p in db.payments && db.payments[p].orderId in db.orders
  {
    var id := db.payments[p].orderId;
    db.(orders := db.orders[id := Collected(db.orders[id], hook.amount)],
        payments := db.payments[p := Marked(db.payments[p], hook.account)])
  }

  lemma HandleIsPaid(db: Db, hook: Hook)
    ensures Handle(db, hook) == if Target(db, hook).Some? then Paid(db, Target(db, hook).value, hook) else db
  {
  }

  lemma SameFinds(db: Db, db': Db, orderCode: nat)
    requires UniqueCodes(db.payments) && db'.payments.Keys == db.payments.Keys
    requires forall p :: p in db.payments ==> db'.payments[p].orderCode == db.payments[p].orderCode
    ensures FindPayment(db', orderCode) == FindPayment(db, orderCode)
  {
    var found, found' := FindPayment(db, orderCode), FindPayment(db', orderCode);
    assert found.Some? ==> found.value in db'.payments;
    assert found'.Some? ==> found'.value in db.payments;
  }

  /** Payments keep their codes and their orders, so a webhook's target does not depend on the
      webhooks handled before. */
  lemma TargetStable(db: Db, hook: Hook, other: Hook)
    requires UniqueCodes(db.payments)
    ensures UniqueCodes(Handle(db, other).payments)
    ensures Target(Handle(db, other), hook) == Target(db, hook)
  {
    HandleIsPaid(db, other);
    var after := Handle(db, other);
    assert after.orders.Keys == db.orders.Keys && after.payments.Keys == db.payments.Keys;
    assert forall p :: p in db.payments ==>
        after.payments[p].orderCode == db.payments[p].orderCode && after.payments[p].orderId == db.payments[p].orderId;
    SameFinds(db, after, hook.orderCode);
  }

  predicate SameOrAbsent(x: Option<string>, y: Option<string>) {
    x.None? || y.None? || x == y
  }

  /** Two notifications do not contradict each other about the account of one payment. */
  predicate Compatible(a: Hook, b: Hook) {
    a.orderCode == b.orderCode ==>
      SameOrAbsent(a.account.bankName, b.account.bankName) && SameOrAbsent(a.account.name, b.account.name) &&
      SameOrAbsent(a.account.number, b.account.number)
  }

  lemma MarkedCommutes(payment: Payment, a: Hook, b: Hook)
    requires Compatible(a, b) && a.orderCode == b.orderCode
    ensures Marked(Marked(payment, a.account), b.account) == Marked(Marked(payment, b.account), a.account)
  {
  }

  lemma OrdersCommute(orders: map<Id, Order>, o: Id, x: int, o': Id, y: int)
    requires o in orders && o' in orders
    ensures var first, second := orders[o := Collected(orders[o], x)], orders[o' := Collected(orders[o'], y)];
            first[o' := Collected(first[o'], y)] == second[o := Collected(second[o], x)]
  {
  }

  lemma PaymentsCommute(payments: map<Id, Payment>, p: Id, a: Hook, q: Id, b: Hook)
    requires p in payments && q in payments && (p == q ==> a.orderCode == b.orderCode) && Compatible(a, b)
    ensures var first := payments[p := Marked(payments[p], a.account)];
            var second := payments[q := Marked(payments[q], b.account)];
            first[q := Marked(first[q], b.account)] == second[p := Marked(second[p], a.account)]
  {
    if p == q {
      MarkedCommutes(payments[p], a, b);
    }
  }

  lemma PaidCommutes(db: Db, p: Id, a: Hook, q: Id, b: Hook)
    requires p in db.payments && db.payments[p].orderId in db.orders && db.payments[p].orderCode == a.orderCode
    requires q in db.payments && db.payments[q].orderId in db.orders && db.payments[q].orderCode == b.orderCode
    requires Compatible(a, b)
    ensures Paid(Paid(db, p, a), q, b) == Paid(Paid(db, q, b), p, a)
  {
    OrdersCommute(db.orders, db.payments[p].orderId, a.amount, db.payments[q].orderId, b.amount);
    PaymentsCommute(db.payments, p, a, q, b);
  }

  lemma HandleCommutes(db: Db, a: Hook, b: Hook)
    requires UniqueCodes(db.payments) && Compatible(a, b)
    ensures Handle(Handle(db, a), b) == Handle(Handle(db, b), a)
  {
    TargetStable(db, a, b);
    TargetStable(db, b, a);
    HandleIsPaid(db, a);
    HandleIsPaid(db, b);
    HandleIsPaid(Handle(db, a), b);
    HandleIsPaid(Handle(db, b), a);
    if Target(db, a).Some? && Target(db, b).Some? {
      PaidCommutes(db, Target(db, a).value, a, Target(db, b).value, b);
    }
  }

  ghost predicate AllCompatible(hooks: seq<Hook>) {
    forall a, b :: a in hooks && b in hooks ==> Compatible(a, b)
  }

  lemma {:induction false} Bubble(db: Db, hooks: seq<Hook>, i: nat)
    requires UniqueCodes(db.payments) && i < |hooks| && AllCompatible(hooks)
    ensures HandleAll(db, hooks) == HandleAll(Handle(db, hooks[i]), hooks[..i] + hooks[i + 1..])
    decreases i
  {
    if i == 0 {
      assert hooks[..0] + hooks[1..] == hooks[1..];
    } else {
      var first, chosen := hooks[0], hooks[i];
      TargetStable(db, chosen, first);
      Bubble(Handle(db, first), hooks[1..], i - 1);
      HandleCommutes(db, first, chosen);
      var rest := hooks[..i] + hooks[i + 1..];
      assert rest[0] == first && rest[1..] == hooks[1..][..i - 1] + hooks[1..][i..];
    }
  }

  lemma TakenOut(hooks: seq<Hook>, i: nat)
    requires i < |hooks|
    ensures multiset(hooks[..i] + hooks[i + 1..]) == multiset(hooks) - multiset{hooks[i]}
  {
    assert hooks == hooks[..i] + [hooks[i]] + hooks[i + 1..];
  }

  /** Where the first of some webhooks is among the same webhooks in another order. */
  lemma FirstAmong(hooks: seq<Hook>, hooks': seq<Hook>) returns (i: nat)
    requires hooks != [] && multiset(hooks) == multiset(hooks')
    ensures i < |hooks'| && hooks'[i] == hooks[0]
    ensures multiset(hooks[1..]) == multiset(hooks'[..i] + hooks'[i + 1..])
  {
    var first := hooks[0];
    assert multiset(hooks[1..]) == multiset(hooks) - multiset{first} by {
      assert hooks == [first] + hooks[1..];
    }
    assert first in multiset(hooks');
    i :| 0 <= i < |hooks'| && hooks'[i] == first;
    TakenOut(hooks', i);
  }

  /** Any two arrival orders of the same webhooks leave the same tables, as long as no two of them
      contradict each other about the account of one payment. */
  lemma {:induction false} CompatibleArrivals(db: Db, hooks: seq<Hook>, hooks': seq<Hook>)
    requires UniqueCodes(db.payments) && multiset(hooks) == multiset(hooks') && AllCompatible(hooks)
    ensures HandleAll(db, hooks) == HandleAll(db, hooks')
    decreases |hooks|
  {
    if hooks == [] {
      assert |hooks'| == |multiset(hooks')| == 0;
    } else {
      var first := hooks[0];
      var i := FirstAmong(hooks, hooks');
      assert AllCompatible(hooks') by {
        assert forall hook :: hook in hooks' ==> hook in multiset(hooks);
      }
      Bubble(db, hooks', i);
      var rest := hooks'[..i] + hooks'[i + 1..];
      TargetStable(db, first, first);
      CompatibleArrivals(Handle(db, first), hooks[1..], rest);
    }
  }

  /** The tables without what they say of the accounts money came from. */
  function Anonymous(db: Db): Db {
    db.(payments := map p | p in db.payments :: db.payments[p].(account := NO_ACCOUNT))
  }

  function AnonymousHook(hook: Hook): Hook {
    hook.(account := NO_ACCOUNT)
  }

  function AnonymousHooks(hooks: seq<Hook>): seq<Hook> {
    seq(|hooks|, i requires 0 <= i < |hooks| => AnonymousHook(hooks[i]))
  }

  lemma PaidAnonymously(db: Db, p: Id, hook: Hook)
    requires p in db.payments && db.payments[p].orderId in db.orders
    ensures Anonymous(Paid(db, p, hook)) == Paid(Anonymous(db), p, AnonymousHook(hook))
  {
    assert Anonymous(Paid(db, p, hook)).payments == Paid(Anonymous(db), p, AnonymousHook(hook)).payments;
  }

  /** A webhook does the same to everything else, whatever it says of the account. */
  lemma HandleAnonymously(db: Db, hook: Hook)
    requires UniqueCodes(db.payments)
    ensures UniqueCodes(Anonymous(db).payments)
    ensures Anonymous(Handle(db, hook)) == Handle(Anonymous(db), AnonymousHook(hook))
  {
    HandleIsPaid(db, hook);
    HandleIsPaid(Anonymous(db), AnonymousHook(hook));
    SameFinds(db, Anonymous(db), hook.orderCode);
    if Target(db, hook).Some? {
      PaidAnonymously(db, Target(db, hook).value, hook);
    }
  }

  lemma {:induction false} HandleAllAnonymously(db: Db, hooks: seq<Hook>)
    requires UniqueCodes(db.payments)
    ensures Anonymous(HandleAll(db, hooks)) == HandleAll(Anonymous(db), AnonymousHooks(hooks))
    decreases |hooks|
  {
    if hooks != [] {
      HandleAnonymously(db, hooks[0]);
      TargetStable(db, hooks[0], hooks[0]);
      HandleAllAnonymously(Handle(db, hooks[0]), hooks[1..]);
      assert AnonymousHooks(hooks)[1..] == AnonymousHooks(hooks[1..]);
    }
  }

  lemma AnonymousFirst(hooks: seq<Hook>)
    requires hooks != []
    ensures multiset(AnonymousHooks(hooks)) == multiset{AnonymousHook(hooks[0])} + multiset(AnonymousHooks(hooks[1..]))
  {
    assert AnonymousHooks(hooks) == [AnonymousHook(hooks[0])] + AnonymousHooks(hooks[1..]);
  }

  lemma AnonymousTakenOut(hooks: seq<Hook>, i: nat)
    requires i < |hooks|
    ensures multiset(AnonymousHooks(hooks)) ==
            multiset{AnonymousHook(hooks[i])} + multiset(AnonymousHooks(hooks[..i] + hooks[i + 1..]))
  {
    var anonymous := AnonymousHooks(hooks);
    assert anonymous == anonymous[..i] + [anonymous[i]] + anonymous[i + 1..];
    assert AnonymousHooks(hooks[..i] + hooks[i + 1..]) == anonymous[..i] + anonymous[i + 1..];
  }

  lemma {:induction false} AnonymousMultiset(hooks: seq<Hook>, hooks': seq<Hook>)
    requires multiset(hooks) == multiset(hooks')
    ensures multiset(AnonymousHooks(hooks)) == multiset(AnonymousHooks(hooks'))
    decreases |hooks|
  {
    if hooks == [] {
      assert |hooks'| == |multiset(hooks')| == 0;
    } else {
      var i := FirstAmong(hooks, hooks');
      AnonymousMultiset(hooks[1..], hooks'[..i] + hooks'[i + 1..]);
      AnonymousFirst(hooks);
      AnonymousTakenOut(hooks', i);
    }
  }

  /** Any two arrival orders of the same webhooks leave the same outstanding amounts, the same paid
      flags and the same payments; all that may differ is the account of a payment. */
  lemma ArrivalOrderIrrelevant(db: Db, hooks: seq<Hook>, hooks': seq<Hook>)
    requires UniqueCodes(db.payments) && multiset(hooks) == multiset(hooks')
    ensures Anonymous(HandleAll(db, hooks)) == Anonymous(HandleAll(db, hooks'))
  {
    HandleAllAnonymously(db, hooks);
    HandleAllAnonymously(db, hooks');
    AnonymousMultiset(hooks, hooks');
    assert UniqueCodes(Anonymous(db).payments);
    CompatibleArrivals(Anonymous(db), AnonymousHooks(hooks), AnonymousHooks(hooks'));
  }

  /** A webhook is not recognised when it arrives again: a second delivery of one notification
      takes its amount off a second time, so it is harmless exactly if there was nothing to process
      or the amount is zero. */
  lemma RedeliveryExactly(db: Db, hook: Hook)
    requires UniqueCodes(db.payments)
    ensures Handle(Handle(db, hook), hook) == Handle(db, hook) <==> Target(db, hook).None? || hook.amount == 0
    ensures Target(db, hook).Some? ==>
              var id := db.payments[Target(db, hook).value].orderId;
              id in db.orders && id in Handle(Handle(db, hook), hook).orders &&
              Outstanding(Handle(Handle(db, hook), hook).orders[id]) == Outstanding(db.orders[id]) - 2 * hook.amount
  {
    TargetStable(db, hook, hook);
    HandleIsPaid(db, hook);
    HandleIsPaid(Handle(db, hook), hook);
    if Target(db, hook).Some? {
      var p := Target(db, hook).value;
      var id := db.payments[p].orderId;
      var once := Handle(db, hook);
      assert Outstanding(Paid(once, p, hook).orders[id]) == Outstanding(once.orders[id]) - hook.amount;
      assert Paid(once, p, hook).payments == once.payments;
      if hook.amount == 0 {
        assert Paid(once, p, hook).orders == once.orders;
      }
    }
  }

  function HookCall(hook: Hook): Call {
    CallWebhook(hook.valid, hook.orderCode, hook.amount, hook.account)
  }

  function HookCalls(hooks: seq<Hook>): seq<Call> {
    seq(|hooks|, i requires 0 <= i < |hooks| => HookCall(hooks[i]))
  }

  /** Webhooks that arrive one after the other are a run. */
  lemma {:induction false} HandleAllIsRun(db: Db, hooks: seq<Hook>)
    ensures HandleAll(db, hooks) == Run(db, HookCalls(hooks))
    decreases |hooks|
  {
    if hooks != [] {
      var calls := HookCalls(hooks);
      HandleAllIsRun(Handle(db, hooks[0]), hooks[1..]);
      RunSplit(db, calls, 1);
      assert calls[1..] == HookCalls(hooks[1..]);
      assert calls[..1][..0] == [] && Run(db, calls[..1]) == Handle(db, hooks[0]);
    }
  }

  /** So after any run, the webhooks of any two runs that differ in their order alone leave the same
      tables, but for the accounts. */
  lemma ArrivalOrderOfRuns(db: Db, calls: seq<Call>, hooks: seq<Hook>, hooks': seq<Hook>)
    requires Initial(db) && multiset(hooks) == multiset(hooks')
    ensures Anonymous(Run(db, calls + HookCalls(hooks))) == Anonymous(Run(db, calls + HookCalls(hooks')))
  {
    var before := Run(db, calls);
    InitialIsIntact(db);
    RunKeepsIntact(db, calls);
    ArrivalOrderIrrelevant(before, hooks, hooks');
    HandleAllIsRun(before, hooks);
    HandleAllIsRun(before, hooks');
    RunAppends(db, calls, HookCalls(hooks));
    RunAppends(db, calls, HookCalls(hooks'));
  }
}
