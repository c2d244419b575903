/**
 Whole runs of allowed requests against one usage record: budgets, supplies, one-time use,
 idempotency, and independence of order.
 */
module Runs {
  import opened Wrappers
  import opened Decimals
  import opened Limits
  import opened Authority
  import KeyOrder

  /******* Runs *******/

  /** The request, evaluated against the usage `u`. */
  function With(r: Request, u: UsageSnapshot): Request {
    r.(usage := u)
  }

  /** The usage after `r` is allowed at `u`. */
  function After(u: UsageSnapshot, r: Request): UsageSnapshot {
    var next := Next(With(r, u));
    if next.Returned? then Snapshot(next.value) else u
  }

  /** Every request is allowed, each against the usage its predecessors left. */
  ghost predicate AllowedRun(start: UsageSnapshot, rs: seq<Request>) {
    rs == [] || (AllowedRun(start, rs[..|rs| - 1]) && Allowed(With(rs[|rs| - 1], RunUsage(start, rs[..|rs| - 1]))))
  }

  /** The fold of `applyConsumption` over a run. */
  function RunUsage(start: UsageSnapshot, rs: seq<Request>): UsageSnapshot {
    if rs == [] then start else After(RunUsage(start, rs[..|rs| - 1]), rs[|rs| - 1])
  }

  lemma RunExtends(start: UsageSnapshot, rs: seq<Request>, r: Request)
    ensures AllowedRun(start, rs + [r]) <==> AllowedRun(start, rs) && Allowed(With(r, RunUsage(start, rs)))
    ensures RunUsage(start, rs + [r]) == After(RunUsage(start, rs), r)
  {
    hide Allowed, After;
    assert (rs + [r])[..|rs + [r]| - 1] == rs;
  }

  /** A prefix of an allowed run is an allowed run. */
  lemma {:induction false} PrefixAllowed(start: UsageSnapshot, rs: seq<Request>, n: nat)
    requires AllowedRun(start, rs) && n <= |rs|
    ensures AllowedRun(start, rs[..n])
  {
    hide Allowed;
    if n == |rs| {
      assert rs[..n] == rs;
    } else {
      PrefixAllowed(start, rs[..|rs| - 1], n);
      assert rs[..|rs| - 1][..n] == rs[..n];
    }
  }

  /** In an allowed run each request is allowed at its place. */
  lemma AllowedAtPlace(start: UsageSnapshot, rs: seq<Request>, i: nat)
    requires AllowedRun(start, rs) && i < |rs|
    ensures Allowed(With(rs[i], RunUsage(start, rs[..i])))
  {
    hide Allowed, RunUsage;
    PrefixAllowed(start, rs, i + 1);
    assert rs[..i + 1][..i] == rs[..i];
  }

  /******* One step *******/

  /** A stored snapshot is normalized back to the usage it came from. */
  lemma NormalizedSnapshot(u: Usage)
    requires KeyOrder.Sorted(u.idempotencyKeys)
    ensures Normalized(Snapshot(u)) == u
  {
    hide KeyOrder.Sorted;
    KeyOrder.SortSorts(u.idempotencyKeys);
    KeyOrder.SortedUnique(KeyOrder.Sort(u.idempotencyKeys), u.idempotencyKeys);
  }

  function KeysOf(d: Delta): multiset<string> {
    if d.idempotencyKey != "" then multiset{d.idempotencyKey} else multiset{}
  }

  /** What one allowed request does to the usage record. */
  lemma Step(u: UsageSnapshot, r: Request)
    requires Allowed(With(r, u))
    ensures var before, after, d := Normalized(u), Normalized(After(u, r)), Effective(r);
            && Next(With(r, u)).Returned? && after == Next(With(r, u)).value && After(u, r) == Snapshot(after)
            && after.calls == before.calls + d.calls
            && after.consumed == (before.consumed || d.consume)
            && multiset(after.idempotencyKeys) == multiset(before.idempotencyKeys) + KeysOf(d)
  {
    var q := With(r, u);
    SameEffective(r, u);
    NextReturns(q);
    var before, d, next := Normalized(u), Effective(q), Next(q).value;
    assert next.idempotencyKeys == NextKeys(before.idempotencyKeys, d.idempotencyKey);
    assert KeyOrder.Sorted(before.idempotencyKeys) by {
      KeyOrder.SortSorts(GetOr(u.idempotencyKeys, []));
    }
    NextKeysSorted(before.idempotencyKeys, d.idempotencyKey);
    NormalizedSnapshot(next);
    hide Allowed, Normalized, Effective, NextKeys, KeyOrder.Sorted, Add;
  }

  /** The effective consumption does not depend on the usage. */
  lemma SameEffective(r: Request, u: UsageSnapshot)
    ensures Effective(With(r, u)) == Effective(r)
  {
  }

  lemma StepAmounts(u: UsageSnapshot, r: Request)
    requires Allowed(With(r, u))
    ensures var before, after, d := Normalized(u), Normalized(After(u, r)), Effective(r);
            && IsDecimal(before.amount) && IsDecimal(d.amount) && IsDecimal(before.quantity) && IsDecimal(d.quantity)
            && Add(before.amount, d.amount) == Returned(after.amount)
            && Add(before.quantity, d.quantity) == Returned(after.quantity)
            && after.currency == CurrencyAfter(d.currency, before.currency)
  {
    Step(u, r);
    SameEffective(r, u);
    hide Clean, Normalized, Effective, Add, IsDecimal;
  }

  /******* One-time use, idempotency, calls *******/

  /** No request is allowed once the usage is consumed, and no stored key is allowed again. */
  lemma SpentIsDenied(u: UsageSnapshot, r: Request)
    requires Allowed(With(r, u))
    ensures !Normalized(u).consumed
    ensures Effective(r).idempotencyKey != "" ==> Effective(r).idempotencyKey !in Normalized(u).idempotencyKeys
    ensures !OverCalled(r.mandate, Normalized(u), Effective(r))
  {
    var q := With(r, u);
    SameEffective(r, u);
    hide GrantFinding, CommerceFinding, RwaFinding, Normalized, Effective, LimitViolation, OverCalled, Spendable,
         ContextMismatch;
    assert !Violates(q, MandateAlreadyConsumed);
    assert !Violates(q, IdempotencyReplay);
    assert !Violates(q, CallLimitExceeded);
  }

  lemma {:induction false} ConsumedStays(start: UsageSnapshot, rs: seq<Request>, i: nat)
    requires AllowedRun(start, rs) && i < |rs| && Effective(rs[i]).consume
    ensures Normalized(RunUsage(start, rs)).consumed
  {
    hide Allowed, Effective, Normalized;
    Step(RunUsage(start, rs[..|rs| - 1]), rs[|rs| - 1]);
    if i < |rs| - 1 {
      ConsumedStays(start, rs[..|rs| - 1], i);
    }
  }

  /** A request that consumes its Mandate is the last one allowed. */
  lemma ConsumingIsLast(start: UsageSnapshot, rs: seq<Request>, i: nat)
    requires AllowedRun(start, rs) && i < |rs| && Effective(rs[i]).consume
    ensures i == |rs| - 1
  {
    hide Allowed, Effective, Normalized;
    if i < |rs| - 1 {
      ConsumedStays(start, rs[..|rs| - 1], i);
      SpentIsDenied(RunUsage(start, rs[..|rs| - 1]), rs[|rs| - 1]);
    }
  }

  lemma {:induction false} KeyStays(start: UsageSnapshot, rs: seq<Request>, i: nat)
    requires AllowedRun(start, rs) && i < |rs| && Effective(rs[i]).idempotencyKey != ""
    ensures Effective(rs[i]).idempotencyKey in Normalized(RunUsage(start, rs)).idempotencyKeys
  {
    hide Allowed, Effective, Normalized;
    var u := RunUsage(start, rs[..|rs| - 1]);
    Step(u, rs[|rs| - 1]);
    if i < |rs| - 1 {
      KeyStays(start, rs[..|rs| - 1], i);
    }
    assert Effective(rs[i]).idempotencyKey in multiset(Normalized(RunUsage(start, rs)).idempotencyKeys);
  }

  /** No idempotency key is accepted twice. */
  lemma KeysAreUsedOnce(start: UsageSnapshot, rs: seq<Request>, i: nat, j: nat)
    requires AllowedRun(start, rs) && i < j < |rs| && Effective(rs[i]).idempotencyKey != ""
    ensures Effective(rs[i]).idempotencyKey != Effective(rs[j]).idempotencyKey
  {
    hide Allowed, Effective, Normalized, RunUsage;
    PrefixAllowed(start, rs, j);
    KeyStays(start, rs[..j], i);
    AllowedAtPlace(start, rs, j);
    SpentIsDenied(RunUsage(start, rs[..j]), rs[j]);
  }

  function TotalCalls(rs: seq<Request>): int {
    if rs == [] then 0 else TotalCalls(rs[..|rs| - 1]) + Effective(rs[|rs| - 1]).calls
  }

  /** Calls are counted exactly. */
  lemma {:induction false} CallsAreCounted(start: UsageSnapshot, rs: seq<Request>)
    requires AllowedRun(start, rs)
    ensures Normalized(RunUsage(start, rs)).calls == Normalized(start).calls + TotalCalls(rs)
  {
    hide Allowed, Effective, Normalized;
    if rs != [] {
      CallsAreCounted(start, rs[..|rs| - 1]);
      Step(RunUsage(start, rs[..|rs| - 1]), rs[|rs| - 1]);
    }
  }

  lemma {:induction false} CallsPerRequest(rs: seq<Request>)
    requires forall i :: 0 <= i < |rs| ==> Effective(rs[i]).calls >= 1
    ensures TotalCalls(rs) >= |rs|
  {
    hide Effective;
    if rs != [] {
      CallsPerRequest(rs[..|rs| - 1]);
    }
  }

  predicate MaxCalls(m: Mandate, n: int) {
    At(LimitsOf(m), "max_calls") == Some(Primitive(Number(n)))
  }

  /** With at least one call per request, a run is no longer than the calls that are left. */
  lemma RunIsWithinCalls(start: UsageSnapshot, rs: seq<Request>, n: int)
    requires AllowedRun(start, rs) && rs != []
    requires forall i :: 0 <= i < |rs| ==> Effective(rs[i]).calls >= 1
    requires MaxCalls(rs[|rs| - 1].mandate, n)
    ensures |rs| <= n - Normalized(start).calls
  {
    hide Allowed, Effective, Normalized, After;
    var u, r := RunUsage(start, rs[..|rs| - 1]), rs[|rs| - 1];
    CallsAreCounted(start, rs);
    CallsPerRequest(rs);
    StepWithinCalls(u, r, n);
  }

  lemma StepWithinCalls(u: UsageSnapshot, r: Request, n: int)
    requires Allowed(With(r, u)) && MaxCalls(r.mandate, n)
    ensures Normalized(After(u, r)).calls <= n
  {
    hide Allowed, Effective, Normalized;
    Step(u, r);
    SpentIsDenied(u, r);
  }

  /******* Commerce budget *******/

  /** A Commerce-profile Mandate with its extension. */
  predicate CommerceMandate(m: Mandate) {
    m.profile == Some(COMMERCE_PROFILE) && m.commerce.Some?
  }

  /** The exact price of a purchase. */
  ghost function Price(r: Request): real {
    if r.commerce.Some? && IsDecimal(r.commerce.value.quote.unitPrice)
    then Value(r.commerce.value.quote.unitPrice) * r.commerce.value.quote.quantity as real
    else 0.0
  }

  ghost function Spent(rs: seq<Request>): real {
    if rs == [] then 0.0 else Spent(rs[..|rs| - 1]) + Price(rs[|rs| - 1])
  }

  /** An allowed purchase is priced exactly, within the budget, in the Mandate's currency. */
  lemma PurchaseTerms(u: UsageSnapshot, r: Request)
    requires Allowed(With(r, u)) && CommerceMandate(r.mandate)
    ensures r.commerce.Some?
    ensures var q, terms, before := r.commerce.value.quote, r.mandate.commerce.value, Normalized(u);
            && CommerceDefined(terms, q, before)
            && Value(q.total) == Value(q.unitPrice) * q.quantity as real
            && Value(before.amount) + Value(q.total) <= Value(terms.maxTotal)
            && q.currency == terms.currency
  {
    var q := With(r, u);
    hide GrantFinding, SpendFinding, RwaFinding, Normalized, Effective, Spendable, IsDecimal, Value;
    assert !Violates(q, CommerceContextRequired);
    assert !CommerceFinding(q, CommerceTotalInvalid) by { assert !Violates(q, CommerceTotalInvalid); }
    assert !CommerceFinding(q, CommerceBudgetExceeded) by { assert !Violates(q, CommerceBudgetExceeded); }
    assert !CommerceFinding(q, CommerceCurrencyMismatch) by { assert !Violates(q, CommerceCurrencyMismatch); }
  }

  lemma PurchaseStep(u: UsageSnapshot, r: Request)
    requires Allowed(With(r, u)) && CommerceMandate(r.mandate)
    ensures var before, after, terms := Normalized(u), Normalized(After(u, r)), r.mandate.commerce.value;
            && IsDecimal(before.amount) && IsDecimal(after.amount) && IsDecimal(terms.maxTotal)
            && Value(after.amount) == Value(before.amount) + Price(r)
            && Value(after.amount) <= Value(terms.maxTotal)
            && after.currency == CurrencyAfter(terms.currency, before.currency)
  {
    hide Allowed, Normalized, Effective, Add, IsDecimal, Value, With;
    PurchaseTerms(u, r);
    StepAmounts(u, r);
    PurchaseDelta(r);
    AddMeaning(Normalized(u).amount, Effective(r).amount);
  }

  lemma PurchaseDelta(r: Request)
    requires r.commerce.Some?
    ensures Effective(r).amount == r.commerce.value.quote.total
    ensures Effective(r).currency == r.commerce.value.quote.currency
  {
  }

  /**
   Over every allowed run the recorded amount is the starting amount plus the exact sum of
   unit price times quantity, it never exceeds `max_total`, and it is in the Mandate's currency
   unless that is the empty text.
   */
  lemma {:induction false} CommerceBudget(m: Mandate, start: UsageSnapshot, rs: seq<Request>)
    requires CommerceMandate(m) && AllowedRun(start, rs) && rs != []
    requires forall i :: 0 <= i < |rs| ==> rs[i].mandate == m
    ensures var first, last, terms := Normalized(start), Normalized(RunUsage(start, rs)), m.commerce.value;
            && IsDecimal(first.amount) && IsDecimal(last.amount) && IsDecimal(terms.maxTotal)
            && Value(last.amount) == Value(first.amount) + Spent(rs)
            && Value(last.amount) <= Value(terms.maxTotal)
            && last.currency == CurrencyAfter(terms.currency, first.currency)
  {
    hide Allowed, Normalized, IsDecimal, Value, Price, After;
    var front, r := rs[..|rs| - 1], rs[|rs| - 1];
    PurchaseStep(RunUsage(start, front), r);
    if front != [] {
      CommerceBudget(m, start, front);
    }
  }

  /******* RWA supply *******/

  /** An RWA-profile Mandate with its extension and no Commerce extension. */
  predicate RwaMandate(m: Mandate) {
    m.profile == Some(RWA_PROFILE) && m.rwa.Some? && m.commerce.None?
  }

  lemma MintTerms(u: UsageSnapshot, r: Request)
    requires Allowed(With(r, u)) && RwaMandate(r.mandate) && u.mintedSupply.Some?
    ensures r.rwa.Some? && r.commerce.None?
    ensures var context, terms, before := r.rwa.value, r.mandate.rwa.value, Normalized(u);
            && RwaDefined(terms, context, before, true)
            && Value(before.quantity) + Value(context.quantity) <= Value(terms.maxQuantity)
            && Value(before.mintedSupply) == Value(context.currentSupply)
            && ResultingSupply(context) <= Value(context.reserve)
            && (Truthy(context.maximumSupply) ==> ResultingSupply(context) <= Value(context.maximumSupply.value))
  {
    var q := With(r, u);
    hide GrantFinding, SpendFinding, Normalized, Effective, Spendable, IsDecimal, Value, CommerceViolation;
    assert !Violates(q, RwaContextRequired);
    assert !CommerceFinding(q, CommerceContextRequired) by { assert !Violates(q, CommerceContextRequired); }
    hide CommerceFinding;
    assert !RwaFinding(q, RwaQuantityExceeded) by { assert !Violates(q, RwaQuantityExceeded); }
    assert !RwaFinding(q, RwaSupplyStateMismatch) by { assert !Violates(q, RwaSupplyStateMismatch); }
    assert !RwaFinding(q, RwaReserveExceeded) by { assert !Violates(q, RwaReserveExceeded); }
    assert !RwaFinding(q, RwaMaximumSupplyExceeded) by { assert !Violates(q, RwaMaximumSupplyExceeded); }
  }

  lemma MintDelta(r: Request)
    requires r.rwa.Some? && r.commerce.None?
    ensures Effective(r).quantity == r.rwa.value.quantity
  {
  }

  lemma NextSupply(r: Request)
    requires Next(r).Returned? && r.rwa.Some?
    ensures Add(r.rwa.value.currentSupply, r.rwa.value.quantity) == Returned(Next(r).value.mintedSupply)
  {
    hide Normalized, Effective, Add;
  }

  ghost predicate Within(limit: Option<string>, v: real) {
    Truthy(limit) ==> IsDecimal(limit.value) && v <= Value(limit.value)
  }

  lemma MintStep(u: UsageSnapshot, r: Request)
    requires Allowed(With(r, u)) && RwaMandate(r.mandate) && u.mintedSupply.Some?
    ensures After(u, r).mintedSupply.Some? && r.rwa.Some?
    ensures var before, after, terms, context := Normalized(u), Normalized(After(u, r)), r.mandate.rwa.value,
            r.rwa.value;
            && IsDecimal(before.mintedSupply) && IsDecimal(before.quantity)
            && IsDecimal(after.mintedSupply) && IsDecimal(after.quantity)
            && Value(after.mintedSupply) - Value(after.quantity) == Value(before.mintedSupply) - Value(before.quantity)
            && IsDecimal(terms.maxQuantity) && Value(after.quantity) <= Value(terms.maxQuantity)
            && IsDecimal(context.reserve) && Value(after.mintedSupply) <= Value(context.reserve)
            && Within(context.maximumSupply, Value(after.mintedSupply))
  {
    hide Allowed, Normalized, Effective, Add, IsDecimal, Value;
    MintTerms(u, r);
    Step(u, r);
    StepAmounts(u, r);
    MintDelta(r);
    NextSupply(With(r, u));
    AddMeaning(Normalized(u).quantity, r.rwa.value.quantity);
    AddMeaning(r.rwa.value.currentSupply, r.rwa.value.quantity);
  }

  /**
   Over every allowed run from a tracked supply, minted supply minus cumulative quantity is constant,
   the cumulative quantity never exceeds `max_quantity`, and the new supply is within the reserve and
   maximum supply of the request that minted it.
   */
  lemma {:induction false} SupplyConservation(m: Mandate, start: UsageSnapshot, rs: seq<Request>)
    requires RwaMandate(m) && AllowedRun(start, rs) && rs != [] && start.mintedSupply.Some?
    requires forall i :: 0 <= i < |rs| ==> rs[i].mandate == m
    ensures var first, last, final := Normalized(start), Normalized(RunUsage(start, rs)), rs[|rs| - 1];
            && RunUsage(start, rs).mintedSupply.Some? && final.rwa.Some?
            && IsDecimal(first.mintedSupply) && IsDecimal(first.quantity)
            && IsDecimal(last.mintedSupply) && IsDecimal(last.quantity)
            && Value(last.mintedSupply) - Value(last.quantity) == Value(first.mintedSupply) - Value(first.quantity)
            && IsDecimal(m.rwa.value.maxQuantity) && Value(last.quantity) <= Value(m.rwa.value.maxQuantity)
            && IsDecimal(final.rwa.value.reserve) && Value(last.mintedSupply) <= Value(final.rwa.value.reserve)
            && Within(final.rwa.value.maximumSupply, Value(last.mintedSupply))
  {
    hide Allowed, Normalized, IsDecimal, Value, Within, After;
    var front, r := rs[..|rs| - 1], rs[|rs| - 1];
    if front != [] {
      SupplyConservation(m, start, front);
    }
    MintStep(RunUsage(start, front), r);
  }

  /******* Independence of order *******/

  /** `applyConsumption` for a request without RWA context, on decimal amounts. */
  function Account(u: Usage, d: Delta): Checked<Usage> {
    var amount :- Add(u.amount, d.amount);
    var quantity :- Add(u.quantity, d.quantity);
    Returned(u.(calls := u.calls + d.calls, amount := amount, quantity := quantity,
                currency := CurrencyAfter(d.currency, u.currency),
                consumed := u.consumed || d.consume,
                idempotencyKeys := NextKeys(u.idempotencyKeys, d.idempotencyKey)))
  }

  ghost predicate Countable(u: Usage) {
    IsDecimal(u.amount) && IsDecimal(u.quantity) && KeyOrder.Sorted(u.idempotencyKeys)
  }

  /** A purchase in currency `c` with decimal accounting fields. */
  ghost predicate Purchase(d: Delta, c: string) {
    IsDecimal(d.amount) && IsDecimal(d.quantity) && d.currency == c
  }

  lemma AccountReturns(u: Usage, d: Delta, c: string)
    requires Countable(u) && Purchase(d, c)
    ensures Account(u, d).Returned? && Countable(Account(u, d).value)
  {
    hide IsDecimal, Value, Add, KeyOrder.Sorted, NextKeys;
    AddMeaning(u.amount, d.amount);
    AddMeaning(u.quantity, d.quantity);
    NextKeysSorted(u.idempotencyKeys, d.idempotencyKey);
  }

  /** Adding two amounts in either order gives the same text. */
  lemma AddSwaps(x: string, a: string, b: string)
    requires IsDecimal(x) && IsDecimal(a) && IsDecimal(b)
    ensures Add(x, a).Returned? && Add(x, b).Returned?
    ensures Add(Add(x, a).value, b) == Add(Add(x, b).value, a)
  {
    hide IsDecimal, Add;
    AddAssociates(x, a, b);
    AddCommutes(a, b);
    AddAssociates(x, b, a);
  }

  lemma KeysSwap(keys: seq<string>, a: string, b: string)
    requires KeyOrder.Sorted(keys)
    ensures NextKeys(NextKeys(keys, a), b) == NextKeys(NextKeys(keys, b), a)
  {
    hide NextKeys, KeyOrder.Sorted;
    NextKeysSorted(keys, a);
    NextKeysSorted(keys, b);
    NextKeysSorted(NextKeys(keys, a), b);
    NextKeysSorted(NextKeys(keys, b), a);
    KeyOrder.SortedUnique(NextKeys(NextKeys(keys, a), b), NextKeys(NextKeys(keys, b), a));
  }

  lemma AccountSwaps(u: Usage, d: Delta, e: Delta, c: string)
    requires Countable(u) && Purchase(d, c) && Purchase(e, c)
    ensures Account(u, d).Returned? && Account(u, e).Returned?
    ensures Account(Account(u, d).value, e) == Account(Account(u, e).value, d)
  {
    hide IsDecimal, Add, NextKeys, KeyOrder.Sorted;
    AddSwaps(u.amount, d.amount, e.amount);
    AddSwaps(u.quantity, d.quantity, e.quantity);
    KeysSwap(u.idempotencyKeys, d.idempotencyKey, e.idempotencyKey);
  }

  /** The account after all deltas, in order. */
  function AccountAll(u: Usage, ds: seq<Delta>): Checked<Usage> {
    if ds == [] then Returned(u)
    else
      var before :- AccountAll(u, ds[..|ds| - 1]);
      Account(before, ds[|ds| - 1])
  }

  ghost predicate Purchases(ds: seq<Delta>, c: string) {
    forall i :: 0 <= i < |ds| ==> Purchase(ds[i], c)
  }

  lemma {:induction false} AccountAllReturns(u: Usage, ds: seq<Delta>, c: string)
    requires Countable(u) && Purchases(ds, c)
    ensures AccountAll(u, ds).Returned? && Countable(AccountAll(u, ds).value)
  {
    hide Account, Countable, Purchase;
    if ds != [] {
      AccountAllReturns(u, ds[..|ds| - 1], c);
      AccountReturns(AccountAll(u, ds[..|ds| - 1]).value, ds[|ds| - 1], c);
    }
  }

  /** Any delta may be accounted for last. */
  lemma {:induction false} AccountLast(u: Usage, ds: seq<Delta>, i: nat, c: string)
    requires Countable(u) && Purchases(ds, c) && i < |ds|
    ensures AccountAll(u, ds) == AccountAll(u, Without(ds, i) + [ds[i]])
  {
    hide Account, Countable, Purchase;
    var n := |ds| - 1;
    var moved := Without(ds, i) + [ds[i]];
    if i == n {
      assert moved == ds;
    } else {
      var front, rest := ds[..n], ds[..i] + ds[i + 1..n];
      AccountLast(u, front, i, c);
      assert Without(front, i) + [front[i]] == rest + [ds[i]];
      assert moved == rest + [ds[n]] + [ds[i]];
      SwapLastTwo(u, rest, ds[i], ds[n], c);
      assert (rest + [ds[i]] + [ds[n]])[..|rest| + 1] == rest + [ds[i]];
    }
  }

  lemma SwapLastTwo(u: Usage, rest: seq<Delta>, d: Delta, e: Delta, c: string)
    requires Countable(u) && Purchases(rest, c) && Purchase(d, c) && Purchase(e, c)
    ensures AccountAll(u, rest + [d] + [e]) == AccountAll(u, rest + [e] + [d])
  {
    hide Account, Countable, Purchase;
    AccountAllReturns(u, rest, c);
    var before := AccountAll(u, rest).value;
    AccountReturns(before, d, c);
    AccountReturns(before, e, c);
    AppendAccount(u, rest, d);
    AppendAccount(u, rest, e);
    AppendAccount(u, rest + [d], e);
    AppendAccount(u, rest + [e], d);
    AccountSwaps(before, d, e, c);
  }

  lemma AppendAccount(u: Usage, ds: seq<Delta>, d: Delta)
    ensures AccountAll(u, ds + [d]) ==
            if AccountAll(u, ds).Returned? then Account(AccountAll(u, ds).value, d) else Threw
  {
    hide Account;
    assert (ds + [d])[..|ds + [d]| - 1] == ds;
  }

  function Without<T>(s: seq<T>, i: nat): seq<T>
    requires i < |s|
  {
    s[..i] + s[i + 1..]
  }

  lemma WithoutAt<T>(s: seq<T>, i: nat)
    requires i < |s|
    ensures |Without(s, i)| == |s| - 1
    ensures forall k :: 0 <= k < |s| - 1 ==> Without(s, i)[k] == s[if k < i then k else k + 1]
  {
  }

  lemma WithoutContents<T>(s: seq<T>, i: nat)
    requires i < |s|
    ensures multiset(s) == multiset(Without(s, i)) + multiset{s[i]}
  {
    assert s == s[..i] + [s[i]] + s[i + 1..];
  }

  /** The last element of one arrangement, found and removed in the other. */
  lemma FindLast<T>(a: seq<T>, b: seq<T>) returns (i: nat)
    requires multiset(a) == multiset(b) && a != []
    ensures i < |b| && b[i] == a[|a| - 1] && multiset(Without(b, i)) == multiset(a[..|a| - 1])
  {
    var n := |a| - 1;
    assert a[n] in multiset(b);
    i :| 0 <= i < |b| && b[i] == a[n];
    WithoutContents(b, i);
    WithoutContents(a, n);
    assert Without(a, n) == a[..n];
    SameRest(multiset(Without(b, i)), multiset(a[..n]), a[n]);
  }

  lemma SameRest<T>(x: multiset<T>, y: multiset<T>, e: T)
    requires x + multiset{e} == y + multiset{e}
    ensures x == y
  {
    assert x == x + multiset{e} - multiset{e};
    assert y == y + multiset{e} - multiset{e};
  }

  /** The account does not depend on the order of the deltas. */
  lemma {:induction false} AccountIgnoresOrder(u: Usage, a: seq<Delta>, b: seq<Delta>, c: string)
    requires Countable(u) && Purchases(a, c) && Purchases(b, c) && multiset(a) == multiset(b)
    ensures AccountAll(u, a) == AccountAll(u, b)
  {
    hide Account, Countable, Purchase, AccountAll;
    assert |a| == |multiset(a)| == |multiset(b)| == |b|;
    if a == [] {
      assert a == b;
    } else {
      var i := FindLast(a, b);
      var front, rest := a[..|a| - 1], Without(b, i);
      AccountLast(u, b, i, c);
      AccountIgnoresOrder(u, front, rest, c);
      AppendAccount(u, front, b[i]);
      AppendAccount(u, rest, b[i]);
      assert a == front + [b[i]];
    }
  }

  function Deltas(rs: seq<Request>): (ds: seq<Delta>)
    ensures |ds| == |rs| && forall i :: 0 <= i < |rs| ==> ds[i] == Effective(rs[i])
  {
    if rs == [] then [] else Deltas(rs[..|rs| - 1]) + [Effective(rs[|rs| - 1])]
  }

  lemma DeltasWithout(rs: seq<Request>, i: nat)
    requires i < |rs|
    ensures Deltas(Without(rs, i)) == Without(Deltas(rs), i)
  {
    hide Effective, Deltas, Without;
    var x, y := Deltas(Without(rs, i)), Without(Deltas(rs), i);
    WithoutAt(rs, i);
    WithoutAt(Deltas(rs), i);
    forall k | 0 <= k < |x|
      ensures x[k] == y[k]
    {
      assert x[k] == Effective(rs[if k < i then k else k + 1]);
    }
  }

  lemma {:induction false} DeltasKeepContents(a: seq<Request>, b: seq<Request>)
    requires multiset(a) == multiset(b)
    ensures multiset(Deltas(a)) == multiset(Deltas(b))
  {
    hide Effective, Deltas;
    assert |a| == |multiset(a)| == |multiset(b)| == |b|;
    if a != [] {
      var n := |a| - 1;
      var i := FindLast(a, b);
      assert Without(a, n) == a[..n];
      hide Without;
      DeltasKeepContents(a[..n], Without(b, i));
      DeltasWithout(a, n);
      DeltasWithout(b, i);
      WithoutContents(Deltas(b), i);
      WithoutContents(Deltas(a), n);
    }
  }

  lemma NoRwaContext(u: UsageSnapshot, r: Request)
    requires Allowed(With(r, u)) && r.mandate.rwa.None?
    ensures r.rwa.None?
  {
    hide GrantFinding, SpendFinding, CommerceFinding, Normalized, Effective, Spendable;
    assert !Violates(With(r, u), RwaContextRequired);
  }

  /** One purchase, seen as accounting. */
  lemma PurchaseAccount(u: UsageSnapshot, r: Request, c: string)
    requires Allowed(With(r, u)) && CommerceMandate(r.mandate) && r.mandate.rwa.None?
             && c == r.mandate.commerce.value.currency
    ensures Purchase(Effective(r), c) && Countable(Normalized(u))
    ensures Account(Normalized(u), Effective(r)) == Returned(Normalized(After(u, r)))
  {
    hide Allowed, Normalized, Effective, Add, IsDecimal, KeyOrder.Sorted, NextKeys;
    NoRwaContext(u, r);
    PurchaseTerms(u, r);
    PurchaseDelta(r);
    Step(u, r);
    StepAmounts(u, r);
    SameEffective(r, u);
    NormalizedSorted(u);
    NextIsAccount(With(r, u));
  }

  lemma NormalizedSorted(u: UsageSnapshot)
    ensures KeyOrder.Sorted(Normalized(u).idempotencyKeys)
  {
    KeyOrder.SortSorts(GetOr(u.idempotencyKeys, []));
  }

  lemma NextIsAccount(r: Request)
    requires r.rwa.None?
    ensures Next(r) == Account(Normalized(r.usage), Effective(r))
  {
    hide Normalized, Effective, Add;
  }

  lemma {:induction false} RunIsAccount(m: Mandate, start: UsageSnapshot, rs: seq<Request>)
    requires CommerceMandate(m) && m.rwa.None? && AllowedRun(start, rs) && rs != []
    requires forall i :: 0 <= i < |rs| ==> rs[i].mandate == m
    ensures Countable(Normalized(start)) && Purchases(Deltas(rs), m.commerce.value.currency)
    ensures AccountAll(Normalized(start), Deltas(rs)) == Returned(Normalized(RunUsage(start, rs)))
    ensures RunUsage(start, rs) == Snapshot(Normalized(RunUsage(start, rs)))
  {
    hide Allowed, Normalized, Effective, Account, Countable, Purchase;
    var front, r, c := rs[..|rs| - 1], rs[|rs| - 1], m.commerce.value.currency;
    var u := RunUsage(start, front);
    PurchaseAccount(u, r, c);
    Step(u, r);
    var ds := Deltas(rs);
    assert ds[..|ds| - 1] == Deltas(front);
    if front != [] {
      RunIsAccount(m, start, front);
    }
  }

  /** Two fully allowed orderings of the same purchases leave the identical usage snapshot. */
  lemma OrderDoesNotMatter(m: Mandate, start: UsageSnapshot, a: seq<Request>, b: seq<Request>)
    requires CommerceMandate(m) && m.rwa.None?
    requires forall i :: 0 <= i < |a| ==> a[i].mandate == m
    requires multiset(a) == multiset(b) && AllowedRun(start, a) && AllowedRun(start, b)
    ensures RunUsage(start, a) == RunUsage(start, b)
  {
    hide Allowed, AllowedRun, Normalized, Effective, Countable, Purchases, RunUsage;
    assert |a| == |multiset(a)| == |multiset(b)| == |b|;
    if a == [] {
      assert a == b;
    } else {
      SameMandate(m, a, b);
      RunIsAccount(m, start, a);
      RunIsAccount(m, start, b);
      DeltasKeepContents(a, b);
      AccountIgnoresOrder(Normalized(start), Deltas(a), Deltas(b), m.commerce.value.currency);
    }
  }

  lemma SameMandate(m: Mandate, a: seq<Request>, b: seq<Request>)
    requires multiset(a) == multiset(b) && forall i :: 0 <= i < |a| ==> a[i].mandate == m
    ensures forall i :: 0 <= i < |b| ==> b[i].mandate == m
  {
    forall i | 0 <= i < |b|
      ensures b[i].mandate == m
    {
      assert b[i] in multiset(a);
    }
  }

  /******* The runs spoken of exist *******/

  function ProfileMandate(profile: string, commerce: Option<CommerceTerms>, rwa: Option<RwaTerms>): Mandate {
    Mandate("m", "agent", None, "p", ["x"], None, None, None, None, None, None, Ms(0), Ms(2), Active, Some(profile),
            commerce, rwa)
  }

  function ProfileRequest(
      m: Mandate, u: UsageSnapshot, commerce: Option<CommerceContext>, rwa: Option<RwaContext>): Request {
    Request(Ms(1), m, None, None, Envelope("tx", "m", "agent", "x", "r", Some("p"), None, None, None, None, None),
            u, None, commerce, rwa)
  }

  /** Without limits and supplied consumption, only the profile terms can object. */
  lemma OnlyTermsObject(m: Mandate, u: UsageSnapshot, commerce: Option<CommerceContext>, rwa: Option<RwaContext>)
    requires m.profile.Some? && m == ProfileMandate(m.profile.value, m.commerce, m.rwa)
    requires u.consumed.None? && u.idempotencyKeys.None?
    ensures var r := ProfileRequest(m, u, commerce, rwa);
            && GrantDefined(r) && ConsumptionDefined(m, Normalized(u), Effective(r))
            && forall c :: !GrantFinding(r, c) && !SpendFinding(r, c)
  {
  }

  const SALE := CommerceTerms("merchant", "r", "offer", "EUR", None, None, "3", "9", 2)

  function Sale(): Request {
    ProfileRequest(ProfileMandate(COMMERCE_PROFILE, Some(SALE), None), EMPTY_USAGE,
                   Some(CommerceContext("merchant", "r", Quote("offer", "EUR", 2, "3", "6", "key", None))), None)
  }

  /** A purchase of two units at three under a budget of nine is allowed, so Commerce runs exist. */
  lemma SaleIsAllowed()
    ensures CommerceMandate(Sale().mandate) && AllowedRun(EMPTY_USAGE, [Sale()])
  {
    var r := Sale();
    OnlyTermsObject(r.mandate, r.usage, r.commerce, r.rwa);
    hide GrantFinding, SpendFinding, GrantDefined, ConsumptionDefined;
    SaleTerms(r.commerce.value, Normalized(r.usage));
    assert [r][..0] == [] && With(r, EMPTY_USAGE) == r;
    hide CommerceViolation, CommerceDefined, With;
    IntegerMeaning(0);
    IntegerMeaning(2);
    assert Clean(r) && Spendable(r);
  }

  lemma SaleTerms(context: CommerceContext, usage: Usage)
    requires context == Sale().commerce.value && usage.amount == "0" && usage.idempotencyKeys == []
    ensures CommerceDefined(SALE, context.quote, usage) && IsDecimal(context.quote.total)
    ensures forall e: Envelope, c :: e.commerce.None? ==> !CommerceViolation(SALE, e, context, usage, c)
  {
    IntegerMeaning(0);
    IntegerMeaning(3);
    IntegerMeaning(6);
    IntegerMeaning(9);
  }

  const TOKEN := RwaTarget("asset", "claim", "network", "contract", "mint", "unit")

  const MINT := RwaTerms(TOKEN, "9", 0, [], false)

  function Mint(): Request {
    ProfileRequest(ProfileMandate(RWA_PROFILE, None, Some(MINT)), EMPTY_USAGE.(mintedSupply := Some("1")), None,
                   Some(RwaContext(TOKEN, "2", "9", 0, [], "1", None, Ms(2))))
  }

  /** Minting two units on a tracked supply of one is allowed, so RWA runs exist. */
  lemma MintIsAllowed()
    ensures RwaMandate(Mint().mandate) && AllowedRun(Mint().usage, [Mint()])
  {
    var r := Mint();
    OnlyTermsObject(r.mandate, r.usage, r.commerce, r.rwa);
    hide GrantFinding, SpendFinding, GrantDefined, ConsumptionDefined;
    MintObjects(r.rwa.value, Normalized(r.usage));
    assert [r][..0] == [] && With(r, r.usage) == r;
    hide RwaViolation, RwaDefined, With;
    IntegerMeaning(0);
    assert Clean(r) && Spendable(r);
  }

  lemma MintObjects(context: RwaContext, usage: Usage)
    requires context == Mint().rwa.value && usage.quantity == "0" && usage.mintedSupply == "1"
    ensures RwaDefined(MINT, context, usage, true) && IsDecimal(context.quantity)
    ensures forall e: Envelope, c :: e.rwa.None? ==> !RwaViolation(MINT, e, context, usage, true, 1, c)
  {
    IntegerMeaning(0);
    IntegerMeaning(1);
    IntegerMeaning(2);
    IntegerMeaning(9);
  }
}
