/**
 What the evaluator answers, in the fields of the request: when it throws, which reason codes a denial
 carries, what an allowed request satisfies, and the usage it proposes.

 Nothing here is used by the evaluator or by its definition in module Authority; each condition is
 written out anew from the request and proved to be the one the answer obeys.
 */
module Answers {
  import opened Wrappers
  import opened Decimals
  import opened Limits
  import opened Authority
  import KeyOrder

  /******* Fields with their defaults *******/

  function TextOr(o: Option<string>, fallback: string): string {
    match o
    case None => fallback
    case Some(s) => s
  }

  function Supplied(r: Request): Consumption {
    if r.consumption.Some? then r.consumption.value else Consumption(None, None, None, None, None, None)
  }

  /** The amount asked for: the purchase's total, or what the caller supplies. */
  function AskedAmount(r: Request): string {
    if r.commerce.Some? then r.commerce.value.quote.total else TextOr(Supplied(r).amount, "0")
  }

  function AskedCurrency(r: Request): string {
    if r.commerce.Some? then r.commerce.value.quote.currency else TextOr(Supplied(r).currency, "")
  }

  /** The quantity asked for: the purchase's, else the operation's, else what the caller supplies. */
  function AskedQuantity(r: Request): string {
    if r.commerce.Some? then IntToString(r.commerce.value.quote.quantity)
    else if r.rwa.Some? then r.rwa.value.quantity
    else TextOr(Supplied(r).quantity, "0")
  }

  function AskedKey(r: Request): string {
    if r.commerce.Some? then r.commerce.value.quote.idempotencyKey else TextOr(Supplied(r).idempotencyKey, "")
  }

  function AskedCalls(r: Request): int {
    if Supplied(r).calls.Some? then Supplied(r).calls.value else 1
  }

  /** A limit of the Mandate, when it has one under this name. */
  function LimitOf(m: Mandate, name: string): Option<Item> {
    if m.limits.Some? && name in m.limits.value then Some(m.limits.value[name]) else None
  }

  /** The Mandate is one-time by its extension or by a limit that JavaScript takes for true. */
  predicate SingleUse(m: Mandate) {
    || (m.rwa.Some? && m.rwa.value.oneTime)
    || (match LimitOf(m, "one_time")
        case None => false
        case Some(Primitive(Null)) => false
        case Some(Primitive(Bool(b))) => b
        case Some(Primitive(Number(n))) => n != 0
        case Some(Primitive(Text(s))) => s != ""
        case Some(_) => true)
  }

  predicate Consumes(r: Request) {
    SingleUse(r.mandate) || Supplied(r).consume == Some(true)
  }

  function UsedCalls(r: Request): int {
    if r.usage.calls.Some? then r.usage.calls.value else 0
  }

  function UsedKeys(r: Request): seq<string> {
    if r.usage.idempotencyKeys.Some? then r.usage.idempotencyKeys.value else []
  }

  predicate Used(r: Request) {
    r.usage.consumed == Some(true)
  }

  /** The effective consumption has these fields. */
  lemma EffectiveMeans(r: Request)
    ensures Effective(r) == Delta(AskedCalls(r), AskedAmount(r), AskedCurrency(r), AskedQuantity(r), AskedKey(r),
                                  Consumes(r))
  {
    hide IntToString;
  }

  /** The normalized usage has these fields; its keys are the given ones, sorted. */
  lemma NormalizedMeans(r: Request)
    ensures var u := Normalized(r.usage);
            && u.calls == UsedCalls(r) && u.amount == TextOr(r.usage.amount, "0")
            && u.currency == TextOr(r.usage.currency, "") && u.quantity == TextOr(r.usage.quantity, "0")
            && (u.consumed <==> Used(r)) && u.mintedSupply == TextOr(r.usage.mintedSupply, "0")
            && multiset(u.idempotencyKeys) == multiset(UsedKeys(r)) && KeyOrder.Sorted(u.idempotencyKeys)
            && forall k :: k in u.idempotencyKeys <==> k in UsedKeys(r)
  {
    var u := Normalized(r.usage);
    KeyOrder.SortSorts(UsedKeys(r));
    hide KeyOrder.Sorted, KeyOrder.Sort;
    forall k
      ensures k in u.idempotencyKeys <==> k in UsedKeys(r)
    {
      assert k in u.idempotencyKeys <==> k in multiset(u.idempotencyKeys);
      assert k in UsedKeys(r) <==> k in multiset(UsedKeys(r));
    }
  }

  /******* Numbers and instants *******/

  /** Both are decimals and the first denotes the larger number. */
  ghost predicate Over(a: string, b: string) {
    IsDecimal(a) && IsDecimal(b) && Value(a) > Value(b)
  }

  /** All are decimals and the sum of the first two exceeds the third. */
  ghost predicate SumOver(a: string, b: string, limit: string) {
    IsDecimal(a) && IsDecimal(b) && IsDecimal(limit) && Value(a) + Value(b) > Value(limit)
  }

  predicate Before(a: Instant, b: Instant) {
    a.Ms? && b.Ms? && a.t < b.t
  }

  predicate Given(o: Option<string>) {
    o.Some? && o.value != ""
  }

  /******* The Mandate, the Envelope and the parent *******/

  /** A constraint is set and the value is missing, empty, or not among those listed. */
  predicate Outside(allowed: Option<seq<string>>, actual: Option<string>) {
    allowed.Some? && (actual.None? || actual.value == "" || actual.value !in allowed.value)
  }

  /** When a code about the Mandate and the Envelope is called for. */
  predicate CoreCalls(r: Request, c: Code) {
    var m, e := r.mandate, r.envelope;
    match c
    case MandateNotActive => m.status != Active
    case MandateNotYetActive => Before(r.time, m.notBefore)
    case MandateExpired => !Before(r.time, m.expiresAt)
    case MandateReferenceMismatch => e.mandateId != m.id
    case SubjectMismatch => e.agentId != m.subject
    case ActionNotAllowed => e.action !in m.actions
    case ResourceNotAllowed => Outside(m.resources, Some(e.resource))
    case PurposeMismatch => e.purpose != Some(m.purpose)
    case CounterpartyNotAllowed => Outside(m.counterparties, e.counterparty)
    case DestinationNotAllowed => Outside(m.destinations, e.destination)
    case ProfileMismatch => e.profile.Some? && e.profile != m.profile
    case ParentMandateRequired => r.parent.None? && Given(m.parentMandate)
    case _ => false
  }

  lemma CoreMeans(r: Request, c: Code)
    requires CoreDefined(r)
    ensures StandingViolation(r, c) || AddressViolation(r, c) || ActionViolation(r.mandate, r.envelope, c) <==>
            CoreCalls(r, c)
  {
  }

  /** Something in the first list is not in the second. */
  predicate Adds(child: seq<string>, parent: seq<string>) {
    exists i :: 0 <= i < |child| && child[i] !in parent
  }

  predicate AddsTo(child: Option<seq<string>>, parent: Option<seq<string>>) {
    parent.Some? && (child.None? || Adds(child.value, parent.value))
  }

  /** The limits of the child admit something that those of the parent do not. */
  ghost predicate AdmitsBeyond(child: Option<Fields>, parent: Option<Fields>) {
    exists use :: AllAdmit(child, use) && !AllAdmit(parent, use)
  }

  /** The child's Commerce terms are the parent's, with limits that are decimals and not larger. */
  ghost predicate TermsWithin(child: CommerceTerms, parent: CommerceTerms) {
    && child.merchant == parent.merchant && child.service == parent.service && child.offer == parent.offer
    && child.currency == parent.currency && child.billingModel == parent.billingModel
    && child.termsDigest == parent.termsDigest
    && IsDecimal(child.maxUnitPrice) && IsDecimal(parent.maxUnitPrice) && !Over(child.maxUnitPrice, parent.maxUnitPrice)
    && IsDecimal(child.maxTotal) && IsDecimal(parent.maxTotal) && !Over(child.maxTotal, parent.maxTotal)
    && child.maxQuantity <= parent.maxQuantity
  }

  /** The child's RWA terms have the parent's target, no larger quantity, at least its approvals and roles. */
  ghost predicate OperationWithin(child: RwaTerms, parent: RwaTerms) {
    && child.target.asset == parent.target.asset && child.target.stateClaim == parent.target.stateClaim
    && child.target.network == parent.target.network && child.target.tokenContract == parent.target.tokenContract
    && child.target.operation == parent.target.operation && child.target.unit == parent.target.unit
    && IsDecimal(child.maxQuantity) && IsDecimal(parent.maxQuantity) && !Over(child.maxQuantity, parent.maxQuantity)
    && child.minimumApprovals >= parent.minimumApprovals
    && !Adds(parent.requiredRoles, child.requiredRoles) && (parent.oneTime ==> child.oneTime)
  }

  /** When a code about the parent and the child's window and depth is called for. */
  predicate ParentCalls(m: Mandate, p: Mandate, depth: int, now: Instant, c: Code) {
    match c
    case ParentMandateMismatch => m.parentMandate != Some(p.id)
    case ParentMandateNotActive => p.status != Active || Before(now, p.notBefore) || !Before(now, p.expiresAt)
    case DelegationNotAllowed =>
      p.delegation.None? || !p.delegation.value.allowed || depth > p.delegation.value.maxDepth
    case ChildTimeAmplification => Before(m.notBefore, p.notBefore) || Before(p.expiresAt, m.expiresAt)
    case ChildDelegationAmplification =>
      && m.delegation.Some? && m.delegation.value.allowed && m.delegation.value.maxDepth > 0
      && p.delegation.Some? && m.delegation.value.maxDepth + depth > p.delegation.value.maxDepth
    case _ => false
  }

  /** When a code about the child's sets, purpose, limits and data use is called for. */
  ghost predicate TermCalls(m: Mandate, p: Mandate, c: Code) {
    match c
    case ChildActionAmplification => Adds(m.actions, p.actions)
    case ChildResourceAmplification => AddsTo(m.resources, p.resources)
    case ChildCounterpartyAmplification => AddsTo(m.counterparties, p.counterparties)
    case ChildDestinationAmplification => AddsTo(m.destinations, p.destinations)
    case ChildPurposeAmplification => m.purpose != p.purpose
    case ChildLimitAmplification => AdmitsBeyond(m.limits, p.limits)
    case ChildDataUseAmplification => AdmitsBeyond(m.dataUse, p.dataUse)
    case _ => false
  }

  /** When a code about the child's profile and its terms is called for. */
  ghost predicate ProfileCalls(m: Mandate, p: Mandate, c: Code) {
    match c
    case ChildProfileAmplification => m.profile != p.profile && (Given(m.profile) || Given(p.profile))
    case ChildCommerceAmplification =>
      && m.profile == p.profile && p.commerce.Some?
      && (m.commerce.None? || !TermsWithin(m.commerce.value, p.commerce.value))
    case ChildRwaAmplification =>
      && m.profile == p.profile && p.rwa.Some?
      && (m.rwa.None? || !OperationWithin(m.rwa.value, p.rwa.value))
    case _ => false
  }

  lemma SetMeans(child: seq<string>, parent: seq<string>)
    ensures Subset(child, parent) <==> !Adds(child, parent)
  {
    if !Subset(child, parent) {
      var item :| item in child && item !in parent;
      var i :| 0 <= i < |child| && child[i] == item;
    }
  }

  lemma ConstraintMeans(child: Option<seq<string>>, parent: Option<seq<string>>)
    ensures ConstrainedSubset(child, parent) <==> !AddsTo(child, parent)
  {
    if child.Some? && parent.Some? {
      SetMeans(child.value, parent.value);
    }
  }

  lemma BeyondMeans(child: Option<Fields>, parent: Option<Fields>)
    ensures Narrower(child, parent) <==> !AdmitsBeyond(child, parent)
  {
    NarrowerMeaning(child, parent);
    hide Narrower, AllAdmit;
  }

  lemma TermsMean(child: CommerceTerms, parent: CommerceTerms)
    ensures CommerceNarrower(child, parent) <==> TermsWithin(child, parent)
  {
    hide IsDecimal, Value;
  }

  lemma OperationMeans(child: RwaTerms, parent: RwaTerms)
    ensures RwaNarrower(child, parent) <==> OperationWithin(child, parent)
  {
    SetMeans(parent.requiredRoles, child.requiredRoles);
    hide IsDecimal, Value, Subset, Adds;
  }

  lemma ParentMeans(m: Mandate, p: Mandate, depth: int, now: int, c: Code)
    requires ActivityDefined(p, now) && SpanDefined(m, p)
    ensures ParentViolation(m, p, depth, now, c) || SpanViolation(m, p, depth, c) <==>
            ParentCalls(m, p, depth, Ms(now), c)
  {
  }

  lemma TermsOfChildMean(m: Mandate, p: Mandate, c: Code)
    ensures SetViolation(m, p, c) || TermViolation(m, p, c) <==> TermCalls(m, p, c)
  {
    SetMeans(m.actions, p.actions);
    ConstraintMeans(m.resources, p.resources);
    ConstraintMeans(m.counterparties, p.counterparties);
    ConstraintMeans(m.destinations, p.destinations);
    BeyondMeans(m.limits, p.limits);
    BeyondMeans(m.dataUse, p.dataUse);
    hide Subset, ConstrainedSubset, Narrower, Adds, AddsTo, AdmitsBeyond;
  }

  lemma ProfileMeans(m: Mandate, p: Mandate, c: Code)
    requires ProfileComparable(m, p)
    ensures ProfileViolation(m, p, c) <==> ProfileCalls(m, p, c)
  {
    if m.commerce.Some? && p.commerce.Some? {
      TermsMean(m.commerce.value, p.commerce.value);
    }
    if m.rwa.Some? && p.rwa.Some? {
      OperationMeans(m.rwa.value, p.rwa.value);
    }
    hide CommerceNarrower, RwaNarrower, ProfileComparable, TermsWithin, OperationWithin;
  }

  lemma ChildMeans(m: Mandate, p: Mandate, depth: int, now: int, c: Code)
    requires ChildDefined(m, p, now)
    ensures ChildViolation(m, p, depth, now, c) <==>
            ParentCalls(m, p, depth, Ms(now), c) || TermCalls(m, p, c) || ProfileCalls(m, p, c)
  {
    ParentMeans(m, p, depth, now, c);
    TermsOfChildMean(m, p, c);
    ProfileMeans(m, p, c);
    hide ParentViolation, SpanViolation, SetViolation, TermViolation, ProfileViolation;
    hide ParentCalls, TermCalls, ProfileCalls;
  }

  /******* Consumption *******/

  /** A supplied text is there and is not the effective one. */
  predicate Differs(supplied: Option<string>, effective: string) {
    supplied.Some? && supplied.value != effective
  }

  /** When a code about consumption is called for. */
  ghost predicate SpendCalls(r: Request, c: Code) {
    var m, s := r.mandate, Supplied(r);
    match c
    case ConsumptionContextMismatch =>
      || (r.commerce.Some? &&
          (Differs(s.amount, AskedAmount(r)) || Differs(s.currency, AskedCurrency(r))
           || Differs(s.quantity, AskedQuantity(r)) || Differs(s.idempotencyKey, AskedKey(r))))
      || (r.rwa.Some? && Differs(s.quantity, AskedQuantity(r)))
      || (Consumes(r) && s.consume == Some(false))
    case MandateAlreadyConsumed => Used(r)
    case IdempotencyReplay => AskedKey(r) != "" && AskedKey(r) in UsedKeys(r)
    case CallLimitExceeded =>
      (match LimitOf(m, "max_calls")
       case Some(Primitive(Number(n))) => UsedCalls(r) + AskedCalls(r) > n
       case _ => false)
    case QuantityLimitExceeded =>
      m.profile.None? &&
      (match LimitOf(m, "max_quantity")
       case Some(Primitive(Text(t))) => SumOver(TextOr(r.usage.quantity, "0"), AskedQuantity(r), t)
       case Some(Primitive(Number(n))) => SumOver(TextOr(r.usage.quantity, "0"), AskedQuantity(r), IntToString(n))
       case _ => false)
    case BudgetCurrencyMismatch =>
      AskedAmount(r) != "0" &&
      (match (LimitOf(m, "max_total"), LimitOf(m, "currency"))
       case (Some(Primitive(Text(_))), Some(Primitive(Text(currency)))) =>
         currency != "" &&
         (AskedCurrency(r) != currency
          || (TextOr(r.usage.amount, "0") != "0" && TextOr(r.usage.currency, "") != currency))
       case _ => false)
    case BudgetExceeded =>
      AskedAmount(r) != "0" &&
      (match LimitOf(m, "max_total")
       case Some(Primitive(Text(t))) => SumOver(TextOr(r.usage.amount, "0"), AskedAmount(r), t)
       case _ => false)
    case _ => false
  }

  lemma MismatchMeans(r: Request)
    ensures ContextMismatch(r, Effective(r)) <==> SpendCalls(r, ConsumptionContextMismatch)
  {
    EffectiveMeans(r);
    hide Effective, AskedAmount, AskedCurrency, AskedQuantity, AskedKey, Consumes;
  }

  lemma OnceMeans(r: Request, c: Code)
    ensures SpendViolation(r.mandate, Normalized(r.usage), Effective(r), c) <==>
            SpendCalls(r, c) && c in {MandateAlreadyConsumed, IdempotencyReplay, CallLimitExceeded}
  {
    EffectiveMeans(r);
    NormalizedMeans(r);
    hide Effective, Normalized, AskedAmount, AskedCurrency, AskedQuantity, AskedKey, Consumes, UsedKeys;
    hide SumOver, IntToString;
  }

  lemma LimitsMean(r: Request, c: Code)
    requires ConsumptionDefined(r.mandate, Normalized(r.usage), Effective(r))
    ensures LimitViolation(r.mandate, Normalized(r.usage), Effective(r), c) <==>
            SpendCalls(r, c) && c in {QuantityLimitExceeded, BudgetCurrencyMismatch, BudgetExceeded}
  {
    EffectiveMeans(r);
    NormalizedMeans(r);
    hide Effective, Normalized, AskedAmount, AskedCurrency, AskedQuantity, AskedKey, Consumes, UsedKeys;
    hide IsDecimal, Value, IntToString;
  }

  lemma SpendMeans(r: Request, c: Code)
    requires ConsumptionDefined(r.mandate, Normalized(r.usage), Effective(r))
    ensures SpendFinding(r, c) <==> SpendCalls(r, c)
  {
    MismatchMeans(r);
    OnceMeans(r, c);
    LimitsMean(r, c);
    hide Effective, Normalized, ContextMismatch, SpendViolation, LimitViolation;
    if SpendCalls(r, c) {
      SpendCodesOnly(r, c);
    }
    hide SpendCalls;
  }

  lemma SpendCodesOnly(r: Request, c: Code)
    requires SpendCalls(r, c)
    ensures c in {ConsumptionContextMismatch, MandateAlreadyConsumed, IdempotencyReplay, CallLimitExceeded,
                  QuantityLimitExceeded, BudgetCurrencyMismatch, BudgetExceeded}
  {
    hide SumOver, IntToString;
  }

  /******* Commerce *******/

  /** The evaluation is a Commerce one: a purchase is given, or the profile demands one. */
  predicate CommerceAsked(r: Request) {
    r.commerce.Some? || r.mandate.profile == Some("https://specs.intelliger.ai/oati/profiles/commerce/v0.1")
  }

  /** When a code about the purchase, its signed Envelope aside, is called for. */
  ghost predicate PurchaseCalls(r: Request, terms: CommerceTerms, context: CommerceContext, c: Code) {
    var q := context.quote;
    var spent, currency := TextOr(r.usage.amount, "0"), TextOr(r.usage.currency, "");
    match c
    case CommerceMerchantNotAllowed => context.merchant != terms.merchant
    case CommerceServiceNotAllowed => context.service != terms.service
    case CommerceOfferNotAllowed => q.offer != terms.offer
    case CommerceCurrencyMismatch => q.currency != terms.currency || (spent != "0" && currency != q.currency)
    case CommerceUnitPriceExceeded => Over(q.unitPrice, terms.maxUnitPrice)
    case CommerceTotalInvalid =>
      IsDecimal(q.total) && IsDecimal(q.unitPrice) && Value(q.total) != Value(q.unitPrice) * q.quantity as real
    case CommerceBudgetExceeded => SumOver(spent, q.total, terms.maxTotal)
    case CommerceQuantityExceeded => q.quantity > terms.maxQuantity
    case CommerceTermsMismatch => Given(terms.termsDigest) && q.termsDigest != terms.termsDigest
    case _ => false
  }

  /** The signed Envelope states another purchase. */
  predicate SignedOtherwise(e: Envelope, context: CommerceContext) {
    e.commerce.Some? &&
    (e.resource != context.service || e.counterparty != Some(context.merchant)
     || e.commerce.value.quote != Some(context.quote))
  }

  /** When a code about Commerce is called for. */
  ghost predicate CommerceCalls(r: Request, c: Code) {
    CommerceAsked(r) &&
    if r.commerce.None? || r.mandate.commerce.None? then c == CommerceContextRequired
    else
      var terms, context := r.mandate.commerce.value, r.commerce.value;
      || PurchaseCalls(r, terms, context, c)
      || (c == IdempotencyReplay && context.quote.idempotencyKey in UsedKeys(r))
      || (c == CommerceEnvelopeContextMismatch && SignedOtherwise(r.envelope, context)
          && forall d :: !PurchaseCalls(r, terms, context, d))
  }

  lemma PurchaseMeans(r: Request, terms: CommerceTerms, context: CommerceContext, c: Code)
    requires CommerceDefined(terms, context.quote, Normalized(r.usage))
    ensures PurchaseViolation(terms, context, Normalized(r.usage), c) <==> PurchaseCalls(r, terms, context, c)
  {
    NormalizedMeans(r);
    hide Normalized, UsedKeys, IsDecimal, Value;
  }

  lemma CommerceMeans(r: Request, c: Code)
    requires CommerceReturns(r)
    ensures CommerceFinding(r, c) <==> CommerceCalls(r, c)
  {
    NormalizedMeans(r);
    hide Normalized, UsedKeys;
    if r.commerce.Some? && r.mandate.commerce.Some? {
      var terms, context := r.mandate.commerce.value, r.commerce.value;
      forall d
        ensures PurchaseViolation(terms, context, Normalized(r.usage), d) <==> PurchaseCalls(r, terms, context, d)
      {
        PurchaseMeans(r, terms, context, d);
      }
      hide PurchaseViolation, PurchaseCalls, CommerceDefined;
    }
  }

  /******* RWA *******/

  predicate RwaAsked(r: Request) {
    r.rwa.Some? || r.mandate.profile == Some("https://specs.intelliger.ai/oati/profiles/rwa/v0.1")
  }

  /** When a code about the operation on the asset is called for. */
  ghost predicate OperationCalls(r: Request, terms: RwaTerms, x: RwaContext, c: Code) {
    var e, supply := r.envelope, x.currentSupply;
    match c
    case RwaEnvelopeContextMismatch =>
      e.rwa.Some? &&
      (e.resource != x.target.asset || e.rwa.value.target != Some(x.target) || e.rwa.value.quantity != Some(x.quantity))
    case RwaTargetMismatch =>
      || x.target.asset != terms.target.asset || x.target.stateClaim != terms.target.stateClaim
      || x.target.network != terms.target.network || x.target.tokenContract != terms.target.tokenContract
      || x.target.operation != terms.target.operation || x.target.unit != terms.target.unit
    case RwaStateClaimExpired => !Before(r.time, x.claimValidUntil)
    case RwaQuantityExceeded => SumOver(TextOr(r.usage.quantity, "0"), x.quantity, terms.maxQuantity)
    case RwaReserveExceeded => SumOver(supply, x.quantity, x.reserve)
    case RwaMaximumSupplyExceeded => Given(x.maximumSupply) && SumOver(supply, x.quantity, x.maximumSupply.value)
    case RwaSupplyStateMismatch =>
      && r.usage.mintedSupply.Some? && IsDecimal(r.usage.mintedSupply.value) && IsDecimal(supply)
      && Value(r.usage.mintedSupply.value) != Value(supply)
    case RwaApprovalThresholdNotMet => x.approvalCount < terms.minimumApprovals
    case RwaRequiredRoleMissing => Adds(terms.requiredRoles, x.approvalRoles)
    case MandateAlreadyConsumed => terms.oneTime && Used(r)
    case _ => false
  }

  /** When a code about RWA is called for. */
  ghost predicate RwaCalls(r: Request, c: Code) {
    RwaAsked(r) &&
    if r.rwa.None? || r.mandate.rwa.None? then c == RwaContextRequired
    else OperationCalls(r, r.mandate.rwa.value, r.rwa.value, c)
  }

  lemma TargetCodesMean(r: Request, terms: RwaTerms, x: RwaContext, c: Code)
    requires r.time.Ms? && x.claimValidUntil.Ms?
    ensures TargetViolation(terms, r.envelope, x, r.time.t, c)
            || ApprovalViolation(terms, x, Normalized(r.usage), c) <==>
            OperationCalls(r, terms, x, c) &&
            c in {RwaEnvelopeContextMismatch, RwaTargetMismatch, RwaStateClaimExpired, RwaApprovalThresholdNotMet,
                  RwaRequiredRoleMissing, MandateAlreadyConsumed}
  {
    NormalizedMeans(r);
    SetMeans(terms.requiredRoles, x.approvalRoles);
    hide Normalized, UsedKeys, Subset, Adds, SumOver, IsDecimal, Value;
  }

  lemma SupplyCodesMean(r: Request, terms: RwaTerms, x: RwaContext, c: Code)
    requires RwaDefined(terms, x, Normalized(r.usage), Tracked(r))
    ensures QuotaViolation(terms, x, Normalized(r.usage), Tracked(r), c) || SupplyViolation(x, c) <==>
            OperationCalls(r, terms, x, c) &&
            c in {RwaQuantityExceeded, RwaReserveExceeded, RwaMaximumSupplyExceeded, RwaSupplyStateMismatch}
  {
    NormalizedMeans(r);
    hide Normalized, UsedKeys, Adds, IsDecimal, Value;
  }

  lemma OperationCodesOnly(r: Request, terms: RwaTerms, x: RwaContext, c: Code)
    requires OperationCalls(r, terms, x, c)
    ensures c in {RwaEnvelopeContextMismatch, RwaTargetMismatch, RwaStateClaimExpired, RwaApprovalThresholdNotMet,
                  RwaRequiredRoleMissing, MandateAlreadyConsumed, RwaQuantityExceeded, RwaReserveExceeded,
                  RwaMaximumSupplyExceeded, RwaSupplyStateMismatch}
  {
    hide SumOver, Adds, IsDecimal, Value;
  }

  lemma RwaMeans(r: Request, c: Code)
    requires RwaReturns(r) && r.time.Ms?
    ensures RwaFinding(r, c) <==> RwaCalls(r, c)
  {
    if r.rwa.Some? && r.mandate.rwa.Some? {
      var terms, x := r.mandate.rwa.value, r.rwa.value;
      TargetCodesMean(r, terms, x, c);
      SupplyCodesMean(r, terms, x, c);
      if OperationCalls(r, terms, x, c) {
        OperationCodesOnly(r, terms, x, c);
      }
      hide Normalized, OperationCalls, TargetViolation, QuotaViolation, SupplyViolation, ApprovalViolation,
           QuotaDefined;
      hide SupplyDefined;
      assert RwaFinding(r, c) <==> RwaViolation(terms, r.envelope, x, Normalized(r.usage), Tracked(r), r.time.t, c);
    }
  }

  /******* When the evaluation throws *******/

  /** The parent's times, delegation and terms can be read as far as the checks read them. */
  ghost predicate ParentReadable(m: Mandate, p: Mandate, now: Instant) {
    && (p.status == Active ==> p.notBefore.Ms? && (Before(now, p.notBefore) || p.expiresAt.Ms?))
    && p.notBefore.Ms? && (Before(m.notBefore, p.notBefore) || p.expiresAt.Ms?)
    && (m.delegation.Some? && m.delegation.value.allowed ==> p.delegation.Some?)
    && (m.profile == p.profile && m.commerce.Some? && p.commerce.Some? ==>
          PricesReadable(m.commerce.value, p.commerce.value))
    && (m.profile == p.profile && m.rwa.Some? && p.rwa.Some? && m.rwa.value.target == p.rwa.value.target ==>
          IsDecimal(m.rwa.value.maxQuantity) && IsDecimal(p.rwa.value.maxQuantity))
  }

  /** Between terms that otherwise agree, the prices are decimals, and so are the totals unless the
      child's unit price is larger. */
  ghost predicate PricesReadable(child: CommerceTerms, parent: CommerceTerms) {
    child.(maxUnitPrice := "", maxTotal := "", maxQuantity := 0) ==
    parent.(maxUnitPrice := "", maxTotal := "", maxQuantity := 0) ==>
      && IsDecimal(child.maxUnitPrice) && IsDecimal(parent.maxUnitPrice)
      && (Over(child.maxUnitPrice, parent.maxUnitPrice) || (IsDecimal(child.maxTotal) && IsDecimal(parent.maxTotal)))
  }

  /** The generic quantity and amount are decimals wherever a limit is compared with them. */
  ghost predicate SpendReadable(r: Request) {
    && (r.mandate.profile.None? ==>
          match LimitOf(r.mandate, "max_quantity")
          case Some(Primitive(Text(t))) =>
            IsDecimal(TextOr(r.usage.quantity, "0")) && IsDecimal(AskedQuantity(r)) && IsDecimal(t)
          case Some(Primitive(Number(n))) =>
            IsDecimal(TextOr(r.usage.quantity, "0")) && IsDecimal(AskedQuantity(r)) && n >= 0
          case _ => true)
    && (AskedAmount(r) != "0" ==>
          match LimitOf(r.mandate, "max_total")
          case Some(Primitive(Text(t))) =>
            IsDecimal(TextOr(r.usage.amount, "0")) && IsDecimal(AskedAmount(r)) && IsDecimal(t)
          case _ => true)
  }

  ghost predicate PurchaseReadable(r: Request, terms: CommerceTerms, q: Quote) {
    && IsDecimal(q.unitPrice) && IsDecimal(q.total) && q.quantity >= 0
    && IsDecimal(terms.maxUnitPrice) && IsDecimal(terms.maxTotal) && terms.maxQuantity >= 0
    && IsDecimal(TextOr(r.usage.amount, "0"))
  }

  ghost predicate OperationReadable(r: Request, terms: RwaTerms, x: RwaContext) {
    && x.claimValidUntil.Ms? && IsDecimal(x.quantity) && IsDecimal(x.reserve) && IsDecimal(x.currentSupply)
    && (Given(x.maximumSupply) ==> IsDecimal(x.maximumSupply.value)) && IsDecimal(terms.maxQuantity)
    && IsDecimal(TextOr(r.usage.quantity, "0"))
    && (r.usage.mintedSupply.Some? ==> IsDecimal(r.usage.mintedSupply.value))
  }

  /** Every check can be carried out. */
  ghost predicate Readable(r: Request) {
    && r.time.Ms? && r.mandate.notBefore.Ms? && r.mandate.expiresAt.Ms?
    && (r.parent.Some? ==> ParentReadable(r.mandate, r.parent.value, r.time))
    && SpendReadable(r)
    && (r.commerce.Some? && r.mandate.commerce.Some? ==>
          PurchaseReadable(r, r.mandate.commerce.value, r.commerce.value.quote))
    && (r.rwa.Some? && r.mandate.rwa.Some? ==> OperationReadable(r, r.mandate.rwa.value, r.rwa.value))
  }

  /** The four amounts that accounting adds are decimals. */
  predicate Accountable(r: Request) {
    && IsDecimal(TextOr(r.usage.amount, "0")) && IsDecimal(AskedAmount(r))
    && IsDecimal(TextOr(r.usage.quantity, "0")) && IsDecimal(AskedQuantity(r))
  }

  lemma ComparableMeans(child: CommerceTerms, parent: CommerceTerms)
    ensures CommerceComparable(child, parent) <==> PricesReadable(child, parent)
  {
    assert SameTerms(child, parent) <==>
           child.(maxUnitPrice := "", maxTotal := "", maxQuantity := 0) ==
           parent.(maxUnitPrice := "", maxTotal := "", maxQuantity := 0);
    hide IsDecimal, Value, SameTerms;
  }

  lemma ParentReads(m: Mandate, p: Mandate, now: int)
    requires m.notBefore.Ms? && m.expiresAt.Ms?
    ensures ChildDefined(m, p, now) <==> ParentReadable(m, p, Ms(now))
  {
    if m.commerce.Some? && p.commerce.Some? {
      ComparableMeans(m.commerce.value, p.commerce.value);
    }
    hide IsDecimal, PricesReadable, CommerceComparable;
  }

  lemma SpendReads(r: Request)
    ensures ConsumptionDefined(r.mandate, Normalized(r.usage), Effective(r)) <==> SpendReadable(r)
  {
    EffectiveMeans(r);
    NormalizedMeans(r);
    var entry := LimitOf(r.mandate, "max_quantity");
    if IsNumber(entry) {
      IntegerMeaning(entry.value.p.n);
    }
    hide Effective, Normalized, AskedAmount, AskedCurrency, AskedQuantity, AskedKey, Consumes, UsedKeys;
    hide IsDecimal, IntToString;
  }

  lemma ProfileReads(r: Request)
    ensures CommerceReturns(r) && RwaReturns(r) <==>
            && (r.commerce.Some? && r.mandate.commerce.Some? ==>
                  PurchaseReadable(r, r.mandate.commerce.value, r.commerce.value.quote))
            && (r.rwa.Some? && r.mandate.rwa.Some? && r.rwa.value.claimValidUntil.Ms? ==>
                  OperationReadable(r, r.mandate.rwa.value, r.rwa.value))
            && (r.rwa.Some? && r.mandate.rwa.Some? ==> r.rwa.value.claimValidUntil.Ms?)
  {
    NormalizedMeans(r);
    hide Normalized, UsedKeys, IsDecimal;
  }

  lemma DefinedMeans(r: Request)
    ensures Defined(r) <==> Readable(r)
  {
    if r.time.Ms? && r.parent.Some? && r.mandate.notBefore.Ms? && r.mandate.expiresAt.Ms? {
      ParentReads(r.mandate, r.parent.value, r.time.t);
    }
    SpendReads(r);
    ProfileReads(r);
    hide ChildDefined, ParentReadable, ConsumptionDefined, SpendReadable, CommerceReturns, RwaReturns;
    hide PurchaseReadable, Normalized, Effective, IsDecimal;
  }

  lemma SpendableMeans(r: Request)
    ensures Spendable(r) <==> Accountable(r)
  {
    EffectiveMeans(r);
    NormalizedMeans(r);
    hide Effective, Normalized, AskedAmount, AskedCurrency, AskedQuantity, AskedKey, Consumes, UsedKeys, IsDecimal;
  }

  /******* The answer *******/

  /** When a code about the Mandate, the Envelope or the parent is called for; the default depth is one. */
  ghost predicate GrantCalls(r: Request, c: Code) {
    || CoreCalls(r, c)
    || (r.parent.Some? &&
        var depth := if r.depth.Some? then r.depth.value else 1;
        || ParentCalls(r.mandate, r.parent.value, depth, r.time, c)
        || TermCalls(r.mandate, r.parent.value, c)
        || ProfileCalls(r.mandate, r.parent.value, c))
  }

  /** Some check calls for the code. */
  ghost predicate Calls(r: Request, c: Code) {
    GrantCalls(r, c) || SpendCalls(r, c) || CommerceCalls(r, c) || RwaCalls(r, c)
  }

  lemma GrantMeans(r: Request, c: Code)
    requires GrantDefined(r)
    ensures GrantFinding(r, c) <==> GrantCalls(r, c)
  {
    CoreMeans(r, c);
    if r.parent.Some? {
      ChildMeans(r.mandate, r.parent.value, GetOr(r.depth, 1), r.time.t, c);
    }
    hide StandingViolation, AddressViolation, ActionViolation, ChildViolation, ChildDefined;
    hide CoreCalls, ParentCalls, TermCalls, ProfileCalls;
  }

  lemma ViolatesMeans(r: Request, c: Code)
    requires Defined(r)
    ensures Violates(r, c) <==> Calls(r, c)
  {
    hide GrantDefined, ConsumptionDefined, CommerceReturns, RwaReturns, Normalized, Effective;
    assert r.time.Ms? by { InTime(r); }
    GrantMeans(r, c);
    SpendMeans(r, c);
    CommerceMeans(r, c);
    RwaMeans(r, c);
    hide GrantFinding, SpendFinding, CommerceFinding, RwaFinding, GrantCalls, SpendCalls, CommerceCalls, RwaCalls;
  }

  lemma InTime(r: Request)
    requires GrantDefined(r)
    ensures r.time.Ms?
  {
  }

  /**
   The evaluation throws exactly when something it reads cannot be read, or nothing is wrong and an
   amount cannot be added; otherwise it reports exactly the codes that are called for.
   */
  lemma AnswerMeans(r: Request)
    ensures Evaluate(r).Threw? <==> !Readable(r) || ((forall c :: !Calls(r, c)) && !Accountable(r))
    ensures Evaluate(r).Returned? ==> forall c :: c in Evaluate(r).value.reasons <==> Calls(r, c)
  {
    DefinedMeans(r);
    SpendableMeans(r);
    if Defined(r) {
      forall c
        ensures Violates(r, c) <==> Calls(r, c)
      {
        ViolatesMeans(r, c);
      }
      AllowsExactlyAllowed(r);
      ThrowsOnAccounting(r);
    }
    hide Defined, Readable, Violates, Calls, Spendable, Accountable, Next, Normalized;
  }

  lemma ThrowsOnAccounting(r: Request)
    requires Defined(r)
    ensures Evaluate(r).Threw? <==> (forall c :: !Violates(r, c)) && !Spendable(r)
  {
    var reasons := set c: Code | Violates(r, c);
    hide Violates, Normalized;
    if forall c :: !Violates(r, c) {
      assert reasons == {};
      NextReturns(r);
    } else {
      var c :| Violates(r, c);
      assert c in reasons;
    }
    hide Next, Spendable;
  }

  /******* Allowed requests *******/

  /** The answer is "allow". */
  ghost predicate Allows(r: Request) {
    Evaluate(r).Returned? && Evaluate(r).value.reasons == {}
  }

  lemma NothingCalls(r: Request)
    ensures Allows(r) <==> Readable(r) && Accountable(r) && forall c :: !Calls(r, c)
  {
    AnswerMeans(r);
    hide Evaluate, Readable, Accountable, Calls;
    if Allows(r) {
      forall c
        ensures !Calls(r, c)
      {
        assert c !in Evaluate(r).value.reasons;
      }
    }
    if Evaluate(r).Returned? && forall c :: !Calls(r, c) {
      assert forall c :: c !in Evaluate(r).value.reasons;
    }
  }

  /** The constraint is not set, or the value is given and listed. */
  predicate Meets(allowed: Option<seq<string>>, actual: Option<string>) {
    allowed.Some? ==> actual.Some? && actual.value != "" && actual.value in allowed.value
  }

  /** The Envelope is addressed to the active Mandate, in time, for a permitted action. */
  predicate Fits(r: Request) {
    var m, e := r.mandate, r.envelope;
    && e.mandateId == m.id && e.agentId == m.subject && m.status == Active
    && r.time.Ms? && m.notBefore.Ms? && m.expiresAt.Ms? && m.notBefore.t <= r.time.t < m.expiresAt.t
    && e.action in m.actions && e.purpose == Some(m.purpose)
    && Meets(m.resources, Some(e.resource)) && Meets(m.counterparties, e.counterparty)
    && Meets(m.destinations, e.destination) && (e.profile.Some? ==> e.profile == m.profile)
  }

  lemma CoreAllows(r: Request)
    requires r.time.Ms? && r.mandate.notBefore.Ms? && r.mandate.expiresAt.Ms?
    ensures (forall c :: !CoreCalls(r, c)) <==> Fits(r) && (r.parent.None? ==> !Given(r.mandate.parentMandate))
  {
    if forall c :: !CoreCalls(r, c) {
      assert !CoreCalls(r, MandateNotActive) && !CoreCalls(r, MandateNotYetActive) && !CoreCalls(r, MandateExpired);
      assert !CoreCalls(r, MandateReferenceMismatch) && !CoreCalls(r, SubjectMismatch);
      assert !CoreCalls(r, ActionNotAllowed) && !CoreCalls(r, ResourceNotAllowed) && !CoreCalls(r, PurposeMismatch);
      assert !CoreCalls(r, CounterpartyNotAllowed) && !CoreCalls(r, DestinationNotAllowed);
      assert !CoreCalls(r, ProfileMismatch) && !CoreCalls(r, ParentMandateRequired);
    }
  }

  /** Every allowed request is addressed to the Mandate and its subject, while it is active, for an action,
      purpose, resource, counterparty, destination and profile it permits; a delegated Mandate has its parent. */
  lemma AllowedFits(r: Request)
    requires Allows(r)
    ensures Fits(r) && (r.parent.None? ==> !Given(r.mandate.parentMandate))
  {
    NothingCalls(r);
    hide Evaluate, Allows, CoreCalls, ParentCalls, TermCalls, ProfileCalls, SpendCalls, CommerceCalls, RwaCalls;
    hide SpendReadable, ParentReadable, PurchaseReadable, OperationReadable, Accountable;
    forall c
      ensures !CoreCalls(r, c)
    {
      assert !Calls(r, c);
    }
    CoreAllows(r);
    hide Fits;
  }

  /** The parent is the one named, active and deep enough, and the child's window, depth, sets, purpose,
      limits and profile lie within it. */
  ghost predicate ChildFits(m: Mandate, p: Mandate, depth: int, now: Instant) {
    && m.parentMandate == Some(p.id) && p.status == Active
    && p.notBefore.Ms? && p.expiresAt.Ms? && now.Ms? && p.notBefore.t <= now.t < p.expiresAt.t
    && p.delegation.Some? && p.delegation.value.allowed && depth <= p.delegation.value.maxDepth
    && m.notBefore.Ms? && m.expiresAt.Ms? && p.notBefore.t <= m.notBefore.t && m.expiresAt.t <= p.expiresAt.t
    && (m.delegation.Some? && m.delegation.value.allowed ==>
          m.delegation.value.maxDepth <= 0 || m.delegation.value.maxDepth + depth <= p.delegation.value.maxDepth)
    && !Adds(m.actions, p.actions) && !AddsTo(m.resources, p.resources)
    && !AddsTo(m.counterparties, p.counterparties) && !AddsTo(m.destinations, p.destinations)
    && m.purpose == p.purpose && !AdmitsBeyond(m.limits, p.limits) && !AdmitsBeyond(m.dataUse, p.dataUse)
    && (m.profile == p.profile || (!Given(m.profile) && !Given(p.profile)))
    && (m.profile == p.profile && p.commerce.Some? ==>
          m.commerce.Some? && TermsWithin(m.commerce.value, p.commerce.value))
    && (m.profile == p.profile && p.rwa.Some? ==> m.rwa.Some? && OperationWithin(m.rwa.value, p.rwa.value))
  }

  lemma ParentAllows(m: Mandate, p: Mandate, depth: int, now: Instant)
    requires ParentReadable(m, p, now) && now.Ms? && m.notBefore.Ms? && m.expiresAt.Ms?
    requires !ParentCalls(m, p, depth, now, ParentMandateMismatch)
    requires !ParentCalls(m, p, depth, now, ParentMandateNotActive)
    requires !ParentCalls(m, p, depth, now, DelegationNotAllowed)
    requires !ParentCalls(m, p, depth, now, ChildTimeAmplification)
    requires !ParentCalls(m, p, depth, now, ChildDelegationAmplification)
    ensures m.parentMandate == Some(p.id) && p.status == Active
    ensures p.notBefore.Ms? && p.expiresAt.Ms? && p.notBefore.t <= now.t < p.expiresAt.t
    ensures p.delegation.Some? && p.delegation.value.allowed && depth <= p.delegation.value.maxDepth
    ensures p.notBefore.t <= m.notBefore.t && m.expiresAt.t <= p.expiresAt.t
    ensures m.delegation.Some? && m.delegation.value.allowed ==>
              m.delegation.value.maxDepth <= 0 || m.delegation.value.maxDepth + depth <= p.delegation.value.maxDepth
  {
    hide PricesReadable, IsDecimal;
  }

  lemma TermsAllow(m: Mandate, p: Mandate)
    requires !TermCalls(m, p, ChildActionAmplification) && !TermCalls(m, p, ChildResourceAmplification)
    requires !TermCalls(m, p, ChildCounterpartyAmplification) && !TermCalls(m, p, ChildDestinationAmplification)
    requires !TermCalls(m, p, ChildPurposeAmplification) && !TermCalls(m, p, ChildLimitAmplification)
    requires !TermCalls(m, p, ChildDataUseAmplification)
    ensures !Adds(m.actions, p.actions) && !AddsTo(m.resources, p.resources)
    ensures !AddsTo(m.counterparties, p.counterparties) && !AddsTo(m.destinations, p.destinations)
    ensures m.purpose == p.purpose && !AdmitsBeyond(m.limits, p.limits) && !AdmitsBeyond(m.dataUse, p.dataUse)
  {
    hide Adds, AddsTo, AdmitsBeyond;
  }

  lemma ProfileAllows(m: Mandate, p: Mandate)
    requires !ProfileCalls(m, p, ChildProfileAmplification) && !ProfileCalls(m, p, ChildCommerceAmplification)
    requires !ProfileCalls(m, p, ChildRwaAmplification)
    ensures m.profile == p.profile || (!Given(m.profile) && !Given(p.profile))
    ensures m.profile == p.profile && p.commerce.Some? ==>
              m.commerce.Some? && TermsWithin(m.commerce.value, p.commerce.value)
    ensures m.profile == p.profile && p.rwa.Some? ==> m.rwa.Some? && OperationWithin(m.rwa.value, p.rwa.value)
  {
    hide TermsWithin, OperationWithin, Given;
  }

  lemma ChildAllows(m: Mandate, p: Mandate, depth: int, now: Instant)
    requires ParentReadable(m, p, now) && now.Ms? && m.notBefore.Ms? && m.expiresAt.Ms?
    requires forall c :: !ParentCalls(m, p, depth, now, c) && !TermCalls(m, p, c) && !ProfileCalls(m, p, c)
    ensures ChildFits(m, p, depth, now)
  {
    hide Adds, AddsTo, AdmitsBeyond, TermsWithin, OperationWithin, Given;
    hide ParentReadable, ParentCalls, TermCalls, ProfileCalls;
    ParentAllows(m, p, depth, now);
    TermsAllow(m, p);
    ProfileAllows(m, p);
  }

  /** An allowed request under a parent has a Mandate that fits the parent. */
  lemma AllowedChild(r: Request)
    requires Allows(r) && r.parent.Some?
    ensures ChildFits(r.mandate, r.parent.value, if r.depth.Some? then r.depth.value else 1, r.time)
  {
    hide Allows, CoreCalls, SpendCalls, CommerceCalls, RwaCalls, ParentCalls, TermCalls, ProfileCalls, ChildFits;
    hide SpendReadable, PurchaseReadable, OperationReadable, Accountable, ParentReadable;
    NothingCalls(r);
    var m, p, depth := r.mandate, r.parent.value, if r.depth.Some? then r.depth.value else 1;
    forall c
      ensures !ParentCalls(m, p, depth, r.time, c) && !TermCalls(m, p, c) && !ProfileCalls(m, p, c)
    {
      assert !Calls(r, c);
    }
    ChildAllows(m, p, depth, r.time);
  }

  /** The purchase is of the merchant, service, offer and terms named, in their currency, at most at the unit
      price and in the quantity they permit, priced exactly, within the budget, and is the purchase the signed
      Envelope states, if it states one. */
  ghost predicate PurchaseFits(r: Request, terms: CommerceTerms, x: CommerceContext) {
    var q, spent := x.quote, TextOr(r.usage.amount, "0");
    && x.merchant == terms.merchant && x.service == terms.service && q.offer == terms.offer
    && (Given(terms.termsDigest) ==> q.termsDigest == terms.termsDigest)
    && q.currency == terms.currency && (spent == "0" || TextOr(r.usage.currency, "") == q.currency)
    && IsDecimal(q.unitPrice) && IsDecimal(terms.maxUnitPrice) && Value(q.unitPrice) <= Value(terms.maxUnitPrice)
    && 0 <= q.quantity <= terms.maxQuantity
    && IsDecimal(q.total) && Value(q.total) == Value(q.unitPrice) * q.quantity as real
    && IsDecimal(spent) && IsDecimal(terms.maxTotal) && Value(spent) + Value(q.total) <= Value(terms.maxTotal)
    && (r.envelope.commerce.Some? ==>
          && r.envelope.commerce.value.quote == Some(q) && r.envelope.resource == x.service
          && r.envelope.counterparty == Some(x.merchant))
  }

  lemma PurchaseNames(r: Request, terms: CommerceTerms, x: CommerceContext)
    requires !PurchaseCalls(r, terms, x, CommerceMerchantNotAllowed)
    requires !PurchaseCalls(r, terms, x, CommerceServiceNotAllowed)
    requires !PurchaseCalls(r, terms, x, CommerceOfferNotAllowed)
    requires !PurchaseCalls(r, terms, x, CommerceTermsMismatch)
    requires !PurchaseCalls(r, terms, x, CommerceCurrencyMismatch)
    ensures x.merchant == terms.merchant && x.service == terms.service && x.quote.offer == terms.offer
    ensures Given(terms.termsDigest) ==> x.quote.termsDigest == terms.termsDigest
    ensures x.quote.currency == terms.currency
    ensures TextOr(r.usage.amount, "0") == "0" || TextOr(r.usage.currency, "") == x.quote.currency
  {
    hide IsDecimal, Value, Over, SumOver;
  }

  lemma PurchasePrices(r: Request, terms: CommerceTerms, x: CommerceContext)
    requires PurchaseReadable(r, terms, x.quote)
    requires !PurchaseCalls(r, terms, x, CommerceUnitPriceExceeded)
    requires !PurchaseCalls(r, terms, x, CommerceTotalInvalid)
    requires !PurchaseCalls(r, terms, x, CommerceBudgetExceeded)
    requires !PurchaseCalls(r, terms, x, CommerceQuantityExceeded)
    ensures var q, spent := x.quote, TextOr(r.usage.amount, "0");
            && IsDecimal(q.unitPrice) && IsDecimal(terms.maxUnitPrice)
               && Value(q.unitPrice) <= Value(terms.maxUnitPrice)
            && 0 <= q.quantity <= terms.maxQuantity
            && IsDecimal(q.total) && Value(q.total) == Value(q.unitPrice) * q.quantity as real
            && IsDecimal(spent) && IsDecimal(terms.maxTotal) && Value(spent) + Value(q.total) <= Value(terms.maxTotal)
  {
    hide IsDecimal, Value;
  }

  lemma PurchaseAllows(r: Request, terms: CommerceTerms, x: CommerceContext)
    requires PurchaseReadable(r, terms, x.quote) && forall d :: !PurchaseCalls(r, terms, x, d)
    requires !SignedOtherwise(r.envelope, x)
    ensures PurchaseFits(r, terms, x)
  {
    hide IsDecimal, Value, PurchaseCalls, PurchaseReadable;
    PurchaseNames(r, terms, x);
    PurchasePrices(r, terms, x);
  }

  /** An allowed purchase fits the Mandate's Commerce terms, under a key not yet used. */
  lemma AllowedPurchase(r: Request)
    requires Allows(r) && CommerceAsked(r)
    ensures r.commerce.Some? && r.mandate.commerce.Some?
    ensures PurchaseFits(r, r.mandate.commerce.value, r.commerce.value)
    ensures r.commerce.value.quote.idempotencyKey !in UsedKeys(r)
  {
    hide Allows, GrantCalls, RwaCalls, OperationReadable, ParentReadable, SpendReadable, Accountable;
    hide UsedKeys, CommerceAsked, SpendCalls, PurchaseReadable, PurchaseCalls, PurchaseFits, SignedOtherwise;
    NothingCalls(r);
    assert !Calls(r, CommerceContextRequired);
    var terms, x := r.mandate.commerce.value, r.commerce.value;
    forall d
      ensures !PurchaseCalls(r, terms, x, d)
    {
      assert !Calls(r, d);
    }
    assert !Calls(r, IdempotencyReplay) && !Calls(r, CommerceEnvelopeContextMismatch);
    PurchaseAllows(r, terms, x);
  }

  /** The operation has the target its terms name, rests on a claim that has not expired, stays within the
      terms' quantity, the reserve and the maximum supply, continues the tracked supply, has the approvals and
      roles required, and is the operation the signed Envelope states, if it states one. */
  ghost predicate OperationFits(r: Request, terms: RwaTerms, x: RwaContext) {
    var used := TextOr(r.usage.quantity, "0");
    && x.target == terms.target && r.time.Ms? && x.claimValidUntil.Ms? && r.time.t < x.claimValidUntil.t
    && IsDecimal(used) && IsDecimal(x.quantity) && IsDecimal(terms.maxQuantity)
    && Value(used) + Value(x.quantity) <= Value(terms.maxQuantity)
    && IsDecimal(x.currentSupply) && IsDecimal(x.reserve)
    && Value(x.currentSupply) + Value(x.quantity) <= Value(x.reserve)
    && (Given(x.maximumSupply) ==>
          IsDecimal(x.maximumSupply.value)
            && Value(x.currentSupply) + Value(x.quantity) <= Value(x.maximumSupply.value))
    && (r.usage.mintedSupply.Some? ==>
          IsDecimal(r.usage.mintedSupply.value) && Value(r.usage.mintedSupply.value) == Value(x.currentSupply))
    && x.approvalCount >= terms.minimumApprovals && !Adds(terms.requiredRoles, x.approvalRoles)
    && (r.envelope.rwa.Some? ==>
          && r.envelope.resource == x.target.asset && r.envelope.rwa.value.target == Some(x.target)
          && r.envelope.rwa.value.quantity == Some(x.quantity))
  }

  lemma OperationNames(r: Request, terms: RwaTerms, x: RwaContext)
    requires r.time.Ms? && x.claimValidUntil.Ms?
    requires !OperationCalls(r, terms, x, RwaEnvelopeContextMismatch) && !OperationCalls(r, terms, x, RwaTargetMismatch)
    requires !OperationCalls(r, terms, x, RwaStateClaimExpired)
    requires !OperationCalls(r, terms, x, RwaApprovalThresholdNotMet)
    requires !OperationCalls(r, terms, x, RwaRequiredRoleMissing)
    ensures x.target == terms.target && r.time.t < x.claimValidUntil.t
    ensures x.approvalCount >= terms.minimumApprovals && !Adds(terms.requiredRoles, x.approvalRoles)
    ensures r.envelope.rwa.Some? ==>
              && r.envelope.resource == x.target.asset && r.envelope.rwa.value.target == Some(x.target)
              && r.envelope.rwa.value.quantity == Some(x.quantity)
  {
    hide IsDecimal, Value, Adds, SumOver, Used;
  }

  lemma OperationAmounts(r: Request, terms: RwaTerms, x: RwaContext)
    requires OperationReadable(r, terms, x)
    requires !OperationCalls(r, terms, x, RwaQuantityExceeded) && !OperationCalls(r, terms, x, RwaReserveExceeded)
    requires !OperationCalls(r, terms, x, RwaMaximumSupplyExceeded)
    requires !OperationCalls(r, terms, x, RwaSupplyStateMismatch)
    ensures var used := TextOr(r.usage.quantity, "0");
            && IsDecimal(used) && IsDecimal(x.quantity) && IsDecimal(terms.maxQuantity)
            && Value(used) + Value(x.quantity) <= Value(terms.maxQuantity)
            && IsDecimal(x.currentSupply) && IsDecimal(x.reserve)
            && Value(x.currentSupply) + Value(x.quantity) <= Value(x.reserve)
            && (Given(x.maximumSupply) ==>
                  IsDecimal(x.maximumSupply.value)
                  && Value(x.currentSupply) + Value(x.quantity) <= Value(x.maximumSupply.value))
            && (r.usage.mintedSupply.Some? ==>
                  IsDecimal(r.usage.mintedSupply.value)
                  && Value(r.usage.mintedSupply.value) == Value(x.currentSupply))
  {
    hide IsDecimal, Value, Adds, Used;
  }

  lemma OperationAllows(r: Request, terms: RwaTerms, x: RwaContext)
    requires r.time.Ms? && OperationReadable(r, terms, x) && forall d :: !OperationCalls(r, terms, x, d)
    ensures OperationFits(r, terms, x)
  {
    hide IsDecimal, Value, Adds, OperationCalls, Given, TextOr;
    assert x.claimValidUntil.Ms?;
    hide OperationReadable;
    OperationNames(r, terms, x);
    OperationAmounts(r, terms, x);
  }

  /** An allowed operation fits the Mandate's RWA terms. */
  lemma AllowedOperation(r: Request)
    requires Allows(r) && RwaAsked(r)
    ensures r.rwa.Some? && r.mandate.rwa.Some?
    ensures OperationFits(r, r.mandate.rwa.value, r.rwa.value)
  {
    hide Allows, GrantCalls, CommerceCalls, PurchaseReadable, ParentReadable, SpendReadable, Accountable;
    hide UsedKeys, RwaAsked, SpendCalls, OperationReadable, OperationCalls, OperationFits;
    NothingCalls(r);
    assert !Calls(r, RwaContextRequired);
    var terms, x := r.mandate.rwa.value, r.rwa.value;
    forall d
      ensures !OperationCalls(r, terms, x, d)
    {
      assert !Calls(r, d);
    }
    OperationAllows(r, terms, x);
  }

  /** The Mandate has no parent, limits, profile or extensions. */
  predicate PlainMandate(r: Request) {
    var m := r.mandate;
    && !Given(m.parentMandate) && r.parent.None? && m.limits.None? && m.profile.None?
    && m.commerce.None? && m.rwa.None?
  }

  lemma PlainGrant(r: Request, c: Code)
    requires PlainMandate(r) && Fits(r)
    ensures !GrantCalls(r, c)
  {
    CoreAllows(r);
    hide Fits, CoreCalls, Given;
  }

  lemma PlainContexts(r: Request, c: Code)
    requires PlainMandate(r)
    ensures CommerceCalls(r, c) <==> r.commerce.Some? && c == CommerceContextRequired
    ensures RwaCalls(r, c) <==> r.rwa.Some? && c == RwaContextRequired
  {
  }

  lemma PlainSpend(r: Request, c: Code)
    requires PlainMandate(r) && r.commerce.None? && r.rwa.None?
    ensures SpendCalls(r, c) <==>
            || (c == MandateAlreadyConsumed && Used(r))
            || (c == IdempotencyReplay && AskedKey(r) != "" && AskedKey(r) in UsedKeys(r))
  {
    hide AskedKey, UsedKeys, SumOver, IntToString;
  }

  lemma PlainCall(r: Request, c: Code)
    requires PlainMandate(r) && Fits(r) && r.commerce.None? && r.rwa.None?
    ensures Calls(r, c) <==>
            || (c == MandateAlreadyConsumed && Used(r))
            || (c == IdempotencyReplay && AskedKey(r) != "" && AskedKey(r) in UsedKeys(r))
  {
    hide PlainMandate, Fits, GrantCalls, SpendCalls, CommerceCalls, RwaCalls, UsedKeys, AskedKey, Used;
    PlainGrant(r, c);
    PlainContexts(r, c);
    PlainSpend(r, c);
  }

  lemma FitsReads(r: Request)
    requires Fits(r) && PlainMandate(r)
    ensures Readable(r)
  {
  }

  lemma PlainRefused(r: Request)
    requires PlainMandate(r) && (r.commerce.Some? || r.rwa.Some?)
    ensures exists c :: Calls(r, c)
  {
    hide PlainMandate, GrantCalls, SpendCalls, CommerceCalls, RwaCalls;
    var c := if r.commerce.Some? then CommerceContextRequired else RwaContextRequired;
    PlainContexts(r, c);
    assert Calls(r, c);
  }

  /** A Mandate without parent, limits, profile and extensions allows exactly the requests that fit it, come
      without a profile context, find it unconsumed and their key unused, and can be accounted for. */
  lemma PlainAnswer(r: Request)
    requires PlainMandate(r)
    ensures Allows(r) <==>
            && Fits(r) && r.commerce.None? && r.rwa.None? && !Used(r)
            && (AskedKey(r) == "" || AskedKey(r) !in UsedKeys(r)) && Accountable(r)
  {
    hide Allows, Fits, Accountable, UsedKeys, AskedKey, Readable, Calls, Used, PlainMandate;
    NothingCalls(r);
    if Allows(r) {
      AllowedFits(r);
    }
    if r.commerce.Some? || r.rwa.Some? {
      PlainRefused(r);
    } else if Fits(r) {
      FitsReads(r);
      forall c
        ensures Calls(r, c) <==>
                || (c == MandateAlreadyConsumed && Used(r))
                || (c == IdempotencyReplay && AskedKey(r) != "" && AskedKey(r) in UsedKeys(r))
      {
        PlainCall(r, c);
      }
      assert Calls(r, MandateAlreadyConsumed) <==> Used(r);
      assert Calls(r, IdempotencyReplay) <==> AskedKey(r) != "" && AskedKey(r) in UsedKeys(r);
    }
  }

  /******* The proposed usage *******/

  /**
   The usage that an allowed request proposes: calls added, amount and quantity the exact sums, the asked
   currency unless empty, the key added once to those stored, consumption remembered, and the minted supply
   the operation's current supply plus its quantity.
   */
  lemma NextUsageMeans(r: Request)
    requires Allows(r)
    ensures var e := Evaluate(r).value;
            var u, spent, used := e.nextUsage, TextOr(r.usage.amount, "0"), TextOr(r.usage.quantity, "0");
            && e.mandateId == r.mandate.id && e.transactionId == r.envelope.id
            && u.calls == Some(UsedCalls(r) + AskedCalls(r))
            && u.amount.Some? && IsDecimal(u.amount.value) && IsDecimal(spent) && IsDecimal(AskedAmount(r))
            && Value(u.amount.value) == Value(spent) + Value(AskedAmount(r))
            && u.currency == Some(if AskedCurrency(r) != "" then AskedCurrency(r) else TextOr(r.usage.currency, ""))
            && u.quantity.Some? && IsDecimal(u.quantity.value) && IsDecimal(used) && IsDecimal(AskedQuantity(r))
            && Value(u.quantity.value) == Value(used) + Value(AskedQuantity(r))
            && u.consumed == Some(Used(r) || Consumes(r))
            && u.idempotencyKeys.Some? && KeyOrder.Sorted(u.idempotencyKeys.value)
            && multiset(u.idempotencyKeys.value) ==
               multiset(UsedKeys(r)) + (if AskedKey(r) != "" then multiset{AskedKey(r)} else multiset{})
            && u.mintedSupply.Some?
            && (if r.rwa.None? then u.mintedSupply.value == TextOr(r.usage.mintedSupply, "0")
                else
                  && IsDecimal(u.mintedSupply.value) && IsDecimal(r.rwa.value.currentSupply)
                  && IsDecimal(r.rwa.value.quantity)
                  && Value(u.mintedSupply.value) == Value(r.rwa.value.currentSupply) + Value(r.rwa.value.quantity))
  {
    var usage, delta := Normalized(r.usage), Effective(r);
    AllowsExactlyAllowed(r);
    SpendableMeans(r);
    EffectiveMeans(r);
    NormalizedMeans(r);
    hide Normalized, Effective, IsDecimal, Value, Clean, AskedAmount, AskedCurrency, AskedQuantity, AskedKey, Consumes;
    hide UsedKeys, KeyOrder.Sorted, KeyOrder.Sort, AskedCalls, UsedCalls, Add;
    AddMeaning(usage.amount, delta.amount);
    AddMeaning(usage.quantity, delta.quantity);
    if r.rwa.Some? {
      AddMeaning(r.rwa.value.currentSupply, r.rwa.value.quantity);
    }
    NextKeysSorted(usage.idempotencyKeys, delta.idempotencyKey);
  }

  /** A denied request keeps its usage: the same fields, defaults filled in and keys sorted. */
  lemma DeniedUsageMeans(r: Request)
    requires Evaluate(r).Returned? && Evaluate(r).value.reasons != {}
    ensures var e := Evaluate(r).value;
            var u := e.nextUsage;
            && e.mandateId == r.mandate.id && e.transactionId == r.envelope.id
            && u.calls == Some(UsedCalls(r)) && u.amount == Some(TextOr(r.usage.amount, "0"))
            && u.currency == Some(TextOr(r.usage.currency, "")) && u.quantity == Some(TextOr(r.usage.quantity, "0"))
            && u.consumed == Some(Used(r)) && u.mintedSupply == Some(TextOr(r.usage.mintedSupply, "0"))
            && u.idempotencyKeys.Some? && KeyOrder.Sorted(u.idempotencyKeys.value)
            && multiset(u.idempotencyKeys.value) == multiset(UsedKeys(r))
  {
    NormalizedMeans(r);
    hide Normalized, Effective, Violates, Defined, Next, UsedKeys, KeyOrder.Sorted, KeyOrder.Sort, UsedCalls;
  }
}
