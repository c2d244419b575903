/**
 Mandates, Envelopes, usage, and what it means for a request to be inside a Mandate.

 This is the declarative side of `evaluator.ts`: `Defined` says when evaluation returns at all,
 `Violates` says which reason code applies, and `Next` is the proposed usage. Decimal limits are
 compared by the numbers they denote. Module Evaluator proves the step-by-step code against it.
 */
module Authority {
  import opened Wrappers
  import opened Decimals
  import opened Limits
  import KeyOrder

  /******* Data *******/

  const COMMERCE_PROFILE := "https://specs.intelliger.ai/oati/profiles/commerce/v0.1"
  const RWA_PROFILE := "https://specs.intelliger.ai/oati/profiles/rwa/v0.1"

  datatype Status = Active | Suspended | Revoked | Expired | Consumed

  datatype Delegation = Delegation(allowed: bool, maxDepth: int)

  datatype CommerceTerms = CommerceTerms(
    merchant: string, service: string, offer: string, currency: string,
    billingModel: Option<string>, termsDigest: Option<string>,
    maxUnitPrice: string, maxTotal: string, maxQuantity: int)

  datatype RwaTarget = RwaTarget(
    asset: string, stateClaim: string, network: string, tokenContract: string, operation: string, unit: string)

  datatype RwaTerms = RwaTerms(
    target: RwaTarget, maxQuantity: string, minimumApprovals: int, requiredRoles: seq<string>, oneTime: bool)

  datatype Mandate = Mandate(
    id: string, subject: string, parentMandate: Option<string>, purpose: string, actions: seq<string>,
    resources: Option<seq<string>>, counterparties: Option<seq<string>>, destinations: Option<seq<string>>,
    limits: Option<Fields>, dataUse: Option<Fields>, delegation: Option<Delegation>,
    notBefore: Instant, expiresAt: Instant, status: Status, profile: Option<string>,
    commerce: Option<CommerceTerms>, rwa: Option<RwaTerms>)

  /** The price terms of one purchase. */
  datatype Quote = Quote(
    offer: string, currency: string, quantity: int, unitPrice: string, total: string,
    idempotencyKey: string, termsDigest: Option<string>)

  /** Signed profile data of an Envelope; `None` when one of the compared fields is missing. */
  datatype SignedCommerce = SignedCommerce(quote: Option<Quote>)
  datatype SignedRwa = SignedRwa(target: Option<RwaTarget>, quantity: Option<string>)

  datatype Envelope = Envelope(
    id: string, mandateId: string, agentId: string, action: string, resource: string,
    purpose: Option<string>, counterparty: Option<string>, destination: Option<string>,
    profile: Option<string>, commerce: Option<SignedCommerce>, rwa: Option<SignedRwa>)

  datatype CommerceContext = CommerceContext(merchant: string, service: string, quote: Quote)

  datatype RwaContext = RwaContext(
    target: RwaTarget, quantity: string, reserve: string, approvalCount: int, approvalRoles: seq<string>,
    currentSupply: string, maximumSupply: Option<string>, claimValidUntil: Instant)

  datatype UsageSnapshot = UsageSnapshot(
    calls: Option<int>, amount: Option<string>, currency: Option<string>, quantity: Option<string>,
    consumed: Option<bool>, idempotencyKeys: Option<seq<string>>, mintedSupply: Option<string>)

  /** A snapshot with every field filled in. */
  datatype Usage = Usage(
    calls: int, amount: string, currency: string, quantity: string,
    consumed: bool, idempotencyKeys: seq<string>, mintedSupply: string)

  datatype Consumption = Consumption(
    calls: Option<int>, amount: Option<string>, currency: Option<string>, quantity: Option<string>,
    idempotencyKey: Option<string>, consume: Option<bool>)

  /** A consumption with every field filled in. */
  datatype Delta = Delta(
    calls: int, amount: string, currency: string, quantity: string, idempotencyKey: string, consume: bool)

  datatype Request = Request(
    time: Instant, mandate: Mandate, parent: Option<Mandate>, depth: Option<int>, envelope: Envelope,
    usage: UsageSnapshot, consumption: Option<Consumption>,
    commerce: Option<CommerceContext>, rwa: Option<RwaContext>)

  datatype Code =
    | MandateNotActive | MandateNotYetActive | MandateExpired | MandateReferenceMismatch | SubjectMismatch
    | ActionNotAllowed | ResourceNotAllowed | PurposeMismatch | CounterpartyNotAllowed | DestinationNotAllowed
    | ProfileMismatch | ParentMandateRequired
    | ParentMandateMismatch | ParentMandateNotActive | DelegationNotAllowed | ChildActionAmplification
    | ChildResourceAmplification | ChildCounterpartyAmplification | ChildDestinationAmplification
    | ChildPurposeAmplification | ChildTimeAmplification | ChildLimitAmplification | ChildDataUseAmplification
    | ChildDelegationAmplification | ChildProfileAmplification | ChildCommerceAmplification | ChildRwaAmplification
    | ConsumptionContextMismatch | MandateAlreadyConsumed | IdempotencyReplay | CallLimitExceeded
    | QuantityLimitExceeded | BudgetCurrencyMismatch | BudgetExceeded
    | CommerceContextRequired | CommerceMerchantNotAllowed | CommerceServiceNotAllowed | CommerceOfferNotAllowed
    | CommerceCurrencyMismatch | CommerceUnitPriceExceeded | CommerceTotalInvalid | CommerceBudgetExceeded
    | CommerceQuantityExceeded | CommerceTermsMismatch | CommerceEnvelopeContextMismatch
    | RwaContextRequired | RwaEnvelopeContextMismatch | RwaTargetMismatch | RwaStateClaimExpired
    | RwaQuantityExceeded | RwaReserveExceeded | RwaMaximumSupplyExceeded | RwaSupplyStateMismatch
    | RwaApprovalThresholdNotMet | RwaRequiredRoleMissing

  datatype EvaluationResult = EvaluationResult(
    mandateId: string, transactionId: string, reasons: set<Code>, nextUsage: UsageSnapshot)

  /******* Sets and windows *******/

  predicate Subset(child: seq<string>, parent: seq<string>) {
    forall item <- child :: item in parent
  }

  /** Dropping a constraint is not narrowing it. */
  predicate ConstrainedSubset(child: Option<seq<string>>, parent: Option<seq<string>>) {
    parent.None? || (child.Some? && Subset(child.value, parent.value))
  }

  /** `checkSetConstraint` finds nothing. */
  predicate InConstraint(allowed: Option<seq<string>>, actual: Option<string>) {
    allowed.None? || (Truthy(actual) && actual.value in allowed.value)
  }

  predicate MayDelegate(m: Mandate) {
    m.delegation.Some? && m.delegation.value.allowed
  }

  /******* Usage and consumption *******/

  function Normalized(s: UsageSnapshot): Usage {
    Usage(GetOr(s.calls, 0), GetOr(s.amount, "0"), GetOr(s.currency, ""), GetOr(s.quantity, "0"),
          GetOr(s.consumed, false), KeyOrder.Sort(GetOr(s.idempotencyKeys, [])), GetOr(s.mintedSupply, "0"))
  }

  function Snapshot(u: Usage): UsageSnapshot {
    UsageSnapshot(Some(u.calls), Some(u.amount), Some(u.currency), Some(u.quantity),
                  Some(u.consumed), Some(u.idempotencyKeys), Some(u.mintedSupply))
  }

  const EMPTY_USAGE := UsageSnapshot(None, None, None, None, None, None, None)
  const NO_CONSUMPTION := Consumption(None, None, None, None, None, None)

  /** JavaScript's truth value of an entry. */
  predicate TruthyEntry(o: Option<Item>) {
    o.Some? && match o.value
               case Primitive(Null) => false
               case Primitive(Bool(b)) => b
               case Primitive(Number(n)) => n != 0
               case Primitive(Text(s)) => s != ""
               case List(_) => true
               case Object(_) => true
  }

  function LimitsOf(m: Mandate): Fields {
    GetOr(m.limits, map[])
  }

  predicate OneTime(m: Mandate) {
    || (m.rwa.Some? && m.rwa.value.oneTime)
    || TruthyEntry(At(LimitsOf(m), "one_time"))
  }

  function Effective(r: Request): Delta {
    var supplied := GetOr(r.consumption, NO_CONSUMPTION);
    Delta(
      GetOr(supplied.calls, 1),
      if r.commerce.Some? then r.commerce.value.quote.total else GetOr(supplied.amount, "0"),
      if r.commerce.Some? then r.commerce.value.quote.currency else GetOr(supplied.currency, ""),
      if r.commerce.Some? then IntToString(r.commerce.value.quote.quantity)
      else if r.rwa.Some? then r.rwa.value.quantity
      else GetOr(supplied.quantity, "0"),
      if r.commerce.Some? then r.commerce.value.quote.idempotencyKey else GetOr(supplied.idempotencyKey, ""),
      OneTime(r.mandate) || supplied.consume == Some(true))
  }

  predicate Contradicts(supplied: Option<string>, effective: string) {
    supplied.Some? && supplied.value != effective
  }

  /** A supplied accounting field contradicts the profile context or the one-time rule. */
  predicate ContextMismatch(r: Request, delta: Delta) {
    r.consumption.Some? &&
    var s := r.consumption.value;
    || (r.commerce.Some? && (Contradicts(s.amount, delta.amount) || Contradicts(s.currency, delta.currency)))
    || (r.commerce.Some? && Contradicts(s.idempotencyKey, delta.idempotencyKey))
    || ((r.commerce.Some? || r.rwa.Some?) && Contradicts(s.quantity, delta.quantity))
    || (delta.consume && s.consume == Some(false))
  }

  /******* Core terms *******/

  predicate CoreDefined(r: Request) {
    r.time.Ms? && r.mandate.notBefore.Ms? && r.mandate.expiresAt.Ms?
  }

  /** The Mandate is active and within its window. */
  predicate StandingViolation(r: Request, c: Code)
    requires CoreDefined(r)
  {
    match c
    case MandateNotActive => r.mandate.status != Active
    case MandateNotYetActive => r.mandate.notBefore.t > r.time.t
    case MandateExpired => r.mandate.expiresAt.t <= r.time.t
    case _ => false
  }

  /** The Envelope names this Mandate, its subject and profile; a delegated Mandate comes with its parent. */
  predicate AddressViolation(r: Request, c: Code) {
    var m, e := r.mandate, r.envelope;
    match c
    case MandateReferenceMismatch => !Same(e.mandateId, m.id)
    case SubjectMismatch => !Same(e.agentId, m.subject)
    case ProfileMismatch => e.profile.Some? && !Same(e.profile, m.profile)
    case ParentMandateRequired => r.parent.None? && Truthy(m.parentMandate)
    case _ => false
  }

  /** The transaction is of a kind the Mandate permits. */
  predicate ActionViolation(m: Mandate, e: Envelope, c: Code) {
    match c
    case ActionNotAllowed => e.action !in m.actions
    case ResourceNotAllowed => !InConstraint(m.resources, Some(e.resource))
    case PurposeMismatch => !Same(e.purpose, Some(m.purpose))
    case CounterpartyNotAllowed => !InConstraint(m.counterparties, e.counterparty)
    case DestinationNotAllowed => !InConstraint(m.destinations, e.destination)
    case _ => false
  }

  /******* Delegation *******/

  predicate SameTerms(child: CommerceTerms, parent: CommerceTerms) {
    && child.merchant == parent.merchant && child.service == parent.service && child.offer == parent.offer
    && child.currency == parent.currency && child.billingModel == parent.billingModel
    && child.termsDigest == parent.termsDigest
  }

  ghost predicate AtMost(a: string, b: string) {
    IsDecimal(a) && IsDecimal(b) && Value(a) <= Value(b)
  }

  /** The decimal comparisons that are reached do not throw. */
  ghost predicate CommerceComparable(child: CommerceTerms, parent: CommerceTerms) {
    SameTerms(child, parent) ==>
      && IsDecimal(child.maxUnitPrice) && IsDecimal(parent.maxUnitPrice)
      && (AtMost(child.maxUnitPrice, parent.maxUnitPrice) ==> IsDecimal(child.maxTotal) && IsDecimal(parent.maxTotal))
  }

  ghost predicate CommerceNarrower(child: CommerceTerms, parent: CommerceTerms) {
    && SameTerms(child, parent)
    && AtMost(child.maxUnitPrice, parent.maxUnitPrice) && AtMost(child.maxTotal, parent.maxTotal)
    && child.maxQuantity <= parent.maxQuantity
  }

  ghost predicate RwaNarrower(child: RwaTerms, parent: RwaTerms) {
    && child.target == parent.target && AtMost(child.maxQuantity, parent.maxQuantity)
    && child.minimumApprovals >= parent.minimumApprovals
    && Subset(parent.requiredRoles, child.requiredRoles) && (parent.oneTime ==> child.oneTime)
  }

  ghost predicate ProfileComparable(child: Mandate, parent: Mandate) {
    child.profile == parent.profile ==>
      && (parent.commerce.Some? && child.commerce.Some? ==>
            CommerceComparable(child.commerce.value, parent.commerce.value))
      && (parent.rwa.Some? && child.rwa.Some? && child.rwa.value.target == parent.rwa.value.target ==>
            IsDecimal(child.rwa.value.maxQuantity) && IsDecimal(parent.rwa.value.maxQuantity))
  }

  /** A profile is not widened; a missing and an empty profile count as the same. */
  ghost predicate ProfileViolation(child: Mandate, parent: Mandate, c: Code)
    requires ProfileComparable(child, parent)
  {
    match c
    case ChildProfileAmplification =>
      child.profile != parent.profile && (Truthy(child.profile) || Truthy(parent.profile))
    case ChildCommerceAmplification =>
      && child.profile == parent.profile && parent.commerce.Some?
      && !(child.commerce.Some? && CommerceNarrower(child.commerce.value, parent.commerce.value))
    case ChildRwaAmplification =>
      && child.profile == parent.profile && parent.rwa.Some?
      && !(child.rwa.Some? && RwaNarrower(child.rwa.value, parent.rwa.value))
    case _ => false
  }

  /** The parent's timestamps that the activity test reaches can be parsed. */
  predicate ActivityDefined(m: Mandate, now: int) {
    m.status == Active ==> m.notBefore.Ms? && (m.notBefore.t <= now ==> m.expiresAt.Ms?)
  }

  predicate SpanDefined(child: Mandate, parent: Mandate) {
    && child.notBefore.Ms? && child.expiresAt.Ms?
    && parent.notBefore.Ms? && (parent.notBefore.t <= child.notBefore.t ==> parent.expiresAt.Ms?)
    && (MayDelegate(child) ==> parent.delegation.Some?)
  }

  ghost predicate ChildDefined(child: Mandate, parent: Mandate, now: int) {
    ActivityDefined(parent, now) && SpanDefined(child, parent) && ProfileComparable(child, parent)
  }

  function MaxInt(a: int, b: int): int {
    if a >= b then a else b
  }

  /** The parent is referenced, active, and may delegate this deep. */
  predicate ParentViolation(child: Mandate, parent: Mandate, depth: int, now: int, c: Code)
    requires ActivityDefined(parent, now)
  {
    match c
    case ParentMandateMismatch => !Same(child.parentMandate, Some(parent.id))
    case ParentMandateNotActive =>
      parent.status != Active || parent.notBefore.t > now || parent.expiresAt.t <= now
    case DelegationNotAllowed => !MayDelegate(parent) || depth > parent.delegation.value.maxDepth
    case _ => false
  }

  /** The child's window and remaining delegation depth lie within the parent's. */
  predicate SpanViolation(child: Mandate, parent: Mandate, depth: int, c: Code)
    requires SpanDefined(child, parent)
  {
    match c
    case ChildTimeAmplification =>
      child.notBefore.t < parent.notBefore.t || child.expiresAt.t > parent.expiresAt.t
    case ChildDelegationAmplification =>
      MayDelegate(child) && child.delegation.value.maxDepth > MaxInt(0, parent.delegation.value.maxDepth - depth)
    case _ => false
  }

  /** The child's sets lie within the parent's. */
  predicate SetViolation(child: Mandate, parent: Mandate, c: Code) {
    match c
    case ChildActionAmplification => !Subset(child.actions, parent.actions)
    case ChildResourceAmplification => !ConstrainedSubset(child.resources, parent.resources)
    case ChildCounterpartyAmplification => !ConstrainedSubset(child.counterparties, parent.counterparties)
    case ChildDestinationAmplification => !ConstrainedSubset(child.destinations, parent.destinations)
    case _ => false
  }

  /** The child's purpose is the parent's, and its limits and data use are narrower. */
  predicate TermViolation(child: Mandate, parent: Mandate, c: Code) {
    match c
    case ChildPurposeAmplification => !Same(child.purpose, parent.purpose)
    case ChildLimitAmplification => !Narrower(child.limits, parent.limits)
    case ChildDataUseAmplification => !Narrower(child.dataUse, parent.dataUse)
    case _ => false
  }

  ghost predicate ChildViolation(child: Mandate, parent: Mandate, depth: int, now: int, c: Code)
    requires ChildDefined(child, parent, now)
  {
    || ParentViolation(child, parent, depth, now, c)
    || SpanViolation(child, parent, depth, c)
    || SetViolation(child, parent, c)
    || TermViolation(child, parent, c)
    || ProfileViolation(child, parent, c)
  }

  /******* Consumption *******/

  /** The generic cumulative quantity limit, as decimal text. */
  function QuantityLimit(m: Mandate): Option<string> {
    var entry := At(LimitsOf(m), "max_quantity");
    if m.profile.Some? then None
    else if IsText(entry) then Some(entry.value.p.s)
    else if IsNumber(entry) then Some(IntToString(entry.value.p.n))
    else None
  }

  /** The generic budget, looked at only when something is spent. */
  function TotalLimit(m: Mandate, delta: Delta): Option<string> {
    var entry := At(LimitsOf(m), "max_total");
    if IsText(entry) && delta.amount != "0" then Some(entry.value.p.s) else None
  }

  function LimitCurrency(m: Mandate): string {
    var entry := At(LimitsOf(m), "currency");
    if IsText(entry) then entry.value.p.s else ""
  }

  ghost predicate Addable(a: string, b: string) {
    IsDecimal(a) && IsDecimal(b)
  }

  ghost predicate ConsumptionDefined(m: Mandate, usage: Usage, delta: Delta) {
    && (QuantityLimit(m).Some? ==> Addable(usage.quantity, delta.quantity) && IsDecimal(QuantityLimit(m).value))
    && (TotalLimit(m, delta).Some? ==> Addable(usage.amount, delta.amount) && IsDecimal(TotalLimit(m, delta).value))
  }

  /** The spent currency is not the one the generic budget is in. */
  predicate WrongCurrency(m: Mandate, usage: Usage, delta: Delta) {
    && TotalLimit(m, delta).Some? && LimitCurrency(m) != ""
    && (delta.currency != LimitCurrency(m) || (usage.amount != "0" && usage.currency != LimitCurrency(m)))
  }

  predicate Replayed(usage: Usage, delta: Delta) {
    delta.idempotencyKey != "" && delta.idempotencyKey in usage.idempotencyKeys
  }

  predicate OverCalled(m: Mandate, usage: Usage, delta: Delta) {
    var entry := At(LimitsOf(m), "max_calls");
    IsNumber(entry) && usage.calls + delta.calls > entry.value.p.n
  }

  /** The Mandate is unconsumed, the key unused, and the calls within their limit. */
  predicate SpendViolation(m: Mandate, usage: Usage, delta: Delta, c: Code) {
    match c
    case MandateAlreadyConsumed => usage.consumed
    case IdempotencyReplay => Replayed(usage, delta)
    case CallLimitExceeded => OverCalled(m, usage, delta)
    case _ => false
  }

  /** Cumulative quantity and amount stay within the generic limits. */
  ghost predicate LimitViolation(m: Mandate, usage: Usage, delta: Delta, c: Code)
    requires ConsumptionDefined(m, usage, delta)
  {
    match c
    case QuantityLimitExceeded =>
      QuantityLimit(m).Some? && Value(usage.quantity) + Value(delta.quantity) > Value(QuantityLimit(m).value)
    case BudgetCurrencyMismatch => WrongCurrency(m, usage, delta)
    case BudgetExceeded =>
      TotalLimit(m, delta).Some? && Value(usage.amount) + Value(delta.amount) > Value(TotalLimit(m, delta).value)
    case _ => false
  }

  /******* Commerce *******/

  predicate CommerceApplies(r: Request) {
    r.commerce.Some? || r.mandate.profile == Some(COMMERCE_PROFILE)
  }

  ghost predicate PriceDefined(terms: CommerceTerms, quote: Quote) {
    && IsDecimal(quote.unitPrice) && IsDecimal(quote.total) && quote.quantity >= 0
    && IsDecimal(terms.maxUnitPrice) && terms.maxQuantity >= 0
  }

  ghost predicate PurseDefined(terms: CommerceTerms, quote: Quote, usage: Usage) {
    IsDecimal(usage.amount) && IsDecimal(quote.total) && IsDecimal(terms.maxTotal)
  }

  ghost predicate CommerceDefined(terms: CommerceTerms, quote: Quote, usage: Usage) {
    PriceDefined(terms, quote) && PurseDefined(terms, quote, usage)
  }

  /** The signed Envelope carries Commerce data that is not the evaluated context. */
  predicate CommerceSubstituted(e: Envelope, context: CommerceContext) {
    e.commerce.Some? &&
    (e.resource != context.service || e.counterparty != Some(context.merchant)
     || e.commerce.value.quote != Some(context.quote))
  }

  /** The purchase is the one the terms name. */
  predicate OfferViolation(terms: CommerceTerms, context: CommerceContext, c: Code) {
    match c
    case CommerceMerchantNotAllowed => !Same(context.merchant, terms.merchant)
    case CommerceServiceNotAllowed => !Same(context.service, terms.service)
    case CommerceOfferNotAllowed => !Same(context.quote.offer, terms.offer)
    case CommerceTermsMismatch => Truthy(terms.termsDigest) && !Same(context.quote.termsDigest, terms.termsDigest)
    case _ => false
  }

  /** The purchase is priced exactly and stays within unit price and quantity. */
  ghost predicate PriceViolation(terms: CommerceTerms, quote: Quote, c: Code)
    requires PriceDefined(terms, quote)
  {
    match c
    case CommerceUnitPriceExceeded => Value(quote.unitPrice) > Value(terms.maxUnitPrice)
    case CommerceTotalInvalid => Value(quote.total) != Value(quote.unitPrice) * quote.quantity as real
    case CommerceQuantityExceeded => quote.quantity > terms.maxQuantity
    case _ => false
  }

  /** The purchase is in the right currency and stays within the budget. */
  ghost predicate PurseViolation(terms: CommerceTerms, quote: Quote, usage: Usage, c: Code)
    requires PurseDefined(terms, quote, usage)
  {
    match c
    case CommerceCurrencyMismatch =>
      !Same(quote.currency, terms.currency) || (!Same(usage.amount, "0") && !Same(usage.currency, quote.currency))
    case CommerceBudgetExceeded => Value(usage.amount) + Value(quote.total) > Value(terms.maxTotal)
    case _ => false
  }

  ghost predicate PurchaseViolation(terms: CommerceTerms, context: CommerceContext, usage: Usage, c: Code)
    requires CommerceDefined(terms, context.quote, usage)
  {
    || OfferViolation(terms, context, c)
    || PriceViolation(terms, context.quote, c)
    || PurseViolation(terms, context.quote, usage, c)
  }

  ghost predicate CommerceViolation(terms: CommerceTerms, e: Envelope, context: CommerceContext, usage: Usage, c: Code)
    requires CommerceDefined(terms, context.quote, usage)
  {
    || PurchaseViolation(terms, context, usage, c)
    || (c == IdempotencyReplay && context.quote.idempotencyKey in usage.idempotencyKeys)
    || (c == CommerceEnvelopeContextMismatch && CommerceSubstituted(e, context) &&
        // A substitution is reported only when no other Commerce term fails.
        forall d :: !PurchaseViolation(terms, context, usage, d))
  }

  /******* RWA *******/

  predicate RwaApplies(r: Request) {
    r.rwa.Some? || r.mandate.profile == Some(RWA_PROFILE)
  }

  ghost predicate QuotaDefined(terms: RwaTerms, context: RwaContext, usage: Usage, tracked: bool) {
    && IsDecimal(usage.quantity) && IsDecimal(context.quantity) && IsDecimal(terms.maxQuantity)
    && IsDecimal(context.currentSupply) && (tracked ==> IsDecimal(usage.mintedSupply))
  }

  ghost predicate SupplyDefined(context: RwaContext) {
    && IsDecimal(context.currentSupply) && IsDecimal(context.quantity) && IsDecimal(context.reserve)
    && (Truthy(context.maximumSupply) ==> IsDecimal(context.maximumSupply.value))
  }

  ghost predicate RwaDefined(terms: RwaTerms, context: RwaContext, usage: Usage, tracked: bool) {
    context.claimValidUntil.Ms? && QuotaDefined(terms, context, usage, tracked) && SupplyDefined(context)
  }

  predicate RwaSubstituted(e: Envelope, context: RwaContext) {
    e.rwa.Some? &&
    (e.resource != context.target.asset || e.rwa.value.target != Some(context.target)
     || e.rwa.value.quantity != Some(context.quantity))
  }

  /** The operation is the one the terms name, on a State Claim that is still valid. */
  predicate TargetViolation(terms: RwaTerms, e: Envelope, context: RwaContext, now: int, c: Code)
    requires context.claimValidUntil.Ms?
  {
    match c
    case RwaEnvelopeContextMismatch => RwaSubstituted(e, context)
    case RwaTargetMismatch => !Same(context.target, terms.target)
    case RwaStateClaimExpired => context.claimValidUntil.t <= now
    case _ => false
  }

  ghost function ResultingSupply(context: RwaContext): real
    requires IsDecimal(context.currentSupply) && IsDecimal(context.quantity)
  {
    Value(context.currentSupply) + Value(context.quantity)
  }

  /** Cumulative quantity stays within the terms and the tracked supply is current. */
  ghost predicate QuotaViolation(terms: RwaTerms, context: RwaContext, usage: Usage, tracked: bool, c: Code)
    requires QuotaDefined(terms, context, usage, tracked)
  {
    match c
    case RwaQuantityExceeded => Value(usage.quantity) + Value(context.quantity) > Value(terms.maxQuantity)
    case RwaSupplyStateMismatch => tracked && Value(usage.mintedSupply) != Value(context.currentSupply)
    case _ => false
  }

  /** The resulting supply stays within the reserve and the maximum supply. */
  ghost predicate SupplyViolation(context: RwaContext, c: Code)
    requires SupplyDefined(context)
  {
    match c
    case RwaReserveExceeded => ResultingSupply(context) > Value(context.reserve)
    case RwaMaximumSupplyExceeded =>
      Truthy(context.maximumSupply) && ResultingSupply(context) > Value(context.maximumSupply.value)
    case _ => false
  }

  /** Enough approvals, every required role, and an unused one-time Mandate. */
  predicate ApprovalViolation(terms: RwaTerms, context: RwaContext, usage: Usage, c: Code) {
    match c
    case RwaApprovalThresholdNotMet => context.approvalCount < terms.minimumApprovals
    case RwaRequiredRoleMissing => !Subset(terms.requiredRoles, context.approvalRoles)
    case MandateAlreadyConsumed => terms.oneTime && usage.consumed
    case _ => false
  }

  ghost predicate RwaViolation(
      terms: RwaTerms, e: Envelope, context: RwaContext, usage: Usage, tracked: bool, now: int, c: Code)
    requires RwaDefined(terms, context, usage, tracked)
  {
    || TargetViolation(terms, e, context, now, c)
    || QuotaViolation(terms, context, usage, tracked, c)
    || SupplyViolation(context, c)
    || ApprovalViolation(terms, context, usage, c)
  }

  /******* The whole evaluation *******/

  predicate Tracked(r: Request) {
    r.usage.mintedSupply.Some?
  }

  /** The checks of the Mandate and its parent run to their end. */
  ghost predicate GrantDefined(r: Request) {
    CoreDefined(r) && (r.parent.Some? ==> ChildDefined(r.mandate, r.parent.value, r.time.t))
  }

  ghost predicate CommerceReturns(r: Request) {
    r.commerce.Some? && r.mandate.commerce.Some? ==>
      CommerceDefined(r.mandate.commerce.value, r.commerce.value.quote, Normalized(r.usage))
  }

  ghost predicate RwaReturns(r: Request) {
    r.rwa.Some? && r.mandate.rwa.Some? ==>
      RwaDefined(r.mandate.rwa.value, r.rwa.value, Normalized(r.usage), Tracked(r))
  }

  /** Every check runs to its end without throwing. */
  ghost predicate Defined(r: Request) {
    && GrantDefined(r)
    && ConsumptionDefined(r.mandate, Normalized(r.usage), Effective(r))
    && CommerceReturns(r)
    && RwaReturns(r)
  }

  /** Findings about the Mandate itself, the Envelope and the parent. */
  ghost predicate GrantFinding(r: Request, c: Code)
    requires GrantDefined(r)
  {
    || StandingViolation(r, c)
    || AddressViolation(r, c)
    || ActionViolation(r.mandate, r.envelope, c)
    || (r.parent.Some? && ChildViolation(r.mandate, r.parent.value, GetOr(r.depth, 1), r.time.t, c))
  }

  /** Findings about consumption. */
  ghost predicate SpendFinding(r: Request, c: Code)
    requires ConsumptionDefined(r.mandate, Normalized(r.usage), Effective(r))
  {
    || (c == ConsumptionContextMismatch && ContextMismatch(r, Effective(r)))
    || SpendViolation(r.mandate, Normalized(r.usage), Effective(r), c)
    || LimitViolation(r.mandate, Normalized(r.usage), Effective(r), c)
  }

  ghost predicate CommerceFinding(r: Request, c: Code)
    requires CommerceReturns(r)
  {
    CommerceApplies(r) &&
    if r.commerce.None? || r.mandate.commerce.None? then c == CommerceContextRequired
    else CommerceViolation(r.mandate.commerce.value, r.envelope, r.commerce.value, Normalized(r.usage), c)
  }

  ghost predicate RwaFinding(r: Request, c: Code)
    requires RwaReturns(r) && r.time.Ms?
  {
    RwaApplies(r) &&
    if r.rwa.None? || r.mandate.rwa.None? then c == RwaContextRequired
    else RwaViolation(r.mandate.rwa.value, r.envelope, r.rwa.value, Normalized(r.usage), Tracked(r), r.time.t, c)
  }

  /** Reason code `c` applies to the request. */
  ghost predicate Violates(r: Request, c: Code)
    requires Defined(r)
  {
    GrantFinding(r, c) || SpendFinding(r, c) || CommerceFinding(r, c) || RwaFinding(r, c)
  }

  ghost predicate Clean(r: Request) {
    Defined(r) && forall c :: !Violates(r, c)
  }

  /** The additions that accounting performs on an allowed request do not throw. */
  predicate Spendable(r: Request) {
    var usage, delta := Normalized(r.usage), Effective(r);
    IsDecimal(usage.amount) && IsDecimal(delta.amount) && IsDecimal(usage.quantity) && IsDecimal(delta.quantity)
  }

  ghost predicate Allowed(r: Request) {
    Clean(r) && Spendable(r)
  }

  /** The currency of a record after spending in `spent`: an empty currency leaves the recorded one. */
  function CurrencyAfter(spent: string, recorded: string): string {
    if spent != "" then spent else recorded
  }

  /** The stored keys after a request with idempotency key `key`. */
  function NextKeys(keys: seq<string>, key: string): seq<string> {
    if key != "" then KeyOrder.Sort(keys + [key]) else keys
  }

  lemma NextKeysSorted(keys: seq<string>, key: string)
    requires KeyOrder.Sorted(keys)
    ensures KeyOrder.Sorted(NextKeys(keys, key))
    ensures multiset(NextKeys(keys, key)) == multiset(keys) + (if key != "" then multiset{key} else multiset{})
  {
    hide KeyOrder.Sorted, KeyOrder.Sort;
    KeyOrder.SortSorts(keys + [key]);
  }

  /** `applyConsumption`: the usage after an allowed request. */
  function Next(r: Request): Checked<Usage> {
    var usage, delta := Normalized(r.usage), Effective(r);
    var amount :- Add(usage.amount, delta.amount);
    var quantity :- Add(usage.quantity, delta.quantity);
    var minted :- if r.rwa.Some? then Add(r.rwa.value.currentSupply, r.rwa.value.quantity)
                  else Returned(usage.mintedSupply);
    Returned(Usage(
      usage.calls + delta.calls, amount,
      CurrencyAfter(delta.currency, usage.currency),
      quantity, usage.consumed || delta.consume,
      NextKeys(usage.idempotencyKeys, delta.idempotencyKey),
      minted))
  }

  /** A clean request is accounted for without throwing exactly when it is spendable. */
  lemma NextReturns(r: Request)
    requires Clean(r)
    ensures Next(r).Returned? <==> Spendable(r)
  {
    hide IsDecimal, Value, Add, Normalized, Effective;
    hide GrantFinding, SpendFinding, CommerceFinding;
    var usage, delta := Normalized(r.usage), Effective(r);
    AddMeaning(usage.amount, delta.amount);
    AddMeaning(usage.quantity, delta.quantity);
    if r.rwa.Some? {
      AddMeaning(r.rwa.value.currentSupply, r.rwa.value.quantity);
      assert !Violates(r, RwaContextRequired);
    }
  }

  /** `evaluateAuthority`: throws, denies with reasons and unchanged usage, or allows. */
  ghost function Evaluate(r: Request): Checked<EvaluationResult> {
    if !Defined(r) then Threw
    else
      var reasons := set c: Code | Violates(r, c);
      if reasons != {} then
        Returned(EvaluationResult(r.mandate.id, r.envelope.id, reasons, Snapshot(Normalized(r.usage))))
      else
        var next :- Next(r);
        Returned(EvaluationResult(r.mandate.id, r.envelope.id, {}, Snapshot(next)))
  }

  /** The evaluation allows exactly the requests that no code applies to and that can be accounted for. */
  lemma AllowsExactlyAllowed(r: Request)
    ensures Allowed(r) <==> Evaluate(r).Returned? && Evaluate(r).value.reasons == {}
    ensures Allowed(r) ==> Next(r).Returned? && Evaluate(r).value.nextUsage == Snapshot(Next(r).value)
  {
    if Defined(r) {
      var reasons := set c: Code | Violates(r, c);
      if Clean(r) {
        assert reasons == {};
        NextReturns(r);
      } else {
        var c :| Violates(r, c);
        assert c in reasons;
      }
    }
  }
}
