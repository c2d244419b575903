/**
 `evaluator.ts` step by step: each check adds codes to a shared set of reasons and may throw.
 Every method is proved against the declarative definitions of module Authority.
 */
module Evaluator {
  import opened Wrappers
  import opened Decimals
  import opened Limits
  import opened Authority

  /** The `reasons` set shared by the checks. */
  class Reasons {
    var codes: set<Code>

    constructor ()
      ensures codes == {}
    {
      codes := {};
    }

    /** `if (condition) reasons.add(c)` */
    method AddIf(condition: bool, c: Code)
      modifies this
      ensures forall d {:trigger d in codes} :: d in codes <==> d in old(codes) || (condition && d == c)
    {
      if condition {
        codes := codes + {c};
      }
    }
  }

  function Timestamp(i: Instant): Checked<int> {
    if i.Ms? then Returned(i.t) else Threw
  }

  /** `compareDecimal(left, right) > 0`. */
  method Exceeds(left: string, right: string) returns (o: Checked<bool>)
    ensures o.Returned? <==> IsDecimal(left) && IsDecimal(right)
    ensures o.Returned? ==> (o.value <==> Value(left) > Value(right))
  {
    CompareMeaning(left, right);
    var c :- Compare(left, right);
    return Returned(c > 0);
  }

  /** `compareDecimal(addDecimal(spent, more), limit) > 0`. */
  method SumExceeds(spent: string, more: string, limit: string) returns (o: Checked<bool>)
    ensures o.Returned? <==> IsDecimal(spent) && IsDecimal(more) && IsDecimal(limit)
    ensures o.Returned? ==> (o.value <==> Value(spent) + Value(more) > Value(limit))
  {
    AddMeaning(spent, more);
    var sum :- Add(spent, more);
    o := Exceeds(sum, limit);
  }

  /** `decimalAtMost` on two decimal texts. */
  method DecimalAtMost(child: string, parent: string) returns (o: Checked<bool>)
    ensures o.Returned? <==> IsDecimal(child) && IsDecimal(parent)
    ensures o.Returned? ==> (o.value <==> AtMost(child, parent))
  {
    var more :- Exceeds(child, parent);
    return Returned(!more);
  }

  /******* checkProfileSubset *******/

  method CommerceIsNarrower(child: CommerceTerms, parent: CommerceTerms) returns (o: Checked<bool>)
    ensures o.Returned? <==> CommerceComparable(child, parent)
    ensures o.Returned? ==> (o.value <==> CommerceNarrower(child, parent))
  {
    hide IsDecimal, Value;
    if !SameTerms(child, parent) {
      return Returned(false);
    }
    var price :- DecimalAtMost(child.maxUnitPrice, parent.maxUnitPrice);
    if !price {
      return Returned(false);
    }
    var total :- DecimalAtMost(child.maxTotal, parent.maxTotal);
    return Returned(total && child.maxQuantity <= parent.maxQuantity);
  }

  method RwaIsNarrower(child: RwaTerms, parent: RwaTerms) returns (o: Checked<bool>)
    ensures o.Returned? <==>
            (child.target == parent.target ==> IsDecimal(child.maxQuantity) && IsDecimal(parent.maxQuantity))
    ensures o.Returned? ==> (o.value <==> RwaNarrower(child, parent))
  {
    hide IsDecimal, Value;
    if child.target != parent.target {
      return Returned(false);
    }
    var quantity :- DecimalAtMost(child.maxQuantity, parent.maxQuantity);
    return Returned(
      && quantity && child.minimumApprovals >= parent.minimumApprovals
      && Subset(parent.requiredRoles, child.requiredRoles) && (parent.oneTime ==> child.oneTime));
  }

  method CheckProfileSubset(child: Mandate, parent: Mandate, reasons: Reasons) returns (o: Checked<()>)
    modifies reasons
    ensures o.Returned? <==> ProfileComparable(child, parent)
    ensures o.Returned? ==>
              forall c :: c in reasons.codes <==> c in old(reasons.codes) || ProfileViolation(child, parent, c)
  {
    hide CommerceComparable, CommerceNarrower, RwaNarrower, IsDecimal, Value;
    if child.profile != parent.profile {
      reasons.AddIf(Truthy(child.profile) || Truthy(parent.profile), ChildProfileAmplification);
      return Returned(());
    }
    if parent.commerce.Some? {
      var narrower := false;
      if child.commerce.Some? {
        narrower :- CommerceIsNarrower(child.commerce.value, parent.commerce.value);
      }
      reasons.AddIf(!narrower, ChildCommerceAmplification);
    }
    if parent.rwa.Some? {
      var narrower := false;
      if child.rwa.Some? {
        narrower :- RwaIsNarrower(child.rwa.value, parent.rwa.value);
      }
      reasons.AddIf(!narrower, ChildRwaAmplification);
    }
    return Returned(());
  }

  /******* checkChildMandate *******/

  method CheckSets(child: Mandate, parent: Mandate, reasons: Reasons)
    modifies reasons
    ensures forall c :: c in reasons.codes <==> c in old(reasons.codes) || SetViolation(child, parent, c)
  {
    hide Subset, ConstrainedSubset;
    reasons.AddIf(!Subset(child.actions, parent.actions), ChildActionAmplification);
    reasons.AddIf(!ConstrainedSubset(child.resources, parent.resources), ChildResourceAmplification);
    reasons.AddIf(!ConstrainedSubset(child.counterparties, parent.counterparties), ChildCounterpartyAmplification);
    reasons.AddIf(!ConstrainedSubset(child.destinations, parent.destinations), ChildDestinationAmplification);
  }

  method CheckTerms(child: Mandate, parent: Mandate, reasons: Reasons)
    modifies reasons
    ensures forall c :: c in reasons.codes <==> c in old(reasons.codes) || TermViolation(child, parent, c)
  {
    hide Narrower, Same;
    reasons.AddIf(!Same(child.purpose, parent.purpose), ChildPurposeAmplification);
    reasons.AddIf(!Narrower(child.limits, parent.limits), ChildLimitAmplification);
    reasons.AddIf(!Narrower(child.dataUse, parent.dataUse), ChildDataUseAmplification);
  }

  method CheckParent(child: Mandate, parent: Mandate, depth: int, now: int, reasons: Reasons) returns (o: Checked<()>)
    modifies reasons
    ensures o.Returned? <==> ActivityDefined(parent, now)
    ensures o.Returned? ==>
              forall c :: c in reasons.codes <==>
                c in old(reasons.codes) || ParentViolation(child, parent, depth, now, c)
  {
    hide Same;
    reasons.AddIf(!Same(child.parentMandate, Some(parent.id)), ParentMandateMismatch);
    var inactive := parent.status != Active;
    if !inactive {
      var from :- Timestamp(parent.notBefore);
      inactive := from > now;
    }
    if !inactive {
      var until :- Timestamp(parent.expiresAt);
      inactive := until <= now;
    }
    reasons.AddIf(inactive, ParentMandateNotActive);
    reasons.AddIf(!MayDelegate(parent) || depth > parent.delegation.value.maxDepth, DelegationNotAllowed);
    return Returned(());
  }

  method CheckSpan(child: Mandate, parent: Mandate, depth: int, reasons: Reasons) returns (o: Checked<()>)
    requires child.notBefore.Ms? && child.expiresAt.Ms?
    modifies reasons
    ensures o.Returned? <==> SpanDefined(child, parent)
    ensures o.Returned? ==>
              forall c :: c in reasons.codes <==> c in old(reasons.codes) || SpanViolation(child, parent, depth, c)
  {
    var parentStart :- Timestamp(parent.notBefore);
    var wider := child.notBefore.t < parentStart;
    if !wider {
      var parentEnd :- Timestamp(parent.expiresAt);
      wider := child.expiresAt.t > parentEnd;
    }
    reasons.AddIf(wider, ChildTimeAmplification);
    if MayDelegate(child) {
      if parent.delegation.None? {
        return Threw;
      }
      var remaining := MaxInt(0, parent.delegation.value.maxDepth - depth);
      reasons.AddIf(child.delegation.value.maxDepth > remaining, ChildDelegationAmplification);
    }
    return Returned(());
  }

  method CheckChildMandate(child: Mandate, parent: Mandate, depth: int, now: int, reasons: Reasons)
    returns (o: Checked<()>)
    requires child.notBefore.Ms? && child.expiresAt.Ms?
    modifies reasons
    ensures o.Returned? <==> ChildDefined(child, parent, now)
    ensures o.Returned? ==>
              forall c :: c in reasons.codes <==>
                c in old(reasons.codes) || ChildViolation(child, parent, depth, now, c)
  {
    hide ActivityDefined, SpanDefined, ProfileComparable;
    hide ParentViolation, SpanViolation, SetViolation, TermViolation, ProfileViolation;
    var _ :- CheckParent(child, parent, depth, now, reasons);
    CheckSets(child, parent, reasons);
    CheckTerms(child, parent, reasons);
    var _ :- CheckSpan(child, parent, depth, reasons);
    o := CheckProfileSubset(child, parent, reasons);
  }

  /******* checkConsumption *******/

  method CheckSpending(m: Mandate, usage: Usage, delta: Delta, reasons: Reasons)
    modifies reasons
    ensures forall c :: c in reasons.codes <==> c in old(reasons.codes) || SpendViolation(m, usage, delta, c)
  {
    hide Replayed, OverCalled;
    reasons.AddIf(usage.consumed, MandateAlreadyConsumed);
    reasons.AddIf(Replayed(usage, delta), IdempotencyReplay);
    reasons.AddIf(OverCalled(m, usage, delta), CallLimitExceeded);
  }

  method CheckLimits(m: Mandate, usage: Usage, delta: Delta, reasons: Reasons) returns (o: Checked<()>)
    modifies reasons
    ensures o.Returned? <==> ConsumptionDefined(m, usage, delta)
    ensures o.Returned? ==>
              forall c :: c in reasons.codes <==> c in old(reasons.codes) || LimitViolation(m, usage, delta, c)
  {
    hide IsDecimal, Value, QuantityLimit, TotalLimit, LimitCurrency, Same;
    var quantityLimit, totalLimit := QuantityLimit(m), TotalLimit(m, delta);
    if quantityLimit.Some? {
      var over :- SumExceeds(usage.quantity, delta.quantity, quantityLimit.value);
      reasons.AddIf(over, QuantityLimitExceeded);
    }
    if totalLimit.Some? {
      reasons.AddIf(WrongCurrency(m, usage, delta), BudgetCurrencyMismatch);
      var over :- SumExceeds(usage.amount, delta.amount, totalLimit.value);
      reasons.AddIf(over, BudgetExceeded);
    }
    return Returned(());
  }

  /******* checkCommerce *******/

  method CheckOffer(terms: CommerceTerms, context: CommerceContext, reasons: Reasons)
    modifies reasons
    ensures forall c :: c in reasons.codes <==> c in old(reasons.codes) || OfferViolation(terms, context, c)
  {
    hide Same, Truthy;
    reasons.AddIf(!Same(context.merchant, terms.merchant), CommerceMerchantNotAllowed);
    reasons.AddIf(!Same(context.service, terms.service), CommerceServiceNotAllowed);
    reasons.AddIf(!Same(context.quote.offer, terms.offer), CommerceOfferNotAllowed);
    reasons.AddIf(Truthy(terms.termsDigest)
                  && !Same(context.quote.termsDigest, terms.termsDigest), CommerceTermsMismatch);
  }

  /** `compareDecimal(total, multiplyDecimal(unitPrice, quantity)) !== 0`; a negative product does not parse. */
  method TotalDiffers(unitPrice: string, quantity: int, total: string) returns (o: Checked<bool>)
    ensures o.Returned? <==>
            IsDecimal(unitPrice) && IsDecimal(total) && (quantity >= 0 || Value(unitPrice) == 0.0)
    ensures o.Returned? ==> (o.value <==> Value(total) != Value(unitPrice) * quantity as real)
  {
    hide Value, IsDecimal, Format;
    if IsDecimal(unitPrice) {
      if quantity >= 0 {
        MultiplyMeaning(unitPrice, quantity);
      } else {
        MultiplyNegative(unitPrice, quantity);
      }
    }
    var exact :- Multiply(unitPrice, quantity);
    CompareMeaning(total, exact);
    var c :- Compare(total, exact);
    return Returned(c != 0);
  }

  /** `compareDecimal(String(n), String(limit)) > 0`. */
  method IntegerExceeds(n: int, limit: int) returns (o: Checked<bool>)
    ensures o.Returned? <==> n >= 0 && limit >= 0
    ensures o.Returned? ==> (o.value <==> n > limit)
  {
    IntegerMeaning(n);
    IntegerMeaning(limit);
    hide Value, IsDecimal, IntToString;
    o := Exceeds(IntToString(n), IntToString(limit));
  }

  method CheckPrice(terms: CommerceTerms, quote: Quote, reasons: Reasons) returns (o: Checked<()>)
    modifies reasons
    ensures o.Returned? <==> PriceDefined(terms, quote)
    ensures o.Returned? ==>
              forall c :: c in reasons.codes <==> c in old(reasons.codes) || PriceViolation(terms, quote, c)
  {
    hide Value, IsDecimal;
    var dear :- Exceeds(quote.unitPrice, terms.maxUnitPrice);
    var inexact :- TotalDiffers(quote.unitPrice, quote.quantity, quote.total);
    var many :- IntegerExceeds(quote.quantity, terms.maxQuantity);
    reasons.AddIf(dear, CommerceUnitPriceExceeded);
    reasons.AddIf(inexact, CommerceTotalInvalid);
    reasons.AddIf(many, CommerceQuantityExceeded);
    return Returned(());
  }

  method CheckPurse(terms: CommerceTerms, quote: Quote, usage: Usage, reasons: Reasons) returns (o: Checked<()>)
    modifies reasons
    ensures o.Returned? <==> PurseDefined(terms, quote, usage)
    ensures o.Returned? ==>
              forall c :: c in reasons.codes <==> c in old(reasons.codes) || PurseViolation(terms, quote, usage, c)
  {
    hide Value, IsDecimal, Same;
    var foreign :=
      !Same(quote.currency, terms.currency) || (!Same(usage.amount, "0") && !Same(usage.currency, quote.currency));
    var over :- SumExceeds(usage.amount, quote.total, terms.maxTotal);
    reasons.AddIf(foreign, CommerceCurrencyMismatch);
    reasons.AddIf(over, CommerceBudgetExceeded);
    return Returned(());
  }

  /** The codes whose name starts with `COMMERCE_`. */
  predicate IsCommerceCode(c: Code) {
    || c.CommerceContextRequired? || c.CommerceMerchantNotAllowed? || c.CommerceServiceNotAllowed?
    || c.CommerceOfferNotAllowed? || c.CommerceCurrencyMismatch? || c.CommerceUnitPriceExceeded?
    || c.CommerceTotalInvalid? || c.CommerceBudgetExceeded? || c.CommerceQuantityExceeded?
    || c.CommerceTermsMismatch? || c.CommerceEnvelopeContextMismatch?
  }

  lemma PurchaseCodes(terms: CommerceTerms, context: CommerceContext, usage: Usage, c: Code)
    requires CommerceDefined(terms, context.quote, usage)
    ensures PurchaseViolation(terms, context, usage, c) ==> IsCommerceCode(c)
  {
    hide Value, IsDecimal, Same;
  }

  method CheckPurchase(terms: CommerceTerms, context: CommerceContext, usage: Usage, reasons: Reasons)
    returns (o: Checked<()>)
    modifies reasons
    ensures o.Returned? <==> CommerceDefined(terms, context.quote, usage)
    ensures o.Returned? ==>
              forall c :: c in reasons.codes <==> c in old(reasons.codes) || PurchaseViolation(terms, context, usage, c)
  {
    hide PriceDefined, PurseDefined, OfferViolation, PriceViolation, PurseViolation;
    CheckOffer(terms, context, reasons);
    var _ :- CheckPrice(terms, context.quote, reasons);
    o := CheckPurse(terms, context.quote, usage, reasons);
  }

  method CheckCommerce(terms: CommerceTerms, e: Envelope, context: CommerceContext, usage: Usage, reasons: Reasons)
    returns (o: Checked<()>)
    requires forall c :: c in reasons.codes ==> !IsCommerceCode(c)
    modifies reasons
    ensures o.Returned? <==> CommerceDefined(terms, context.quote, usage)
    ensures o.Returned? ==>
              forall c :: c in reasons.codes <==>
                c in old(reasons.codes) || CommerceViolation(terms, e, context, usage, c)
  {
    hide CommerceDefined, PurchaseViolation, CommerceSubstituted, IsCommerceCode;
    var _ :- CheckPurchase(terms, context, usage, reasons);
    var clean := forall c <- reasons.codes :: !IsCommerceCode(c);
    forall d
      ensures PurchaseViolation(terms, context, usage, d) ==> IsCommerceCode(d)
    {
      PurchaseCodes(terms, context, usage, d);
    }
    reasons.AddIf(context.quote.idempotencyKey in usage.idempotencyKeys, IdempotencyReplay);
    reasons.AddIf(CommerceSubstituted(e, context) && clean, CommerceEnvelopeContextMismatch);
    return Returned(());
  }

  /******* checkRwa *******/

  method CheckTarget(terms: RwaTerms, e: Envelope, context: RwaContext, now: int, reasons: Reasons)
    returns (o: Checked<()>)
    modifies reasons
    ensures o.Returned? <==> context.claimValidUntil.Ms?
    ensures o.Returned? ==>
              forall c :: c in reasons.codes <==> c in old(reasons.codes) || TargetViolation(terms, e, context, now, c)
  {
    hide Same, RwaSubstituted;
    var validUntil :- Timestamp(context.claimValidUntil);
    reasons.AddIf(RwaSubstituted(e, context), RwaEnvelopeContextMismatch);
    reasons.AddIf(!Same(context.target, terms.target), RwaTargetMismatch);
    reasons.AddIf(validUntil <= now, RwaStateClaimExpired);
    return Returned(());
  }

  method CheckQuota(terms: RwaTerms, context: RwaContext, usage: Usage, tracked: bool, reasons: Reasons)
    returns (o: Checked<()>)
    modifies reasons
    ensures o.Returned? && IsDecimal(context.currentSupply) <==> QuotaDefined(terms, context, usage, tracked)
    ensures o.Returned? && IsDecimal(context.currentSupply) ==>
              forall c :: c in reasons.codes <==>
                c in old(reasons.codes) || QuotaViolation(terms, context, usage, tracked, c)
  {
    hide Value, IsDecimal, Compare;
    var over :- SumExceeds(usage.quantity, context.quantity, terms.maxQuantity);
    var stale := false;
    if tracked {
      CompareMeaning(usage.mintedSupply, context.currentSupply);
      var c :- Compare(usage.mintedSupply, context.currentSupply);
      stale := c != 0;
    }
    reasons.AddIf(over, RwaQuantityExceeded);
    reasons.AddIf(stale, RwaSupplyStateMismatch);
    return Returned(());
  }

  method CheckSupply(context: RwaContext, reasons: Reasons) returns (o: Checked<()>)
    modifies reasons
    ensures o.Returned? <==> SupplyDefined(context)
    ensures o.Returned? ==>
              forall c :: c in reasons.codes <==> c in old(reasons.codes) || SupplyViolation(context, c)
  {
    hide Value, IsDecimal, Add;
    AddMeaning(context.currentSupply, context.quantity);
    var supply :- Add(context.currentSupply, context.quantity);
    var overReserve :- Exceeds(supply, context.reserve);
    var overMaximum := false;
    if Truthy(context.maximumSupply) {
      overMaximum :- Exceeds(supply, context.maximumSupply.value);
    }
    reasons.AddIf(overReserve, RwaReserveExceeded);
    reasons.AddIf(overMaximum, RwaMaximumSupplyExceeded);
    return Returned(());
  }

  method CheckApprovals(terms: RwaTerms, context: RwaContext, usage: Usage, reasons: Reasons)
    modifies reasons
    ensures forall c :: c in reasons.codes <==> c in old(reasons.codes) || ApprovalViolation(terms, context, usage, c)
  {
    reasons.AddIf(context.approvalCount < terms.minimumApprovals, RwaApprovalThresholdNotMet);
    var missing := false;
    for i := 0 to |terms.requiredRoles|
      invariant missing <==> exists j :: 0 <= j < i && terms.requiredRoles[j] !in context.approvalRoles
    {
      if terms.requiredRoles[i] !in context.approvalRoles {
        missing := true;
      }
    }
    assert missing <==> !Subset(terms.requiredRoles, context.approvalRoles);
    hide Subset;
    reasons.AddIf(missing, RwaRequiredRoleMissing);
    reasons.AddIf(terms.oneTime && usage.consumed, MandateAlreadyConsumed);
  }

  method CheckRwa(
      terms: RwaTerms, e: Envelope, context: RwaContext, usage: Usage, tracked: bool, now: int, reasons: Reasons)
    returns (o: Checked<()>)
    modifies reasons
    ensures o.Returned? <==> RwaDefined(terms, context, usage, tracked)
    ensures o.Returned? ==>
              forall c :: c in reasons.codes <==>
                c in old(reasons.codes) || RwaViolation(terms, e, context, usage, tracked, now, c)
  {
    hide TargetViolation, QuotaViolation, SupplyViolation, ApprovalViolation, IsDecimal, Value;
    var _ :- CheckTarget(terms, e, context, now, reasons);
    var _ :- CheckQuota(terms, context, usage, tracked, reasons);
    var _ :- CheckSupply(context, reasons);
    CheckApprovals(terms, context, usage, reasons);
    return Returned(());
  }

  /******* evaluateAuthority *******/

  method CheckStanding(r: Request, reasons: Reasons) returns (o: Checked<()>)
    modifies reasons
    ensures o.Returned? <==> CoreDefined(r)
    ensures o.Returned? ==> forall c :: c in reasons.codes <==> c in old(reasons.codes) || StandingViolation(r, c)
  {
    var now :- Timestamp(r.time);
    reasons.AddIf(r.mandate.status != Active, MandateNotActive);
    var notBefore :- Timestamp(r.mandate.notBefore);
    reasons.AddIf(notBefore > now, MandateNotYetActive);
    var expiresAt :- Timestamp(r.mandate.expiresAt);
    reasons.AddIf(expiresAt <= now, MandateExpired);
    return Returned(());
  }

  method CheckAddress(r: Request, reasons: Reasons)
    modifies reasons
    ensures forall c :: c in reasons.codes <==> c in old(reasons.codes) || AddressViolation(r, c)
  {
    hide Same, Truthy;
    var m, e := r.mandate, r.envelope;
    reasons.AddIf(!Same(e.mandateId, m.id), MandateReferenceMismatch);
    reasons.AddIf(!Same(e.agentId, m.subject), SubjectMismatch);
    reasons.AddIf(e.profile.Some? && !Same(e.profile, m.profile), ProfileMismatch);
    reasons.AddIf(r.parent.None? && Truthy(m.parentMandate), ParentMandateRequired);
  }

  method CheckAction(m: Mandate, e: Envelope, reasons: Reasons)
    modifies reasons
    ensures forall c :: c in reasons.codes <==> c in old(reasons.codes) || ActionViolation(m, e, c)
  {
    hide Same, InConstraint;
    reasons.AddIf(e.action !in m.actions, ActionNotAllowed);
    reasons.AddIf(!InConstraint(m.resources, Some(e.resource)), ResourceNotAllowed);
    reasons.AddIf(!Same(e.purpose, Some(m.purpose)), PurposeMismatch);
    reasons.AddIf(!InConstraint(m.counterparties, e.counterparty), CounterpartyNotAllowed);
    reasons.AddIf(!InConstraint(m.destinations, e.destination), DestinationNotAllowed);
  }

  method CheckGrant(r: Request, reasons: Reasons) returns (o: Checked<()>)
    modifies reasons
    ensures o.Returned? <==> GrantDefined(r)
    ensures o.Returned? ==> forall c :: c in reasons.codes <==> c in old(reasons.codes) || GrantFinding(r, c)
  {
    hide StandingViolation, AddressViolation, ActionViolation, ChildViolation, ChildDefined;
    var _ :- CheckStanding(r, reasons);
    CheckAddress(r, reasons);
    CheckAction(r.mandate, r.envelope, reasons);
    if r.parent.Some? {
      var _ :- CheckChildMandate(r.mandate, r.parent.value, GetOr(r.depth, 1), r.time.t, reasons);
    }
    return Returned(());
  }

  method CheckConsumption(r: Request, usage: Usage, delta: Delta, reasons: Reasons) returns (o: Checked<()>)
    requires usage == Normalized(r.usage) && delta == Effective(r)
    modifies reasons
    ensures o.Returned? <==> ConsumptionDefined(r.mandate, usage, delta)
    ensures o.Returned? ==> forall c :: c in reasons.codes <==> c in old(reasons.codes) || SpendFinding(r, c)
  {
    hide Normalized, Effective, ConsumptionDefined, SpendViolation, LimitViolation, ContextMismatch;
    reasons.AddIf(ContextMismatch(r, delta), ConsumptionContextMismatch);
    CheckSpending(r.mandate, usage, delta, reasons);
    o := CheckLimits(r.mandate, usage, delta, reasons);
  }

  /** The Grant and consumption checks find no `COMMERCE_` code. */
  lemma NoCommerceCodeYet(r: Request, c: Code)
    requires GrantDefined(r) && ConsumptionDefined(r.mandate, Normalized(r.usage), Effective(r))
    requires GrantFinding(r, c) || SpendFinding(r, c)
    ensures !IsCommerceCode(c)
  {
    hide Normalized, Effective, ConsumptionDefined, ChildDefined;
    hide Same, Value, IsDecimal, Narrower, Subset, ConstrainedSubset, InConstraint, CommerceNarrower, RwaNarrower;
  }

  method CheckProfiles(r: Request, usage: Usage, reasons: Reasons) returns (o: Checked<()>)
    requires usage == Normalized(r.usage) && r.time.Ms?
    requires forall c :: c in reasons.codes ==> !IsCommerceCode(c)
    modifies reasons
    ensures o.Returned? <==> CommerceReturns(r) && RwaReturns(r)
    ensures o.Returned? ==>
              forall c :: c in reasons.codes <==> c in old(reasons.codes) || CommerceFinding(r, c) || RwaFinding(r, c)
  {
    hide Normalized, CommerceDefined, CommerceViolation, RwaDefined, RwaViolation, IsCommerceCode;
    if CommerceApplies(r) {
      if r.commerce.None? || r.mandate.commerce.None? {
        reasons.AddIf(true, CommerceContextRequired);
      } else {
        var _ :- CheckCommerce(r.mandate.commerce.value, r.envelope, r.commerce.value, usage, reasons);
      }
    }
    if RwaApplies(r) {
      if r.rwa.None? || r.mandate.rwa.None? {
        reasons.AddIf(true, RwaContextRequired);
      } else {
        var _ :- CheckRwa(r.mandate.rwa.value, r.envelope, r.rwa.value, usage, Tracked(r), r.time.t, reasons);
      }
    }
    return Returned(());
  }

  /** Run every check in order on a fresh set of reasons. */
  method CheckAll(r: Request, reasons: Reasons) returns (o: Checked<()>)
    requires reasons.codes == {}
    modifies reasons
    ensures o.Returned? <==> Defined(r)
    ensures o.Returned? ==> reasons.codes == set c: Code | Violates(r, c)
  {
    hide GrantFinding, SpendFinding, CommerceFinding, RwaFinding, IsCommerceCode, Normalized, Effective;
    hide ConsumptionDefined, CommerceReturns, RwaReturns, ChildDefined;
    var _ :- CheckGrant(r, reasons);
    var usage, delta := Normalized(r.usage), Effective(r);
    var _ :- CheckConsumption(r, usage, delta, reasons);
    forall c | c in reasons.codes
      ensures !IsCommerceCode(c)
    {
      NoCommerceCodeYet(r, c);
    }
    o := CheckProfiles(r, usage, reasons);
  }

  /** `evaluateAuthority`. */
  method EvaluateAuthority(r: Request) returns (o: Checked<EvaluationResult>)
    ensures o == Evaluate(r)
  {
    hide Violates, Defined, Next, Normalized;
    var reasons := new Reasons();
    var _ :- CheckAll(r, reasons);
    if reasons.codes == {} {
      var next :- Next(r);
      return Returned(EvaluationResult(r.mandate.id, r.envelope.id, {}, Snapshot(next)));
    }
    return Returned(EvaluationResult(r.mandate.id, r.envelope.id, reasons.codes, Snapshot(Normalized(r.usage))));
  }
}
