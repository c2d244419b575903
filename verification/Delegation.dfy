/**
 Non-amplification: what a chain of delegated Mandates permits, its root permits.
 */
module Delegation {
  import opened Wrappers
  import opened Decimals
  import opened Limits
  import opened Authority
  import Runs

  /******* Chains *******/

  /** `checkChildMandate` finds nothing wrong between `child` and `parent`. */
  ghost predicate Link(child: Mandate, parent: Mandate, depth: int, now: int) {
    ChildDefined(child, parent, now) && forall c :: !ChildViolation(child, parent, depth, now, c)
  }

  /** `ms[0]` is the root; each later Mandate is delegated from the one before it. */
  ghost predicate Chain(ms: seq<Mandate>, depths: seq<int>, now: int) {
    && |ms| == |depths| + 1
    && forall i :: 0 <= i < |depths| ==> Link(ms[i + 1], ms[i], depths[i], now)
  }

  ghost predicate ActiveAt(m: Mandate, now: int) {
    m.status == Active && m.notBefore.Ms? && m.expiresAt.Ms? && m.notBefore.t <= now < m.expiresAt.t
  }

  /** All Mandates of a chain carry the same profile, or none. */
  predicate OneProfile(ms: seq<Mandate>)
    requires ms != []
  {
    forall i :: 0 <= i < |ms| ==> ms[i].profile == ms[0].profile
  }

  /** The part of a link that composes along a chain. */
  ghost predicate Narrows(child: Mandate, parent: Mandate) {
    && Subset(child.actions, parent.actions)
    && ConstrainedSubset(child.resources, parent.resources)
    && ConstrainedSubset(child.counterparties, parent.counterparties)
    && ConstrainedSubset(child.destinations, parent.destinations)
    && child.purpose == parent.purpose
    && Narrower(child.limits, parent.limits)
    && Narrower(child.dataUse, parent.dataUse)
    && child.profile == parent.profile
    && (parent.commerce.Some? ==> child.commerce.Some? && CommerceNarrower(child.commerce.value, parent.commerce.value))
    && (parent.rwa.Some? ==> child.rwa.Some? && RwaNarrower(child.rwa.value, parent.rwa.value))
  }

  lemma LinkNarrows(child: Mandate, parent: Mandate, depth: int, now: int)
    requires Link(child, parent, depth, now) && child.profile == parent.profile
    ensures Narrows(child, parent) && ActiveAt(parent, now)
  {
    hide CommerceNarrower, RwaNarrower, Narrower, Subset, ConstrainedSubset, ProfileComparable;
    assert forall c :: !ChildViolation(child, parent, depth, now, c);
    assert !ChildViolation(child, parent, depth, now, ParentMandateNotActive);
    assert !SetViolation(child, parent, ChildActionAmplification) by {
      assert !ChildViolation(child, parent, depth, now, ChildActionAmplification);
    }
    assert !SetViolation(child, parent, ChildResourceAmplification) by {
      assert !ChildViolation(child, parent, depth, now, ChildResourceAmplification);
    }
    assert !SetViolation(child, parent, ChildCounterpartyAmplification) by {
      assert !ChildViolation(child, parent, depth, now, ChildCounterpartyAmplification);
    }
    assert !SetViolation(child, parent, ChildDestinationAmplification) by {
      assert !ChildViolation(child, parent, depth, now, ChildDestinationAmplification);
    }
    assert !TermViolation(child, parent, ChildPurposeAmplification) by {
      assert !ChildViolation(child, parent, depth, now, ChildPurposeAmplification);
    }
    assert !TermViolation(child, parent, ChildLimitAmplification) by {
      assert !ChildViolation(child, parent, depth, now, ChildLimitAmplification);
    }
    assert !TermViolation(child, parent, ChildDataUseAmplification) by {
      assert !ChildViolation(child, parent, depth, now, ChildDataUseAmplification);
    }
    assert !ProfileViolation(child, parent, ChildProfileAmplification) by {
      assert !ChildViolation(child, parent, depth, now, ChildProfileAmplification);
    }
    assert !ProfileViolation(child, parent, ChildCommerceAmplification) by {
      assert !ChildViolation(child, parent, depth, now, ChildCommerceAmplification);
    }
    assert !ProfileViolation(child, parent, ChildRwaAmplification) by {
      assert !ChildViolation(child, parent, depth, now, ChildRwaAmplification);
    }
  }

  lemma CommerceNarrowerTransitive(a: CommerceTerms, b: CommerceTerms, c: CommerceTerms)
    requires CommerceNarrower(a, b) && CommerceNarrower(b, c)
    ensures CommerceNarrower(a, c)
  {
    hide IsDecimal, Value;
  }

  lemma RwaNarrowerTransitive(a: RwaTerms, b: RwaTerms, c: RwaTerms)
    requires RwaNarrower(a, b) && RwaNarrower(b, c)
    ensures RwaNarrower(a, c)
  {
    hide IsDecimal, Value;
  }

  lemma ConstrainedSubsetTransitive(a: Option<seq<string>>, b: Option<seq<string>>, c: Option<seq<string>>)
    requires ConstrainedSubset(a, b) && ConstrainedSubset(b, c)
    ensures ConstrainedSubset(a, c)
  {
  }

  lemma NarrowsTransitive(a: Mandate, b: Mandate, c: Mandate)
    requires Narrows(a, b) && Narrows(b, c)
    ensures Narrows(a, c)
  {
    ConstrainedSubsetTransitive(a.resources, b.resources, c.resources);
    ConstrainedSubsetTransitive(a.counterparties, b.counterparties, c.counterparties);
    ConstrainedSubsetTransitive(a.destinations, b.destinations, c.destinations);
    NarrowerTransitive(a.limits, b.limits, c.limits);
    NarrowerTransitive(a.dataUse, b.dataUse, c.dataUse);
    if c.commerce.Some? {
      CommerceNarrowerTransitive(a.commerce.value, b.commerce.value, c.commerce.value);
    }
    if c.rwa.Some? {
      RwaNarrowerTransitive(a.rwa.value, b.rwa.value, c.rwa.value);
    }
    assert Subset(a.actions, c.actions);
    hide CommerceNarrower, RwaNarrower, Narrower, Subset, ConstrainedSubset;
  }

  /** The leaf of a chain narrows the root, which is active. */
  lemma {:induction false} ChainNarrows(ms: seq<Mandate>, depths: seq<int>, now: int)
    requires Chain(ms, depths, now) && |depths| > 0 && OneProfile(ms)
    ensures Narrows(ms[|depths|], ms[0]) && ActiveAt(ms[0], now)
  {
    hide Narrows, Link;
    LinkNarrows(ms[1], ms[0], depths[0], now);
    if |depths| > 1 {
      ChainNarrows(ms[1..], depths[1..], now);
      NarrowsTransitive(ms[|depths|], ms[1], ms[0]);
    }
  }

  /** Profiles that are absent or not empty, as a URI is, agree along every chain. */
  lemma {:induction false} NamedProfilesAgree(ms: seq<Mandate>, depths: seq<int>, now: int)
    requires Chain(ms, depths, now) && forall i :: 0 <= i < |ms| ==> ms[i].profile != Some("")
    ensures OneProfile(ms)
    decreases |ms|
  {
    hide Link;
    if |depths| > 0 {
      SameNamedProfile(ms[1], ms[0], depths[0], now);
      NamedProfilesAgree(ms[1..], depths[1..], now);
      forall i | 0 <= i < |ms|
        ensures ms[i].profile == ms[0].profile
      {
        assert i > 0 ==> ms[i] == ms[1..][i - 1];
      }
    }
  }

  lemma SameNamedProfile(child: Mandate, parent: Mandate, depth: int, now: int)
    requires Link(child, parent, depth, now) && child.profile != Some("") && parent.profile != Some("")
    ensures child.profile == parent.profile
  {
    assert !ProfileViolation(child, parent, ChildProfileAmplification) by {
      assert !ChildViolation(child, parent, depth, now, ChildProfileAmplification);
    }
  }

  /******* Delegation is well-founded *******/

  function Sum(depths: seq<int>): int {
    if depths == [] then 0 else depths[0] + Sum(depths[1..])
  }

  lemma LinkDepth(child: Mandate, parent: Mandate, depth: int, now: int)
    requires Link(child, parent, depth, now)
    ensures MayDelegate(parent) && depth <= parent.delegation.value.maxDepth
    ensures MayDelegate(child) ==> child.delegation.value.maxDepth <= parent.delegation.value.maxDepth - depth
  {
    assert !ParentViolation(child, parent, depth, now, DelegationNotAllowed) by {
      assert !ChildViolation(child, parent, depth, now, DelegationNotAllowed);
    }
    assert !SpanViolation(child, parent, depth, ChildDelegationAmplification) by {
      assert !ChildViolation(child, parent, depth, now, ChildDelegationAmplification);
    }
  }

  /** The depths used along a chain add up to at most what the root allows. */
  lemma {:induction false} DepthIsSpent(ms: seq<Mandate>, depths: seq<int>, now: int)
    requires Chain(ms, depths, now) && |depths| > 0
    ensures MayDelegate(ms[0]) && Sum(depths) <= ms[0].delegation.value.maxDepth
  {
    hide Link;
    LinkDepth(ms[1], ms[0], depths[0], now);
    if |depths| > 1 {
      DepthIsSpent(ms[1..], depths[1..], now);
    }
  }

  lemma {:induction false} SumAtLeastLength(depths: seq<int>)
    requires forall i :: 0 <= i < |depths| ==> depths[i] >= 1
    ensures Sum(depths) >= |depths|
  {
    if depths != [] {
      SumAtLeastLength(depths[1..]);
    }
  }

  /** With a depth of at least one per link, a chain has at most the root's `max_depth` links. */
  lemma ChainIsBounded(ms: seq<Mandate>, depths: seq<int>, now: int)
    requires Chain(ms, depths, now) && |depths| > 0
    requires forall i :: 0 <= i < |depths| ==> depths[i] >= 1
    ensures MayDelegate(ms[0]) && |depths| <= ms[0].delegation.value.maxDepth
  {
    DepthIsSpent(ms, depths, now);
    SumAtLeastLength(depths);
  }

  /** A Mandate that names itself as its parent and may delegate no further. */
  function SelfDelegated(): Mandate {
    Mandate("m", "a", Some("m"), "p", ["x"], None, None, None, None, None, Some(Delegation(true, 0)),
            Ms(0), Ms(2), Active, None, None, None)
  }

  /** With a depth of zero, which the request schema admits, chains of every length pass. */
  lemma ZeroDepthIsUnbounded(n: nat)
    ensures Chain(seq(n + 1, _ => SelfDelegated()), seq(n, _ => 0), 1)
  {
    var m := SelfDelegated();
    forall c
      ensures !ChildViolation(m, m, 0, 1, c)
    {
    }
  }

  /******* Semantic non-amplification *******/

  /** The same request, addressed to the root Mandate and its subject. */
  function AtRoot(r: Request, root: Mandate): Request {
    r.(mandate := root, parent := None,
       envelope := r.envelope.(mandateId := root.id, agentId := root.subject))
  }

  /** The root carries the extension that matches each supplied profile context. */
  predicate CarriesContexts(root: Mandate, r: Request) {
    (r.commerce.Some? ==> root.commerce.Some?) && (r.rwa.Some? ==> root.rwa.Some?)
  }

  /** The caller asks not to consume a Mandate that is one-time. */
  predicate RefusesConsumption(m: Mandate, r: Request) {
    OneTime(m) && r.consumption.Some? && r.consumption.value.consume == Some(false)
  }

  /** The guards under which the root itself would still deny a request its delegate was allowed. */
  predicate RootAccepts(root: Mandate, r: Request) {
    && !Truthy(root.parentMandate)
    && CarriesContexts(root, r)
    && !WrongCurrency(root, Normalized(r.usage), Effective(r))
    && !RefusesConsumption(root, r)
  }

  /** Only the one-time flag of the effective consumption depends on the Mandate. */
  lemma SameConsumption(r: Request, root: Mandate)
    ensures Effective(AtRoot(r, root)).(consume := Effective(r).consume) == Effective(r)
  {
  }

  lemma ConstraintWidens(child: Option<seq<string>>, root: Option<seq<string>>, actual: Option<string>)
    requires ConstrainedSubset(child, root) && InConstraint(child, actual)
    ensures InConstraint(root, actual)
  {
  }

  lemma ActionAtRoot(child: Mandate, root: Mandate, e: Envelope, c: Code)
    requires Narrows(child, root) && forall d :: !ActionViolation(child, e, d)
    ensures !ActionViolation(root, e, c)
  {
    hide Narrower, CommerceNarrower, RwaNarrower;
    assert !ActionViolation(child, e, c);
    if c == ResourceNotAllowed {
      ConstraintWidens(child.resources, root.resources, Some(e.resource));
    } else if c == CounterpartyNotAllowed {
      ConstraintWidens(child.counterparties, root.counterparties, e.counterparty);
    } else if c == DestinationNotAllowed {
      ConstraintWidens(child.destinations, root.destinations, e.destination);
    }
    hide ConstrainedSubset, InConstraint;
  }

  /** The re-addressed request stands and is addressed at the root. */
  lemma StandingAtRoot(r: Request, root: Mandate, c: Code)
    requires GrantDefined(r) && !GrantFinding(r, c) && Same(root.profile, r.mandate.profile)
    requires ActiveAt(root, r.time.t) && !Truthy(root.parentMandate)
    ensures GrantDefined(AtRoot(r, root))
    ensures !StandingViolation(AtRoot(r, root), c) && !AddressViolation(AtRoot(r, root), c)
  {
    hide ActionViolation, ChildViolation, ChildDefined, Same;
    SameReflexive(root.id);
    SameReflexive(root.subject);
    assert Same(r.envelope.profile, root.profile) == Same(r.envelope.profile, r.mandate.profile) by {
      SameProfile(r.envelope.profile, root.profile, r.mandate.profile);
    }
  }

  lemma SameProfile(a: Option<string>, b: Option<string>, c: Option<string>)
    requires Same(b, c)
    ensures Same(a, b) == Same(a, c)
  {
  }

  lemma GrantAtRoot(r: Request, root: Mandate, c: Code)
    requires GrantDefined(r) && forall d :: !GrantFinding(r, d)
    requires Narrows(r.mandate, root) && ActiveAt(root, r.time.t) && !Truthy(root.parentMandate)
    ensures GrantDefined(AtRoot(r, root)) && !GrantFinding(AtRoot(r, root), c)
  {
    assert Same(root.profile, r.mandate.profile);
    hide Narrows, ActionViolation, AddressViolation, StandingViolation, ChildViolation, ChildDefined, Same;
    forall d
      ensures !ActionViolation(r.mandate, r.envelope, d)
    {
      assert !GrantFinding(r, d);
    }
    ActionAtRoot(r.mandate, root, r.envelope, c);
    SameAction(root, r.envelope, AtRoot(r, root).envelope, c);
    StandingAtRoot(r, root, c);
  }

  lemma SameReflexive(s: string)
    ensures Same(s, s)
  {
  }

  lemma SameAction(m: Mandate, e: Envelope, e': Envelope, c: Code)
    requires Readdressed(e, e')
    ensures ActionViolation(m, e', c) == ActionViolation(m, e, c)
  {
  }

  /** A number or decimal limit of the root reappears, not larger, in the delegate. */
  lemma LimitEntry(child: Mandate, root: Mandate, key: string)
    requires Narrower(child.limits, root.limits) && At(LimitsOf(root), key).Some?
    ensures NarrowerEntry(At(LimitsOf(child), key), At(LimitsOf(root), key).value)
  {
  }

  lemma CallsAtRoot(child: Mandate, root: Mandate, usage: Usage, delta: Delta)
    requires Narrower(child.limits, root.limits) && OverCalled(root, usage, delta)
    ensures OverCalled(child, usage, delta)
  {
    LimitEntry(child, root, "max_calls");
  }

  /** The delegate has a total limit whenever the root has one, and it is not larger. */
  lemma TotalAtRoot(child: Mandate, root: Mandate, delta: Delta)
    requires Narrower(child.limits, root.limits) && TotalLimit(root, delta).Some?
    requires TotalLimit(child, delta).Some? ==> IsDecimal(TotalLimit(child, delta).value)
    ensures TotalLimit(child, delta).Some? && AtMost(TotalLimit(child, delta).value, TotalLimit(root, delta).value)
  {
    LimitEntry(child, root, "max_total");
    var p, q := At(LimitsOf(child), "max_total").value, At(LimitsOf(root), "max_total").value;
    if IsDecimal(q.p.s) {
      NarrowerDecimal(p.p.s, q.p.s);
    }
  }

  lemma QuantityAtRoot(child: Mandate, root: Mandate)
    requires Narrower(child.limits, root.limits) && child.profile == root.profile && QuantityLimit(root).Some?
    requires QuantityLimit(child).Some? ==> IsDecimal(QuantityLimit(child).value)
    ensures QuantityLimit(child).Some? && AtMost(QuantityLimit(child).value, QuantityLimit(root).value)
  {
    LimitEntry(child, root, "max_quantity");
    var p, q := At(LimitsOf(child), "max_quantity").value, At(LimitsOf(root), "max_quantity").value;
    if IsNumber(Some(q)) {
      IntegerMeaning(p.p.n);
      IntegerMeaning(q.p.n);
    } else if IsDecimal(q.p.s) {
      NarrowerDecimal(p.p.s, q.p.s);
    }
  }

  lemma LimitsAtRoot(child: Mandate, root: Mandate, usage: Usage, delta: Delta, c: Code)
    requires Narrower(child.limits, root.limits) && child.profile == root.profile
    requires ConsumptionDefined(child, usage, delta) && forall d :: !LimitViolation(child, usage, delta, d)
    ensures ConsumptionDefined(root, usage, delta)
    ensures c != BudgetCurrencyMismatch ==> !LimitViolation(root, usage, delta, c)
  {
    if QuantityLimit(root).Some? {
      QuantityAtRoot(child, root);
      assert !LimitViolation(child, usage, delta, QuantityLimitExceeded);
    }
    if TotalLimit(root, delta).Some? {
      TotalAtRoot(child, root, delta);
      assert !LimitViolation(child, usage, delta, BudgetExceeded);
    }
    hide IsDecimal, Value, QuantityLimit, TotalLimit, WrongCurrency, Narrower;
  }

  /** The limits only ask what is spent, so the one-time flag does not matter to them. */
  lemma LimitsIgnoreConsume(m: Mandate, usage: Usage, delta: Delta, consume: bool, c: Code)
    ensures ConsumptionDefined(m, usage, delta) <==> ConsumptionDefined(m, usage, delta.(consume := consume))
    ensures ConsumptionDefined(m, usage, delta) ==>
              (LimitViolation(m, usage, delta, c) <==> LimitViolation(m, usage, delta.(consume := consume), c))
    ensures SpendViolation(m, usage, delta, c) <==> SpendViolation(m, usage, delta.(consume := consume), c)
  {
    hide IsDecimal, Value;
  }

  lemma ContextAtRoot(r: Request, root: Mandate)
    requires !ContextMismatch(r, Effective(r))
    ensures ContextMismatch(AtRoot(r, root), Effective(AtRoot(r, root))) <==> RefusesConsumption(root, r)
  {
    hide OneTime;
    SameConsumption(r, root);
  }

  /** The root finds nothing new about consumption, its guards aside. */
  lemma SpendAtRoot(r: Request, root: Mandate, c: Code)
    requires var usage, delta := Normalized(r.usage), Effective(r);
             ConsumptionDefined(r.mandate, usage, delta) && forall d :: !SpendFinding(r, d)
    requires Narrows(r.mandate, root)
    ensures var q := AtRoot(r, root);
            && ConsumptionDefined(root, Normalized(q.usage), Effective(q))
            && (SpendFinding(q, c) <==>
                || (c == ConsumptionContextMismatch && RefusesConsumption(root, r))
                || (c == BudgetCurrencyMismatch && WrongCurrency(root, Normalized(r.usage), Effective(r))))
  {
    hide Narrows, LimitViolation, SpendViolation, ConsumptionDefined, ContextMismatch, Effective, Normalized;
    var q := AtRoot(r, root);
    var usage, delta, delta' := Normalized(r.usage), Effective(r), Effective(q);
    SameConsumption(r, root);
    assert delta' == delta.(consume := delta'.consume);
    assert !SpendFinding(r, ConsumptionContextMismatch);
    ContextAtRoot(r, root);
    forall d
      ensures !LimitViolation(r.mandate, usage, delta, d) && !SpendViolation(r.mandate, usage, delta, d)
    {
      assert !SpendFinding(r, d);
    }
    NarrowsLimits(r.mandate, root);
    LimitsAtRoot(r.mandate, root, usage, delta, c);
    LimitsIgnoreConsume(root, usage, delta, delta'.consume, c);
    SpendingAtRoot(r.mandate, root, usage, delta, c);
    CurrencyCode(root, usage, delta);
    hide WrongCurrency, RefusesConsumption, Narrower;
  }

  lemma NarrowsLimits(child: Mandate, root: Mandate)
    requires Narrows(child, root)
    ensures Narrower(child.limits, root.limits) && child.profile == root.profile
  {
  }

  lemma CurrencyCode(m: Mandate, usage: Usage, delta: Delta)
    requires ConsumptionDefined(m, usage, delta)
    ensures LimitViolation(m, usage, delta, BudgetCurrencyMismatch) <==> WrongCurrency(m, usage, delta)
  {
  }

  lemma SpendingAtRoot(child: Mandate, root: Mandate, usage: Usage, delta: Delta, c: Code)
    requires Narrower(child.limits, root.limits)
    requires forall d :: !SpendViolation(child, usage, delta, d)
    ensures !SpendViolation(root, usage, delta, c)
  {
    hide Narrower;
    assert !SpendViolation(child, usage, delta, c);
    if OverCalled(root, usage, delta) {
      CallsAtRoot(child, root, usage, delta);
    }
    hide OverCalled, Replayed;
  }

  /** Narrower terms find fault with every purchase that the wider ones find fault with. */
  lemma PurchaseAtRoot(child: CommerceTerms, root: CommerceTerms, context: CommerceContext, usage: Usage, c: Code)
    requires CommerceNarrower(child, root) && CommerceDefined(child, context.quote, usage)
    ensures CommerceDefined(root, context.quote, usage)
    ensures PurchaseViolation(root, context, usage, c) ==> PurchaseViolation(child, context, usage, c)
  {
    hide IsDecimal, Value;
  }

  ghost predicate Readdressed(e: Envelope, e': Envelope) {
    e' == e.(mandateId := e'.mandateId, agentId := e'.agentId)
  }

  lemma CommerceTermsAtRoot(
      child: CommerceTerms, root: CommerceTerms, e: Envelope, e': Envelope, context: CommerceContext, usage: Usage,
      c: Code)
    requires CommerceNarrower(child, root) && CommerceDefined(child, context.quote, usage) && Readdressed(e, e')
    requires forall d :: !CommerceViolation(child, e, context, usage, d)
    ensures CommerceDefined(root, context.quote, usage) && !CommerceViolation(root, e', context, usage, c)
  {
    hide PurchaseViolation, CommerceDefined, CommerceNarrower;
    assert CommerceSubstituted(e, context) == CommerceSubstituted(e', context);
    hide CommerceSubstituted;
    forall d
      ensures !PurchaseViolation(child, context, usage, d)
    {
      assert !CommerceViolation(child, e, context, usage, d);
    }
    PurchaseAtRoot(child, root, context, usage, c);
    assert !CommerceViolation(child, e, context, usage, IdempotencyReplay);
    assert !CommerceViolation(child, e, context, usage, CommerceEnvelopeContextMismatch);
  }

  lemma CommerceAtRoot(r: Request, root: Mandate, c: Code)
    requires CommerceReturns(r) && forall d :: !CommerceFinding(r, d)
    requires Narrows(r.mandate, root) && (r.commerce.Some? ==> root.commerce.Some?)
    ensures CommerceReturns(AtRoot(r, root)) && !CommerceFinding(AtRoot(r, root), c)
  {
    hide CommerceViolation, CommerceDefined, Normalized, CommerceNarrower, RwaNarrower, Narrower, Subset,
         ConstrainedSubset;
    assert r.mandate.profile == root.profile;
    if CommerceApplies(r) {
      assert !CommerceFinding(r, CommerceContextRequired);
      var child, parent, context, usage := r.mandate.commerce.value, root.commerce.value, r.commerce.value,
        Normalized(r.usage);
      assert CommerceNarrower(child, parent);
      forall d
        ensures !CommerceViolation(child, r.envelope, context, usage, d)
      {
        assert !CommerceFinding(r, d);
      }
      CommerceTermsAtRoot(child, parent, r.envelope, AtRoot(r, root).envelope, context, usage, c);
    }
  }

  lemma QuotaAtRoot(child: RwaTerms, root: RwaTerms, context: RwaContext, usage: Usage, tracked: bool, c: Code)
    requires RwaNarrower(child, root) && QuotaDefined(child, context, usage, tracked)
    ensures QuotaDefined(root, context, usage, tracked)
    ensures QuotaViolation(root, context, usage, tracked, c) ==> QuotaViolation(child, context, usage, tracked, c)
  {
    hide IsDecimal, Value;
  }

  lemma ApprovalsAtRoot(child: RwaTerms, root: RwaTerms, context: RwaContext, usage: Usage, c: Code)
    requires RwaNarrower(child, root) && !usage.consumed
    ensures ApprovalViolation(root, context, usage, c) ==> ApprovalViolation(child, context, usage, c)
  {
    hide IsDecimal, Value;
  }

  lemma TargetAtRoot(child: RwaTerms, root: RwaTerms, e: Envelope, context: RwaContext, now: int, c: Code)
    requires RwaNarrower(child, root) && context.claimValidUntil.Ms?
    ensures TargetViolation(root, e, context, now, c) ==> TargetViolation(child, e, context, now, c)
  {
    hide IsDecimal, Value, RwaSubstituted;
  }

  lemma RwaTermsAtRoot(
      child: RwaTerms, root: RwaTerms, e: Envelope, context: RwaContext, usage: Usage, tracked: bool, now: int, c: Code)
    requires RwaNarrower(child, root) && RwaDefined(child, context, usage, tracked) && !usage.consumed
    ensures RwaDefined(root, context, usage, tracked)
    ensures RwaViolation(root, e, context, usage, tracked, now, c) ==>
              RwaViolation(child, e, context, usage, tracked, now, c)
  {
    hide RwaNarrower, QuotaDefined, SupplyDefined, QuotaViolation, SupplyViolation, ApprovalViolation, TargetViolation;
    TargetAtRoot(child, root, e, context, now, c);
    QuotaAtRoot(child, root, context, usage, tracked, c);
    ApprovalsAtRoot(child, root, context, usage, c);
  }

  lemma RwaAtRoot(r: Request, root: Mandate, c: Code)
    requires r.time.Ms? && RwaReturns(r) && (forall d :: !RwaFinding(r, d)) && !Normalized(r.usage).consumed
    requires Narrows(r.mandate, root) && (r.rwa.Some? ==> root.rwa.Some?)
    ensures RwaReturns(AtRoot(r, root)) && !RwaFinding(AtRoot(r, root), c)
  {
    hide RwaViolation, RwaDefined, Normalized, CommerceNarrower, RwaNarrower, Narrower, Subset, ConstrainedSubset;
    assert r.mandate.profile == root.profile;
    if RwaApplies(r) {
      assert !RwaFinding(r, RwaContextRequired);
      var child, parent, context, usage := r.mandate.rwa.value, root.rwa.value, r.rwa.value, Normalized(r.usage);
      assert RwaNarrower(child, parent);
      RwaTermsAtRoot(child, parent, r.envelope, context, usage, Tracked(r), r.time.t, c);
      assert !RwaFinding(r, c);
      SameRwaEnvelope(parent, r.envelope, AtRoot(r, root).envelope, context, usage, Tracked(r), r.time.t, c);
    }
  }

  /** The RWA terms do not look at whom the Envelope is addressed to. */
  lemma SameRwaEnvelope(
      terms: RwaTerms, e: Envelope, e': Envelope, context: RwaContext, usage: Usage, tracked: bool, now: int, c: Code)
    requires RwaDefined(terms, context, usage, tracked) && Readdressed(e, e')
    ensures RwaViolation(terms, e, context, usage, tracked, now, c) ==
            RwaViolation(terms, e', context, usage, tracked, now, c)
  {
    hide QuotaViolation, SupplyViolation, ApprovalViolation, IsDecimal;
  }

  /**
   Semantic non-amplification. A request that is allowed under the leaf of a chain of any length is
   allowed by the root, re-addressed to it, exactly when the root accepts its contexts and currency and
   the caller does not refuse to consume the root.
   */
  lemma NonAmplification(ms: seq<Mandate>, depths: seq<int>, r: Request)
    requires r.time.Ms? && Chain(ms, depths, r.time.t) && |depths| > 0 && OneProfile(ms)
    requires r.mandate == ms[|depths|] && Allowed(r)
    ensures Allowed(AtRoot(r, ms[0])) <==> RootAccepts(ms[0], r)
  {
    ChainNarrows(ms, depths, r.time.t);
    RootVerdict(r, ms[0]);
  }

  lemma NothingFound(r: Request)
    requires Allowed(r)
    ensures forall d :: !GrantFinding(r, d) && !SpendFinding(r, d) && !CommerceFinding(r, d) && !RwaFinding(r, d)
    ensures !Normalized(r.usage).consumed && r.time.Ms?
  {
    NotConsumed(r);
    hide GrantFinding, SpendFinding, CommerceFinding, RwaFinding, Normalized, Effective, Spendable;
    forall d
      ensures !GrantFinding(r, d) && !SpendFinding(r, d) && !CommerceFinding(r, d) && !RwaFinding(r, d)
    {
      assert !Violates(r, d);
    }
  }

  lemma NotConsumed(r: Request)
    requires Clean(r)
    ensures !Normalized(r.usage).consumed
  {
    hide GrantFinding, CommerceFinding, RwaFinding, Normalized, Effective, LimitViolation, Defined;
    assert !Violates(r, MandateAlreadyConsumed);
  }

  lemma RootVerdict(r: Request, root: Mandate)
    requires Allowed(r) && Narrows(r.mandate, root) && ActiveAt(root, r.time.t)
    ensures Allowed(AtRoot(r, root)) <==> RootAccepts(root, r)
  {
    hide Narrows, GrantFinding, SpendFinding, RwaFinding, CommerceFinding, Normalized, Effective, ContextMismatch;
    hide GrantDefined, ConsumptionDefined, CommerceReturns, RwaReturns, WrongCurrency, RefusesConsumption;
    NothingFound(r);
    var q := AtRoot(r, root);
    assert Readdressed(r.envelope, q.envelope);
    SpendAtRoot(r, root, ConsumptionContextMismatch);
    SpendAtRoot(r, root, BudgetCurrencyMismatch);
    SpendableAtRoot(r, root);
    if RootAccepts(root, r) {
      CleanAtRoot(r, root, MandateNotActive);
      forall c
        ensures !Violates(q, c)
      {
        CleanAtRoot(r, root, c);
      }
    } else if Defined(q) {
      if Truthy(root.parentMandate) {
        MissingParent(q);
      } else if !CarriesContexts(root, r) {
        MissingExtension(q);
      } else if RefusesConsumption(root, r) {
        assert Violates(q, ConsumptionContextMismatch);
      } else {
        assert Violates(q, BudgetCurrencyMismatch);
      }
    }
  }

  lemma CleanAtRoot(r: Request, root: Mandate, c: Code)
    requires Allowed(r) && Narrows(r.mandate, root) && ActiveAt(root, r.time.t)
    requires RootAccepts(root, r)
    ensures Defined(AtRoot(r, root)) && !Violates(AtRoot(r, root), c)
  {
    hide Narrows, GrantFinding, SpendFinding, RwaFinding, CommerceFinding, Normalized, Effective, ContextMismatch;
    hide GrantDefined, ConsumptionDefined, CommerceReturns, RwaReturns, WrongCurrency, RefusesConsumption, Spendable;
    NothingFound(r);
    GrantAtRoot(r, root, c);
    SpendAtRoot(r, root, c);
    CommerceAtRoot(r, root, c);
    RwaAtRoot(r, root, c);
  }

  lemma SpendableAtRoot(r: Request, root: Mandate)
    ensures Spendable(AtRoot(r, root)) == Spendable(r)
  {
    SameConsumption(r, root);
  }

  /** A delegated Mandate without its parent is always denied. */
  lemma MissingParent(r: Request)
    requires Defined(r) && r.parent.None? && Truthy(r.mandate.parentMandate)
    ensures !Allowed(r)
  {
    hide SpendFinding, RwaFinding, CommerceFinding;
    assert Violates(r, ParentMandateRequired) by { assert GrantFinding(r, ParentMandateRequired); }
  }

  /** A profile context without the matching extension is always denied. */
  lemma MissingExtension(r: Request)
    requires Defined(r) && !CarriesContexts(r.mandate, r)
    ensures !Allowed(r)
  {
    if r.commerce.Some? && r.mandate.commerce.None? {
      assert Violates(r, CommerceContextRequired) by { assert CommerceFinding(r, CommerceContextRequired); }
    } else {
      assert Violates(r, RwaContextRequired) by { assert RwaFinding(r, RwaContextRequired); }
    }
  }

  /******* Typed limits need no further guard *******/

  /** `currency` is not a decimal text and `one_time` is not a number. */
  predicate TypedLimits(m: Mandate) {
    !IsDecimalText(At(LimitsOf(m), "currency")) && !IsNumber(At(LimitsOf(m), "one_time"))
  }

  lemma OneTimeInherited(child: Mandate, root: Mandate)
    requires Narrows(child, root) && TypedLimits(root) && OneTime(root)
    ensures OneTime(child)
  {
    if TruthyEntry(At(LimitsOf(root), "one_time")) {
      NarrowsLimits(child, root);
      LimitEntry(child, root, "one_time");
      hide Narrows;
      var p, q := At(LimitsOf(child), "one_time").value, At(LimitsOf(root), "one_time").value;
      if IsDecimalText(Some(q)) {
        assert p.p.s != "";
      }
    } else {
      assert child.rwa.value.oneTime;
    }
  }

  lemma CurrencyInherited(child: Mandate, root: Mandate, usage: Usage, delta: Delta)
    requires Narrows(child, root) && TypedLimits(root) && WrongCurrency(root, usage, delta)
    requires ConsumptionDefined(child, usage, delta)
    ensures WrongCurrency(child, usage, delta)
  {
    NarrowsLimits(child, root);
    hide Narrows;
    TotalAtRoot(child, root, delta);
    LimitEntry(child, root, "currency");
    assert At(LimitsOf(child), "currency") == At(LimitsOf(root), "currency");
  }

  /** For a root with typed limits, every request its delegates are allowed is allowed by the root,
      as long as the root carries the extensions of the supplied contexts. */
  lemma TypedNonAmplification(ms: seq<Mandate>, depths: seq<int>, r: Request)
    requires r.time.Ms? && Chain(ms, depths, r.time.t) && |depths| > 0 && OneProfile(ms)
    requires !Truthy(ms[0].parentMandate) && TypedLimits(ms[0])
    requires r.mandate == ms[|depths|] && Allowed(r)
    ensures Allowed(AtRoot(r, ms[0])) <==> CarriesContexts(ms[0], r)
  {
    NonAmplification(ms, depths, r);
    ChainNarrows(ms, depths, r.time.t);
    NothingFound(r);
    NoRefusal(r, ms[0]);
    NoWrongCurrency(r, ms[0]);
    hide Allowed, Chain, Narrows, WrongCurrency, RefusesConsumption, Normalized, Effective;
  }

  lemma NoRefusal(r: Request, root: Mandate)
    requires Allowed(r) && Narrows(r.mandate, root) && TypedLimits(root)
    ensures !RefusesConsumption(root, r)
  {
    NothingFound(r);
    hide Narrows, Allowed, OneTime, TypedLimits;
    assert !SpendFinding(r, ConsumptionContextMismatch);
    if OneTime(root) {
      OneTimeInherited(r.mandate, root);
    }
  }

  lemma NoWrongCurrency(r: Request, root: Mandate)
    requires Allowed(r) && Narrows(r.mandate, root) && TypedLimits(root)
    ensures !WrongCurrency(root, Normalized(r.usage), Effective(r))
  {
    var usage, delta := Normalized(r.usage), Effective(r);
    NothingFound(r);
    CurrencyCode(r.mandate, usage, delta);
    assert !SpendFinding(r, BudgetCurrencyMismatch);
    hide Narrows, WrongCurrency, TypedLimits, Normalized, Effective;
    if WrongCurrency(root, usage, delta) {
      CurrencyInherited(r.mandate, root, usage, delta);
    }
  }

  /******* The guards are needed *******/

  /** A Mandate with the given limits; with a parent it is delegated from Mandate "root". */
  function Plain(id: string, parent: Option<string>, limits: Fields, profile: Option<string>): Mandate {
    Mandate(id, "agent", parent, "p", ["x"], None, None, None, Some(limits), None,
            if parent.None? then Some(Delegation(true, 1)) else None,
            Ms(0), Ms(2), Active, profile, None, None)
  }

  function PlainRequest(child: Mandate, root: Mandate, supplied: Consumption): Request {
    Request(Ms(1), child, Some(root), None,
            Envelope("tx", child.id, "agent", "x", "r", Some("p"), None, None, None, None, None),
            EMPTY_USAGE, Some(supplied), None, None)
  }

  lemma PlainLink(child: Fields, root: Fields, profile: Option<string>)
    requires NarrowerFields(child, root) && !Truthy(profile)
    ensures Link(Plain("child", Some("root"), child, profile), Plain("root", None, root, None), 1, 1)
  {
    hide NarrowerFields;
  }

  /** A child that differs from its parent in limits and terms alone is granted every such request. */
  lemma PlainGrant(r: Request, root: Mandate)
    requires r.parent == Some(root) && Link(r.mandate, root, 1, 1) && r.depth.None? && r.time == Ms(1)
    requires r.mandate.id == "child" && r.mandate.subject == "agent" && r.mandate.purpose == "p"
    requires r.mandate.actions == ["x"] && r.mandate.resources.None? && r.mandate.counterparties.None?
    requires r.mandate.destinations.None? && r.mandate.status == Active
    requires r.mandate.notBefore == Ms(0) && r.mandate.expiresAt == Ms(2)
    requires r.envelope == Envelope("tx", "child", "agent", "x", "r", Some("p"), None, None, None, None, None)
    ensures GrantDefined(r) && forall c :: !GrantFinding(r, c)
  {
    hide ChildDefined, ChildViolation;
  }

  lemma PlainAllowed(child: Fields, root: Fields, profile: Option<string>, supplied: Consumption)
    requires NarrowerFields(child, root) && !Truthy(profile)
    requires var m := Plain("child", Some("root"), child, profile);
             var r := PlainRequest(m, Plain("root", None, root, None), supplied);
             && ConsumptionDefined(m, Normalized(EMPTY_USAGE), Effective(r)) && Spendable(r)
             && forall c :: !SpendFinding(r, c)
    ensures Allowed(PlainRequest(Plain("child", Some("root"), child, profile), Plain("root", None, root, None),
                                 supplied))
  {
    var m, p := Plain("child", Some("root"), child, profile), Plain("root", None, root, None);
    PlainLink(child, root, profile);
    hide NarrowerFields, SpendFinding, Spendable, ConsumptionDefined, Effective, Normalized, GrantFinding, GrantDefined;
    hide Link;
    PlainGrant(PlainRequest(m, p, supplied), p);
  }

  /** Two units under a quantity limit of one. */
  function TwoUnits(profile: Option<string>): (Mandate, Request) {
    var limits := map["max_quantity" := Primitive(Number(1))];
    var root := Plain("root", None, limits, None);
    (root, PlainRequest(Plain("child", Some("root"), limits, profile), root, NO_CONSUMPTION.(quantity := Some("2"))))
  }

  lemma TwoUnitsAllowed()
    ensures Allowed(TwoUnits(Some("")).1)
  {
    IntegerMeaning(0);
    IntegerMeaning(2);
    PlainAllowed(map["max_quantity" := Primitive(Number(1))], map["max_quantity" := Primitive(Number(1))], Some(""),
                 NO_CONSUMPTION.(quantity := Some("2")));
  }

  lemma TwoUnitsDenied(r: Request)
    requires r == AtRoot(TwoUnits(Some("")).1, TwoUnits(Some("")).0)
    ensures !Allowed(r)
  {
    IntegerMeaning(0);
    IntegerMeaning(1);
    IntegerMeaning(2);
    if Defined(r) {
      hide GrantFinding, CommerceFinding, RwaFinding;
      assert LimitViolation(r.mandate, Normalized(r.usage), Effective(r), QuantityLimitExceeded);
      assert Violates(r, QuantityLimitExceeded);
    }
  }

  /** An empty profile, which the schema rules out, is treated as no profile by the delegation check
      but as a profile by the quantity limit: the delegate escapes the root's quantity limit. */
  lemma EmptyProfileEscapesLimit()
    ensures var (root, r) := TwoUnits(Some(""));
            Chain([root, r.mandate], [1], 1) && Allowed(r) && !Allowed(AtRoot(r, root))
  {
    var limits := map["max_quantity" := Primitive(Number(1))];
    PlainLink(limits, limits, Some(""));
    TwoUnitsAllowed();
    TwoUnitsDenied(AtRoot(TwoUnits(Some("")).1, TwoUnits(Some("")).0));
    hide Link, Allowed;
  }

  /** What the root refuses of an allowed request of its delegate. */
  lemma DeniedAtRoot(root: Mandate, r: Request)
    requires Link(r.mandate, root, 1, 1) && r.mandate.profile == root.profile && r.time == Ms(1) && Allowed(r)
    requires !RootAccepts(root, r)
    ensures Chain([root, r.mandate], [1], 1) && Allowed(r) && !Allowed(AtRoot(r, root))
  {
    hide Link, Allowed, RootAccepts;
    NonAmplification([root, r.mandate], [1], r);
  }

  /** Limits with a numeric one-time flag. */
  function OneTimeAs(n: int): Fields {
    map["one_time" := Primitive(Number(n))]
  }

  const DECLINE: Consumption := NO_CONSUMPTION.(consume := Some(false))

  lemma DeclinedSpend()
    ensures var m := Plain("child", Some("root"), OneTimeAs(0), None);
            var r := PlainRequest(m, Plain("root", None, OneTimeAs(1), None), DECLINE);
            && ConsumptionDefined(m, Normalized(EMPTY_USAGE), Effective(r)) && Spendable(r)
            && forall c :: !SpendFinding(r, c)
  {
    IntegerMeaning(0);
  }

  lemma OneTimeRefuses()
    ensures var root := Plain("root", None, OneTimeAs(1), None);
            var child := Plain("child", Some("root"), OneTimeAs(0), None);
            !RootAccepts(root, PlainRequest(child, root, DECLINE))
  {
    hide WrongCurrency;
  }

  /** A numeric `one_time` may be lowered from one to zero: the delegate is then allowed, again and
      again, a request that declines consumption, which the root denies. */
  lemma NumericOneTimeIsLost()
    ensures var root := Plain("root", None, OneTimeAs(1), None);
            var child := Plain("child", Some("root"), OneTimeAs(0), None);
            var r := PlainRequest(child, root, DECLINE);
            Chain([root, child], [1], 1) && Allowed(r) && !Allowed(AtRoot(r, root))
  {
    var root, child := Plain("root", None, OneTimeAs(1), None), Plain("child", Some("root"), OneTimeAs(0), None);
    assert NarrowerFields(OneTimeAs(0), OneTimeAs(1));
    OneTimeRefuses();
    DeclinedSpend();
    hide Link, Allowed, NarrowerFields, RootAccepts, OneTimeAs;
    PlainLink(OneTimeAs(0), OneTimeAs(1), None);
    PlainAllowed(OneTimeAs(0), OneTimeAs(1), None, DECLINE);
    DeniedAtRoot(root, PlainRequest(child, root, DECLINE));
  }

  /** Limits of nine in currency `c`. */
  function NineIn(c: string): Fields {
    map["max_total" := Primitive(Text("9")), "currency" := Primitive(Text(c))]
  }

  lemma NineNarrows()
    ensures NarrowerFields(NineIn("1"), NineIn("2"))
  {
    IntegerMeaning(1);
    IntegerMeaning(2);
    IntegerMeaning(9);
    NarrowerDecimal("1", "2");
    NarrowerDecimal("9", "9");
  }

  const SPEND_THREE: Consumption := NO_CONSUMPTION.(amount := Some("3"), currency := Some("1"))

  lemma ThreeIsWithinNine()
    ensures var m := Plain("child", Some("root"), NineIn("1"), None);
            var r := PlainRequest(m, Plain("root", None, NineIn("2"), None), SPEND_THREE);
            && ConsumptionDefined(m, Normalized(EMPTY_USAGE), Effective(r)) && Spendable(r)
            && forall c :: !SpendFinding(r, c)
  {
    IntegerMeaning(0);
    IntegerMeaning(3);
    IntegerMeaning(9);
  }

  lemma NineRefuses()
    ensures var root, child := Plain("root", None, NineIn("2"), None), Plain("child", Some("root"), NineIn("1"), None);
            !RootAccepts(root, PlainRequest(child, root, SPEND_THREE))
  {
    var root, child := Plain("root", None, NineIn("2"), None), Plain("child", Some("root"), NineIn("1"), None);
    var r := PlainRequest(child, root, SPEND_THREE);
    assert WrongCurrency(root, Normalized(r.usage), Effective(r));
    hide WrongCurrency;
  }

  /** A currency written as a decimal may be lowered: the delegate is then allowed to spend in a
      currency the root refuses. */
  lemma DecimalCurrencyIsChanged()
    ensures var root, child := Plain("root", None, NineIn("2"), None), Plain("child", Some("root"), NineIn("1"), None);
            var r := PlainRequest(child, root, SPEND_THREE);
            Chain([root, child], [1], 1) && Allowed(r) && !Allowed(AtRoot(r, root))
  {
    var root, child := Plain("root", None, NineIn("2"), None), Plain("child", Some("root"), NineIn("1"), None);
    NineNarrows();
    NineRefuses();
    ThreeIsWithinNine();
    hide Link, Allowed, NarrowerFields, RootAccepts, NineIn;
    PlainLink(NineIn("1"), NineIn("2"), None);
    PlainAllowed(NineIn("1"), NineIn("2"), None, SPEND_THREE);
    DeniedAtRoot(root, PlainRequest(child, root, SPEND_THREE));
  }

  /** A delegate with Commerce terms of its own, and a purchase under them. */
  function Shopper(): Request {
    var root := Plain("root", None, map[], None);
    PlainRequest(Plain("child", Some("root"), map[], None).(commerce := Some(Runs.SALE)), root, NO_CONSUMPTION)
    .(commerce := Runs.Sale().commerce)
  }

  lemma ShopperLink()
    ensures Link(Shopper().mandate, Plain("root", None, map[], None), 1, 1)
  {
    hide CommerceNarrower, RwaNarrower;
  }

  lemma ShopperSpends()
    ensures var r := Shopper();
            && ConsumptionDefined(r.mandate, Normalized(r.usage), Effective(r)) && Spendable(r)
            && forall c :: !SpendFinding(r, c)
  {
    IntegerMeaning(0);
    IntegerMeaning(2);
    IntegerMeaning(6);
  }

  lemma ShopperIsAllowed()
    ensures Allowed(Shopper())
  {
    var r := Shopper();
    ShopperLink();
    ShopperSpends();
    PlainGrant(r, Plain("root", None, map[], None));
    Runs.SaleTerms(r.commerce.value, Normalized(r.usage));
    hide CommerceViolation, CommerceDefined, SpendFinding, Spendable, ConsumptionDefined, Effective, GrantFinding,
         GrantDefined;
  }

  /** A delegate may add Commerce terms its root does not have, and buy under them; the root then
      denies the purchase for want of terms. */
  lemma AddedTermsAreRefused()
    ensures var root, r := Plain("root", None, map[], None), Shopper();
            Chain([root, r.mandate], [1], 1) && Allowed(r) && !Allowed(AtRoot(r, root))
  {
    ShopperLink();
    ShopperIsAllowed();
    hide Link, Allowed;
    DeniedAtRoot(Plain("root", None, map[], None), Shopper());
  }
}
