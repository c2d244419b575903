# OATI authority core

A Dafny model of the part of OATI on which its promises rest: the deterministic authority
evaluator, the middleware protocol around it, trust verification and the replay cache, canonical
JSON, and the field and curve arithmetic of the Ed25519 code.

| module | what it covers |
|---|---|
| Authority, Evaluator | what it means for a request to be inside a Mandate, and the imperative evaluator proved against it |
| Answers | the evaluator's answer in request fields alone: every code, every throw, the proposed usage |
| Delegation | chains of Mandates: non-amplification and depth |
| Runs | usage over whole sequences of allowed requests |
| Middleware | any number of requests as interleaved atomic steps, and the sequential pipeline as a class |
| Trust, Replay | document verification, the issuer walk, revocation, the evicting nonce cache |
| Acceptance | which documents are accepted and which codes reported, in the fields of document, key, issuers and policy |
| Limits, Decimals | nested limit objects and decimal strings |
| KeyOrder, CanonicalJson | UTF-16 key order and the canonical writer with a parser that inverts it |
| Modular, Edwards | modular exponentiation, inversion, and twisted Edwards addition in affine and extended form |
| EdwardsGroup, Keys | the group law, scalar multiples, and the decoding and checking of public keys |
| Primality, Ed25519 | certificates of primality and the constants of Ed25519 |

An exception in the source is the outcome `Threw`, which is never "allow". Times are integers or
`Unparseable`; clocks, the resolver and the contents of signed documents are parameters. A signature
check is the question whether a document's abstract `signedWith` set holds the key material. The usage
store is assumed to compare and set atomically by value, and an absent record loads as the empty
snapshot. Arithmetic is on unbounded integers.

Some promises hold only under guards, and each guard has a lemma with a concrete input beside it:

- Non-amplification needs one profile along the chain (`Delegation.EmptyProfileEscapesLimit`), a
  `one_time` limit that is not a number (`Delegation.NumericOneTimeIsLost`), a `currency` limit that is
  not a decimal text (`Delegation.DecimalCurrencyIsChanged`), and a root that carries the extensions of
  the supplied contexts (`Delegation.AddedTermsAreRefused`). The published schemas exclude the first,
  since a profile is a URI, and the third, since the currency of a consumption is three capital letters;
  they admit the second and the fourth.
- The bound on the length of a chain needs a depth of at least one per link
  (`Delegation.ZeroDepthIsUnbounded`).
- A nonce is kept until the proof expires while the proof is accepted until its expiry plus skew, so a
  document can verify a second time inside that gap and only there (`Trust.SecondPresentation`,
  `Trust.GapAdmitsSecond`).
- Without a usage store a one-time Mandate is refused, except when its flag stands in an RWA extension
  and it has neither profile nor limits (`Middleware.OneTimeWithoutStore`, `Middleware.StorelessIsServed`).
- Both SDKs test for a zero x with its sign bit set after adjusting the sign, when x can no longer be
  zero; such encodings are refused as points of small order instead (`Keys.ZeroIsSmall`).

## Model

| member | source | states |
|---|---|---|
| Evaluator.EvaluateAuthority | sdk/typescript/src/evaluator.ts:73-108 | The step-by-step evaluation throws, denies with exactly the applicable reason codes and unchanged usage, or allows with the next usage, as the declarative definitions of module Authority say |
| Authority.AllowsExactlyAllowed | sdk/typescript/src/evaluator.ts:99-107 | An evaluation allows exactly the requests to which no reason code applies and whose accounting cannot throw; only then does usage change |
| Authority.NextReturns | sdk/typescript/src/evaluator.ts:222-233 | For a request without findings, accounting returns exactly when all four amounts it adds are decimals |
| Answers.AnswerMeans | sdk/typescript/src/evaluator.ts:73-108 | The answer in request fields alone: evaluation throws exactly when something it reads is unreadable, or nothing is wrong and an amount cannot be added; otherwise each reason code is reported exactly when its condition on the fields holds |
| Answers.CoreMeans | sdk/typescript/src/evaluator.ts:78-90 | The condition of each Mandate and Envelope code, in their fields |
| Answers.ChildMeans | sdk/typescript/src/evaluator.ts:110-142 | The condition of each parent code, in the fields of child and parent, narrowing of limits being that everything the child admits the parent admits |
| Answers.SpendMeans | sdk/typescript/src/evaluator.ts:144-156 | The condition of each consumption code, in the fields of Mandate, usage and request |
| Answers.CommerceMeans | sdk/typescript/src/evaluator.ts:158-180 | The condition of each Commerce code, in the fields of terms, purchase, usage and Envelope |
| Answers.RwaMeans | sdk/typescript/src/evaluator.ts:182-198 | The condition of each RWA code, in the fields of terms, operation, usage and Envelope |
| Answers.DefinedMeans | sdk/typescript/src/evaluator.ts:239-262 | Which times, decimals and delegations must be readable for every check to be carried out |
| Answers.AllowedFits | sdk/typescript/src/evaluator.ts:78-90 | An allowed request names the Mandate and its subject, in time, for an action, purpose, resource, counterparty, destination and profile it permits |
| Answers.AllowedChild | sdk/typescript/src/evaluator.ts:110-142 | An allowed request under a parent has a Mandate inside the parent in window, depth, sets, purpose, limits, data use and terms |
| Answers.AllowedPurchase | sdk/typescript/src/evaluator.ts:158-180 | An allowed purchase is of the named merchant, service, offer and terms, priced exactly within unit price, quantity and budget, under an unused key, and is the one the Envelope signs |
| Answers.AllowedOperation | sdk/typescript/src/evaluator.ts:182-198 | An allowed operation has the named target, an unexpired claim, quantity, reserve and supply within bounds, the approvals and roles required, and is the one the Envelope signs |
| Answers.PlainAnswer | sdk/typescript/src/evaluator.ts:73-108 | A Mandate without parent, limits, profile and extensions allows exactly the requests that fit it, come without a profile context, find it unconsumed and their key unused, and can be accounted for |
| Answers.NextUsageMeans | sdk/typescript/src/evaluator.ts:200-233 | The usage an allowed request proposes, field by field, with its defaults, exact sums and stored keys |
| Answers.DeniedUsageMeans | sdk/typescript/src/evaluator.ts:106 | A denial proposes the given usage with defaults filled in |
| Evaluator.CheckStanding | sdk/typescript/src/evaluator.ts:78-80 | Throws exactly on an unparseable time; otherwise adds exactly the status and window codes that apply |
| Evaluator.CheckGrant | sdk/typescript/src/evaluator.ts:75-90 | All Mandate, Envelope and parent findings together: status, window, reference, subject, action, purpose, set constraints, profile and delegation; exactly which codes, and when it throws |
| Evaluator.CheckChildMandate | sdk/typescript/src/evaluator.ts:110-127 | Throws exactly when a time or decimal is unusable or a delegating child meets a parent without delegation; otherwise adds exactly the set, purpose, window, limit, data-use, depth and profile amplification codes that apply |
| Evaluator.CheckParent | sdk/typescript/src/evaluator.ts:111-113 | Parent reference, activity window and permitted depth, with the short-circuit of the activity test deciding which unparseable times throw |
| Evaluator.CheckSpan | sdk/typescript/src/evaluator.ts:119-125 | Exactly the codes for a window or a remaining depth outside the parent |
| Evaluator.CheckProfileSubset | sdk/typescript/src/evaluator.ts:129-142 | A differing profile ends the check; otherwise Commerce and RWA terms are compared by value, throwing exactly when a decimal that must be read is malformed |
| Evaluator.CommerceIsNarrower | sdk/typescript/src/evaluator.ts:132-134 | The short-circuited comparison decides exactly the narrowing of Commerce terms |
| Evaluator.RwaIsNarrower | sdk/typescript/src/evaluator.ts:137-140 | The short-circuited comparison decides exactly the narrowing of RWA terms |
| Evaluator.DecimalAtMost | sdk/typescript/src/evaluator.ts:246 | At most by denoted number; throws exactly on a non-decimal |
| Evaluator.CheckConsumption | sdk/typescript/src/evaluator.ts:94-95 | Context mismatch, consumed, replayed key, call, quantity and budget findings together, and when they throw |
| Evaluator.CheckLimits | sdk/typescript/src/evaluator.ts:149-155 | Exactly the codes for cumulative quantity, currency and amount, by denoted number |
| Evaluator.CheckCommerce | sdk/typescript/src/evaluator.ts:158-180 | Exactly the Commerce codes that apply; an Envelope mismatch is reported only when no other Commerce code is |
| Evaluator.TotalDiffers | sdk/typescript/src/evaluator.ts:172 | Whether the quoted total is not exactly unit price times quantity; a negative quantity throws unless the price is zero |
| Evaluator.CheckPrice | sdk/typescript/src/evaluator.ts:171-174 | Exactly the unit price, total and quantity codes; throws exactly on a non-decimal or a negative count |
| Evaluator.CheckPurse | sdk/typescript/src/evaluator.ts:170-176 | Exactly the currency and cumulative budget codes |
| Evaluator.CheckPurchase | sdk/typescript/src/evaluator.ts:167-176 | Merchant, service, offer, terms, price and budget findings on a purchase together, and when they throw |
| Evaluator.CheckRwa | sdk/typescript/src/evaluator.ts:182-198 | Exactly the RWA codes that apply, and when the check throws |
| Evaluator.CheckTarget | sdk/typescript/src/evaluator.ts:186-189 | Exactly the target, Envelope and claim-expiry codes |
| Evaluator.CheckQuota | sdk/typescript/src/evaluator.ts:190-194 | Exactly the cumulative quantity and tracked-supply codes, by denoted number |
| Evaluator.CheckSupply | sdk/typescript/src/evaluator.ts:191-193 | Exactly the reserve and maximum-supply codes for the resulting supply |
| Evaluator.CheckApprovals | sdk/typescript/src/evaluator.ts:195-197 | The loop over required roles finds exactly whether one is missing, beside the approval threshold and one-time codes |
| Evaluator.CheckProfiles | sdk/typescript/src/evaluator.ts:96-97 | Profile checks run exactly when a context is supplied or the profile demands it |
| Limits.NarrowerReflexive | sdk/typescript/src/evaluator.ts:248-259 | Every limit object, however nested, narrows itself |
| Limits.NarrowerTransitive | sdk/typescript/src/evaluator.ts:248-259 | Narrowing composes on arbitrarily nested limit objects |
| Limits.MutualNarrowing | sdk/typescript/src/evaluator.ts:251-258 | Two values narrow each other if and only if they have the same keys and equal values, up to decimal value and array-as-set |
| Limits.EntryMeaning | sdk/typescript/src/evaluator.ts:251-258 | One limit narrows another exactly when every use it admits is admitted by the other, at every depth |
| Limits.NarrowerMeaning | sdk/typescript/src/evaluator.ts:248-259 | Limits narrow others exactly when everything they admit, absent limits admitting everything, is admitted by the others |
| Limits.ListMeaning | sdk/typescript/src/evaluator.ts:255 | Lists narrow exactly as their sets of members are included |
| Decimals.FormatParse | sdk/typescript/src/evaluator.ts:262-267 | Formatting a parsed decimal restores the string exactly |
| Decimals.ParseFormat | sdk/typescript/src/evaluator.ts:262-267 | Every formatted coefficient is a decimal and parses back to that coefficient and scale |
| Decimals.CompareMeaning | sdk/typescript/src/evaluator.ts:263-264 | Comparison throws exactly on a non-decimal and otherwise orders the denoted real numbers |
| Decimals.AddMeaning | sdk/typescript/src/evaluator.ts:265 | Addition throws exactly on a non-decimal and otherwise denotes the exact sum |
| Decimals.MultiplyMeaning | sdk/typescript/src/evaluator.ts:266 | Multiplication denotes the exact product |
| Decimals.MultiplyNegative | sdk/typescript/src/evaluator.ts:266 | Multiplication by a negative integer prints a decimal only for the value zero |
| Decimals.AddCommutes | sdk/typescript/src/evaluator.ts:265 | Addition commutes as strings, throws included |
| Decimals.AddAssociates | sdk/typescript/src/evaluator.ts:265 | Addition associates as strings |
| Decimals.ComparatorsAgree | sdk/typescript/src/index.ts:356-368 | The digit-string comparator and the big-integer comparator return the same sign on every pair of decimals and fail on the same strings |
| Decimals.MultiplicationsAgree | sdk/typescript/src/index.ts:370-377 | Both multiplications return the same string for every non-negative safe integer, and both reject every non-decimal |
| Decimals.IntegerMeaning | sdk/typescript/src/evaluator.ts:174 | A printed integer is a decimal exactly when it is not negative, and then denotes itself |
| Decimals.DecimalSyntax | sdk/typescript/src/evaluator.ts:268 | A string is a decimal exactly when it is a digit string without leading zeros, with or without a dot and further digits |
| Decimals.WholeMeaning | sdk/typescript/src/evaluator.ts:262 | A digit denotes itself, and a digit after a whole number counts tenfold the rest plus itself |
| Decimals.FractionMeaning | sdk/typescript/src/evaluator.ts:262 | A further digit after the dot adds itself in its place |
| Delegation.ChainNarrows | sdk/typescript/src/evaluator.ts:110-142 | In a chain of any length whose links all pass and whose Mandates carry one profile, the leaf narrows the root in every respect and the root is active |
| Delegation.NonAmplification | README.md:40 | A request allowed under the leaf of any passing chain with one profile, re-addressed to the root, is allowed by the root if and only if the root has no parent of its own, carries the matching extensions, its budget currency is the one spent, and the caller did not decline a consumption the root insists on |
| Delegation.TypedNonAmplification | sdk/typescript/src/evaluator.ts:110-220 | When the root's `currency` limit is not a decimal text and its `one_time` limit is not a number, the only remaining guard is that the root carries the extensions of the supplied contexts |
| Delegation.NamedProfilesAgree | sdk/typescript/src/evaluator.ts:130 | In a passing chain whose profiles are absent or not empty, all Mandates carry the same profile |
| Delegation.MissingExtension | sdk/typescript/src/evaluator.ts:158-184 | A profile context without the matching extension is always denied |
| Delegation.DepthIsSpent | sdk/typescript/src/evaluator.ts:113-125 | The depths used along a passing chain add up to at most the root's `max_depth` |
| Delegation.ChainIsBounded | sdk/typescript/src/evaluator.ts:89-125 | With a depth of at least one per link, a passing chain has at most the root's `max_depth` links |
| Delegation.ZeroDepthIsUnbounded | sdk/typescript/src/evaluator.ts:122-125 | With a depth of zero per link, chains of every length pass |
| Delegation.EmptyProfileEscapesLimit | sdk/typescript/src/evaluator.ts:130-150 | An empty profile beside an absent one passes the delegation check yet switches off the generic quantity limit: a concrete chain and request that the leaf allows and the root denies |
| Delegation.NumericOneTimeIsLost | sdk/typescript/src/evaluator.ts:253 | A numeric `one_time` lowered from one to zero: a concrete chain and request that the leaf allows and the root denies |
| Delegation.DecimalCurrencyIsChanged | sdk/typescript/src/evaluator.ts:254 | A currency written as a decimal and lowered: a concrete chain and request that the leaf allows and the root denies |
| Delegation.AddedTermsAreRefused | sdk/typescript/src/evaluator.ts:131-160 | Commerce terms added by a delegate whose root has none: a concrete chain and purchase that the leaf allows and the root denies |
| Runs.Step | sdk/typescript/src/evaluator.ts:222-235 | What one allowed request does to calls, consumption flag and keys, and that the stored snapshot reads back as the computed usage |
| Runs.SpentIsDenied | sdk/typescript/src/evaluator.ts:144-148 | Nothing is allowed on consumed usage, with a stored key, or beyond the call limit |
| Runs.ConsumingIsLast | sdk/typescript/src/evaluator.ts:144-233 | In every allowed run, a request that consumes the Mandate is the last one |
| Runs.KeysAreUsedOnce | sdk/typescript/src/evaluator.ts:146-229 | In every allowed run, no non-empty idempotency key appears twice |
| Runs.CallsAreCounted | sdk/typescript/src/evaluator.ts:203-224 | After every allowed run the calls are the starting calls plus the exact sum |
| Runs.RunIsWithinCalls | sdk/typescript/src/evaluator.ts:148 | With at least one call per request, an allowed run is no longer than the calls that were left |
| Runs.PurchaseTerms | sdk/typescript/src/evaluator.ts:170-173 | An allowed purchase is priced at exactly unit price times quantity, within the remaining budget, in the Mandate's currency |
| Runs.CommerceBudget | sdk/typescript/src/evaluator.ts:158-233 | Over every allowed run the recorded amount is the starting amount plus the exact sum of unit price times quantity, at most `max_total`, in the Mandate's currency (an empty currency leaves the recorded one) |
| Runs.SupplyConservation | sdk/typescript/src/evaluator.ts:182-233 | Over every allowed RWA run from a tracked supply, minted supply minus cumulative quantity is constant, quantity stays within `max_quantity`, and the new supply within that request's reserve and maximum |
| Runs.SaleIsAllowed | sdk/typescript/src/evaluator.ts:158-180 | A concrete priced purchase is an allowed Commerce run |
| Runs.MintIsAllowed | sdk/typescript/src/evaluator.ts:182-198 | A concrete mint on a tracked supply is an allowed RWA run |
| Runs.AccountIgnoresOrder | sdk/typescript/src/evaluator.ts:222-233 | Accounting for the same purchases in any order gives the identical usage |
| Runs.OrderDoesNotMatter | sdk/typescript/src/evaluator.ts:222-268 | Two fully allowed orderings of the same requests on a Commerce Mandate end in the identical usage snapshot |
| Middleware.Serialisable | sdk/typescript/src/middleware.ts:133-154 | After every interleaving of any number of requests, every stored record is the sequential fold of its committed requests in commit order, each allowed at its place, and every request in flight remembers the record as it was at its load |
| Middleware.StepKeeps | sdk/typescript/src/middleware.ts:106-158 | Every atomic step of the pipeline keeps that invariant |
| Middleware.ConflictMeansCommit | sdk/typescript/src/middleware.ts:151-154 | A usage conflict arises only if another request committed on the same Mandate between this one's load and its compare-and-set |
| Middleware.CommitsExclude | sdk/typescript/src/middleware.ts:148-154 | Nothing commits on a Mandate after a commit that consumes it, and no key commits twice |
| Middleware.OneTimeServedOnce | sdk/typescript/src/middleware.ts:148-158 | In every interleaving a one-time Mandate reaches the handler at most once |
| Middleware.KeysCommitOnce | sdk/typescript/src/middleware.ts:148-154 | In every interleaving no non-empty idempotency key commits twice on a Mandate |
| Middleware.HandledWithinCalls | sdk/typescript/src/middleware.ts:148-158 | In every interleaving, handler invocations never exceed `max_calls` minus the starting calls when each request consumes at least one call |
| Middleware.InterleavedBudget | sdk/typescript/src/middleware.ts:133-154 | In every interleaving a Commerce record holds exactly what was committed and stays within `max_total` |
| Middleware.InterleavedSupply | sdk/typescript/src/middleware.ts:133-154 | In every interleaving from a tracked supply, minted supply minus cumulative quantity is constant and quantity within `max_quantity` |
| Middleware.NonceConsumedOnce | sdk/typescript/src/middleware.ts:117-119 | In every interleaving with an advancing clock, an Envelope nonce is consumed again only at or after the expiry it was stored with |
| Middleware.CacheIsSwept | sdk/typescript/src/middleware.ts:117-119 | The shared replay cache is what the presented nonces alone leave behind: failed verifications do not touch it |
| Middleware.OnlyGenuineGoOn | sdk/typescript/src/middleware.ts:106-129 | In every interleaving, a request that has passed authentication had, at some earlier step, an accepted Mandate, parent and Envelope document, a nonce not running in the cache, and a matching digest |
| Middleware.AuthenticationMeans | sdk/typescript/src/middleware.ts:106-129 | Which of unauthentic, replayed, digest mismatch and authentic a request becomes, and that only a new nonce is stored |
| Middleware.PipelineMeans | sdk/typescript/src/middleware.ts:106-162 | A request is served exactly when it is genuine and the evaluation on the stored record allows it; then, and only then, the record becomes the next usage |
| Middleware.OneTimeWithoutStore | sdk/typescript/src/middleware.ts:282 | Without a usage store, an allowed one-time Mandate is served if and only if it has neither profile nor limits and carries its flag in an RWA extension |
| Middleware.StorelessIsServed | sdk/typescript/src/middleware.ts:134-158 | Such a Mandate exists and is served on empty usage, so every presentation is served |
| Middleware.Gateway.VerifyReusable | sdk/typescript/src/middleware.ts:279-281 | Mandate and parent documents verify exactly when they have no issue, replay aside |
| Middleware.Gateway.AuthenticateRequest | sdk/typescript/src/middleware.ts:106-129 | Verification of all documents, consumption of the nonce and the digest comparison are the first atomic step of the protocol |
| Middleware.Gateway.Handle | sdk/typescript/src/middleware.ts:106-162 | The whole pipeline with its early returns, the usage store replaced only when it still holds the loaded snapshot, is exactly the five atomic steps in order, and alone it never ends in a conflict |
| Trust.VerifyDocument | sdk/typescript/src/crypto.ts:158-206 | The issues are exactly the findings; a document with any other finding leaves the replay cache untouched, and an accepted one is stored under its key, audience and nonce until its expiry |
| Trust.CheckRevocation | sdk/typescript/src/crypto.ts:348-358 | The loop adds exactly the findings of its non-empty targets, coded by position |
| Trust.ValidateTrustChain | sdk/typescript/src/crypto.ts:325-346 | The loop with its visited set returns the same anchor and reports the same issues as the walk that remembers nothing |
| Trust.WalkIsReachability | sdk/typescript/src/crypto.ts:328-343 | An anchor is returned if and only if the parent walk meets one within the permitted links through issuers that are resolved, verified, active and in window |
| Trust.DepthOfAllIssuersSuffices | sdk/typescript/src/crypto.ts:328-343 | With a depth of at least the number of issuers, the bounded walk returns what a walk of any length returns |
| Trust.ClosedNeverReaches | sdk/typescript/src/crypto.ts:329-330 | From a set of issuers that contains all its parents and no anchor, no anchor is reached at any depth |
| Trust.AcceptanceWindow | sdk/typescript/src/crypto.ts:300-358 | The times at which a fixed document is accepted form an interval no wider than the maximum proof age plus twice the skew |
| Trust.RejectionIsPermanent | sdk/typescript/src/crypto.ts:158-199 | An accepted document that is later rejected stays rejected |
| Acceptance.AcceptsMeans | sdk/typescript/src/crypto.ts:158-199 | A document is accepted, replay aside, exactly when the stated conditions on the fields of proof, document, key, issuers, revocations and policy hold and its signature verifies |
| Acceptance.FindingCodes | sdk/typescript/src/crypto.ts:158-199 | Each verification code is reported exactly when its condition on those fields holds |
| Acceptance.ListCodes | sdk/typescript/src/crypto.ts:348-358 | Revocation is reported exactly for targets on file as not good from now or earlier, under the code of their position, and unavailability for unanswered ones |
| Acceptance.WalkCodes | sdk/typescript/src/crypto.ts:325-346 | The walk reports a code exactly when some issuer reached within the bound calls for it |
| Acceptance.WalkMeans | sdk/typescript/src/crypto.ts:325-346 | The walk returns an anchor exactly when a path of issuers on file, in standing and naming each the next ends at it within the bound |
| Acceptance.ReplayKeysDiffer | sdk/typescript/src/crypto.ts:202 | Replay keys without NUL characters agree only when key, audience and nonce agree |
| Trust.RevocationIsPermanent | sdk/typescript/src/crypto.ts:353-356 | A target once revoked stays revoked |
| Trust.FindingsReportNoReplay | sdk/typescript/src/crypto.ts:201-204 | Replay is reported by the cache alone |
| Trust.VerifiedTwice | sdk/typescript/src/crypto.ts:201-305 | A document that verifies twice does so only at or after the expiry of its proof and within the skew allowance |
| Trust.OnceWithoutSkew | sdk/typescript/src/crypto.ts:201-305 | Without skew no document verifies twice |
| Trust.GapAdmitsSecond | sdk/typescript/src/crypto.ts:201-304 | A concrete document whose proof expires at 10 verifies at 9 and, with a skew of 5, again at 12 |
| Trust.SecondPresentation | sdk/typescript/src/crypto.ts:202-203 | Presented again inside its acceptance window, a document verifies if and only if its proof has expired |
| Replay.MemoryReplayCache.CheckAndStore | sdk/typescript/src/crypto.ts:210-217 | Answers whether the key is absent or expired; stores a fresh key and sweeps expired entries when more than 10,000 are held |
| Replay.SweepingIsInvisible | sdk/typescript/src/crypto.ts:215 | From the last call on, the sweeping cache and one that never forgets block the same keys |
| Replay.AnswersLikeKept | sdk/typescript/src/crypto.ts:210-217 | For non-decreasing times every call is answered as by a cache that never forgets |
| Replay.NotAcceptedBeforeExpiry | sdk/typescript/src/crypto.ts:213-214 | No key is accepted again before the expiry it was stored with |
| Replay.RepeatedCall | sdk/typescript/src/crypto.ts:213 | A repeated call is accepted if and only if the stored expiry has been reached |
| Replay.StoredMeans | sdk/typescript/src/crypto.ts:210-217 | What is in the cache after a call, key by key, and that run-out entries go only above 10,000 |
| KeyOrder.CompareUTF16 | sdk/go/oati.go:210-228 | The index loop computes the lexicographic order of the UTF-16 encodings |
| KeyOrder.FirstDifference | sdk/go/oati.go:213-227 | One sequence comes first exactly when it is a proper prefix or has the smaller unit at the first difference |
| KeyOrder.EncodingMeans | sdk/go/oati.go:211-212 | A character below 2^16 is its own unit; any other is a surrogate pair that spells it |
| KeyOrder.BeforeIsStrictTotalOrder | sdk/go/oati.go:210-228 | Code-unit order is irreflexive, transitive and total on distinct Unicode scalar strings |
| KeyOrder.EncodeInjective | sdk/go/oati.go:211-212 | Different scalar strings have different UTF-16 encodings |
| KeyOrder.ByteOrderIsUnitOrder | sdk/python/src/oati/core.py:39 | Comparing UTF-16BE bytes is comparing code units |
| KeyOrder.SortSorts | sdk/go/oati.go:116 | Sorting orders the keys and neither loses nor adds one |
| KeyOrder.SortedUnique | sdk/go/oati.go:116 | The sorted arrangement of given keys is unique |
| KeyOrder.SortIgnoresOrder | sdk/go/oati.go:109-116 | The order in which keys arrive does not change their sorted order |
| KeyOrder.PythonSortsLikeGo | sdk/python/src/oati/core.py:39 | Any arrangement sorted by UTF-16BE bytes is the code-unit sort of the same keys |
| KeyOrder.DecodeInverts | sdk/typescript/src/canonical.ts:54-67 | Decoding well-formed code units and encoding them again restores them |
| KeyOrder.IsUnicodeScalarString | sdk/typescript/src/canonical.ts:54-67 | The surrogate scan accepts exactly the UTF-16 encodings of scalar strings |
| CanonicalJson.WriteString | sdk/go/oati.go:179-209 | Appends the quoted text with every escape written out |
| CanonicalJson.WriteCanonical | sdk/go/oati.go:44-149 | Appends the canonical text, whatever order map iteration yields |
| CanonicalJson.CollectKeys | sdk/go/oati.go:109-115 | Collects every key of a map exactly once, in iteration order |
| CanonicalJson.IterationOrderIsErased | sdk/go/oati.go:109-116 | Sorting any listing of a key set gives the same sequence |
| CanonicalJson.ParseCanonical | sdk/go/oati.go:44-149 | A parser inverts the writer on every value and leaves what follows untouched |
| CanonicalJson.ParseEscaped | sdk/go/oati.go:183-207 | Reading an escaped text up to its closing quote restores the text |
| CanonicalJson.ShortestText | sdk/go/oati.go:179-209 | The writer emits the shortest text that reads back as the string, and no other text is as short |
| CanonicalJson.EscapeTable | sdk/go/oati.go:184-206 | The exact text of every single character, as section 3.2.2.2 of RFC 8785 prescribes it |
| CanonicalJson.CanonicalInjective | sdk/typescript/src/middleware.ts:236 | Values with the same canonical text are equal, so comparing receipt texts compares receipts |
| CanonicalJson.PythonWritesTheSame | sdk/python/src/oati/core.py:26-42 | The Python renderer, with joined parts and byte-sorted keys at every depth, writes the same text as the Go writer for every value |
| Modular.ModPow | sdk/typescript/src/crypto.ts:430-434 | Square-and-multiply returns b^e mod m for every e at least 0 and m at least 2 |
| Modular.ModIsRemainder | sdk/typescript/src/crypto.ts:429 | The corrected sign-following remainder is the non-negative remainder |
| Modular.ComputeInverse | sdk/typescript/src/crypto.ts:428 | Computes v^(m-2) mod m |
| Modular.InverseInverts | sdk/typescript/src/crypto.ts:428 | For every prime m and every v it does not divide, v times the inverse is congruent to 1 |
| Modular.Fermat | sdk/typescript/src/crypto.ts:428 | Fermat's little theorem, from the binomial theorem and Euclid's lemma |
| Edwards.CrossMultiplied | sdk/python/src/oati/crypto.py:21-24 | Extended addition agrees with the affine formula after cross-multiplying denominators |
| Edwards.SumIsExtended | sdk/python/src/oati/crypto.py:21-24 | Every extended sum keeps T Z = X Y |
| Edwards.AffineSolves | sdk/typescript/src/crypto.ts:421-427 | The affine sum solves x(1+k) = x1 y2 + y1 x2 and y(1-k) = y1 y2 + x1 x2 where neither denominator vanishes |
| Edwards.AddRepresents | sdk/python/src/oati/crypto.py:21-24 | Where the affine formula is defined, the extended sum represents the affine sum, with a nonzero scale |
| Edwards.Complete | sdk/typescript/src/crypto.ts:422-425 | On a curve with prime modulus, a square root of -1 and a non-square d, neither denominator of the affine formula is ever zero |
| Edwards.Closed | sdk/typescript/src/crypto.ts:421-427 | On such a curve the affine sum of two curve points is a curve point |
| Edwards.Scalar | sdk/python/src/oati/crypto.py:25-30 | The loop computes double-and-add in extended coordinates |
| Edwards.EqualMeaning | sdk/python/src/oati/crypto.py:31 | The cross-multiplied comparison holds if and only if the represented points have the same coordinates modulo the prime |
| Edwards.HasLargeOrder | sdk/typescript/src/crypto.ts:416-418 | The three-doubling loop accepts exactly the points whose eightfold is not the neutral point |
| Edwards.SmallOrderAgrees | sdk/python/src/oati/crypto.py:45 | Python finds a point to be of small order if and only if the TypeScript doubling loop rejects it |
| EdwardsGroup.Associates | sdk/typescript/src/crypto.ts:421-427 | Affine addition of curve points associates |
| EdwardsGroup.AddCommutes | sdk/typescript/src/crypto.ts:421-427 | Affine addition commutes, on all points |
| EdwardsGroup.NegatedInverts | sdk/typescript/src/crypto.ts:421-427 | Every curve point has an inverse under affine addition |
| EdwardsGroup.ScalarIsMultiple | sdk/python/src/oati/crypto.py:25-30 | Double-and-add computes the n-fold sum, for every n |
| EdwardsGroup.ScalarEncodes | sdk/python/src/oati/crypto.py:25-30 | Extended double-and-add on any representation of a curve point stays on the curve and represents its n-fold sum |
| EdwardsGroup.ScalarSum | sdk/python/src/oati/crypto.py:25-30 | The scalar product with m + n is the sum of the scalar products with m and with n |
| EdwardsGroup.EquationOfMultiples | sdk/python/src/oati/crypto.py:44 | The verification equation in extended coordinates holds if and only if s B = R + h A for the n-fold sums of the affine points |
| EdwardsGroup.SmallOrderMeaning | sdk/python/src/oati/crypto.py:45 | A point is found to be of small order if and only if its eightfold sum is the neutral point |
| Keys.CandidateIsRoot | sdk/typescript/src/crypto.ts:411-412 | For a modulus of the form 8k + 5, the candidate power of a square or its product with the root of -1 is a square root |
| Keys.RootsAreOnCurve | sdk/typescript/src/crypto.ts:409-413 | The points with a given y are exactly the square roots of the computed quotient, whose denominator never vanishes |
| Keys.RecoverX | sdk/typescript/src/crypto.ts:409-413 | Recovers a reduced x with (x, y) on the curve if and only if there is one |
| Keys.IsValidPublicKey | sdk/typescript/src/crypto.ts:408-418 | Accepts an encoded y and sign bit if and only if y is reduced and a reduced x of that parity gives a curve point whose eightfold sum is not neutral |
| Keys.RecoverEven | sdk/python/src/oati/crypto.py:8-11 | Returns an even reduced coordinate that is on the curve whenever the curve has a point with this y |
| Keys.DecodePoint | sdk/python/src/oati/crypto.py:12-20 | A decoded quadruple represents a curve point, of large order exactly when the key is acceptable; a refused encoding names no acceptable key |
| Keys.KeyIsUsable | sdk/python/src/oati/crypto.py:37-41 | Decoding and the small-order test accept exactly the keys the TypeScript check accepts |
| Keys.ZeroIsSmall | sdk/typescript/src/crypto.ts:414-415 | A curve point with x congruent to zero is of small order, so the sign check after the adjustment is never what refuses it |
| Ed25519.Ed25519IsCurve | sdk/typescript/src/crypto.ts:393-395 | The constants satisfy every hypothesis of the addition law and of x-recovery: 2^255 - 19 is prime and of the form 8k + 5, I is a square root of -1, D is not a square |
| Ed25519.PrimeP | sdk/typescript/src/crypto.ts:393 | 2^255 - 19 is prime |
| Ed25519.ConstantsAreComputed | sdk/python/src/oati/crypto.py:7 | D and I are the values both SDKs compute for them |
| Primality.Pocklington | sdk/typescript/src/crypto.ts:393 | A power congruent to one and an invertible difference for a large prime factor of n - 1 make n prime |
| Primality.PocklingtonTwo | sdk/typescript/src/crypto.ts:393 | The same for two prime factors whose product exceeds the square root |

## Left out

- JavaScript numbers: counts, limits and times are mathematical integers, so rounding, unsafe integers and NaN are not modelled.
- RFC 3339 parsing: an instant is an integer or unparseable.
- Reason codes are a set of enumerated values; their text, the sorted list and issue messages are not modelled.
- Limit arrays hold primitives only; arrays of objects, which the source compares by reference, and inherited property names are not modelled.
- Commerce and RWA extensions are typed records; fields of the wrong JavaScript type are not modelled.
- Delegation.NonAmplification: assumes one profile along the chain, because between an empty and an absent profile the source compares neither the profile terms nor the quantity limit.
- Two delegates of one parent each have their own usage record, in the source as in the model; no property about their joint spending holds or is stated.
- Middleware.Gateway.CompareAndSet: the record comparison is by snapshot value, where the service compares the stored JSON text.
- Middleware.Gateway.Handle: starts from extracted documents; HTTP headers, problem responses, receipts and the handler's own outcome are not modelled.
- Proof parsing, the JWS header, base64, SHA-256 and Web Crypto are behind the abstract signature check; the lookup-backed resolver is not modelled.
- CanonicalJson.WriteCanonical: number tokens are given and distinct tokens are distinct numbers; texts hold Unicode scalar values, so the invalid-Unicode error, the numeric type switch and the fallback through `json.Marshal` are not modelled.
- The depth limit, cycle detection and prototype handling of `canonicalValue` are not modelled.
- Keys.IsValidPublicKey: starts from the decoded y and sign bit; reading the 32 bytes, point encoding, the order of the base point and the P-256 code are not modelled.
- JSON Schema validation, builders, adapters, lookup and discovery clients, the evaluator ports in Go and Python, and the conformance tooling are not modelled.
