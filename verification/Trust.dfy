/**
 Document verification of `crypto.ts`: the issuer walk, revocation, time windows, and the replay
 check that follows them. Signatures are an abstract relation between documents and key material.
 */
module Trust {
  import opened Wrappers
  import Replay

  /******* Data *******/

  datatype Algorithm = EdDSA | ES256

  datatype KeyStatus = ActiveKey | RetiredKey | RevokedKey | UnknownKeyStatus

  datatype VerificationKey = VerificationKey(
    id: string, controller: string, issuer: string, algorithm: Algorithm,
    jwkAlgorithm: Option<Algorithm>, material: string, status: KeyStatus,
    validFrom: Instant, validUntil: Option<Instant>, revokedAt: Option<Instant>, proofVerified: bool)

  datatype TrustedIssuer = TrustedIssuer(
    parent: Option<string>, active: bool, validFrom: Option<Instant>, validUntil: Option<Instant>,
    revokedAt: Option<Instant>, proofVerified: bool)

  datatype RevocationStatus = RevocationStatus(good: bool, effectiveAt: Option<Instant>)

  /** What a deterministic resolver answers; looking up a name in a `down` set throws. */
  datatype Resolver = Resolver(
    keys: map<string, VerificationKey>, keysDown: set<string>,
    issuers: map<string, TrustedIssuer>, issuersDown: set<string>,
    revocations: map<string, RevocationStatus>, revocationsDown: set<string>)

  datatype Policy = Policy(
    resolver: Resolver, anchors: set<string>, audience: string, algorithms: set<Algorithm>,
    skew: int, maxAge: int, maxDepth: nat)

  datatype Proof = Proof(
    algorithm: Algorithm, created: Instant, expires: Instant, keyId: string, audience: seq<string>, nonce: string)

  datatype ProofField = Missing | Malformed | Present(proof: Proof)

  /** A document as the verifier sees it. `signedWith` holds the key material its signature verifies under. */
  datatype Document = Document(
    id: string, proof: ProofField, start: Option<Instant>, end: Option<Instant>,
    signer: Option<string>, signedWith: set<string>)

  datatype Code =
    | ProofMissing | ProofMalformed | AlgorithmNotAllowed | SignatureInvalid
    | KeyNotFound | KeyInvalid | KeyRevoked | IssuerNotTrusted | IssuerRevoked
    | DocumentRevoked | RevocationUnavailable | ProofNotYetValid | ProofExpired | ProofTooOld
    | DocumentNotYetValid | DocumentExpired | AudienceMismatch | ReplayDetected

  function Flag(condition: bool, c: Code): set<Code> {
    if condition then {c} else {}
  }

  /******* Time windows *******/

  /** The instant is unparseable or lies after `now`, up to skew. */
  predicate StartsLate(i: Option<Instant>, now: int, skew: int) {
    i.Some? && (i.value.Unparseable? || i.value.t > now + skew)
  }

  /** The instant is unparseable or has passed, up to skew. */
  predicate HasEnded(i: Option<Instant>, now: int, skew: int) {
    i.Some? && (i.value.Unparseable? || i.value.t <= now - skew)
  }

  /** The verifier's issue list, as the set of its codes. */
  class Issues {
    var codes: set<Code>

    constructor ()
      ensures codes == {}
    {
      codes := {};
    }

    method Add(found: set<Code>)
      modifies this
      ensures codes == old(codes) + found
    {
      codes := codes + found;
    }
  }

  /******* Revocation *******/

  /** `checkRevocation` for one target. */
  function RevocationFindings(res: Resolver, target: string, revoked: Code, now: int): set<Code> {
    if target == "" then {}
    else if target in res.revocationsDown then {RevocationUnavailable}
    else if target !in res.revocations then {}
    else
      var status := res.revocations[target];
      if status.effectiveAt == Some(Unparseable) then {RevocationUnavailable}
      else Flag(!status.good && (status.effectiveAt.None? || status.effectiveAt.value.t <= now), revoked)
  }

  /** The code for a revoked target depends on its position in the list. */
  function RevokedCode(index: nat): Code {
    if index == 0 then KeyRevoked else if index == 1 then IssuerRevoked else DocumentRevoked
  }

  function ListFindings(res: Resolver, targets: seq<string>, now: int): set<Code> {
    if targets == [] then {}
    else
      var last := |targets| - 1;
      ListFindings(res, targets[..last], now) + RevocationFindings(res, targets[last], RevokedCode(last), now)
  }

  /** `checkRevocation`: a loop over the targets. */
  method CheckRevocation(res: Resolver, targets: seq<string>, now: int, issues: Issues)
    modifies issues
    ensures issues.codes == old(issues.codes) + ListFindings(res, targets, now)
  {
    hide RevocationFindings, RevokedCode;
    for index := 0 to |targets|
      invariant issues.codes == old(issues.codes) + ListFindings(res, targets[..index], now)
    {
      issues.Add(RevocationFindings(res, targets[index], RevokedCode(index), now));
      assert targets[..index + 1][..index] == targets[..index];
    }
    assert targets[..|targets|] == targets;
  }

  lemma IssuerTarget(res: Resolver, id: string, now: int)
    ensures ListFindings(res, ["", id], now) == RevocationFindings(res, id, IssuerRevoked, now)
  {
    ListAppend(res, [], "", now);
    ListAppend(res, [""], id, now);
    assert [] + [""] == [""] && [""] + [id] == ["", id];
  }

  lemma ListAppend(res: Resolver, targets: seq<string>, target: string, now: int)
    ensures ListFindings(res, targets + [target], now) ==
            ListFindings(res, targets, now) + RevocationFindings(res, target, RevokedCode(|targets|), now)
  {
    hide RevocationFindings, RevokedCode;
    assert (targets + [target])[..|targets|] == targets;
  }

  /** Once a target is revoked it stays revoked. */
  lemma RevocationIsPermanent(res: Resolver, target: string, revoked: Code, t: int, u: int)
    requires t <= u && RevocationFindings(res, target, revoked, u) == {}
    ensures RevocationFindings(res, target, revoked, t) == {}
  {
  }

  /******* The issuer walk *******/

  /** The issuer is not active, or its revocation has taken effect, or `now` is outside its window. */
  predicate OutOfStanding(i: TrustedIssuer, now: int, skew: int) {
    || !i.active
    || (i.revokedAt.Some? && (i.revokedAt.value.Unparseable? || i.revokedAt.value.t <= now))
    || StartsLate(i.validFrom, now, skew)
    || HasEnded(i.validUntil, now, skew)
  }

  /** A resolved issuer whose record is proof-verified. */
  predicate Known(res: Resolver, id: string) {
    id !in res.issuersDown && id in res.issuers && res.issuers[id].proofVerified
  }

  /** The parent a walk moves on to: the issuer is known, in good standing and names one. */
  function ParentOf(p: Policy, id: string, now: int): Option<string> {
    if Known(p.resolver, id) && !OutOfStanding(p.resolver.issuers[id], now, p.skew)
      && Truthy(p.resolver.issuers[id].parent)
    then p.resolver.issuers[id].parent
    else None
  }

  /** The anchor that the parent walk from `id` reaches within `links` links. */
  function Walk(p: Policy, id: string, now: int, links: nat): Option<string>
    decreases links
  {
    if id in p.anchors then Some(id)
    else if links == 0 || ParentOf(p, id, now).None? then None
    else Walk(p, ParentOf(p, id, now).value, now, links - 1)
  }

  /** The issues the walk reports, without any bookkeeping of visited issuers. */
  function WalkFindings(p: Policy, id: string, now: int, links: nat): set<Code>
    decreases links
  {
    RevocationFindings(p.resolver, id, IssuerRevoked, now) +
    if id in p.anchors then {}
    else if !Known(p.resolver, id) then {IssuerNotTrusted}
    else if OutOfStanding(p.resolver.issuers[id], now, p.skew) then {IssuerRevoked}
    else if links == 0 || ParentOf(p, id, now).None? then {IssuerNotTrusted}
    else WalkFindings(p, ParentOf(p, id, now).value, now, links - 1)
  }

  /** A set of non-anchors in which every parent lies again. */
  ghost predicate Closed(p: Policy, s: set<string>, now: int) {
    forall id :: id in s ==> id !in p.anchors && ParentOf(p, id, now).Some? && ParentOf(p, id, now).value in s
  }

  /** From a closed set of issuers no anchor is reached, whatever the depth. */
  lemma {:induction false} ClosedNeverReaches(p: Policy, s: set<string>, id: string, now: int, links: nat)
    requires Closed(p, s, now) && id in s
    ensures Walk(p, id, now, links).None?
    decreases links
  {
    if links > 0 {
      ClosedNeverReaches(p, s, ParentOf(p, id, now).value, now, links - 1);
    }
  }

  /** Walking on inside a closed set reports nothing new except that no anchor was reached. */
  lemma {:induction false} ClosedFindings(p: Policy, s: set<string>, id: string, now: int, links: nat, seen: set<Code>)
    requires Closed(p, s, now) && id in s
    requires forall x :: x in s ==> RevocationFindings(p.resolver, x, IssuerRevoked, now) <= seen
    ensures WalkFindings(p, id, now, links) <= seen + {IssuerNotTrusted}
    ensures IssuerNotTrusted in WalkFindings(p, id, now, links)
    decreases links
  {
    hide RevocationFindings, Known, OutOfStanding;
    if links > 0 {
      ClosedFindings(p, s, ParentOf(p, id, now).value, now, links - 1, seen);
    }
  }

  /** The visited issuers form a path that ends at `current`. */
  ghost predicate PathTo(p: Policy, visited: set<string>, current: string, now: int) {
    forall id :: id in visited ==>
      && id !in p.anchors && ParentOf(p, id, now).Some?
      && (ParentOf(p, id, now).value in visited || ParentOf(p, id, now).value == current)
  }

  /**
   `validateTrustChain`: a bounded loop with a set of visited issuers. It returns the anchor of the
   plain parent walk, and reports its issues: the visited set never changes the verdict.
   */
  method ValidateTrustChain(start: string, p: Policy, now: int, issues: Issues) returns (anchor: Option<string>)
    modifies issues
    ensures anchor == Walk(p, start, now, p.maxDepth)
    ensures issues.codes == old(issues.codes) + WalkFindings(p, start, now, p.maxDepth)
  {
    hide RevocationFindings;
    ghost var findings := old(issues.codes) + WalkFindings(p, start, now, p.maxDepth);
    var visited: set<string> := {};
    var current := start;
    for depth := 0 to p.maxDepth + 1
      invariant PathTo(p, visited, current, now)
      invariant forall id :: id in visited ==> RevocationFindings(p.resolver, id, IssuerRevoked, now) <= issues.codes
      invariant depth <= p.maxDepth ==>
                  && Walk(p, start, now, p.maxDepth) == Walk(p, current, now, p.maxDepth - depth)
                  && issues.codes + WalkFindings(p, current, now, p.maxDepth - depth) == findings
      invariant depth == p.maxDepth + 1 ==>
                  Walk(p, start, now, p.maxDepth) == None && issues.codes + {IssuerNotTrusted} == findings
    {
      if current in visited {
        ClosedNeverReaches(p, visited, current, now, p.maxDepth - depth);
        ClosedFindings(p, visited, current, now, p.maxDepth - depth, issues.codes);
        break;
      }
      visited := visited + {current};
      CheckRevocation(p.resolver, ["", current], now, issues);
      IssuerTarget(p.resolver, current, now);
      if current in p.anchors {
        return Some(current);
      }
      if current in p.resolver.issuersDown {
        issues.Add({IssuerNotTrusted});
        return None;
      }
      if !Known(p.resolver, current) {
        break;
      }
      var issuer := p.resolver.issuers[current];
      if OutOfStanding(issuer, now, p.skew) {
        issues.Add({IssuerRevoked});
        return None;
      }
      if !Truthy(issuer.parent) {
        break;
      }
      current := issuer.parent.value;
    }
    issues.Add({IssuerNotTrusted});
    return None;
  }

  /******* Reachability *******/

  /** A longer bound finds the same anchor. */
  lemma {:induction false} WalkIsMonotone(p: Policy, id: string, now: int, links: nat, more: nat)
    requires Walk(p, id, now, links).Some? && links <= more
    ensures Walk(p, id, now, more) == Walk(p, id, now, links)
    decreases links
  {
    if id !in p.anchors {
      WalkIsMonotone(p, ParentOf(p, id, now).value, now, links - 1, more - 1);
    }
  }

  lemma {:induction false} WalkWithinUnvisited(p: Policy, visited: set<string>, id: string, now: int, links: nat)
    requires Walk(p, id, now, links).Some?
    requires PathTo(p, visited, id, now) && visited <= p.resolver.issuers.Keys
    ensures |visited| <= |p.resolver.issuers| && Walk(p, id, now, |p.resolver.issuers| - |visited|).Some?
    decreases links
  {
    var issuers := p.resolver.issuers.Keys;
    SubsetSize(visited, issuers);
    if id !in p.anchors && id in visited {
      ClosedNeverReaches(p, visited, id, now, links);
    } else if id !in p.anchors {
      var parent := ParentOf(p, id, now).value;
      assert id in issuers && id !in visited;
      assert PathTo(p, visited + {id}, parent, now) by { hide ParentOf; }
      WalkWithinUnvisited(p, visited + {id}, parent, now, links - 1);
      hide ParentOf, PathTo;
      assert |visited + {id}| == |visited| + 1;
    }
  }

  lemma {:induction false} SubsetSize(a: set<string>, b: set<string>)
    requires a <= b
    ensures |a| <= |b|
  {
    if a != {} {
      var x :| x in a;
      SubsetSize(a - {x}, b - {x});
    }
  }

  /** With a depth of at least the number of issuers, the bounded walk is unbounded reachability. */
  lemma DepthOfAllIssuersSuffices(p: Policy, start: string, now: int, links: nat)
    requires p.maxDepth >= |p.resolver.issuers| && Walk(p, start, now, links).Some?
    ensures Walk(p, start, now, p.maxDepth) == Walk(p, start, now, links)
  {
    WalkWithinUnvisited(p, {}, start, now, links);
    var n := |p.resolver.issuers|;
    WalkIsMonotone(p, start, now, n, p.maxDepth);
    WalkIsMonotone(p, start, now, n, n + links);
    WalkIsMonotone(p, start, now, links, n + links);
  }

  /** The `n`th issuer of the parent walk. */
  function Nth(p: Policy, id: string, now: int, n: nat): Option<string>
    decreases n
  {
    if n == 0 then Some(id)
    else if ParentOf(p, id, now).None? then None
    else Nth(p, ParentOf(p, id, now).value, now, n - 1)
  }

  /** Within `links` links the parent walk from `id` meets an anchor. */
  ghost predicate Reaches(p: Policy, id: string, now: int, links: nat) {
    exists n: nat :: n <= links && IsAnchor(p, Nth(p, id, now, n))
  }

  predicate IsAnchor(p: Policy, id: Option<string>) {
    id.Some? && id.value in p.anchors
  }

  /** The walk returns an anchor exactly when one is met within the bound. */
  lemma {:induction false} WalkIsReachability(p: Policy, id: string, now: int, links: nat)
    ensures Walk(p, id, now, links).Some? <==> Reaches(p, id, now, links)
    ensures Walk(p, id, now, links).Some? ==> Walk(p, id, now, links).value in p.anchors
    decreases links
  {
    if id in p.anchors {
      assert IsAnchor(p, Nth(p, id, now, 0));
    } else if links > 0 && ParentOf(p, id, now).Some? {
      var parent := ParentOf(p, id, now).value;
      WalkIsReachability(p, parent, now, links - 1);
      ReachesThroughParent(p, id, now, links);
    } else {
      NoWayOn(p, id, now, links);
    }
  }

  lemma ReachesThroughParent(p: Policy, id: string, now: int, links: nat)
    requires id !in p.anchors && links > 0 && ParentOf(p, id, now).Some?
    ensures Reaches(p, id, now, links) <==> Reaches(p, ParentOf(p, id, now).value, now, links - 1)
  {
    var parent := ParentOf(p, id, now).value;
    if Reaches(p, id, now, links) {
      var n: nat :| n <= links && IsAnchor(p, Nth(p, id, now, n));
      assert n > 0;
      assert IsAnchor(p, Nth(p, parent, now, n - 1));
    }
    if Reaches(p, parent, now, links - 1) {
      var n: nat :| n <= links - 1 && IsAnchor(p, Nth(p, parent, now, n));
      assert IsAnchor(p, Nth(p, id, now, n + 1));
    }
  }

  lemma NoWayOn(p: Policy, id: string, now: int, links: nat)
    requires id !in p.anchors && (links == 0 || ParentOf(p, id, now).None?)
    ensures !Reaches(p, id, now, links)
  {
    forall n: nat | n <= links
      ensures !IsAnchor(p, Nth(p, id, now, n))
    {
    }
  }

  /******* verifyDocument *******/

  /** `checkProofTime` */
  function ProofTimeFindings(proof: Proof, now: int, skew: int, maxAge: int): set<Code> {
    if proof.created.Unparseable? || proof.expires.Unparseable? || proof.expires.t <= proof.created.t
    then {ProofMalformed}
    else
      Flag(proof.created.t > now + skew, ProofNotYetValid) +
      Flag(proof.expires.t <= now - skew, ProofExpired) +
      Flag(now - proof.created.t > maxAge + skew, ProofTooOld)
  }

  /** `checkDocumentTime` */
  function DocumentTimeFindings(doc: Document, now: int, skew: int): set<Code> {
    Flag(StartsLate(doc.start, now, skew), DocumentNotYetValid) + Flag(HasEnded(doc.end, now, skew), DocumentExpired)
  }

  /** The key's metadata, status or validity at signing time does not fit the proof. */
  predicate KeyMismatch(key: VerificationKey, proof: Proof, skew: int) {
    || key.algorithm != proof.algorithm || key.id != proof.keyId || !key.proofVerified
    || key.jwkAlgorithm != Some(proof.algorithm) || key.status == UnknownKeyStatus
    || (key.status == RetiredKey && key.validUntil.None?)
    || key.validFrom.Unparseable?
    || (proof.created.Ms? && proof.created.t < key.validFrom.t - skew)
    || (key.validUntil.Some? && key.validUntil.value.Unparseable?)
    || (key.validUntil.Some? && proof.created.Ms? && proof.created.t >= key.validUntil.value.t + skew)
    || key.revokedAt == Some(Unparseable)
  }

  /** `checkKey` and `checkSignerBinding` */
  function KeyFindings(key: VerificationKey, doc: Document, proof: Proof, now: int, skew: int): set<Code> {
    Flag(KeyMismatch(key, proof, skew) ||
         (Truthy(doc.signer) && doc.signer.value != key.controller && doc.signer.value != key.issuer), KeyInvalid) +
    Flag(key.status == RevokedKey || (key.revokedAt.Some? && key.revokedAt.value.Ms? && key.revokedAt.value.t <= now),
         KeyRevoked)
  }

  /** Revocation of the key, its issuer and the document. */
  function TargetFindings(res: Resolver, key: VerificationKey, doc: Document, now: int): set<Code> {
    RevocationFindings(res, key.id, KeyRevoked, now) +
    RevocationFindings(res, key.issuer, IssuerRevoked, now) +
    RevocationFindings(res, doc.id, DocumentRevoked, now)
  }

  lemma DocumentTargets(res: Resolver, key: VerificationKey, doc: Document, now: int)
    ensures ListFindings(res, [key.id, key.issuer, doc.id], now) == TargetFindings(res, key, doc, now)
  {
    ListAppend(res, [], key.id, now);
    ListAppend(res, [key.id], key.issuer, now);
    ListAppend(res, [key.id, key.issuer], doc.id, now);
    assert [] + [key.id] == [key.id] && [key.id] + [key.issuer] == [key.id, key.issuer];
    assert [key.id, key.issuer] + [doc.id] == [key.id, key.issuer, doc.id];
    hide RevocationFindings;
  }

  /** The checks that need no key. */
  function EarlyFindings(doc: Document, proof: Proof, p: Policy, now: int): set<Code> {
    Flag(proof.algorithm !in p.algorithms, AlgorithmNotAllowed) +
    ProofTimeFindings(proof, now, p.skew, p.maxAge) +
    DocumentTimeFindings(doc, now, p.skew) +
    Flag(p.audience == "" || p.audience !in proof.audience, AudienceMismatch)
  }

  function FindKey(res: Resolver, id: string): Option<VerificationKey> {
    if id in res.keysDown || id !in res.keys then None else Some(res.keys[id])
  }

  function TrustFindings(doc: Document, proof: Proof, key: VerificationKey, p: Policy, now: int): set<Code> {
    KeyFindings(key, doc, proof, now, p.skew) +
    WalkFindings(p, key.issuer, now, p.maxDepth) +
    TargetFindings(p.resolver, key, doc, now)
  }

  /** A signature is looked at only when the proof is well-formed and its algorithm allowed. */
  function SignatureFindings(doc: Document, key: VerificationKey, found: set<Code>): set<Code> {
    Flag(ProofMalformed !in found && AlgorithmNotAllowed !in found && key.material !in doc.signedWith, SignatureInvalid)
  }

  /** Every issue of `verifyDocument` except replay. */
  function Findings(doc: Document, p: Policy, now: int): set<Code> {
    match doc.proof
    case Missing => {ProofMissing}
    case Malformed => {ProofMalformed}
    case Present(proof) =>
      var early := EarlyFindings(doc, proof, p, now);
      var key := FindKey(p.resolver, proof.keyId);
      if key.None? then early + {KeyNotFound}
      else
        var found := early + TrustFindings(doc, proof, key.value, p, now);
        found + SignatureFindings(doc, key.value, found)
  }

  ghost predicate Accepts(doc: Document, p: Policy, now: int) {
    Findings(doc, p, now) == {}
  }

  /** Key, audience and nonce, joined by NUL characters. */
  function ReplayKey(proof: Proof, p: Policy): string {
    proof.keyId + "\0" + p.audience + "\0" + proof.nonce
  }

  lemma AcceptedProof(doc: Document, p: Policy, now: int)
    requires Accepts(doc, p, now)
    ensures doc.proof.Present? && FindKey(p.resolver, doc.proof.proof.keyId).Some?
    ensures var proof := doc.proof.proof;
            && EarlyFindings(doc, proof, p, now) == {}
            && TrustFindings(doc, proof, FindKey(p.resolver, proof.keyId).value, p, now) == {}
            && FindKey(p.resolver, proof.keyId).value.material in doc.signedWith
            && proof.created.Ms? && proof.expires.Ms?
            && proof.created.t - p.skew <= now <= proof.created.t + p.maxAge + p.skew
            && now < proof.expires.t + p.skew
  {
    hide TrustFindings, DocumentTimeFindings;
    var proof := doc.proof.proof;
    var early := EarlyFindings(doc, proof, p, now);
    assert KeyNotFound !in Findings(doc, p, now);
    var key := FindKey(p.resolver, proof.keyId).value;
    var found := early + TrustFindings(doc, proof, key, p, now);
    assert found <= Findings(doc, p, now);
    assert SignatureInvalid !in SignatureFindings(doc, key, found);
    assert early <= found;
    assert ProofTimeFindings(proof, now, p.skew, p.maxAge) <= early;
    assert ProofMalformed !in early && ProofNotYetValid !in early && ProofExpired !in early && ProofTooOld !in early;
  }

  lemma {:induction false} WalkReportsNoReplay(p: Policy, id: string, now: int, links: nat)
    ensures ReplayDetected !in WalkFindings(p, id, now, links)
    decreases links
  {
    if links > 0 && ParentOf(p, id, now).Some? {
      WalkReportsNoReplay(p, ParentOf(p, id, now).value, now, links - 1);
    }
  }

  lemma KeyReportsNoReplay(doc: Document, proof: Proof, key: VerificationKey, p: Policy, now: int)
    ensures ReplayDetected !in TrustFindings(doc, proof, key, p, now)
  {
    WalkReportsNoReplay(p, key.issuer, now, p.maxDepth);
    hide WalkFindings, KeyMismatch;
  }

  lemma EarlyReportsNoReplay(doc: Document, proof: Proof, p: Policy, now: int)
    ensures ReplayDetected !in EarlyFindings(doc, proof, p, now)
  {
    hide StartsLate, HasEnded;
  }

  /** Replay is reported by the cache alone. */
  lemma FindingsReportNoReplay(doc: Document, p: Policy, now: int)
    ensures ReplayDetected !in Findings(doc, p, now)
  {
    hide TrustFindings, EarlyFindings;
    if doc.proof.Present? {
      var proof := doc.proof.proof;
      EarlyReportsNoReplay(doc, proof, p, now);
      if FindKey(p.resolver, proof.keyId).Some? {
        KeyReportsNoReplay(doc, proof, FindKey(p.resolver, proof.keyId).value, p, now);
      }
    }
  }

  /** `verifyDocument`: a document that fails any other check never consumes its nonce. */
  method VerifyDocument(doc: Document, p: Policy, now: int, cache: Replay.MemoryReplayCache)
    returns (verified: bool, codes: set<Code>)
    modifies cache
    ensures verified <==> codes == {}
    ensures !Accepts(doc, p, now) ==> codes == Findings(doc, p, now) && cache.entries == old(cache.entries)
    ensures Accepts(doc, p, now) ==>
              && doc.proof.Present? && doc.proof.proof.expires.Ms?
              && var proof := doc.proof.proof;
                 var key := ReplayKey(proof, p);
                 && codes == Flag(Replay.Blocks(old(cache.entries), key, now), ReplayDetected)
                 && cache.entries == Replay.Stored(old(cache.entries), key, proof.expires.t, now)
  {
    hide EarlyFindings, KeyFindings, TargetFindings, WalkFindings, SignatureFindings, Walk, ReplayKey;
    if doc.proof.Missing? {
      return false, {ProofMissing};
    }
    if doc.proof.Malformed? {
      return false, {ProofMalformed};
    }
    var proof := doc.proof.proof;
    var issues := new Issues();
    issues.Add(EarlyFindings(doc, proof, p, now));
    var found := FindKey(p.resolver, proof.keyId);
    if found.None? {
      issues.Add({KeyNotFound});
      assert KeyNotFound in issues.codes;
      return false, issues.codes;
    }
    var key := found.value;
    issues.Add(KeyFindings(key, doc, proof, now, p.skew));
    var _ := ValidateTrustChain(key.issuer, p, now, issues);
    CheckRevocation(p.resolver, [key.id, key.issuer, doc.id], now, issues);
    DocumentTargets(p.resolver, key, doc, now);
    assert issues.codes == EarlyFindings(doc, proof, p, now) + TrustFindings(doc, proof, key, p, now);
    issues.Add(SignatureFindings(doc, key, issues.codes));
    assert issues.codes == Findings(doc, p, now);
    if issues.codes == {} {
      AcceptedProof(doc, p, now);
      var unseen := cache.CheckAndStore(ReplayKey(proof, p), proof.expires.t, now);
      if !unseen {
        issues.Add({ReplayDetected});
      }
    }
    return issues.codes == {}, issues.codes;
  }

  /******* The acceptance window *******/

  /** The walk succeeds between any two instants at which it succeeds. */
  lemma {:induction false} WalkWindow(p: Policy, id: string, links: nat, t: int, u: int, v: int)
    requires t <= u <= v && WalkFindings(p, id, t, links) == {} && WalkFindings(p, id, v, links) == {}
    ensures WalkFindings(p, id, u, links) == {}
    decreases links
  {
    assert RevocationFindings(p.resolver, id, IssuerRevoked, v) <= WalkFindings(p, id, v, links);
    RevocationIsPermanent(p.resolver, id, IssuerRevoked, u, v);
    hide RevocationFindings;
    if id !in p.anchors {
      assert IssuerNotTrusted !in WalkFindings(p, id, t, links) && IssuerNotTrusted !in WalkFindings(p, id, v, links);
      assert IssuerRevoked !in WalkFindings(p, id, t, links) && IssuerRevoked !in WalkFindings(p, id, v, links);
      var parent := ParentOf(p, id, t).value;
      assert WalkFindings(p, parent, t, links - 1) <= WalkFindings(p, id, t, links);
      assert WalkFindings(p, parent, v, links - 1) <= WalkFindings(p, id, v, links);
      WalkWindow(p, parent, links - 1, t, u, v);
    }
  }

  lemma TrustWindow(doc: Document, proof: Proof, key: VerificationKey, p: Policy, t: int, u: int, v: int)
    requires t <= u <= v && TrustFindings(doc, proof, key, p, t) == {} && TrustFindings(doc, proof, key, p, v) == {}
    ensures TrustFindings(doc, proof, key, p, u) == {}
  {
    var at := TrustFindings(doc, proof, key, p, v);
    var res := p.resolver;
    assert WalkFindings(p, key.issuer, t, p.maxDepth) <= TrustFindings(doc, proof, key, p, t);
    assert WalkFindings(p, key.issuer, v, p.maxDepth) <= at;
    WalkWindow(p, key.issuer, p.maxDepth, t, u, v);
    hide WalkFindings;
    assert TargetFindings(res, key, doc, v) <= at;
    assert RevocationFindings(res, key.id, KeyRevoked, v) <= at;
    assert RevocationFindings(res, key.issuer, IssuerRevoked, v) <= at;
    assert RevocationFindings(res, doc.id, DocumentRevoked, v) <= at;
    RevocationIsPermanent(res, key.id, KeyRevoked, u, v);
    RevocationIsPermanent(res, key.issuer, IssuerRevoked, u, v);
    RevocationIsPermanent(res, doc.id, DocumentRevoked, u, v);
    hide RevocationFindings, KeyMismatch;
    assert KeyFindings(key, doc, proof, v, p.skew) <= at;
    assert KeyInvalid !in KeyFindings(key, doc, proof, v, p.skew)
           && KeyRevoked !in KeyFindings(key, doc, proof, v, p.skew);
  }

  lemma EarlyWindow(doc: Document, proof: Proof, p: Policy, t: int, u: int, v: int)
    requires t <= u <= v && EarlyFindings(doc, proof, p, t) == {} && EarlyFindings(doc, proof, p, v) == {}
    ensures EarlyFindings(doc, proof, p, u) == {}
  {
    var a, b := EarlyFindings(doc, proof, p, t), EarlyFindings(doc, proof, p, v);
    assert AlgorithmNotAllowed !in a && AudienceMismatch !in a && ProofMalformed !in a;
    assert ProofNotYetValid !in a && ProofExpired !in b && ProofTooOld !in b;
    assert DocumentNotYetValid !in a && DocumentExpired !in b && DocumentNotYetValid !in b && DocumentExpired !in a;
  }

  /** The times at which a document is accepted, replay aside, form an interval no wider than
      the maximum proof age plus twice the skew. */
  lemma AcceptanceWindow(doc: Document, p: Policy, t: int, u: int, v: int)
    requires t <= u <= v && Accepts(doc, p, t) && Accepts(doc, p, v)
    ensures Accepts(doc, p, u)
    ensures v - t <= p.maxAge + 2 * p.skew
  {
    hide EarlyFindings, TrustFindings;
    AcceptedProof(doc, p, t);
    AcceptedProof(doc, p, v);
    var proof := doc.proof.proof;
    EarlyWindow(doc, proof, p, t, u, v);
    TrustWindow(doc, proof, FindKey(p.resolver, proof.keyId).value, p, t, u, v);
  }

  /** Once an accepted document is rejected, by expiry or revocation, it stays rejected. */
  lemma RejectionIsPermanent(doc: Document, p: Policy, t: int, u: int, v: int)
    requires t <= u <= v && Accepts(doc, p, t) && !Accepts(doc, p, u)
    ensures !Accepts(doc, p, v)
  {
    hide Accepts;
    if Accepts(doc, p, v) {
      AcceptanceWindow(doc, p, t, u, v);
    }
  }

  /******* Repeated presentation of one document *******/

  datatype Attempt = Attempt(doc: Document, now: int)

  /** The replay-cache calls that a sequence of verifications makes. */
  ghost function Calls(p: Policy, attempts: seq<Attempt>): seq<Replay.Call> {
    if attempts == [] then []
    else
      var front, a := Calls(p, attempts[..|attempts| - 1]), attempts[|attempts| - 1];
      if Accepts(a.doc, p, a.now) && a.doc.proof.Present? && a.doc.proof.proof.expires.Ms?
      then front + [Replay.Call(ReplayKey(a.doc.proof.proof, p), a.doc.proof.proof.expires.t, a.now)]
      else front
  }

  ghost predicate InOrder(attempts: seq<Attempt>) {
    forall i, j :: 0 <= i <= j < |attempts| ==> attempts[i].now <= attempts[j].now
  }

  /** Attempt `i` passes every check, replay included, after the attempts before it. */
  ghost predicate Verified(p: Policy, attempts: seq<Attempt>, i: nat)
    requires i < |attempts|
  {
    var a := attempts[i];
    && Accepts(a.doc, p, a.now) && a.doc.proof.Present?
    && !Replay.Blocks(Replay.Swept(Calls(p, attempts[..i])), ReplayKey(a.doc.proof.proof, p), a.now)
  }

  /** The calls of a prefix are a prefix of the calls, and no later than its last attempt. */
  lemma {:induction false} CallsOfPrefix(p: Policy, attempts: seq<Attempt>, n: nat)
    requires n <= |attempts|
    ensures Calls(p, attempts[..n]) <= Calls(p, attempts)
  {
    hide Accepts, ReplayKey;
    if n == |attempts| {
      assert attempts[..n] == attempts;
    } else {
      CallsOfPrefix(p, attempts[..|attempts| - 1], n);
      assert attempts[..|attempts| - 1][..n] == attempts[..n];
    }
  }

  lemma {:induction false} CallsInOrder(p: Policy, attempts: seq<Attempt>)
    requires InOrder(attempts)
    ensures Replay.NonDecreasing(Calls(p, attempts))
    ensures forall k :: 0 <= k < |Calls(p, attempts)| ==> Calls(p, attempts)[k].now <= attempts[|attempts| - 1].now
  {
    hide Accepts, ReplayKey;
    if attempts != [] {
      var front := attempts[..|attempts| - 1];
      CallsInOrder(p, front);
      assert front != [] ==> front[|front| - 1].now <= attempts[|attempts| - 1].now;
    }
  }

  lemma CallOf(p: Policy, attempts: seq<Attempt>, i: nat)
    requires i < |attempts| && Verified(p, attempts, i)
    ensures var a := attempts[i];
            && a.doc.proof.proof.expires.Ms?
            && Calls(p, attempts[..i + 1]) ==
               Calls(p, attempts[..i]) + [Replay.Call(ReplayKey(a.doc.proof.proof, p), a.doc.proof.proof.expires.t,
                                                      a.now)]
  {
    AcceptedProof(attempts[i].doc, p, attempts[i].now);
    assert attempts[..i + 1][..i] == attempts[..i];
    hide Accepts, ReplayKey;
  }

  /** A document that verifies twice does so only after its proof expired, inside the skew allowance. */
  lemma VerifiedTwice(p: Policy, attempts: seq<Attempt>, i: nat, j: nat)
    requires InOrder(attempts) && i < j < |attempts| && attempts[i].doc == attempts[j].doc
    requires Verified(p, attempts, i) && Verified(p, attempts, j)
    ensures attempts[i].doc.proof.Present? && attempts[i].doc.proof.proof.expires.Ms?
    ensures var expires := attempts[i].doc.proof.proof.expires.t;
            expires <= attempts[j].now < expires + p.skew
  {
    hide Accepts, ReplayKey, Calls, Replay.Swept, Replay.Blocks, EarlyFindings, TrustFindings, FindKey;
    CallOf(p, attempts, i);
    CallOf(p, attempts, j);
    AcceptedProof(attempts[j].doc, p, attempts[j].now);
    CallsOfPrefix(p, attempts[..j], i + 1);
    assert attempts[..j][..i + 1] == attempts[..i + 1];
    CallsInOrder(p, attempts[..j + 1]);
    Replay.SpentNonce(Calls(p, attempts[..i]), Calls(p, attempts[..i + 1]), Calls(p, attempts[..j]),
                      Calls(p, attempts[..j + 1]));
  }

  /** Without skew, no document verifies twice. */
  lemma OnceWithoutSkew(p: Policy, attempts: seq<Attempt>, i: nat, j: nat)
    requires p.skew <= 0 && InOrder(attempts) && i < j < |attempts| && attempts[i].doc == attempts[j].doc
    requires Verified(p, attempts, i)
    ensures !Verified(p, attempts, j)
  {
    hide Accepts;
    if Verified(p, attempts, j) {
      VerifiedTwice(p, attempts, i, j);
    }
  }

  /** Presented again, an accepted document verifies exactly when its proof has expired. */
  lemma SecondPresentation(p: Policy, doc: Document, t: int, u: int)
    requires t <= u && Accepts(doc, p, t) && Accepts(doc, p, u)
    ensures doc.proof.Present? && doc.proof.proof.expires.Ms?
    ensures var attempts := [Attempt(doc, t), Attempt(doc, u)];
            && Verified(p, attempts, 0)
            && (Verified(p, attempts, 1) <==> u >= doc.proof.proof.expires.t)
  {
    var attempts := [Attempt(doc, t), Attempt(doc, u)];
    AcceptedProof(doc, p, t);
    assert attempts[..0] == [] && attempts[..1] == [Attempt(doc, t)];
    assert Verified(p, attempts, 0);
    CallOf(p, attempts, 0);
    hide Accepts, ReplayKey;
    var c := Replay.Call(ReplayKey(doc.proof.proof, p), doc.proof.proof.expires.t, t);
    assert Calls(p, attempts[..1]) == [c];
    assert Replay.Swept([c]) == map[c.key := c.expires] by { assert [c][..0] == []; }
  }

  const GAP_POLICY := Policy(
    Resolver(map["k" := VerificationKey("k", "c", "a", EdDSA, Some(EdDSA), "jwk", ActiveKey, Ms(0), None, None, true)],
             {},
             map[], {}, map[], {}),
    {"a"}, "aud", {EdDSA}, 5, 100, 8)

  const GAP_DOCUMENT := Document("d", Present(Proof(EdDSA, Ms(0), Ms(10), "k", ["aud"], "n")), None, None, None,
                                 {"jwk"})

  lemma AcceptedInGap(now: int)
    requires 0 <= now < 15
    ensures Accepts(GAP_DOCUMENT, GAP_POLICY, now)
  {
  }

  /** A proof that expires at 10 is accepted at 9 and, with a skew of 5, once more at 12. */
  lemma GapAdmitsSecond()
    ensures var attempts := [Attempt(GAP_DOCUMENT, 9), Attempt(GAP_DOCUMENT, 12)];
            Verified(GAP_POLICY, attempts, 0) && Verified(GAP_POLICY, attempts, 1)
  {
    AcceptedInGap(9);
    AcceptedInGap(12);
    hide Accepts;
    SecondPresentation(GAP_POLICY, GAP_DOCUMENT, 9, 12);
  }
}
