/**
 What document verification answers, in the fields of the document, its key, the issuers and the
 policy: which code is reported when, and exactly which documents are accepted.
 */
module Acceptance {
  import opened Wrappers
  import opened Trust
  import Replay

  /******* Revocation *******/

  /** The revocation service fails on the target, or answers with an unreadable time. */
  predicate Unanswered(res: Resolver, target: string) {
    target != "" &&
    (target in res.revocationsDown
     || (target in res.revocations && res.revocations[target].effectiveAt == Some(Unparseable)))
  }

  /** The target is on file as not good, at once or from an instant that has come. */
  predicate Withdrawn(res: Resolver, target: string, now: int) {
    && target != "" && target !in res.revocationsDown && target in res.revocations
    && !res.revocations[target].good
    && (res.revocations[target].effectiveAt.None?
        || (res.revocations[target].effectiveAt.value.Ms? && res.revocations[target].effectiveAt.value.t <= now))
  }

  /** One target reports its own code when withdrawn, and unavailability when unanswered. */
  lemma TargetCodes(res: Resolver, target: string, revoked: Code, now: int, c: Code)
    requires revoked != RevocationUnavailable
    ensures c in RevocationFindings(res, target, revoked, now) <==>
            (c == revoked && Withdrawn(res, target, now)) || (c == RevocationUnavailable && Unanswered(res, target))
  {
  }

  /** Nothing stands against the target: the empty target is not looked up; any other is answered,
      and is absent, good, or not yet revoked. */
  predicate Clear(res: Resolver, target: string, now: int) {
    target == "" ||
    (target !in res.revocationsDown &&
     (target in res.revocations ==>
        var status := res.revocations[target];
        match status.effectiveAt
        case None => status.good
        case Some(Unparseable) => false
        case Some(Ms(t)) => status.good || t > now))
  }

  lemma ClearMeans(res: Resolver, target: string, revoked: Code, now: int)
    ensures RevocationFindings(res, target, revoked, now) == {} <==> Clear(res, target, now)
  {
  }

  /** `checkRevocation` reports, for the targets in their order, the code of each position. */
  lemma {:induction false} ListCodes(res: Resolver, targets: seq<string>, now: int, c: Code)
    ensures c in ListFindings(res, targets, now) <==>
            exists i :: 0 <= i < |targets| &&
              ((Withdrawn(res, targets[i], now) &&
                c == if i == 0 then KeyRevoked else if i == 1 then IssuerRevoked else DocumentRevoked)
               || (c == RevocationUnavailable && Unanswered(res, targets[i])))
  {
    hide Withdrawn, Unanswered, RevocationFindings;
    if targets != [] {
      var last := |targets| - 1;
      ListCodes(res, targets[..last], now, c);
      TargetCodes(res, targets[last], RevokedCode(last), now, c);
    }
  }

  /******* The issuer walk *******/

  /** The issuer is on file and its record is verified. */
  predicate OnFile(res: Resolver, id: string) {
    id in res.issuers && id !in res.issuersDown && res.issuers[id].proofVerified
  }

  /** The issuer is active, not revoked by now, and inside its window up to skew. */
  predicate InStanding(i: TrustedIssuer, now: int, skew: int) {
    && i.active
    && (i.revokedAt.Some? ==> i.revokedAt.value.Ms? && i.revokedAt.value.t > now)
    && (i.validFrom.Some? ==> i.validFrom.value.Ms? && i.validFrom.value.t <= now + skew)
    && (i.validUntil.Some? ==> i.validUntil.value.Ms? && i.validUntil.value.t > now - skew)
  }

  /** The issuer is no anchor, is on file and in standing, and names the next one as its parent. */
  predicate LeadsTo(p: Policy, id: string, next: string, now: int) {
    && id !in p.anchors && OnFile(p.resolver, id) && InStanding(p.resolver.issuers[id], now, p.skew)
    && p.resolver.issuers[id].parent == Some(next) && next != ""
  }

  /** Each issuer leads to the next. */
  predicate Path(p: Policy, ids: seq<string>, now: int) {
    |ids| <= 1 || (LeadsTo(p, ids[0], ids[1], now) && Path(p, ids[1..], now))
  }

  /** A path of at most `links` links from the issuer. */
  predicate PathFrom(p: Policy, id: string, ids: seq<string>, now: int, links: nat) {
    0 < |ids| <= links + 1 && ids[0] == id && Path(p, ids, now)
  }

  /** The code's parent step is one link of a path. */
  lemma StepOfPath(p: Policy, id: string, next: string, now: int)
    ensures id !in p.anchors && ParentOf(p, id, now) == Some(next) <==> LeadsTo(p, id, next, now)
  {
  }

  lemma ShorterPath(p: Policy, id: string, ids: seq<string>, now: int, links: nat)
    requires PathFrom(p, id, ids, now, links) && |ids| > 1
    ensures id !in p.anchors && links > 0 && ParentOf(p, id, now) == Some(ids[1])
    ensures PathFrom(p, ids[1], ids[1..], now, links - 1)
  {
    StepOfPath(p, id, ids[1], now);
    hide LeadsTo, ParentOf;
  }

  lemma LongerPath(p: Policy, id: string, ids: seq<string>, now: int, links: nat)
    requires links > 0 && id !in p.anchors && ParentOf(p, id, now).Some?
    requires PathFrom(p, ParentOf(p, id, now).value, ids, now, links - 1)
    ensures PathFrom(p, id, [id] + ids, now, links)
  {
    StepOfPath(p, id, ids[0], now);
    hide LeadsTo, ParentOf;
    assert ([id] + ids)[1..] == ids;
  }

  /** What the walk reports at an issuer it has come to. */
  predicate ReportedAt(p: Policy, id: string, now: int, last: bool, c: Code) {
    match c
    case RevocationUnavailable => Unanswered(p.resolver, id)
    case IssuerRevoked =>
      || Withdrawn(p.resolver, id, now)
      || (id !in p.anchors && OnFile(p.resolver, id) && !InStanding(p.resolver.issuers[id], now, p.skew))
    case IssuerNotTrusted =>
      id !in p.anchors &&
      (!OnFile(p.resolver, id)
       || (InStanding(p.resolver.issuers[id], now, p.skew) &&
           (last || p.resolver.issuers[id].parent.None? || p.resolver.issuers[id].parent.value == "")))
    case _ => false
  }

  /** A code is reported by the walk exactly when some issuer reached within the bound calls for it. */
  lemma {:induction false} WalkCodes(p: Policy, id: string, now: int, links: nat, c: Code)
    ensures c in WalkFindings(p, id, now, links) <==>
            exists ids :: PathFrom(p, id, ids, now, links) && ReportedAt(p, ids[|ids| - 1], now, |ids| == links + 1, c)
    decreases links
  {
    hide Path, Withdrawn, Unanswered, RevocationFindings;
    HereCodes(p, id, now, links, c);
    if links > 0 && id !in p.anchors && ParentOf(p, id, now).Some? {
      WalkCodes(p, ParentOf(p, id, now).value, now, links - 1, c);
    }
    hide ParentOf, WalkFindings, ReportedAt;
    if c in WalkFindings(p, id, now, links) {
      if ReportedAt(p, id, now, links == 0, c) {
        OnePath(p, id, now, links);
        assert ReportedAt(p, [id][|[id]| - 1], now, |[id]| == links + 1, c);
      } else {
        var ids :| PathFrom(p, ParentOf(p, id, now).value, ids, now, links - 1)
                   && ReportedAt(p, ids[|ids| - 1], now, |ids| == links, c);
        LongerPath(p, id, ids, now, links);
        var longer := [id] + ids;
        assert longer[|longer| - 1] == ids[|ids| - 1] && |longer| == |ids| + 1;
      }
    }
    forall ids | PathFrom(p, id, ids, now, links) && ReportedAt(p, ids[|ids| - 1], now, |ids| == links + 1, c)
      ensures c in WalkFindings(p, id, now, links)
    {
      if |ids| > 1 {
        ShorterPath(p, id, ids, now, links);
        assert ids[1..][|ids[1..]| - 1] == ids[|ids| - 1];
      }
    }
  }

  lemma OnePath(p: Policy, id: string, now: int, links: nat)
    ensures PathFrom(p, id, [id], now, links)
  {
  }

  /** One step of the walk: what it reports here, and where it goes on. */
  lemma HereCodes(p: Policy, id: string, now: int, links: nat, c: Code)
    ensures c in WalkFindings(p, id, now, links) <==>
            || ReportedAt(p, id, now, links == 0, c)
            || (links > 0 && id !in p.anchors && ParentOf(p, id, now).Some?
                && c in WalkFindings(p, ParentOf(p, id, now).value, now, links - 1))
  {
    TargetCodes(p.resolver, id, IssuerRevoked, now, c);
    StandingMeans(p, id, now);
    hide Withdrawn, Unanswered, RevocationFindings, InStanding, OutOfStanding, OnFile, Known;
  }

  lemma StandingMeans(p: Policy, id: string, now: int)
    ensures Known(p.resolver, id) <==> OnFile(p.resolver, id)
    ensures OnFile(p.resolver, id) ==>
              (OutOfStanding(p.resolver.issuers[id], now, p.skew) <==>
               !InStanding(p.resolver.issuers[id], now, p.skew))
  {
  }

  /** The walk returns an anchor exactly when a path within the bound ends at it. */
  lemma {:induction false} WalkMeans(p: Policy, id: string, now: int, links: nat, anchor: string)
    ensures Walk(p, id, now, links) == Some(anchor) <==>
            anchor in p.anchors && exists ids :: PathFrom(p, id, ids, now, links) && ids[|ids| - 1] == anchor
    decreases links
  {
    if links > 0 && id !in p.anchors && ParentOf(p, id, now).Some? {
      WalkMeans(p, ParentOf(p, id, now).value, now, links - 1, anchor);
    }
    hide ParentOf, Path;
    if Walk(p, id, now, links) == Some(anchor) {
      if id in p.anchors {
        OnePath(p, id, now, links);
        assert [id][|[id]| - 1] == anchor;
      } else {
        var ids :| PathFrom(p, ParentOf(p, id, now).value, ids, now, links - 1) && ids[|ids| - 1] == anchor;
        LongerPath(p, id, ids, now, links);
        assert ([id] + ids)[|[id] + ids| - 1] == anchor;
      }
    }
    forall ids | anchor in p.anchors && PathFrom(p, id, ids, now, links) && ids[|ids| - 1] == anchor
      ensures Walk(p, id, now, links) == Some(anchor)
    {
      if |ids| > 1 {
        ShorterPath(p, id, ids, now, links);
        assert ids[1..][|ids[1..]| - 1] == anchor;
      }
    }
  }

  /** A path to an anchor on which nothing stands against any issuer, the anchor included. */
  ghost predicate AnchoredBy(p: Policy, id: string, ids: seq<string>, now: int, links: nat) {
    && PathFrom(p, id, ids, now, links) && ids[|ids| - 1] in p.anchors
    && forall i :: 0 <= i < |ids| ==> Clear(p.resolver, ids[i], now)
  }

  /** The walk reports nothing exactly when such a path exists. */
  lemma {:induction false} WalkAccepts(p: Policy, id: string, now: int, links: nat)
    ensures WalkFindings(p, id, now, links) == {} <==> exists ids :: AnchoredBy(p, id, ids, now, links)
    decreases links
  {
    hide Clear;
    HereEmpty(p, id, now, links);
    if links > 0 && id !in p.anchors && ParentOf(p, id, now).Some? {
      WalkAccepts(p, ParentOf(p, id, now).value, now, links - 1);
    }
    hide ParentOf, WalkFindings, Path;
    if WalkFindings(p, id, now, links) == {} {
      if id in p.anchors {
        OnePath(p, id, now, links);
        assert AnchoredBy(p, id, [id], now, links);
      } else {
        var parent := ParentOf(p, id, now).value;
        var ids :| AnchoredBy(p, parent, ids, now, links - 1);
        LongerPath(p, id, ids, now, links);
        assert AnchoredBy(p, id, [id] + ids, now, links);
      }
    }
    forall ids | AnchoredBy(p, id, ids, now, links)
      ensures WalkFindings(p, id, now, links) == {}
    {
      if |ids| > 1 {
        ShorterPath(p, id, ids, now, links);
        assert AnchoredBy(p, ids[1], ids[1..], now, links - 1);
      }
    }
  }

  lemma HereEmpty(p: Policy, id: string, now: int, links: nat)
    ensures WalkFindings(p, id, now, links) == {} <==>
            && Clear(p.resolver, id, now)
            && (|| id in p.anchors
                || (links > 0 && ParentOf(p, id, now).Some?
                    && WalkFindings(p, ParentOf(p, id, now).value, now, links - 1) == {}))
  {
    ClearMeans(p.resolver, id, IssuerRevoked, now);
    StandingMeans(p, id, now);
    hide Clear, RevocationFindings, InStanding, OutOfStanding, OnFile, Known;
  }

  /******* Accepted documents *******/

  /** The proof is well-formed and current, and names the audience and an allowed algorithm. */
  predicate ProofIsCurrent(proof: Proof, p: Policy, now: int) {
    && proof.algorithm in p.algorithms
    && proof.created.Ms? && proof.expires.Ms? && proof.created.t < proof.expires.t
    && proof.created.t <= now + p.skew && now - p.skew < proof.expires.t
    && now - proof.created.t <= p.maxAge + p.skew
    && p.audience != "" && p.audience in proof.audience
  }

  /** The document's own window, where it states one, contains `now` up to skew. */
  predicate DocumentIsCurrent(doc: Document, p: Policy, now: int) {
    && (doc.start.Some? ==> doc.start.value.Ms? && doc.start.value.t <= now + p.skew)
    && (doc.end.Some? ==> doc.end.value.Ms? && doc.end.value.t > now - p.skew)
  }

  /** The key is the one named, fits the proof's algorithm, and was valid when the proof was made. */
  predicate KeyFits(key: VerificationKey, proof: Proof, skew: int) {
    && key.id == proof.keyId && key.algorithm == proof.algorithm && key.jwkAlgorithm == Some(proof.algorithm)
    && key.proofVerified && key.status != UnknownKeyStatus && (key.status == RetiredKey ==> key.validUntil.Some?)
    && key.validFrom.Ms? && (key.validUntil.Some? ==> key.validUntil.value.Ms?)
    && (proof.created.Ms? ==>
          && key.validFrom.t - skew <= proof.created.t
          && (key.validUntil.Some? ==> proof.created.t < key.validUntil.value.t + skew))
    && key.revokedAt != Some(Unparseable)
  }

  /** The document names no signer, or the key's controller, or its issuer. */
  predicate SignerIsBound(doc: Document, key: VerificationKey) {
    doc.signer.None? || doc.signer.value == "" || doc.signer.value == key.controller || doc.signer.value == key.issuer
  }

  lemma EarlyAccepts(doc: Document, proof: Proof, p: Policy, now: int)
    ensures EarlyFindings(doc, proof, p, now) == {} <==> ProofIsCurrent(proof, p, now) && DocumentIsCurrent(doc, p, now)
  {
  }

  lemma KeyAccepts(key: VerificationKey, doc: Document, proof: Proof, now: int, skew: int)
    ensures KeyFindings(key, doc, proof, now, skew) == {} <==>
            && KeyFits(key, proof, skew) && SignerIsBound(doc, key) && key.status != RevokedKey
            && (key.revokedAt.Some? ==> key.revokedAt.value.Ms? && key.revokedAt.value.t > now)
  {
  }

  lemma TargetsAccept(res: Resolver, key: VerificationKey, doc: Document, now: int)
    ensures TargetFindings(res, key, doc, now) == {} <==>
            Clear(res, key.id, now) && Clear(res, key.issuer, now) && Clear(res, doc.id, now)
  {
    ClearMeans(res, key.id, KeyRevoked, now);
    ClearMeans(res, key.issuer, IssuerRevoked, now);
    ClearMeans(res, doc.id, DocumentRevoked, now);
    hide RevocationFindings, Clear;
  }

  /**
   A document is accepted, replay aside, exactly when its proof is well-formed and current, its own
   window contains the time, its key is known, fits, and is not revoked, its signer is bound to the
   key, nothing stands against key, issuer, document and the issuers up to an anchor, and its
   signature verifies under the key.
   */
  lemma AcceptsMeans(doc: Document, p: Policy, now: int)
    ensures Accepts(doc, p, now) <==>
            && doc.proof.Present?
            && var proof, res := doc.proof.proof, p.resolver;
            && ProofIsCurrent(proof, p, now) && DocumentIsCurrent(doc, p, now)
            && proof.keyId in res.keys && proof.keyId !in res.keysDown
            && var key := res.keys[proof.keyId];
            && KeyFits(key, proof, p.skew) && key.status != RevokedKey
            && (key.revokedAt.Some? ==> key.revokedAt.value.Ms? && key.revokedAt.value.t > now)
            && SignerIsBound(doc, key)
            && Clear(res, key.id, now) && Clear(res, key.issuer, now) && Clear(res, doc.id, now)
            && (exists ids :: AnchoredBy(p, key.issuer, ids, now, p.maxDepth))
            && key.material in doc.signedWith
  {
    if doc.proof.Present? {
      var proof, res := doc.proof.proof, p.resolver;
      EarlyAccepts(doc, proof, p, now);
      if proof.keyId in res.keys && proof.keyId !in res.keysDown && ProofIsCurrent(proof, p, now) {
        var key := res.keys[proof.keyId];
        KeyAccepts(key, doc, proof, now, p.skew);
        WalkAccepts(p, key.issuer, now, p.maxDepth);
        TargetsAccept(res, key, doc, now);
      }
      hide EarlyFindings, KeyFindings, WalkFindings, TargetFindings, ProofIsCurrent, DocumentIsCurrent, KeyFits;
      hide SignerIsBound, Clear, AnchoredBy;
    }
  }

  /******* Every code *******/

  predicate WellTimed(proof: Proof) {
    proof.created.Ms? && proof.expires.Ms? && proof.created.t < proof.expires.t
  }

  /** When a well-formed proof or its document is at fault by itself. */
  predicate AtFault(doc: Document, proof: Proof, p: Policy, now: int, c: Code) {
    match c
    case AlgorithmNotAllowed => proof.algorithm !in p.algorithms
    case ProofMalformed => !WellTimed(proof)
    case ProofNotYetValid => WellTimed(proof) && now + p.skew < proof.created.t
    case ProofExpired => WellTimed(proof) && proof.expires.t <= now - p.skew
    case ProofTooOld => WellTimed(proof) && proof.created.t + p.maxAge + p.skew < now
    case DocumentNotYetValid => doc.start.Some? && (doc.start.value.Unparseable? || now + p.skew < doc.start.value.t)
    case DocumentExpired => doc.end.Some? && (doc.end.value.Unparseable? || doc.end.value.t <= now - p.skew)
    case AudienceMismatch => p.audience == "" || p.audience !in proof.audience
    case _ => false
  }

  /** When some issuer reached from the key's issuer calls for the code. */
  ghost predicate WalkedInto(p: Policy, id: string, now: int, c: Code) {
    exists ids :: PathFrom(p, id, ids, now, p.maxDepth)
                  && ReportedAt(p, ids[|ids| - 1], now, |ids| == p.maxDepth + 1, c)
  }

  /** When a document with a known key is at fault because of the key, its issuers or the signature. */
  ghost predicate AtFaultWithKey(
      doc: Document, proof: Proof, key: VerificationKey, p: Policy, now: int, c: Code)
  {
    var res := p.resolver;
    match c
    case KeyInvalid => !KeyFits(key, proof, p.skew) || !SignerIsBound(doc, key)
    case KeyRevoked =>
      || key.status == RevokedKey || Withdrawn(res, key.id, now)
      || (key.revokedAt.Some? && key.revokedAt.value.Ms? && key.revokedAt.value.t <= now)
    case IssuerRevoked => Withdrawn(res, key.issuer, now) || WalkedInto(p, key.issuer, now, c)
    case IssuerNotTrusted => WalkedInto(p, key.issuer, now, c)
    case DocumentRevoked => Withdrawn(res, doc.id, now)
    case RevocationUnavailable =>
      || Unanswered(res, key.id) || Unanswered(res, key.issuer) || Unanswered(res, doc.id)
      || WalkedInto(p, key.issuer, now, c)
    case SignatureInvalid => WellTimed(proof) && proof.algorithm in p.algorithms && key.material !in doc.signedWith
    case _ => false
  }

  lemma EarlyCodes(doc: Document, proof: Proof, p: Policy, now: int, c: Code)
    ensures c in EarlyFindings(doc, proof, p, now) <==> AtFault(doc, proof, p, now, c)
  {
  }

  lemma KeyCodes(key: VerificationKey, doc: Document, proof: Proof, now: int, skew: int, c: Code)
    ensures c in KeyFindings(key, doc, proof, now, skew) <==>
            || (c == KeyInvalid && !(KeyFits(key, proof, skew) && SignerIsBound(doc, key)))
            || (c == KeyRevoked &&
                (key.status == RevokedKey
                 || (key.revokedAt.Some? && key.revokedAt.value.Ms? && key.revokedAt.value.t <= now)))
  {
  }

  lemma TrustCodes(doc: Document, proof: Proof, key: VerificationKey, p: Policy, now: int, c: Code)
    ensures c in TrustFindings(doc, proof, key, p, now) <==>
            AtFaultWithKey(doc, proof, key, p, now, c) && c != SignatureInvalid
  {
    KeyCodes(key, doc, proof, now, p.skew, c);
    WalkCodes(p, key.issuer, now, p.maxDepth, c);
    TargetCodes(p.resolver, key.id, KeyRevoked, now, c);
    TargetCodes(p.resolver, key.issuer, IssuerRevoked, now, c);
    TargetCodes(p.resolver, doc.id, DocumentRevoked, now, c);
    hide KeyFindings, WalkFindings, RevocationFindings, KeyFits, SignerIsBound, Withdrawn, Unanswered, PathFrom;
    assert WalkedInto(p, key.issuer, now, c) <==> c in WalkFindings(p, key.issuer, now, p.maxDepth);
    hide WalkedInto;
  }

  /** Verification reports a code, replay aside, exactly when the fields call for it. */
  lemma FindingCodes(doc: Document, p: Policy, now: int, c: Code)
    ensures c in Findings(doc, p, now) <==>
            match doc.proof
            case Missing => c == ProofMissing
            case Malformed => c == ProofMalformed
            case Present(proof) =>
              || AtFault(doc, proof, p, now, c)
              || (if proof.keyId in p.resolver.keys && proof.keyId !in p.resolver.keysDown
                  then AtFaultWithKey(doc, proof, p.resolver.keys[proof.keyId], p, now, c)
                  else c == KeyNotFound)
  {
    if doc.proof.Present? {
      var proof := doc.proof.proof;
      EarlyCodes(doc, proof, p, now, c);
      EarlyCodes(doc, proof, p, now, ProofMalformed);
      EarlyCodes(doc, proof, p, now, AlgorithmNotAllowed);
      if proof.keyId in p.resolver.keys && proof.keyId !in p.resolver.keysDown {
        var key := p.resolver.keys[proof.keyId];
        TrustCodes(doc, proof, key, p, now, c);
        TrustCodes(doc, proof, key, p, now, ProofMalformed);
        TrustCodes(doc, proof, key, p, now, AlgorithmNotAllowed);
        hide EarlyFindings, TrustFindings, KeyFits, SignerIsBound, Withdrawn, Unanswered, WalkedInto;
      }
    }
  }

  /******* Replay keys *******/

  predicate WithoutNul(s: string) {
    forall i :: 0 <= i < |s| ==> s[i] != '\0'
  }

  lemma FirstNul(s: string, a: string, b: string)
    requires WithoutNul(a) && s == a + "\0" + b
    ensures |a| < |s| && s[|a|] == '\0' && forall i :: 0 <= i < |a| ==> s[i] != '\0'
  {
    assert forall i :: 0 <= i < |a| ==> s[i] == a[i];
  }

  lemma NulSplits(a: string, b: string, c: string, d: string)
    requires WithoutNul(a) && WithoutNul(c) && a + "\0" + b == c + "\0" + d
    ensures a == c && b == d
  {
    var s := a + "\0" + b;
    FirstNul(s, a, b);
    FirstNul(s, c, d);
    assert |a| == |c|;
    assert s[..|a|] == a && s[..|c|] == c;
    assert s[|a| + 1..] == b && s[|c| + 1..] == d;
  }

  /** Replay keys of proofs and policies without NUL characters agree only when key, audience and
      nonce all agree. */
  lemma ReplayKeysDiffer(a: Proof, p: Policy, b: Proof, q: Policy)
    requires WithoutNul(a.keyId) && WithoutNul(p.audience) && WithoutNul(b.keyId) && WithoutNul(q.audience)
    ensures ReplayKey(a, p) == ReplayKey(b, q) <==>
            a.keyId == b.keyId && p.audience == q.audience && a.nonce == b.nonce
  {
    if ReplayKey(a, p) == ReplayKey(b, q) {
      assert ReplayKey(a, p) == a.keyId + "\0" + (p.audience + "\0" + a.nonce);
      assert ReplayKey(b, q) == b.keyId + "\0" + (q.audience + "\0" + b.nonce);
      NulSplits(a.keyId, p.audience + "\0" + a.nonce, b.keyId, q.audience + "\0" + b.nonce);
      NulSplits(p.audience, a.nonce, q.audience, b.nonce);
    }
  }
}
