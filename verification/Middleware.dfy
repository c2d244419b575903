/**
 The middleware pipeline of `middleware.ts` as interleaved atomic steps of any number of requests
 over a shared usage store and replay cache.

 The usage store is assumed to be what its interface declares: `compareAndSet` atomically replaces
 the previous snapshot by the next one, and fails when the stored snapshot is a different one.
 */
module Middleware {
  import opened Wrappers
  import opened Authority
  import opened Runs
  import Decimals
  import Evaluator
  import Replay
  import Trust

  /******* Requests and states *******/

  /** A request as extracted from HTTP: signed documents, their contents, and evaluation extensions. */
  datatype Inbound = Inbound(
    mandateDoc: Trust.Document, parentDoc: Option<Trust.Document>, envelopeDoc: Trust.Document,
    mandate: Mandate, parent: Option<Mandate>, envelope: Envelope, digestMatches: bool,
    depth: Option<int>, consumption: Option<Consumption>,
    commerce: Option<CommerceContext>, rwa: Option<RwaContext>)

  datatype Policies = Policies(mandate: Trust.Policy, parent: Trust.Policy, envelope: Trust.Policy)

  datatype Refusal = NotAuthentic | Replayed | DigestMismatch | Denied | Unavailable | Conflict

  /** How far a request has come. `loadedAt` counts the commits that preceded its load. */
  datatype Phase =
    | Arrived
    | Authentic
    | Loaded(previous: UsageSnapshot, loadedAt: nat)
    | Approved(previous: UsageSnapshot, next: UsageSnapshot, loadedAt: nat, time: Instant)
    | Committed
    | Served
    | Refused(why: Refusal)

  /** A successful compare-and-set: which request, evaluated at what time. */
  datatype Commit = Commit(index: nat, time: Instant)

  datatype State = State(
    store: map<string, UsageSnapshot>, replay: Replay.Entries, phases: seq<Phase>, log: seq<Commit>)

  datatype Config = Config(requests: seq<Inbound>, policies: Policies)

  /** An absent record loads as the empty snapshot. */
  function Load(store: map<string, UsageSnapshot>, id: string): UsageSnapshot {
    if id in store then store[id] else EMPTY_USAGE
  }

  /** The evaluation request, without usage. */
  function Evaluated(x: Inbound, time: Instant): Request {
    Request(time, x.mandate, x.parent, x.depth, x.envelope, EMPTY_USAGE, x.consumption, x.commerce, x.rwa)
  }

  /******* Steps *******/

  datatype Action =
    | Authenticate(i: nat, mandateTime: int, parentTime: int, envelopeTime: int)
    | LoadUsage(i: nat)
    | EvaluateAt(i: nat, time: Instant)
    | CompareAndSet(i: nat)
    | Serve(i: nat)

  /** Mandate and parent documents are reusable: they are verified without consuming a nonce. */
  ghost predicate GrantVerifies(x: Inbound, ps: Policies, mandateTime: int, parentTime: int) {
    && Trust.Accepts(x.mandateDoc, ps.mandate, mandateTime)
    && (x.parentDoc.Some? ==> Trust.Accepts(x.parentDoc.value, ps.parent, parentTime))
  }

  ghost predicate EnvelopeVerifies(x: Inbound, ps: Policies, envelopeTime: int) {
    && Trust.Accepts(x.envelopeDoc, ps.envelope, envelopeTime)
    && x.envelopeDoc.proof.Present? && x.envelopeDoc.proof.proof.expires.Ms?
  }

  function NonceOf(x: Inbound, ps: Policies): string
    requires x.envelopeDoc.proof.Present?
  {
    Trust.ReplayKey(x.envelopeDoc.proof.proof, ps.envelope)
  }

  /** Verify the documents, consume the Envelope's nonce, and compare the request digest. */
  ghost function AuthenticateStep(s: State, x: Inbound, ps: Policies, a: Action): State
    requires a.Authenticate? && a.i < |s.phases|
  {
    if !GrantVerifies(x, ps, a.mandateTime, a.parentTime) || !EnvelopeVerifies(x, ps, a.envelopeTime) then
      s.(phases := s.phases[a.i := Refused(NotAuthentic)])
    else if Replay.Blocks(s.replay, NonceOf(x, ps), a.envelopeTime) then
      s.(phases := s.phases[a.i := Refused(Replayed)])
    else
      s.(replay := Replay.Stored(s.replay, NonceOf(x, ps), x.envelopeDoc.proof.proof.expires.t, a.envelopeTime),
         phases := s.phases[a.i := if x.digestMatches then Authentic else Refused(DigestMismatch)])
  }

  /** The verdict of `evaluateAuthority` on the loaded usage. */
  ghost function Verdict(x: Inbound, phase: Phase, time: Instant): Phase
    requires phase.Loaded?
  {
    match Evaluate(With(Evaluated(x, time), phase.previous))
    case Threw => Refused(Unavailable)
    case Returned(result) =>
      if result.reasons != {} then Refused(Denied)
      else Approved(phase.previous, result.nextUsage, phase.loadedAt, time)
  }

  ghost function CompareAndSetStep(s: State, x: Inbound, i: nat): State
    requires i < |s.phases| && s.phases[i].Approved?
  {
    var phase := s.phases[i];
    if Load(s.store, x.mandate.id) == phase.previous then
      s.(store := s.store[x.mandate.id := phase.next], phases := s.phases[i := Committed],
         log := s.log + [Commit(i, phase.time)])
    else
      s.(phases := s.phases[i := Refused(Conflict)])
  }

  /** One atomic step; an action whose turn it is not changes nothing. */
  ghost function Advance(cfg: Config, s: State, a: Action): State
    requires |s.phases| == |cfg.requests|
  {
    if a.i >= |cfg.requests| then s
    else
      var x, phase := cfg.requests[a.i], s.phases[a.i];
      match a
      case Authenticate(_, _, _, _) => if phase.Arrived? then AuthenticateStep(s, x, cfg.policies, a) else s
      case LoadUsage(i) =>
        if phase.Authentic? then s.(phases := s.phases[i := Loaded(Load(s.store, x.mandate.id), |s.log|)]) else s
      case EvaluateAt(i, time) =>
        if phase.Loaded? then s.(phases := s.phases[i := Verdict(x, phase, time)]) else s
      case CompareAndSet(i) => if phase.Approved? then CompareAndSetStep(s, x, i) else s
      case Serve(i) => if phase.Committed? then s.(phases := s.phases[i := Served]) else s
  }

  function Initial(cfg: Config, store: map<string, UsageSnapshot>, replay: Replay.Entries): State {
    State(store, replay, seq(|cfg.requests|, _ => Arrived), [])
  }

  /** The state after a sequence of actions, in any interleaving. */
  ghost function Execute(cfg: Config, start: State, actions: seq<Action>): (s: State)
    requires |start.phases| == |cfg.requests|
    ensures |s.phases| == |cfg.requests|
  {
    if actions == [] then start else Advance(cfg, Execute(cfg, start, actions[..|actions| - 1]), actions[|actions| - 1])
  }

  /******* The serial order *******/

  predicate OnMandate(cfg: Config, c: Commit, id: string) {
    c.index < |cfg.requests| && cfg.requests[c.index].mandate.id == id
  }

  /** The requests committed on mandate `id`, in commit order. */
  function CommittedOn(cfg: Config, log: seq<Commit>, id: string): seq<Request> {
    if log == [] then []
    else
      var front, c := CommittedOn(cfg, log[..|log| - 1], id), log[|log| - 1];
      if OnMandate(cfg, c, id) then front + [Evaluated(cfg.requests[c.index], c.time)] else front
  }

  /** The record of `id` after the first `n` commits. */
  function RecordAt(cfg: Config, start: map<string, UsageSnapshot>, log: seq<Commit>, id: string): UsageSnapshot {
    RunUsage(Load(start, id), CommittedOn(cfg, log, id))
  }

  /** Every record is the sequential fold of its committed requests, each allowed at its place. */
  ghost predicate Serial(cfg: Config, start: map<string, UsageSnapshot>, s: State) {
    forall id ::
      && AllowedRun(Load(start, id), CommittedOn(cfg, s.log, id))
      && Load(s.store, id) == RecordAt(cfg, start, s.log, id)
  }

  /** What a request in flight remembers is what the record was when it loaded it. */
  ghost predicate Remembers(cfg: Config, start: map<string, UsageSnapshot>, s: State, i: nat)
    requires i < |s.phases| && i < |cfg.requests|
  {
    var x, phase := cfg.requests[i], s.phases[i];
    && (phase.Loaded? || phase.Approved? ==>
          && phase.loadedAt <= |s.log|
          && phase.previous == RecordAt(cfg, start, s.log[..phase.loadedAt], x.mandate.id))
    && (phase.Approved? ==>
          && Allowed(With(Evaluated(x, phase.time), phase.previous))
          && phase.next == After(phase.previous, Evaluated(x, phase.time)))
  }

  predicate InLog(phase: Phase) {
    phase.Committed? || phase.Served?
  }

  /** The log names each committed request once, and only those. */
  ghost predicate LogMatches(s: State) {
    && (forall k :: 0 <= k < |s.log| ==>
          s.log[k].index < |s.phases| && InLog(s.phases[s.log[k].index]))
    && (forall k, l :: 0 <= k < l < |s.log| ==> s.log[k].index != s.log[l].index)
    && (forall i :: 0 <= i < |s.phases| && InLog(s.phases[i]) ==>
          exists k :: 0 <= k < |s.log| && s.log[k].index == i)
  }

  ghost predicate Invariant(cfg: Config, start: map<string, UsageSnapshot>, s: State) {
    && |s.phases| == |cfg.requests|
    && Serial(cfg, start, s)
    && (forall i :: 0 <= i < |s.phases| ==> Remembers(cfg, start, s, i))
    && LogMatches(s)
  }

  /******* Every step keeps the invariant *******/

  /** A step that only moves request `i` to another phase. */
  lemma PhaseChange(cfg: Config, start: map<string, UsageSnapshot>, s: State, s': State, i: nat)
    requires Invariant(cfg, start, s) && i < |s.phases|
    requires s'.store == s.store && s'.log == s.log && |s'.phases| == |s.phases|
    requires s'.phases == s.phases[i := s'.phases[i]] && InLog(s'.phases[i]) == InLog(s.phases[i])
    requires Remembers(cfg, start, s', i)
    ensures Invariant(cfg, start, s')
  {
    hide Allowed, RecordAt, AllowedRun, CommittedOn, After, With;
    forall j | 0 <= j < |s'.phases|
      ensures Remembers(cfg, start, s', j)
    {
      assert Remembers(cfg, start, s, j);
    }
    assert Serial(cfg, start, s');
    hide Remembers, Serial;
    assert LogMatches(s');
  }

  lemma VerdictRemembers(cfg: Config, start: map<string, UsageSnapshot>, s: State, i: nat, time: Instant)
    requires Invariant(cfg, start, s) && i < |s.phases| && s.phases[i].Loaded?
    ensures Invariant(cfg, start, s.(phases := s.phases[i := Verdict(cfg.requests[i], s.phases[i], time)]))
  {
    hide Allowed, Evaluate, RecordAt, Serial, LogMatches;
    var x := cfg.requests[i];
    var r := With(Evaluated(x, time), s.phases[i].previous);
    assert Remembers(cfg, start, s, i);
    AllowsExactlyAllowed(r);
    hide With, Next, Evaluated;
    PhaseChange(cfg, start, s, s.(phases := s.phases[i := Verdict(x, s.phases[i], time)]), i);
  }

  lemma CommittedExtends(cfg: Config, log: seq<Commit>, c: Commit, id: string)
    ensures CommittedOn(cfg, log + [c], id) ==
            if OnMandate(cfg, c, id)
            then CommittedOn(cfg, log, id) + [Evaluated(cfg.requests[c.index], c.time)]
            else CommittedOn(cfg, log, id)
  {
    hide Evaluated;
    assert (log + [c])[..|log|] == log;
  }

  lemma CommitSerial(cfg: Config, start: map<string, UsageSnapshot>, s: State, i: nat, id: string)
    requires Invariant(cfg, start, s) && i < |s.phases| && s.phases[i].Approved?
    requires Load(s.store, cfg.requests[i].mandate.id) == s.phases[i].previous
    ensures var s' := CompareAndSetStep(s, cfg.requests[i], i);
            && AllowedRun(Load(start, id), CommittedOn(cfg, s'.log, id))
            && Load(s'.store, id) == RecordAt(cfg, start, s'.log, id)
  {
    hide Allowed, Evaluated, AllowedRun, CommittedOn, After, RunUsage, LogMatches;
    var x, phase := cfg.requests[i], s.phases[i];
    assert Remembers(cfg, start, s, i);
    assert AllowedRun(Load(start, id), CommittedOn(cfg, s.log, id))
           && Load(s.store, id) == RecordAt(cfg, start, s.log, id);
    hide Serial, Invariant;
    CommittedExtends(cfg, s.log, Commit(i, phase.time), id);
    RunExtends(Load(start, id), CommittedOn(cfg, s.log, id), Evaluated(x, phase.time));
  }

  lemma CommitKeepsOthers(cfg: Config, start: map<string, UsageSnapshot>, s: State, i: nat, j: nat)
    requires Invariant(cfg, start, s) && i < |s.phases| && j < |s.phases| && s.phases[i].Approved?
    requires Load(s.store, cfg.requests[i].mandate.id) == s.phases[i].previous
    ensures Remembers(cfg, start, CompareAndSetStep(s, cfg.requests[i], i), j)
  {
    hide Allowed, RecordAt, After, With, Serial, LogMatches;
    var s' := CompareAndSetStep(s, cfg.requests[i], i);
    assert Remembers(cfg, start, s, j);
    if j != i && (s.phases[j].Loaded? || s.phases[j].Approved?) {
      assert s'.log[..s.phases[j].loadedAt] == s.log[..s.phases[j].loadedAt];
    }
  }

  lemma CommitKeepsLog(s: State, s': State, i: nat, c: Commit)
    requires LogMatches(s) && i < |s.phases| && !InLog(s.phases[i]) && c.index == i
    requires s'.phases == s.phases[i := Committed] && s'.log == s.log + [c]
    ensures LogMatches(s')
  {
    forall j | 0 <= j < |s'.phases| && InLog(s'.phases[j])
      ensures exists k :: 0 <= k < |s'.log| && s'.log[k].index == j
    {
      if j == i {
        assert s'.log[|s.log|].index == j;
      } else {
        var k :| 0 <= k < |s.log| && s.log[k].index == j;
        assert s'.log[k].index == j;
      }
    }
  }

  lemma CommitKeeps(cfg: Config, start: map<string, UsageSnapshot>, s: State, i: nat)
    requires Invariant(cfg, start, s) && i < |s.phases| && s.phases[i].Approved?
    requires Load(s.store, cfg.requests[i].mandate.id) == s.phases[i].previous
    ensures Invariant(cfg, start, CompareAndSetStep(s, cfg.requests[i], i))
  {
    hide Serial, Remembers, LogMatches, Load;
    var s' := CompareAndSetStep(s, cfg.requests[i], i);
    CommitKeepsLog(s, s', i, Commit(i, s.phases[i].time));
    AllSerial(cfg, start, s, i);
    hide CompareAndSetStep;
    forall j | 0 <= j < |s'.phases|
      ensures Remembers(cfg, start, s', j)
    {
      CommitKeepsOthers(cfg, start, s, i, j);
    }
  }

  lemma AllSerial(cfg: Config, start: map<string, UsageSnapshot>, s: State, i: nat)
    requires Invariant(cfg, start, s) && i < |s.phases| && s.phases[i].Approved?
    requires Load(s.store, cfg.requests[i].mandate.id) == s.phases[i].previous
    ensures Serial(cfg, start, CompareAndSetStep(s, cfg.requests[i], i))
  {
    hide AllowedRun, CommittedOn, RecordAt, Load, CompareAndSetStep;
    var s' := CompareAndSetStep(s, cfg.requests[i], i);
    forall id
      ensures AllowedRun(Load(start, id), CommittedOn(cfg, s'.log, id))
      ensures Load(s'.store, id) == RecordAt(cfg, start, s'.log, id)
    {
      CommitSerial(cfg, start, s, i, id);
    }
  }

  lemma CompareAndSetKeeps(cfg: Config, start: map<string, UsageSnapshot>, s: State, i: nat)
    requires Invariant(cfg, start, s) && i < |s.phases| && s.phases[i].Approved?
    ensures Invariant(cfg, start, CompareAndSetStep(s, cfg.requests[i], i))
  {
    hide AllowedRun, CommittedOn, RecordAt, Serial, LogMatches, Allowed, Load;
    if Load(s.store, cfg.requests[i].mandate.id) == s.phases[i].previous {
      CommitKeeps(cfg, start, s, i);
    } else {
      PhaseChange(cfg, start, s, CompareAndSetStep(s, cfg.requests[i], i), i);
    }
  }

  lemma StepKeeps(cfg: Config, start: map<string, UsageSnapshot>, s: State, a: Action)
    requires Invariant(cfg, start, s)
    ensures Invariant(cfg, start, Advance(cfg, s, a))
  {
    hide Serial, LogMatches, Allowed, CompareAndSetStep, GrantVerifies, EnvelopeVerifies;
    var s' := Advance(cfg, s, a);
    if a.i < |cfg.requests| {
      var phase := s.phases[a.i];
      if a.EvaluateAt? && phase.Loaded? {
        VerdictRemembers(cfg, start, s, a.i, a.time);
      } else if a.CompareAndSet? && phase.Approved? {
        CompareAndSetKeeps(cfg, start, s, a.i);
      } else if a.LoadUsage? && phase.Authentic? {
        LoadRemembers(cfg, start, s, a.i);
      } else {
        assert Remembers(cfg, start, s, a.i);
        PhaseChange(cfg, start, s, s', a.i);
      }
    }
  }

  lemma LoadRemembers(cfg: Config, start: map<string, UsageSnapshot>, s: State, i: nat)
    requires Invariant(cfg, start, s) && i < |s.phases| && s.phases[i].Authentic?
    ensures Invariant(cfg, start,
                      s.(phases := s.phases[i := Loaded(Load(s.store, cfg.requests[i].mandate.id), |s.log|)]))
  {
    hide Allowed, RecordAt, AllowedRun, CommittedOn, LogMatches, Load;
    assert s.log[..|s.log|] == s.log;
    PhaseChange(cfg, start, s, s.(phases := s.phases[i := Loaded(Load(s.store, cfg.requests[i].mandate.id), |s.log|)]),
                i);
  }

  lemma InitialInvariant(cfg: Config, store: map<string, UsageSnapshot>, replay: Replay.Entries)
    ensures Invariant(cfg, store, Initial(cfg, store, replay))
  {
    hide Allowed;
  }

  /**
   Serialisability: in every interleaving of any number of requests, each stored record is the
   sequential fold of `applyConsumption` over the requests committed on it, in commit order, and each
   of those is allowed by the evaluator at its place in that order.
   */
  lemma {:induction false} Serialisable(
      cfg: Config, store: map<string, UsageSnapshot>, replay: Replay.Entries, actions: seq<Action>)
    ensures Invariant(cfg, store, Execute(cfg, Initial(cfg, store, replay), actions))
  {
    hide Invariant, Advance;
    if actions == [] {
      InitialInvariant(cfg, store, replay);
    } else {
      Serialisable(cfg, store, replay, actions[..|actions| - 1]);
      StepKeeps(cfg, store, Execute(cfg, Initial(cfg, store, replay), actions[..|actions| - 1]),
                actions[|actions| - 1]);
    }
  }

  /******* Conflicts *******/

  lemma {:induction false} UnchangedWithoutCommit(cfg: Config, log: seq<Commit>, at: nat, id: string)
    requires at <= |log| && forall k :: at <= k < |log| ==> !OnMandate(cfg, log[k], id)
    ensures CommittedOn(cfg, log, id) == CommittedOn(cfg, log[..at], id)
  {
    hide Evaluated;
    if at == |log| {
      assert log[..at] == log;
    } else {
      assert !OnMandate(cfg, log[|log| - 1], id);
      UnchangedWithoutCommit(cfg, log[..|log| - 1], at, id);
      assert log[..|log| - 1][..at] == log[..at];
    }
  }

  lemma ConflictMeansChanged(cfg: Config, s: State, i: nat)
    requires |s.phases| == |cfg.requests| && i < |s.phases| && s.phases[i].Approved?
    requires Advance(cfg, s, CompareAndSet(i)).phases[i] == Refused(Conflict)
    ensures Load(s.store, cfg.requests[i].mandate.id) != s.phases[i].previous
  {
    hide Load;
  }

  /** A usage conflict arises only if another request committed on the same Mandate since this one's load. */
  lemma ConflictMeansCommit(cfg: Config, start: map<string, UsageSnapshot>, s: State, i: nat)
    requires Invariant(cfg, start, s) && i < |s.phases| && s.phases[i].Approved?
    requires Advance(cfg, s, CompareAndSet(i)).phases[i] == Refused(Conflict)
    ensures exists k :: s.phases[i].loadedAt <= k < |s.log| && s.log[k].index != i
                        && OnMandate(cfg, s.log[k], cfg.requests[i].mandate.id)
  {
    hide Advance, Load, CommittedOn, Allowed, AllowedRun, RunUsage, With, After, Evaluated, OnMandate;
    var phase, id := s.phases[i], cfg.requests[i].mandate.id;
    assert Remembers(cfg, start, s, i);
    ConflictMeansChanged(cfg, s, i);
    assert Load(s.store, id) == RecordAt(cfg, start, s.log, id);
    hide Serial, Remembers;
    if forall k :: phase.loadedAt <= k < |s.log| ==> !OnMandate(cfg, s.log[k], id) {
      UnchangedWithoutCommit(cfg, s.log, phase.loadedAt, id);
      assert false;
    }
  }

  /******* At most once *******/

  lemma {:induction false} CommittedPrefix(cfg: Config, log: seq<Commit>, n: nat, id: string)
    requires n <= |log|
    ensures CommittedOn(cfg, log[..n], id) <= CommittedOn(cfg, log, id)
  {
    hide Evaluated;
    if n == |log| {
      assert log[..n] == log;
    } else {
      CommittedPrefix(cfg, log[..|log| - 1], n, id);
      assert log[..|log| - 1][..n] == log[..n];
    }
  }

  /** Where commit `k` stands among the commits on its Mandate. */
  function Position(cfg: Config, log: seq<Commit>, k: nat, id: string): nat
    requires k < |log|
  {
    |CommittedOn(cfg, log[..k], id)|
  }

  lemma CommittedAt(cfg: Config, log: seq<Commit>, k: nat, id: string)
    requires k < |log| && OnMandate(cfg, log[k], id)
    ensures Position(cfg, log, k, id) < |CommittedOn(cfg, log[..k + 1], id)|
    ensures Position(cfg, log, k, id) < |CommittedOn(cfg, log, id)|
    ensures CommittedOn(cfg, log, id)[Position(cfg, log, k, id)] == Evaluated(cfg.requests[log[k].index], log[k].time)
  {
    hide Evaluated;
    CommittedPrefix(cfg, log, k + 1, id);
    assert log[..k + 1] == log[..k] + [log[k]];
    CommittedExtends(cfg, log[..k], log[k], id);
  }

  /** A request's effective consumption does not depend on when it is evaluated. */
  function Spends(x: Inbound): Delta {
    Effective(Evaluated(x, Unparseable))
  }

  lemma SpendsAnyTime(x: Inbound, time: Instant)
    ensures Effective(Evaluated(x, time)) == Spends(x)
  {
  }

  lemma OrderedCommits(cfg: Config, log: seq<Commit>, k: nat, l: nat, id: string)
    requires k < l < |log| && OnMandate(cfg, log[k], id) && OnMandate(cfg, log[l], id)
    ensures Position(cfg, log, k, id) < Position(cfg, log, l, id) < |CommittedOn(cfg, log, id)|
  {
    hide CommittedOn, Evaluated;
    CommittedAt(cfg, log, l, id);
    CommittedAt(cfg, log[..l], k, id);
    assert log[..l][..k] == log[..k];
  }

  /** Nothing commits on a Mandate after a commit that consumes it, and no idempotency key commits twice. */
  lemma CommitsExclude(cfg: Config, start: map<string, UsageSnapshot>, s: State, k: nat, l: nat)
    requires Invariant(cfg, start, s) && k < l < |s.log|
    requires OnMandate(cfg, s.log[k], cfg.requests[s.log[k].index].mandate.id)
    requires OnMandate(cfg, s.log[l], cfg.requests[s.log[k].index].mandate.id)
    ensures var first, second := Spends(cfg.requests[s.log[k].index]), Spends(cfg.requests[s.log[l].index]);
            && !first.consume
            && (first.idempotencyKey != "" ==> first.idempotencyKey != second.idempotencyKey)
  {
    var log, id := s.log, cfg.requests[s.log[k].index].mandate.id;
    var run := CommittedOn(cfg, log, id);
    assert AllowedRun(Load(start, id), run);
    hide Invariant, Allowed, AllowedRun, CommittedOn, Evaluated, Effective, Position, Spends, Load;
    OrderedCommits(cfg, log, k, l, id);
    CommittedAt(cfg, log, k, id);
    CommittedAt(cfg, log, l, id);
    SpendsAnyTime(cfg.requests[log[k].index], log[k].time);
    SpendsAnyTime(cfg.requests[log[l].index], log[l].time);
    var i, j := Position(cfg, log, k, id), Position(cfg, log, l, id);
    if Effective(run[i]).consume {
      ConsumingIsLast(Load(start, id), run, i);
    } else if Effective(run[i]).idempotencyKey != "" {
      KeysAreUsedOnce(Load(start, id), run, i, j);
    }
  }

  /** A one-time Mandate reaches the protected handler at most once, whatever the interleaving. */
  lemma OneTimeServedOnce(
      cfg: Config, store: map<string, UsageSnapshot>, replay: Replay.Entries, actions: seq<Action>, i: nat, j: nat)
    requires i < |cfg.requests| && j < |cfg.requests| && i != j
    requires cfg.requests[i].mandate.id == cfg.requests[j].mandate.id
    requires OneTime(cfg.requests[i].mandate) && OneTime(cfg.requests[j].mandate)
    ensures var s := Execute(cfg, Initial(cfg, store, replay), actions);
            !(InLog(s.phases[i]) && InLog(s.phases[j]))
  {
    var s := Execute(cfg, Initial(cfg, store, replay), actions);
    Serialisable(cfg, store, replay, actions);
    assert Spends(cfg.requests[i]).consume && Spends(cfg.requests[j]).consume;
    hide Execute, Serial, Remembers, Spends, OneTime;
    if InLog(s.phases[i]) && InLog(s.phases[j]) {
      var k :| 0 <= k < |s.log| && s.log[k].index == i;
      var l :| 0 <= l < |s.log| && s.log[l].index == j;
      if k < l {
        CommitsExclude(cfg, store, s, k, l);
      } else {
        CommitsExclude(cfg, store, s, l, k);
      }
    }
  }

  /** No non-empty idempotency key commits twice on a Mandate, whatever the interleaving. */
  lemma KeysCommitOnce(
      cfg: Config, store: map<string, UsageSnapshot>, replay: Replay.Entries, actions: seq<Action>, i: nat, j: nat)
    requires i < |cfg.requests| && j < |cfg.requests| && i != j
    requires cfg.requests[i].mandate.id == cfg.requests[j].mandate.id
    requires Spends(cfg.requests[i]).idempotencyKey == Spends(cfg.requests[j]).idempotencyKey != ""
    ensures var s := Execute(cfg, Initial(cfg, store, replay), actions);
            !(InLog(s.phases[i]) && InLog(s.phases[j]))
  {
    var s := Execute(cfg, Initial(cfg, store, replay), actions);
    Serialisable(cfg, store, replay, actions);
    hide Execute, Serial, Remembers, Spends;
    if InLog(s.phases[i]) && InLog(s.phases[j]) {
      var k :| 0 <= k < |s.log| && s.log[k].index == i;
      var l :| 0 <= l < |s.log| && s.log[l].index == j;
      if k < l {
        CommitsExclude(cfg, store, s, k, l);
      } else {
        CommitsExclude(cfg, store, s, l, k);
      }
    }
  }

  /******* Call limits and budgets under interleaving *******/

  /** The requests on mandate `id` that have reached the protected handler. */
  function Handled(cfg: Config, s: State, id: string): set<nat>
    requires |s.phases| == |cfg.requests|
  {
    set i | 0 <= i < |s.phases| && s.phases[i].Served? && cfg.requests[i].mandate.id == id
  }

  function IndicesOn(cfg: Config, log: seq<Commit>, id: string): seq<nat> {
    if log == [] then []
    else
      var front, c := IndicesOn(cfg, log[..|log| - 1], id), log[|log| - 1];
      if OnMandate(cfg, c, id) then front + [c.index] else front
  }

  lemma {:induction false} IndicesCount(cfg: Config, log: seq<Commit>, id: string)
    ensures |IndicesOn(cfg, log, id)| == |CommittedOn(cfg, log, id)|
  {
    hide Evaluated;
    if log != [] {
      IndicesCount(cfg, log[..|log| - 1], id);
    }
  }

  lemma {:induction false} IndexListed(cfg: Config, log: seq<Commit>, k: nat, id: string)
    requires k < |log| && OnMandate(cfg, log[k], id)
    ensures log[k].index in IndicesOn(cfg, log, id)
  {
    if k < |log| - 1 {
      IndexListed(cfg, log[..|log| - 1], k, id);
    }
  }

  lemma {:induction false} SetOfSequence(s: set<nat>, list: seq<nat>)
    requires forall x :: x in s ==> x in list
    ensures |s| <= |list|
  {
    if list == [] {
      assert s == {};
    } else {
      var last := list[|list| - 1];
      assert forall x :: x in s - {last} ==> x in list[..|list| - 1];
      SetOfSequence(s - {last}, list[..|list| - 1]);
    }
  }

  lemma HandledAreCommitted(cfg: Config, start: map<string, UsageSnapshot>, s: State, id: string)
    requires Invariant(cfg, start, s)
    ensures |Handled(cfg, s, id)| <= |CommittedOn(cfg, s.log, id)|
  {
    hide Serial, Remembers, CommittedOn, IndicesOn;
    forall i | i in Handled(cfg, s, id)
      ensures i in IndicesOn(cfg, s.log, id)
    {
      var k :| 0 <= k < |s.log| && s.log[k].index == i;
      IndexListed(cfg, s.log, k, id);
    }
    SetOfSequence(Handled(cfg, s, id), IndicesOn(cfg, s.log, id));
    IndicesCount(cfg, s.log, id);
  }

  /** Every request on mandate `id` carries the Mandate `m`. */
  predicate Carries(cfg: Config, id: string, m: Mandate) {
    forall i :: 0 <= i < |cfg.requests| && cfg.requests[i].mandate.id == id ==> cfg.requests[i].mandate == m
  }

  lemma {:induction false} CommittedCarry(cfg: Config, log: seq<Commit>, id: string, m: Mandate)
    requires Carries(cfg, id, m)
    ensures forall k :: 0 <= k < |CommittedOn(cfg, log, id)| ==> CommittedOn(cfg, log, id)[k].mandate == m
  {
    if log != [] {
      CommittedCarry(cfg, log[..|log| - 1], id, m);
    }
  }

  /** Every request on mandate `id` consumes at least one call. */
  predicate CallEach(cfg: Config, id: string) {
    forall i :: 0 <= i < |cfg.requests| && cfg.requests[i].mandate.id == id ==> Spends(cfg.requests[i]).calls >= 1
  }

  lemma {:induction false} CommittedCallEach(cfg: Config, log: seq<Commit>, id: string)
    requires CallEach(cfg, id)
    ensures forall k :: 0 <= k < |CommittedOn(cfg, log, id)| ==> Effective(CommittedOn(cfg, log, id)[k]).calls >= 1
  {
    hide Effective, Evaluated, Spends;
    if log != [] {
      CommittedCallEach(cfg, log[..|log| - 1], id);
      var c := log[|log| - 1];
      if OnMandate(cfg, c, id) {
        SpendsAnyTime(cfg.requests[c.index], c.time);
      }
    }
  }

  /** Handler invocations never exceed `max_calls` minus the starting calls. */
  lemma HandledWithinCalls(
      cfg: Config, store: map<string, UsageSnapshot>, replay: Replay.Entries, actions: seq<Action>, id: string,
      m: Mandate, n: int)
    requires Carries(cfg, id, m) && CallEach(cfg, id) && MaxCalls(m, n)
    ensures var s := Execute(cfg, Initial(cfg, store, replay), actions);
            Handled(cfg, s, id) != {} ==> |Handled(cfg, s, id)| <= n - Normalized(Load(store, id)).calls
  {
    var s := Execute(cfg, Initial(cfg, store, replay), actions);
    Serialisable(cfg, store, replay, actions);
    var run := CommittedOn(cfg, s.log, id);
    assert AllowedRun(Load(store, id), run);
    HandledAreCommitted(cfg, store, s, id);
    CommittedCarry(cfg, s.log, id, m);
    CommittedCallEach(cfg, s.log, id);
    hide Execute, Invariant, AllowedRun, CommittedOn, Handled, Normalized, Effective, MaxCalls, Load, CallEach;
    if run != [] {
      RunIsWithinCalls(Load(store, id), run, n);
    }
  }

  /** In every interleaving, a Commerce record holds exactly what was committed, within the budget. */
  lemma InterleavedBudget(
      cfg: Config, store: map<string, UsageSnapshot>, replay: Replay.Entries, actions: seq<Action>, id: string,
      m: Mandate)
    requires Carries(cfg, id, m) && CommerceMandate(m)
    ensures var s := Execute(cfg, Initial(cfg, store, replay), actions);
            var run := CommittedOn(cfg, s.log, id);
            run != [] ==>
              var first, last, terms := Normalized(Load(store, id)), Normalized(Load(s.store, id)), m.commerce.value;
              && Decimals.IsDecimal(first.amount) && Decimals.IsDecimal(last.amount)
              && Decimals.IsDecimal(terms.maxTotal)
              && Decimals.Value(last.amount) == Decimals.Value(first.amount) + Spent(run)
              && Decimals.Value(last.amount) <= Decimals.Value(terms.maxTotal)
              && last.currency == CurrencyAfter(terms.currency, first.currency)
  {
    var s := Execute(cfg, Initial(cfg, store, replay), actions);
    Serialisable(cfg, store, replay, actions);
    var run := CommittedOn(cfg, s.log, id);
    assert AllowedRun(Load(store, id), run) && Load(s.store, id) == RunUsage(Load(store, id), run);
    CommittedCarry(cfg, s.log, id, m);
    hide Execute, Invariant, AllowedRun, RunUsage, CommittedOn, Normalized, Load, Spent, Decimals.Value,
         Decimals.IsDecimal;
    if run != [] {
      CommerceBudget(m, Load(store, id), run);
    }
  }

  /** In every interleaving from a tracked supply, minted supply and cumulative quantity move together. */
  lemma InterleavedSupply(
      cfg: Config, store: map<string, UsageSnapshot>, replay: Replay.Entries, actions: seq<Action>, id: string,
      m: Mandate)
    requires Carries(cfg, id, m) && RwaMandate(m) && Load(store, id).mintedSupply.Some?
    ensures var s := Execute(cfg, Initial(cfg, store, replay), actions);
            CommittedOn(cfg, s.log, id) != [] ==>
              var first, last := Normalized(Load(store, id)), Normalized(Load(s.store, id));
              && Decimals.IsDecimal(first.mintedSupply) && Decimals.IsDecimal(first.quantity)
              && Decimals.IsDecimal(last.mintedSupply) && Decimals.IsDecimal(last.quantity)
              && Decimals.Value(last.mintedSupply) - Decimals.Value(last.quantity) ==
                 Decimals.Value(first.mintedSupply) - Decimals.Value(first.quantity)
              && Decimals.IsDecimal(m.rwa.value.maxQuantity)
              && Decimals.Value(last.quantity) <= Decimals.Value(m.rwa.value.maxQuantity)
  {
    var s := Execute(cfg, Initial(cfg, store, replay), actions);
    Serialisable(cfg, store, replay, actions);
    var run := CommittedOn(cfg, s.log, id);
    assert AllowedRun(Load(store, id), run) && Load(s.store, id) == RunUsage(Load(store, id), run);
    CommittedCarry(cfg, s.log, id, m);
    hide Execute, Invariant, AllowedRun, RunUsage, CommittedOn, Normalized, Load, Decimals.Value, Decimals.IsDecimal;
    if run != [] {
      SupplyConservation(m, Load(store, id), run);
    }
  }

  /******* Without a usage store *******/

  predicate RequiresPersistentUsage(m: Mandate) {
    m.status == Consumed || m.limits.Some? || m.profile.Some?
  }

  /** Without a store every request is evaluated against empty usage, unless the Mandate needs a store. */
  ghost predicate ServedWithoutStore(x: Inbound, time: Instant) {
    !RequiresPersistentUsage(x.mandate) && Allowed(Evaluated(x, time))
  }

  /** Without a store, a one-time Mandate is served exactly when it has neither profile nor limits
      and carries its one-time flag in an RWA extension; nothing then stops a second service. */
  lemma OneTimeWithoutStore(x: Inbound, time: Instant)
    requires OneTime(x.mandate) && Allowed(Evaluated(x, time))
    ensures ServedWithoutStore(x, time) <==>
            x.mandate.profile.None? && x.mandate.limits.None? && x.mandate.rwa.Some? && x.mandate.rwa.value.oneTime
  {
    hide GrantFinding, SpendFinding, CommerceFinding, RwaFinding, Spendable;
    var r := Evaluated(x, time);
    assert x.mandate.status == Active by { ActiveWhenAllowed(r); }
  }

  /** A one-time Mandate for action "x" that asks for no usage store. */
  const STORELESS: Mandate :=
    Mandate("m", "agent", None, "p", ["x"], None, None, None, None, None, None, Ms(0), Ms(2), Active, None, None,
            Some(RwaTerms(RwaTarget("", "", "", "", "", ""), "0", 0, [], true)))

  /** There is such a request: a one-time Mandate is then served as often as it is presented. */
  lemma StorelessIsServed(x: Inbound)
    requires x.mandate == STORELESS && x.parent.None? && x.consumption.None? && x.commerce.None? && x.rwa.None?
    requires x.envelope == Envelope("tx", "m", "agent", "x", "r", Some("p"), None, None, None, None, None)
    ensures OneTime(x.mandate) && ServedWithoutStore(x, Ms(1))
  {
    StorelessGrant(Evaluated(x, Ms(1)));
    StorelessSpend(Evaluated(x, Ms(1)));
    hide GrantFinding, SpendFinding, GrantDefined, ConsumptionDefined, Spendable, Normalized, Effective;
  }

  lemma StorelessGrant(r: Request)
    requires r.mandate == STORELESS && r.parent.None? && r.time == Ms(1)
    requires r.envelope == Envelope("tx", "m", "agent", "x", "r", Some("p"), None, None, None, None, None)
    ensures GrantDefined(r) && forall c :: !GrantFinding(r, c)
  {
  }

  lemma StorelessSpend(r: Request)
    requires r.mandate == STORELESS && r.usage == EMPTY_USAGE && r.consumption.None? && r.commerce.None? && r.rwa.None?
    ensures ConsumptionDefined(r.mandate, Normalized(r.usage), Effective(r)) && Spendable(r)
    ensures forall c :: !SpendFinding(r, c)
  {
    Decimals.IntegerMeaning(0);
    assert Decimals.IntToString(0) == "0";
  }

  lemma ActiveWhenAllowed(r: Request)
    requires Allowed(r)
    ensures r.mandate.status == Active
  {
    hide AddressViolation, ActionViolation, ChildViolation, SpendFinding, CommerceFinding, RwaFinding, Spendable;
    assert !Violates(r, MandateNotActive);
  }

  /******* Nonces under interleaving *******/

  /** Action `k` authenticates a request and consumes its Envelope's nonce. */
  ghost predicate Consumes(cfg: Config, start: State, actions: seq<Action>, k: nat)
    requires k < |actions| && |start.phases| == |cfg.requests|
  {
    var a, s := actions[k], Execute(cfg, start, actions[..k]);
    && PresentsNonce(cfg, s, a)
    && !Replay.Blocks(s.replay, NonceOf(cfg.requests[a.i], cfg.policies), a.envelopeTime)
  }

  /** The action presents a verified Envelope to the replay cache. */
  ghost predicate PresentsNonce(cfg: Config, s: State, a: Action)
    requires |s.phases| == |cfg.requests|
  {
    && a.Authenticate? && a.i < |cfg.requests| && s.phases[a.i].Arrived?
    && GrantVerifies(cfg.requests[a.i], cfg.policies, a.mandateTime, a.parentTime)
    && EnvelopeVerifies(cfg.requests[a.i], cfg.policies, a.envelopeTime)
  }

  /** The calls that a run makes on the replay cache. */
  ghost function NonceCalls(cfg: Config, start: State, actions: seq<Action>): seq<Replay.Call>
    requires |start.phases| == |cfg.requests|
  {
    if actions == [] then []
    else
      var front, a := actions[..|actions| - 1], actions[|actions| - 1];
      if PresentsNonce(cfg, Execute(cfg, start, front), a) then
        var x := cfg.requests[a.i];
        NonceCalls(cfg, start, front) +
        [Replay.Call(NonceOf(x, cfg.policies), x.envelopeDoc.proof.proof.expires.t, a.envelopeTime)]
      else NonceCalls(cfg, start, front)
  }

  /** The shared cache is what those calls leave. */
  lemma {:induction false} CacheIsSwept(cfg: Config, start: State, actions: seq<Action>)
    requires |start.phases| == |cfg.requests| && start.replay == map[]
    ensures Execute(cfg, start, actions).replay == Replay.Swept(NonceCalls(cfg, start, actions))
  {
    hide GrantVerifies, EnvelopeVerifies, Verdict, Replay.Stored, Replay.Blocks, NonceOf;
    if actions != [] {
      CacheIsSwept(cfg, start, actions[..|actions| - 1]);
      StepOnCache(cfg, Execute(cfg, start, actions[..|actions| - 1]), actions[|actions| - 1]);
    }
  }

  lemma StepOnCache(cfg: Config, s: State, a: Action)
    requires |s.phases| == |cfg.requests|
    ensures Advance(cfg, s, a).replay ==
            if PresentsNonce(cfg, s, a)
            then var x := cfg.requests[a.i];
                 Replay.Stored(s.replay, NonceOf(x, cfg.policies), x.envelopeDoc.proof.proof.expires.t, a.envelopeTime)
            else s.replay
  {
    hide GrantVerifies, Verdict, NonceOf, Trust.Accepts;
  }

  ghost predicate ClockAdvances(actions: seq<Action>) {
    forall i, j :: 0 <= i <= j < |actions| && actions[i].Authenticate? && actions[j].Authenticate? ==>
      actions[i].envelopeTime <= actions[j].envelopeTime
  }

  lemma {:induction false} CallsAdvance(cfg: Config, start: State, actions: seq<Action>, bound: int)
    requires |start.phases| == |cfg.requests| && ClockAdvances(actions)
    requires forall i :: 0 <= i < |actions| && actions[i].Authenticate? ==> actions[i].envelopeTime <= bound
    ensures Replay.NonDecreasing(NonceCalls(cfg, start, actions))
    ensures forall k :: 0 <= k < |NonceCalls(cfg, start, actions)| ==> NonceCalls(cfg, start, actions)[k].now <= bound
  {
    hide Execute, GrantVerifies, EnvelopeVerifies, NonceOf;
    if actions != [] {
      var front, a := actions[..|actions| - 1], actions[|actions| - 1];
      CallsAdvance(cfg, start, front, if a.Authenticate? then a.envelopeTime else bound);
    }
  }

  lemma {:induction false} NoncePrefix(cfg: Config, start: State, actions: seq<Action>, n: nat)
    requires |start.phases| == |cfg.requests| && n <= |actions|
    ensures NonceCalls(cfg, start, actions[..n]) <= NonceCalls(cfg, start, actions)
  {
    hide Execute, PresentsNonce, NonceOf;
    if n == |actions| {
      assert actions[..n] == actions;
    } else {
      NoncePrefix(cfg, start, actions[..|actions| - 1], n);
      assert actions[..|actions| - 1][..n] == actions[..n];
    }
  }

  lemma ConsumedCall(cfg: Config, start: State, actions: seq<Action>, k: nat)
    requires |start.phases| == |cfg.requests| && k < |actions| && Consumes(cfg, start, actions, k)
    ensures var a := actions[k];
            var x := cfg.requests[a.i];
            NonceCalls(cfg, start, actions[..k + 1]) ==
            NonceCalls(cfg, start, actions[..k]) +
            [Replay.Call(NonceOf(x, cfg.policies), x.envelopeDoc.proof.proof.expires.t, a.envelopeTime)]
  {
    hide Execute, NonceOf, GrantVerifies;
    assert actions[..k + 1][..k] == actions[..k];
  }

  /** In every interleaving with an advancing clock, a nonce is consumed again only after the expiry
      of the proof that consumed it before. */
  lemma NonceConsumedOnce(cfg: Config, store: map<string, UsageSnapshot>, actions: seq<Action>, k: nat, l: nat)
    requires ClockAdvances(actions) && k < l < |actions|
    requires var start := Initial(cfg, store, map[]);
             Consumes(cfg, start, actions, k) && Consumes(cfg, start, actions, l)
    requires NonceOf(cfg.requests[actions[k].i], cfg.policies) == NonceOf(cfg.requests[actions[l].i], cfg.policies)
    ensures actions[l].envelopeTime >= cfg.requests[actions[k].i].envelopeDoc.proof.proof.expires.t
  {
    var start := Initial(cfg, store, map[]);
    hide Execute, NonceCalls, NonceOf, GrantVerifies, Trust.Accepts, Replay.Swept;
    ConsumedCall(cfg, start, actions, k);
    ConsumedCall(cfg, start, actions, l);
    CacheIsSwept(cfg, start, actions[..k]);
    CacheIsSwept(cfg, start, actions[..l]);
    NoncePrefix(cfg, start, actions[..l], k + 1);
    assert actions[..l][..k + 1] == actions[..k + 1];
    CallsAdvance(cfg, start, actions[..l + 1], actions[l].envelopeTime);
    Replay.SpentNonce(NonceCalls(cfg, start, actions[..k]), NonceCalls(cfg, start, actions[..k + 1]),
                      NonceCalls(cfg, start, actions[..l]), NonceCalls(cfg, start, actions[..l + 1]));
  }

  /******* Only authenticated requests go on *******/

  /** The request has passed authentication and has not been refused. */
  predicate Past(phase: Phase) {
    phase.Authentic? || phase.Loaded? || phase.Approved? || phase.Committed? || phase.Served?
  }

  /** At these times and on this cache the request's documents verify, its nonce is new, and its digest matches. */
  ghost predicate Genuine(
      x: Inbound, ps: Policies, cache: Replay.Entries, mandateTime: int, parentTime: int, envelopeTime: int)
  {
    && Trust.Accepts(x.mandateDoc, ps.mandate, mandateTime)
    && (x.parentDoc.Some? ==> Trust.Accepts(x.parentDoc.value, ps.parent, parentTime))
    && Trust.Accepts(x.envelopeDoc, ps.envelope, envelopeTime)
    && x.envelopeDoc.proof.Present?
    && var proof := x.envelopeDoc.proof.proof;
    && var nonce := proof.keyId + "\0" + ps.envelope.audience + "\0" + proof.nonce;
    && (nonce in cache ==> cache[nonce] <= envelopeTime)
    && x.digestMatches
  }

  lemma StepAuthenticates(cfg: Config, s: State, a: Action, i: nat)
    requires |s.phases| == |cfg.requests| && i < |cfg.requests|
    requires Past(Advance(cfg, s, a).phases[i]) && !Past(s.phases[i])
    ensures a.Authenticate? && a.i == i
    ensures Genuine(cfg.requests[i], cfg.policies, s.replay, a.mandateTime, a.parentTime, a.envelopeTime)
  {
    hide Trust.Accepts;
  }

  /** In every interleaving, a request that has passed authentication was genuine at some earlier
      authentication step, on the cache as that step found it. */
  lemma {:induction false} OnlyGenuineGoOn(cfg: Config, start: State, actions: seq<Action>, i: nat)
    requires |start.phases| == |cfg.requests| && i < |cfg.requests| && start.phases[i].Arrived?
    requires Past(Execute(cfg, start, actions).phases[i])
    ensures exists k :: 0 <= k < |actions| && actions[k].Authenticate? && actions[k].i == i &&
              Genuine(cfg.requests[i], cfg.policies, Execute(cfg, start, actions[..k]).replay,
                      actions[k].mandateTime, actions[k].parentTime, actions[k].envelopeTime)
  {
    hide Advance, Genuine;
    if actions != [] {
      var n := |actions| - 1;
      if Past(Execute(cfg, start, actions[..n]).phases[i]) {
        OnlyGenuineGoOn(cfg, start, actions[..n], i);
        var k :| 0 <= k < n && actions[..n][k].Authenticate? && actions[..n][k].i == i &&
          Genuine(cfg.requests[i], cfg.policies, Execute(cfg, start, actions[..n][..k]).replay,
                  actions[..n][k].mandateTime, actions[..n][k].parentTime, actions[..n][k].envelopeTime);
        assert actions[..n][..k] == actions[..k] && actions[..n][k] == actions[k];
      } else {
        StepAuthenticates(cfg, Execute(cfg, start, actions[..n]), actions[n], i);
      }
    }
  }

  /******* The pipeline itself *******/

  /** The steps of one request, in the order of the pipeline. */
  function Pipeline(mandateTime: int, parentTime: int, envelopeTime: int, now: Instant): seq<Action> {
    [Authenticate(0, mandateTime, parentTime, envelopeTime), LoadUsage(0), EvaluateAt(0, now), CompareAndSet(0),
     Serve(0)]
  }

  ghost function Alone(x: Inbound, ps: Policies, store: map<string, UsageSnapshot>, replay: Replay.Entries): State {
    Initial(Config([x], ps), store, replay)
  }

  lemma ExecuteAppend(cfg: Config, start: State, actions: seq<Action>, a: Action)
    requires |start.phases| == |cfg.requests|
    ensures Execute(cfg, start, actions + [a]) == Advance(cfg, Execute(cfg, start, actions), a)
  {
    hide Advance;
    assert (actions + [a])[..|actions|] == actions;
  }

  lemma ExecutePipeline(cfg: Config, start: State, mandateTime: int, parentTime: int, envelopeTime: int, now: Instant)
    requires |start.phases| == |cfg.requests|
    ensures var s1 := Advance(cfg, start, Authenticate(0, mandateTime, parentTime, envelopeTime));
            |s1.phases| == |cfg.requests| &&
            var s2 := Advance(cfg, s1, LoadUsage(0));
            |s2.phases| == |cfg.requests| &&
            var s3 := Advance(cfg, s2, EvaluateAt(0, now));
            |s3.phases| == |cfg.requests| &&
            var s4 := Advance(cfg, s3, CompareAndSet(0));
            |s4.phases| == |cfg.requests| &&
            Execute(cfg, start, Pipeline(mandateTime, parentTime, envelopeTime, now)) == Advance(cfg, s4, Serve(0))
  {
    hide Advance, Execute;
    var p := Pipeline(mandateTime, parentTime, envelopeTime, now);
    assert Execute(cfg, start, []) == start by { NothingExecuted(cfg, start); }
    ExecuteAppend(cfg, start, [], p[0]);
    ExecuteAppend(cfg, start, [p[0]], p[1]);
    ExecuteAppend(cfg, start, [p[0], p[1]], p[2]);
    ExecuteAppend(cfg, start, [p[0], p[1], p[2]], p[3]);
    ExecuteAppend(cfg, start, [p[0], p[1], p[2], p[3]], p[4]);
    assert [] + [p[0]] == [p[0]] && [p[0]] + [p[1]] == [p[0], p[1]] && [p[0], p[1]] + [p[2]] == [p[0], p[1], p[2]];
    assert [p[0], p[1], p[2]] + [p[3]] == [p[0], p[1], p[2], p[3]] && [p[0], p[1], p[2], p[3]] + [p[4]] == p;
  }

  lemma NothingExecuted(cfg: Config, start: State)
    requires |start.phases| == |cfg.requests|
    ensures Execute(cfg, start, []) == start
  {
  }

  /** The evaluation that the pipeline asks for, on the record it loads. */
  function Asked(x: Inbound, store: map<string, UsageSnapshot>, now: Instant): Request {
    Request(now, x.mandate, x.parent, x.depth, x.envelope,
            if x.mandate.id in store then store[x.mandate.id]
            else UsageSnapshot(None, None, None, None, None, None, None),
            x.consumption, x.commerce, x.rwa)
  }

  /** What authentication alone makes of a request, in the order in which it can fail. */
  lemma AuthenticationMeans(
      x: Inbound, ps: Policies, store: map<string, UsageSnapshot>, replay: Replay.Entries,
      mandateTime: int, parentTime: int, envelopeTime: int)
    ensures var start := Alone(x, ps, store, replay);
            var s := Advance(Config([x], ps), start, Authenticate(0, mandateTime, parentTime, envelopeTime));
            var verified :=
              && Trust.Accepts(x.mandateDoc, ps.mandate, mandateTime)
              && (x.parentDoc.Some? ==> Trust.Accepts(x.parentDoc.value, ps.parent, parentTime))
              && Trust.Accepts(x.envelopeDoc, ps.envelope, envelopeTime);
            && s.store == store && s.log == []
            && (!verified ==> s.phases == [Refused(NotAuthentic)] && s.replay == replay)
            && (verified ==>
                  && x.envelopeDoc.proof.Present? && x.envelopeDoc.proof.proof.expires.Ms?
                  && var proof := x.envelopeDoc.proof.proof;
                  && var nonce := proof.keyId + "\0" + ps.envelope.audience + "\0" + proof.nonce;
                  && (nonce in replay && replay[nonce] > envelopeTime ==>
                        s.phases == [Refused(Replayed)] && s.replay == replay)
                  && ((nonce in replay ==> replay[nonce] <= envelopeTime) ==>
                        && s.phases == [if x.digestMatches then Authentic else Refused(DigestMismatch)]
                        && s.replay == Replay.Stored(replay, nonce, proof.expires.t, envelopeTime)))
  {
    VerifiedMeans(x, ps, mandateTime, parentTime, envelopeTime);
    hide GrantVerifies, EnvelopeVerifies, Trust.Accepts, Replay.Stored;
  }

  lemma VerifiedMeans(x: Inbound, ps: Policies, mandateTime: int, parentTime: int, envelopeTime: int)
    ensures GrantVerifies(x, ps, mandateTime, parentTime) && EnvelopeVerifies(x, ps, envelopeTime) <==>
            && Trust.Accepts(x.mandateDoc, ps.mandate, mandateTime)
            && (x.parentDoc.Some? ==> Trust.Accepts(x.parentDoc.value, ps.parent, parentTime))
            && Trust.Accepts(x.envelopeDoc, ps.envelope, envelopeTime)
    ensures Trust.Accepts(x.envelopeDoc, ps.envelope, envelopeTime) ==>
              x.envelopeDoc.proof.Present? && x.envelopeDoc.proof.proof.expires.Ms?
  {
    if Trust.Accepts(x.envelopeDoc, ps.envelope, envelopeTime) {
      Trust.AcceptedProof(x.envelopeDoc, ps.envelope, envelopeTime);
    }
    hide Trust.Accepts, Trust.EarlyFindings, Trust.TrustFindings, Trust.FindKey;
  }

  /** What becomes of an authentic request when nothing interrupts it. */
  lemma EvaluationMeans(cfg: Config, s: State, now: Instant)
    requires |cfg.requests| == 1 && s.phases == [Authentic]
    ensures var x := cfg.requests[0];
            var e := Evaluate(Asked(x, s.store, now));
            var s2 := Advance(cfg, s, LoadUsage(0));
            |s2.phases| == 1 &&
            var s3 := Advance(cfg, s2, EvaluateAt(0, now));
            |s3.phases| == 1 &&
            var s4 := Advance(cfg, s3, CompareAndSet(0));
            |s4.phases| == 1 &&
            var end := Advance(cfg, s4, Serve(0));
            && end.replay == s.replay
            && (e.Returned? && e.value.reasons == {} ==>
                  end.phases == [Served] && end.store == s.store[x.mandate.id := e.value.nextUsage])
            && (e.Threw? ==> end.phases == [Refused(Unavailable)] && end.store == s.store)
            && (e.Returned? && e.value.reasons != {} ==> end.phases == [Refused(Denied)] && end.store == s.store)
  {
    hide Evaluate;
    var x := cfg.requests[0];
    assert Asked(x, s.store, now) == With(Evaluated(x, now), Load(s.store, x.mandate.id));
  }

  lemma RefusedStays(cfg: Config, s: State, now: Instant)
    requires |cfg.requests| == 1 && |s.phases| == 1 && s.phases[0].Refused?
    ensures var s2 := Advance(cfg, s, LoadUsage(0));
            s2 == s && Advance(cfg, s, EvaluateAt(0, now)) == s && Advance(cfg, s, CompareAndSet(0)) == s
            && Advance(cfg, s, Serve(0)) == s
  {
  }

  /**
   What the whole pipeline answers: a request is served exactly when it is genuine and the evaluation
   on the stored record allows it; then, and only then, the record becomes the evaluation's next usage.
   */
  lemma PipelineMeans(
      x: Inbound, ps: Policies, store: map<string, UsageSnapshot>, replay: Replay.Entries,
      mandateTime: int, parentTime: int, envelopeTime: int, now: Instant)
    ensures var s := Execute(Config([x], ps), Alone(x, ps, store, replay),
                             Pipeline(mandateTime, parentTime, envelopeTime, now));
            var e := Evaluate(Asked(x, store, now));
            var genuine := Genuine(x, ps, replay, mandateTime, parentTime, envelopeTime);
            && |s.phases| == 1
            && (s.phases[0] == Served <==> genuine && e.Returned? && e.value.reasons == {})
            && (s.phases[0] == Refused(Denied) <==> genuine && e.Returned? && e.value.reasons != {})
            && (s.phases[0] == Refused(Unavailable) <==> genuine && e.Threw?)
            && s.store == (if s.phases[0] == Served then store[x.mandate.id := e.value.nextUsage] else store)
  {
    var cfg, start := Config([x], ps), Alone(x, ps, store, replay);
    var s1 := Advance(cfg, start, Authenticate(0, mandateTime, parentTime, envelopeTime));
    ExecutePipeline(cfg, start, mandateTime, parentTime, envelopeTime, now);
    AuthenticationMeans(x, ps, store, replay, mandateTime, parentTime, envelopeTime);
    hide Advance, Evaluate, Trust.Accepts, Replay.Stored, Execute, Alone, Asked;
    if s1.phases == [Authentic] {
      EvaluationMeans(cfg, s1, now);
    } else {
      RefusedStays(cfg, s1, now);
    }
  }

  /** The middleware with its usage store and replay cache. */
  class Gateway {
    const policies: Policies
    const cache: Replay.MemoryReplayCache
    var store: map<string, UsageSnapshot>

    constructor (policies: Policies, cache: Replay.MemoryReplayCache, store: map<string, UsageSnapshot>)
      ensures this.policies == policies && this.cache == cache && this.store == store
    {
      this.policies, this.cache, this.store := policies, cache, store;
    }

    /** Verify a reusable document: its nonce is looked up in a cache that accepts everything. */
    method VerifyReusable(doc: Trust.Document, p: Trust.Policy, now: int) returns (verified: bool)
      ensures verified <==> Trust.Accepts(doc, p, now)
    {
      var always := new Replay.MemoryReplayCache();
      var codes;
      verified, codes := Trust.VerifyDocument(doc, p, now, always);
    }

    /** Replace `previous` by `next` unless another snapshot is stored. */
    method CompareAndSet(id: string, previous: UsageSnapshot, next: UsageSnapshot) returns (swapped: bool)
      modifies this
      ensures swapped <==> Load(old(store), id) == previous
      ensures store == if swapped then old(store)[id := next] else old(store)
    {
      if Load(store, id) != previous {
        return false;
      }
      store := store[id := next];
      return true;
    }

    /** Verify the documents, consume the nonce, and check the digest. */
    method AuthenticateRequest(x: Inbound, mandateTime: int, parentTime: int, envelopeTime: int) returns (phase: Phase)
      modifies cache
      ensures var s := Advance(Config([x], policies), Alone(x, policies, store, old(cache.entries)),
                            Authenticate(0, mandateTime, parentTime, envelopeTime));
              s == Alone(x, policies, store, old(cache.entries)).(replay := cache.entries, phases := [phase])
      ensures phase == Authentic || phase.Refused?
    {
      hide Trust.Findings, Trust.ReplayKey;
      var ok := VerifyReusable(x.mandateDoc, policies.mandate, mandateTime);
      if ok && x.parentDoc.Some? {
        ok := VerifyReusable(x.parentDoc.value, policies.parent, parentTime);
      }
      if !ok {
        return Refused(NotAuthentic);
      }
      var verified, codes := Trust.VerifyDocument(x.envelopeDoc, policies.envelope, envelopeTime, cache);
      Trust.FindingsReportNoReplay(x.envelopeDoc, policies.envelope, envelopeTime);
      if !verified {
        return if Trust.ReplayDetected in codes then Refused(Replayed) else Refused(NotAuthentic);
      }
      return if x.digestMatches then Authentic else Refused(DigestMismatch);
    }

    /**
     One request through the whole pipeline, with early returns. Run without interruption it is exactly
     the five atomic steps in order, and it never ends in a conflict.
     */
    method Handle(x: Inbound, mandateTime: int, parentTime: int, envelopeTime: int, now: Instant) returns (phase: Phase)
      modifies this, cache
      ensures var s := Execute(Config([x], policies), Alone(x, policies, old(store), old(cache.entries)),
                               Pipeline(mandateTime, parentTime, envelopeTime, now));
              store == s.store && cache.entries == s.replay && [phase] == s.phases
      ensures phase == Served || (phase.Refused? && phase.why != Conflict)
    {
      hide Execute, Evaluate, With, Replay.Stored, Replay.Blocks, GrantVerifies, EnvelopeVerifies;
      ghost var cfg, start := Config([x], policies), Alone(x, policies, store, cache.entries);
      ExecutePipeline(cfg, start, mandateTime, parentTime, envelopeTime, now);
      phase := AuthenticateRequest(x, mandateTime, parentTime, envelopeTime);
      if phase.Refused? {
        return;
      }
      var previous := Load(store, x.mandate.id);
      var evaluation := Evaluator.EvaluateAuthority(With(Evaluated(x, now), previous));
      if evaluation.Threw? {
        return Refused(Unavailable);
      }
      if evaluation.value.reasons != {} {
        return Refused(Denied);
      }
      var swapped := CompareAndSet(x.mandate.id, previous, evaluation.value.nextUsage);
      if !swapped {
        return Refused(Conflict);
      }
      return Served;
    }
  }
}
