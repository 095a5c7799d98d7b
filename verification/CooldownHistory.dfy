/** Provider cooldowns over time: the state behind ProviderCooldownTracker of feral-core/agents/llm_failover.py. */
module CooldownHistory {
  import opened Prelude

  const PROBE_INTERVAL := 30.0
  const RETRY_AFTER_MAX_COOLDOWN := 86400.0

  datatype Reason = RateLimit | Auth | AuthPermanent | Billing | Overloaded | Timeout | OtherReason

  function BaseCooldown(reason: Reason): real {
    match reason
    case RateLimit => 60.0
    case Auth => 300.0
    case AuthPermanent => 86400.0
    case Billing => 3600.0
    case Overloaded => 30.0
    case Timeout => 15.0
    case OtherReason => 10.0
  }

  /** Reasons for which the upstream's hint counts. */
  predicate TakesHint(reason: Reason) {
    reason.RateLimit? || reason.Overloaded? || reason.Timeout?
  }

  /** A `Retry-After` hint lengthens the cooldown of three reasons, up to a day. */
  function CooldownSeconds(reason: Reason, retryAfter: Option<real>): (r: real)
    ensures BaseCooldown(reason) <= r <= RETRY_AFTER_MAX_COOLDOWN
  {
    var base := BaseCooldown(reason);
    if retryAfter.Some? && TakesHint(reason) then
      var capped := if retryAfter.value > RETRY_AFTER_MAX_COOLDOWN then RETRY_AFTER_MAX_COOLDOWN else retryAfter.value;
      var hint := if capped < 0.0 then 0.0 else capped;
      if hint > base then hint else base
    else base
  }

  /** The cooldown is the least time that covers the default of the reason and any hint, cut off at a day. */
  lemma {:induction false} CooldownIsLeast(reason: Reason, retryAfter: Option<real>, x: real)
    ensures x >= CooldownSeconds(reason, retryAfter) <==>
            && x >= (match reason
                     case RateLimit => 60.0
                     case Auth => 300.0
                     case AuthPermanent => 86400.0
                     case Billing => 3600.0
                     case Overloaded => 30.0
                     case Timeout => 15.0
                     case OtherReason => 10.0)
            && (reason in {RateLimit, Overloaded, Timeout} && retryAfter.Some? ==>
                  x >= retryAfter.value || x >= 86400.0)
  {
  }

  /** The persisted deadlines and probe times. */
  datatype Saved = Saved(cooldowns: map<string, real>, probes: map<string, real>)

  /** A running tracker and its storage: `stored` says whether there is a storage path, `file` what it holds. */
  datatype State = State(cooldowns: map<string, real>, lastProbe: map<string, real>, stored: bool, file: Option<Saved>)

  function Lookup(m: map<string, real>, provider: string): real {
    if provider in m then m[provider] else 0.0
  }

  function StillAhead(m: map<string, real>, now: real): map<string, real> {
    map p | p in m && m[p] > now :: m[p]
  }

  /** `_persist_state`: deadlines still ahead, and the probe times of those providers only. */
  function Persist(s: State, now: real): State {
    if !s.stored then s
    else s.(file := Some(Saved(StillAhead(s.cooldowns, now),
                               map p | p in s.lastProbe && p in StillAhead(s.cooldowns, now) && s.lastProbe[p] > 0.0
                                       :: s.lastProbe[p])))
  }

  /** A new tracker over the same storage: `__init__` with `_load_state`. */
  function Restart(s: State, now: real): State {
    if !s.stored || s.file.None? then State(map[], map[], s.stored, s.file)
    else State(StillAhead(s.file.value.cooldowns, now), StillAhead(s.file.value.probes, 0.0), s.stored, s.file)
  }

  predicate IsAvailable(s: State, provider: string, now: real) {
    now >= Lookup(s.cooldowns, provider)
  }

  /** A probe of an unavailable provider is admitted when the last one is long enough ago. */
  predicate ProbeDue(s: State, provider: string, now: real) {
    now - Lookup(s.lastProbe, provider) >= PROBE_INTERVAL
  }

  datatype Op =
    | Fail(provider: string, reason: Reason, retryAfter: Option<real>)
    | Probe(provider: string)
    | Succeed(provider: string)
    | Clear(provider: string)
    | ClearAll
    | RestartTracker

  datatype Event = Event(at: real, op: Op)

  function Forget(s: State, provider: string, now: real): State {
    Persist(s.(cooldowns := s.cooldowns - {provider}, lastProbe := s.lastProbe - {provider}), now)
  }

  function Step(s: State, e: Event): State {
    match e.op
    case Fail(p, reason, retryAfter) =>
      Persist(s.(cooldowns := s.cooldowns[p := e.at + CooldownSeconds(reason, retryAfter)]), e.at)
    case Probe(p) =>
      if !IsAvailable(s, p, e.at) && ProbeDue(s, p, e.at)
      then Persist(s.(lastProbe := s.lastProbe[p := e.at]), e.at)
      else s
    case Succeed(p) => Forget(s, p, e.at)
    case Clear(p) => Forget(s, p, e.at)
    case ClearAll => Persist(s.(cooldowns := map[], lastProbe := map[]), e.at)
    case RestartTracker => Restart(s, e.at)
  }

  /** The state after `k` events; without `restarts` the one tracker keeps running through them. */
  function After(s: State, es: seq<Event>, k: nat, restarts: bool): State
    requires k <= |es|
    decreases k
  {
    if k == 0 then s
    else
      var before := After(s, es, k - 1, restarts);
      if es[k - 1].op.RestartTracker? && !restarts then before else Step(before, es[k - 1])
  }

  /** A positive, non-decreasing clock that starts no earlier than `from`. */
  ghost predicate Clocked(es: seq<Event>, from: real) {
    && from > 0.0
    && (forall i :: 0 <= i < |es| ==> from <= es[i].at)
    && forall i, j :: 0 <= i < j < |es| ==> es[i].at <= es[j].at
  }

  function TimeAfter(es: seq<Event>, k: nat, from: real): real
    requires k <= |es|
  {
    if k == 0 then from else es[k - 1].at
  }

  // ---- Restarts are invisible to availability ----

  /** The deadline of a provider that is still ahead. */
  function Ahead(m: map<string, real>, provider: string, now: real): Option<real> {
    if provider in m && m[provider] > now then Some(m[provider]) else None
  }

  /** From now on both trackers give the same availability. */
  ghost predicate SameAhead(a: map<string, real>, b: map<string, real>, now: real) {
    forall p :: Ahead(a, p, now) == Ahead(b, p, now)
  }

  /** The storage knows every deadline that is still ahead. */
  ghost predicate InSync(s: State, now: real) {
    s.stored && SameAhead(s.cooldowns, InFile(s), now)
  }

  lemma {:induction false} SameAheadLater(a: map<string, real>, b: map<string, real>, now: real, later: real)
    requires SameAhead(a, b, now) && now <= later
    ensures SameAhead(a, b, later)
  {
    forall p ensures Ahead(a, p, later) == Ahead(b, p, later) {
      assert Ahead(a, p, now) == Ahead(b, p, now);
    }
  }

  lemma {:induction false} AvailableIffNothingAhead(s: State, provider: string, now: real)
    requires now >= 0.0
    ensures IsAvailable(s, provider, now) <==> Ahead(s.cooldowns, provider, now).None?
  {
  }

  /** The deadlines in the storage; an absent file holds none. */
  function InFile(s: State): map<string, real> {
    if s.file.Some? then s.file.value.cooldowns else map[]
  }

  /** What an operation other than a restart does to the deadlines. */
  function NextCooldowns(m: map<string, real>, e: Event): map<string, real> {
    match e.op
    case Fail(p, reason, retryAfter) => m[p := e.at + CooldownSeconds(reason, retryAfter)]
    case Succeed(p) => m - {p}
    case Clear(p) => m - {p}
    case ClearAll => map[]
    case _ => m
  }

  /** Afterwards the storage holds the deadlines still ahead, or (after no write) what it held. */
  lemma {:induction false} StepDeadlines(s: State, e: Event)
    requires s.stored && !e.op.RestartTracker?
    ensures Step(s, e).cooldowns == NextCooldowns(s.cooldowns, e) && Step(s, e).stored
    ensures InFile(Step(s, e)) == StillAhead(Step(s, e).cooldowns, e.at) ||
            (Step(s, e).cooldowns == s.cooldowns && InFile(Step(s, e)) == InFile(s))
  {
  }

  lemma {:induction false} StillAheadIsSame(m: map<string, real>, now: real)
    ensures SameAhead(m, StillAhead(m, now), now) && SameAhead(StillAhead(m, now), m, now)
  {
  }

  lemma {:induction false} StepKeepsSync(s: State, e: Event)
    requires InSync(s, e.at)
    ensures InSync(Step(s, e), e.at)
  {
    if e.op.RestartTracker? {
      StillAheadIsSame(InFile(s), e.at);
    } else {
      StepDeadlines(s, e);
      StillAheadIsSame(Step(s, e).cooldowns, e.at);
    }
  }

  /** An operation acts on what is ahead alone. */
  lemma {:induction false} NextActsOnAhead(a: map<string, real>, b: map<string, real>, e: Event)
    requires SameAhead(a, b, e.at)
    ensures SameAhead(NextCooldowns(a, e), NextCooldowns(b, e), e.at)
  {
    forall p ensures Ahead(NextCooldowns(a, e), p, e.at) == Ahead(NextCooldowns(b, e), p, e.at) {
      assert Ahead(a, p, e.at) == Ahead(b, p, e.at);
    }
  }

  /** A restart leaves what is ahead as it is. */
  lemma {:induction false} RestartKeepsAhead(s: State, b: map<string, real>, now: real)
    requires SameAhead(s.cooldowns, b, now) && InSync(s, now)
    ensures SameAhead(Restart(s, now).cooldowns, b, now)
  {
    var r := Restart(s, now).cooldowns;
    assert r == StillAhead(InFile(s), now);
    forall p ensures Ahead(r, p, now) == Ahead(b, p, now) {
      assert Ahead(s.cooldowns, p, now) == Ahead(b, p, now) == Ahead(InFile(s), p, now);
    }
  }

  lemma {:induction false} StoredForever(s: State, es: seq<Event>, k: nat, restarts: bool)
    requires k <= |es|
    ensures After(s, es, k, restarts).stored == s.stored
    decreases k
  {
    if k > 0 {
      StoredForever(s, es, k - 1, restarts);
    }
  }

  lemma {:induction false} RestartsKeepAhead(s: State, es: seq<Event>, k: nat, from: real)
    requires Clocked(es, from) && InSync(s, from) && k <= |es|
    ensures InSync(After(s, es, k, true), TimeAfter(es, k, from))
    ensures SameAhead(After(s, es, k, true).cooldowns, After(s, es, k, false).cooldowns, TimeAfter(es, k, from))
    decreases k
  {
    if k > 0 {
      var e, before := es[k - 1], TimeAfter(es, k - 1, from);
      RestartsKeepAhead(s, es, k - 1, from);
      var a, b := After(s, es, k - 1, true), After(s, es, k - 1, false);
      SameAheadLater(a.cooldowns, b.cooldowns, before, e.at);
      SameAheadLater(a.cooldowns, InFile(a), before, e.at);
      StepKeepsSync(a, e);
      if e.op.RestartTracker? {
        RestartKeepsAhead(a, b.cooldowns, e.at);
      } else {
        StoredForever(s, es, k - 1, false);
        StepDeadlines(a, e);
        StepDeadlines(b, e);
        NextActsOnAhead(a.cooldowns, b.cooldowns, e);
      }
    }
  }

  /** Restarting the tracker, at any points of a run, changes no later availability of any provider. */
  lemma {:induction false} RestartsAreInvisible(s: State, es: seq<Event>, k: nat, from: real, provider: string,
                                                now: real)
    requires Clocked(es, from) && InSync(s, from) && k <= |es| && TimeAfter(es, k, from) <= now
    ensures IsAvailable(After(s, es, k, true), provider, now) <==> IsAvailable(After(s, es, k, false), provider, now)
  {
    RestartsKeepAhead(s, es, k, from);
    var a, b := After(s, es, k, true), After(s, es, k, false);
    SameAheadLater(a.cooldowns, b.cooldowns, TimeAfter(es, k, from), now);
    AvailableIffNothingAhead(a, provider, now);
    AvailableIffNothingAhead(b, provider, now);
    assert Ahead(a.cooldowns, provider, now) == Ahead(b.cooldowns, provider, now);
  }

  /** A fresh tracker over an empty storage. */
  const FRESH := State(map[], map[], true, None)

  /** It is in sync with its storage. */
  lemma {:induction false} FreshIsInSync(now: real)
    ensures InSync(FRESH, now)
  {
  }

  /** The deadline set by the last failure of a provider, unless a success or a clear came after it. */
  function LastDeadline(es: seq<Event>, k: nat, provider: string): Option<real>
    requires k <= |es|
    decreases k
  {
    if k == 0 then None
    else match es[k - 1].op
      case Fail(p, reason, retryAfter) =>
        if p == provider then Some(es[k - 1].at + CooldownSeconds(reason, retryAfter))
        else LastDeadline(es, k - 1, provider)
      case Succeed(p) => if p == provider then None else LastDeadline(es, k - 1, provider)
      case Clear(p) => if p == provider then None else LastDeadline(es, k - 1, provider)
      case ClearAll => None
      case _ => LastDeadline(es, k - 1, provider)
  }

  lemma {:induction false} CooldownsHoldLastDeadline(es: seq<Event>, k: nat, provider: string)
    requires k <= |es|
    ensures var m := After(FRESH, es, k, false).cooldowns;
            (if provider in m then Some(m[provider]) else None) == LastDeadline(es, k, provider)
    decreases k
  {
    if k > 0 {
      CooldownsHoldLastDeadline(es, k - 1, provider);
      StoredForever(FRESH, es, k - 1, false);
      if !es[k - 1].op.RestartTracker? {
        StepDeadlines(After(FRESH, es, k - 1, false), es[k - 1]);
      }
    }
  }

  /**
   * After any run from an empty storage, restarts included, a provider is available exactly when the deadline of its
   * last failure has passed, a success or a clear since then counting as no failure.
   */
  lemma {:induction false} AvailableIffLastDeadlinePassed(es: seq<Event>, k: nat, from: real, provider: string,
                                                          now: real)
    requires Clocked(es, from) && k <= |es| && TimeAfter(es, k, from) <= now
    ensures IsAvailable(After(FRESH, es, k, true), provider, now) <==>
            LastDeadline(es, k, provider).None? || now >= LastDeadline(es, k, provider).value
  {
    FreshIsInSync(from);
    RestartsAreInvisible(FRESH, es, k, from, provider, now);
    CooldownsHoldLastDeadline(es, k, provider);
  }

  // ---- Probes are spaced ----

  /** The i-th event is an admitted probe of a provider in cooldown. */
  ghost predicate AdmittedAt(s: State, es: seq<Event>, i: nat, provider: string)
    requires i < |es|
  {
    && es[i].op == Probe(provider)
    && !IsAvailable(After(s, es, i, true), provider, es[i].at)
    && ProbeDue(After(s, es, i, true), provider, es[i].at)
  }

  /** At event `k` the provider is in cooldown, and the event neither reports it well nor clears it. */
  ghost predicate QuietAt(s: State, es: seq<Event>, k: nat, provider: string)
    requires k < |es|
  {
    && !IsAvailable(After(s, es, k, true), provider, es[k].at)
    && es[k].op != Succeed(provider) && es[k].op != Clear(provider) && es[k].op != ClearAll
  }

  /** From event `i` to event `j` the provider stays in cooldown. */
  ghost predicate StaysInCooldown(s: State, es: seq<Event>, i: nat, j: nat, provider: string)
    requires i <= j < |es|
  {
    forall k :: i <= k <= j ==> QuietAt(s, es, k, provider)
  }

  /** A probe at `since` or later is remembered, in memory and in storage. */
  ghost predicate Remembers(s: State, provider: string, since: real) {
    && s.stored && s.file.Some?
    && provider in s.lastProbe && s.lastProbe[provider] >= since
    && provider in s.file.value.probes && s.file.value.probes[provider] >= since
  }

  lemma {:induction false} StepRemembers(s: State, e: Event, provider: string, since: real)
    requires since > 0.0 && since <= e.at && Remembers(s, provider, since)
    requires !IsAvailable(s, provider, e.at)
    requires e.op != Succeed(provider) && e.op != Clear(provider) && e.op != ClearAll
    ensures Remembers(Step(s, e), provider, since)
  {
    assert provider in s.cooldowns && s.cooldowns[provider] > e.at;
  }

  lemma {:induction false} AdmittedRemembers(s: State, e: Event, provider: string)
    requires s.stored && e.at > 0.0 && e.op == Probe(provider)
    requires !IsAvailable(s, provider, e.at) && ProbeDue(s, provider, e.at)
    ensures Remembers(Step(s, e), provider, e.at)
  {
    assert provider in s.cooldowns && s.cooldowns[provider] > e.at;
  }

  lemma {:induction false} RemembersNext(s: State, es: seq<Event>, k: nat, provider: string, since: real)
    requires k < |es| && since > 0.0 && since <= es[k].at && Remembers(After(s, es, k, true), provider, since)
    requires QuietAt(s, es, k, provider)
    ensures Remembers(After(s, es, k + 1, true), provider, since)
  {
    StepRemembers(After(s, es, k, true), es[k], provider, since);
  }

  lemma {:induction false} AdmittedNext(s: State, es: seq<Event>, i: nat, provider: string)
    requires s.stored && i < |es| && es[i].at > 0.0 && AdmittedAt(s, es, i, provider)
    ensures Remembers(After(s, es, i + 1, true), provider, es[i].at)
  {
    StoredForever(s, es, i, true);
    AdmittedRemembers(After(s, es, i, true), es[i], provider);
  }

  lemma {:induction false} ProbeIsRemembered(s: State, es: seq<Event>, from: real, i: nat, k: nat, provider: string)
    requires Clocked(es, from) && s.stored && i < k <= |es|
    requires AdmittedAt(s, es, i, provider) && StaysInCooldown(s, es, i, k - 1, provider)
    ensures Remembers(After(s, es, k, true), provider, es[i].at)
    decreases k
  {
    if k == i + 1 {
      AdmittedNext(s, es, i, provider);
    } else {
      ProbeIsRemembered(s, es, from, i, k - 1, provider);
      assert QuietAt(s, es, k - 1, provider);
      RemembersNext(s, es, k - 1, provider, es[i].at);
    }
  }

  /**
   * While a provider stays in cooldown with no success and no clear, the probes let through are at least 30 seconds
   * apart, whatever else happens in between, restarts included.
   */
  lemma {:induction false} ProbesAreSpaced(s: State, es: seq<Event>, from: real, i: nat, j: nat, provider: string)
    requires Clocked(es, from) && s.stored && i < j < |es|
    requires AdmittedAt(s, es, i, provider) && AdmittedAt(s, es, j, provider)
    requires StaysInCooldown(s, es, i, j, provider)
    ensures es[j].at - es[i].at >= 30.0
  {
    ProbeIsRemembered(s, es, from, i, j, provider);
  }

  // ---- What a restart does to probes ----

  /** The probe times in the storage; an absent file holds none. */
  function ProbesInFile(s: State): map<string, real> {
    if s.file.Some? then s.file.value.probes else map[]
  }

  /** The storage holds no probe time but those in memory, all of them positive. */
  ghost predicate ProbesInStep(s: State) {
    && s.stored
    && (forall p :: p in s.lastProbe ==> s.lastProbe[p] > 0.0)
    && (forall p :: p in ProbesInFile(s) ==> p in s.lastProbe && s.lastProbe[p] == ProbesInFile(s)[p])
  }

  lemma {:induction false} RestartReloadsProbes(s: State, now: real)
    requires ProbesInStep(s)
    ensures Restart(s, now).lastProbe == ProbesInFile(s) && ProbesInFile(Restart(s, now)) == ProbesInFile(s)
    ensures Restart(s, now).stored
  {
    forall p | p in ProbesInFile(s) ensures ProbesInFile(s)[p] > 0.0 {
      assert p in s.lastProbe;
    }
  }

  /** A restart keeps whether a probe is due exactly unless it forgets a probe of the last 30 seconds. */
  lemma {:induction false} RestartKeepsDueIff(s: State, provider: string, now: real, later: real)
    requires ProbesInStep(s)
    ensures (ProbeDue(Restart(s, now), provider, later) <==> ProbeDue(s, provider, later)) <==>
            !(&& provider in s.lastProbe && provider !in ProbesInFile(s)
              && later - s.lastProbe[provider] < 30.0 <= later)
  {
    RestartReloadsProbes(s, now);
    hide Restart;
  }

  /** A write keeps a probe time exactly when the cooldown of its provider is still ahead. */
  lemma {:induction false} PersistKeepsProbeIff(s: State, now: real, provider: string)
    requires s.stored && provider in s.lastProbe && s.lastProbe[provider] > 0.0
    ensures provider in ProbesInFile(Persist(s, now)) <==> Ahead(s.cooldowns, provider, now).Some?
  {
  }

  predicate Admitted(s: State, provider: string, at: real) {
    !IsAvailable(s, provider, at) && ProbeDue(s, provider, at)
  }

  /** The event writes to the storage. */
  predicate Writes(s: State, e: Event) {
    match e.op
    case Probe(p) => Admitted(s, p, e.at)
    case RestartTracker => false
    case _ => true
  }

  /** The probe times after an event, before anything is dropped by a write or a restart. */
  function NextProbes(s: State, e: Event): map<string, real> {
    match e.op
    case Probe(p) => if Admitted(s, p, e.at) then s.lastProbe[p := e.at] else s.lastProbe
    case Succeed(p) => s.lastProbe - {p}
    case Clear(p) => s.lastProbe - {p}
    case ClearAll => map[]
    case _ => s.lastProbe
  }

  lemma {:induction false} StepProbes(s: State, e: Event)
    requires s.stored
    ensures Step(s, e).lastProbe == if e.op.RestartTracker? then Restart(s, e.at).lastProbe else NextProbes(s, e)
    ensures Writes(s, e) ==> Step(s, e) == Persist(s.(cooldowns := NextCooldowns(s.cooldowns, e),
                                                      lastProbe := NextProbes(s, e)), e.at)
    ensures !Writes(s, e) ==> ProbesInFile(Step(s, e)) == ProbesInFile(s)
  {
  }

  lemma {:induction false} StepKeepsProbesInStep(s: State, e: Event)
    requires ProbesInStep(s) && e.at > 0.0
    ensures ProbesInStep(Step(s, e))
  {
    StepProbes(s, e);
    RestartReloadsProbes(s, e.at);
    if !Writes(s, e) {
      hide Restart, Step;
    }
  }

  lemma {:induction false} ProbesStayInStep(es: seq<Event>, k: nat, from: real)
    requires Clocked(es, from) && k <= |es|
    ensures ProbesInStep(After(FRESH, es, k, true))
    decreases k
  {
    if k > 0 {
      ProbesStayInStep(es, k - 1, from);
      hide ProbesInStep, Step;
      StepKeepsProbesInStep(After(FRESH, es, k - 1, true), es[k - 1]);
    }
  }

  /** The deadline of the provider was still ahead at the last write among the first `k` events. */
  predicate AheadAtWrite(es: seq<Event>, k: nat, provider: string)
    requires k <= |es|
    decreases k
  {
    if k == 0 then false
    else if Writes(After(FRESH, es, k - 1, true), es[k - 1]) then
      LastDeadline(es, k, provider).Some? && LastDeadline(es, k, provider).value > es[k - 1].at
    else AheadAtWrite(es, k - 1, provider)
  }

  lemma {:induction false} AheadIsLastDeadline(es: seq<Event>, k: nat, from: real, provider: string)
    requires Clocked(es, from) && 0 < k <= |es|
    ensures Ahead(After(FRESH, es, k, true).cooldowns, provider, es[k - 1].at).Some? <==>
            LastDeadline(es, k, provider).Some? && LastDeadline(es, k, provider).value > es[k - 1].at
  {
    AvailableIffLastDeadlinePassed(es, k, from, provider, es[k - 1].at);
    AvailableIffNothingAhead(After(FRESH, es, k, true), provider, es[k - 1].at);
  }

  /** In every run the storage holds exactly the probe times whose cooldown was still ahead at the last write. */
  lemma {:induction false} StoredProbeIff(es: seq<Event>, k: nat, from: real, provider: string)
    requires Clocked(es, from) && k <= |es|
    ensures provider in ProbesInFile(After(FRESH, es, k, true)) <==>
            provider in After(FRESH, es, k, true).lastProbe && AheadAtWrite(es, k, provider)
    decreases k
  {
    if k > 0 {
      var s, e := After(FRESH, es, k - 1, true), es[k - 1];
      StoredProbeIff(es, k - 1, from, provider);
      ProbesStayInStep(es, k - 1, from);
      StepProbes(s, e);
      if Writes(s, e) {
        var next := s.(cooldowns := NextCooldowns(s.cooldowns, e), lastProbe := NextProbes(s, e));
        AheadIsLastDeadline(es, k, from, provider);
        ProbesStayInStep(es, k, from);
        if provider in next.lastProbe {
          PersistKeepsProbeIff(next, e.at, provider);
        }
      } else {
        RestartReloadsProbes(s, e.at);
      }
    }
  }

  lemma {:induction false} DeadlineAheadWasWritten(es: seq<Event>, k: nat, from: real, provider: string)
    requires Clocked(es, from) && k <= |es|
    requires LastDeadline(es, k, provider).Some? && LastDeadline(es, k, provider).value > TimeAfter(es, k, from)
    ensures AheadAtWrite(es, k, provider)
    decreases k
  {
    if !Writes(After(FRESH, es, k - 1, true), es[k - 1]) {
      DeadlineAheadWasWritten(es, k - 1, from, provider);
    }
  }

  /** The answer of `should_probe`. */
  predicate ProbeAnswer(s: State, provider: string, now: real) {
    IsAvailable(s, provider, now) || ProbeDue(s, provider, now)
  }

  lemma {:induction false} RestartKeepsAvailability(es: seq<Event>, k: nat, from: real, provider: string, now: real,
                                                    later: real)
    requires Clocked(es, from) && k <= |es| && TimeAfter(es, k, from) <= now <= later
    ensures var s := After(FRESH, es, k, true);
            IsAvailable(Restart(s, now), provider, later) <==> IsAvailable(s, provider, later)
  {
    var s := After(FRESH, es, k, true);
    FreshIsInSync(from);
    RestartsKeepAhead(FRESH, es, k, from);
    SameAheadLater(s.cooldowns, InFile(s), TimeAfter(es, k, from), now);
    RestartKeepsAhead(s, s.cooldowns, now);
    SameAheadLater(Restart(s, now).cooldowns, s.cooldowns, now, later);
    AvailableIffNothingAhead(s, provider, later);
    AvailableIffNothingAhead(Restart(s, now), provider, later);
  }

  /** A restart with nothing after it changes no probe answer: what it forgets belongs to available providers. */
  lemma {:induction false} RestartAloneChangesNoAnswer(es: seq<Event>, k: nat, from: real, provider: string, now: real,
                                                       later: real)
    requires Clocked(es, from) && k <= |es| && TimeAfter(es, k, from) <= now <= later
    ensures var s := After(FRESH, es, k, true);
            ProbeAnswer(Restart(s, now), provider, later) <==> ProbeAnswer(s, provider, later)
  {
    var s := After(FRESH, es, k, true);
    RestartKeepsAvailability(es, k, from, provider, now, later);
    if !IsAvailable(s, provider, later) {
      AvailableIffLastDeadlinePassed(es, k, from, provider, later);
      DeadlineAheadWasWritten(es, k, from, provider);
      StoredProbeIff(es, k, from, provider);
      ProbesStayInStep(es, k, from);
      RestartKeepsDueIff(s, provider, now, later);
    }
  }

  /** A restart forgot the last probe of the provider, and none was let through since. */
  predicate Forgotten(es: seq<Event>, k: nat, provider: string)
    requires k <= |es|
    decreases k
  {
    k > 0 &&
    match es[k - 1].op
    case RestartTracker => Forgotten(es, k - 1, provider) || !AheadAtWrite(es, k - 1, provider)
    case Probe(p) =>
      Forgotten(es, k - 1, provider) && !(p == provider && Admitted(After(FRESH, es, k - 1, true), p, es[k - 1].at))
    case _ => Forgotten(es, k - 1, provider)
  }

  /** With and without the restarts, the same probes are let through by the first `k` events. */
  ghost predicate SameProbes(es: seq<Event>, k: nat)
    requires k <= |es|
  {
    forall i :: 0 <= i < k && es[i].op.Probe? ==>
      (Admitted(After(FRESH, es, i, true), es[i].op.provider, es[i].at) <==>
       Admitted(After(FRESH, es, i, false), es[i].op.provider, es[i].at))
  }

  /** The tracker that restarts remembers the probes of the one that does not, except the forgotten ones. */
  ghost predicate RemembersUnless(a: State, b: State, provider: string, forgotten: bool) {
    if provider in b.lastProbe && !forgotten
    then provider in a.lastProbe && a.lastProbe[provider] == b.lastProbe[provider]
    else provider !in a.lastProbe
  }

  lemma {:induction false} RememberStep(a: State, b: State, e: Event, provider: string, forgotten: bool)
    requires a.stored && b.stored && !e.op.RestartTracker?
    requires e.op.Probe? ==> (Admitted(a, e.op.provider, e.at) <==> Admitted(b, e.op.provider, e.at))
    requires RemembersUnless(a, b, provider, forgotten)
    ensures RemembersUnless(Step(a, e), Step(b, e), provider,
                            forgotten && !(e.op == Probe(provider) && Admitted(a, provider, e.at)))
  {
    StepProbes(a, e);
    StepProbes(b, e);
    hide Step, Persist, Admitted;
  }

  lemma {:induction false} RememberRestart(a: State, b: State, now: real, provider: string, forgotten: bool,
                                           ahead: bool)
    requires ProbesInStep(a) && (provider in ProbesInFile(a) <==> provider in a.lastProbe && ahead)
    requires RemembersUnless(a, b, provider, forgotten)
    ensures RemembersUnless(Restart(a, now), b, provider, forgotten || !ahead)
  {
    RestartReloadsProbes(a, now);
    hide Restart;
    assert provider in ProbesInFile(a) ==> a.lastProbe[provider] == ProbesInFile(a)[provider];
  }

  lemma {:induction false} RestartsForget(es: seq<Event>, k: nat, from: real, provider: string)
    requires Clocked(es, from) && k <= |es| && SameProbes(es, k)
    ensures RemembersUnless(After(FRESH, es, k, true), After(FRESH, es, k, false), provider, Forgotten(es, k, provider))
    decreases k
  {
    hide Step, Restart, ProbesInStep, Admitted, RemembersUnless, AheadAtWrite, LastDeadline, Clocked;
    if k == 0 {
      FreshRemembers(provider);
    } else {
      var a, b, e := After(FRESH, es, k - 1, true), After(FRESH, es, k - 1, false), es[k - 1];
      RestartsForget(es, k - 1, from, provider);
      StoredForever(FRESH, es, k - 1, false);
      StoredForever(FRESH, es, k - 1, true);
      if e.op.RestartTracker? {
        ProbesStayInStep(es, k - 1, from);
        StoredProbeIff(es, k - 1, from, provider);
        StepOfRestart(a, e);
        RememberRestart(a, b, e.at, provider, Forgotten(es, k - 1, provider), AheadAtWrite(es, k - 1, provider));
      } else {
        RememberStep(a, b, e, provider, Forgotten(es, k - 1, provider));
      }
    }
  }

  lemma {:induction false} StepOfRestart(s: State, e: Event)
    requires e.op.RestartTracker?
    ensures Step(s, e) == Restart(s, e.at)
  {
  }

  lemma {:induction false} FreshRemembers(provider: string)
    ensures RemembersUnless(FRESH, FRESH, provider, false)
  {
  }

  lemma {:induction false} ProbesArePositive(es: seq<Event>, k: nat, from: real, provider: string)
    requires Clocked(es, from) && k <= |es|
    ensures var b := After(FRESH, es, k, false); provider in b.lastProbe ==> b.lastProbe[provider] > 0.0
    decreases k
  {
    if k > 0 {
      ProbesArePositive(es, k - 1, from, provider);
      StoredForever(FRESH, es, k - 1, false);
      StepProbes(After(FRESH, es, k - 1, false), es[k - 1]);
      hide Step;
    }
  }

  /**
   * As long as the restarts changed no probe, they change whether one is due exactly when a restart forgot the last
   * probe of the provider and that was less than 30 seconds ago; and so they change the answer exactly when, besides,
   * the provider has been put back into cooldown.
   */
  lemma {:induction false} RestartsChangeProbeIff(es: seq<Event>, k: nat, from: real, provider: string, now: real)
    requires Clocked(es, from) && k <= |es| && SameProbes(es, k) && TimeAfter(es, k, from) <= now
    ensures var a, b := After(FRESH, es, k, true), After(FRESH, es, k, false);
            var lost := Forgotten(es, k, provider) && provider in b.lastProbe
                        && now - b.lastProbe[provider] < 30.0 <= now;
            && ((ProbeDue(a, provider, now) <==> ProbeDue(b, provider, now)) <==> !lost)
            && ((ProbeAnswer(a, provider, now) <==> ProbeAnswer(b, provider, now)) <==>
                !(lost && LastDeadline(es, k, provider).Some? && LastDeadline(es, k, provider).value > now))
  {
    RestartsForget(es, k, from, provider);
    ProbesArePositive(es, k, from, provider);
    FreshIsInSync(from);
    RestartsAreInvisible(FRESH, es, k, from, provider, now);
    AvailableIffLastDeadlinePassed(es, k, from, provider, now);
    hide After, Forgotten, LastDeadline;
  }

  /** A probe whose fate the restarts before it change, if they changed none before. */
  predicate ChangedByRestarts(es: seq<Event>, i: nat)
    requires i < |es| && es[i].op.Probe?
  {
    var provider, now, b := es[i].op.provider, es[i].at, After(FRESH, es, i, false);
    && Forgotten(es, i, provider)
    && provider in b.lastProbe && now - b.lastProbe[provider] < 30.0 <= now
    && LastDeadline(es, i, provider).Some? && LastDeadline(es, i, provider).value > now
  }

  lemma {:induction false} ProbeChangesIff(es: seq<Event>, i: nat, from: real)
    requires Clocked(es, from) && i < |es| && es[i].op.Probe? && SameProbes(es, i)
    ensures (Admitted(After(FRESH, es, i, true), es[i].op.provider, es[i].at) <==>
             Admitted(After(FRESH, es, i, false), es[i].op.provider, es[i].at)) <==> !ChangedByRestarts(es, i)
  {
    hide Clocked, SameProbes, After, Forgotten, LastDeadline;
    var provider, now := es[i].op.provider, es[i].at;
    EventIsLater(es, i, from);
    FreshIsInSync(from);
    RestartsAreInvisible(FRESH, es, i, from, provider, now);
    RestartsChangeProbeIff(es, i, from, provider, now);
  }

  lemma {:induction false} EventIsLater(es: seq<Event>, i: nat, from: real)
    requires Clocked(es, from) && i < |es|
    ensures TimeAfter(es, i, from) <= es[i].at
  {
  }

  /** Restarts change no probe of a run exactly when no probe is changed by the restarts before it. */
  lemma {:induction false} SameProbesIff(es: seq<Event>, k: nat, from: real)
    requires Clocked(es, from) && k <= |es|
    ensures SameProbes(es, k) <==> forall i :: 0 <= i < k && es[i].op.Probe? ==> !ChangedByRestarts(es, i)
    decreases k
  {
    hide Clocked, After, Admitted, ChangedByRestarts;
    if k > 0 {
      SameProbesIff(es, k - 1, from);
      if SameProbes(es, k - 1) && es[k - 1].op.Probe? {
        ProbeChangesIff(es, k - 1, from);
      }
    }
  }

  // A run in which a cooldown runs out, another provider fails, and the first fails again after a restart.
  const FAIL := Event(1.0, Fail("p", Overloaded, None))
  const PROBED := Event(30.0, Probe("p"))
  const OTHER := Event(32.0, Fail("q", Overloaded, None))
  const RESTARTED := Event(32.0, RestartTracker)
  const AGAIN := Event(33.0, Fail("p", Overloaded, None))

  lemma ExampleStates()
    ensures var s3 := Step(Step(Step(FRESH, FAIL), PROBED), OTHER);
            && Lookup(Step(s3, AGAIN).lastProbe, "p") == 30.0
            && Lookup(Step(Step(s3, RESTARTED), AGAIN).lastProbe, "p") == 0.0
            && Lookup(Step(Step(s3, RESTARTED), AGAIN).cooldowns, "p") == 63.0
  {
    var s1 := Step(FRESH, FAIL);
    assert s1.cooldowns == map["p" := 31.0] && s1.lastProbe == map[];
    var s2 := Step(s1, PROBED);
    assert s2.cooldowns == map["p" := 31.0] && s2.lastProbe == map["p" := 30.0];
    var s3 := Step(s2, OTHER);
    assert s3.lastProbe == map["p" := 30.0] && "p" !in s3.file.value.probes;
    var s4 := Step(s3, RESTARTED);
    assert "p" !in s4.lastProbe;
  }

  lemma ExampleRuns()
    ensures var es := [FAIL, PROBED, OTHER, RESTARTED, AGAIN];
            var s3 := Step(Step(Step(FRESH, FAIL), PROBED), OTHER);
            && After(FRESH, es, 5, true) == Step(Step(s3, RESTARTED), AGAIN)
            && After(FRESH, es, 5, false) == Step(s3, AGAIN)
  {
    hide Step;
    var es := [FAIL, PROBED, OTHER, RESTARTED, AGAIN];
    forall restarts: bool
      ensures After(FRESH, es, 3, restarts) == Step(Step(Step(FRESH, FAIL), PROBED), OTHER)
    {
      assert After(FRESH, es, 1, restarts) == Step(FRESH, FAIL);
      assert After(FRESH, es, 2, restarts) == Step(Step(FRESH, FAIL), PROBED);
    }
    assert After(FRESH, es, 4, false) == After(FRESH, es, 3, false);
    assert After(FRESH, es, 4, true) == Step(After(FRESH, es, 3, true), RESTARTED);
  }

  /** Outside such a stretch a restart can let a probe through early: the storage drops the probe times of providers
      whose cooldown has run out, while the running tracker keeps them. */
  lemma RestartCanAdvanceAProbe()
    ensures exists es: seq<Event>, provider: string, now: real ::
              && Clocked(es, 1.0) && TimeAfter(es, |es|, 1.0) <= now
              && !IsAvailable(After(FRESH, es, |es|, true), provider, now)
              && ProbeDue(After(FRESH, es, |es|, true), provider, now)
              && !ProbeDue(After(FRESH, es, |es|, false), provider, now)
  {
    ExampleRuns();
    ExampleStates();
    var es := [FAIL, PROBED, OTHER, RESTARTED, AGAIN];
    hide After, Step;
    assert ProbeDue(After(FRESH, es, 5, true), "p", 40.0);
  }
}
