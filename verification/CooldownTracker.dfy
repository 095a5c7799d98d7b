/** The tracker object and its storage: feral-core/agents/llm_failover.py. */
module CooldownTracker {
  import opened Prelude
  import opened CooldownHistory

  /** The state file at a storage path. */
  class StateFile {
    var content: Option<Saved>

    constructor ()
      ensures content == None
    {
      content := None;
    }
  }

  class ProviderCooldownTracker {
    var cooldowns: map<string, real>
    var lastProbe: map<string, real>
    const storage: StateFile?

    /** The tracker and its storage as one state; without a storage path nothing is kept. */
    ghost function View(): State
      reads this, storage
    {
      State(cooldowns, lastProbe, storage != null, if storage != null then storage.content else None)
    }

    /** `__init__` with `_load_state`: what is left of the stored state at this time. */
    constructor (storage: StateFile?, now: real)
      ensures this.storage == storage
      ensures View() == Restart(State(map[], map[], storage != null,
                                      if storage != null then storage.content else None), now)
    {
      this.storage := storage;
      if storage != null && storage.content.Some? {
        cooldowns := StillAhead(storage.content.value.cooldowns, now);
        lastProbe := StillAhead(storage.content.value.probes, 0.0);
      } else {
        cooldowns, lastProbe := map[], map[];
      }
    }

    method PersistState(now: real)
      modifies storage
      ensures View() == Persist(old(View()), now)
    {
      if storage == null {
        return;
      }
      var kept := StillAhead(cooldowns, now);
      var probes := map p | p in lastProbe && p in kept && lastProbe[p] > 0.0 :: lastProbe[p];
      storage.content := Some(Saved(kept, probes));
    }

    method RecordFailure(provider: string, reason: Reason, retryAfter: Option<real>, now: real)
      modifies this, storage
      ensures View() == Step(old(View()), Event(now, Fail(provider, reason, retryAfter)))
      ensures !IsAvailable(View(), provider, now)
    {
      cooldowns := cooldowns[provider := now + CooldownSeconds(reason, retryAfter)];
      PersistState(now);
    }

    method Available(provider: string, now: real) returns (r: bool)
      ensures r == IsAvailable(View(), provider, now)
      ensures r <==> now >= if provider in cooldowns then cooldowns[provider] else 0.0
    {
      r := now >= Lookup(cooldowns, provider);
    }

    method ShouldProbe(provider: string, now: real) returns (r: bool)
      modifies this, storage
      ensures View() == Step(old(View()), Event(now, Probe(provider)))
      ensures r == (IsAvailable(old(View()), provider, now) || ProbeDue(old(View()), provider, now))
      ensures r <==>
                || now >= (if provider in old(cooldowns) then old(cooldowns)[provider] else 0.0)
                || now - (if provider in old(lastProbe) then old(lastProbe)[provider] else 0.0) >= 30.0
    {
      var available := Available(provider, now);
      if available {
        return true;
      }
      if now - Lookup(lastProbe, provider) >= PROBE_INTERVAL {
        lastProbe := lastProbe[provider := now];
        PersistState(now);
        return true;
      }
      return false;
    }

    method RecordSuccess(provider: string, now: real)
      modifies this, storage
      ensures View() == Step(old(View()), Event(now, Succeed(provider)))
    {
      cooldowns, lastProbe := cooldowns - {provider}, lastProbe - {provider};
      PersistState(now);
    }

    /** Forget one provider, or all of them; the providers forgotten are returned. */
    method ClearCooldowns(provider: Option<string>, now: real) returns (cleared: set<string>)
      modifies this, storage
      ensures provider.None? ==> View() == Step(old(View()), Event(now, ClearAll)) && cleared == old(cooldowns).Keys
      ensures provider.Some? ==>
                View() == Step(old(View()), Event(now, Clear(provider.value))) &&
                cleared == old(cooldowns).Keys * {provider.value}
    {
      if provider.None? {
        cleared := cooldowns.Keys;
        cooldowns, lastProbe := map[], map[];
      } else {
        cleared := if provider.value in cooldowns then {provider.value} else {};
        cooldowns, lastProbe := cooldowns - {provider.value}, lastProbe - {provider.value};
      }
      PersistState(now);
    }
  }
}
