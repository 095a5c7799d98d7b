/** The guard and the governor of one tool loop: feral-core/agents/iteration_budget.py. */
module IterationBudget {
  import opened Prelude
  import opened ToolResults
  import opened ToolHistory

  /** The key of a call, and of a call with its result. */
  datatype CallKey = CallKey(tool: string, args: string)
  datatype Signature = Signature(tool: string, args: string, body: string)

  /** The key the guard remembers of a history: that of its last observation, if it failed. */
  function LastCallOf(h: seq<Observation>): Option<CallKey> {
    if h == [] || Last(h).success then None else Some(CallKey(Last(h).tool, Last(h).args))
  }

  function LastSignatureOf(h: seq<Observation>): Option<Signature> {
    if h == [] || Last(h).success then None else Some(Signature(Last(h).tool, Last(h).args, Last(h).body))
  }

  /** The guard has tripped once a WARN or a STOP was returned; it is never reset. */
  ghost predicate HasTripped(h: seq<Observation>, warn: nat, stop: nat) {
    exists k :: 1 <= k <= |h| && LevelAfter(h[..k], warn, stop) != Ok
  }

  lemma {:induction false} HasTrippedStep(h: seq<Observation>, o: Observation, warn: nat, stop: nat)
    ensures HasTripped(h + [o], warn, stop) <==>
            HasTripped(h, warn, stop) || LevelAfter(h + [o], warn, stop) != Ok
  {
    var all := h + [o];
    forall k | 1 <= k <= |h| ensures all[..k] == h[..k] {}
    assert all[..|all|] == all;
  }

  /** One more observation extends a run exactly when it is a failure with the remembered key. */
  lemma {:induction false} RunStep(h: seq<Observation>, o: Observation)
    ensures var all := h + [o];
            && Run(all, false) == (if o.success then 0
                                   else if LastCallOf(h) == Some(CallKey(o.tool, o.args)) then Run(h, false) + 1
                                   else 1)
            && Run(all, true) == (if o.success then 0
                                  else if LastSignatureOf(h) == Some(Signature(o.tool, o.args, o.body))
                                  then Run(h, true) + 1
                                  else 1)
  {
    var all := h + [o];
    assert Front(all) == h && Last(all) == o;
    assert h != [] ==> all[|all| - 2] == Last(h);
  }

  // ---- The precondition bookkeeping, one observation at a time ----

  /** Streaks per tool, withdrawn tools with reasons, and all withdrawals in order. */
  datatype Ledger = Ledger(streaks: map<string, nat>, tools: map<string, string>, withdrawals: seq<Withdrawal>)

  function StreakOf(streaks: map<string, nat>, tool: string): nat {
    if tool in streaks then streaks[tool] else 0
  }

  function LedgerStep(l: Ledger, o: Observation, threshold: nat): Ledger {
    if !IsPreconditionFailure(o) then l.(streaks := l.streaks - {o.tool})
    else
      var streak := StreakOf(l.streaks, o.tool) + 1;
      var streaks := l.streaks[o.tool := streak];
      if streak < threshold || o.tool in l.tools then l.(streaks := streaks)
      else Ledger(streaks, l.tools[o.tool := o.reason], l.withdrawals + [Withdrawal(o.tool, o.reason)])
  }

  function LedgerOf(h: seq<Observation>, threshold: nat): Ledger {
    if h == [] then Ledger(map[], map[], []) else LedgerStep(LedgerOf(Front(h), threshold), Last(h), threshold)
  }

  /** The bookkeeping says what the whole history says. */
  lemma {:induction false} LedgerMeaning(h: seq<Observation>, threshold: nat)
    ensures LedgerOf(h, threshold).withdrawals == Withdrawals(h, threshold)
    ensures LedgerOf(h, threshold).tools == Reasons(Withdrawals(h, threshold))
    ensures forall t :: StreakOf(LedgerOf(h, threshold).streaks, t) == ToolRun(h, t)
    decreases |h|
  {
    if h != [] {
      var o := Last(h);
      assert Front(h) + [o] == h;
      LedgerMeaning(Front(h), threshold);
      WithdrawalsStep(Front(h), o, threshold);
      forall t ensures StreakOf(LedgerOf(h, threshold).streaks, t) == ToolRun(h, t) {
        ToolRunStep(Front(h), o, t);
      }
    }
  }

  class NoProgressGuard {
    const unavailableThreshold: nat
    const warnThreshold: nat
    const stopThreshold: nat
    var preconditionStreaks: map<string, nat>
    var unavailableTools: map<string, string>
    var unannounced: seq<Withdrawal>
    var lastSig: Option<Signature>
    var lastCall: Option<CallKey>
    var streak: nat
    var callStreak: nat
    var tripped: bool
    var level: Level

    /** Every observation so far, and every withdrawal handed out by a drain so far. */
    ghost var history: seq<Observation>
    ghost var announced: seq<Withdrawal>

    ghost predicate StreaksMatch(h: seq<Observation>)
      reads `streak, `callStreak, `lastSig, `lastCall, `level, `tripped
    {
      && streak == Run(h, true)
      && callStreak == Run(h, false)
      && lastSig == LastSignatureOf(h)
      && lastCall == LastCallOf(h)
      && level == LevelAfter(h, warnThreshold, stopThreshold)
      && (tripped <==> HasTripped(h, warnThreshold, stopThreshold))
    }

    ghost predicate LedgerMatches(h: seq<Observation>)
      reads `preconditionStreaks, `unavailableTools, `announced, `unannounced
    {
      Ledger(preconditionStreaks, unavailableTools, announced + unannounced) == LedgerOf(h, unavailableThreshold)
    }

    /** The fields say exactly what the whole history says. */
    ghost predicate Valid()
      reads this
    {
      && 1 <= warnThreshold <= stopThreshold
      && 1 <= unavailableThreshold
      && StreaksMatch(history)
      && LedgerMatches(history)
    }

    constructor (warn: int, stop: int, unavailable: int)
      ensures Valid() && history == [] && announced == []
      ensures warnThreshold == (if warn < 1 then 1 else warn)
      ensures stopThreshold == (if stop < warnThreshold then warnThreshold else stop)
      ensures unavailableThreshold == (if unavailable < 1 then 1 else unavailable)
    {
      unavailableThreshold := if unavailable < 1 then 1 else unavailable;
      preconditionStreaks, unavailableTools, unannounced := map[], map[], [];
      var w := if warn < 1 then 1 else warn;
      var s := if stop < 1 then 1 else stop;
      warnThreshold := w;
      stopThreshold := if s < w then w else s;
      lastSig, lastCall, streak, callStreak := None, None, 0, 0;
      tripped, level := false, Ok;
      history, announced := [], [];
    }

    /** Hand out the withdrawals not announced yet; over any run each is handed out once, in withdrawal order. */
    method TakeUnannouncedUnavailable() returns (pending: seq<Withdrawal>)
      requires Valid()
      modifies this`unannounced, this`announced
      ensures Valid()
      ensures pending == old(unannounced) && unannounced == []
      ensures announced == old(announced) + pending == Withdrawals(history, unavailableThreshold)
    {
      pending, unannounced := unannounced, [];
      announced := announced + pending;
      assert announced + unannounced == announced;
      LedgerMeaning(history, unavailableThreshold);
    }

    /** The precondition streak of one tool; arguments are ignored. */
    method ObservePrecondition(ghost h: seq<Observation>, ghost o: Observation,
                               toolName: string, success: bool, reason: string)
      requires LedgerMatches(h)
      requires o.tool == toolName && o.success == success && o.reason == reason
      modifies this`preconditionStreaks, this`unavailableTools, this`unannounced
      ensures LedgerMatches(h + [o])
    {
      assert Front(h + [o]) == h && Last(h + [o]) == o;
      if success {
        preconditionStreaks := preconditionStreaks - {toolName};
        return;
      }
      if reason == "" {
        preconditionStreaks := preconditionStreaks - {toolName};
        return;
      }
      var streak := StreakOf(preconditionStreaks, toolName) + 1;
      preconditionStreaks := preconditionStreaks[toolName := streak];
      if streak < unavailableThreshold || toolName in unavailableTools {
        return;
      }
      unavailableTools := unavailableTools[toolName := reason];
      var w := Withdrawal(toolName, reason);
      assert announced + (unannounced + [w]) == announced + unannounced + [w];
      unannounced := unannounced + [w];
    }

    /** Record one executed call and return the guard level of the whole history. */
    method Observe(toolName: string, args: string, success: bool, result: ToolResult, body: string)
      returns (r: Level)
      requires Valid()
      modifies this
      ensures Valid()
      ensures history == old(history) + [Observation(toolName, args, success, PreconditionFailureReason(result), body)]
      ensures announced == old(announced)
      ensures r == level == LevelAfter(history, warnThreshold, stopThreshold)
    {
      var reason := PreconditionFailureReason(result);
      r := Record(toolName, args, success, reason, body);
    }

    /** One more observation with the given precondition reason. */
    method Record(toolName: string, args: string, success: bool, reason: string, body: string) returns (r: Level)
      requires Valid()
      modifies this
      ensures Valid()
      ensures history == old(history) + [Observation(toolName, args, success, reason, body)]
      ensures announced == old(announced)
      ensures r == level == LevelAfter(history, warnThreshold, stopThreshold)
    {
      ghost var o := Observation(toolName, args, success, reason, body);
      ObservePrecondition(history, o, toolName, success, reason);
      r := AdvanceStreaks(history, o, toolName, args, success, body);
      history := history + [o];
    }

    /** The two streaks of one call, and the level they give. */
    method AdvanceStreaks(ghost h: seq<Observation>, ghost o: Observation,
                          toolName: string, args: string, success: bool, body: string)
      returns (r: Level)
      requires 1 <= warnThreshold <= stopThreshold && StreaksMatch(h)
      requires o.tool == toolName && o.args == args && o.success == success && o.body == body
      modifies this`lastSig, this`lastCall, this`streak, this`callStreak, this`tripped, this`level
      ensures StreaksMatch(h + [o]) && r == level
    {
      RunStep(h, o);
      HasTrippedStep(h, o, warnThreshold, stopThreshold);
      assert Last(h + [o]) == o;
      if success {
        lastSig, lastCall, streak, callStreak := None, None, 0, 0;
        level := Ok;
        return Ok;
      }
      var call := CallKey(toolName, args);
      if lastCall == Some(call) {
        callStreak := callStreak + 1;
      } else {
        lastCall := Some(call);
        callStreak := 1;
      }
      var sig := Signature(toolName, args, body);
      if lastSig == Some(sig) {
        streak := streak + 1;
      } else {
        lastSig := Some(sig);
        streak := 1;
      }
      if callStreak >= stopThreshold {
        tripped, level := true, Stop;
        return Stop;
      }
      if streak >= warnThreshold {
        tripped, level := true, Warn;
        return Warn;
      }
      level := Ok;
      return Ok;
    }
  }

  datatype StopReason = NotStopped | MaxIterationsReached(n: nat) | WallClock(seconds: real) | NoProgress(n: nat)

  class IterationBudget {
    const maxIterations: nat
    const maxSeconds: real
    const guard: NoProgressGuard
    const started: real
    var iterations: nat
    var stopReason: StopReason

    ghost predicate Valid()
      reads this, guard
    {
      guard.Valid() && maxSeconds >= 0.0 && (maxIterations > 0 ==> iterations <= maxIterations)
    }

    constructor (maxIterations: int, maxSeconds: real, guard: NoProgressGuard, now: real)
      requires guard.Valid()
      ensures Valid() && iterations == 0 && stopReason == NotStopped
      ensures this.guard == guard && started == now
      ensures this.maxIterations == (if maxIterations < 0 then 0 else maxIterations)
      ensures this.maxSeconds == (if maxSeconds < 0.0 then 0.0 else maxSeconds)
    {
      this.maxIterations := if maxIterations < 0 then 0 else maxIterations;
      this.maxSeconds := if maxSeconds < 0.0 then 0.0 else maxSeconds;
      this.guard, this.started := guard, now;
      iterations, stopReason := 0, NotStopped;
    }

    predicate AtLimit(rounds: nat) {
      maxIterations > 0 && rounds >= maxIterations
    }

    /** Only the continuation of a loop is gated by the clock. */
    predicate OutOfTime(rounds: nat, now: real) {
      rounds > 0 && maxSeconds > 0.0 && now - started > maxSeconds
    }

    /** May the loop run another round? The first round passes the wall clock; a refusal counts nothing. */
    method StartIteration(now: real) returns (ok: bool)
      requires Valid()
      modifies this`iterations, this`stopReason
      ensures Valid()
      ensures ok <==> !AtLimit(old(iterations)) && !OutOfTime(old(iterations), now)
      ensures iterations == old(iterations) + if ok then 1 else 0
      ensures stopReason == if ok then old(stopReason)
                            else if AtLimit(old(iterations)) then MaxIterationsReached(maxIterations)
                            else WallClock(maxSeconds)
      ensures old(iterations) == 0 ==> ok
    {
      if maxIterations != 0 && iterations >= maxIterations {
        stopReason := MaxIterationsReached(maxIterations);
        return false;
      }
      if iterations > 0 && maxSeconds != 0.0 && now - started > maxSeconds {
        stopReason := WallClock(maxSeconds);
        return false;
      }
      iterations := iterations + 1;
      return true;
    }

    /** Feed one execution to the guard; the first STOP is kept as the reason unless there is one already. */
    method ObserveTool(toolName: string, args: string, success: bool, result: ToolResult, body: string)
      returns (r: Level)
      requires Valid()
      modifies this`stopReason, guard
      ensures Valid()
      ensures guard.history ==
              old(guard.history) + [Observation(toolName, args, success, PreconditionFailureReason(result), body)]
      ensures r == LevelAfter(guard.history, guard.warnThreshold, guard.stopThreshold)
      ensures guard.announced == old(guard.announced)
      ensures stopReason == if r == Stop && old(stopReason) == NotStopped then NoProgress(guard.stopThreshold)
                            else old(stopReason)
    {
      r := guard.Observe(toolName, args, success, result, body);
      if r == Stop && stopReason == NotStopped {
        stopReason := NoProgress(guard.stopThreshold);
      }
    }

    /** The tools still offered: those not withdrawn by the history so far. */
    method FilterTools(tools: seq<ToolDef>) returns (kept: seq<ToolDef>)
      requires Valid()
      ensures kept == DropUnavailable(tools, Reasons(Withdrawals(guard.history, guard.unavailableThreshold)))
    {
      LedgerMeaning(guard.history, guard.unavailableThreshold);
      kept := DropUnavailable(tools, guard.unavailableTools);
    }
  }
}
