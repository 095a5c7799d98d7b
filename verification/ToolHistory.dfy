/** What the guards of feral-core/agents/iteration_budget.py promise, as functions of the whole observation history. */
module ToolHistory {
  import opened Prelude

  /**
   * One executed call. `args` and `body` are the stable keys of the arguments and of the result; `reason` is the
   * missing precondition read off the result, or the empty string.
   */
  datatype Observation = Observation(tool: string, args: string, success: bool, reason: string, body: string)

  // ---- Trailing runs of the same failing call ----

  predicate Same(a: Observation, b: Observation, strict: bool) {
    a.tool == b.tool && a.args == b.args && (strict ==> a.body == b.body)
  }

  function Last(h: seq<Observation>): Observation
    requires h != []
  {
    h[|h| - 1]
  }

  function Front(h: seq<Observation>): seq<Observation>
    requires h != []
  {
    h[..|h| - 1]
  }

  /** The history as it was `j` observations ago. */
  function Before(h: seq<Observation>, j: nat): seq<Observation>
    requires j <= |h|
  {
    h[..|h| - j]
  }

  /** Length of the trailing run of failures of one call (`strict`: with one result). */
  function Run(h: seq<Observation>, strict: bool): nat {
    if h == [] || Last(h).success then 0
    else if |h| >= 2 && !h[|h| - 2].success && Same(h[|h| - 2], Last(h), strict) then 1 + Run(Front(h), strict)
    else 1
  }

  /** The last `k` observations are failures of the newest call (`strict`: with the newest result). */
  ghost predicate EndsInFailures(h: seq<Observation>, k: nat, strict: bool) {
    && k <= |h|
    && forall i :: |h| - k <= i < |h| ==>
         && !h[i].success && h[i].tool == h[|h| - 1].tool && h[i].args == h[|h| - 1].args
         && (strict ==> h[i].body == h[|h| - 1].body)
  }

  /** The run is the longest such ending. */
  lemma {:induction false} RunIsLongest(h: seq<Observation>, k: nat, strict: bool)
    ensures k <= Run(h, strict) <==> EndsInFailures(h, k, strict)
    decreases |h|
  {
    if h != [] && k > 0 {
      var n := |h|;
      if |h| >= 2 && !h[n - 2].success && Same(h[n - 2], h[n - 1], strict) && !h[n - 1].success {
        RunIsLongest(Front(h), k - 1, strict);
        if EndsInFailures(h, k, strict) {
          assert EndsInFailures(Front(h), k - 1, strict) by {
            forall i | n - 1 - (k - 1) <= i < n - 1
              ensures !Front(h)[i].success && Same(Front(h)[i], Last(Front(h)), strict)
            {
              assert !h[i].success && Same(h[i], h[n - 1], strict);
            }
          }
        } else if EndsInFailures(Front(h), k - 1, strict) {
          forall i | n - k <= i < n ensures !h[i].success && Same(h[i], Last(h), strict) {
            if i < n - 1 {
              assert !Front(h)[i].success && Same(Front(h)[i], Last(Front(h)), strict);
            }
          }
        }
      } else {
        assert n >= 2 ==> h[n - 1].success || h[n - 2].success || !Same(h[n - 2], h[n - 1], strict);
      }
    }
  }

  /** Identical failures are failures of the same call. */
  lemma {:induction false} StrictRunIsShorter(h: seq<Observation>)
    ensures Run(h, true) <= Run(h, false)
  {
    RunIsLongest(h, Run(h, true), true);
    RunIsLongest(h, Run(h, true), false);
    assert forall i :: |h| - Run(h, true) <= i < |h| ==> Same(h[i], Last(h), true);
  }

  datatype Level = Ok | Warn | Stop

  function LevelAfter(h: seq<Observation>, warn: nat, stop: nat): Level {
    if h == [] || Last(h).success then Ok
    else if Run(h, false) >= stop then Stop
    else if Run(h, true) >= warn then Warn
    else Ok
  }

  /** STOP exactly when the last `stop` observations are one failing call; WARN exactly when not STOP and the last
      `warn` observations are identical failures. */
  lemma {:induction false} LevelMeaning(h: seq<Observation>, warn: nat, stop: nat)
    requires 1 <= warn && 1 <= stop
    ensures LevelAfter(h, warn, stop) == Stop <==> EndsInFailures(h, stop, false)
    ensures LevelAfter(h, warn, stop) == Warn <==> !EndsInFailures(h, stop, false) && EndsInFailures(h, warn, true)
  {
    RunIsLongest(h, stop, false);
    RunIsLongest(h, warn, true);
  }

  lemma {:induction false} FailuresAtPrefix(h: seq<Observation>, k: nat, j: nat, strict: bool)
    requires EndsInFailures(h, k, strict) && j < k
    ensures EndsInFailures(Before(h, j), k - j, strict)
  {
    var p := Before(h, j);
    assert !h[|p| - 1].success && Same(h[|p| - 1], Last(h), strict);
    forall i | |p| - (k - j) <= i < |p| ensures !p[i].success && Same(p[i], Last(p), strict) {
      assert !h[i].success && Same(h[i], Last(h), strict);
    }
  }

  /** Taking `j` observations off the end of a run shortens it by `j`. */
  lemma {:induction false} RunOfPrefix(h: seq<Observation>, j: nat)
    requires j < Run(h, false)
    ensures j <= |h| && Run(Before(h, j), false) == Run(h, false) - j
    decreases j
  {
    if j == 0 {
      assert h[..|h|] == h;
    } else {
      RunOfPrefix(Front(h), j - 1);
      assert Before(Front(h), j - 1) == Before(h, j);
    }
  }

  /** A WARN came in this run of failures before its last observation. */
  ghost predicate WarnedBefore(h: seq<Observation>, warn: nat, stop: nat) {
    exists j :: 1 <= j < stop && j <= |h| && LevelAfter(Before(h, j), warn, stop) == Warn
  }

  lemma {:induction false} LevelBeforeStop(h: seq<Observation>, warn: nat, stop: nat, j: nat)
    requires 1 <= warn <= stop && Run(h, false) == stop && 1 <= j < stop
    ensures j <= |h| && (LevelAfter(Before(h, j), warn, stop) == Warn <==> EndsInFailures(Before(h, j), warn, true))
  {
    RunOfPrefix(h, j);
    RunIsLongest(Before(h, j), stop, false);
    LevelMeaning(Before(h, j), warn, stop);
  }

  /**
   * The first STOP of a run of failures, whatever their bodies, is preceded by a WARN in that run exactly when
   * `warn` identical failures had followed one another before it.
   */
  lemma {:induction false} WarnedBeforeStopIff(h: seq<Observation>, warn: nat, stop: nat)
    requires 1 <= warn <= stop && Run(h, false) == stop
    ensures LevelAfter(h, warn, stop) == Stop
    ensures WarnedBefore(h, warn, stop) <==>
            exists j :: 1 <= j < stop && j <= |h| && EndsInFailures(Before(h, j), warn, true)
  {
    forall j | 1 <= j < stop && j <= |h|
      ensures LevelAfter(Before(h, j), warn, stop) == Warn <==> EndsInFailures(Before(h, j), warn, true)
    {
      LevelBeforeStop(h, warn, stop, j);
    }
  }

  /** A run of identical failures is warned exactly when the warning threshold is the smaller one. */
  lemma {:induction false} IdenticalFailuresWarnedIff(h: seq<Observation>, warn: nat, stop: nat)
    requires 1 <= warn <= stop && EndsInFailures(h, stop, true) && Run(h, false) == stop
    ensures WarnedBefore(h, warn, stop) <==> warn < stop
  {
    WarnedBeforeStopIff(h, warn, stop);
    if warn < stop {
      FailuresAtPrefix(h, stop, 1, true);
      RunIsLongest(Before(h, 1), stop - 1, true);
      RunIsLongest(Before(h, 1), warn, true);
      assert EndsInFailures(Before(h, 1), warn, true);
    } else if WarnedBefore(h, warn, stop) {
      var j :| 1 <= j < stop && j <= |h| && EndsInFailures(Before(h, j), warn, true);
      RunOfPrefix(h, j);
      RunIsLongest(Before(h, j), warn, true);
      StrictRunIsShorter(Before(h, j));
    }
  }

  /** Failures of one call whose bodies take turns. */
  function Turn(n: nat): Observation {
    Observation("t", "", false, "", if n % 2 == 0 then "0" else "1")
  }

  function Alternating(n: nat): seq<Observation> {
    if n == 0 then [] else Alternating(n - 1) + [Turn(n)]
  }

  lemma {:induction false} TurnsDiffer(n: nat)
    ensures !Turn(n).success && Same(Turn(n), Turn(n + 1), false) && !Same(Turn(n), Turn(n + 1), true)
  {
    assert "0"[0] != "1"[0];
  }

  lemma {:induction false} RunOfMore(h: seq<Observation>, o: Observation, strict: bool)
    requires h != [] && !Last(h).success && !o.success
    ensures Run(h + [o], strict) == if Same(Last(h), o, strict) then 1 + Run(h, strict) else 1
  {
    var more := h + [o];
    assert Front(more) == h && Last(more) == o && more[|more| - 2] == Last(h);
  }

  lemma {:induction false} RunOfOne(o: Observation, strict: bool)
    requires !o.success
    ensures Run([o], strict) == 1
  {
  }

  lemma {:induction false} AlternatingRuns(n: nat)
    ensures |Alternating(n)| == n == Run(Alternating(n), false)
    ensures Run(Alternating(n), true) <= 1
    ensures n > 0 ==> Last(Alternating(n)) == Turn(n) && Front(Alternating(n)) == Alternating(n - 1)
    decreases n
  {
    hide Turn, Same;
    if n > 0 {
      AlternatingRuns(n - 1);
      TurnsDiffer(n - 1);
      TurnsDiffer(n);
      hide Run;
      assert Front(Alternating(n)) == Alternating(n - 1);
      if n == 1 {
        RunOfOne(Turn(1), false);
        RunOfOne(Turn(1), true);
        assert Alternating(1) == [Turn(1)];
      } else {
        RunOfMore(Alternating(n - 1), Turn(n), false);
        RunOfMore(Alternating(n - 1), Turn(n), true);
      }
    }
  }

  lemma {:induction false} AlternatingBefore(n: nat, j: nat)
    requires j <= n
    ensures |Alternating(n)| == n && Before(Alternating(n), j) == Alternating(n - j)
    decreases j
  {
    AlternatingRuns(n);
    hide Run, Turn;
    if j == 0 {
      assert Alternating(n)[..n] == Alternating(n);
    } else {
      AlternatingBefore(n - 1, j - 1);
    }
  }

  lemma {:induction false} AlternatingIsUnwarned(warn: nat, stop: nat)
    requires 2 <= warn <= stop
    ensures !WarnedBefore(Alternating(stop), warn, stop)
  {
    var h := Alternating(stop);
    AlternatingRuns(stop);
    WarnedBeforeStopIff(h, warn, stop);
    forall j | 1 <= j < stop && j <= |h| ensures !EndsInFailures(Before(h, j), warn, true) {
      AlternatingBefore(stop, j);
      AlternatingRuns(stop - j);
      RunIsLongest(Alternating(stop - j), warn, true);
    }
  }

  /**
   * The settings that guarantee a warning round: every run of failures is warned before its STOP exactly when the
   * warning threshold is 1 and the stop threshold is larger. Ordering the thresholds (`stop >= warn`) is not enough.
   */
  lemma {:induction false} AlwaysWarnedIff(warn: nat, stop: nat)
    requires 1 <= warn <= stop
    ensures (forall h: seq<Observation> :: Run(h, false) == stop ==> WarnedBefore(h, warn, stop)) <==> warn == 1 < stop
  {
    AlternatingRuns(stop);
    if warn >= 2 {
      AlternatingIsUnwarned(warn, stop);
    } else {
      forall h: seq<Observation> | Run(h, false) == stop ensures WarnedBefore(h, 1, stop) <==> 1 < stop {
        if 1 < stop {
          FirstFailureWarns(h, stop);
        }
      }
    }
  }

  lemma {:induction false} FirstFailureWarns(h: seq<Observation>, stop: nat)
    requires 1 < stop && Run(h, false) == stop
    ensures WarnedBefore(h, 1, stop)
  {
    LevelBeforeStop(h, 1, stop, 1);
    RunOfPrefix(h, 1);
    assert EndsInFailures(Before(h, 1), 1, true);
  }

  /** With any other setting the failing bodies can change so that a STOP comes without any WARN before it. */
  lemma {:induction false} ChangingBodiesStopUnwarned(warn: nat, stop: nat)
    requires 2 <= warn <= stop
    ensures exists h: seq<Observation> ::
              && LevelAfter(h, warn, stop) == Stop
              && forall j :: 1 <= j <= |h| ==> LevelAfter(Before(h, j), warn, stop) != Warn
  {
    var h := Alternating(stop);
    AlternatingRuns(stop);
    AlternatingIsUnwarned(warn, stop);
    forall j | 1 <= j <= |h| ensures LevelAfter(Before(h, j), warn, stop) != Warn {
      if j == |h| {
        assert Before(h, j) == [];
      }
    }
  }

  // ---- Withdrawn tools ----

  /** A failure no argument will fix. */
  predicate IsPreconditionFailure(o: Observation) {
    !o.success && o.reason != ""
  }

  /** The observations of one tool. */
  function Own(h: seq<Observation>, tool: string): seq<Observation> {
    if h == [] then []
    else Own(Front(h), tool) + if Last(h).tool == tool then [Last(h)] else []
  }

  /** Consecutive precondition failures at the end of a tool's own history. */
  function PreconditionRun(own: seq<Observation>): nat {
    if own == [] || !IsPreconditionFailure(Last(own)) then 0 else 1 + PreconditionRun(Front(own))
  }

  /** Consecutive precondition failures of one tool, whatever was called in between. */
  function ToolRun(h: seq<Observation>, tool: string): nat {
    PreconditionRun(Own(h, tool))
  }

  lemma {:induction false} ToolRunStep(h: seq<Observation>, o: Observation, tool: string)
    ensures ToolRun(h + [o], tool) ==
            if o.tool != tool then ToolRun(h, tool) else if IsPreconditionFailure(o) then ToolRun(h, tool) + 1 else 0
  {
    var all := h + [o];
    assert Front(all) == h && Last(all) == o;
    if o.tool == tool {
      assert Own(all, tool) == Own(h, tool) + [o];
      assert Front(Own(all, tool)) == Own(h, tool);
    } else {
      assert Own(all, tool) == Own(h, tool);
    }
  }

  datatype Withdrawal = Withdrawal(tool: string, reason: string)

  /** The tools withdrawn so far with their reasons, in order. */
  function Withdrawals(h: seq<Observation>, threshold: nat): seq<Withdrawal> {
    if h == [] then []
    else
      var before := Withdrawals(Front(h), threshold);
      var o := Last(h);
      if IsPreconditionFailure(o) && ToolRun(h, o.tool) >= threshold && o.tool !in Reasons(before)
      then before + [Withdrawal(o.tool, o.reason)]
      else before
  }

  /** The withdrawn tools with their reasons, as the guard keeps them. */
  function Reasons(ws: seq<Withdrawal>): map<string, string> {
    if ws == [] then map[] else Reasons(ws[..|ws| - 1])[ws[|ws| - 1].tool := ws[|ws| - 1].reason]
  }

  lemma {:induction false} ReasonsAppend(ws: seq<Withdrawal>, w: Withdrawal)
    ensures Reasons(ws + [w]) == Reasons(ws)[w.tool := w.reason]
  {
    assert (ws + [w])[..|ws|] == ws;
  }

  lemma {:induction false} ReasonsContain(ws: seq<Withdrawal>, i: nat)
    requires i < |ws|
    ensures ws[i].tool in Reasons(ws)
    decreases |ws|
  {
    if i < |ws| - 1 {
      ReasonsContain(ws[..|ws| - 1], i);
    }
  }

  lemma {:induction false} WithdrawalsStep(h: seq<Observation>, o: Observation, threshold: nat)
    ensures var before, after := Withdrawals(h, threshold), Withdrawals(h + [o], threshold);
            if IsPreconditionFailure(o) && ToolRun(h, o.tool) + 1 >= threshold && o.tool !in Reasons(before)
            then after == before + [Withdrawal(o.tool, o.reason)]
                 && Reasons(after) == Reasons(before)[o.tool := o.reason]
            else after == before
  {
    assert Front(h + [o]) == h && Last(h + [o]) == o;
    ToolRunStep(h, o, o.tool);
    ReasonsAppend(Withdrawals(h, threshold), Withdrawal(o.tool, o.reason));
  }

  ghost predicate HasFailuresAt(own: seq<Observation>, j: nat, k: nat) {
    j + k <= |own| && forall i :: j <= i < j + k ==> IsPreconditionFailure(own[i])
  }

  lemma {:induction false} PreconditionRunIsLongest(own: seq<Observation>, k: nat)
    ensures k <= PreconditionRun(own) <==> k <= |own| && HasFailuresAt(own, |own| - k, k)
    decreases |own|
  {
    if own != [] && k > 0 {
      PreconditionRunIsLongest(Front(own), k - 1);
      if k <= |own| && HasFailuresAt(own, |own| - k, k) {
        assert IsPreconditionFailure(own[|own| - 1]);
        assert HasFailuresAt(Front(own), |own| - k, k - 1);
      }
    }
  }

  ghost predicate HasFailures(own: seq<Observation>, k: nat) {
    exists j: nat :: HasFailuresAt(own, j, k)
  }

  /** One more observation completes a stretch of failures exactly at the end. */
  lemma {:induction false} HasFailuresStep(own: seq<Observation>, o: Observation, k: nat)
    requires k >= 1
    ensures HasFailures(own + [o], k) <==> HasFailures(own, k) || PreconditionRun(own + [o]) >= k
  {
    var all := own + [o];
    PreconditionRunIsLongest(all, k);
    if j: nat :| HasFailuresAt(own, j, k) {
      assert forall i :: j <= i < j + k ==> all[i] == own[i];
      assert HasFailuresAt(all, j, k);
    }
    if j: nat :| HasFailuresAt(all, j, k) {
      if j + k <= |own| {
        assert forall i :: j <= i < j + k ==> all[i] == own[i];
        assert HasFailuresAt(own, j, k);
      } else {
        assert j == |all| - k;
      }
    }
  }

  /** A tool is withdrawn exactly when its own history holds `threshold` consecutive precondition failures. */
  lemma {:induction false} WithdrawnIff(h: seq<Observation>, threshold: nat, tool: string)
    requires threshold >= 1
    ensures tool in Reasons(Withdrawals(h, threshold)) <==> HasFailures(Own(h, tool), threshold)
    decreases |h|
  {
    if h != [] {
      var o := Last(h);
      var before := Withdrawals(Front(h), threshold);
      WithdrawnIff(Front(h), threshold, tool);
      ReasonsAppend(before, Withdrawal(o.tool, o.reason));
      if o.tool == tool {
        HasFailuresStep(Own(Front(h), tool), o, threshold);
      } else {
        assert Own(h, tool) == Own(Front(h), tool);
      }
    }
  }

  ghost predicate SameOutcomes(a: seq<Observation>, b: seq<Observation>) {
    |a| == |b| && forall i :: 0 <= i < |a| ==> IsPreconditionFailure(a[i]) == IsPreconditionFailure(b[i])
  }

  lemma {:induction false} SameFailures(a: seq<Observation>, b: seq<Observation>, k: nat)
    requires SameOutcomes(a, b)
    ensures HasFailures(a, k) <==> HasFailures(b, k)
  {
    forall j: nat ensures HasFailuresAt(a, j, k) <==> HasFailuresAt(b, j, k) {
    }
  }

  /** Withdrawal looks at nothing but the tool's own outcomes: not at arguments, bodies, or other tools' calls. */
  lemma {:induction false} WithdrawalIgnoresArguments(h: seq<Observation>, g: seq<Observation>, threshold: nat,
                                                      tool: string)
    requires threshold >= 1 && SameOutcomes(Own(h, tool), Own(g, tool))
    ensures tool in Reasons(Withdrawals(h, threshold)) <==> tool in Reasons(Withdrawals(g, threshold))
  {
    WithdrawnIff(h, threshold, tool);
    WithdrawnIff(g, threshold, tool);
    SameFailures(Own(h, tool), Own(g, tool), threshold);
  }

  ghost predicate OnePerTool(ws: seq<Withdrawal>) {
    forall i, j :: 0 <= i < j < |ws| ==> ws[i].tool != ws[j].tool
  }

  /** No tool is withdrawn twice. */
  lemma {:induction false} WithdrawnOnce(h: seq<Observation>, threshold: nat)
    ensures OnePerTool(Withdrawals(h, threshold))
    decreases |h|
  {
    if h != [] {
      WithdrawnOnce(Front(h), threshold);
      var before := Withdrawals(Front(h), threshold);
      forall i | 0 <= i < |before| ensures before[i].tool in Reasons(before) {
        ReasonsContain(before, i);
      }
    }
  }

  /** No tool is ever restored, and earlier withdrawals keep their place. */
  lemma {:induction false} WithdrawalsGrow(h: seq<Observation>, k: nat, threshold: nat)
    requires k <= |h|
    ensures Withdrawals(h[..k], threshold) <= Withdrawals(h, threshold)
    decreases |h|
  {
    if k < |h| {
      WithdrawalsGrow(Front(h), k, threshold);
      assert Front(h)[..k] == h[..k];
    } else {
      assert h[..k] == h;
    }
  }

  // ---- A futile loop ----

  /** Every call names a tool still offered at that point, and every answer is a precondition failure. */
  predicate FutileLoop(h: seq<Observation>, tools: seq<string>, threshold: nat) {
    h == [] ||
    (&& FutileLoop(Front(h), tools, threshold)
     && Last(h).tool in tools
     && Last(h).tool !in Reasons(Withdrawals(Front(h), threshold))
     && IsPreconditionFailure(Last(h)))
  }

  /** In a futile loop a tool is called at most `threshold` times, and is withdrawn at the last of these calls. */
  lemma {:induction false} FutileCallsPerTool(h: seq<Observation>, tools: seq<string>, threshold: nat, tool: string)
    requires threshold >= 1 && FutileLoop(h, tools, threshold)
    ensures |Own(h, tool)| == PreconditionRun(Own(h, tool)) <= threshold
    ensures tool in Reasons(Withdrawals(h, threshold)) <==> |Own(h, tool)| == threshold
    decreases |h|
  {
    if h != [] {
      var o := Last(h);
      FutileCallsPerTool(Front(h), tools, threshold, tool);
      ReasonsAppend(Withdrawals(Front(h), threshold), Withdrawal(o.tool, o.reason));
      if o.tool == tool {
        assert Own(h, tool) == Own(Front(h), tool) + [o];
        assert Front(Own(h, tool)) == Own(Front(h), tool);
      } else {
        assert Own(h, tool) == Own(Front(h), tool);
      }
    }
  }

  /** Calls made to the listed tools. */
  function Calls(h: seq<Observation>, tools: seq<string>): nat {
    if tools == [] then 0 else |Own(h, tools[0])| + Calls(h, tools[1..])
  }

  lemma {:induction false} CallsGrowByOne(h: seq<Observation>, tools: seq<string>)
    requires h != [] && Distinct(tools)
    ensures Calls(h, tools) == Calls(Front(h), tools) + if Last(h).tool in tools then 1 else 0
    decreases |tools|
  {
    if tools != [] {
      CallsGrowByOne(h, tools[1..]);
      assert tools == [tools[0]] + tools[1..];
    }
  }

  lemma {:induction false} CallsAreAllCalls(h: seq<Observation>, tools: seq<string>, threshold: nat)
    requires Distinct(tools) && FutileLoop(h, tools, threshold)
    ensures Calls(h, tools) == |h|
    decreases |h|
  {
    if h == [] {
      NoCalls(tools);
    } else {
      CallsAreAllCalls(Front(h), tools, threshold);
      CallsGrowByOne(h, tools);
    }
  }

  lemma {:induction false} NoCalls(tools: seq<string>)
    ensures Calls([], tools) == 0
    decreases |tools|
  {
    if tools != [] {
      NoCalls(tools[1..]);
    }
  }

  lemma {:induction false} MultipleOfOneMore(n: nat, k: nat)
    ensures (n + 1) * k == n * k + k
  {
  }

  lemma {:induction false} CallsAreBounded(h: seq<Observation>, tools: seq<string>, threshold: nat)
    requires forall i :: 0 <= i < |tools| ==> |Own(h, tools[i])| <= threshold
    ensures Calls(h, tools) <= |tools| * threshold
    ensures Calls(h, tools) == |tools| * threshold <==>
            forall i :: 0 <= i < |tools| ==> |Own(h, tools[i])| == threshold
    decreases |tools|
  {
    if tools != [] {
      var rest := tools[1..];
      CallsAreBounded(h, rest, threshold);
      MultipleOfOneMore(|rest|, threshold);
      assert forall i :: 0 < i < |tools| ==> tools[i] == rest[i - 1];
      assert forall i :: 0 <= i < |rest| ==> rest[i] == tools[i + 1];
    }
  }

  /**
   * A loop that calls only offered tools and gets nothing but precondition failures makes at most
   * (number of tools) * threshold calls, and no tool is left exactly when it has made that many, whatever the
   * arguments and the interleaving.
   */
  lemma {:induction false} FutileLoopBound(h: seq<Observation>, tools: seq<string>, threshold: nat)
    requires threshold >= 1 && Distinct(tools) && FutileLoop(h, tools, threshold)
    ensures |h| <= |tools| * threshold
    ensures |h| == |tools| * threshold <==>
            forall i :: 0 <= i < |tools| ==> tools[i] in Reasons(Withdrawals(h, threshold))
  {
    forall i | 0 <= i < |tools|
      ensures |Own(h, tools[i])| <= threshold
      ensures tools[i] in Reasons(Withdrawals(h, threshold)) <==> |Own(h, tools[i])| == threshold
    {
      FutileCallsPerTool(h, tools, threshold, tools[i]);
    }
    CallsAreAllCalls(h, tools, threshold);
    CallsAreBounded(h, tools, threshold);
  }

  // ---- Filtering the tool list ----

  datatype ToolDef = ToolDef(name: string, schema: string)

  /** `drop_unavailable_tools`, with the empty list standing for "no tools". */
  function DropUnavailable(tools: seq<ToolDef>, unavailable: map<string, string>): seq<ToolDef> {
    if tools == [] then []
    else (if tools[0].name in unavailable then [] else [tools[0]]) + DropUnavailable(tools[1..], unavailable)
  }

  /** What is left is what was offered and not withdrawn; nothing is left exactly when everything was withdrawn. */
  lemma {:induction false} DropUnavailableKeepsTheRest(tools: seq<ToolDef>, unavailable: map<string, string>)
    ensures forall t :: t in DropUnavailable(tools, unavailable) <==> t in tools && t.name !in unavailable
    ensures DropUnavailable(tools, unavailable) == [] <==>
            forall i :: 0 <= i < |tools| ==> tools[i].name in unavailable
    decreases |tools|
  {
    if tools != [] {
      DropUnavailableKeepsTheRest(tools[1..], unavailable);
      assert tools == [tools[0]] + tools[1..];
    }
  }

  /** How many of the first `i` tools are still offered. */
  function OfferedBefore(tools: seq<ToolDef>, unavailable: map<string, string>, i: nat): nat
    requires i <= |tools|
    decreases i
  {
    if i == 0 then 0
    else OfferedBefore(tools, unavailable, i - 1) + if tools[i - 1].name in unavailable then 0 else 1
  }

  lemma {:induction false} OfferedTail(tools: seq<ToolDef>, unavailable: map<string, string>, i: nat)
    requires 1 <= i <= |tools|
    ensures OfferedBefore(tools, unavailable, i) ==
            OfferedBefore(tools[1..], unavailable, i - 1) + if tools[0].name in unavailable then 0 else 1
    decreases i
  {
    if i > 1 {
      OfferedTail(tools, unavailable, i - 1);
      assert tools[1..][i - 2] == tools[i - 1];
    }
  }

  /** Every tool still offered stands where the tools before it that are still offered leave it: order is kept. */
  lemma {:induction false} DropUnavailableKeepsOrder(tools: seq<ToolDef>, unavailable: map<string, string>, i: nat)
    requires i < |tools| && tools[i].name !in unavailable
    ensures |DropUnavailable(tools, unavailable)| == OfferedBefore(tools, unavailable, |tools|)
    ensures OfferedBefore(tools, unavailable, i) < |DropUnavailable(tools, unavailable)|
    ensures DropUnavailable(tools, unavailable)[OfferedBefore(tools, unavailable, i)] == tools[i]
    decreases |tools|
  {
    OfferedCount(tools, unavailable);
    if i > 0 {
      OfferedTail(tools, unavailable, i);
      OfferedTail(tools, unavailable, |tools|);
      DropUnavailableKeepsOrder(tools[1..], unavailable, i - 1);
    }
  }

  lemma {:induction false} OfferedCount(tools: seq<ToolDef>, unavailable: map<string, string>)
    ensures |DropUnavailable(tools, unavailable)| == OfferedBefore(tools, unavailable, |tools|)
    decreases |tools|
  {
    OfferedStep(tools, unavailable);
    hide DropUnavailable, OfferedBefore;
    if tools != [] {
      OfferedTail(tools, unavailable, |tools|);
      OfferedCount(tools[1..], unavailable);
    }
  }

  lemma {:induction false} OfferedStep(tools: seq<ToolDef>, unavailable: map<string, string>)
    ensures tools == [] ==> DropUnavailable(tools, unavailable) == [] && OfferedBefore(tools, unavailable, 0) == 0
    ensures tools != [] ==>
              |DropUnavailable(tools, unavailable)| ==
              |DropUnavailable(tools[1..], unavailable)| + if tools[0].name in unavailable then 0 else 1
  {
  }

  function NamesOf(tools: seq<ToolDef>): seq<string> {
    seq(|tools|, i requires 0 <= i < |tools| => tools[i].name)
  }

  /** The futile loop, seen from the filter: the list handed to the next round is empty exactly after the last call. */
  lemma {:induction false} FutileLoopEmptiesTheList(h: seq<Observation>, tools: seq<ToolDef>, threshold: nat)
    requires threshold >= 1 && Distinct(NamesOf(tools)) && FutileLoop(h, NamesOf(tools), threshold)
    ensures |h| <= |tools| * threshold
    ensures DropUnavailable(tools, Reasons(Withdrawals(h, threshold))) == [] <==> |h| == |tools| * threshold
  {
    var names, withdrawn := NamesOf(tools), Reasons(Withdrawals(h, threshold));
    FutileLoopBound(h, names, threshold);
    assert |names| == |tools| && forall i :: 0 <= i < |tools| ==> names[i] == tools[i].name;
    DropUnavailableKeepsTheRest(tools, withdrawn);
  }
}
