/** The verify, plan and edit loop of feral-core/agents/coding_run.py. */
module CodingRun {
  import opened Prelude
  import opened TextTools
  import opened FileEdits
  import opened RunEnding

  datatype Phase = NoPhase | Verify | Plan | EditFiles | RunTests

  /** A persisted step. */
  datatype Step = Step(index: nat, phase: Phase, ok: bool, exitCode: Option<int>, touched: seq<Path>)

  /** How `execute` ends: with a run in a final state, or with an exception that leaves the run as it is. */
  datatype Outcome = Finished | NoTestCommand | EmptyCommand | StepExists | TargetUnreadable

  // ---- Reading the step log ----

  predicate IsVerify(s: Step) { s.phase == Verify || s.phase == RunTests }

  predicate IsEdit(s: Step) { s.phase == EditFiles }

  /** The files named in ok EDIT steps, in order. */
  function OkEdits(steps: seq<Step>): seq<Path> {
    if steps == [] then []
    else
      var s := steps[|steps| - 1];
      OkEdits(steps[..|steps| - 1]) + if IsEdit(s) && s.ok then s.touched else []
  }

  function VerifyCount(steps: seq<Step>): nat {
    if steps == [] then 0
    else VerifyCount(steps[..|steps| - 1]) + if IsVerify(steps[|steps| - 1]) then 1 else 0
  }

  /** Maximal stretches of EDIT steps. */
  function EditRounds(steps: seq<Step>): nat {
    if steps == [] then 0
    else
      var front := steps[..|steps| - 1];
      EditRounds(front) +
      if IsEdit(steps[|steps| - 1]) && (front == [] || !IsEdit(front[|front| - 1])) then 1 else 0
  }

  /** Some verify step of the log passed. */
  predicate SomeVerifyPassed(steps: seq<Step>) {
    exists i :: 0 <= i < |steps| && IsVerify(steps[i]) && steps[i].ok
  }

  predicate EndsWith(steps: seq<Step>, phase: Phase, ok: bool) {
    steps != [] && steps[|steps| - 1].phase == phase && steps[|steps| - 1].ok == ok
  }

  /** Step indices are 1, 2, ..., n. */
  predicate Numbered(steps: seq<Step>) {
    forall i :: 0 <= i < |steps| ==> steps[i].index == i + 1
  }

  lemma {:induction false} NumberedIndices(steps: seq<Step>, k: nat)
    requires Numbered(steps) && k >= 1
    ensures (exists i :: 0 <= i < |steps| && steps[i].index == k) <==> k <= |steps|
  {
    if k <= |steps| {
      assert steps[k - 1].index == k;
    }
  }

  lemma {:induction false} LogStep(steps: seq<Step>, s: Step)
    ensures OkEdits(steps + [s]) == OkEdits(steps) + if IsEdit(s) && s.ok then s.touched else []
    ensures VerifyCount(steps + [s]) == VerifyCount(steps) + if IsVerify(s) then 1 else 0
    ensures EditRounds(steps + [s]) ==
            EditRounds(steps) + if IsEdit(s) && (steps == [] || !IsEdit(steps[|steps| - 1])) then 1 else 0
    ensures SomeVerifyPassed(steps + [s]) <==> SomeVerifyPassed(steps) || (IsVerify(s) && s.ok)
  {
    var all := steps + [s];
    PassedStep(steps, s);
    hide SomeVerifyPassed;
    assert all[..|steps|] == steps;
    assert all[|steps|] == s;
  }

  lemma {:induction false} PassedStep(steps: seq<Step>, s: Step)
    ensures SomeVerifyPassed(steps + [s]) <==> SomeVerifyPassed(steps) || (IsVerify(s) && s.ok)
  {
    var all := steps + [s];
    assert all[|steps|] == s;
    if i :| 0 <= i < |steps| && IsVerify(steps[i]) && steps[i].ok {
      assert all[i] == steps[i];
    }
  }

  lemma NothingLogged()
    ensures OkEdits([]) == [] && VerifyCount([]) == 0 && EditRounds([]) == 0 && !SomeVerifyPassed([])
    ensures PathsOf([]) == [] && forall fs: FileSystem :: Replay(fs, []) == fs
  {
  }

  /** From `before` to `after` one edit stretch was logged, or continued, ending with a step that is ok or not. */
  ghost predicate EditsLogged(before: seq<Step>, after: seq<Step>, ok: bool) {
    && EndsWith(after, EditFiles, ok)
    && VerifyCount(after) == VerifyCount(before)
    && (SomeVerifyPassed(after) <==> SomeVerifyPassed(before))
    && EditRounds(after) == EditRounds(before) + if before != [] && IsEdit(before[|before| - 1]) then 0 else 1
  }

  lemma {:induction false} EditLogged(steps: seq<Step>, s: Step)
    requires IsEdit(s)
    ensures EditsLogged(steps, steps + [s], s.ok)
  {
    LogStep(steps, s);
  }

  lemma {:induction false} EditsLoggedFurther(a: seq<Step>, b: seq<Step>, c: seq<Step>, ok: bool)
    requires EditsLogged(a, b, true) && EditsLogged(b, c, ok)
    ensures EditsLogged(a, c, ok)
  {
  }

  // ---- The command ----

  function WordEnd(s: string, i: nat): (j: nat)
    requires i <= |s|
    ensures i <= j <= |s| && (i < |s| && !IsSpace(s[i]) ==> i < j)
    ensures j < |s| ==> IsSpace(s[j])
    decreases |s| - i
  {
    if i < |s| && !IsSpace(s[i]) then WordEnd(s, i + 1) else i
  }

  /** `s.split()`. */
  function Words(s: string): seq<string> {
    var i := SkipBlanks(s, 0);
    if i == |s| then []
    else
      var j := WordEnd(s, i);
      [s[i..j]] + Words(s[j..])
  }

  lemma {:induction false} WordHasNoBlank(s: string, i: nat, k: nat)
    requires i <= |s| && i <= k < WordEnd(s, i)
    ensures !IsSpace(s[k])
    decreases k - i
  {
    if i < k {
      WordHasNoBlank(s, i + 1, k);
    }
  }

  predicate IsWord(w: string) {
    w != "" && forall i :: 0 <= i < |w| ==> !IsSpace(w[i])
  }

  lemma {:induction false} WordEndsWord(s: string, i: nat)
    requires i < |s| && !IsSpace(s[i])
    ensures IsWord(s[i..WordEnd(s, i)])
  {
    forall k | i <= k < WordEnd(s, i) ensures !IsSpace(s[k]) {
      WordHasNoBlank(s, i, k);
    }
    hide IsSpace, WordEnd;
  }

  /** The words are the stretches without blanks, in order, and there are only blanks around them. */
  lemma {:induction false} WordsMeaning(s: string) returns (before: string, gaps: seq<string>)
    ensures AllBlank(before) && AreGaps(gaps) && |gaps| == |Words(s)|
    ensures s == before + Woven(Words(s), gaps)
    ensures forall k :: 0 <= k < |Words(s)| ==> IsWord(Words(s)[k])
    decreases |s|
  {
    var i := SkipBlanks(s, 0);
    before := s[..i];
    BlanksInFront(s);
    if i == |s| {
      gaps := [];
      assert Words(s) == [] && before + "" == s;
    } else {
      var j := WordEnd(s, i);
      WordEndsWord(s, i);
      WordsUnfold(s, i, j);
      hide IsSpace, SkipBlanks, WordEnd, Words, AllBlank, IsWord, AreGaps, Woven;
      var gap, rest := WordsMeaning(s[j..]);
      gaps := [gap] + rest;
      FirstGap(s[j..], gap, Words(s[j..]), rest);
      OneMoreGap(gap, rest);
      PartInFront(s, i, j, gap, Words(s[j..]), rest);
    }
  }

  lemma {:induction false} WordsUnfold(s: string, i: nat, j: nat)
    requires i == SkipBlanks(s, 0) && i < |s| && j == WordEnd(s, i)
    ensures Words(s) == [s[i..j]] + Words(s[j..])
  {
  }

  /** There is a gap before the first word of a text that starts with a blank. */
  lemma {:induction false} FirstGap(t: string, gap: string, words: seq<string>, gaps: seq<string>)
    requires |words| == |gaps| && t == gap + Woven(words, gaps) && (t != "" ==> IsSpace(t[0]))
    requires forall k :: 0 <= k < |words| ==> IsWord(words[k])
    ensures words != [] ==> gap != ""
  {
    if words != [] {
      assert IsWord(words[0]);
      assert Woven(words, gaps)[0] == words[0][0];
    }
  }

  predicate Forbidden(command: string) {
    command == "rm" || command == "sudo" || command == "git"
  }

  /** What a log can say about the edits, given the files at the start. */
  ghost predicate LogExplains(steps: seq<Step>, applied: seq<Edit>, initial: FileSystem, files: FileSystem,
                              root: Path)
  {
    && Numbered(steps)
    && files == Replay(initial, applied)
    && OkEdits(steps) == PathsOf(applied)
    && forall i :: 0 <= i < |applied| ==> Inside(root, applied[i].path)
  }

  lemma {:induction false} LogExplainsEdit(steps: seq<Step>, applied: seq<Edit>, initial: FileSystem, files: FileSystem,
                                           root: Path, e: Edit, s: Step)
    requires LogExplains(steps, applied, initial, files, root)
    requires Applicable(files, e) && Inside(root, e.path)
    requires s == Step(|steps| + 1, EditFiles, true, None, [e.path])
    ensures LogExplains(steps + [s], applied + [e], initial, ApplyEdit(files, e), root)
  {
    hide OkEdits, VerifyCount, EditRounds, SomeVerifyPassed, Replay, ApplyEdit, Applicable, PathsOf, Inside;
    LogStep(steps, s);
    ReplayStep(initial, applied, e);
  }

  /** A step that is no ok edit changes nothing the log says about the files. */
  lemma {:induction false} LogExplainsOther(steps: seq<Step>, applied: seq<Edit>, initial: FileSystem,
                                            files: FileSystem, root: Path, s: Step)
    requires LogExplains(steps, applied, initial, files, root)
    requires s.index == |steps| + 1 && !(IsEdit(s) && s.ok)
    ensures LogExplains(steps + [s], applied, initial, files, root)
  {
    LogStep(steps, s);
  }

  /** Every file that changed is the workspace root or below it and named in an ok EDIT step. */
  lemma {:induction false} ChangedFilesAreLogged(steps: seq<Step>, applied: seq<Edit>, initial: FileSystem,
                                                 files: FileSystem, root: Path, p: Path)
    requires LogExplains(steps, applied, initial, files, root)
    ensures p in files <==> p in initial
    ensures p in files && files[p] != initial[p] ==> p in OkEdits(steps) && exists rest: Path :: p == root + rest
  {
    ReplayFrame(initial, applied, p);
    if p in PathsOf(applied) {
      PathIsOfSomeEdit(applied, p);
      InsideMeaning(root, p);
    }
  }

  /** No file appears or disappears, and only the workspace root and what is below it changes. */
  ghost predicate ChangedBelow(root: Path, initial: FileSystem, files: FileSystem) {
    && (forall p: Path :: p in files <==> p in initial)
    && forall p: Path :: p in files && files[p] != initial[p] ==> exists rest: Path :: p == root + rest
  }

  lemma {:induction false} ExplainedChanges(steps: seq<Step>, applied: seq<Edit>, initial: FileSystem,
                                            files: FileSystem, root: Path)
    requires LogExplains(steps, applied, initial, files, root)
    ensures ChangedBelow(root, initial, files)
  {
    hide LogExplains;
    forall p: Path
      ensures p in files <==> p in initial
      ensures p in files && files[p] != initial[p] ==> exists rest: Path :: p == root + rest
    {
      ChangedFilesAreLogged(steps, applied, initial, files, root, p);
    }
  }

  lemma {:induction false} PathIsOfSomeEdit(es: seq<Edit>, p: Path)
    requires p in PathsOf(es)
    ensures exists i :: 0 <= i < |es| && es[i].path == p
    decreases |es|
  {
    var front := es[..|es| - 1];
    if p in PathsOf(front) {
      PathIsOfSomeEdit(front, p);
      var i :| 0 <= i < |front| && front[i].path == p;
      assert es[i].path == p;
    }
  }

  lemma {:induction false} PlanIsOver(edits: seq<Proposal>, fs: FileSystem, root: Path, world: World)
    ensures EndOfPlan(edits[|edits|..], fs, root, world) == Written(fs)
  {
  }

  class CodingRun {
    const workspaceRoot: string
    const testCommand: string
    const maxIterations: int
    var files: FileSystem
    var steps: seq<Step>
    var status: Status
    var phase: Phase
    var iterationsUsed: nat
    var lastExitCode: Option<int>
    var error: Error
    var touchedPaths: seq<Path>

    /** The edits written by the current execution, and how many of them were recorded as touched paths. */
    ghost var applied: seq<Edit>
    ghost var committed: nat

    ghost predicate Valid()
      reads this
    {
      Numbered(steps)
    }

    constructor (workspaceRoot: string, testCommand: string, maxIterations: int, files: FileSystem)
      ensures Valid() && steps == [] && status == Queued && this.files == files && touchedPaths == []
      ensures this.workspaceRoot == workspaceRoot && this.testCommand == testCommand
      ensures this.maxIterations == maxIterations && error == NoError
    {
      this.workspaceRoot, this.testCommand, this.maxIterations := workspaceRoot, testCommand, maxIterations;
      this.files := files;
      steps, status, phase, iterationsUsed, lastExitCode, error := [], Queued, NoPhase, 0, None, NoError;
      touchedPaths, applied, committed := [], [], 0;
    }

    /** The store refuses a second step with the same index. */
    method AppendStep(s: Step) returns (added: bool)
      requires Valid() && 1 <= s.index <= |steps| + 1
      modifies this`steps
      ensures Valid()
      ensures added <==> s.index == |old(steps)| + 1
      ensures steps == if added then old(steps) + [s] else old(steps)
    {
      NumberedIndices(steps, s.index);
      if exists i :: 0 <= i < |steps| && steps[i].index == s.index {
        return false;
      }
      steps := steps + [s];
      return true;
    }

    method Fail(e: Error)
      modifies this`status, this`phase, this`error
      ensures status == Failed && phase == NoPhase && error == e
    {
      status, phase, error := Failed, NoPhase, e;
    }

    /** Log an edit that is refused, and end the run. */
    method Refuse(e: Error, root: Path, ghost initial: FileSystem)
      requires LogExplains(steps, applied, initial, files, root)
      modifies this`steps, this`status, this`phase, this`error
      ensures LogExplains(steps, applied, initial, files, root) && EditsLogged(old(steps), steps, false)
      ensures status == Failed && phase == NoPhase && error == e
    {
      var refused := Step(|steps| + 1, EditFiles, false, None, []);
      LogExplainsOther(steps, applied, initial, files, root, refused);
      EditLogged(steps, refused);
      var _ := AppendStep(refused);
      status, phase, error := Failed, NoPhase, e;
    }

    /** One proposed edit: written and logged as ok, or refused with the reason. */
    method ApplyProposal(edit: Proposal, root: Path, world: World, ghost initial: FileSystem)
      returns (r: Outcome, ok: bool)
      requires LogExplains(steps, applied, initial, files, root)
      modifies this`files, this`steps, this`status, this`phase, this`error, this`applied
      ensures LogExplains(steps, applied, initial, files, root)
      ensures r == Finished || r == TargetUnreadable
      ensures r == TargetUnreadable <==>
                Inside(root, world.resolve(edit.path)) && world.resolve(edit.path) in old(files)
                && !old(files)[world.resolve(edit.path)].File?
      ensures r == TargetUnreadable ==> status == old(status) && steps == old(steps) && applied == old(applied)
      ensures r == Finished ==> EditsLogged(old(steps), steps, ok)
      ensures r == Finished && ok ==>
                && status == old(status) && error == old(error)
                && Applicable(old(files), Edit(world.resolve(edit.path), edit.find, edit.replace))
                && applied == old(applied) + [Edit(world.resolve(edit.path), edit.find, edit.replace)]
                && Inside(root, world.resolve(edit.path)) && world.resolve(edit.path) in old(files)
                && files == ApplyEdit(old(files), EditOf(edit, world))
      ensures r == TargetUnreadable ==> files == old(files) && error == old(error)
      ensures r == Finished && !ok ==>
                && !(Inside(root, world.resolve(edit.path)) && Applicable(old(files), EditOf(edit, world)))
                && status == Failed && phase == NoPhase && applied == old(applied) && files == old(files)
                && error == (var target := world.resolve(edit.path);
                             if !Inside(root, target) then OutsideWorkspace
                             else if target !in old(files) then MissingFile else FindAbsent)
    {
      hide Universal, ReplaceFirst, Contains, Replay, OkEdits, PathsOf, EditsLogged;
      var target := world.resolve(edit.path);
      if !Inside(root, target) {
        Refuse(OutsideWorkspace, root, initial);
        return Finished, false;
      }
      if target !in files {
        Refuse(MissingFile, root, initial);
        return Finished, false;
      }
      if !files[target].File? {
        return TargetUnreadable, false;
      }
      var original := Universal(files[target].text);
      if !Contains(original, edit.find) {
        Refuse(FindAbsent, root, initial);
        return Finished, false;
      }
      var logged := Step(|steps| + 1, EditFiles, true, None, [target]);
      ghost var e := Edit(target, edit.find, edit.replace);
      LogExplainsEdit(steps, applied, initial, files, root, e, logged);
      EditLogged(steps, logged);
      files := files[target := File(ReplaceFirst(original, edit.find, edit.replace))];
      applied := applied + [e];
      var _ := AppendStep(logged);
      return Finished, true;
    }

    /** The end of a plan as the outcome and the fields tell it. */
    ghost function PlanEndOf(r: Outcome, done: bool): PlanEnd
      reads this
    {
      if r == TargetUnreadable then Raises(files) else if done then Written(files) else Refused(files, error)
    }

    /** The edit loop over one plan. `done` is false when an edit failed; the edits before it stay written. */
    method ApplyPlan(edits: seq<Proposal>, root: Path, world: World, ghost initial: FileSystem)
      returns (r: Outcome, done: bool, touched: seq<Path>)
      requires edits != [] && LogExplains(steps, applied, initial, files, root)
      modifies this`files, this`steps, this`status, this`phase, this`error, this`applied
      ensures LogExplains(steps, applied, initial, files, root)
      ensures r == Finished || r == TargetUnreadable
      ensures r == TargetUnreadable ==> status == old(status)
      ensures r == Finished ==> EditsLogged(old(steps), steps, done)
      ensures r == TargetUnreadable ==> error == old(error)
      ensures r == Finished && !done ==> status == Failed && error != Exhausted
      ensures EndOfPlan(edits, old(files), root, world) == PlanEndOf(r, done)
      ensures r == Finished && done ==>
                && status == old(status) && error == old(error)
                && PathsOf(applied) == PathsOf(old(applied)) + touched && |touched| == |edits|
      ensures old(applied) <= applied
    {
      hide LogExplains, EditsLogged, Applicable, ApplyEdit, Replay, Inside;
      touched := [];
      assert edits[0..] == edits;
      for k := 0 to |edits|
        invariant LogExplains(steps, applied, initial, files, root)
        invariant status == old(status) && error == old(error)
        invariant |touched| == k && PathsOf(applied) == PathsOf(old(applied)) + touched
        invariant if k == 0 then steps == old(steps) else EditsLogged(old(steps), steps, true)
        invariant old(applied) <= applied
        invariant EndOfPlan(edits, old(files), root, world) == EndOfPlan(edits[k..], files, root, world)
      {
        ghost var before, stepsBefore, filesBefore := applied, steps, files;
        var ok;
        r, ok := ApplyProposal(edits[k], root, world, initial);
        PlanStep(edits, k, filesBefore, root, world);
        if r == TargetUnreadable {
          return r, false, touched;
        }
        if k > 0 {
          EditsLoggedFurther(old(steps), stepsBefore, steps, ok);
        }
        if !ok {
          return Finished, false, touched;
        }
        var target := world.resolve(edits[k].path);
        ReplayStep(initial, before, Edit(target, edits[k].find, edits[k].replace));
        assert PathsOf(old(applied)) + touched + [target] == PathsOf(old(applied)) + (touched + [target]);
        touched := touched + [target];
      }
      PlanIsOver(edits, files, root, world);
      return Finished, true, touched;
    }

    /** One run of the verifier, logged; `added` is false when the store already has this step. */
    method RunVerifier(iteration: nat, stepIndex: nat, world: World) returns (added: bool)
      requires Valid() && stepIndex <= |steps|
      modifies this`steps, this`phase, this`iterationsUsed, this`lastExitCode
      ensures Valid() && iterationsUsed == iteration + 1
      ensures added <==> stepIndex == |old(steps)|
      ensures lastExitCode == Some(world.verify(iteration, files))
      ensures !added ==> steps == old(steps)
      ensures added ==>
                && |steps| == |old(steps)| + 1 && steps[..|old(steps)|] == old(steps)
                && IsVerify(steps[|old(steps)|]) && steps[|old(steps)|].exitCode == lastExitCode
                && (steps[|old(steps)|].ok <==> lastExitCode == Some(0))
    {
      iterationsUsed := iteration + 1;
      phase := if iteration == 0 then Verify else RunTests;
      var exitCode := world.verify(iteration, files);
      lastExitCode := Some(exitCode);
      added := AppendStep(Step(stepIndex + 1, phase, exitCode == 0, Some(exitCode), []));
    }

    /** The command that would be run. */
    function Command(verifyCommand: seq<string>): seq<string> {
      if verifyCommand != [] then verifyCommand else Words(testCommand)
    }

    /** The arguments pass every check made before the first iteration. */
    predicate Accepted(verifyCommand: seq<string>, world: World, fs: FileSystem) {
      && testCommand != "" && Command(verifyCommand) != [] && !Forbidden(Command(verifyCommand)[0])
      && var root := world.resolve(workspaceRoot); root in fs && fs[root] == Directory
    }

    /** Where the loop stands before iteration `k`: `k` failed verifies, each followed by a full edit round. */
    ghost predicate BeforeIteration(k: nat, initial: FileSystem, root: Path, touchedBefore: seq<Path>)
      reads this
    {
      && LogExplains(steps, applied, initial, files, root)
      && status == Running
      && VerifyCount(steps) == EditRounds(steps) == k
      && !SomeVerifyPassed(steps)
      && (k == 0 ==> steps == [])
      && (k > 0 ==> EndsWith(steps, EditFiles, true) && iterationsUsed == k
                     && lastExitCode.Some? && lastExitCode != Some(0))
      && committed == |applied|
      && touchedPaths == touchedBefore + PathsOf(applied)
    }

    /** What a finished execution leaves: a run is completed only if the verifier passed on the final files. */
    ghost predicate FinalState(initial: FileSystem, root: Path, touchedBefore: seq<Path>, world: World)
      reads this
    {
      && LogExplains(steps, applied, initial, files, root)
      && (status == Completed || status == Failed)
      && (status == Completed <==> SomeVerifyPassed(steps))
      && (status == Completed ==>
            && lastExitCode == Some(0) && error == NoError
            && iterationsUsed > 0 && world.verify(iterationsUsed - 1, files) == 0
            && IsVerify(steps[|steps| - 1]) && steps[|steps| - 1].ok
            && VerifyCount(steps) == iterationsUsed && EditRounds(steps) == iterationsUsed - 1
            && committed == |applied|)
      && (status == Failed && maxIterations > 0 ==> lastExitCode.Some? && lastExitCode != Some(0))
      && committed <= |applied|
      && touchedPaths == touchedBefore + PathsOf(applied[..committed])
    }

    /** The end of a fresh run from these files; a negative limit allows no iteration. */
    ghost function EndFrom(initial: FileSystem, world: World, prior: Error): RunEnd {
      EndOfRun(0, if maxIterations > 0 then maxIterations else 0, initial, world.resolve(workspaceRoot), world, prior)
    }

    /** `execute`: verify, plan and edit until the verifier passes, the planner stops, or the iterations run out. */
    method Execute(verifyCommand: seq<string>, world: World) returns (r: Outcome)
      requires Valid()
      modifies this
      ensures Valid()
      ensures r == NoTestCommand <==> testCommand == ""
      ensures r == EmptyCommand <==> testCommand != "" && verifyCommand == [] && Words(testCommand) == []
      ensures r == StepExists <==> Accepted(verifyCommand, world, old(files)) && old(steps) != [] && maxIterations > 0
      ensures r == StepExists ==> steps == old(steps) && files == old(files)
      ensures r == Finished && !Accepted(verifyCommand, world, old(files)) ==>
                && status == Failed && steps == old(steps) && files == old(files) && touchedPaths == old(touchedPaths)
                && error == if (if verifyCommand == [] then Words(testCommand) else verifyCommand)[0] in
                               {"rm", "sudo", "git"} then ForbiddenCommand else WorkspaceMissing
      ensures r == Finished && old(steps) != [] ==> status == Failed && steps == old(steps) && files == old(files)
      ensures Accepted(verifyCommand, world, old(files)) && old(steps) == [] ==>
                EndsAs(EndFrom(old(files), world, old(error)), r)
      ensures r == TargetUnreadable <==>
                Accepted(verifyCommand, world, old(files)) && old(steps) == []
                && EndFrom(old(files), world, old(error)).Raised?
      ensures r == Finished && Accepted(verifyCommand, world, old(files)) && old(steps) == [] ==>
                FinalState(old(files), world.resolve(workspaceRoot), old(touchedPaths), world)
      ensures r == TargetUnreadable ==>
                LogExplains(steps, applied, old(files), files, world.resolve(workspaceRoot)) && status == Running
      ensures ChangedBelow(world.resolve(workspaceRoot), old(files), files)
      ensures r == Finished && error == Exhausted && old(error) == NoError && old(steps) == [] && maxIterations > 0 ==>
                iterationsUsed == maxIterations == EditRounds(steps) && EndsWith(steps, EditFiles, true)
    {
      hide LogExplains, SomeVerifyPassed, VerifyCount, EditRounds, EndsWith, PathsOf, OkEdits, Replay, Inside;
      applied, committed := [], 0;
      if testCommand == "" {
        return NoTestCommand;
      }
      var command := Command(verifyCommand);
      if command == [] {
        return EmptyCommand;
      }
      if Forbidden(command[0]) {
        status, error := Failed, ForbiddenCommand;
        return Finished;
      }
      var root := world.resolve(workspaceRoot);
      if !(root in files && files[root] == Directory) {
        status, error := Failed, WorkspaceMissing;
        return Finished;
      }
      status := Running;
      if steps != [] {
        r := ExecuteAgain(world);
        return;
      }
      r := Iterate(root, world);
      hide ChangedBelow;
      ExplainedChanges(steps, applied, old(files), files, root);
    }

    /** A second execution of a run: the store refuses its first step. */
    method ExecuteAgain(world: World) returns (r: Outcome)
      requires Valid() && steps != []
      modifies this`steps, this`status, this`phase, this`error, this`iterationsUsed, this`lastExitCode
      ensures Valid() && steps == old(steps)
      ensures r == if maxIterations > 0 then StepExists else Finished
      ensures r == Finished ==> status == Failed
    {
      if maxIterations > 0 {
        var added := RunVerifier(0, 0, world);
        return StepExists;
      }
      Fail(if error == NoError then Exhausted else error);
      r := Finished;
    }

    function Limit(): nat {
      if maxIterations < 0 then 0 else maxIterations
    }

    /** The run has ended this way; without any iteration the count of iterations is left as it was. */
    ghost predicate EndsAs(end: RunEnd, r: Outcome)
      reads this
    {
      match end
      case Raised(iterations, fs) =>
        r == TargetUnreadable && status == Running && files == fs && iterationsUsed == iterations
      case Ended(s, e, iterations, fs) =>
        && r == Finished && status == s && error == e && files == fs
        && (maxIterations > 0 ==> iterationsUsed == iterations)
    }

    /** The iterations of a fresh run. */
    method Iterate(root: Path, world: World) returns (r: Outcome)
      requires Valid() && steps == [] && status == Running && applied == [] && committed == 0
      modifies this
      ensures Valid()
      ensures r == Finished || r == TargetUnreadable
      ensures r == Finished ==> FinalState(old(files), root, old(touchedPaths), world)
      ensures r == TargetUnreadable ==> LogExplains(steps, applied, old(files), files, root) && status == Running
      ensures r == Finished && error == Exhausted && old(error) == NoError && maxIterations > 0 ==>
                iterationsUsed == maxIterations == EditRounds(steps) && EndsWith(steps, EditFiles, true)
      ensures EndsAs(EndOfRun(0, Limit(), old(files), root, world, old(error)), r)
    {
      hide OkEdits, VerifyCount, EditRounds, SomeVerifyPassed, Replay, PathsOf, Inside;
      NothingLogged();
      ghost var initial, touchedBefore := files, touchedPaths;
      var n := Limit();
      for k := 0 to n
        invariant BeforeIteration(k, initial, root, touchedBefore)
        invariant error == old(error)
        invariant EndOfRun(0, n, initial, root, world, old(error)) == EndOfRun(k, n, files, root, world, old(error))
      {
        var done: bool;
        r, done := RunIteration(k, n, root, world, initial, touchedBefore);
        if !done {
          return;
        }
      }
      assert applied[..|applied|] == applied;
      Fail(if error == NoError then Exhausted else error);
      r := Finished;
    }

    /** After the (k+1)-st verify: it is the last step, and the only one that may have passed. */
    ghost predicate Verified(k: nat, initial: FileSystem, root: Path, touchedBefore: seq<Path>, passed: bool)
      reads this
    {
      && LogExplains(steps, applied, initial, files, root)
      && status == Running
      && VerifyCount(steps) == k + 1 && EditRounds(steps) == k
      && (SomeVerifyPassed(steps) <==> passed)
      && steps != [] && IsVerify(steps[|steps| - 1]) && steps[|steps| - 1].ok == passed
      && iterationsUsed == k + 1 && lastExitCode.Some? && (lastExitCode == Some(0) <==> passed)
      && committed == |applied|
      && touchedPaths == touchedBefore + PathsOf(applied)
    }

    /** The verify of one iteration. */
    method VerifyOnce(k: nat, root: Path, world: World, ghost initial: FileSystem, ghost touchedBefore: seq<Path>)
      returns (passed: bool)
      requires BeforeIteration(k, initial, root, touchedBefore)
      modifies this`steps, this`phase, this`iterationsUsed, this`lastExitCode
      ensures Verified(k, initial, root, touchedBefore, passed)
      ensures lastExitCode == Some(world.verify(k, files)) && iterationsUsed == k + 1
    {
      hide OkEdits, VerifyCount, EditRounds, SomeVerifyPassed, Replay, PathsOf, Inside;
      ghost var before := steps;
      var added := RunVerifier(k, |steps|, world);
      passed := lastExitCode == Some(0);
      ghost var step := steps[|steps| - 1];
      assert steps == before + [step];
      LogStep(before, step);
      LogExplainsOther(before, applied, initial, files, root, step);
    }

    /** A passing verify completes the run. */
    method Complete(k: nat, root: Path, ghost world: World, ghost initial: FileSystem, ghost touchedBefore: seq<Path>)
      requires Verified(k, initial, root, touchedBefore, true) && world.verify(k, files) == 0
      modifies this`status, this`phase, this`error
      ensures FinalState(initial, root, touchedBefore, world) && status == Completed && error == NoError
    {
      assert applied[..committed] == applied;
      status, phase, error := Completed, NoPhase, NoError;
    }

    /** The planner gives up: a failed PLAN step ends the run. */
    method GiveUp(k: nat, root: Path, ghost world: World, ghost initial: FileSystem, ghost touchedBefore: seq<Path>)
      requires Verified(k, initial, root, touchedBefore, false)
      modifies this`steps, this`status, this`phase, this`error
      ensures FinalState(initial, root, touchedBefore, world) && error == GaveUp && EndsWith(steps, Plan, false)
      ensures status == Failed
    {
      hide OkEdits, VerifyCount, EditRounds, SomeVerifyPassed, Replay, PathsOf, Inside;
      var gaveUp := Step(|steps| + 1, Plan, false, None, []);
      LogStep(steps, gaveUp);
      LogExplainsOther(steps, applied, initial, files, root, gaveUp);
      assert applied[..committed] == applied;
      var _ := AppendStep(gaveUp);
      Fail(GaveUp);
    }

    /** One edit round: all its edits written and recorded as touched, or the run ended by a failing one. */
    method EditRound(k: nat, edits: seq<Proposal>, root: Path, world: World,
                     ghost initial: FileSystem, ghost touchedBefore: seq<Path>)
      returns (r: Outcome, more: bool)
      requires edits != [] && Verified(k, initial, root, touchedBefore, false)
      modifies this
      ensures more ==> BeforeIteration(k + 1, initial, root, touchedBefore) && error == old(error)
      ensures !more ==> r == Finished || r == TargetUnreadable
      ensures !more && r == Finished ==> FinalState(initial, root, touchedBefore, world) && error != Exhausted
      ensures !more && r == Finished ==> status == Failed
      ensures !more && r == TargetUnreadable ==>
                LogExplains(steps, applied, initial, files, root) && status == Running
      ensures more ==> r == Finished
      ensures EndOfPlan(edits, old(files), root, world) == PlanEndOf(r, more)
      ensures iterationsUsed == old(iterationsUsed)
    {
      hide LogExplains, VerifyCount, EditRounds, SomeVerifyPassed, PathsOf;
      hide EndOfPlan, Replay, OkEdits, Inside, EndsWith;
      ghost var appliedBefore := applied;
      var done, touched;
      r, done, touched := ApplyPlan(edits, root, world, initial);
      more := r == Finished && done;
      if more {
        assert touchedPaths + touched == touchedBefore + PathsOf(applied);
        touchedPaths := touchedPaths + touched;
        committed := |applied|;
      } else {
        assert applied[..committed] == appliedBefore;
      }
    }

    /** The end of a run as the outcome and the fields tell it. */
    ghost function RunEndOf(r: Outcome): RunEnd
      reads this
    {
      if r == TargetUnreadable then Raised(iterationsUsed, files) else Ended(status, error, iterationsUsed, files)
    }

    /** One iteration; `more` is false when the run has ended. */
    method RunIteration(k: nat, ghost n: nat, root: Path, world: World, ghost initial: FileSystem,
                        ghost touchedBefore: seq<Path>)
      returns (r: Outcome, more: bool)
      requires k < n && BeforeIteration(k, initial, root, touchedBefore)
      modifies this
      ensures more ==> BeforeIteration(k + 1, initial, root, touchedBefore) && error == old(error)
      ensures !more ==> r == Finished || r == TargetUnreadable
      ensures !more && r == Finished ==> FinalState(initial, root, touchedBefore, world) && error != Exhausted
      ensures !more && r == TargetUnreadable ==>
                LogExplains(steps, applied, initial, files, root) && status == Running
      ensures EndOfRun(k, n, old(files), root, world, old(error)) ==
              if more then EndOfRun(k + 1, n, files, root, world, old(error)) else RunEndOf(r)
    {
      hide LogExplains, SomeVerifyPassed, VerifyCount, EditRounds, EndsWith, PathsOf, OkEdits, Replay, Inside;
      EndOfRunStep(k, n, files, root, world, error);
      var passed := VerifyOnce(k, root, world, initial, touchedBefore);
      if passed {
        Complete(k, root, world, initial, touchedBefore);
        return Finished, false;
      }
      phase := Plan;
      var plan := world.plan(k, lastExitCode.value, files);
      if plan.giveUp {
        GiveUp(k, root, world, initial, touchedBefore);
        return Finished, false;
      }
      if plan.edits == [] {
        assert applied[..committed] == applied;
        Fail(NoEdits);
        return Finished, false;
      }
      phase := EditFiles;
      r, more := EditRound(k, plan.edits, root, world, initial, touchedBefore);
    }
  }
}
