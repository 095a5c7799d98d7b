/** How an execution of feral-core/agents/coding_run.py ends, as a function of what it meets. */
module RunEnding {
  import opened Prelude
  import opened TextTools
  import opened FileEdits

  datatype Status = Queued | Running | WaitingGrant | Completed | Failed | Cancelled

  datatype Proposal = Proposal(path: string, find: string, replace: string)

  datatype PlanResult = PlanResult(edits: seq<Proposal>, giveUp: bool)

  /**
   * What the run meets: path resolution, the verifier and the planner. Both see the files and may answer anything,
   * differently in every iteration; neither writes.
   */
  datatype World = World(resolve: string -> Path, verify: (nat, FileSystem) -> int,
                         plan: (nat, int, FileSystem) -> PlanResult)

  datatype Error =
    | NoError
    | ForbiddenCommand
    | WorkspaceMissing
    | GaveUp
    | NoEdits
    | OutsideWorkspace
    | MissingFile
    | FindAbsent
    | Exhausted

  // ---- One plan ----

  /** A target inside the workspace that exists but cannot be read as text. */
  predicate Unreadable(fs: FileSystem, root: Path, p: Path) {
    Inside(root, p) && p in fs && !fs[p].File?
  }

  function EditOf(p: Proposal, world: World): Edit {
    Edit(world.resolve(p.path), p.find, p.replace)
  }

  /** All edits written; stopped by a refused one; or stopped by an exception. The files are those written so far. */
  datatype PlanEnd = Written(files: FileSystem) | Refused(files: FileSystem, error: Error) | Raises(files: FileSystem)

  function EndOfPlan(edits: seq<Proposal>, fs: FileSystem, root: Path, world: World): PlanEnd {
    if edits == [] then Written(fs)
    else
      var e := EditOf(edits[0], world);
      if Unreadable(fs, root, e.path) then Raises(fs)
      else if !Inside(root, e.path) then Refused(fs, OutsideWorkspace)
      else if e.path !in fs then Refused(fs, MissingFile)
      else if !Applicable(fs, e) then Refused(fs, FindAbsent)
      else EndOfPlan(edits[1..], ApplyEdit(fs, e), root, world)
  }

  lemma {:induction false} PlanStep(edits: seq<Proposal>, k: nat, fs: FileSystem, root: Path, world: World)
    requires k < |edits|
    ensures var e := EditOf(edits[k], world);
            EndOfPlan(edits[k..], fs, root, world) ==
            if Unreadable(fs, root, e.path) then Raises(fs)
            else if !Inside(root, e.path) then Refused(fs, OutsideWorkspace)
            else if e.path !in fs then Refused(fs, MissingFile)
            else if !Applicable(fs, e) then Refused(fs, FindAbsent)
            else EndOfPlan(edits[k + 1..], ApplyEdit(fs, e), root, world)
  {
    assert edits[k..][1..] == edits[k + 1..];
  }

  lemma {:induction false} FirstEdits(edits: seq<Proposal>, i: nat, fs: FileSystem, root: Path, world: World)
    requires 0 < i <= |edits|
    ensures var e := EditOf(edits[0], world);
            EndOfPlan(edits[..i], fs, root, world).Written? <==>
            Inside(root, e.path) && Applicable(fs, e) &&
            EndOfPlan(edits[1..][..i - 1], ApplyEdit(fs, e), root, world).Written?
    ensures EndOfPlan(edits[..i], fs, root, world).Written? ==>
              EndOfPlan(edits[..i], fs, root, world) ==
              EndOfPlan(edits[1..][..i - 1], ApplyEdit(fs, EditOf(edits[0], world)), root, world)
  {
    assert edits[..i][1..] == edits[1..][..i - 1] && edits[..i][0] == edits[0];
  }

  /** A written start of a plan leaves the rest of it to do. */
  lemma {:induction false} PlanResumes(edits: seq<Proposal>, i: nat, fs: FileSystem, root: Path, world: World)
    requires i <= |edits| && EndOfPlan(edits[..i], fs, root, world).Written?
    ensures EndOfPlan(edits, fs, root, world) ==
            EndOfPlan(edits[i..], EndOfPlan(edits[..i], fs, root, world).files, root, world)
    decreases i
  {
    if i == 0 {
      assert edits[0..] == edits;
    } else {
      FirstEdits(edits, i, fs, root, world);
      var e := EditOf(edits[0], world);
      PlanResumes(edits[1..], i - 1, ApplyEdit(fs, e), root, world);
      PlanStep(edits, 0, fs, root, world);
      assert edits[0..] == edits && edits[1..][i - 1..] == edits[i..];
      hide EndOfPlan, ApplyEdit, Applicable, Inside, Unreadable;
    }
  }

  /** The plan up to and with its i-th edit, when the edits before are written. */
  lemma {:induction false} OneMoreEdit(edits: seq<Proposal>, i: nat, fs: FileSystem, root: Path, world: World)
    requires i < |edits| && EndOfPlan(edits[..i], fs, root, world).Written?
    ensures EndOfPlan(edits[..i + 1], fs, root, world) ==
            EndOfPlan([edits[i]], EndOfPlan(edits[..i], fs, root, world).files, root, world)
  {
    assert edits[..i + 1][..i] == edits[..i] && edits[..i + 1][i..] == [edits[i]];
    PlanResumes(edits[..i + 1], i, fs, root, world);
  }

  /**
   * What the i-th edit of a plan does once all edits before it are written: a target that does not continue the
   * workspace path ends the plan as refused, with the files as they are; one that does is never refused for its place,
   * but for being missing or for lacking the string, and otherwise its first occurrence is replaced.
   */
  lemma {:induction false} PlanContinuesIff(edits: seq<Proposal>, i: nat, fs: FileSystem, root: Path, world: World)
    requires i < |edits| && EndOfPlan(edits[..i], fs, root, world).Written?
    ensures var now, p := EndOfPlan(edits[..i], fs, root, world).files, world.resolve(edits[i].path);
            var end, next := EndOfPlan(edits, fs, root, world), EndOfPlan(edits[..i + 1], fs, root, world);
            if forall rest: Path :: p != root + rest then end == Refused(now, OutsideWorkspace)
            else if p !in now then end == Refused(now, MissingFile)
            else if !now[p].File? then end == Raises(now)
            else
              var was := Universal(now[p].text);
              if forall before, after :: !SplitsAt(was, edits[i].find, before, after)
              then end == Refused(now, FindAbsent)
              else exists before, after ::
                     && SplitsFirst(was, edits[i].find, before, after)
                     && next == Written(now[p := File(before + edits[i].replace + after)])
  {
    var now, e := EndOfPlan(edits[..i], fs, root, world).files, EditOf(edits[i], world);
    PlanResumes(edits, i, fs, root, world);
    OneMoreEdit(edits, i, fs, root, world);
    PlanStep(edits, i, now, root, world);
    PlanStep([edits[i]], 0, now, root, world);
    assert [edits[i]][0..] == [edits[i]] && [edits[i]][1..] == [];
    assert EndOfPlan([], ApplyEdit(now, e), root, world) == Written(ApplyEdit(now, e));
    InsideMeaning(root, e.path);
    hide EndOfPlan, Inside, Universal, ApplyEdit, SplitsAt;
    if e.path in now && now[e.path].File? {
      EditMeaning(now, e);
      ContainsMeaning(Universal(now[e.path].text), e.find);
      hide SplitsFirst, Contains;
    }
  }

  // ---- A whole run ----

  /** The run ends in a final state, or with an exception that leaves it running, in its `iterations`-th iteration. */
  datatype RunEnd =
    | Ended(status: Status, error: Error, iterations: nat, files: FileSystem)
    | Raised(iterations: nat, files: FileSystem)

  /** The end of a run that is about to start iteration `k` of `n`; `prior` is the error it already carries. */
  function EndOfRun(k: nat, n: nat, fs: FileSystem, root: Path, world: World, prior: Error): RunEnd
    decreases n - k
  {
    if k >= n then Ended(Failed, if prior == NoError then Exhausted else prior, k, fs)
    else
      var exitCode := world.verify(k, fs);
      var plan := world.plan(k, exitCode, fs);
      if exitCode == 0 then Ended(Completed, NoError, k + 1, fs)
      else if plan.giveUp then Ended(Failed, GaveUp, k + 1, fs)
      else if plan.edits == [] then Ended(Failed, NoEdits, k + 1, fs)
      else match EndOfPlan(plan.edits, fs, root, world)
        case Written(written) => EndOfRun(k + 1, n, written, root, world, prior)
        case Refused(written, error) => Ended(Failed, error, k + 1, written)
        case Raises(written) => Raised(k + 1, written)
  }

  lemma {:induction false} EndOfRunStep(k: nat, n: nat, fs: FileSystem, root: Path, world: World, prior: Error)
    requires k < n
    ensures var exitCode := world.verify(k, fs);
            var plan := world.plan(k, exitCode, fs);
            EndOfRun(k, n, fs, root, world, prior) ==
            if exitCode == 0 then Ended(Completed, NoError, k + 1, fs)
            else if plan.giveUp then Ended(Failed, GaveUp, k + 1, fs)
            else if plan.edits == [] then Ended(Failed, NoEdits, k + 1, fs)
            else match EndOfPlan(plan.edits, fs, root, world)
              case Written(written) => EndOfRun(k + 1, n, written, root, world, prior)
              case Refused(written, error) => Ended(Failed, error, k + 1, written)
              case Raises(written) => Raised(k + 1, written)
  {
  }

  lemma {:induction false} EndOfExhausted(k: nat, n: nat, fs: FileSystem, root: Path, world: World, prior: Error)
    requires k >= n
    ensures EndOfRun(k, n, fs, root, world, prior) ==
            Ended(Failed, if prior == NoError then Exhausted else prior, k, fs)
  {
  }

  // ---- When a plan raises ----

  /** The i-th edit of a plan is reached, and its target is unreadable then. */
  predicate MeetsUnreadable(edits: seq<Proposal>, i: nat, fs: FileSystem, root: Path, world: World) {
    && i < |edits|
    && EndOfPlan(edits[..i], fs, root, world).Written?
    && Unreadable(EndOfPlan(edits[..i], fs, root, world).files, root, world.resolve(edits[i].path))
  }

  lemma {:induction false} MeetsLater(edits: seq<Proposal>, i: nat, fs: FileSystem, root: Path, world: World)
    requires 0 < i < |edits|
    ensures var e := EditOf(edits[0], world);
            MeetsUnreadable(edits, i, fs, root, world) <==>
            Inside(root, e.path) && Applicable(fs, e) &&
            MeetsUnreadable(edits[1..], i - 1, ApplyEdit(fs, e), root, world)
  {
    hide EndOfPlan, Applicable, ApplyEdit, Inside, Unreadable;
    FirstEdits(edits, i, fs, root, world);
    assert edits[1..][i - 1] == edits[i];
  }

  lemma {:induction false} MeetsFirst(edits: seq<Proposal>, fs: FileSystem, root: Path, world: World)
    requires edits != []
    ensures MeetsUnreadable(edits, 0, fs, root, world) <==> Unreadable(fs, root, EditOf(edits[0], world).path)
  {
    assert edits[..0] == [];
  }

  /** A plan raises exactly when all edits before some edit are written and its target is then unreadable. */
  lemma {:induction false} PlanRaisesIff(edits: seq<Proposal>, fs: FileSystem, root: Path, world: World)
    ensures EndOfPlan(edits, fs, root, world).Raises? <==>
            exists i: nat :: MeetsUnreadable(edits, i, fs, root, world)
    decreases |edits|
  {
    if edits != [] {
      var e := EditOf(edits[0], world);
      var next := ApplyEdit(fs, e);
      MeetsFirst(edits, fs, root, world);
      forall i: nat | 0 < i < |edits|
        ensures MeetsUnreadable(edits, i, fs, root, world) <==>
                Inside(root, e.path) && Applicable(fs, e) && MeetsUnreadable(edits[1..], i - 1, next, root, world)
      {
        MeetsLater(edits, i, fs, root, world);
      }
      PlanRaisesIff(edits[1..], next, root, world);
      hide ApplyEdit, Inside;
      if Inside(root, e.path) && Applicable(fs, e) {
        assert EndOfPlan(edits, fs, root, world) == EndOfPlan(edits[1..], next, root, world);
        hide EndOfPlan, MeetsUnreadable;
        LaterMeets(edits, fs, next, root, world);
      } else {
        NoneMeets(edits, fs, root, world);
        hide MeetsUnreadable;
      }
    } else {
      assert forall i: nat :: !MeetsUnreadable(edits, i, fs, root, world);
    }
  }

  lemma {:induction false} LaterMeets(edits: seq<Proposal>, fs: FileSystem, next: FileSystem, root: Path, world: World)
    requires edits != [] && !MeetsUnreadable(edits, 0, fs, root, world)
    requires forall i: nat :: 0 < i < |edits| ==>
               (MeetsUnreadable(edits, i, fs, root, world) <==> MeetsUnreadable(edits[1..], i - 1, next, root, world))
    ensures (exists i: nat :: MeetsUnreadable(edits, i, fs, root, world)) <==>
            exists i: nat :: MeetsUnreadable(edits[1..], i, next, root, world)
  {
    if i: nat :| MeetsUnreadable(edits, i, fs, root, world) {
      assert MeetsUnreadable(edits[1..], i - 1, next, root, world);
    }
    if i: nat :| MeetsUnreadable(edits[1..], i, next, root, world) {
      assert MeetsUnreadable(edits, i + 1, fs, root, world);
    }
  }

  lemma {:induction false} NoneMeets(edits: seq<Proposal>, fs: FileSystem, root: Path, world: World)
    requires edits != [] && !(Inside(root, EditOf(edits[0], world).path) && Applicable(fs, EditOf(edits[0], world)))
    ensures forall i: nat :: i > 0 ==> !MeetsUnreadable(edits, i, fs, root, world)
  {
    forall i: nat | 0 < i < |edits| ensures !MeetsUnreadable(edits, i, fs, root, world) {
      MeetsLater(edits, i, fs, root, world);
    }
  }

  // ---- When a run raises, and when it completes ----

  /** The files after `m` full rounds from iteration `k` on: failed verifies, each with a plan that is written. */
  function FilesAfter(k: nat, m: nat, fs: FileSystem, root: Path, world: World): Option<FileSystem>
    decreases m
  {
    if m == 0 then Some(fs)
    else
      match RoundFrom(k, fs, root, world)
      case Some(Written(written)) => FilesAfter(k + 1, m - 1, written, root, world)
      case _ => None
  }

  /** The edits of iteration `k`, when it comes to edits. */
  function RoundFrom(k: nat, fs: FileSystem, root: Path, world: World): Option<PlanEnd> {
    var exitCode := world.verify(k, fs);
    var plan := world.plan(k, exitCode, fs);
    if exitCode == 0 || plan.giveUp || plan.edits == [] then None
    else Some(EndOfPlan(plan.edits, fs, root, world))
  }

  /** Iteration `k + m` is reached from iteration `k`, and its plan raises, or its verify passes. */
  predicate RaisesAt(k: nat, m: nat, fs: FileSystem, root: Path, world: World) {
    var reached := FilesAfter(k, m, fs, root, world);
    reached.Some? && var round := RoundFrom(k + m, reached.value, root, world); round.Some? && round.value.Raises?
  }

  predicate PassesAt(k: nat, m: nat, fs: FileSystem, root: Path, world: World) {
    var reached := FilesAfter(k, m, fs, root, world);
    reached.Some? && world.verify(k + m, reached.value) == 0
  }

  lemma {:induction false} AtNextRound(k: nat, m: nat, fs: FileSystem, root: Path, world: World)
    requires m > 0
    ensures match RoundFrom(k, fs, root, world)
            case Some(Written(written)) =>
              && (RaisesAt(k, m, fs, root, world) <==> RaisesAt(k + 1, m - 1, written, root, world))
              && (PassesAt(k, m, fs, root, world) <==> PassesAt(k + 1, m - 1, written, root, world))
            case _ => !RaisesAt(k, m, fs, root, world) && !PassesAt(k, m, fs, root, world)
  {
    hide RoundFrom;
    assert k + m == (k + 1) + (m - 1);
  }

  lemma {:induction false} EndOfRound(k: nat, n: nat, fs: FileSystem, root: Path, world: World, prior: Error)
    requires k < n
    ensures var end := EndOfRun(k, n, fs, root, world, prior);
            match RoundFrom(k, fs, root, world)
            case Some(Written(written)) => end == EndOfRun(k + 1, n, written, root, world, prior)
                                           && !RaisesAt(k, 0, fs, root, world) && !PassesAt(k, 0, fs, root, world)
            case _ => (end.Raised? <==> RaisesAt(k, 0, fs, root, world))
                      && (end.Ended? && end.status == Completed <==> PassesAt(k, 0, fs, root, world))
  {
    hide EndOfPlan;
  }

  /** The first round either settles the run, or is a full one and leaves the rest of the run to do. */
  lemma {:induction false} NextRound(k: nat, n: nat, fs: FileSystem, root: Path, world: World, prior: Error, m: nat)
    requires k < n
    ensures match RoundFrom(k, fs, root, world)
            case Some(Written(written)) =>
              && EndOfRun(k, n, fs, root, world, prior) == EndOfRun(k + 1, n, written, root, world, prior)
              && (RaisesAt(k, m, fs, root, world) <==> m > 0 && RaisesAt(k + 1, m - 1, written, root, world))
              && (PassesAt(k, m, fs, root, world) <==> m > 0 && PassesAt(k + 1, m - 1, written, root, world))
            case _ => m > 0 ==> !RaisesAt(k, m, fs, root, world) && !PassesAt(k, m, fs, root, world)
  {
    hide RoundFrom, EndOfRun, RaisesAt, PassesAt;
    EndOfRound(k, n, fs, root, world, prior);
    if m > 0 {
      AtNextRound(k, m, fs, root, world);
    }
  }

  predicate FullRound(k: nat, fs: FileSystem, root: Path, world: World) {
    RoundFrom(k, fs, root, world).Some? && RoundFrom(k, fs, root, world).value.Written?
  }

  /** Whatever happens later in the run is what happens from the next iteration on. */
  lemma {:induction false} ReachedFrom(k: nat, next: nat, n: nat, fs: FileSystem, root: Path, world: World)
    requires next == k + 1 && FullRound(k, fs, root, world)
    ensures var written := RoundFrom(k, fs, root, world).value.files;
            && ((exists m: nat :: k + m < n && RaisesAt(k, m, fs, root, world)) <==>
                (exists m: nat :: next + m < n && RaisesAt(next, m, written, root, world)))
            && ((exists m: nat :: k + m < n && PassesAt(k, m, fs, root, world)) <==>
                (exists m: nat :: next + m < n && PassesAt(next, m, written, root, world)))
  {
    hide RoundFrom, RaisesAt, PassesAt;
    var written := RoundFrom(k, fs, root, world).value.files;
    forall m: nat
      ensures RaisesAt(k, m, fs, root, world) <==> m > 0 && RaisesAt(next, m - 1, written, root, world)
      ensures PassesAt(k, m, fs, root, world) <==> m > 0 && PassesAt(next, m - 1, written, root, world)
    {
      NextRound(k, next, fs, root, world, NoError, m);
    }
    if m: nat :| next + m < n && RaisesAt(next, m, written, root, world) {
      assert k + (m + 1) < n && RaisesAt(k, m + 1, fs, root, world);
    }
    if m: nat :| next + m < n && PassesAt(next, m, written, root, world) {
      assert k + (m + 1) < n && PassesAt(k, m + 1, fs, root, world);
    }
  }

  lemma {:induction false} NothingAfter(k: nat, fs: FileSystem, root: Path, world: World)
    requires !FullRound(k, fs, root, world)
    ensures forall m: nat :: RaisesAt(k, m, fs, root, world) || PassesAt(k, m, fs, root, world) ==> m == 0
  {
    hide RoundFrom, RaisesAt, PassesAt;
    forall m: nat | m > 0 ensures !RaisesAt(k, m, fs, root, world) && !PassesAt(k, m, fs, root, world) {
      AtNextRound(k, m, fs, root, world);
    }
  }

  /** A run raises exactly when some iteration within the limit is reached and its plan raises. */
  lemma {:induction false} RunRaisesIff(k: nat, n: nat, fs: FileSystem, root: Path, world: World, prior: Error)
    requires k <= n
    ensures EndOfRun(k, n, fs, root, world, prior).Raised? <==>
            exists m: nat :: k + m < n && RaisesAt(k, m, fs, root, world)
    decreases n - k
  {
    hide RoundFrom, RaisesAt, PassesAt, EndOfRun;
    if k < n {
      EndOfRound(k, n, fs, root, world, prior);
      if FullRound(k, fs, root, world) {
        RunRaisesIff(k + 1, n, RoundFrom(k, fs, root, world).value.files, root, world, prior);
        ReachedFrom(k, k + 1, n, fs, root, world);
      } else {
        NothingAfter(k, fs, root, world);
        assert RaisesAt(k, 0, fs, root, world) ==> k + 0 < n;
      }
    } else {
      EndOfExhausted(k, n, fs, root, world, prior);
    }
  }

  predicate IsCompleted(end: RunEnd) {
    end.Ended? && end.status == Completed
  }

  /** A run is completed exactly when some iteration within the limit is reached and its verify passes. */
  lemma {:induction false} RunCompletesIff(k: nat, n: nat, fs: FileSystem, root: Path, world: World, prior: Error)
    requires k <= n
    ensures IsCompleted(EndOfRun(k, n, fs, root, world, prior)) <==>
            exists m: nat :: k + m < n && PassesAt(k, m, fs, root, world)
    decreases n - k
  {
    hide RoundFrom, RaisesAt, PassesAt, EndOfRun;
    if k < n {
      EndOfRound(k, n, fs, root, world, prior);
      if FullRound(k, fs, root, world) {
        RunCompletesIff(k + 1, n, RoundFrom(k, fs, root, world).value.files, root, world, prior);
        ReachedFrom(k, k + 1, n, fs, root, world);
      } else {
        NothingAfter(k, fs, root, world);
        assert PassesAt(k, 0, fs, root, world) ==> k + 0 < n;
      }
    } else {
      EndOfExhausted(k, n, fs, root, world, prior);
    }
  }

  // ---- What a caller can check ----

  /** No proposal the planner can make names an unreadable target. */
  ghost predicate NamesOnlyReadable(world: World, fs: FileSystem, root: Path) {
    forall k, exitCode, seen, i ::
      0 <= i < |world.plan(k, exitCode, seen).edits| ==>
        !Unreadable(fs, root, world.resolve(world.plan(k, exitCode, seen).edits[i].path))
  }

  /** The same targets are unreadable. */
  ghost predicate SameTextFiles(a: FileSystem, b: FileSystem) {
    forall p: Path :: (p in a <==> p in b) && (p in a ==> (a[p].File? <==> b[p].File?))
  }

  lemma {:induction false} EditKeepsTextFiles(a: FileSystem, b: FileSystem, e: Edit)
    requires SameTextFiles(a, b)
    ensures SameTextFiles(a, ApplyEdit(b, e))
  {
  }

  lemma {:induction false} ReadablePlan(edits: seq<Proposal>, initial: FileSystem, fs: FileSystem, root: Path,
                                        world: World)
    requires SameTextFiles(initial, fs)
    requires forall i :: 0 <= i < |edits| ==> !Unreadable(initial, root, world.resolve(edits[i].path))
    ensures !EndOfPlan(edits, fs, root, world).Raises?
    ensures SameTextFiles(initial, EndOfPlan(edits, fs, root, world).files)
    decreases |edits|
  {
    if edits != [] {
      var e := EditOf(edits[0], world);
      EditKeepsTextFiles(initial, fs, e);
      assert forall i :: 0 <= i < |edits[1..]| ==> edits[1..][i] == edits[i + 1];
      ReadablePlan(edits[1..], initial, ApplyEdit(fs, e), root, world);
      assert !Unreadable(initial, root, e.path) && (e.path in initial <==> e.path in fs);
      hide SameTextFiles, Applicable, ApplyEdit;
    }
  }

  lemma {:induction false} ReadableRound(k: nat, exitCode: int, initial: FileSystem, fs: FileSystem, root: Path,
                                         world: World)
    requires NamesOnlyReadable(world, initial, root) && SameTextFiles(initial, fs)
    ensures var end := EndOfPlan(world.plan(k, exitCode, fs).edits, fs, root, world);
            !end.Raises? && SameTextFiles(initial, end.files)
  {
    hide SameTextFiles, EndOfPlan;
    ReadablePlan(world.plan(k, exitCode, fs).edits, initial, fs, root, world);
  }

  /** If no proposal the planner can make names an unreadable target of the initial files, the run never raises. */
  lemma {:induction false} ReadableRunEnds(k: nat, n: nat, initial: FileSystem, fs: FileSystem, root: Path,
                                           world: World, prior: Error)
    requires NamesOnlyReadable(world, initial, root) && SameTextFiles(initial, fs)
    ensures EndOfRun(k, n, fs, root, world, prior).Ended?
    decreases n - k
  {
    if k < n {
      hide NamesOnlyReadable, SameTextFiles;
      EndOfRunStep(k, n, fs, root, world, prior);
      hide EndOfRun, EndOfPlan;
      ReadableRound(k, world.verify(k, fs), initial, fs, root, world);
      var end := EndOfPlan(world.plan(k, world.verify(k, fs), fs).edits, fs, root, world);
      if end.Written? {
        ReadableRunEnds(k + 1, n, initial, end.files, root, world, prior);
      }
    }
  }

  /** A planner that answers a failed verify with an edit of the workspace root makes the run raise at once. */
  lemma {:induction false} RootProposalRaises(n: nat, fs: FileSystem, root: Path, world: World, prior: Error)
    requires n > 0 && root in fs && fs[root] == Directory && world.verify(0, fs) != 0
    requires var plan := world.plan(0, world.verify(0, fs), fs);
             !plan.giveUp && plan.edits != [] && world.resolve(plan.edits[0].path) == root
    ensures EndOfRun(0, n, fs, root, world, prior) == Raised(1, fs)
  {
    var plan := world.plan(0, world.verify(0, fs), fs);
    assert Unreadable(fs, root, EditOf(plan.edits[0], world).path);
  }

  /** Such runs exist: the first verify fails, and the planner proposes to edit ".". */
  lemma {:induction false} SomeRunRaises()
    ensures exists fs: FileSystem, root: Path, world: World ::
              root in fs && fs[root] == Directory && EndOfRun(0, 1, fs, root, world, NoError).Raised?
  {
    var root: Path := ["work"];
    var fs: FileSystem := map[root := Directory];
    var world := World(_ => root, (_, _) => 1, (_, _, _) => PlanResult([Proposal(".", "a", "b")], false));
    RootProposalRaises(1, fs, root, world, NoError);
  }
}
