/** What the view of a transcript promises, for every history and every setting of the limits. */
module ContextProperties {
  import opened Prelude
  import opened Transcript
  import opened ContextManager
  import opened RowText

  // ---- Counting user rows ----

  function CountUsers(h: seq<Row>): nat {
    if h == [] then 0 else (if IsUser(h[0]) then 1 else 0) + CountUsers(h[1..])
  }

  lemma {:induction false} CountUsersAppend(s: seq<Row>, t: seq<Row>)
    ensures CountUsers(s + t) == CountUsers(s) + CountUsers(t)
    decreases |s|
  {
    if s == [] {
      assert s + t == t;
    } else {
      assert (s + t)[1..] == s[1..] + t;
      CountUsersAppend(s[1..], t);
    }
  }

  lemma {:induction false} CountUsersSplit(h: seq<Row>, k: nat)
    requires k <= |h|
    ensures CountUsers(h) == CountUsers(h[..k]) + CountUsers(h[k..])
  {
    assert h == h[..k] + h[k..];
    CountUsersAppend(h[..k], h[k..]);
  }

  ghost predicate Increasing(us: seq<nat>) {
    forall j, k :: 0 <= j < k < |us| ==> us[j] < us[k]
  }

  /** Every listed index is that of a user row, and the k-th has k user rows before it. */
  ghost predicate ListsUsers(us: seq<nat>, h: seq<Row>) {
    forall k :: 0 <= k < |us| ==> us[k] < |h| && IsUser(h[us[k]]) && CountUsers(h[..us[k]]) == k
  }

  ghost predicate ListsAllUsers(us: seq<nat>, h: seq<Row>) {
    forall i :: 0 <= i < |h| && IsUser(h[i]) ==> i in us
  }

  /** The user indices, in increasing order, are those of all user rows. */
  ghost predicate AreUserIndices(us: seq<nat>, h: seq<Row>) {
    |us| == CountUsers(h) && Increasing(us) && ListsUsers(us, h) && ListsAllUsers(us, h)
  }

  lemma {:induction false} CountUsersLast(h: seq<Row>)
    ensures CountUsers(h) == if h == [] then 0
                             else CountUsers(h[..|h| - 1]) + if IsUser(h[|h| - 1]) then 1 else 0
  {
    if h != [] {
      CountUsersSplit(h, |h| - 1);
    }
  }

  lemma NothingListed()
    ensures Increasing([]) && ListsUsers([], [])
  {
  }

  lemma {:induction false} ListsUsersLonger(us: seq<nat>, h: seq<Row>, n: nat)
    requires n <= |h| && ListsUsers(us, h[..n])
    ensures ListsUsers(us, h)
  {
    hide CountUsers;
    forall k | 0 <= k < |us| ensures us[k] < |h| && IsUser(h[us[k]]) && CountUsers(h[..us[k]]) == k {
      assert h[..n][..us[k]] == h[..us[k]];
    }
  }

  lemma {:induction false} AddUserIndex(init: seq<nat>, h: seq<Row>, n: nat)
    requires n < |h| && IsUser(h[n]) && |init| == CountUsers(h[..n])
    requires Increasing(init) && ListsUsers(init, h[..n])
    ensures Increasing(init + [n]) && ListsUsers(init + [n], h)
  {
    hide CountUsers;
    ListsUsersLonger(init, h, n);
  }

  lemma {:induction false} UserIndicesMeaning(h: seq<Row>)
    ensures AreUserIndices(UserIndices(h), h)
    decreases |h|
  {
    hide CountUsers, ListsUsers, Increasing;
    CountUsersLast(h);
    if h == [] {
      NothingListed();
    } else {
      var n := |h| - 1;
      var init := UserIndices(h[..n]);
      UserIndicesMeaning(h[..n]);
      ListsUsersLonger(init, h, n);
      if IsUser(h[n]) {
        AddUserIndex(init, h, n);
      } else {
        assert UserIndices(h) == init;
      }
      forall i | 0 <= i < |h| && IsUser(h[i]) ensures i in UserIndices(h) {
        if i < n {
          assert h[..n][i] == h[i];
        }
      }
    }
  }

  lemma {:induction false} CoalesceCountsUsers(h: seq<Row>)
    ensures CountUsers(Coalesce(h)) <= CountUsers(h)
    ensures CountUsers(h) > 0 ==> CountUsers(Coalesce(h)) > 0
    decreases |h|
  {
    if |h| < 2 {
    } else if IsUser(h[0]) && IsUser(h[1]) {
      var rest := [Merge(h[0], h[1])] + h[2..];
      assert rest[1..] == h[2..] == h[1..][1..];
      CoalesceCountsUsers(rest);
    } else {
      CoalesceCountsUsers(h[1..]);
    }
  }

  // ---- Where the cut falls ----

  /** A user row among the newest `maxTurns`; a zero limit admits all, a negative one skips the oldest. */
  predicate Eligible(cm: ContextManager, h: seq<Row>, v: nat) {
    && v < |h|
    && IsUser(h[v])
    && (if cm.maxTurns > 0 then CountUsers(h[v..]) <= cm.maxTurns else CountUsers(h[..v]) >= -cm.maxTurns)
  }

  predicate Fits(cm: ContextManager, h: seq<Row>, v: nat)
    requires v <= |h|
  {
    Chars(h[v..]) <= cm.HistoryBudgetChars()
  }

  /** The text of these rows takes at most half the context window, at four characters a token. */
  predicate TakesHalfAtMost(cm: ContextManager, h: seq<Row>) {
    2 * Tokens(h) <= cm.contextWindowTokens
  }

  /** The tokens a history takes, the last one possibly not filled. */
  function Tokens(h: seq<Row>): nat {
    (Size(h) + 3) / 4
  }

  lemma {:induction false} FitsMeaning(cm: ContextManager, h: seq<Row>, v: nat)
    requires v < |h|
    ensures Fits(cm, h, v) <==> TakesHalfAtMost(cm, h[v..])
  {
    hide Chars, HistoryText;
    CharsMeaning(h[v..]);
    assert Size(h[v..]) >= 8;
  }

  lemma {:induction false} WholeFits(cm: ContextManager, h: seq<Row>)
    ensures Fits(cm, h, 0) <==> Chars(h) <= cm.HistoryBudgetChars()
  {
    assert h[0..] == h;
  }

  /** A user row is listed at the number of user rows before it. */
  lemma {:induction false} UserRank(h: seq<Row>, v: nat)
    requires v < |h| && IsUser(h[v])
    ensures var us, k := UserIndices(h), CountUsers(h[..v]);
            k < |us| && us[k] == v && |us| == k + CountUsers(h[v..]) && Increasing(us)
  {
    UserIndicesMeaning(h);
    CountUsersSplit(h, v);
    var k :| 0 <= k < |UserIndices(h)| && UserIndices(h)[k] == v;
  }

  lemma {:induction false} SliceTailMember(us: seq<nat>, k: nat, turns: int)
    requires k < |us| && Increasing(us)
    ensures us[k] in SliceTail(us, turns) <==> (if turns > 0 then |us| - k <= turns else k >= -turns)
  {
    var r := SliceTail(us, turns);
    var off := |us| - |r|;
    if k >= off {
      assert r[k - off] == us[k];
    } else {
      assert forall j :: 0 <= j < |r| ==> r[j] == us[off + j] > us[k];
    }
  }

  lemma {:induction false} CandidatesAreEligible(cm: ContextManager, h: seq<Row>, v: nat)
    ensures v in cm.Candidates(h) <==> Eligible(cm, h, v)
  {
    if v < |h| && IsUser(h[v]) {
      UserRank(h, v);
      SliceTailMember(UserIndices(h), CountUsers(h[..v]), cm.maxTurns);
    } else {
      UserIndicesMeaning(h);
      assert v !in UserIndices(h);
    }
  }

  /** The candidates before the first fitting one do not fit. */
  lemma {:induction false} FirstFitIsFirst(h: seq<Row>, cs: seq<nat>, budget: int) returns (k: nat)
    requires forall j :: 0 <= j < |cs| ==> cs[j] < |h|
    ensures k <= |cs| && forall j :: 0 <= j < k ==> Chars(h[cs[j]..]) > budget
    ensures FirstFit(h, cs, budget) == if k < |cs| then Some(cs[k]) else None
    ensures k < |cs| ==> Chars(h[cs[k]..]) <= budget
    decreases |cs|
  {
    hide Chars;
    if cs == [] || Chars(h[cs[0]..]) <= budget {
      k := 0;
    } else {
      var m := FirstFitIsFirst(h, cs[1..], budget);
      k := m + 1;
      assert forall j :: 0 < j < |cs| ==> cs[1..][j - 1] == cs[j];
    }
  }

  /** The turn the window starts at: the oldest eligible one that fits, else the newest. */
  ghost predicate IsWindowTurn(cm: ContextManager, h: seq<Row>, u: nat) {
    && Eligible(cm, h, u)
    && ((Fits(cm, h, u) && forall v: nat :: v < u && Eligible(cm, h, v) ==> !Fits(cm, h, v))
        || (forall v: nat :: Eligible(cm, h, v) ==> v <= u && !Fits(cm, h, v)))
  }

  lemma {:induction false} WindowTurnAmongCandidates(cm: ContextManager, h: seq<Row>) returns (k: nat)
    requires cm.Candidates(h) != []
    ensures k < |cm.Candidates(h)| && cm.Candidates(h)[k] < |h|
    ensures forall j :: 0 <= j < k ==> cm.Candidates(h)[j] < |h| && !Fits(cm, h, cm.Candidates(h)[j])
    ensures Fits(cm, h, cm.Candidates(h)[k]) || k == |cm.Candidates(h)| - 1
    ensures cm.WindowStart(h) == Some(
              if 0 <= LastIndex(h, Assistant) < cm.Candidates(h)[k] then LastIndex(h, Assistant)
              else cm.Candidates(h)[k])
  {
    hide Chars, SliceTail, LastIndex, ContextManager.HistoryBudgetChars;
    var cs := cm.Candidates(h);
    var first := FirstFitIsFirst(h, cs, cm.HistoryBudgetChars());
    k := if first < |cs| then first else |cs| - 1;
  }

  lemma {:induction false} CandidatesIncrease(cm: ContextManager, h: seq<Row>)
    ensures Increasing(cm.Candidates(h))
  {
    UserIndicesMeaning(h);
    hide UserIndices, CountUsers, ListsUsers, ListsAllUsers;
    var us, r := UserIndices(h), cm.Candidates(h);
    forall j, k | 0 <= j < k < |r| ensures r[j] < r[k] {
      assert r[j] == us[|us| - |r| + j] && r[k] == us[|us| - |r| + k];
    }
  }

  lemma {:induction false} WindowTurn(cm: ContextManager, h: seq<Row>) returns (u: nat)
    requires cm.Candidates(h) != []
    ensures IsWindowTurn(cm, h, u)
    ensures cm.WindowStart(h) ==
            Some(if 0 <= LastIndex(h, Assistant) < u then LastIndex(h, Assistant) else u)
  {
    hide Chars, CountUsers, SliceTail, UserIndices, LastIndex;
    hide ContextManager.WindowStart, ContextManager.HistoryBudgetChars;
    hide Fits, ListsUsers, ListsAllUsers;
    var k := WindowTurnAmongCandidates(cm, h);
    var cs := cm.Candidates(h);
    u := cs[k];
    CandidatesIncrease(cm, h);
    CandidatesAreEligible(cm, h, u);
    forall v: nat | Eligible(cm, h, v)
      ensures v < u ==> !Fits(cm, h, v)
      ensures !Fits(cm, h, u) ==> v <= u && !Fits(cm, h, v)
    {
      CandidatesAreEligible(cm, h, v);
      var j :| 0 <= j < |cs| && cs[j] == v;
      assert v < u ==> j < k;
    }
  }

  lemma {:induction false} CutAtNonTool(cm: ContextManager, h: seq<Row>)
    requires |h| > cm.maxMessages && cm.WindowStart(h).Some?
    requires cm.WindowStart(h).value < |h| && !IsTool(h[cm.WindowStart(h).value])
    ensures cm.Cut(h) == cm.WindowStart(h)
  {
    var start := cm.WindowStart(h).value;
    assert Expand(h, start) == start;
    assert h[start..][0] == h[start];
  }

  lemma {:induction false} SomeCandidateIff(cm: ContextManager, h: seq<Row>)
    ensures cm.Candidates(h) != [] <==> CountUsers(h) > 0 && (cm.maxTurns >= 0 || CountUsers(h) > -cm.maxTurns)
  {
    UserIndicesMeaning(h);
    hide CountUsers, UserIndices, ListsUsers, ListsAllUsers, Increasing;
  }

  lemma {:induction false} EligibleIsUser(cm: ContextManager, h: seq<Row>, u: nat)
    requires IsWindowTurn(cm, h, u)
    ensures u < |h| && IsUser(h[u])
  {
  }

  lemma {:induction false} CutAtWindowTurn(cm: ContextManager, h: seq<Row>) returns (u: nat)
    requires |h| > cm.maxMessages && cm.Candidates(h) != []
    ensures IsWindowTurn(cm, h, u) && u < |h| && IsUser(h[u])
    ensures cm.WindowStart(h) == Some(if 0 <= LastIndex(h, Assistant) < u then LastIndex(h, Assistant) else u)
    ensures cm.Cut(h) == cm.WindowStart(h)
    ensures !IsTool(h[cm.WindowStart(h).value])
  {
    hide IsWindowTurn, ContextManager.Candidates, ContextManager.WindowStart, ContextManager.Cut, LastIndex;
    u := WindowTurn(cm, h);
    EligibleIsUser(cm, h, u);
    LastIndexMeaning(h, Assistant);
    CutAtNonTool(cm, h);
  }

  /** The turn is the oldest eligible one whose tail takes half the window at most, else the newest. */
  ghost predicate IsOldestAffordable(cm: ContextManager, h: seq<Row>, u: nat) {
    && Eligible(cm, h, u)
    && ((TakesHalfAtMost(cm, h[u..]) &&
         forall v: nat :: v < u && Eligible(cm, h, v) ==> !TakesHalfAtMost(cm, h[v..]))
        || (forall v: nat :: Eligible(cm, h, v) ==> v <= u && !TakesHalfAtMost(cm, h[v..])))
  }

  /**
   * A history with an eligible user row is cut at the longest tail that starts at an eligible user row and whose text
   * fits the budget, or at the newest user row when none fits; the cut moves earlier only to take in the newest
   * assistant row.
   */
  lemma {:induction false} CutIsLongestFittingTail(cm: ContextManager, h: seq<Row>) returns (u: nat)
    requires |h| > cm.maxMessages && cm.Candidates(h) != []
    ensures IsOldestAffordable(cm, h, u)
    ensures cm.Cut(h) == Some(if 0 <= LastIndex(h, Assistant) < u then LastIndex(h, Assistant) else u)
  {
    hide TakesHalfAtMost, Fits, LastIndex, ContextManager.Candidates, ContextManager.WindowStart, ContextManager.Cut;
    u := CutAtWindowTurn(cm, h);
    forall v: nat | Eligible(cm, h, v) ensures Fits(cm, h, v) <==> TakesHalfAtMost(cm, h[v..]) {
      EligibleInside(cm, h, v);
      FitsMeaning(cm, h, v);
    }
    hide Eligible;
  }

  lemma {:induction false} EligibleInside(cm: ContextManager, h: seq<Row>, v: nat)
    requires Eligible(cm, h, v)
    ensures v < |h|
  {
  }

  /** Compaction raises exactly when a negative turn limit skips every user row of an over-long history. */
  lemma {:induction false} CompactRaisesIff(cm: ContextManager, h: seq<Row>)
    ensures cm.CompactView(h).None? <==>
            |h| > cm.maxMessages && 1 <= CountUsers(h) <= -cm.maxTurns
  {
    UserIndicesMeaning(h);
  }

  // ---- What survives ----

  lemma {:induction false} LeadingOrphansNone(h: seq<Row>, announced: set<string>)
    requires h != [] ==> !IsTool(h[0])
    ensures LeadingOrphans(h, announced) == 0
  {
  }

  lemma {:induction false} StartBeforeAssistant(cm: ContextManager, h: seq<Row>)
    requires LastIndex(h, Assistant) >= 0 && cm.WindowStart(h).Some?
    ensures cm.WindowStart(h).value <= LastIndex(h, Assistant)
  {
  }

  /** Only tool rows are dropped from the front, so no cut passes a row of another kind. */
  lemma {:induction false} CutFromBefore(h: seq<Row>, start: nat, i: nat)
    requires start <= i < |h| && !IsTool(h[i])
    ensures CutFrom(h, start) <= i
  {
    var s := Expand(h, start);
    LeadingOrphansMeaning(h[s..], AllAnnounced(h[s..]));
    assert h[s..][i - s] == h[i];
  }

  lemma {:induction false} CutBeforeAssistant(cm: ContextManager, h: seq<Row>)
    requires LastIndex(h, Assistant) >= 0 && cm.Cut(h).Some?
    ensures cm.Cut(h).value <= LastIndex(h, Assistant)
  {
    LastIndexMeaning(h, Assistant);
    if |h| > cm.maxMessages {
      StartBeforeAssistant(cm, h);
      CutFromBefore(h, cm.WindowStart(h).value, LastIndex(h, Assistant));
    }
  }

  lemma {:induction false} TailSaid(h: seq<Row>, cut: nat, k: nat)
    requires cut <= k <= |h|
    ensures Said(Coalesce(h[cut..])) == Said(h[cut..k]) + Said(h[k..])
  {
    CoalesceKeepsUtterances(h[cut..]);
    assert h[cut..] == h[cut..k] + h[k..];
    SaidAppend(h[cut..k], h[k..]);
  }

  /** The newest assistant row and everything after it are in the view, up to user merging. */
  lemma {:induction false} NewestAssistantSurvives(cm: ContextManager, h: seq<Row>)
    requires LastIndex(h, Assistant) >= 0 && cm.Cut(h).Some?
    ensures var la := LastIndex(h, Assistant);
            var cut := cm.Cut(h).value;
            && cut <= la
            && cm.CompactView(h) == Some(Coalesce(h[cut..]))
            && Said(Coalesce(h[cut..])) == Said(h[cut..la]) + Said(h[la..])
  {
    CutBeforeAssistant(cm, h);
    TailSaid(h, cm.Cut(h).value, LastIndex(h, Assistant));
  }

  /** The view never has two user rows in a row. */
  lemma {:induction false} ViewSeparatesUsers(cm: ContextManager, h: seq<Row>)
    requires cm.CompactView(h).Some?
    ensures NoAdjacentUsers(cm.CompactView(h).value)
  {
    CoalesceSeparatesUsers(h[cm.Cut(h).value..]);
  }

  lemma {:induction false} SplitSaid(h: seq<Row>, cut: nat)
    requires cut <= |h|
    ensures Said(h) == Said(h[..cut]) + Said(Coalesce(h[cut..]))
  {
    hide Said, Coalesce;
    CoalesceKeepsUtterances(h[cut..]);
    SaidAppend(h[..cut], h[cut..]);
    assert h == h[..cut] + h[cut..];
  }

  /** What the view says is a tail of what the transcript says. */
  lemma {:induction false} ViewSaysATail(cm: ContextManager, h: seq<Row>)
    requires cm.Cut(h).Some?
    ensures var cut := cm.Cut(h).value;
            Said(h) == Said(h[..cut]) + Said(Coalesce(h[cut..]))
  {
    SplitSaid(h, cm.Cut(h).value);
  }

  // ---- Tool round trips are kept whole ----

  /** Read from the left, every tool row answers a call announced by the row before its run of tool rows. */
  predicate WellPaired(h: seq<Row>) {
    Paired(Marks(h), {})
  }

  /** So every tool row sits in a run of tool rows directly after an assistant row announcing its call, and back. */
  lemma {:induction false} WellPairedMeaning(h: seq<Row>)
    ensures WellPaired(h) <==>
            forall i :: 0 <= i < |h| && IsTool(h[i]) ==>
              exists a: nat :: a < i && AnsweredId(h[i]) in Announced(h[a]) && forall j :: a < j < i ==> IsTool(h[j])
  {
    var ms := Marks(h);
    PairedIffWellAnswered(ms);
    forall i: nat | i < |h| && IsTool(h[i])
      ensures (exists a: nat :: a < i && AnswersOpening(ms, a, i)) <==>
              exists a: nat :: a < i && AnsweredId(h[i]) in Announced(h[a]) && forall j :: a < j < i ==> IsTool(h[j])
    {
      forall a: nat | a < i
        ensures AnswersOpening(ms, a, i) <==>
                AnsweredId(h[i]) in Announced(h[a]) && forall j :: a < j < i ==> IsTool(h[j])
      {
        assert ms[a] == MarkOf(h[a]) && ms[i] == MarkOf(h[i]);
        assert forall j :: a < j < i ==> ms[j] == MarkOf(h[j]);
      }
    }
  }

  lemma {:induction false} MarksSuffix(h: seq<Row>, k: nat)
    requires k <= |h|
    ensures Marks(h[k..]) == Marks(h)[k..]
  {
  }

  /** In a paired history a cut before a tool row is in the middle of a round trip. */
  lemma {:induction false} ToolCutIsOrphan(h: seq<Row>, s: nat)
    requires WellPaired(h) && s < |h|
    ensures IsTool(h[s]) ==> IsOrphanBoundary(h, s)
  {
    PairedIffWellAnswered(Marks(h));
    if IsTool(h[s]) {
      var ms := Marks(h);
      var a: nat :| a < s && AnswersOpening(ms, a, s);
      if a < s - 1 {
        assert ms[s - 1].Answers?;
      } else {
        assert ms[a] == Opens(Announced(h[a]));
        assert h[a].calls != [];
      }
    }
  }

  /** Compaction never splits a tool round trip: a well-paired history has a well-paired view. */
  lemma {:induction false} CompactKeepsPairing(cm: ContextManager, h: seq<Row>)
    requires WellPaired(h) && cm.CompactView(h).Some?
    ensures WellPaired(cm.CompactView(h).value)
  {
    var ms := Marks(h);
    var cut := cm.Cut(h).value;
    assert cut < |h| ==> !IsTool(h[cut]) by {
      if |h| <= cm.maxMessages {
        if h != [] { ToolCutIsOrphan(h, 0); }
      } else {
        var s := Expand(h, cm.WindowStart(h).value);
        if s < |h| {
          ToolCutIsOrphan(h, s);
          LeadingOrphansNone(h[s..], AllAnnounced(h[s..]));
        }
      }
    }
    PairedSuffix(ms, {}, cut);
    MarksSuffix(h, cut);
    CoalesceKeepsPairing(h[cut..], {});
  }

  // ---- Compacting twice ----

  /**
   * The shapes a second compaction would cut again: an over-long view of several turns, over the budget. With a
   * negative turn limit, which skips turns from the oldest, any over-long view that starts with a turn or has too few.
   */
  predicate StillTooLarge(cm: ContextManager, view: seq<Row>) {
    && |view| > cm.maxMessages
    && view != []
    && CountUsers(view) > 0
    && if cm.maxTurns >= 0
       then IsUser(view[0]) && CountUsers(view) >= 2 && !Fits(cm, view, 0)
       else IsUser(view[0]) || CountUsers(view) <= -cm.maxTurns
  }

  lemma {:induction false} CoalesceAddsNoAssistant(h: seq<Row>)
    requires forall i :: 0 <= i < |h| ==> !IsAssistant(h[i])
    ensures forall i :: 0 <= i < |Coalesce(h)| ==> !IsAssistant(Coalesce(h)[i])
    decreases |h|
  {
    if |h| < 2 {
    } else if IsUser(h[0]) && IsUser(h[1]) {
      CoalesceAddsNoAssistant([Merge(h[0], h[1])] + h[2..]);
    } else {
      CoalesceAddsNoAssistant(h[1..]);
    }
  }

  lemma {:induction false} AllUsersEligible(cm: ContextManager, c: seq<Row>)
    requires cm.maxTurns > 0 ==> CountUsers(c) <= cm.maxTurns
    requires cm.maxTurns >= 0
    ensures cm.Candidates(c) == UserIndices(c)
  {
    UserIndicesMeaning(c);
  }

  /** A view is a fixed point exactly when its own window starts at its first row. */
  lemma {:induction false} FixedIffStartsAtZero(cm: ContextManager, c: seq<Row>)
    requires |c| > cm.maxMessages && NoAdjacentUsers(c)
    requires cm.WindowStart(c).Some?
    requires cm.WindowStart(c).value < |c| && !IsTool(c[cm.WindowStart(c).value])
    ensures cm.CompactView(c) == Some(c) <==> cm.WindowStart(c) == Some(0)
  {
    CutAtNonTool(cm, c);
    assert c[0..] == c;
    CoalesceFixed(c);
  }

  /** The window turn of a view whose user rows are all eligible is its first row, unless it is over the budget. */
  lemma {:induction false} FirstTurnUnlessTooLarge(cm: ContextManager, c: seq<Row>, u: nat)
    requires c != [] && IsUser(c[0]) && cm.Candidates(c) == UserIndices(c)
    requires IsWindowTurn(cm, c, u)
    ensures u == 0 <==> CountUsers(c) < 2 || Fits(cm, c, 0)
  {
    var us := UserIndices(c);
    UserIndicesMeaning(c);
    assert c[0..] == c;
    CandidatesAreEligible(cm, c, 0);
    CandidatesAreEligible(cm, c, u);
    if |us| >= 2 {
      CandidatesAreEligible(cm, c, us[1]);
    }
  }

  /** A view cut at a user row: nothing is left to cut unless it is still too large. */
  lemma {:induction false} RecutUserView(cm: ContextManager, c: seq<Row>)
    requires cm.maxTurns >= 0 && |c| > cm.maxMessages && NoAdjacentUsers(c)
    requires c != [] && IsUser(c[0])
    requires cm.maxTurns > 0 ==> CountUsers(c) <= cm.maxTurns
    ensures cm.CompactView(c) == Some(c) <==> !StillTooLarge(cm, c)
  {
    hide IsWindowTurn, LastIndex, ContextManager.WindowStart, ContextManager.CompactView, ContextManager.Cut;
    hide ContextManager.Candidates;
    assert CountUsers(c) > 0;
    AllUsersEligible(cm, c);
    SomeCandidateIff(cm, c);
    hide CountUsers;
    var u := CutAtWindowTurn(cm, c);
    FirstTurnUnlessTooLarge(cm, c, u);
    LastIndexMeaning(c, Assistant);
    FixedIffStartsAtZero(cm, c);
  }

  /** A negative turn limit skips the first row of such a view, whatever its size. */
  lemma {:induction false} RecutUserViewSkips(cm: ContextManager, c: seq<Row>)
    requires cm.maxTurns < 0 && |c| > cm.maxMessages && NoAdjacentUsers(c)
    requires c != [] && IsUser(c[0])
    ensures cm.CompactView(c) != Some(c) && StillTooLarge(cm, c)
  {
    SomeCandidateIff(cm, c);
    CompactRaisesIff(cm, c);
    hide ContextManager.Candidates, ContextManager.WindowStart, ContextManager.CompactView, LastIndex, UserIndices;
    if cm.Candidates(c) != [] {
      var u := CutAtWindowTurn(cm, c);
      SkippingTurnIsLater(cm, c, u);
      LastIndexMeaning(c, Assistant);
      hide CountUsers, IsWindowTurn;
      FixedIffStartsAtZero(cm, c);
    }
  }

  lemma {:induction false} SkippingTurnIsLater(cm: ContextManager, c: seq<Row>, u: nat)
    requires cm.maxTurns < 0 && IsWindowTurn(cm, c, u)
    ensures u > 0
  {
    assert CountUsers(c[..u]) >= 1;
  }

  /** A view cut at the newest assistant row is a fixed point, if the turn limit leaves it a turn. */
  lemma {:induction false} RecutAssistantView(cm: ContextManager, c: seq<Row>)
    requires |c| > cm.maxMessages && NoAdjacentUsers(c)
    requires c != [] && LastIndex(c, Assistant) == 0 && CountUsers(c) > 0
    ensures cm.CompactView(c) == Some(c) <==> !StillTooLarge(cm, c)
  {
    SomeCandidateIff(cm, c);
    CompactRaisesIff(cm, c);
    hide IsWindowTurn, LastIndex, CountUsers, UserIndices;
    hide ContextManager.Candidates, ContextManager.WindowStart, ContextManager.CompactView;
    LastIndexMeaning(c, Assistant);
    if cm.Candidates(c) != [] {
      var u := CutAtWindowTurn(cm, c);
      FixedIffStartsAtZero(cm, c);
    }
  }

  lemma {:induction false} AnnouncedIgnoresTools(h: seq<Row>, d: nat)
    requires d <= |h| && forall i :: 0 <= i < d ==> IsTool(h[i])
    ensures AllAnnounced(h[d..]) == AllAnnounced(h)
    decreases d
  {
    if d == 0 {
      assert h[0..] == h;
    } else {
      assert h[1..][d - 1..] == h[d..];
      AnnouncedIgnoresTools(h[1..], d - 1);
    }
  }

  lemma {:induction false} ShiftLastIndex(h: seq<Row>, k: nat, role: Role)
    requires k <= |h|
    ensures LastIndex(h[k..], role) == if LastIndex(h, role) >= k then LastIndex(h, role) - k else -1
  {
    LastIndexMeaning(h, role);
    var la := LastIndex(h, role);
    LastIndexIs(h[k..], role, if la >= k then la - k else -1);
  }

  /** The start the row limit asks for in a history without user rows, seen from its newest assistant row. */
  function RowLimitStart(h: seq<Row>, maxMessages: int): nat
    requires |h| > maxMessages
  {
    var la := LastIndex(h, Assistant);
    if 0 <= la < |h| - maxMessages then la else |h| - maxMessages
  }

  lemma {:induction false} CutWithoutUsers(cm: ContextManager, h: seq<Row>)
    requires CountUsers(h) == 0 && |h| > cm.maxMessages
    ensures cm.Cut(h) == Some(CutFrom(h, RowLimitStart(h, cm.maxMessages)))
  {
    hide CutFrom, LastIndex, CountUsers;
    UserIndicesMeaning(h);
  }

  lemma {:induction false} ExpandMeaning(h: seq<Row>, start: nat, i: nat)
    requires Expand(h, start) < i <= start
    ensures IsOrphanBoundary(h, i)
    decreases start
  {
    if i < start {
      ExpandMeaning(h, start - 1, i);
    }
  }

  /** A row answers no call: no id it could carry is announced by an assistant row of the window. */
  ghost predicate AnswersNothing(h: seq<Row>, row: Row) {
    row.role.Tool? &&
    forall i, k ::
      0 <= i < |h| && h[i].role.Assistant? && 0 <= k < |h[i].calls| && h[i].calls[k].id != "" ==>
        h[i].calls[k].id != if row.toolCallId != "" then row.toolCallId else row.callId
  }

  lemma {:induction false} OrphanAnswersNothing(h: seq<Row>, row: Row)
    ensures IsOrphanTool(row, AllAnnounced(h)) <==> AnswersNothing(h, row)
  {
    var id := AnsweredId(row);
    AllAnnouncedMeaning(h, id);
    forall i | 0 <= i < |h|
      ensures id in Announced(h[i]) <==>
              h[i].role.Assistant? && id != "" && exists k :: 0 <= k < |h[i].calls| && h[i].calls[k].id == id
    {
      AnnouncedMeaning(h[i], id);
    }
    hide AllAnnounced, Announced;
  }

  /** The row at `i` is a tool row that continues or follows tool calls. */
  ghost predicate ContinuesCalls(h: seq<Row>, i: nat)
    requires 0 < i < |h|
  {
    h[i].role.Tool? && (h[i - 1].role.Assistant? ==> h[i - 1].calls != [])
    && (h[i - 1].role.Tool? || h[i - 1].role.Assistant?)
  }

  /** Where the scans lead from a window start: back over rows that continue calls, on over rows that answer none. */
  ghost predicate ScansTo(h: seq<Row>, start: nat, from: nat, cut: nat) {
    && from <= start && from <= cut <= |h|
    && (forall i :: from < i <= start && i < |h| ==> ContinuesCalls(h, i))
    && (0 < from < |h| ==> !ContinuesCalls(h, from))
    && (forall i :: from <= i < cut ==> AnswersNothing(h[from..], h[i]))
    && (cut < |h| ==> !AnswersNothing(h[from..], h[cut]))
  }

  lemma {:induction false} DroppedAnswerNothing(window: seq<Row>)
    ensures var d := LeadingOrphans(window, AllAnnounced(window));
            && (forall i :: 0 <= i < d ==> AnswersNothing(window, window[i]))
            && (d < |window| ==> !AnswersNothing(window, window[d]))
  {
    LeadingOrphansMeaning(window, AllAnnounced(window));
    forall i | 0 <= i < |window|
      ensures IsOrphanTool(window[i], AllAnnounced(window)) <==> AnswersNothing(window, window[i])
    {
      OrphanAnswersNothing(window, window[i]);
    }
    hide AnswersNothing, IsOrphanTool, LeadingOrphans, AllAnnounced;
  }

  lemma {:induction false} ExpandedContinueCalls(h: seq<Row>, start: nat)
    ensures var from := Expand(h, start);
            && (forall i :: from < i <= start && i < |h| ==> ContinuesCalls(h, i))
            && (0 < from < |h| ==> !ContinuesCalls(h, from))
  {
    forall i | Expand(h, start) < i <= start && i < |h| ensures ContinuesCalls(h, i) {
      ExpandMeaning(h, start, i);
    }
  }

  lemma {:induction false} CutFromMeaning(h: seq<Row>, start: nat) returns (from: nat)
    ensures ScansTo(h, start, from, CutFrom(h, start))
  {
    from := Expand(h, start);
    ExpandedContinueCalls(h, start);
    hide ContinuesCalls, Expand, IsOrphanBoundary;
    if from > |h| {
      from := |h|;
    } else {
      var window := h[from..];
      var d := LeadingOrphans(window, AllAnnounced(window));
      assert CutFrom(h, start) == from + d;
      DroppedAnswerNothing(window);
      hide AnswersNothing, LeadingOrphans, AllAnnounced, CutFrom;
      forall i | from <= i < from + d ensures AnswersNothing(window, h[i]) {
        assert h[i] == window[i - from];
      }
      assert from + d < |h| ==> h[from + d] == window[d];
    }
  }

  lemma {:induction false} NoUserCounted(h: seq<Row>)
    requires forall i :: 0 <= i < |h| ==> !h[i].role.User?
    ensures CountUsers(h) == 0
    decreases |h|
  {
    if h != [] {
      NoUserCounted(h[1..]);
    }
  }

  /**
   * Without user rows the window starts where the row limit says, or at the newest assistant row before that; it goes
   * back over rows that continue tool calls, and then drops the tool rows in front that answer nothing in it.
   */
  lemma {:induction false} CutWithoutUsersMeaning(cm: ContextManager, h: seq<Row>) returns (from: nat, cut: nat)
    requires |h| > cm.maxMessages && forall i :: 0 <= i < |h| ==> !h[i].role.User?
    ensures var la, limit := LastIndex(h, Assistant), |h| - cm.maxMessages;
            cm.Cut(h) == Some(cut) && ScansTo(h, if 0 <= la < limit then la else limit, from, cut)
  {
    NoUserCounted(h);
    CutWithoutUsers(cm, h);
    cut := cm.Cut(h).value;
    from := CutFromMeaning(h, RowLimitStart(h, cm.maxMessages));
  }

  lemma {:induction false} ExpandToZero(c: seq<Row>, start: nat)
    requires forall i :: 0 < i <= start ==> IsOrphanBoundary(c, i)
    ensures Expand(c, start) == 0
    decreases start
  {
    if start > 0 {
      ExpandToZero(c, start - 1);
    }
  }

  lemma {:induction false} ShiftExpand(h: seq<Row>, start: nat, cut: nat)
    requires Expand(h, start) <= cut <= |h| && cut <= start
    ensures Expand(h[cut..], start - cut) == 0
  {
    var c := h[cut..];
    forall i | 0 < i <= start - cut ensures IsOrphanBoundary(c, i) {
      ExpandMeaning(h, start, cut + i);
      assert c[i] == h[cut + i] && c[i - 1] == h[cut + i - 1];
    }
    ExpandToZero(c, start - cut);
  }

  /** Leading tool rows are dropped once: the row that ends the scan ends it again. */
  lemma {:induction false} DropOnce(h: seq<Row>)
    ensures var d := LeadingOrphans(h, AllAnnounced(h));
            LeadingOrphans(h[d..], AllAnnounced(h[d..])) == 0
  {
    var d := LeadingOrphans(h, AllAnnounced(h));
    LeadingOrphansMeaning(h, AllAnnounced(h));
    AnnouncedIgnoresTools(h, d);
    assert d < |h| ==> h[d..][0] == h[d];
  }

  lemma {:induction false} CutFromIs(h: seq<Row>, start: nat)
    requires Expand(h, start) <= |h|
    ensures var window := h[Expand(h, start)..];
            CutFrom(h, start) == Expand(h, start) + LeadingOrphans(window, AllAnnounced(window))
  {
  }

  /** Cut at the row limit: the limit falls on the same row of the view, and the scans stop where they did. */
  lemma {:induction false} RecutAtRowLimit(h: seq<Row>, start: nat)
    requires CutFrom(h, start) <= start <= |h|
    ensures CutFrom(h[CutFrom(h, start)..], start - CutFrom(h, start)) == 0
  {
    hide IsOrphanBoundary, LeadingOrphans, AllAnnounced, Expand, CutFrom;
    var cut, s := CutFrom(h, start), Expand(h, start);
    var c := h[cut..];
    CutFromIs(h, start);
    DropOnce(h[s..]);
    assert c == h[s..][cut - s..];
    ShiftExpand(h, start, cut);
    CutFromIs(c, start - cut);
    assert c[0..] == c;
  }

  lemma {:induction false} CutFromNonTool(h: seq<Row>, start: nat)
    requires start < |h| && !IsTool(h[start])
    ensures CutFrom(h, start) == start
  {
    assert Expand(h, start) == start;
    assert h[start..][0] == h[start];
  }

  /** The same row is found again in the view: the row limit moves with the rows that were cut. */
  lemma {:induction false} RowLimitMovesAlong(h: seq<Row>, maxMessages: int, cut: nat)
    requires cut <= |h| && |h| - cut > maxMessages && RowLimitStart(h, maxMessages) <= |h|
    requires cut == CutFrom(h, RowLimitStart(h, maxMessages))
    ensures cut <= RowLimitStart(h, maxMessages)
    ensures RowLimitStart(h[cut..], maxMessages) == RowLimitStart(h, maxMessages) - cut
  {
    hide CutFrom, LastIndex;
    var la := LastIndex(h, Assistant);
    LastIndexMeaning(h, Assistant);
    if 0 <= la < |h| - maxMessages {
      CutFromNonTool(h, la);
    }
    ShiftLastIndex(h, cut, Assistant);
  }

  lemma {:induction false} CutBeyondEnd(h: seq<Row>, start: nat)
    requires start > |h| || h == []
    ensures CutFrom(h, start) == |h|
  {
  }

  /** Without user rows the row limit decides, and cutting once is enough. */
  lemma {:induction false} RecutViewWithoutUsers(h: seq<Row>, maxMessages: int, cut: nat)
    requires cut <= |h| && |h| - cut > maxMessages
    requires cut == CutFrom(h, RowLimitStart(h, maxMessages))
    ensures CutFrom(h[cut..], RowLimitStart(h[cut..], maxMessages)) == 0
  {
    hide CutFrom, RowLimitStart;
    var start := RowLimitStart(h, maxMessages);
    if start <= |h| {
      RowLimitMovesAlong(h, maxMessages, cut);
      RecutAtRowLimit(h, start);
    } else {
      CutBeyondEnd(h, start);
      CutBeyondEnd([], RowLimitStart([], maxMessages));
      assert h[cut..] == [];
    }
  }

  lemma {:induction false} CoalesceKeepsFirstAssistant(t: seq<Row>)
    requires t != [] && LastIndex(t, Assistant) == 0
    ensures Coalesce(t) != [] && LastIndex(Coalesce(t), Assistant) == 0
  {
    LastIndexMeaning(t, Assistant);
    CoalesceHead(t);
    if |t| > 1 {
      CoalesceAddsNoAssistant(t[1..]);
      assert Coalesce(t) == [t[0]] + Coalesce(t[1..]);
    }
    LastIndexIs(Coalesce(t), Assistant, 0);
  }

  lemma {:induction false} NoUsersNoAdjacent(h: seq<Row>)
    requires CountUsers(h) == 0
    ensures NoAdjacentUsers(h)
  {
    UserIndicesMeaning(h);
  }

  /** The view of a history without user rows is its tail, and a fixed point. */
  lemma {:induction false} TwiceWithoutUsers(cm: ContextManager, h: seq<Row>)
    requires CountUsers(h) == 0 && |h| > cm.maxMessages && cm.Cut(h).Some?
    requires |Coalesce(h[cm.Cut(h).value..])| > cm.maxMessages
    ensures var c := Coalesce(h[cm.Cut(h).value..]);
            cm.CompactView(c) == Some(c) && CountUsers(c) == 0
  {
    var cut := cm.Cut(h).value;
    hide LastIndex, ContextManager.WindowStart, CutFrom, RowLimitStart;
    CountUsersSplit(h, cut);
    NoUsersNoAdjacent(h[cut..]);
    CoalesceFixed(h[cut..]);
    CutWithoutUsers(cm, h);
    RecutViewWithoutUsers(h, cm.maxMessages, cut);
    CutWithoutUsers(cm, h[cut..]);
    assert h[cut..][0..] == h[cut..];
  }

  /** The view of a history cut at its window turn. */
  lemma {:induction false} TwiceAtTurn(cm: ContextManager, h: seq<Row>, u: nat)
    requires Eligible(cm, h, u) && |Coalesce(h[u..])| > cm.maxMessages
    ensures var c := Coalesce(h[u..]);
            cm.CompactView(c) == Some(c) <==> !StillTooLarge(cm, c)
  {
    var t := h[u..];
    hide ContextManager.CompactView, Coalesce;
    CoalesceSeparatesUsers(t);
    CoalesceHead(t);
    CoalesceCountsUsers(t);
    if cm.maxTurns >= 0 {
      RecutUserView(cm, Coalesce(t));
    } else {
      RecutUserViewSkips(cm, Coalesce(t));
    }
  }

  lemma {:induction false} TurnCounts(h: seq<Row>, u: nat)
    requires u < |h| && IsUser(h[u])
    ensures CountUsers(h[u..]) > 0
  {
  }

  lemma {:induction false} AssistantTailHasTurn(h: seq<Row>, u: nat)
    requires 0 <= LastIndex(h, Assistant) < u < |h| && IsUser(h[u])
    ensures var t := h[LastIndex(h, Assistant)..];
            t != [] && IsAssistant(t[0]) && LastIndex(t, Assistant) == 0 && CountUsers(t) > 0
  {
    hide LastIndex, CountUsers;
    var cut := LastIndex(h, Assistant);
    LastIndexMeaning(h, Assistant);
    ShiftLastIndex(h, cut, Assistant);
    CountUsersSplit(h[cut..], u - cut);
    assert h[cut..][u - cut..] == h[u..];
    TurnCounts(h, u);
  }

  /** The view of a history cut at its newest assistant row, before a user row. */
  lemma {:induction false} TwiceAtAssistant(cm: ContextManager, h: seq<Row>, u: nat)
    requires 0 <= LastIndex(h, Assistant) < u < |h| && IsUser(h[u])
    requires |Coalesce(h[LastIndex(h, Assistant)..])| > cm.maxMessages
    ensures var c := Coalesce(h[LastIndex(h, Assistant)..]);
            (cm.CompactView(c) == Some(c) <==> !StillTooLarge(cm, c)) && c != [] && !IsUser(c[0])
  {
    hide ContextManager.CompactView, LastIndex, Coalesce, CountUsers, StillTooLarge, NoAdjacentUsers;
    var t := h[LastIndex(h, Assistant)..];
    AssistantTailHasTurn(h, u);
    CoalesceSeparatesUsers(t);
    CoalesceHead(t);
    CoalesceCountsUsers(t);
    CoalesceKeepsFirstAssistant(t);
    RecutAssistantView(cm, Coalesce(t));
  }

  lemma {:induction false} ShortViewIsFixed(cm: ContextManager, t: seq<Row>)
    requires |Coalesce(t)| <= cm.maxMessages
    ensures cm.CompactView(Coalesce(t)) == Some(Coalesce(t))
  {
    CoalesceSeparatesUsers(t);
    CoalesceFixed(Coalesce(t));
    hide Coalesce;
    assert Coalesce(t)[0..] == Coalesce(t);
  }

  /**
   * Compacting a view again changes nothing, exactly unless the view is still too large. With string contents and a
   * turn limit of at least 0 that never happens (StringViewsAreFixed); with block contents it can
   * (BlockMergingCanOverflow).
   */
  lemma {:induction false} CompactTwice(cm: ContextManager, h: seq<Row>)
    requires cm.CompactView(h).Some?
    ensures var c := cm.CompactView(h).value;
            cm.CompactView(c) == Some(c) <==> !StillTooLarge(cm, c)
  {
    var cut := cm.Cut(h).value;
    var c := Coalesce(h[cut..]);
    assert cm.CompactView(h) == Some(c);
    if |c| <= cm.maxMessages {
      ShortViewIsFixed(cm, h[cut..]);
    } else {
      LongCutView(cm, h, cut);
      CompactRaisesIff(cm, h);
      SomeCandidateIff(cm, h);
      hide ContextManager.WindowStart, ContextManager.CompactView, ContextManager.Candidates, Coalesce, LastIndex;
      hide IsWindowTurn, Chars, CountUsers;
      if CountUsers(h) == 0 {
        TwiceWithoutUsers(cm, h);
      } else {
        var u := CutAtWindowTurn(cm, h);
        EligibleTurn(cm, h, u);
        if cut == u {
          TwiceAtTurn(cm, h, u);
        } else {
          TwiceAtAssistant(cm, h, u);
        }
      }
    }
  }

  lemma {:induction false} EligibleTurn(cm: ContextManager, h: seq<Row>, u: nat)
    requires IsWindowTurn(cm, h, u)
    ensures Eligible(cm, h, u)
  {
  }

  /** Merging never adds rows, so only an over-long history has an over-long view. */
  lemma {:induction false} LongCutView(cm: ContextManager, h: seq<Row>, cut: nat)
    requires cut <= |h| && |Coalesce(h[cut..])| > cm.maxMessages
    ensures |h| > cm.maxMessages
  {
    hide Coalesce;
  }

  lemma {:induction false} WindowTurnIsUnique(cm: ContextManager, h: seq<Row>, u: nat, v: nat)
    requires IsWindowTurn(cm, h, u) && IsWindowTurn(cm, h, v)
    ensures u == v
  {
    hide Fits;
    assert Eligible(cm, h, u) && Eligible(cm, h, v);
  }

  /**
   * The same condition on the history: the window fits the budget before its user rows are merged and no longer
   * after, the merged rows are too many for the fast path, and several turns are left to choose from.
   */
  ghost predicate MergingOverflows(cm: ContextManager, h: seq<Row>) {
    |h| > cm.maxMessages &&
    exists u: nat ::
      && IsWindowTurn(cm, h, u) && u < |h| && !(0 <= LastIndex(h, Assistant) < u) && Fits(cm, h, u)
      && |Coalesce(h[u..])| > cm.maxMessages && CountUsers(Coalesce(h[u..])) >= 2
      && !Fits(cm, Coalesce(h[u..]), 0)
  }

  /** A view that is still too large is the merged window of a turn. */
  lemma {:induction false} TooLargeAtTurn(cm: ContextManager, h: seq<Row>, u: nat, cut: nat)
    requires cm.maxTurns >= 0 && IsWindowTurn(cm, h, u) && u < |h|
    requires cut == if 0 <= LastIndex(h, Assistant) < u then LastIndex(h, Assistant) else u
    requires StillTooLarge(cm, Coalesce(h[cut..]))
    ensures cut == u && !(0 <= LastIndex(h, Assistant) < u) && Fits(cm, h, u)
  {
    LastIndexMeaning(h, Assistant);
    hide ContextManager.HistoryBudgetChars, Coalesce, LastIndex, IsWindowTurn, Chars, CountUsers;
    CoalesceHead(h[cut..]);
    assert cut == u;
    CoalesceCountsUsers(h[u..]);
    if !Fits(cm, h, u) {
      OverBudgetWindowIsOneTurn(cm, h, u);
      assert false;
    }
  }

  /** Compaction is idempotent on a history exactly unless merging its window pushes that over the budget. */
  lemma {:induction false} CompactTwiceIff(cm: ContextManager, h: seq<Row>)
    requires cm.maxTurns >= 0 && cm.CompactView(h).Some?
    ensures cm.CompactView(cm.CompactView(h).value) == cm.CompactView(h) <==> !MergingOverflows(cm, h)
  {
    CompactTwice(cm, h);
    var cut := cm.Cut(h).value;
    var c := Coalesce(h[cut..]);
    assert cm.CompactView(h) == Some(c);
    SomeCandidateIff(cm, h);
    hide ContextManager.CompactView, ContextManager.WindowStart, ContextManager.Candidates, Coalesce, Chars;
    hide ContextManager.HistoryBudgetChars, IsWindowTurn, LastIndex, Fits;
    if StillTooLarge(cm, c) {
      LongCutView(cm, h, cut);
      CountUsersSplit(h, cut);
      CoalesceCountsUsers(h[cut..]);
      var u := CutAtWindowTurn(cm, h);
      TooLargeAtTurn(cm, h, u, cut);
    }
    if MergingOverflows(cm, h) {
      OverflowIsTooLarge(cm, h);
    }
  }

  lemma {:induction false} OverflowIsTooLarge(cm: ContextManager, h: seq<Row>)
    requires cm.maxTurns >= 0 && cm.Cut(h).Some? && MergingOverflows(cm, h)
    ensures StillTooLarge(cm, Coalesce(h[cm.Cut(h).value..]))
  {
    hide ContextManager.Cut, ContextManager.WindowStart, ContextManager.Candidates, Coalesce, Chars;
    hide ContextManager.HistoryBudgetChars, IsWindowTurn, LastIndex, Fits, CountUsers;
    var v: nat :|
      && IsWindowTurn(cm, h, v) && v < |h| && !(0 <= LastIndex(h, Assistant) < v) && Fits(cm, h, v)
      && |Coalesce(h[v..])| > cm.maxMessages && CountUsers(Coalesce(h[v..])) >= 2
      && !Fits(cm, Coalesce(h[v..]), 0);
    EligibleIsUser(cm, h, v);
    CountUsersSplit(h, v);
    CoalesceCountsUsers(h[v..]);
    SomeCandidateIff(cm, h);
    var u := CutAtWindowTurn(cm, h);
    WindowTurnIsUnique(cm, h, u, v);
    CoalesceHead(h[u..]);
  }

  lemma {:induction false} StringMergingNeverGrows(h: seq<Row>)
    requires forall i :: 0 <= i < |h| && IsUser(h[i]) ==> h[i].content.Text?
    ensures Chars(Coalesce(h)) <= Chars(h)
    decreases |h|
  {
    if |h| < 2 {
    } else if IsUser(h[0]) && IsUser(h[1]) {
      var rest := [Merge(h[0], h[1])] + h[2..];
      assert rest[1..] == h[2..] == h[1..][1..];
      StringMergingNeverGrows(rest);
    } else {
      StringMergingNeverGrows(h[1..]);
    }
  }

  /** When no eligible turn fits, the window starts at the newest user row, so it holds a single turn. */
  lemma {:induction false} OverBudgetWindowIsOneTurn(cm: ContextManager, h: seq<Row>, u: nat)
    requires cm.maxTurns >= 0 && IsWindowTurn(cm, h, u) && !Fits(cm, h, u)
    ensures CountUsers(h[u..]) == 1
  {
    hide Fits;
    var us := UserIndices(h);
    UserIndicesMeaning(h);
    assert u in us;
    var w := us[|us| - 1];
    CountUsersSplit(h, w);
    assert Eligible(cm, h, w);
    assert w == u;
  }

  lemma {:induction false} StringsDoNotOverflow(cm: ContextManager, h: seq<Row>)
    requires forall i :: 0 <= i < |h| && IsUser(h[i]) ==> h[i].content.Text?
    ensures !MergingOverflows(cm, h)
  {
    hide ContextManager.HistoryBudgetChars, Coalesce, LastIndex, IsWindowTurn, Chars, CountUsers;
    forall u: nat | u < |h| && IsUser(h[u]) && Fits(cm, h, u) ensures Fits(cm, Coalesce(h[u..]), 0) {
      StringMergingNeverGrows(h[u..]);
      WholeFits(cm, Coalesce(h[u..]));
    }
    forall u: nat | IsWindowTurn(cm, h, u) ensures u < |h| && IsUser(h[u]) {
      EligibleIsUser(cm, h, u);
    }
  }

  /** With string contents compaction is idempotent, whatever the limits. */
  lemma {:induction false} StringViewsAreFixed(cm: ContextManager, h: seq<Row>)
    requires cm.maxTurns >= 0 && cm.CompactView(h).Some?
    requires forall i :: 0 <= i < |h| && IsUser(h[i]) ==> h[i].content.Text?
    ensures var c := cm.CompactView(h).value; cm.CompactView(c) == Some(c)
  {
    CompactTwiceIff(cm, h);
    StringsDoNotOverflow(cm, h);
  }

  // A fitting window of four rows whose merged form is over its 40-character budget.
  const SMALL := ContextManager(1, 10, 20)
  const ASK := Row(User, Text("a"), [], "", "", "")
  const ATTACH := Row(User, Blocks([RawBlock("{}")]), [], "", "", "")
  const REPLY := Row(Assistant, Text(""), [], "", "", "")
  const NEXT := Row(User, Text(""), [], "", "", "")
  const MERGED := Row(User, Blocks([TextBlock("a"), RawBlock("{}")]), [], "", "", "")

  lemma ExampleView()
    ensures Coalesce([ASK, ATTACH, REPLY, NEXT]) == [MERGED, REPLY, NEXT]
    ensures CountUsers([ASK, ATTACH, REPLY, NEXT]) == 3 && CountUsers([MERGED, REPLY, NEXT]) == 2
  {
    var h := [ASK, ATTACH, REPLY, NEXT];
    assert AsBlocks(ASK.content) + AsBlocks(ATTACH.content) == [TextBlock("a"), RawBlock("{}")];
    assert [MERGED] + h[2..] == [MERGED, REPLY, NEXT];
    CoalesceFixed([MERGED, REPLY, NEXT]);
    CountUsersAppend([REPLY], [NEXT]);
    CountUsersAppend([MERGED], [REPLY] + [NEXT]);
    CountUsersAppend([ATTACH], [REPLY] + [NEXT]);
    CountUsersAppend([ASK], [ATTACH] + ([REPLY] + [NEXT]));
    assert [ASK] + ([ATTACH] + ([REPLY] + [NEXT])) == h;
    assert [MERGED] + ([REPLY] + [NEXT]) == [MERGED, REPLY, NEXT];
  }

  lemma ExampleSizes()
    ensures Chars([ASK, ATTACH, REPLY, NEXT]) == 37 && Chars([MERGED, REPLY, NEXT]) == 59
  {
    var h1, h2, h3 := [ATTACH, REPLY, NEXT], [REPLY, NEXT], [NEXT];
    assert [ASK, ATTACH, REPLY, NEXT][1..] == h1 && [MERGED, REPLY, NEXT][1..] == h2;
    assert h1[1..] == h2 && h2[1..] == h3 && h3[1..] == [];
    assert Chars(h3) == 8 && Chars(h2) == 16;
    var bs := MERGED.content.blocks;
    assert bs[1..] == ATTACH.content.blocks && bs[1..][1..] == [] && "a"[1..] == "";
    assert RowChars(ATTACH) == 12 && RowChars(MERGED) == 43;
    assert Chars(h1) == 28;
  }

  /** The fitting window is not cut. */
  lemma ExampleIsWhole()
    ensures SMALL.CompactView([ASK, ATTACH, REPLY, NEXT]) == Some([MERGED, REPLY, NEXT])
  {
    var h := [ASK, ATTACH, REPLY, NEXT];
    ExampleView();
    ExampleSizes();
    AllUsersEligible(SMALL, h);
    assert h[0..] == h;
    hide Coalesce, Chars, CountUsers, ContextManager.WindowStart, LastIndex;
    WholeFits(SMALL, h);
    hide Fits, IsWindowTurn, ContextManager.Candidates, ContextManager.Cut;
    SomeCandidateIff(SMALL, h);
    var u := CutAtWindowTurn(SMALL, h);
    FirstTurnUnlessTooLarge(SMALL, h, u);
    LastIndexMeaning(h, Assistant);
  }

  /** Merging a string with blocks can push a fitting window over the budget, and the second pass then cuts it. */
  lemma BlockMergingCanOverflow()
    ensures exists h: seq<Row> ::
              SMALL.CompactView(h).Some? && SMALL.CompactView(SMALL.CompactView(h).value) != SMALL.CompactView(h)
  {
    var h := [ASK, ATTACH, REPLY, NEXT];
    ExampleIsWhole();
    ExampleView();
    ExampleSizes();
    hide ContextManager.CompactView, Coalesce, Chars, CountUsers;
    CompactTwice(SMALL, h);
    WholeFits(SMALL, [MERGED, REPLY, NEXT]);
    hide Fits;
    assert StillTooLarge(SMALL, [MERGED, REPLY, NEXT]);
  }
}
