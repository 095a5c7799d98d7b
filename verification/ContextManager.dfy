/** The per-request view of a transcript: feral-core/agents/context_manager.py. */
module ContextManager {
  import opened Prelude
  import opened Transcript

  // ---- Row sizes (`_row_chars`, `_chars_from`) ----

  /** Length of a character inside a JSON string written in ASCII. */
  function JsonCharLength(c: char): nat {
    if c == '\"' || c == '\\' then 2
    else if ' ' <= c <= '~' then 1
    else if c in "\n\r\t" || c as int == 8 || c as int == 12 then 2
    else if c as int < 0x1_0000 then 6
    else 12
  }

  function JsonStringLength(s: string): nat {
    if s == "" then 0 else JsonCharLength(s[0]) + JsonStringLength(s[1..])
  }

  /** 28 is the length of the envelope around the text of a text block. */
  function BlockLength(b: Block): nat {
    match b
    case TextBlock(text) => 28 + JsonStringLength(text)
    case RawBlock(json) => |json|
  }

  /** The items of a JSON list; all but the last are followed by a comma and a blank. */
  function BlockItemsLength(bs: seq<Block>): nat {
    if bs == [] then 0
    else BlockLength(bs[0]) + (if |bs| > 1 then 2 else 0) + BlockItemsLength(bs[1..])
  }

  function CallItemsLength(calls: seq<Call>): nat {
    if calls == [] then 0
    else |calls[0].json| + (if |calls| > 1 then 2 else 0) + CallItemsLength(calls[1..])
  }

  function ContentChars(content: Content): nat {
    match content
    case Missing => 0
    case Null => 0
    case Text(s) => |s|
    case Blocks(bs) => 2 + BlockItemsLength(bs)
    case Scalar(json, _) => |json|
  }

  function CallsChars(calls: seq<Call>): nat {
    if calls == [] then 0 else 2 + CallItemsLength(calls)
  }

  function RowChars(row: Row): nat {
    8 + ContentChars(row.content) + CallsChars(row.calls)
  }

  function Chars(h: seq<Row>): nat {
    if h == [] then 0 else RowChars(h[0]) + Chars(h[1..])
  }

  /** Dropping rows from the front never makes the rest larger. */
  lemma {:induction false} CharsShrink(h: seq<Row>, k: nat)
    requires k <= |h|
    ensures Chars(h[k..]) <= Chars(h)
    decreases k
  {
    if k > 0 {
      assert h[1..][k - 1..] == h[k..];
      CharsShrink(h[1..], k - 1);
    } else {
      assert h[0..] == h;
    }
  }

  // ---- Merging consecutive user rows ----

  function AsBlocks(content: Content): seq<Block> {
    match content
    case Missing => []
    case Null => []
    case Text(s) => if s != "" then [TextBlock(s)] else []
    case Blocks(bs) => bs
    case Scalar(_, shown) => [TextBlock(shown)]
  }

  function MergeContent(a: Content, b: Content): Content {
    if a.Text? && b.Text? then
      if a.text != "" && b.text != "" then Text(a.text + "\n\n" + b.text)
      else if a.text != "" then a else b
    else Blocks(AsBlocks(a) + AsBlocks(b))
  }

  function Merge(first: Row, second: Row): Row {
    first.(content := MergeContent(first.content, second.content))
  }

  function Coalesce(h: seq<Row>): (r: seq<Row>)
    ensures |r| <= |h|
    decreases |h|
  {
    if |h| < 2 then h
    else if IsUser(h[0]) && IsUser(h[1]) then Coalesce([Merge(h[0], h[1])] + h[2..])
    else [h[0]] + Coalesce(h[1..])
  }

  predicate NoAdjacentUsers(h: seq<Row>) {
    forall i :: 0 < i < |h| ==> !(IsUser(h[i - 1]) && IsUser(h[i]))
  }

  lemma {:induction false} CoalesceHead(h: seq<Row>)
    requires h != []
    ensures Coalesce(h) != [] && Coalesce(h)[0].role == h[0].role
    decreases |h|
  {
    if |h| >= 2 && IsUser(h[0]) && IsUser(h[1]) {
      CoalesceHead([Merge(h[0], h[1])] + h[2..]);
    }
  }

  /** The merged view never hands the model two user rows in a row. */
  lemma {:induction false} CoalesceSeparatesUsers(h: seq<Row>)
    ensures NoAdjacentUsers(Coalesce(h))
    decreases |h|
  {
    if |h| < 2 {
    } else if IsUser(h[0]) && IsUser(h[1]) {
      CoalesceSeparatesUsers([Merge(h[0], h[1])] + h[2..]);
    } else {
      CoalesceSeparatesUsers(h[1..]);
      CoalesceHead(h[1..]);
    }
  }

  /** A history without adjacent user rows is left as it is. */
  lemma {:induction false} CoalesceFixed(h: seq<Row>)
    requires NoAdjacentUsers(h)
    ensures Coalesce(h) == h
    decreases |h|
  {
    if |h| >= 2 {
      assert !(IsUser(h[0]) && IsUser(h[1]));
      forall i | 0 < i < |h[1..]| ensures !(IsUser(h[1..][i - 1]) && IsUser(h[1..][i])) {
        assert h[1..][i - 1] == h[i] && h[1..][i] == h[i + 1];
      }
      CoalesceFixed(h[1..]);
    }
  }

  lemma {:induction false} CoalesceStep(last: Row, row: Row, rest: seq<Row>)
    ensures Coalesce([last] + ([row] + rest)) ==
            if IsUser(last) && IsUser(row) then Coalesce([Merge(last, row)] + rest)
            else [last] + Coalesce([row] + rest)
  {
    var h := [last] + ([row] + rest);
    assert h[1..] == [row] + rest && h[2..] == rest;
  }

  /** `merged` and the rows not yet read stand for the merged view of `h`. */
  ghost predicate CoalescedSoFar(h: seq<Row>, merged: seq<Row>, rest: seq<Row>) {
    if merged == [] then rest == h
    else
      var n := |merged| - 1;
      Coalesce(h) == merged[..n] + Coalesce([merged[n]] + rest)
  }

  lemma {:induction false} CoalescedSoFarMerge(h: seq<Row>, merged: seq<Row>, row: Row, rest: seq<Row>)
    requires merged != [] && CoalescedSoFar(h, merged, [row] + rest)
    requires IsUser(merged[|merged| - 1]) && IsUser(row)
    ensures CoalescedSoFar(h, merged[|merged| - 1 := Merge(merged[|merged| - 1], row)], rest)
  {
    hide Coalesce, Merge;
    var n := |merged| - 1;
    CoalesceStep(merged[n], row, rest);
    assert merged[n := Merge(merged[n], row)][..n] == merged[..n];
  }

  lemma {:induction false} CoalescedSoFarPush(h: seq<Row>, merged: seq<Row>, row: Row, rest: seq<Row>)
    requires CoalescedSoFar(h, merged, [row] + rest)
    requires merged == [] || !IsUser(merged[|merged| - 1]) || !IsUser(row)
    ensures CoalescedSoFar(h, merged + [row], rest)
  {
    hide Coalesce, Merge;
    var pushed := merged + [row];
    assert pushed[..|merged|] == merged;
    if merged != [] {
      var n := |merged| - 1;
      CoalesceStep(merged[n], row, rest);
      assert merged == merged[..n] + [merged[n]];
    }
  }

  lemma {:induction false} NothingCoalesced(h: seq<Row>)
    ensures CoalescedSoFar(h, [], h[0..])
  {
    assert h[0..] == h;
  }

  lemma {:induction false} CoalescedAll(h: seq<Row>, merged: seq<Row>)
    requires merged != [] && CoalescedSoFar(h, merged, [])
    ensures merged == Coalesce(h)
  {
    var n := |merged| - 1;
    assert [merged[n]] + [] == [merged[n]];
    assert merged[..n] + [merged[n]] == merged;
  }

  /** `coalesce_consecutive_users`: the loop that grows `merged`. */
  method CoalesceConsecutiveUsers(h: seq<Row>) returns (merged: seq<Row>)
    ensures merged == Coalesce(h)
  {
    if |h| < 2 {
      return h;
    }
    if NoAdjacentUsers(h) {
      CoalesceFixed(h);
      return h;
    }
    hide Coalesce, Merge, CoalescedSoFar;
    merged := [];
    NothingCoalesced(h);
    for i := 0 to |h|
      invariant i > 0 ==> merged != []
      invariant CoalescedSoFar(h, merged, h[i..])
    {
      var row := h[i];
      assert h[i..] == [row] + h[i + 1..];
      if merged != [] && IsUser(row) && IsUser(merged[|merged| - 1]) {
        CoalescedSoFarMerge(h, merged, row, h[i + 1..]);
        merged := merged[|merged| - 1 := Merge(merged[|merged| - 1], row)];
      } else {
        CoalescedSoFarPush(h, merged, row, h[i + 1..]);
        merged := merged + [row];
      }
    }
    assert h[|h|..] == [];
    CoalescedAll(h, merged);
  }

  // ---- What merging keeps ----

  /** What a row says: a row other than a user row, one character of user text, or one opaque user block. */
  datatype Utterance = RowSaid(row: Row) | CharSaid(c: char) | BlockSaid(json: string)

  /** User text with the line breaks taken out: the only characters merging adds. */
  function TextSaid(s: string): seq<Utterance> {
    if s == "" then []
    else (if s[0] == '\n' then [] else [CharSaid(s[0])]) + TextSaid(s[1..])
  }

  function BlocksSaid(bs: seq<Block>): seq<Utterance> {
    if bs == [] then []
    else (match bs[0] case TextBlock(s) => TextSaid(s) case RawBlock(json) => [BlockSaid(json)]) + BlocksSaid(bs[1..])
  }

  /** What the content of a user row says: a string, some blocks, or another value as it is shown. */
  function ContentSaid(content: Content): seq<Utterance> {
    match content
    case Text(s) => TextSaid(s)
    case Blocks(bs) => BlocksSaid(bs)
    case Scalar(_, shown) => TextSaid(shown)
    case _ => []
  }

  function SaidBy(row: Row): seq<Utterance> {
    if IsUser(row) then ContentSaid(row.content) else [RowSaid(row)]
  }

  function Said(h: seq<Row>): seq<Utterance> {
    if h == [] then [] else SaidBy(h[0]) + Said(h[1..])
  }

  lemma {:induction false} TextSaidAppend(s: string, t: string)
    ensures TextSaid(s + t) == TextSaid(s) + TextSaid(t)
    decreases |s|
  {
    if s == "" {
      assert s + t == t;
    } else {
      assert (s + t)[1..] == s[1..] + t;
      TextSaidAppend(s[1..], t);
    }
  }

  lemma {:induction false} BlocksSaidAppend(s: seq<Block>, t: seq<Block>)
    ensures BlocksSaid(s + t) == BlocksSaid(s) + BlocksSaid(t)
    decreases |s|
  {
    if s == [] {
      assert s + t == t;
    } else {
      assert (s + t)[1..] == s[1..] + t;
      BlocksSaidAppend(s[1..], t);
    }
  }

  lemma {:induction false} SaidAppend(s: seq<Row>, t: seq<Row>)
    ensures Said(s + t) == Said(s) + Said(t)
    decreases |s|
  {
    if s == [] {
      assert s + t == t;
    } else {
      assert (s + t)[1..] == s[1..] + t;
      SaidAppend(s[1..], t);
    }
  }

  lemma {:induction false} JoinSaid(s: string, t: string)
    ensures TextSaid(s + "\n\n" + t) == TextSaid(s) + TextSaid(t)
  {
    var gap := "\n\n";
    assert TextSaid(gap) == [] by {
      assert gap[1..] == "\n";
    }
    hide TextSaid;
    TextSaidAppend(s + gap, t);
    TextSaidAppend(s, gap);
  }

  /** Turned into blocks, a content says what it said. */
  lemma {:induction false} BlocksSayContent(content: Content)
    ensures BlocksSaid(AsBlocks(content)) == ContentSaid(content)
  {
    var said := if content.Text? then content.text else if content.Scalar? then content.shown else "";
    assert [TextBlock(said)][1..] == [] && TextSaid(said) + [] == TextSaid(said);
  }

  lemma {:induction false} MergeKeepsContent(a: Content, b: Content)
    ensures ContentSaid(MergeContent(a, b)) == ContentSaid(a) + ContentSaid(b)
  {
    if a.Text? && b.Text? {
      JoinSaid(a.text, b.text);
      assert TextSaid("") == [];
      hide TextSaid;
    } else {
      BlocksSayContent(a);
      BlocksSayContent(b);
      hide BlocksSaid, AsBlocks;
      BlocksSaidAppend(AsBlocks(a), AsBlocks(b));
    }
  }

  lemma {:induction false} MergeKeepsSaid(first: Row, second: Row, rest: seq<Row>)
    requires IsUser(first) && IsUser(second)
    ensures Said([Merge(first, second)] + rest) == Said([first] + ([second] + rest))
  {
    hide MergeContent, ContentSaid;
    var merged := Merge(first, second);
    MergeKeepsContent(first.content, second.content);
    assert SaidBy(merged) == SaidBy(first) + SaidBy(second);
    assert ([merged] + rest)[1..] == rest;
    assert ([first] + ([second] + rest))[1..] == [second] + rest && ([second] + rest)[1..] == rest;
  }

  /** Merging is lossless: the same utterances reach the model, in the same order. */
  lemma {:induction false} CoalesceKeepsUtterances(h: seq<Row>)
    ensures Said(Coalesce(h)) == Said(h)
    decreases |h|
  {
    if |h| < 2 {
    } else if IsUser(h[0]) && IsUser(h[1]) {
      MergeKeepsSaid(h[0], h[1], h[2..]);
      assert [h[0]] + ([h[1]] + h[2..]) == h;
      CoalesceKeepsUtterances([Merge(h[0], h[1])] + h[2..]);
    } else {
      var tail := Coalesce(h[1..]);
      CoalesceKeepsUtterances(h[1..]);
      assert ([h[0]] + tail)[1..] == tail;
    }
  }

  lemma {:induction false} CoalesceKeepsPairing(h: seq<Row>, open: set<string>)
    ensures Paired(Marks(Coalesce(h)), open) <==> Paired(Marks(h), open)
    decreases |h|
  {
    if |h| < 2 {
    } else if IsUser(h[0]) && IsUser(h[1]) {
      var rest := [Merge(h[0], h[1])] + h[2..];
      assert rest[1..] == h[2..] == h[1..][1..];
      CoalesceKeepsPairing(rest, open);
      assert Marks(rest)[1..] == Marks(h[2..]) && Marks(h)[1..] == Marks(h[1..]);
      assert Marks(h[1..])[1..] == Marks(h[2..]);
    } else {
      var c := [h[0]] + Coalesce(h[1..]);
      assert c[1..] == Coalesce(h[1..]);
      assert Marks(c)[1..] == Marks(Coalesce(h[1..])) && Marks(h)[1..] == Marks(h[1..]);
      CoalesceKeepsPairing(h[1..], OpenAt(Marks(h), open, 1));
    }
  }

  predicate AreUserTexts(h: seq<Row>) {
    forall i :: 0 <= i < |h| ==> IsUser(h[i]) && h[i].content.Text?
  }

  /** The non-empty texts of some rows, with a blank line between them. */
  function Paragraphs(h: seq<Row>): string
    requires AreUserTexts(h)
  {
    if h == [] then ""
    else
      var first, rest := h[0].content.text, Paragraphs(h[1..]);
      if first == "" then rest else if rest == "" then first else first + "\n\n" + rest
  }

  lemma {:induction false} ParagraphsOfMerged(a: Row, b: Row, rest: seq<Row>)
    requires AreUserTexts([a, b] + rest)
    ensures AreUserTexts([Merge(a, b)] + rest)
    ensures Paragraphs([Merge(a, b)] + rest) == Paragraphs([a, b] + rest)
  {
    assert ([a, b] + rest)[0] == a && ([a, b] + rest)[1] == b;
    assert forall i :: 0 <= i < |rest| ==> rest[i] == ([a, b] + rest)[i + 2];
    assert ([a, b] + rest)[1..][1..] == rest && ([Merge(a, b)] + rest)[1..] == rest;
    var x, y, gap, tail := a.content.text, b.content.text, "\n\n", Paragraphs(rest);
    assert x + gap + y + gap + tail == x + gap + (y + gap + tail);
  }

  /** A stretch of user texts becomes one row of the non-empty ones, with the other fields of the first row. */
  lemma {:induction false} UserTextsJoin(h: seq<Row>)
    requires h != [] && AreUserTexts(h)
    ensures Coalesce(h) == [h[0].(content := Text(Paragraphs(h)))]
    decreases |h|
  {
    if |h| == 1 {
      assert h[1..] == [];
    } else {
      var rest := [Merge(h[0], h[1])] + h[2..];
      assert [h[0], h[1]] + h[2..] == h;
      ParagraphsOfMerged(h[0], h[1], h[2..]);
      hide Paragraphs, MergeContent;
      UserTextsJoin(rest);
    }
  }

  /** Beside blocks, a string becomes one text block, an empty one none, and any other value a block of its text. */
  lemma {:induction false} BlocksJoin(a: Row, b: Row) returns (bs: seq<Block>)
    requires IsUser(a) && IsUser(b) && a.content.Blocks?
    ensures Coalesce([a, b]) == [a.(content := Blocks(a.content.blocks + bs))]
    ensures Coalesce([b, a]) == [b.(content := Blocks(bs + a.content.blocks))]
    ensures match b.content
            case Text(s) => bs == if s == "" then [] else [TextBlock(s)]
            case Blocks(own) => bs == own
            case Scalar(_, shown) => bs == [TextBlock(shown)]
            case _ => bs == []
  {
    bs := AsBlocks(b.content);
    MergeTwo(a, b);
    MergeTwo(b, a);
  }

  lemma {:induction false} MergeTwo(a: Row, b: Row)
    requires IsUser(a) && IsUser(b)
    ensures Coalesce([a, b]) == [Merge(a, b)]
  {
    assert [Merge(a, b)] + [a, b][2..] == [Merge(a, b)];
  }

  // ---- The cut ----

  /** Indices of the user rows, oldest first. */
  function UserIndices(h: seq<Row>): (r: seq<nat>)
    ensures forall k :: 0 <= k < |r| ==> r[k] < |h|
  {
    if h == [] then []
    else UserIndices(h[..|h| - 1]) + if IsUser(h[|h| - 1]) then [|h| - 1] else []
  }

  /** The first candidate whose tail fits the budget, if any. */
  function FirstFit(h: seq<Row>, candidates: seq<nat>, budget: int): Option<nat>
    requires forall k :: 0 <= k < |candidates| ==> candidates[k] < |h|
  {
    if candidates == [] then None
    else if Chars(h[candidates[0]..]) <= budget then Some(candidates[0])
    else FirstFit(h, candidates[1..], budget)
  }

  /** Index of the last row with this role, or -1. */
  function LastIndex(h: seq<Row>, role: Role): (r: int)
    ensures -1 <= r < |h|
  {
    if h == [] then -1
    else if h[|h| - 1].role == role then |h| - 1
    else LastIndex(h[..|h| - 1], role)
  }

  lemma {:induction false} LastIndexIs(h: seq<Row>, role: Role, r: int)
    requires -1 <= r < |h| && (r >= 0 ==> h[r].role == role)
    requires forall i :: r < i < |h| ==> h[i].role != role
    ensures LastIndex(h, role) == r
    decreases |h|
  {
    if r < |h| - 1 {
      LastIndexIs(h[..|h| - 1], role, r);
    }
  }

  lemma {:induction false} LastIndexMeaning(h: seq<Row>, role: Role)
    ensures LastIndex(h, role) >= 0 ==> h[LastIndex(h, role)].role == role
    ensures forall i :: LastIndex(h, role) < i < |h| ==> h[i].role != role
    decreases |h|
  {
    if h != [] && h[|h| - 1].role != role {
      LastIndexMeaning(h[..|h| - 1], role);
    }
  }

  /** The window would start in the middle of a tool round trip. */
  predicate IsOrphanBoundary(h: seq<Row>, i: nat) {
    0 < i < |h| && IsTool(h[i]) && (IsTool(h[i - 1]) || (IsAssistant(h[i - 1]) && h[i - 1].calls != []))
  }

  /** The first row from `start` backwards that is no such boundary. */
  function Expand(h: seq<Row>, start: nat): (r: nat)
    ensures r <= start && !IsOrphanBoundary(h, r)
  {
    if start > 0 && IsOrphanBoundary(h, start) then Expand(h, start - 1) else start
  }

  /** The loop of `compact` that moves the cut back to the announcing row. */
  method ExpandBackwards(h: seq<Row>, from: nat) returns (start: nat)
    ensures start == Expand(h, from)
  {
    start := from;
    while start > 0 && IsOrphanBoundary(h, start)
      invariant Expand(h, start) == Expand(h, from)
    {
      start := start - 1;
    }
  }

  /** All call ids announced anywhere in the window. */
  function AllAnnounced(h: seq<Row>): set<string> {
    if h == [] then {} else Announced(h[0]) + AllAnnounced(h[1..])
  }

  /** How many leading tool rows answer nothing announced in the window. */
  function LeadingOrphans(h: seq<Row>, announced: set<string>): (n: nat)
    ensures n <= |h|
  {
    if h == [] || !IsOrphanTool(h[0], announced) then 0 else 1 + LeadingOrphans(h[1..], announced)
  }

  lemma {:induction false} AllAnnouncedMeaning(h: seq<Row>, id: string)
    ensures id in AllAnnounced(h) <==> exists i :: 0 <= i < |h| && id in Announced(h[i])
    decreases |h|
  {
    if h != [] {
      AllAnnouncedMeaning(h[1..], id);
      assert forall i :: 0 < i < |h| ==> h[1..][i - 1] == h[i];
      assert forall i :: 0 <= i < |h[1..]| ==> h[1..][i] == h[i + 1];
    }
  }

  predicate IsOrphanTool(row: Row, announced: set<string>) {
    IsTool(row) && (AnsweredId(row) == "" || AnsweredId(row) !in announced)
  }

  lemma {:induction false} LeadingOrphansMeaning(h: seq<Row>, announced: set<string>)
    ensures forall i :: 0 <= i < LeadingOrphans(h, announced) ==> IsOrphanTool(h[i], announced)
    ensures LeadingOrphans(h, announced) < |h| ==> !IsOrphanTool(h[LeadingOrphans(h, announced)], announced)
    decreases |h|
  {
    if h != [] && IsOrphanTool(h[0], announced) {
      LeadingOrphansMeaning(h[1..], announced);
      assert forall i :: 1 <= i < |h| ==> h[1..][i - 1] == h[i];
    }
  }

  /** `_last_role_index`: the scan from the newest row. */
  method LastRoleIndex(h: seq<Row>, role: Role) returns (r: int)
    ensures r == LastIndex(h, role)
  {
    r := |h| - 1;
    while r >= 0 && h[r].role != role
      invariant -1 <= r < |h|
      invariant forall i :: r < i < |h| ==> h[i].role != role
    {
      r := r - 1;
    }
    LastIndexIs(h, role, r);
  }

  /** `_drop_leading_orphan_tools`: collect the announced ids, then skip leading tool rows without one. */
  method DropLeadingOrphanTools(h: seq<Row>) returns (kept: seq<Row>)
    ensures kept == h[LeadingOrphans(h, AllAnnounced(h))..]
  {
    var announced: set<string> := {};
    assert h[0..] == h;
    for i := 0 to |h|
      invariant announced + AllAnnounced(h[i..]) == AllAnnounced(h)
    {
      assert h[i..][1..] == h[i + 1..];
      announced := announced + Announced(h[i]);
    }
    assert announced == AllAnnounced(h);
    var dropUntil := 0;
    while dropUntil < |h| && IsOrphanTool(h[dropUntil], announced)
      invariant dropUntil <= |h|
      invariant LeadingOrphans(h, announced) == dropUntil + LeadingOrphans(h[dropUntil..], announced)
    {
      assert h[dropUntil..][1..] == h[dropUntil + 1..];
      dropUntil := dropUntil + 1;
    }
    kept := h[dropUntil..];
  }

  /** The cut reached from a window start: back over a split round trip, then past unanswerable tool rows. */
  function CutFrom(h: seq<Row>, start: nat): (r: nat)
    ensures r <= |h|
  {
    var s := Expand(h, start);
    if s > |h| then |h| else s + LeadingOrphans(h[s..], AllAnnounced(h[s..]))
  }

  lemma {:induction false} CutFromTail(h: seq<Row>, start: nat)
    ensures var s := Expand(h, start);
            var tail := if s <= |h| then h[s..] else [];
            h[CutFrom(h, start)..] == tail[LeadingOrphans(tail, AllAnnounced(tail))..]
  {
    var s := Expand(h, start);
    if s <= |h| {
      var d := LeadingOrphans(h[s..], AllAnnounced(h[s..]));
      assert h[s..][d..] == h[s + d..];
    }
  }

  datatype ContextManager = ContextManager(maxMessages: int, maxTurns: int, contextWindowTokens: int) {
    /** Half the window at four characters a token; the halving truncates toward zero. */
    function HistoryBudgetChars(): int {
      (if contextWindowTokens >= 0 then contextWindowTokens / 2 else -(-contextWindowTokens / 2)) * 4
    }

    function Candidates(h: seq<Row>): seq<nat> {
      SliceTail(UserIndices(h), maxTurns)
    }

    /** Taking the newest of no candidates raises; then there is no start. */
    function WindowStart(h: seq<Row>): Option<nat> {
      var lastAssistant := LastIndex(h, Assistant);
      if UserIndices(h) == [] then
        var start := if |h| > maxMessages then |h| - maxMessages else 0;
        Some(if 0 <= lastAssistant < start then lastAssistant else start)
      else
        var candidates := Candidates(h);
        if candidates == [] then None
        else
          var u := match FirstFit(h, candidates, HistoryBudgetChars())
            case Some(u) => u
            case None => candidates[|candidates| - 1];
          Some(if 0 <= lastAssistant < u then lastAssistant else u)
    }

    /** Where the view starts once round trips are completed and unanswerable tool rows dropped. */
    function Cut(h: seq<Row>): (r: Option<nat>)
      ensures r.Some? ==> r.value <= |h|
    {
      if |h| <= maxMessages then Some(0)
      else match WindowStart(h)
        case None => None
        case Some(start) => Some(CutFrom(h, start))
    }

    /** The view of `h` sent to the model; `None` when the source raises. */
    function CompactView(h: seq<Row>): Option<seq<Row>> {
      match Cut(h)
      case None => None
      case Some(cut) => Some(Coalesce(h[cut..]))
    }

    /** The candidate the window starts at: the first that fits, else the last. */
    method ChooseCandidate(h: seq<Row>, candidates: seq<nat>) returns (u: nat)
      requires candidates != [] && forall k :: 0 <= k < |candidates| ==> candidates[k] < |h|
      ensures u == match FirstFit(h, candidates, HistoryBudgetChars())
                   case Some(w) => w
                   case None => candidates[|candidates| - 1]
    {
      u := candidates[|candidates| - 1];
      assert candidates[0..] == candidates;
      for k := 0 to |candidates|
        invariant FirstFit(h, candidates, HistoryBudgetChars()) ==
                  FirstFit(h, candidates[k..], HistoryBudgetChars())
      {
        if Chars(h[candidates[k]..]) <= HistoryBudgetChars() {
          return candidates[k];
        }
        assert candidates[k..][1..] == candidates[k + 1..];
      }
    }

    /** `_window_start`: the newest user rows, then the newest assistant row. */
    method FindWindowStart(h: seq<Row>) returns (start: Option<nat>)
      ensures start == WindowStart(h)
    {
      var userIndices := UserIndices(h);
      var s: nat;
      if userIndices == [] {
        s := if |h| > maxMessages then |h| - maxMessages else 0;
      } else {
        var candidates := SliceTail(userIndices, maxTurns);
        if candidates == [] {
          return None;
        }
        s := ChooseCandidate(h, candidates);
      }
      var lastAssistant := LastRoleIndex(h, Assistant);
      if 0 <= lastAssistant < s {
        s := lastAssistant;
      }
      start := Some(s);
    }

    /** `compact`: the view of the transcript sent with one request. */
    method Compact(h: seq<Row>) returns (view: Option<seq<Row>>)
      ensures view == CompactView(h)
    {
      if |h| <= maxMessages {
        assert h[0..] == h;
        var merged := CoalesceConsecutiveUsers(h);
        return Some(merged);
      }
      var found := FindWindowStart(h);
      if found.None? {
        return None;
      }
      var start := ExpandBackwards(h, found.value);
      var compacted := DropLeadingOrphanTools(if start <= |h| then h[start..] else []);
      compacted := CoalesceConsecutiveUsers(compacted);
      CutFromTail(h, found.value);
      view := Some(compacted);
    }
  }
}
