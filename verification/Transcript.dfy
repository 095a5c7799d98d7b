/** The rows of a conversation, and when its tool results are properly answered calls. */
module Transcript {
  datatype Role = System | User | Assistant | Tool | OtherRole(name: string)

  /** One announced tool call; `json` is the text it serialises to. */
  datatype Call = Call(id: string, name: string, arguments: string, json: string)

  /** A content block: the text block the merger builds, or any other block, known by its serialised text. */
  datatype Block = TextBlock(text: string) | RawBlock(json: string)

  /** The `content` field: missing, null, a string, a list of blocks, or another value (serialised / shown). */
  datatype Content =
    | Missing
    | Null
    | Text(text: string)
    | Blocks(blocks: seq<Block>)
    | Scalar(json: string, shown: string)

  /** A row. `calls` is `tool_calls`; the three id fields are those a tool row may answer with. */
  datatype Row = Row(role: Role, content: Content, calls: seq<Call>,
                     toolCallId: string, callId: string, rowId: string)

  predicate IsUser(row: Row) { row.role.User? }

  predicate IsTool(row: Row) { row.role.Tool? }

  predicate IsAssistant(row: Row) { row.role.Assistant? }

  /** The call id a tool row answers, as the context window reads it. */
  function AnsweredId(row: Row): string {
    if row.toolCallId != "" then row.toolCallId else row.callId
  }

  function NonEmptyIds(calls: seq<Call>): set<string> {
    if calls == [] then {}
    else (if calls[0].id != "" then {calls[0].id} else {}) + NonEmptyIds(calls[1..])
  }

  /** The non-empty call ids an assistant row announces. */
  function Announced(row: Row): set<string> {
    if IsAssistant(row) then NonEmptyIds(row.calls) else {}
  }

  lemma {:induction false} NonEmptyIdsMeaning(calls: seq<Call>, id: string)
    ensures id in NonEmptyIds(calls) <==> id != "" && exists k :: 0 <= k < |calls| && calls[k].id == id
    decreases |calls|
  {
    if calls != [] {
      NonEmptyIdsMeaning(calls[1..], id);
      assert forall k :: 0 < k < |calls| ==> calls[1..][k - 1] == calls[k];
      assert forall k :: 0 <= k < |calls[1..]| ==> calls[1..][k] == calls[k + 1];
    }
  }

  /** A row announces the ids of its calls if it is an assistant row, but no empty one. */
  lemma {:induction false} AnnouncedMeaning(row: Row, id: string)
    ensures id in Announced(row) <==>
            row.role.Assistant? && id != "" && exists k :: 0 <= k < |row.calls| && row.calls[k].id == id
  {
    NonEmptyIdsMeaning(row.calls, id);
  }

  // ---- Pairing, stated once for rows and for the messages they become ----

  /** What one row or message does to the pairing: open a new set of calls, or answer one. */
  datatype Mark = Opens(ids: set<string>) | Answers(id: string)

  function MarkOf(row: Row): Mark {
    if IsTool(row) then Answers(AnsweredId(row)) else Opens(Announced(row))
  }

  function Marks(h: seq<Row>): (ms: seq<Mark>)
    ensures |ms| == |h| && forall i :: 0 <= i < |h| ==> ms[i] == MarkOf(h[i])
  {
    if h == [] then [] else [MarkOf(h[0])] + Marks(h[1..])
  }

  /** The answer at `i` belongs to the opening at `a`, with only answers between them. */
  ghost predicate AnswersOpening(ms: seq<Mark>, a: nat, i: nat)
    requires a < i < |ms| && ms[i].Answers?
  {
    && ms[a].Opens?
    && ms[i].id in ms[a].ids
    && forall j :: a < j < i ==> ms[j].Answers?
  }

  /** Every answer sits in a run of answers directly after an opening that announced it. */
  ghost predicate WellAnswered(ms: seq<Mark>) {
    forall i :: 0 <= i < |ms| && ms[i].Answers? ==> exists a: nat :: a < i && AnswersOpening(ms, a, i)
  }

  /** The same as one scan from the left; `open` holds the ids that may be answered next. */
  predicate Paired(ms: seq<Mark>, open: set<string>) {
    ms == [] ||
    match ms[0]
    case Opens(ids) => Paired(ms[1..], ids)
    case Answers(id) => id in open && Paired(ms[1..], open)
  }

  /** The ids open just before position `i`, when `open` were open at the start. */
  function OpenAt(ms: seq<Mark>, open: set<string>, i: nat): set<string>
    requires i <= |ms|
    decreases i
  {
    if i == 0 then open
    else match ms[i - 1]
      case Opens(ids) => ids
      case Answers(_) => OpenAt(ms, open, i - 1)
  }

  lemma {:induction false} OpenAtTail(ms: seq<Mark>, open: set<string>, i: nat)
    requires 1 <= i <= |ms|
    ensures OpenAt(ms, open, i) == OpenAt(ms[1..], OpenAt(ms, open, 1), i - 1)
    decreases i
  {
    if i > 1 {
      assert ms[1..][i - 2] == ms[i - 1];
      OpenAtTail(ms, open, i - 1);
    }
  }

  lemma {:induction false} PairedAt(ms: seq<Mark>, open: set<string>)
    ensures Paired(ms, open) <==>
            forall i :: 0 <= i < |ms| && ms[i].Answers? ==> ms[i].id in OpenAt(ms, open, i)
    decreases |ms|
  {
    if ms != [] {
      var open1 := OpenAt(ms, open, 1);
      var tail := ms[1..];
      PairedAt(tail, open1);
      forall i | 1 <= i < |ms|
        ensures tail[i - 1] == ms[i] && OpenAt(ms, open, i) == OpenAt(tail, open1, i - 1)
      {
        OpenAtTail(ms, open, i);
      }
      if forall i :: 0 <= i < |ms| && ms[i].Answers? ==> ms[i].id in OpenAt(ms, open, i) {
        forall i | 0 <= i < |tail| && tail[i].Answers?
          ensures tail[i].id in OpenAt(tail, open1, i)
        {
          assert ms[i + 1] == tail[i];
        }
      }
    }
  }

  lemma {:induction false} OpenAtHasOpening(ms: seq<Mark>, i: nat, id: string)
    requires i <= |ms|
    ensures id in OpenAt(ms, {}, i) <==>
            exists a: nat :: a < i && ms[a].Opens? && id in ms[a].ids && forall j :: a < j < i ==> ms[j].Answers?
    decreases i
  {
    if i > 0 {
      match ms[i - 1]
      case Opens(ids) =>
      case Answers(_) =>
        OpenAtHasOpening(ms, i - 1, id);
        if a: nat :| a < i && ms[a].Opens? && id in ms[a].ids && forall j :: a < j < i ==> ms[j].Answers? {
          assert a < i - 1;
        }
    }
  }

  /** The left-to-right scan accepts exactly the histories in which every answer has its opening. */
  lemma {:induction false} PairedIffWellAnswered(ms: seq<Mark>)
    ensures Paired(ms, {}) <==> WellAnswered(ms)
  {
    PairedAt(ms, {});
    forall i: nat | i < |ms| && ms[i].Answers?
      ensures ms[i].id in OpenAt(ms, {}, i) <==> exists a: nat :: a < i && AnswersOpening(ms, a, i)
    {
      OpenAtHasOpening(ms, i, ms[i].id);
      if ms[i].id in OpenAt(ms, {}, i) {
        var a: nat :| a < i && ms[a].Opens? && ms[i].id in ms[a].ids && forall j :: a < j < i ==> ms[j].Answers?;
        assert AnswersOpening(ms, a, i);
      }
    }
  }

  lemma {:induction false} PairedMonotone(ms: seq<Mark>, open: set<string>, more: set<string>)
    requires open <= more && Paired(ms, open)
    ensures Paired(ms, more)
    decreases |ms|
  {
    if ms != [] && ms[0].Answers? {
      PairedMonotone(ms[1..], open, more);
    }
  }

  /** A tail that does not start with an answer is paired on its own. */
  lemma {:induction false} PairedSuffix(ms: seq<Mark>, open: set<string>, k: nat)
    requires k <= |ms| && Paired(ms, open)
    requires k < |ms| ==> ms[k].Opens?
    ensures Paired(ms[k..], {})
    decreases |ms|
  {
    if k == 0 {
      assert ms[0..] == ms;
    } else {
      assert ms[1..][k - 1..] == ms[k..];
      PairedSuffix(ms[1..], OpenAt(ms, open, 1), k - 1);
    }
  }
}
