/** Rows to Anthropic messages (feral-core/agents/llm_anthropic_shape.py), and what compaction and conversion keep. */
module AnthropicShape {
  import opened Prelude
  import opened Transcript
  import opened ContextManager
  import opened ContextProperties

  /** The input of a tool use: none given, the parsed arguments, or the raw text when it does not parse. */
  datatype Input = NoInput | ParsedInput(json: string) | RawInput(text: string)

  datatype Part =
    | TextPart(text: string)
    | BlockPart(block: Block)
    | ToolUse(id: string, name: string, input: Input)
    | ToolResult(id: string, result: Content)

  datatype Body = Plain(content: Content) | Parts(parts: seq<Part>)

  datatype Message = Message(role: Role, body: Body)

  /** Helpers defined elsewhere: block translation, content translation, `str` of a value, whether JSON parses. */
  datatype Helpers = Helpers(toAnthropic: seq<Block> -> seq<Block>, translate: Content -> Content,
                             show: Content -> string, parses: string -> bool)

  /** The id of a tool result: this converter looks at `tool_call_id` and then `id`, never at `call_id`. */
  function ResultId(row: Row): string {
    if row.toolCallId != "" then row.toolCallId else row.rowId
  }

  function SystemLine(row: Row, f: Helpers): string {
    match row.content
    case Missing => "\n"
    case Text(s) => s + "\n"
    case _ => f.show(row.content) + "\n"
  }

  function ResultContent(row: Row, f: Helpers): Content {
    match row.content
    case Missing => Text("")
    case Null => Text("null")
    case Text(s) => Text(s)
    case Blocks(bs) => Blocks(f.toAnthropic(bs))
    case Scalar(json, _) => Text(json)
  }

  function UseOf(call: Call, f: Helpers): Part {
    ToolUse(call.id, call.name,
            if call.arguments == "" then NoInput
            else if f.parses(call.arguments) then ParsedInput(call.arguments)
            else RawInput(call.arguments))
  }

  function UsesOf(calls: seq<Call>, f: Helpers): seq<Part> {
    if calls == [] then [] else [UseOf(calls[0], f)] + UsesOf(calls[1..], f)
  }

  /** The parts in front of the tool uses. */
  function LeadingParts(content: Content, f: Helpers): (ps: seq<Part>)
    ensures forall p :: p in ps ==> p.TextPart? || p.BlockPart?
  {
    match content
    case Text(s) => if s != "" then [TextPart(s)] else []
    case Blocks(_) =>
      (match f.translate(content)
       case Blocks(bs) => seq(|bs|, i requires 0 <= i < |bs| => BlockPart(bs[i]))
       case _ => [])
    case _ => []
  }

  function MessageOf(row: Row, f: Helpers): Message {
    if IsTool(row) then Message(User, Parts([ToolResult(ResultId(row), ResultContent(row, f))]))
    else if IsAssistant(row) && row.calls != [] then
      Message(Assistant, Parts(LeadingParts(row.content, f) + UsesOf(row.calls, f)))
    else Message(row.role, Plain(f.translate(row.content)))
  }

  function SystemText(rows: seq<Row>, f: Helpers): string {
    if rows == [] then ""
    else (if rows[0].role.System? then SystemLine(rows[0], f) else "") + SystemText(rows[1..], f)
  }

  function Messages(rows: seq<Row>, f: Helpers): seq<Message> {
    if rows == [] then []
    else (if rows[0].role.System? then [] else [MessageOf(rows[0], f)]) + Messages(rows[1..], f)
  }

  /** The inner loop: the text and translated blocks, then one tool use a call. */
  method AssistantParts(row: Row, f: Helpers) returns (parts: seq<Part>)
    ensures parts == LeadingParts(row.content, f) + UsesOf(row.calls, f)
  {
    parts := LeadingParts(row.content, f);
    for k := 0 to |row.calls|
      invariant parts + UsesOf(row.calls[k..], f) == LeadingParts(row.content, f) + UsesOf(row.calls, f)
    {
      assert row.calls[k..][1..] == row.calls[k + 1..];
      parts := parts + [UseOf(row.calls[k], f)];
    }
    assert UsesOf(row.calls[|row.calls|..], f) == [];
  }

  /** What is converted once `done` rows are read: these texts and messages, then those of the rest. */
  ghost predicate ConvertedSoFar(rows: seq<Row>, done: nat, systemText: string, out: seq<Message>, f: Helpers)
    requires done <= |rows|
  {
    && SystemText(rows, f) == systemText + SystemText(rows[done..], f)
    && Messages(rows, f) == out + Messages(rows[done..], f)
  }

  lemma {:induction false} ConvertedSoFarStep(rows: seq<Row>, i: nat, systemText: string, out: seq<Message>, f: Helpers)
    requires i < |rows| && ConvertedSoFar(rows, i, systemText, out, f)
    ensures rows[i].role.System? ==> ConvertedSoFar(rows, i + 1, systemText + SystemLine(rows[i], f), out, f)
    ensures !rows[i].role.System? ==> ConvertedSoFar(rows, i + 1, systemText, out + [MessageOf(rows[i], f)], f)
  {
    assert rows[i..][1..] == rows[i + 1..];
  }

  /** The conversion does not raise. */
  predicate Converts(rows: seq<Row>) {
    forall i :: 0 <= i < |rows| && IsTool(rows[i]) ==> ResultId(rows[i]) != ""
  }

  /** `_convert_messages_for_anthropic`; `None` where the source raises on a tool row without an id. */
  method ConvertMessages(rows: seq<Row>, f: Helpers) returns (r: Option<(string, seq<Message>)>)
    ensures r.None? <==> exists i :: 0 <= i < |rows| && IsTool(rows[i]) && ResultId(rows[i]) == ""
    ensures r.Some? <==> Converts(rows)
    ensures r.Some? ==> r.value == (SystemText(rows, f), Messages(rows, f))
  {
    var systemText, out := "", [];
    assert rows[0..] == rows;
    for i := 0 to |rows|
      invariant ConvertedSoFar(rows, i, systemText, out, f)
      invariant forall j :: 0 <= j < i && IsTool(rows[j]) ==> ResultId(rows[j]) != ""
    {
      var row := rows[i];
      ConvertedSoFarStep(rows, i, systemText, out, f);
      if row.role.System? {
        systemText := systemText + SystemLine(row, f);
        continue;
      }
      var m: Message;
      if IsTool(row) {
        if ResultId(row) == "" {
          return None;
        }
        m := Message(User, Parts([ToolResult(ResultId(row), ResultContent(row, f))]));
      } else if IsAssistant(row) && row.calls != [] {
        var parts := AssistantParts(row, f);
        m := Message(Assistant, Parts(parts));
      } else {
        m := Message(row.role, Plain(f.translate(row.content)));
      }
      out := out + [m];
    }
    assert rows[|rows|..] == [] && SystemText([], f) == "" && Messages([], f) == [];
    assert systemText + "" == systemText && out + [] == out;
    r := Some((systemText, out));
  }

  // ---- What the messages say, row by row ----

  /** How many of the first `i` rows become messages. */
  function MessageIndex(rows: seq<Row>, i: nat): nat
    requires i <= |rows|
    decreases i
  {
    if i == 0 then 0 else MessageIndex(rows, i - 1) + if rows[i - 1].role.System? then 0 else 1
  }

  lemma {:induction false} MessagesAppend(a: seq<Row>, b: seq<Row>, f: Helpers)
    ensures Messages(a + b, f) == Messages(a, f) + Messages(b, f)
    ensures SystemText(a + b, f) == SystemText(a, f) + SystemText(b, f)
    decreases |a|
  {
    hide MessageOf, SystemLine;
    if a == [] {
      assert a + b == b;
      assert "" + SystemText(b, f) == SystemText(b, f);
    } else {
      assert (a + b)[1..] == a[1..] + b;
      MessagesAppend(a[1..], b, f);
    }
  }

  lemma {:induction false} MessagesOfOne(row: Row, f: Helpers)
    ensures Messages([row], f) == if row.role.System? then [] else [MessageOf(row, f)]
    ensures SystemText([row], f) == if row.role.System? then SystemLine(row, f) else ""
  {
    assert [row][1..] == [];
    assert SystemLine(row, f) + "" == SystemLine(row, f);
  }

  /** Every row but a system row becomes one message, in order. */
  lemma {:induction false} MessagesUpTo(rows: seq<Row>, i: nat, f: Helpers)
    requires i <= |rows|
    ensures |Messages(rows[..i], f)| == MessageIndex(rows, i)
    decreases i
  {
    hide MessageOf;
    if i > 0 {
      MessagesUpTo(rows, i - 1, f);
      assert rows[..i] == rows[..i - 1] + [rows[i - 1]];
      MessagesAppend(rows[..i - 1], [rows[i - 1]], f);
      MessagesOfOne(rows[i - 1], f);
    }
  }

  lemma {:induction false} MessageAt(rows: seq<Row>, i: nat, f: Helpers)
    requires i < |rows| && !rows[i].role.System?
    ensures |Messages(rows, f)| == MessageIndex(rows, |rows|)
    ensures MessageIndex(rows, i) < |Messages(rows, f)|
    ensures Messages(rows, f)[MessageIndex(rows, i)] == MessageOf(rows[i], f)
  {
    hide MessageOf, Messages;
    MessagesUpTo(rows, i, f);
    MessagesUpTo(rows, |rows|, f);
    assert rows[..|rows|] == rows == rows[..i] + ([rows[i]] + rows[i + 1..]);
    MessagesAppend([rows[i]], rows[i + 1..], f);
    MessagesAppend(rows[..i], [rows[i]] + rows[i + 1..], f);
    MessagesOfOne(rows[i], f);
  }

  /** A tool row becomes a user message with one result, which carries the row's output. */
  lemma {:induction false} ToolRowBecomesResult(rows: seq<Row>, i: nat, f: Helpers)
    returns (id: string, output: Content)
    requires i < |rows| && rows[i].role.Tool?
    ensures MessageIndex(rows, i) < |Messages(rows, f)|
    ensures Messages(rows, f)[MessageIndex(rows, i)] == Message(User, Parts([ToolResult(id, output)]))
    ensures id == if rows[i].toolCallId != "" then rows[i].toolCallId else rows[i].rowId
    ensures match rows[i].content
            case Text(_) => output == rows[i].content
            case Blocks(bs) => output == Blocks(f.toAnthropic(bs))
            case Scalar(json, _) => output == Text(json)
            case Null => output == Text("null")
            case Missing => output == Text("")
  {
    id, output := ResultId(rows[i]), ResultContent(rows[i], f);
    MessageAt(rows, i, f);
  }

  /** An assistant row with calls says its text, or its translated blocks, and then makes one tool use of each call. */
  lemma {:induction false} CallsBecomeToolUses(rows: seq<Row>, i: nat, f: Helpers)
    returns (said: seq<Part>, uses: seq<Part>)
    requires i < |rows| && rows[i].role.Assistant? && rows[i].calls != []
    ensures MessageIndex(rows, i) < |Messages(rows, f)|
    ensures Messages(rows, f)[MessageIndex(rows, i)] == Message(Assistant, Parts(said + uses))
    ensures match rows[i].content
            case Text(s) => said == if s == "" then [] else [TextPart(s)]
            case Blocks(_) =>
              var translated := f.translate(rows[i].content);
              if translated.Blocks? then
                |said| == |translated.blocks| &&
                forall j :: 0 <= j < |said| ==> said[j] == BlockPart(translated.blocks[j])
              else said == []
            case _ => said == []
    ensures |uses| == |rows[i].calls|
    ensures forall j :: 0 <= j < |uses| ==>
              var call := rows[i].calls[j];
              && uses[j].ToolUse? && uses[j].id == call.id && uses[j].name == call.name
              && (call.arguments == "" ==> uses[j].input == NoInput)
              && (call.arguments != "" && f.parses(call.arguments) ==> uses[j].input == ParsedInput(call.arguments))
              && (call.arguments != "" && !f.parses(call.arguments) ==> uses[j].input == RawInput(call.arguments))
  {
    said, uses := LeadingParts(rows[i].content, f), UsesOf(rows[i].calls, f);
    MessageAt(rows, i, f);
    forall j | 0 <= j < |rows[i].calls| ensures j < |uses| && uses[j] == UseOf(rows[i].calls[j], f) {
      UseAt(rows[i].calls, j, f);
    }
    UsesKeepCalls(rows[i].calls, f);
    hide UsesOf, Messages, MessageIndex;
  }

  lemma {:induction false} UseAt(calls: seq<Call>, j: nat, f: Helpers)
    requires j < |calls|
    ensures j < |UsesOf(calls, f)| && UsesOf(calls, f)[j] == UseOf(calls[j], f)
    decreases j
  {
    hide UseOf;
    if j > 0 {
      UseAt(calls[1..], j - 1, f);
    }
  }

  /** Any other row but a system row keeps its role and carries its translated content. */
  lemma {:induction false} OtherRowIsTranslated(rows: seq<Row>, i: nat, f: Helpers)
    requires i < |rows| && !rows[i].role.System? && !rows[i].role.Tool?
    requires rows[i].role.Assistant? ==> rows[i].calls == []
    ensures MessageIndex(rows, i) < |Messages(rows, f)|
    ensures Messages(rows, f)[MessageIndex(rows, i)] == Message(rows[i].role, Plain(f.translate(rows[i].content)))
  {
    MessageAt(rows, i, f);
  }

  /** The messages are as many as the rows that are no system rows; those say their contents as lines, in order. */
  lemma {:induction false} SystemRowsBecomeLines(rows: seq<Row>, row: Row, f: Helpers)
    ensures |Messages(rows, f)| == MessageIndex(rows, |rows|)
    ensures SystemText([], f) == ""
    ensures !row.role.System? ==> SystemText(rows + [row], f) == SystemText(rows, f)
    ensures row.role.System? ==>
              SystemText(rows + [row], f) ==
              SystemText(rows, f) + (match row.content
                                     case Text(s) => s
                                     case Missing => ""
                                     case _ => f.show(row.content)) + "\n"
  {
    MessagesUpTo(rows, |rows|, f);
    assert rows[..|rows|] == rows;
    MessagesAppend(rows, [row], f);
    MessagesOfOne(row, f);
    assert "" + "\n" == "\n";
  }

  // ---- Pairing and order of tool calls ----

  /** A tool call with the text of its arguments, or an answer to one. */
  datatype ToolEvent = Called(id: string, name: string, arguments: string) | Answered(id: string)

  /** The argument text an input was made from. */
  function ArgumentsOf(input: Input): string {
    match input
    case NoInput => ""
    case ParsedInput(json) => json
    case RawInput(text) => text
  }

  function PartEvent(part: Part): seq<ToolEvent> {
    match part
    case ToolUse(id, name, input) => [Called(id, name, ArgumentsOf(input))]
    case ToolResult(id, _) => [Answered(id)]
    case _ => []
  }

  /** The tool uses and tool results among some parts, in order. */
  function PartEvents(parts: seq<Part>): seq<ToolEvent> {
    if parts == [] then [] else PartEvent(parts[0]) + PartEvents(parts[1..])
  }

  function BodyEvents(body: Body): seq<ToolEvent> {
    match body
    case Plain(_) => []
    case Parts(ps) => PartEvents(ps)
  }

  function MessageEvents(out: seq<Message>): seq<ToolEvent> {
    if out == [] then [] else BodyEvents(out[0].body) + MessageEvents(out[1..])
  }

  function CallEvents(calls: seq<Call>): seq<ToolEvent> {
    if calls == [] then [] else [Called(calls[0].id, calls[0].name, calls[0].arguments)] + CallEvents(calls[1..])
  }

  function RowEvents(row: Row): seq<ToolEvent> {
    if IsTool(row) then [Answered(ResultId(row))]
    else if IsAssistant(row) then CallEvents(row.calls)
    else []
  }

  /** The calls and answers of a history, in order. */
  function ToolEvents(rows: seq<Row>): seq<ToolEvent> {
    if rows == [] then [] else RowEvents(rows[0]) + ToolEvents(rows[1..])
  }

  predicate IsResult(m: Message) {
    m.body.Parts? && |m.body.parts| == 1 && m.body.parts[0].ToolResult?
  }

  function NonEmptyUseIds(parts: seq<Part>): set<string> {
    if parts == [] then {}
    else (if parts[0].ToolUse? && parts[0].id != "" then {parts[0].id} else {}) + NonEmptyUseIds(parts[1..])
  }

  /** The non-empty ids of the tool uses an assistant message emits. */
  function UseIds(m: Message): set<string> {
    if m.role.Assistant? && m.body.Parts? then NonEmptyUseIds(m.body.parts) else {}
  }

  function MessageMarks(out: seq<Message>): (ms: seq<Mark>)
    ensures |ms| == |out|
    ensures forall i :: 0 <= i < |out| ==>
              ms[i] == if IsResult(out[i]) then Answers(out[i].body.parts[0].id) else Opens(UseIds(out[i]))
  {
    if out == [] then []
    else [if IsResult(out[0]) then Answers(out[0].body.parts[0].id) else Opens(UseIds(out[0]))] + MessageMarks(out[1..])
  }

  /** Every tool result answers a tool use of the closest earlier assistant message. */
  ghost predicate ResultsAnswerClosestAssistant(out: seq<Message>) {
    forall i :: 0 <= i < |out| && IsResult(out[i]) ==>
      exists a: nat :: a < i && out[a].role.Assistant? && out[i].body.parts[0].id in UseIds(out[a]) &&
        forall j :: a < j < i ==> !out[j].role.Assistant?
  }

  predicate ResultsAreUserMessages(out: seq<Message>) {
    forall i :: 0 <= i < |out| && IsResult(out[i]) ==> out[i].role.User?
  }

  lemma {:induction false} PlainPartsHaveNoEvents(parts: seq<Part>)
    requires forall i :: 0 <= i < |parts| ==> parts[i].TextPart? || parts[i].BlockPart?
    ensures PartEvents(parts) == [] && NonEmptyUseIds(parts) == {}
    decreases |parts|
  {
    if parts != [] {
      PlainPartsHaveNoEvents(parts[1..]);
    }
  }

  lemma {:induction false} PartEventsAppend(s: seq<Part>, t: seq<Part>)
    ensures PartEvents(s + t) == PartEvents(s) + PartEvents(t)
    decreases |s|
  {
    hide PartEvent;
    if s == [] {
      assert s + t == t;
    } else {
      assert (s + t)[1..] == s[1..] + t;
      PartEventsAppend(s[1..], t);
    }
  }

  lemma {:induction false} UseIdsAppend(s: seq<Part>, t: seq<Part>)
    ensures NonEmptyUseIds(s + t) == NonEmptyUseIds(s) + NonEmptyUseIds(t)
    decreases |s|
  {
    if s == [] {
      assert s + t == t;
    } else {
      assert (s + t)[1..] == s[1..] + t;
      UseIdsAppend(s[1..], t);
    }
  }

  lemma {:induction false} UsesKeepCalls(calls: seq<Call>, f: Helpers)
    ensures |UsesOf(calls, f)| == |calls|
    ensures forall i :: 0 <= i < |calls| ==> UsesOf(calls, f)[i].ToolUse?
    ensures PartEvents(UsesOf(calls, f)) == CallEvents(calls)
    ensures NonEmptyUseIds(UsesOf(calls, f)) == NonEmptyIds(calls)
    decreases |calls|
  {
    if calls != [] {
      UsesKeepCalls(calls[1..], f);
      assert UsesOf(calls, f)[1..] == UsesOf(calls[1..], f);
    }
  }

  lemma {:induction false} LastPartIsUse(leading: seq<Part>, calls: seq<Call>, f: Helpers)
    requires calls != []
    ensures var parts := leading + UsesOf(calls, f); parts != [] && parts[|parts| - 1].ToolUse?
  {
    UsesKeepCalls(calls, f);
    hide UsesOf, PartEvents, NonEmptyUseIds;
  }

  /** An assistant message emits the ids its row announces, and its calls in order. */
  lemma {:induction false} MessageOfAssistant(row: Row, f: Helpers)
    requires IsAssistant(row) && row.calls != []
    ensures var m := MessageOf(row, f);
            && !IsResult(m)
            && UseIds(m) == Announced(row)
            && PartEvents(m.body.parts) == CallEvents(row.calls)
  {
    hide LeadingParts, UsesOf, PartEvents, CallEvents, NonEmptyUseIds, NonEmptyIds;
    var leading, uses := LeadingParts(row.content, f), UsesOf(row.calls, f);
    UsesKeepCalls(row.calls, f);
    LeadingPartsArePlain(row.content, f);
    PlainPartsHaveNoEvents(leading);
    PartEventsAppend(leading, uses);
    UseIdsAppend(leading, uses);
    LastPartIsUse(leading, row.calls, f);
    assert [] + CallEvents(row.calls) == CallEvents(row.calls);
    assert {} + NonEmptyIds(row.calls) == NonEmptyIds(row.calls);
  }

  lemma {:induction false} LeadingPartsArePlain(content: Content, f: Helpers)
    ensures var ps := LeadingParts(content, f); forall i :: 0 <= i < |ps| ==> ps[i].TextPart? || ps[i].BlockPart?
  {
    var ps := LeadingParts(content, f);
    assert forall i :: 0 <= i < |ps| ==> ps[i] in ps;
  }

  lemma {:induction false} MessagesSendResultsAsUser(rows: seq<Row>, f: Helpers)
    ensures ResultsAreUserMessages(Messages(rows, f))
    decreases |rows|
  {
    if rows != [] {
      MessagesSendResultsAsUser(rows[1..], f);
      if IsAssistant(rows[0]) && rows[0].calls != [] {
        MessageOfAssistant(rows[0], f);
      }
    }
  }

  // ---- The pairing the converter sees ----

  /** What a row does to the pairing of the messages: the converter reads its own id of a tool row. */
  function ResultMark(row: Row): Mark {
    if IsTool(row) then Answers(ResultId(row)) else Opens(Announced(row))
  }

  function ResultMarks(rows: seq<Row>): (ms: seq<Mark>)
    ensures |ms| == |rows| && forall i :: 0 <= i < |rows| ==> ms[i] == ResultMark(rows[i])
  {
    if rows == [] then [] else [ResultMark(rows[0])] + ResultMarks(rows[1..])
  }

  /** The rows that become messages. */
  function Spoken(rows: seq<Row>): seq<Row> {
    if rows == [] then []
    else (if rows[0].role.System? then [] else [rows[0]]) + Spoken(rows[1..])
  }

  /** As the converter reads it, every tool row's id is announced by the row before its run of tool rows. */
  predicate ResultsPaired(rows: seq<Row>) {
    Paired(ResultMarks(rows), {})
  }

  lemma {:induction false} ResultsPairedMeaning(rows: seq<Row>)
    ensures ResultsPaired(rows) <==>
            forall i :: 0 <= i < |rows| && IsTool(rows[i]) ==>
              exists a: nat :: a < i && ResultId(rows[i]) in Announced(rows[a]) &&
                forall j :: a < j < i ==> IsTool(rows[j])
  {
    var ms := ResultMarks(rows);
    PairedIffWellAnswered(ms);
    forall i: nat | i < |rows| && IsTool(rows[i])
      ensures (exists a: nat :: a < i && AnswersOpening(ms, a, i)) <==>
              exists a: nat :: a < i && ResultId(rows[i]) in Announced(rows[a]) &&
                forall j :: a < j < i ==> IsTool(rows[j])
    {
      forall a: nat | a < i
        ensures AnswersOpening(ms, a, i) <==>
                ResultId(rows[i]) in Announced(rows[a]) && forall j :: a < j < i ==> IsTool(rows[j])
      {
        assert ms[a] == ResultMark(rows[a]) && ms[i] == ResultMark(rows[i]);
        assert forall j :: a < j < i ==> ms[j] == ResultMark(rows[j]);
      }
    }
  }

  lemma {:induction false} MessageHasMark(row: Row, f: Helpers)
    requires !row.role.System?
    ensures var m := MessageOf(row, f);
            (if IsResult(m) then Answers(m.body.parts[0].id) else Opens(UseIds(m))) == ResultMark(row)
  {
    if IsAssistant(row) && row.calls != [] {
      MessageOfAssistant(row, f);
    }
  }

  lemma {:induction false} MessagesOfSpoken(rows: seq<Row>, f: Helpers)
    ensures |Messages(rows, f)| == |Spoken(rows)|
    ensures forall i :: 0 <= i < |Spoken(rows)| ==>
              Messages(rows, f)[i] == MessageOf(Spoken(rows)[i], f) && !Spoken(rows)[i].role.System?
    decreases |rows|
  {
    hide MessageOf;
    if rows != [] {
      var out, ns := Messages(rows[1..], f), Spoken(rows[1..]);
      MessagesOfSpoken(rows[1..], f);
      assert rows[0].role.System? ==> Messages(rows, f) == out && Spoken(rows) == ns;
      assert !rows[0].role.System? ==>
          Messages(rows, f) == [MessageOf(rows[0], f)] + out && Spoken(rows) == [rows[0]] + ns;
      hide Messages, Spoken;
    }
  }

  /** The messages are paired exactly as the rows that become messages, read with the converter's ids. */
  lemma {:induction false} ConversionKeepsPairing(rows: seq<Row>, f: Helpers, open: set<string>)
    ensures MessageMarks(Messages(rows, f)) == ResultMarks(Spoken(rows))
    ensures Paired(MessageMarks(Messages(rows, f)), open) <==> Paired(ResultMarks(Spoken(rows)), open)
  {
    var out, ns := Messages(rows, f), Spoken(rows);
    MessagesOfSpoken(rows, f);
    forall i | 0 <= i < |ns| ensures MessageMarks(out)[i] == ResultMarks(ns)[i] {
      MessageHasMark(ns[i], f);
    }
    hide MessageMarks, ResultMarks, Paired;
  }

  /** In a paired history no tool row follows a system row, so leaving the system rows out changes no pairing. */
  lemma {:induction false} SpokenKeepsPairing(rows: seq<Row>, open: set<string>)
    requires Paired(Marks(rows), open)
    ensures Paired(Marks(Spoken(rows)), open)
    ensures Paired(ResultMarks(rows), open) <==> Paired(ResultMarks(Spoken(rows)), open)
    decreases |rows|
  {
    if rows != [] {
      var row, tail := rows[0], rows[1..];
      assert Marks(rows)[1..] == Marks(tail) && ResultMarks(rows)[1..] == ResultMarks(tail);
      if row.role.System? {
        SpokenKeepsPairing(tail, {});
        assert Spoken(rows) == Spoken(tail);
        assert Spoken(tail) != [] ==> !IsTool(Spoken(tail)[0]);
      } else {
        SpokenKeepsPairing(tail, OpenAt(Marks(rows), open, 1));
        assert Spoken(rows) == [row] + Spoken(tail) && Spoken(rows)[1..] == Spoken(tail);
        assert Marks(Spoken(rows))[1..] == Marks(Spoken(tail));
        assert ResultMarks(Spoken(rows))[1..] == ResultMarks(Spoken(tail));
      }
    }
  }

  /** Every tool row carries the id under the one name both sides read. */
  predicate ToolRowsHaveCallId(rows: seq<Row>) {
    forall i :: 0 <= i < |rows| && IsTool(rows[i]) ==> rows[i].toolCallId != ""
  }

  /** Then the window and the converter agree on the pairing. */
  lemma {:induction false} CallIdsSuffice(rows: seq<Row>)
    requires ToolRowsHaveCallId(rows)
    ensures ResultsPaired(rows) <==> WellPaired(rows)
  {
    assert ResultMarks(rows) == Marks(rows);
  }

  lemma {:induction false} MessageKeepsEvents(row: Row, f: Helpers)
    ensures BodyEvents(MessageOf(row, f).body) == RowEvents(row)
  {
    if IsTool(row) {
      var result := ToolResult(ResultId(row), ResultContent(row, f));
      assert [result][1..] == [] && PartEvents([result]) == [Answered(result.id)] + PartEvents([]);
    } else if IsAssistant(row) && row.calls != [] {
      MessageOfAssistant(row, f);
    }
  }

  /** Conversion keeps the tool calls with their argument texts, and the answers, in their order. */
  lemma {:induction false} ConversionKeepsToolEvents(rows: seq<Row>, f: Helpers)
    ensures MessageEvents(Messages(rows, f)) == ToolEvents(rows)
    decreases |rows|
  {
    if rows != [] {
      ConversionKeepsToolEvents(rows[1..], f);
      if rows[0].role.System? {
        assert Messages(rows, f) == Messages(rows[1..], f);
      } else {
        MessageKeepsEvents(rows[0], f);
        assert ([MessageOf(rows[0], f)] + Messages(rows[1..], f))[1..] == Messages(rows[1..], f);
      }
    }
  }

  lemma {:induction false} CoalesceKeepsToolEvents(h: seq<Row>)
    ensures ToolEvents(Coalesce(h)) == ToolEvents(h)
    decreases |h|
  {
    if |h| < 2 {
    } else if IsUser(h[0]) && IsUser(h[1]) {
      var rest := [Merge(h[0], h[1])] + h[2..];
      assert rest[1..] == h[2..] == h[1..][1..];
      CoalesceKeepsToolEvents(rest);
    } else {
      CoalesceKeepsToolEvents(h[1..]);
    }
  }

  lemma {:induction false} CoalesceKeepsResultPairing(h: seq<Row>, open: set<string>)
    ensures Paired(ResultMarks(Coalesce(h)), open) <==> Paired(ResultMarks(h), open)
    decreases |h|
  {
    if |h| < 2 {
    } else if IsUser(h[0]) && IsUser(h[1]) {
      var rest := [Merge(h[0], h[1])] + h[2..];
      assert rest[1..] == h[2..] == h[1..][1..];
      CoalesceKeepsResultPairing(rest, open);
      assert ResultMarks(rest)[1..] == ResultMarks(h[2..]) && ResultMarks(h)[1..] == ResultMarks(h[1..]);
      assert ResultMarks(h[1..])[1..] == ResultMarks(h[2..]);
    } else {
      var c := [h[0]] + Coalesce(h[1..]);
      assert c[1..] == Coalesce(h[1..]);
      assert ResultMarks(c)[1..] == ResultMarks(Coalesce(h[1..])) && ResultMarks(h)[1..] == ResultMarks(h[1..]);
      CoalesceKeepsResultPairing(h[1..], OpenAt(ResultMarks(h), open, 1));
    }
  }

  lemma {:induction false} ToolEventsAppend(s: seq<Row>, t: seq<Row>)
    ensures ToolEvents(s + t) == ToolEvents(s) + ToolEvents(t)
    decreases |s|
  {
    if s == [] {
      assert s + t == t;
    } else {
      assert (s + t)[1..] == s[1..] + t;
      ToolEventsAppend(s[1..], t);
    }
  }

  lemma {:induction false} OpeningIsClosest(out: seq<Message>, a: nat, i: nat)
    requires ResultsAreUserMessages(out) && a < i < |out| && IsResult(out[i])
    requires MessageMarks(out)[i].Answers? && AnswersOpening(MessageMarks(out), a, i)
    ensures out[a].role.Assistant? && out[i].body.parts[0].id in UseIds(out[a])
    ensures forall j :: a < j < i ==> !out[j].role.Assistant?
  {
    hide NonEmptyUseIds;
    var ms := MessageMarks(out);
    forall j | a < j < i ensures !out[j].role.Assistant? {
      assert ms[j].Answers?;
      assert IsResult(out[j]);
    }
    assert ms[a] == Opens(UseIds(out[a])) && ms[i] == Answers(out[i].body.parts[0].id);
  }

  lemma {:induction false} WellAnsweredResults(out: seq<Message>)
    requires WellAnswered(MessageMarks(out)) && ResultsAreUserMessages(out)
    ensures ResultsAnswerClosestAssistant(out)
  {
    hide UseIds, ResultsAreUserMessages;
    var ms := MessageMarks(out);
    forall i | 0 <= i < |out| && IsResult(out[i])
      ensures exists a: nat :: a < i && out[a].role.Assistant? && out[i].body.parts[0].id in UseIds(out[a]) &&
                forall j :: a < j < i ==> !out[j].role.Assistant?
    {
      assert ms[i].Answers?;
      var a: nat :| a < i && AnswersOpening(ms, a, i);
      hide AnswersOpening, IsResult;
      OpeningIsClosest(out, a, i);
    }
  }

  lemma {:induction false} NoEmptyId(calls: seq<Call>)
    ensures "" !in NonEmptyIds(calls)
    decreases |calls|
  {
    if calls != [] {
      NoEmptyId(calls[1..]);
    }
  }

  lemma {:induction false} PairedResultsConvert(rows: seq<Row>)
    requires ResultsPaired(rows)
    ensures Converts(rows)
  {
    ResultsPairedMeaning(rows);
    forall i | 0 <= i < |rows| && IsTool(rows[i]) ensures ResultId(rows[i]) != "" {
      var a: nat :| a < i && ResultId(rows[i]) in Announced(rows[a]);
      NoEmptyId(rows[a].calls);
    }
  }

  /** In paired rows the closest assistant message before a result is that of the row before its run of tool rows. */
  lemma {:induction false} ClosestIsOpening(ns: seq<Row>, out: seq<Message>, f: Helpers, i: nat) returns (a: nat)
    requires WellPaired(ns) && |out| == |ns| && forall j :: 0 <= j < |ns| ==> out[j] == MessageOf(ns[j], f)
    requires i < |ns| && IsTool(ns[i])
    ensures a < i && out[a].role.Assistant? && !IsTool(ns[a])
    ensures forall j :: a < j < i ==> IsTool(ns[j]) && !out[j].role.Assistant?
  {
    WellPairedMeaning(ns);
    a :| a < i && AnsweredId(ns[i]) in Announced(ns[a]) && forall j :: a < j < i ==> IsTool(ns[j]);
    assert IsAssistant(ns[a]) && out[a] == MessageOf(ns[a], f);
    assert forall j :: a < j < i ==> out[j] == MessageOf(ns[j], f);
  }

  lemma {:induction false} ClosestAnswerIsPaired(ns: seq<Row>, out: seq<Message>, f: Helpers, i: nat) returns (a: nat)
    requires WellPaired(ns) && |out| == |ns| && forall j :: 0 <= j < |ns| ==> out[j] == MessageOf(ns[j], f)
    requires MessageMarks(out) == ResultMarks(ns) && ResultsAnswerClosestAssistant(out)
    requires i < |out| && MessageMarks(out)[i].Answers?
    ensures a < i && AnswersOpening(MessageMarks(out), a, i)
  {
    hide WellPaired, MessageOf, NonEmptyUseIds, UseIds, Announced, ResultId, ResultsAnswerClosestAssistant;
    var ms := MessageMarks(out);
    assert ms[i] == ResultMark(ns[i]) && IsTool(ns[i]) && IsResult(out[i]);
    a := ClosestIsOpening(ns, out, f, i);
    ClosestIsUnique(out, a, i);
    assert ms[a] == ResultMark(ns[a]) && !IsResult(out[a]);
    forall j | a < j < i ensures ms[j].Answers? {
      assert ms[j] == ResultMark(ns[j]);
    }
  }

  lemma {:induction false} ClosestIsUnique(out: seq<Message>, a: nat, i: nat)
    requires ResultsAnswerClosestAssistant(out) && a < i < |out| && IsResult(out[i])
    requires out[a].role.Assistant? && forall j :: a < j < i ==> !out[j].role.Assistant?
    ensures out[i].body.parts[0].id in UseIds(out[a])
  {
    hide UseIds;
    var c: nat :| c < i && out[c].role.Assistant? && out[i].body.parts[0].id in UseIds(out[c]) &&
      forall j :: c < j < i ==> !out[j].role.Assistant?;
    assert c == a;
  }

  lemma {:induction false} ClosestAnswersArePaired(ns: seq<Row>, out: seq<Message>, f: Helpers)
    requires WellPaired(ns) && |out| == |ns| && forall j :: 0 <= j < |ns| ==> out[j] == MessageOf(ns[j], f)
    requires MessageMarks(out) == ResultMarks(ns) && ResultsAnswerClosestAssistant(out)
    ensures WellAnswered(MessageMarks(out))
  {
    hide WellPaired, MessageOf, ResultsAnswerClosestAssistant, MessageMarks, ResultMarks, AnswersOpening;
    var ms := MessageMarks(out);
    forall i | 0 <= i < |ms| && ms[i].Answers? ensures exists a: nat :: a < i && AnswersOpening(ms, a, i) {
      var a := ClosestAnswerIsPaired(ns, out, f, i);
    }
  }

  /** The results of paired rows all answer the closest assistant exactly when the converter's ids are paired. */
  lemma {:induction false} ConvertPairedRows(rows: seq<Row>, f: Helpers)
    requires WellPaired(rows)
    ensures ResultsAnswerClosestAssistant(Messages(rows, f)) <==> ResultsPaired(rows)
  {
    var ns, out := Spoken(rows), Messages(rows, f);
    SpokenKeepsPairing(rows, {});
    MessagesOfSpoken(rows, f);
    ConversionKeepsPairing(rows, f, {});
    PairedIffWellAnswered(MessageMarks(out));
    MessagesSendResultsAsUser(rows, f);
    hide Messages, Spoken, MessageOf, Marks, MessageMarks, ResultMarks, Paired, WellAnswered;
    hide ResultsAnswerClosestAssistant, ResultsAreUserMessages;
    if WellAnswered(MessageMarks(out)) {
      WellAnsweredResults(out);
    }
    if ResultsAnswerClosestAssistant(out) {
      ClosestAnswersArePaired(ns, out, f);
    }
  }

  lemma {:induction false} ConvertTailKeepsToolEvents(h: seq<Row>, cut: nat, f: Helpers)
    requires cut <= |h|
    ensures ToolEvents(h) == ToolEvents(h[..cut]) + MessageEvents(Messages(Coalesce(h[cut..]), f))
  {
    var before, tail := h[..cut], h[cut..];
    assert h == before + tail;
    ToolEventsAppend(before, tail);
    CoalesceKeepsToolEvents(tail);
    ConversionKeepsToolEvents(Coalesce(tail), f);
  }

  /**
   * Compacting a well-paired history and converting the view: every tool result answers a tool use of the closest
   * earlier assistant message, and the conversion does not raise, exactly when each tool row from the cut on carries
   * the id of a call announced by the row before its run of tool rows, as the converter reads it. The tool calls and
   * answers are always those of the history from the cut on, in their original order.
   */
  lemma {:induction false} CompactThenConvert(cm: ContextManager, h: seq<Row>, f: Helpers)
    requires WellPaired(h) && cm.CompactView(h).Some?
    ensures var cut, view := cm.Cut(h).value, cm.CompactView(h).value;
            && (Converts(view) && ResultsAnswerClosestAssistant(Messages(view, f)) <==> ResultsPaired(h[cut..]))
            && (ResultsAnswerClosestAssistant(Messages(view, f)) ==> Converts(view))
            && ToolEvents(h) == ToolEvents(h[..cut]) + MessageEvents(Messages(view, f))
  {
    var cut := cm.Cut(h).value;
    var view := Coalesce(h[cut..]);
    assert cm.CompactView(h) == Some(view);
    CompactKeepsPairing(cm, h);
    ConvertTailKeepsToolEvents(h, cut, f);
    hide ContextManager.CompactView, ContextManager.Cut, WellPaired, ToolEvents, MessageEvents, Messages, Coalesce;
    ConvertPairedRows(view, f);
    CoalesceKeepsResultPairing(h[cut..], {});
    if ResultsPaired(view) {
      PairedResultsConvert(view);
    }
  }

  /** So it is enough that the tool rows from the cut on carry their id as `tool_call_id`. */
  lemma {:induction false} CompactThenConvertCallIds(cm: ContextManager, h: seq<Row>, f: Helpers)
    requires WellPaired(h) && cm.CompactView(h).Some? && ToolRowsHaveCallId(h[cm.Cut(h).value..])
    ensures var view := cm.CompactView(h).value; Converts(view) && ResultsAnswerClosestAssistant(Messages(view, f))
  {
    var cut := cm.Cut(h).value;
    CompactThenConvert(cm, h, f);
    CompactKeepsPairing(cm, h);
    CoalesceKeepsPairing(h[cut..], {});
    CallIdsSuffice(h[cut..]);
    hide ContextManager.CompactView, ContextManager.Cut, Messages, Marks, ResultMarks;
  }

  // A round trip answered under `call_id` alone, and one with another `id` beside it.
  const CLOCK := Call("c1", "clock", "", "{}")
  const ASKS := Row(Assistant, Null, [CLOCK], "", "", "")
  const TELLS := Row(Tool, Text("noon"), [], "", "c1", "")
  const MISNAMES := Row(Tool, Text("noon"), [], "", "c1", "x")

  lemma {:induction false} RoundTripIsPaired(answer: Row)
    requires IsTool(answer) && AnsweredId(answer) == "c1"
    ensures Announced(ASKS) == {"c1"} && WellPaired([ASKS, answer])
  {
    assert NonEmptyIds([CLOCK]) == {CLOCK.id} + NonEmptyIds([CLOCK][1..]) && NonEmptyIds([CLOCK][1..]) == {};
    assert CLOCK.id[0] == 'c';
    hide NonEmptyIds, Marks;
    var ms := Marks([ASKS, answer]);
    assert MarkOf(ASKS) == Opens({"c1"}) && MarkOf(answer) == Answers("c1");
    assert ms == [Opens({"c1"}), Answers("c1")];
    assert ms[1..] == [Answers("c1")] && ms[1..][1..] == [];
    assert Paired([Answers("c1")], {"c1"});
  }

  /** It is well paired for the window, yet its conversion raises. */
  lemma CallIdAloneIsPairedButNotConvertible()
    ensures exists h: seq<Row> :: WellPaired(h) && exists i :: 0 <= i < |h| && IsTool(h[i]) && ResultId(h[i]) == ""
  {
    hide WellPaired;
    RoundTripIsPaired(TELLS);
    var h := [ASKS, TELLS];
    assert IsTool(h[1]) && ResultId(h[1]) == "";
  }

  /** With another `id` beside the `call_id` nothing raises, and the result answers no tool use. */
  lemma {:induction false} MismatchedIdAnswersNothing(f: Helpers)
    ensures exists h: seq<Row> ::
              WellPaired(h) && Converts(h) && !ResultsAnswerClosestAssistant(Messages(h, f))
  {
    var h := [ASKS, MISNAMES];
    RoundTripIsPaired(MISNAMES);
    hide WellPaired, Announced, Messages;
    ConvertPairedRows(h, f);
    ResultsPairedMeaning(h);
    assert ResultId(h[1]) == "x" && "x" !in Announced(h[0]);
    assert IsTool(h[1]) && !IsTool(h[0]);
    assert Converts(h);
  }
}
