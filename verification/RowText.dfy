/** What a history serialises to: the text whose length feral-core/agents/context_manager.py counts. */
module RowText {
  import opened Transcript
  import opened ContextManager

  // ---- JSON text in ASCII, as `json.dumps` writes it ----

  const HEX_DIGITS := "0123456789abcdef"

  function CodeUnit(n: nat): string
    requires n < 0x1_0000
  {
    "\\u" + [HEX_DIGITS[n / 4096], HEX_DIGITS[n / 256 % 16], HEX_DIGITS[n / 16 % 16], HEX_DIGITS[n % 16]]
  }

  /** A character of a JSON string; one beyond the basic plane is written as a surrogate pair. */
  function Escaped(c: char): string {
    var n := c as int;
    if c in "\"\\" then ['\\', c]
    else if c == '\n' then "\\n"
    else if c == '\r' then "\\r"
    else if c == '\t' then "\\t"
    else if n == 8 then "\\b"
    else if n == 12 then "\\f"
    else if 32 <= n < 127 then [c]
    else if n < 0x1_0000 then CodeUnit(n)
    else CodeUnit(0xD800 + (n - 0x1_0000) / 0x400) + CodeUnit(0xDC00 + (n - 0x1_0000) % 0x400)
  }

  function EscapedText(s: string): string {
    if s == "" then "" else Escaped(s[0]) + EscapedText(s[1..])
  }

  function BlockText(b: Block): string {
    match b
    case TextBlock(text) => "{\"type\": \"text\", \"text\": \"" + EscapedText(text) + "\"}"
    case RawBlock(json) => json
  }

  function CommaSeparated(items: seq<string>): string {
    if items == [] then "" else if |items| == 1 then items[0] else items[0] + ", " + CommaSeparated(items[1..])
  }

  function ListText(items: seq<string>): string {
    "[" + CommaSeparated(items) + "]"
  }

  function BlockTexts(bs: seq<Block>): seq<string> {
    seq(|bs|, i requires 0 <= i < |bs| => BlockText(bs[i]))
  }

  function CallTexts(calls: seq<Call>): seq<string> {
    seq(|calls|, i requires 0 <= i < |calls| => calls[i].json)
  }

  /** The text of one row: a string content as it is, any other as JSON, and the list of its calls, if there are any. */
  function TextOf(row: Row): string {
    (match row.content
     case Text(s) => s
     case Blocks(bs) => ListText(BlockTexts(bs))
     case Scalar(json, _) => json
     case _ => "")
    + if row.calls == [] then "" else ListText(CallTexts(row.calls))
  }

  function HistoryText(h: seq<Row>): string {
    if h == [] then "" else TextOf(h[0]) + HistoryText(h[1..])
  }

  /** The size of a history: its text, and 8 characters for the envelope of each row. */
  function Size(h: seq<Row>): nat {
    8 * |h| + |HistoryText(h)|
  }

  // ---- The row sizes are the lengths of these texts ----

  lemma {:induction false} EscapedLength(c: char)
    ensures |Escaped(c)| == JsonCharLength(c)
  {
  }

  lemma {:induction false} EscapedTextLength(s: string)
    ensures |EscapedText(s)| == JsonStringLength(s)
    decreases |s|
  {
    if s != "" {
      EscapedLength(s[0]);
      EscapedTextLength(s[1..]);
      hide Escaped, JsonCharLength;
    }
  }

  lemma {:induction false} BlockTextLength(b: Block)
    ensures |BlockText(b)| == BlockLength(b)
  {
    if b.TextBlock? {
      EscapedTextLength(b.text);
    }
  }

  lemma {:induction false} BlocksLength(bs: seq<Block>)
    ensures |CommaSeparated(BlockTexts(bs))| == BlockItemsLength(bs)
    decreases |bs|
  {
    if bs != [] {
      BlockTextLength(bs[0]);
      BlocksLength(bs[1..]);
      hide BlockText, BlockLength;
      assert BlockTexts(bs)[1..] == BlockTexts(bs[1..]);
    }
  }

  lemma {:induction false} CallsLength(calls: seq<Call>)
    ensures |CommaSeparated(CallTexts(calls))| == CallItemsLength(calls)
    decreases |calls|
  {
    if calls != [] {
      CallsLength(calls[1..]);
      assert CallTexts(calls)[1..] == CallTexts(calls[1..]);
    }
  }

  /** A row counts 8 characters and its text, tool calls included. */
  lemma {:induction false} RowCharsMeaning(row: Row)
    ensures RowChars(row) == 8 + |TextOf(row)|
  {
    CallsLength(row.calls);
    if row.content.Blocks? {
      BlocksLength(row.content.blocks);
    }
    hide CommaSeparated, CallItemsLength, BlockItemsLength, BlockTexts, CallTexts;
  }

  lemma {:induction false} CharsMeaning(h: seq<Row>)
    ensures Chars(h) == Size(h)
    decreases |h|
  {
    hide RowChars, TextOf;
    if h != [] {
      RowCharsMeaning(h[0]);
      CharsMeaning(h[1..]);
    }
  }

  /** Every call counts: one more adds its text and two characters of punctuation, whatever the row holds. */
  lemma {:induction false} CallCounts(row: Row, call: Call)
    ensures RowChars(row.(calls := row.calls + [call])) == RowChars(row) + |call.json| + 2
  {
    CallItemsMore(row.calls, call);
    NoItems();
    hide CallItemsLength, ContentChars;
  }

  lemma NoItems()
    ensures CallItemsLength([]) == 0
  {
  }

  lemma {:induction false} CallItemsMore(calls: seq<Call>, call: Call)
    ensures CallItemsLength(calls + [call]) ==
            CallItemsLength(calls) + |call.json| + if calls == [] then 0 else 2
    decreases |calls|
  {
    if calls != [] {
      assert (calls + [call])[1..] == calls[1..] + [call];
      CallItemsMore(calls[1..], call);
    }
  }
}
