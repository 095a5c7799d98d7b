# The agent-loop kernel of FERAL, in Dafny

This project models the parts of `feral-core/agents` that hold state, loops and arithmetic, and proves what they
promise over every input and every run. Loops and objects of the original are methods and classes proved against
specification functions; the promises themselves are lemmas about those functions. What the code does is kept even
where its comments say otherwise; those places are listed below, with the lemmas that pin them down.

- **Context window** (`Transcript`, `ContextManager`, `RowText`, `ContextProperties`): the per-request view of a
  transcript under a row limit, a turn limit and a budget, measured on the text the rows serialise to. The view keeps
  tool round trips whole, never loses the newest assistant row, never shows two user rows in a row, and says exactly a
  tail of what the transcript says. Compacting a view again changes nothing unless the view is still too large, which
  string contents rule out.
- **Anthropic shape** (`AnthropicShape`): conversion of rows to messages, and the end-to-end statement that in a
  compacted and converted history every tool result answers a tool use of the closest earlier assistant message.
- **No-progress guard** (`ToolResults`, `ToolHistory`, `IterationBudget`): the streaks, the withdrawal set and the
  announcement queue as functions of the whole observation history, with the bound on a futile loop.
- **App registry** (`ScreenId`, `Json`, `SchemaValidator`, `Placeholders`, `HybridGenerator`): screen ids as a
  percent-encoding round trip (section 2.1 of RFC 3986), the schema validator against validity read off the schema
  keyword by keyword, template bindings against the data they name, and the render cache against the map of last trees
  written.
- **Transcript chunks** (`TextTools`, `TranscriptChunker`, `ChunkPacking`): sentence packing with its hard split, and the
  groups of sentences and slices the chunks are made of.
- **Coding runs** (`FileEdits`, `RunEnding`, `CodingRun`): the verify, plan and edit loop over a small file system and a
  step log. How a run ends is a function of the files, the verifier and the planner, and the loop is proved against it.
- **Providers** (`CooldownHistory`, `CooldownTracker`, `RetryCall`): cooldown deadlines and probe times across
  restarts, and the same-provider retry loop.
- **Baselines** (`BaselineEngine`, `DailyStats`): the bounded window of a metric with its cached statistics, and daily
  buckets that conserve the samples.

Where the code and its own comments or names disagree, the model follows the code:

- `max(stop, warn)` (feral-core/agents/iteration_budget.py:369-371) is meant to guarantee a warning round. It does so
  for every run of failures only with a warning threshold of 1 and a larger stop threshold (`AlwaysWarnedIff`); for one
  run `WarnedBeforeStopIff` says exactly when.
- The window reads the answered call id of a tool row from `tool_call_id` or `call_id`, the converter from
  `tool_call_id` or `id`. A row with `call_id` alone is paired for one and raises in the other
  (`CallIdAloneIsPairedButNotConvertible`); with another `id` beside it nothing raises and the result answers no tool
  use (`MismatchedIdAnswersNothing`). `CompactThenConvert` says exactly when all results answer.
- With block contents, merging user rows can push a window that fitted over the budget, so a second compaction cuts
  again (`BlockMergingCanOverflow`); `CompactTwiceIff` gives the exact condition on the history.
- A restart forgets the probe times of providers whose cooldown had run out at the last write, and a later failure can
  then let a probe through early (`RestartCanAdvanceAProbe`); `SameProbesIff` says exactly which
  runs do not, `RestartsChangeProbeIff` when the next answer differs.
- The trend reads the clock twice, so its sample count and extremes can differ from the daily ones;
  `DailyCountsAddUpIff` and `DailyExtremesAgreeIff` say when they agree.
- The validator is looser than JSON Schema in four places (`IgnoredKeywords`, `EnumUsesPythonEquality`) and stricter in
  two, an empty list of types and 1.0 as an integer (`StricterTypes`).
- A template string is a binding as soon as it starts with `$data`, so `$database.x` resolves like `$data.x`
  (`BindingShowsData`).
- A hard split can leave a chunk of blanks, because its slices are not stripped (`ChunkCanBeBlank`); `BlankChunkIff`
  says exactly when.
- An edit whose target is a directory or does not decode raises out of the coding run and leaves it RUNNING, so not every
  accepted run ends COMPLETED or FAILED. `Execute` ends with that exception if and only if `EndOfRun` does;
  `RunRaisesIff` and `PlanRaisesIff` say when that is, `ReadableRunEnds` what a caller can check beforehand, and
  `SomeRunRaises` gives a run that does. A second execution of the same run is refused by the step store.
- An edit of a file with carriage returns rewrites all its line ends (`EditMeaning`).

## Model

| member | source | states |
|---|---|---|
| `Transcript.PairedIffWellAnswered` | feral-core/agents/context_manager.py:269-318 | the one-scan reading of a history (open call ids, then answers) accepts exactly the histories in which every tool row sits in a run of tool rows after the row that announced its call |
| `Transcript.PairedSuffix` | feral-core/agents/context_manager.py:128-139 | any tail of a paired history that does not start with a tool row is paired on its own |
| `Transcript.AnnouncedMeaning` | feral-core/agents/context_manager.py:297-305 | an assistant row announces exactly the non-empty ids of its calls, any other row none |
| `ContextManager.CharsShrink` | feral-core/agents/context_manager.py:257-258 | the character count of a tail never exceeds that of the whole history |
| `RowText.RowCharsMeaning` | feral-core/agents/context_manager.py:241-254 | a row counts 8 characters and the length of its serialised text: a string content as it is, any other content and the list of calls as JSON |
| `RowText.CharsMeaning` | feral-core/agents/context_manager.py:241-258 | the size of a history is the length of the text it serialises to, and 8 characters for each row |
| `RowText.CallCounts` | feral-core/agents/context_manager.py:251-253 | one more tool call raises the size of any row by the length of its JSON and two characters |
| `ContextManager.CoalesceConsecutiveUsers` | feral-core/agents/context_manager.py:174-214 | the loop, with its early return when nothing needs merging, computes the merged view |
| `ContextManager.CoalesceSeparatesUsers` | feral-core/agents/context_manager.py:174-214 | no two user rows are adjacent after merging |
| `ContextManager.CoalesceFixed` | feral-core/agents/context_manager.py:189-199 | a history without adjacent user rows is left as it is |
| `ContextManager.CoalesceKeepsUtterances` | feral-core/agents/context_manager.py:174-238 | merging is lossless: rows of other roles, user text up to line breaks, and opaque blocks survive, in order |
| `ContextManager.UserTextsJoin` | feral-core/agents/context_manager.py:217-227 | a stretch of user texts becomes one row: the non-empty ones with a blank line between them, the other fields of the first row |
| `ContextManager.BlocksJoin` | feral-core/agents/context_manager.py:217-238 | beside blocks a string becomes one text block, an empty string or no content none, and any other value a text block of what it shows, in order and under the first row's fields |
| `ContextManager.CoalesceKeepsPairing` | feral-core/agents/context_manager.py:174-214 | merging changes nothing about which histories are paired |
| `ContextManager.LastRoleIndex` | feral-core/agents/context_manager.py:261-266 | the backwards scan finds the last row of a role, or -1 |
| `ContextManager.LastIndexMeaning` | feral-core/agents/context_manager.py:261-266 | the found row has the role and no later row has it |
| `ContextManager.ExpandBackwards` | feral-core/agents/context_manager.py:132-133 | the loop stops at the first position backwards that is no orphan tool boundary |
| `ContextManager.DropLeadingOrphanTools` | feral-core/agents/context_manager.py:291-318 | exactly the leading tool rows without an id announced in the window are dropped |
| `ContextManager.LeadingOrphansMeaning` | feral-core/agents/context_manager.py:309-318 | every dropped row is a tool row that answers nothing announced in the window, and the first row kept is none |
| `ContextManager.ContextManager.ChooseCandidate` | feral-core/agents/context_manager.py:160-167 | the window starts at the first candidate whose tail fits the budget, else at the last candidate |
| `ContextManager.ContextManager.FindWindowStart` | feral-core/agents/context_manager.py:148-171 | the start the selection rules give, or none when there are user rows and the turn limit leaves no candidate |
| `ContextManager.ContextManager.Compact` | feral-core/agents/context_manager.py:88-146 | the composed loops compute the merged tail that starts at the cut, or raise exactly when there is no start |
| `ContextProperties.UserIndicesMeaning` | feral-core/agents/context_manager.py:150-153 | the user indices are all user rows, in increasing order, the k-th with k user rows before it |
| `ContextProperties.CandidatesAreEligible` | feral-core/agents/context_manager.py:159 | the slice from the end selects exactly the newest `max_turns` user rows; all for 0, all but the oldest `-max_turns` for a negative limit |
| `ContextProperties.WindowTurn` | feral-core/agents/context_manager.py:148-171 | the turn the window starts at is the oldest eligible one that fits, else the newest, and only an earlier newest assistant row moves the start |
| `ContextProperties.CutIsLongestFittingTail` | feral-core/agents/context_manager.py:84-171 | an over-long history with an eligible user row is cut at the longest tail that starts at an eligible turn and whose text takes at most half the context window at four characters a token, or at the newest user row if none does, or earlier only to take in the newest assistant row |
| `ContextProperties.FitsMeaning` | feral-core/agents/context_manager.py:84-86 | a tail is within `history_budget_chars` exactly when the tokens its text takes are at most half the context window |
| `ContextProperties.CutWithoutUsersMeaning` | feral-core/agents/context_manager.py:128-157 | without user rows the window starts where the row limit or an earlier newest assistant row says, goes back exactly over the rows that continue tool calls, and then drops exactly the tool rows in front that answer no call in it |
| `ContextProperties.CompactRaisesIff` | feral-core/agents/context_manager.py:159-163 | compaction raises exactly when a negative turn limit skips all user rows of an over-long history that has some |
| `ContextProperties.NewestAssistantSurvives` | feral-core/agents/context_manager.py:168-171 | the newest assistant row and everything said from it on are in the view, up to user merging |
| `ContextProperties.ViewSeparatesUsers` | feral-core/agents/context_manager.py:125-146 | the view has no two adjacent user rows |
| `ContextProperties.ViewSaysATail` | feral-core/agents/context_manager.py:88-146 | what the transcript says is what the rows before the cut say, followed by what the view says |
| `ContextProperties.WellPairedMeaning` | feral-core/agents/context_manager.py:269-318 | a history is paired exactly when every tool row answers a call announced by an earlier assistant row with nothing but tool rows between them |
| `ContextProperties.ToolCutIsOrphan` | feral-core/agents/context_manager.py:269-288 | in a paired history every tool row is recognised as the middle of a round trip |
| `ContextProperties.CompactKeepsPairing` | feral-core/agents/context_manager.py:88-146 | the view of a paired history is paired, for every history and every setting of the three limits |
| `ContextProperties.CompactTwice` | feral-core/agents/context_manager.py:88-171 | for every setting of the limits, compacting a view again changes nothing if and only if the view is not one a second pass would cut: an over-long, over-budget window of several turns that starts with a user row, or (negative turn limit) one that starts with a turn or has too few |
| `ContextProperties.CompactTwiceIff` | feral-core/agents/context_manager.py:88-171 | the same on the history: compaction is idempotent if and only if its window does not fit the budget before merging and exceed it afterwards, with several turns and too many rows left |
| `ContextProperties.StringMergingNeverGrows` | feral-core/agents/context_manager.py:217-254 | with string contents, merging never raises the character count |
| `ContextProperties.StringViewsAreFixed` | feral-core/agents/context_manager.py:88-258 | with string user contents `compact(compact(h)) == compact(h)`, for every row limit, budget and turn limit of at least 0 |
| `ContextProperties.BlockMergingCanOverflow` | feral-core/agents/context_manager.py:217-254 | a witness with block contents whose view is cut again by a second compaction |
| `AnthropicShape.AssistantParts` | feral-core/agents/llm_anthropic_shape.py:92-118 | the inner loop yields the leading text or translated blocks and then one tool use for each call |
| `AnthropicShape.ConvertMessages` | feral-core/agents/llm_anthropic_shape.py:27-132 | system lines are concatenated and the other rows become messages in order; it raises exactly when a tool row has neither `tool_call_id` nor `id` |
| `AnthropicShape.ToolRowBecomesResult` | feral-core/agents/llm_anthropic_shape.py:52-90 | at its place among the messages a tool row is one user message with one result: its id, and its output as it is for a string, translated for blocks, as JSON otherwise |
| `AnthropicShape.CallsBecomeToolUses` | feral-core/agents/llm_anthropic_shape.py:91-120 | an assistant row with calls becomes its text or translated blocks, and then one tool use for each call with its id, name and arguments, parsed if they parse |
| `AnthropicShape.OtherRowIsTranslated` | feral-core/agents/llm_anthropic_shape.py:121-131 | any other row keeps its role and carries its translated content |
| `AnthropicShape.SystemRowsBecomeLines` | feral-core/agents/llm_anthropic_shape.py:41-51 | there is one message for each row that is no system row; system rows add their text and a line break to the system text, in order |
| `AnthropicShape.MessageOfAssistant` | feral-core/agents/llm_anthropic_shape.py:91-120 | an assistant message announces exactly the ids its row announces, carries its calls with names and argument texts in order, and is no tool result |
| `AnthropicShape.ConversionKeepsPairing` | feral-core/agents/llm_anthropic_shape.py:27-132 | for all rows, the messages are paired exactly as the rows other than system rows, read with the converter's own ids |
| `AnthropicShape.ConversionKeepsToolEvents` | feral-core/agents/llm_anthropic_shape.py:27-132 | no call, call name, argument text or answer is lost, added or reordered |
| `AnthropicShape.ResultsPairedMeaning` | feral-core/agents/llm_anthropic_shape.py:52-61 | rows are paired for the converter exactly when every tool row's `tool_call_id` or `id` is announced by an earlier row with nothing but tool rows between them |
| `AnthropicShape.ConvertPairedRows` | feral-core/agents/llm_anthropic_shape.py:27-132 | in a conversion of paired rows every tool result answers a tool use of the closest earlier assistant message if and only if the rows are paired for the converter too |
| `AnthropicShape.CompactThenConvert` | feral-core/agents/llm_anthropic_shape.py:27-132 | a paired history, compacted and converted, does not raise and has every tool result answer the closest earlier assistant message if and only if its rows from the cut on are paired for the converter; the tool calls and answers are always those from the cut on, in order |
| `AnthropicShape.CompactThenConvertCallIds` | feral-core/agents/llm_anthropic_shape.py:27-132 | so it is enough that the tool rows from the cut on carry a `tool_call_id` |
| `AnthropicShape.CallIdAloneIsPairedButNotConvertible` | feral-core/agents/llm_anthropic_shape.py:52-61 | a paired round trip answered under `call_id` alone makes the conversion raise |
| `AnthropicShape.MismatchedIdAnswersNothing` | feral-core/agents/llm_anthropic_shape.py:52-61 | a paired round trip answered under `call_id`, with another `id` beside it, converts to a result that answers no tool use |
| `ToolResults.ReasonIffPrecondition` | feral-core/agents/iteration_budget.py:256-279 | a reason is given exactly for an unsuccessful object result with a precondition status code or a precondition phrase in its error |
| `ToolResults.ReasonMeaning` | feral-core/agents/iteration_budget.py:105-279 | the reason is the trimmed error for the five status codes, or names the code if the error is empty; for other codes it is the trimmed error if one of the eleven phrases occurs in it, in small or capital letters |
| `ToolHistory.RunIsLongest` | feral-core/agents/iteration_budget.py:434-445 | the streak is the length of the longest trailing run of failures of the newest call (strict: with the newest result) |
| `ToolHistory.StrictRunIsShorter` | feral-core/agents/iteration_budget.py:434-445 | the strict streak never exceeds the loose one |
| `ToolHistory.LevelMeaning` | feral-core/agents/iteration_budget.py:447-468 | STOP exactly when the last `stop_threshold` observations are one failing call; WARN exactly when not STOP and the last `warn_threshold` are identical failures |
| `ToolHistory.WarnedBeforeStopIff` | feral-core/agents/iteration_budget.py:447-468 | the first STOP of any run of failures, whatever their bodies, had a WARN before it in that run if and only if `warn_threshold` identical failures had followed one another before it |
| `ToolHistory.IdenticalFailuresWarnedIff` | feral-core/agents/iteration_budget.py:447-468 | a run of identical failures is warned if and only if `warn_threshold < stop_threshold` |
| `ToolHistory.AlwaysWarnedIff` | feral-core/agents/iteration_budget.py:369-371 | every run of failures is warned before its STOP if and only if `warn_threshold == 1 < stop_threshold` |
| `ToolHistory.ChangingBodiesStopUnwarned` | feral-core/agents/iteration_budget.py:441-468 | for all thresholds with `warn_threshold >= 2` there is a history whose STOP comes without any WARN before it |
| `ToolHistory.WithdrawnIff` | feral-core/agents/iteration_budget.py:389-412 | a tool is withdrawn exactly when its own sub-history holds `unavailable_threshold` consecutive precondition failures |
| `ToolHistory.WithdrawalIgnoresArguments` | feral-core/agents/iteration_budget.py:389-412 | two histories that agree on one tool's outcomes agree on its withdrawal, whatever the arguments, bodies and other calls |
| `ToolHistory.WithdrawnOnce` | feral-core/agents/iteration_budget.py:403-406 | no tool is withdrawn twice |
| `ToolHistory.WithdrawalsGrow` | feral-core/agents/iteration_budget.py:389-412 | no withdrawal is ever taken back or reordered |
| `ToolHistory.FutileLoopBound` | feral-core/agents/iteration_budget.py:389-412 | a loop over offered tools that meets only precondition failures makes at most tools * threshold calls, and all tools are withdrawn exactly when it has made that many |
| `ToolHistory.DropUnavailableKeepsTheRest` | feral-core/agents/iteration_budget.py:313-328 | what is left is what was offered and not withdrawn; nothing is left exactly when everything was withdrawn |
| `ToolHistory.DropUnavailableKeepsOrder` | feral-core/agents/iteration_budget.py:313-328 | every tool still offered stands at its own place, so order and repetitions are kept |
| `ToolHistory.FutileLoopEmptiesTheList` | feral-core/agents/iteration_budget.py:313-328 | the list handed to the next round of a futile loop is empty exactly after tools * threshold calls |
| `IterationBudget.LedgerMeaning` | feral-core/agents/iteration_budget.py:389-412 | the streak map, withdrawal map and queue kept call by call are those defined on the whole history |
| `IterationBudget.NoProgressGuard.constructor` | feral-core/agents/iteration_budget.py:344-377 | thresholds are at least 1 and the stop threshold at least the warning threshold; nothing observed yet |
| `IterationBudget.NoProgressGuard.ObservePrecondition` | feral-core/agents/iteration_budget.py:389-412 | one call moves the bookkeeping from one history to the next |
| `IterationBudget.NoProgressGuard.Observe` | feral-core/agents/iteration_budget.py:414-468 | after every call all fields are those of the whole history, and the returned level is that of the history |
| `IterationBudget.NoProgressGuard.TakeUnannouncedUnavailable` | feral-core/agents/iteration_budget.py:379-387 | over any interleaving of drains the announcements handed out so far are exactly the withdrawals so far, each once, in withdrawal order |
| `IterationBudget.IterationBudget.StartIteration` | feral-core/agents/iteration_budget.py:492-516 | a round is refused exactly at the iteration limit or after the wall-clock limit, never the first one; a refusal counts nothing |
| `IterationBudget.IterationBudget.ObserveTool` | feral-core/agents/iteration_budget.py:518-530 | the guard's level is returned, and the first STOP becomes the stop reason unless there is one |
| `IterationBudget.IterationBudget.FilterTools` | feral-core/agents/iteration_budget.py:544-546 | the offered tools minus those withdrawn by the history |
| `ScreenId.UnquoteQuote` | feral-core/agents/app_registry.py:969-987 | percent-decoding undoes percent-encoding for every octet string |
| `ScreenId.QuoteAlphabet` | feral-core/agents/app_registry.py:969-976 | encoded parts hold unreserved octets and percent signs only, so no colon |
| `ScreenId.QuoteOfOne` | feral-core/agents/app_registry.py:969-976 | exactly letters, digits and `-._~` are written as they are, any other octet as a percent sign and two capital hexadecimal digits |
| `ScreenId.UnquoteMeaning` | feral-core/agents/app_registry.py:978-987 | escapes are read back in small and capital digits; a percent sign without two digits after it stands for itself |
| `ScreenId.BuildMeaning` | feral-core/agents/app_registry.py:969-976 | an id is the three quoted parts with colons between them, `default` for an empty scope |
| `ScreenId.ParseBuild` | feral-core/agents/app_registry.py:969-987 | every triple is read back from its id, an empty scope as "default" |
| `ScreenId.BuildInjective` | feral-core/agents/app_registry.py:969-976 | two triples share an id exactly when they differ at most in spelling out the default scope |
| `ScreenId.ParsesIffTwoColons` | feral-core/agents/app_registry.py:978-987 | an id parses exactly when it has at least two colons |
| `ScreenId.RebuildIsCanonical` | feral-core/agents/app_registry.py:969-987 | parsing, rebuilding and parsing again any id with a scope gives the same triple |
| `SchemaValidator.ValidatePasses` | feral-core/agents/app_registry.py:1241-1316 | a value passes exactly when no rule is broken at its root and every checked child passes |
| `SchemaValidator.ValidateIffConforms` | feral-core/agents/app_registry.py:1241-1359 | the validator accepts a value exactly when it conforms to the schema, declaratively |
| `SchemaValidator.ValidateIffValid` | feral-core/agents/app_registry.py:1241-1359 | the validator accepts a value exactly when it is valid for the schema as it is written: no keyword's rule is broken, and every entry and item is valid for the schema its keyword gives |
| `SchemaValidator.RuleMeaning` | feral-core/agents/app_registry.py:1241-1359 | each rule of the schema as it is read is that of its keyword as it is written |
| `SchemaValidator.RejectionBreaksRule` | feral-core/agents/app_registry.py:1241-1359 | on rejection the reported path leads to a part that breaks the reported rule of the schema written for it |
| `Json.EqualIffLooksSame` | feral-core/agents/app_registry.py:1250 | values are equal as Python compares them exactly when they look the same at every path: numbers and booleans by value, lists in order, dictionaries by key |
| `SchemaValidator.RejectionPointsAtViolation` | feral-core/agents/app_registry.py:1241-1359 | on rejection the reported path leads to a sub-value that breaks the reported rule of its own sub-schema |
| `SchemaValidator.IgnoredKeywords` | feral-core/agents/app_registry.py:1241-1359 | an unknown type name, an empty enum, and forbidden extra keys without declared properties restrict nothing |
| `SchemaValidator.StricterTypes` | feral-core/agents/app_registry.py:1319-1359 | an empty list of types fits no value, a number like 1.0 is no "integer", and a boolean is neither an integer nor a number |
| `SchemaValidator.EnumUsesPythonEquality` | feral-core/agents/app_registry.py:1249-1251 | an enum with 1 lets `true` pass, one with 0 does not |
| `HybridGenerator.CacheHoldsLastTree` | feral-core/agents/app_registry.py:1410-1602 | after any run the cache holds under each key the last tree written since the last purge of its app |
| `HybridGenerator.RenderShowsLastTree` | feral-core/agents/app_registry.py:1442-1543 | a non-regenerating render of a generated or hybrid surface shows that tree if there is one, and writes nothing |
| `HybridGenerator.AskedAtMostOnce` | feral-core/agents/app_registry.py:1442-1543 | between regenerations and purges the model is asked at most once for a key, and never when a tree is cached |
| `HybridGenerator.NotAskedTwice` | feral-core/agents/app_registry.py:1442-1543 | so of two renders of one key, with no regeneration and no purge in the run, at most one asks the model |
| `HybridGenerator.ReadBack` | feral-core/agents/app_registry.py:1597-1602 | a written cache file reads back as the tree, even one with a "tree" entry of its own |
| `HybridGenerator.HydrateAt` | feral-core/agents/app_registry.py:1695-1712 | wherever the tree has a string the hydrated tree has what that string resolves to; every other leaf stays where it was, and lists keep their length and dictionaries their keys, in order |
| `Placeholders.BindingShowsData` | feral-core/agents/app_registry.py:1715-1750 | a binding such as `$data.a.0.b`, with or without braces, shows what the data holds at the path its segments name, and the empty string if it holds nothing there |
| `Placeholders.OtherTextIsKept` | feral-core/agents/app_registry.py:1715-1728 | text that does not start with `$data`, or with `${data` and end with a brace, is shown as it is |
| `HybridGenerator.WrittenTree` | feral-core/agents/app_registry.py:1442-1691 | a render that writes takes the bundled default where it applies, else a usable reply of the model, else the deterministic tree |
| `HybridGenerator.TreesMeaning` | feral-core/agents/app_registry.py:1766-1781 | a cache file holds the dictionary under "tree", or else itself if it is a dictionary, or nothing |
| `HybridGenerator.PayloadMeaning` | feral-core/agents/app_registry.py:1597-1602 | a written file holds the time and the tree under their names |
| `HybridGenerator.HybridGenerator.Render` | feral-core/agents/app_registry.py:1410-1559 | every branch of the render does to the cache what the simple map says, and returns the hydrated tree of that choice, or fails for an unknown kind |
| `HybridGenerator.HybridGenerator.PurgeAppCache` | feral-core/agents/app_registry.py:1565-1582 | exactly the files of one app go, and their number is returned |
| `TranscriptChunker.ChunkTranscript` | feral-core/agents/ambient_transcript.py:94-128 | the nested loops terminate and compute the packing of the sentences, for every limit of at least 1 |
| `TranscriptChunker.SentencesMeaning` | feral-core/agents/ambient_transcript.py:58-110 | the sentences with the blanks between them make up the text: each but the last ends in `.`, `!` or `?`, blanks follow it, and no sentence could be split further |
| `TextTools.StripMeaning` | feral-core/agents/ambient_transcript.py:104-128 | stripping takes the blanks off both ends and nothing else |
| `TextTools.SpaceTable` | feral-core/agents/ambient_transcript.py:58 | the blanks are the 29 white-space characters of Python's text |
| `TranscriptChunker.ChunksFit` | feral-core/agents/ambient_transcript.py:94-128 | every chunk is non-empty and at most `chunk_chars` long |
| `TranscriptChunker.ChunksKeepInk` | feral-core/agents/ambient_transcript.py:94-128 | the non-blank characters of the chunks, in order, are exactly those of the text |
| `ChunkPacking.ChunksArePacked` | feral-core/agents/ambient_transcript.py:109-128 | the chunks of a text that does not fit into one: its sentences, each over-long one replaced by its full slices and the rest, are grouped in order; a slice is a chunk as it is, other pieces are joined by blanks, and a new group starts with a sentence only when it would not have fitted |
| `ChunkPacking.FittingSentenceIsWhole` | feral-core/agents/ambient_transcript.py:109-128 | a sentence that fits is a whole part of the chunk at its own place among the pieces |
| `ChunkPacking.FittingSentenceIsContained` | feral-core/agents/ambient_transcript.py:104-128 | so some chunk contains it, also when the text is one chunk |
| `ChunkPacking.ChunksAreGreedy` | feral-core/agents/ambient_transcript.py:121-128 | when every sentence fits, each chunk joins a run of consecutive sentences and the next sentence would not have fitted |
| `ChunkPacking.BlankChunkIff` | feral-core/agents/ambient_transcript.py:114-120 | some chunk holds blanks only if and only if one of the full slices cut off an over-long sentence does |
| `ChunkPacking.ChunkCanBeBlank` | feral-core/agents/ambient_transcript.py:114-120 | a witness in which the hard split leaves a chunk of blanks |
| `FileEdits.ReplaceFirstMeaning` | feral-core/agents/coding_run.py:650 | the first occurrence of the string is replaced and nothing else |
| `FileEdits.EditMeaning` | feral-core/agents/coding_run.py:631-650 | an edit is applicable exactly when its string is somewhere in the text as it is read; applied, it replaces the first occurrence and rewrites the line ends of a file with carriage returns, and changes nothing else |
| `FileEdits.UniversalAtReturn` | feral-core/agents/coding_run.py:631 | text is read as it is up to its first carriage return, which ends a line alone or before a line feed |
| `FileEdits.CarriageReturnIsNeverFound` | feral-core/agents/coding_run.py:631-648 | an edit whose string has a carriage return is never applied |
| `FileEdits.ReplayFrame` | feral-core/agents/coding_run.py:650 | a series of edits creates and deletes nothing and changes only files it names |
| `RunEnding.PlanRaisesIff` | feral-core/agents/coding_run.py:587-631 | a plan raises if and only if, for some edit, all edits before it are written and its target inside the workspace then exists and cannot be read as text |
| `RunEnding.PlanContinuesIff` | feral-core/agents/coding_run.py:452-662 | what an edit of a plan does when all edits before it are written: a target that does not continue the workspace path ends the plan as refused with the files as they are, one that does is never refused for its place, but for being missing or lacking the string, and else its first occurrence is replaced |
| `RunEnding.RunRaisesIff` | feral-core/agents/coding_run.py:518-673 | a run raises if and only if some iteration within the limit is reached, with a failed verify and a written plan in each one before it, and its own plan raises |
| `RunEnding.RunCompletesIff` | feral-core/agents/coding_run.py:518-673 | a run is completed if and only if some iteration within the limit is reached in this way and its verify passes on the files as they are then |
| `RunEnding.ReadableRunEnds` | feral-core/agents/coding_run.py:518-673 | a run never raises, whatever verifier and planner do, if no proposal the planner can make names a target of the initial files that is unreadable |
| `RunEnding.RootProposalRaises` | feral-core/agents/coding_run.py:620-631 | a planner that answers the first failed verify with an edit of the workspace root makes every run raise, with no file changed |
| `RunEnding.SomeRunRaises` | feral-core/agents/coding_run.py:631 | a witness: a run on a workspace that exists raises |
| `CodingRun.ChangedFilesAreLogged` | feral-core/agents/coding_run.py:587-664 | the path of a file that changed continues the workspace path and is named in an ok EDIT step; no file appears or disappears |
| `CodingRun.WordsMeaning` | feral-core/agents/coding_run.py:497 | the words of the test command are its stretches without blanks, in order, with nothing but blanks around them |
| `CodingRun.CodingRun.AppendStep` | feral-core/agents/coding_run.py:272-288 | a step is added exactly when its index is the next one, so the logged indices stay 1..n |
| `CodingRun.CodingRun.ApplyProposal` | feral-core/agents/coding_run.py:590-662 | an edit is written and logged as ok, or refused with the first reason that applies and the run failed, or it raises for a target that cannot be read as text |
| `CodingRun.CodingRun.ApplyPlan` | feral-core/agents/coding_run.py:587-662 | the loop over a plan ends as `EndOfPlan` says, with all edits written, one refused or one raising, and with those files; they are the initial files with the ok edits replayed in step order, also when a later edit fails |
| `CodingRun.CodingRun.EditRound` | feral-core/agents/coding_run.py:585-664 | the round ends as `EndOfPlan` says; only a plan that was written completely is recorded in the touched paths |
| `CodingRun.CodingRun.VerifyOnce` | feral-core/agents/coding_run.py:520-546 | a verify logs one step whose outcome is the exit code on the current files |
| `CodingRun.CodingRun.Complete` | feral-core/agents/coding_run.py:548-554 | a run is completed right after a passing verify, with no error and no write in between |
| `CodingRun.CodingRun.GiveUp` | feral-core/agents/coding_run.py:560-575 | a planner that gives up ends the run as failed with a failed PLAN step |
| `CodingRun.CodingRun.Execute` | feral-core/agents/coding_run.py:484-673 | a fresh run whose arguments pass every check ends as `EndOfRun` says: with that status, error, count of iterations and files, and with an exception if and only if that raises; COMPLETED iff some verify passed, which is then the last step on the final files after `iterations_used - 1` edit rounds; only files whose path continues the workspace path change, and the log explains them; an exhausted run ends with an edit round that was not verified; other arguments fail the run with the first reason that applies |
| `CodingRun.CodingRun.ExecuteAgain` | feral-core/agents/coding_run.py:508-546 | executing a run that has steps logs nothing more and is refused by the store |
| `CooldownHistory.CooldownIsLeast` | feral-core/agents/llm_failover.py:299-402 | the cooldown is the least time that covers the seconds given for the reason and, for rate limits, overload and timeouts, the upstream's hint cut off at a day |
| `CooldownHistory.RestartsAreInvisible` | feral-core/agents/llm_failover.py:316-378 | restarting the tracker at any points of a run changes no later availability |
| `CooldownHistory.AvailableIffLastDeadlinePassed` | feral-core/agents/llm_failover.py:380-407 | from an empty storage, a provider is available exactly when the deadline of its last failure since the last success or clear has passed |
| `CooldownHistory.ProbesAreSpaced` | feral-core/agents/llm_failover.py:409-417 | while a provider stays in cooldown with no success and no clear, admitted probes are at least 30 seconds apart, across restarts too |
| `CooldownHistory.RestartKeepsDueIff` | feral-core/agents/llm_failover.py:316-378 | a restart keeps whether a probe is due if and only if it does not forget a probe of the last 30 seconds that the storage lacks |
| `CooldownHistory.StoredProbeIff` | feral-core/agents/llm_failover.py:349-378 | after any run the storage holds exactly the probe times in memory whose cooldown was still ahead at the last write |
| `CooldownHistory.RestartAloneChangesNoAnswer` | feral-core/agents/llm_failover.py:409-417 | after any run, a restart with nothing after it changes no later answer of `should_probe` |
| `CooldownHistory.RestartsChangeProbeIff` | feral-core/agents/llm_failover.py:409-417 | in any run, as long as the restarts changed no probe, they change the next answer if and only if a restart forgot the provider's last probe, that was less than 30 seconds ago, and the provider is in cooldown again |
| `CooldownHistory.SameProbesIff` | feral-core/agents/llm_failover.py:409-417 | the restarts change no probe of a whole run if and only if at none of its probes a restart had forgotten the provider's last probe, that was less than 30 seconds ago, and the provider was in cooldown again |
| `CooldownHistory.RestartCanAdvanceAProbe` | feral-core/agents/llm_failover.py:361-367 | a witness in which a restart lets a probe through that the running tracker would refuse |
| `CooldownTracker.ProviderCooldownTracker.constructor` | feral-core/agents/llm_failover.py:310-347 | a new tracker holds what its storage holds, less the deadlines that have passed |
| `CooldownTracker.ProviderCooldownTracker.PersistState` | feral-core/agents/llm_failover.py:349-378 | the deadlines still ahead are stored, with the probe times of those providers |
| `CooldownTracker.ProviderCooldownTracker.RecordFailure` | feral-core/agents/llm_failover.py:380-404 | a failure moves the tracker and its storage one step of the history, after which the provider is unavailable |
| `CooldownTracker.ProviderCooldownTracker.ShouldProbe` | feral-core/agents/llm_failover.py:409-417 | true exactly when the provider is available or its last probe is long enough ago; only the second case is recorded |
| `CooldownTracker.ProviderCooldownTracker.RecordSuccess` | feral-core/agents/llm_failover.py:419-422 | a success forgets the provider's deadline and probe time, in memory and storage |
| `CooldownTracker.ProviderCooldownTracker.ClearCooldowns` | feral-core/agents/llm_failover.py:424-443 | one provider or all are forgotten, and exactly the providers that had a deadline are returned |
| `RetryCall.RetryLlmCall` | feral-core/agents/llm_failover.py:97-150 | the loop ends at the first attempt that replies or fails in a way not worth waiting for, or at the last allowed one; the sleeps in between are the larger of delay and hint |
| `RetryCall.SleepIsBounded` | feral-core/agents/llm_failover.py:126-150 | no call sleeps longer in all than its attempts times the larger of the inline cap and the longest delay |
| `RetryCall.DefaultsSleepTenSeconds` | feral-core/agents/llm_failover.py:25-33 | with the default retries and delays a call sleeps at most ten seconds in all |
| `RetryCall.DefaultDelays` | feral-core/agents/llm_failover.py:24-25 | without hints the default sleeps are one second, two, and then four each |
| `BaselineEngine.StoreHoldsTheWindow` | feral-core/agents/baseline_engine.py:214-272 | after any history a metric's window is the last plausible readings ever recorded, in order, up to the size given first; the cached mean and variance are those of the window |
| `BaselineEngine.VarianceMeaning` | feral-core/agents/baseline_engine.py:257-258 | the cached spread is the population variance: the mean of the squares less the square of the mean, and 0 for fewer than two values |
| `BaselineEngine.MeanMeaning` | feral-core/agents/baseline_engine.py:257 | the mean of one value is that value, that of two windows together is their means weighed by their sizes, and that of none is 0 |
| `BaselineEngine.PlausibleIff` | feral-core/agents/baseline_engine.py:179-212 | a reading is plausible exactly when it is a finite number in the range of its metric, named up to the first colon without blanks around it and in any letters |
| `BaselineEngine.KeptMeaning` | feral-core/agents/baseline_engine.py:248-250 | of a stored window the values in the range are kept, in order |
| `BaselineEngine.LearnedMeanInRange` | feral-core/agents/baseline_engine.py:179-272 | the learned mean of a ranged metric lies in its plausible range |
| `BaselineEngine.NextRowIsSound` | feral-core/agents/baseline_engine.py:248-258 | the next plausible reading repairs a stored window that still holds dropouts |
| `BaselineEngine.BaselineEngine.RecordReading` | feral-core/agents/baseline_engine.py:214-272 | every reading leaves all rows, and the count of rejected readings, as the whole history defines them |
| `DailyStats.GetDailyStats` | feral-core/agents/baseline_engine.py:535-570 | the loops yield one entry for each day that has samples, in ascending order, with that day's statistics |
| `DailyStats.SinceMeaning` | feral-core/agents/baseline_engine.py:506-533 | samples are selected by time and by source, if one is asked for, and keep their order |
| `DailyStats.ValuesOnMeaning` | feral-core/agents/baseline_engine.py:555-558 | the values of a day are those of its samples, each at its own place |
| `DailyStats.BucketsPartition` | feral-core/agents/baseline_engine.py:555-570 | the buckets hold every sample exactly once and the daily counts add up to the number of samples |
| `DailyStats.ExtremesAgree` | feral-core/agents/baseline_engine.py:535-618 | under monotone rounding the least daily minimum and the greatest daily maximum are those of the whole window |
| `DailyStats.GetTrend` | feral-core/agents/baseline_engine.py:572-618 | the trend of the samples selected at one clock reading, with the daily entries of a later one; with one reading the daily counts and extremes are the trend's; all empty when there is no sample |
| `DailyStats.DailyCountsAddUpIff` | feral-core/agents/baseline_engine.py:589-618 | the daily counts add up to the sample count if and only if no selected sample leaves the window between the two clock readings |
| `DailyStats.DailyExtremesAgreeIff` | feral-core/agents/baseline_engine.py:589-618 | the least daily minimum is the trend's minimum, and the greatest daily maximum its maximum, if and only if a sample that rounds to it is still there at the second clock reading |

## Left out

- Rows, calls and content blocks that are not dictionaries, and call arguments that are not strings.
- `json.dumps` itself: a raw block, a scalar content and a tool call carry their serialised text; string escapes and list separators are modelled.
- Helpers of other files stay parameters: block and content translation, `str` of a value, `int` of a segment of a binding, the fingerprint token, the local calendar date, rounding to two places.
- ContextManager.CoalesceKeepsUtterances: compares user text without its line breaks, because a blank line is what merging adds; `UserTextsJoin` states the text of merged strings exactly.
- `_enforce_anthropic_thinking_max_tokens`: one comparison, settled by reading it.
- Stable keys are abstract strings, so two long values that agree on their first 4000 characters are one key here as there.
- TextTools.Lower: changes ASCII letters only; lower-casing other letters is not modelled.
- Threshold and limit resolution from settings and the environment, the notices sent to the model, and logging.
- ScreenId.Parse: works on the octets of the UTF-8 form; decoding octets back to text is not part of this model.
- Schema numbers are exact: NaN, infinities and float rounding are not modelled; nor is the wording of messages or the list of unexpected keys.
- HybridGenerator.Render: an authored or hybrid surface without a template (an assertion in the source), render traces and directories are not modelled; two fingerprints with one token share a file, as in the source.
- HybridGenerator.AskedAtMostOnce: renders come one after another; the source waits for the model between reading the cache and writing it, so two overlapping renders of one key can both ask.
- `summarize_transcript` and the rest of ambient_transcript.py: prompts, model calls and record building.
- TranscriptChunker.ChunkTranscript: a limit below 1, for which the hard split of the source does not end.
- CodingRun.Execute: summaries, output tails and times of steps, the test hint, run records in the store, exceptions of the planner or the verifier, files changed by either of them; an absolute edit path is logged here as the resolved path, in the source as given. Line ends are written as on a POSIX system; a target that cannot be opened is not modelled.
- CodingRun.ChangedFilesAreLogged: fails in the source when a replacement cannot be encoded or written, because writing first empties the file: the run then raises and leaves a changed file with no ok EDIT step. Every write of the model succeeds.
- CooldownTracker: one clock reading for each operation, where the source reads up to three; writes to the storage that fail, and files that do not parse.
- RetryCall.RetryLlmCall: whether an error text is retriable and how a hint is parsed are inputs.
- `classify_error`, `parse_retry_after`, `cooldown_state`, error descriptions: case tables.
- BaselineEngine: the population variance stands for the standard deviation, its square root; reals stand for floats.
- Recording, pruning and cloud retention of raw samples, anomaly and trend alerts.
- Installing apps, signatures, permissions, manifests and actions of the app registry.
