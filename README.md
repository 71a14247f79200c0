# A verified model of the MCP Agent request path

The MCP Agent is a small Express server. It turns a coding request (a task
type, an optional code snippet and an instruction) into a prompt for a local
Ollama model (`deepseek-r1:14b`). It posts that prompt to Ollama's
`/api/generate` and sends the cleaned answer back to the client. This
project models the pure core of that path in Dafny and proves what each part
promises:

- `server.js`
  - `cleanResponse`: six regular-expression replacements (five global, one
    anchored), then `trim` and the fallback sentence.
  - The decision table of its `/ask` handler, over the possible outcomes of
    the two HTTP calls.
  - The model-name test of `checkModelAvailability`.
- `components/promptBuilder.js`
  - The prompt templates of `buildPrompt`.
  - The two language-detecting regular expressions.
- `components/index.js`
  - The older handler: its own `buildPrompt`, the destructuring defaults, the
    input check and the error mapping.

Modules, one concept each:

| file | module | what it holds |
|---|---|---|
| `text.dfy` | `Text` | Characters as the regular expressions see them: ASCII case folding for the `i` flag, the `\w` and `\s` classes. Also literal matching, leftmost search and subsequences. |
| `scanner.dfy` | `Scanner` | How a global `String.prototype.replace` walks a string. A table holds the match the engine would find at each index; the scan replaces that match and resumes after it. |
| `request.dfy` | `Request` | JSON body values as JavaScript treats them: truthiness, `${x}`, `a \|\| b`, destructuring defaults, and `switch` on `===`. |
| `backend.dfy` | `Backend` | What the Ollama calls can report: a reply, an axios error, or a thrown `TypeError`. Also the client-facing reply and the generation request. |
| `response_cleaner.dfy` | `ResponseCleaner` | `cleanResponse`. |
| `prompt_builder.dfy` | `PromptBuilder` | `buildPrompt` of `components/promptBuilder.js`. |
| `server.dfy` | `Server` | `/ask` in `server.js` and the model check. |
| `legacy_server.dfy` | `LegacyServer` | `buildPrompt` and `/ask` of `components/index.js`. |

### How the regular expressions are modelled

Each pattern is modelled as what the JavaScript engine does when it is
started at one index.

- The lazy `[\s\S]*?` stops at the nearest closing text.
- The greedy `\s+` takes the whole whitespace run. Giving some whitespace
  back never helps, because every language name starts with a letter.
- Alternatives are tried in the order they are written.

A global replacement then scans the string from left to right, as the
engine does.

- Case folding under `i` is ASCII only. Without the `u` flag this is exact
  for these all-ASCII patterns: JavaScript's canonicalisation never maps a
  non-ASCII character to an ASCII one.
- `\s` and `trim` use JavaScript's full whitespace set.

### Two properties `cleanResponse` does not have

- The fallback sentence is not returned for the empty input:
  `cleanResponse("")` returns `""`, because the `!response` check on line 25
  comes first (`ResponseCleaner.CleanResponse`).
- It is not idempotent. Only one leading `response:` label is stripped per
  call, and `ResponseCleaner.CleanNotIdempotent` exhibits an input whose
  second cleaning differs from its first.

### Behaviour worth knowing

- `write in C++` is detected as JavaScript: the trailing `\b` after `C++`
  needs a word character to follow (`PromptBuilder.TrailingCppExample`).
- `convert into Rust` targets Python: the `to` inside `into` is not at a
  word boundary (`PromptBuilder.ConvertIntoExample`).
- A generation call that outlives its 30-second `timeout` gets the 500
  "Failed to communicate with the server", not the 504. axios reports its own
  timeout with code `ECONNABORTED`, which the catch block does not test for
  (`Server.AbortedCallIs500`).
- In `components/index.js` an absent `taskType` defaults to `'default'`. So
  the 400 fires only when `taskType` is present and falsy
  (`LegacyServer.RejectedExactly`).
- A JSON object whose own `toString` is not a function, such as
  `{"toString": 1}`, makes a template literal throw a `TypeError` (the
  `Unconvertible` value).
  - In `server.js` that throw is caught and answered with a 500, before the
    probe. It can come from the snippet in a code template, or from the
    task type in the log line on line 64 (`Server.UnconvertibleIs500`).
  - In `components/index.js` the templates run before the `try`, so the
    handler posts nothing and sends no reply of its own
    (`LegacyServer.EscapesExactly`).

## Model

| member | source | states |
|---|---|---|
| Text.IndexOfLeftmost | server.js:28 | The lazy `[\s\S]*?` stop: the search finds the nearest occurrence at or after the start, and reports none only when none exists. |
| Text.SpaceRun | server.js:36 | `\s*` is greedy: the run is all whitespace and ends at the end of the string or at a non-whitespace character. |
| Scanner.ScanDeletes | server.js:28-39 | When every match is replaced by part of its own text, a left-to-right replacement only deletes characters. |
| Scanner.ScanKeepsUnmatched | server.js:28-39 | Text in which no match starts is copied to the output unchanged. |
| Request.Or | server.js:126 | `a \|\| b` is truthy exactly when either operand is, and is one of the two operands. |
| Request.ParseTask | components/promptBuilder.js:28 | `switch` compares with `===`: a template other than `default` is chosen only for the exact task-name string. |
| Request.ParseTaskName | components/promptBuilder.js:28-110 | Each task name selects its own template. |
| ResponseCleaner.LabelAt | server.js:30 | `(response:\|answer:)` under `i`: a label found is 9 or 7 characters long and lies inside the string. |
| ResponseCleaner.FindLabelNearest | server.js:30 | The lazy scan after `thinking:` stops at the nearest label, and finds none only when no label follows. |
| ResponseCleaner.FindLabelFirst | server.js:30 | A label with no label before it is the one the scan stops at. |
| ResponseCleaner.NewlineRunLength | server.js:39 | `\n{3,}` is greedy: the run ends at the end of the string or at a character other than a newline. |
| ResponseCleaner.Hits | server.js:28-39 | The table of engine matches is well formed: each match is non-empty, inside the string, and the match at that index. |
| ResponseCleaner.StripLeadingLabel | server.js:36 | The anchored label step. Without a label at index 0 nothing changes. Otherwise the result is a suffix that drops the label and all whitespace after it. |
| ResponseCleaner.TrimStart | server.js:42 | The result is a suffix, only whitespace was removed, and it does not start with whitespace. |
| ResponseCleaner.TrimEnd | server.js:42 | The result is a prefix, only whitespace was removed, and it does not end with whitespace. |
| ResponseCleaner.TrimSlice | server.js:42 | `trim` keeps one contiguous middle part, removes only whitespace around it, and leaves no surrounding whitespace. |
| ResponseCleaner.CleanResponse | server.js:24-50 | The result is empty exactly when the input is empty. |
| ResponseCleaner.Pipeline | server.js:28-42 | Models the six replacements and `trim` in order. Described by `PipelineProperties`, `PipelineDeletes`, `PipelineTagFree` and `PipelineNormalized`. |
| ResponseCleaner.CleanResponseProperties | server.js:24-50 | Empty input gives an empty result. Non-empty input gives the fallback sentence exactly when the rewrites leave nothing. Otherwise the result is a subsequence of the input with no tag, no three newlines in a row and no surrounding whitespace. |
| ResponseCleaner.PipelineProperties | server.js:28-42 | The six replacements and `trim` only delete characters and leave text with no tag, no three newlines in a row and no surrounding whitespace. |
| ResponseCleaner.PipelineDeletes | server.js:28-42 | The rewrites produce a subsequence of the input, never a longer one. |
| ResponseCleaner.PipelineTagFree | server.js:33-42 | After cleaning, no `<` has a `>` anywhere after it. |
| ResponseCleaner.PipelineNormalized | server.js:39-42 | After cleaning there are no three newlines in a row and no leading or trailing whitespace. |
| ResponseCleaner.ReplaceAll | server.js:28-39 | Models a global `replace`: a left-to-right scan over the engine's match at each index. Described by `ReplaceAllDeletes`, `ReplaceKeepsUnmatched` and `ReplaceAfterLeadingHit`. |
| ResponseCleaner.ReplaceAllDeletes | server.js:28-39 | Each of the five global replacements yields a subsequence of its input. |
| ResponseCleaner.ReplaceKeepsUnmatched | server.js:28-39 | A replacement whose pattern matches nowhere returns its input. |
| ResponseCleaner.Untouched | server.js:28-39 | A string containing no character a match could begin with passes a replacement unchanged. |
| ResponseCleaner.ReplaceAfterUnmatchedPrefix | server.js:28-39 | A prefix in which no match starts is copied, and the rest is rewritten as if it stood alone. |
| ResponseCleaner.ReplaceAfterPlainPrefix | server.js:28-39 | A prefix holding no character a match could begin with is copied, and the rest is rewritten as if it stood alone. |
| ResponseCleaner.ReplaceAfterLeadingHit | server.js:28-39 | A match at the start is replaced, and rewriting then continues on the rest alone. |
| ResponseCleaner.DelimitedBlockRemoved | server.js:28-29 | A `<think>`…`</think>` or `[thinking]`…`[/thinking]` block, through the nearest closing marker, disappears with its content, newlines included. The text before it is kept, provided it does not contain the marker's first character (`<` or `[`). |
| ResponseCleaner.UnclosedBlockKept | server.js:28-29 | Without a closing marker the block step changes nothing. |
| ResponseCleaner.ThinkingCollapsedToLabel | server.js:30 | From `thinking:` through the nearest label, the text becomes that label in its own casing. The text before is kept when no `thinking:` match starts in it, and the text after is rewritten on its own. |
| ResponseCleaner.TagRemoved | server.js:33 | A tag `<…>` is deleted. The text before it is kept when no tag match starts in it, and the text after it is rewritten on its own. |
| ResponseCleaner.TagStepFixesExactlyTagFree | server.js:33 | The tag step leaves a string unchanged if and only if no `<` is followed anywhere by a `>`. |
| ResponseCleaner.NewlineStepFixesExactlyNormal | server.js:39 | The newline step leaves a string unchanged if and only if it has no three newlines in a row. |
| ResponseCleaner.TrimFixesExactlyTrimmed | server.js:42 | `trim` leaves a string unchanged if and only if it has no leading or trailing whitespace. |
| ResponseCleaner.StripLabelThenSpaces | server.js:36 | A leading label of any casing, and all the whitespace after it, are removed. |
| ResponseCleaner.BlankLinesCollapsed | server.js:39 | Three or more newlines between newline-free text become exactly one blank line. |
| ResponseCleaner.PlainTextClean | server.js:24-50 | Text that no rewrite touches is returned unchanged. That is text with no think block, bracketed block, `thinking:` match or tag, no leading label, no three newlines in a row and no surrounding whitespace. |
| ResponseCleaner.ThinkBlockRemovedBeforePlainText | server.js:28 | `<think>x</think>v` cleans to `v`, for any `x` without a `<`. Here `v` is text no later step touches: non-empty and trimmed, with no `<`, `[`, newline or letter t/T, and not opening with a label. |
| ResponseCleaner.ThinkingThenAnswer | server.js:30-36 | `Thinking:x Answer: p` cleans to `p`: the reasoning, the label and the space after it all go. This is shown for `x` with no `<`, `[` or label, and for `p` non-empty and trimmed, with no `<`, `[`, newline or letter t/T, and not opening with a label. |
| ResponseCleaner.ResponseLabelDropped | server.js:36 | `response: v` cleans to `v`. This is shown for `v` non-empty and trimmed, with no `<`, `[`, newline or letter t/T. |
| ResponseCleaner.BlankLinesCleaned | server.js:39-42 | Two paragraphs separated by three or more newlines come out separated by exactly one blank line. This holds when the text does not open with a label, and each paragraph is non-empty and trimmed with no `<`, `[`, newline or letter t/T. |
| ResponseCleaner.BlankLinesExample | server.js:39-42 | `"a\n\n\n\nb"` cleans to `"a\n\nb"`. |
| ResponseCleaner.CleanNotIdempotent | server.js:36 | A doubled `response:` label loses one label per call, so cleaning twice differs from cleaning once. |
| PromptBuilder.FirstAltFirst | components/promptBuilder.js:22 | Alternatives are tried in the listed order: the one taken is the first that matches, and none is taken only when none matches. |
| PromptBuilder.SymbolLanguagesNeedWordAfter | components/promptBuilder.js:22 | `C++` and `C#` match if and only if a word character follows them. |
| PromptBuilder.WordMatchAtFirst | components/promptBuilder.js:22 | At one index the first matching alternative is taken, and none only when none matches. |
| PromptBuilder.FindWordFirst | components/promptBuilder.js:22 | The search reports the leftmost match, with the first alternative there, and reports none only when there is no whole-word match anywhere. |
| PromptBuilder.DetectLanguage | components/promptBuilder.js:21-25 | Models the language match and its `JavaScript` default. Described by `DetectLanguageSpec` and `DetectedSpellsLanguage`. |
| PromptBuilder.DetectLanguageSpec | components/promptBuilder.js:21-25 | `JavaScript` when no listed language occurs as a whole word. Otherwise the text of the engine's first match, in the instruction's own casing. |
| PromptBuilder.DetectedSpellsLanguage | components/promptBuilder.js:24 | The detected text spells the matched language up to ASCII case. |
| PromptBuilder.TrailingCppExample | components/promptBuilder.js:22 | `write in C++` is detected as JavaScript. |
| PromptBuilder.TargetGapIsWholeRun | components/promptBuilder.js:87 | Any match of `\bto\s+(…)\b` uses the whole whitespace run after `to`. |
| PromptBuilder.TargetMatchAtFirst | components/promptBuilder.js:87 | At one index the reported match is the greedy, first-alternative one, and there is none only when nothing matches there. |
| PromptBuilder.FindTargetFirst | components/promptBuilder.js:87 | The search reports the engine's first match (leftmost, greedy, first alternative), and none only when there is no match anywhere. |
| PromptBuilder.FindTargetReportsFirst | components/promptBuilder.js:87 | The search from the start gives the engine's first match, or there is none. |
| PromptBuilder.FirstTargetUnique | components/promptBuilder.js:87 | The engine's first match is unique. |
| PromptBuilder.DetectTarget | components/promptBuilder.js:85-90 | Models the target match and its `Python` default. Described by `DetectTargetSpec` and `DetectTargetCaptures`. |
| PromptBuilder.DetectTargetSpec | components/promptBuilder.js:86-90 | The target is `Python` when nothing matches. Otherwise the engine has a first match. |
| PromptBuilder.DetectTargetCaptures | components/promptBuilder.js:86-90 | The target is the language text captured by the engine's first match, in the instruction's casing. |
| PromptBuilder.ConvertToExample | components/promptBuilder.js:86-90 | `convert to Rust` targets Rust. |
| PromptBuilder.ConvertIntoExample | components/promptBuilder.js:86-90 | `convert into Rust` targets Python, because the `to` inside a word is not at a boundary. |
| PromptBuilder.BuildPrompt | components/promptBuilder.js:13-111 | Models `buildPrompt`: the system prompt, then the template chosen by `taskType`. Described by `PreambleFirst`, `SnippetVerbatim`, `WriteLayout`, `CustomLayout`, `CodeTasksIgnoreInstruction` and `ConvertReadsOnlyTarget`. |
| PromptBuilder.PreambleFirst | components/promptBuilder.js:15-18 | Every prompt opens with the system preamble and a blank line. |
| PromptBuilder.SnippetVerbatim | components/promptBuilder.js:37-102 | For every code task the snippet appears verbatim between two fence lines, and everything around it is the same for every snippet. |
| PromptBuilder.WriteLayout | components/promptBuilder.js:29-35 | The `write` prompt is the preamble, `Write a <instruction> in <detected language>.` and a trailer that depends on nothing else. |
| PromptBuilder.CustomLayout | components/promptBuilder.js:104-109 | Any other task type gives the preamble, the instruction verbatim between blank lines, and a fixed trailer. |
| PromptBuilder.CodeTasksIgnoreInstruction | components/promptBuilder.js:37-82 | `debug`, `explain`, `refactor` and `test` prompts do not depend on the instruction. |
| PromptBuilder.ConvertReadsOnlyTarget | components/promptBuilder.js:84-102 | A `convert` prompt depends on the instruction only through the detected target. |
| Server.ServerCatch | server.js:101-133 | Models the catch block of `/ask`. Described by `ServerCatchPrecedence`, `ServerCatchExplains`, `RefusedIsCannotConnect`, `BadRequestDetails`, `AbortedCallIs500` and `OwnTypeErrorIs500`. |
| Server.ServerCatchPrecedence | server.js:108-133 | The catch block's tests in order: 503 if and only if the code is `ECONNREFUSED`; 504 if and only if the code is `ETIMEDOUT` or `ESOCKETTIMEDOUT`; 404 and 400 if and only if the backend replied so and no earlier test fitted. |
| Server.ServerCatchExplains | server.js:101-133 | The catch block's status is one of 400, 404, 500, 503 and 504, with an error body whose details are truthy. |
| Server.RefusedIsCannotConnect | server.js:108-112 | In the catch block, the "could not connect" reply comes exactly from a refused connection. A failed probe gives the same reply (`RefusalLooksUnreachable`). |
| Server.AbortedCallIs500 | server.js:128-133 | An error with code `ECONNABORTED` and no backend reply, as axios reports its own timeout, gets the generic 500 with its message, not the 504. |
| Server.BadRequestDetails | server.js:123-127 | A backend 400 passes on its own truthy `error` text, and otherwise the configuration hint. The error may carry any code but the three connection codes. |
| Server.OwnTypeErrorIs500 | server.js:128-133 | An error thrown by the handler's own code is a 500 with its message as details. |
| Server.Ask | server.js:53-135 | Models `POST /ask` given the two calls' outcomes. Described by `InstructionChecked`, `ProbeAfterPrompt`, `UnconvertibleIs500`, `UnreachableSendsNothing`, `WhatIsSent`, `SuccessExactly`, `ReplyStatuses` and `RefusalLooksUnreachable`. |
| Server.InstructionChecked | server.js:57-59 | The 400 is given exactly when the instruction is falsy. Then no probe is made and nothing is posted. |
| Server.ProbeAfterPrompt | server.js:62-75 | The probe runs exactly when the prompt can be built and logged: a non-empty string instruction, a snippet the chosen template converts, and a task type the log line converts. Any other truthy instruction ends in a 500 from inside the prompt builder. |
| Server.UnconvertibleIs500 | server.js:62-64 | A snippet the code template cannot convert, or a task type the log line cannot, gives the 500 with V8's message. No probe is made and nothing is posted. |
| Server.UnreachableSendsNothing | server.js:67-75 | A failed probe gives the 503 and nothing is posted. |
| Server.WhatIsSent | server.js:80-86 | A generation request is posted exactly when the prompt is built and logged and the probe succeeds. It holds the built prompt, model `deepseek-r1:14b` and `stream: false`. |
| Server.SuccessExactly | server.js:88-100 | A 200 is given exactly when the prompt is built and logged, the probe succeeds, and the call answered with a truthy body whose `response` is a non-empty string. The client then gets that text cleaned, and it is never empty. |
| Server.HandleCall | server.js:80-133 | Models the handling of the generation call's outcome. Described by `HandleCallStatus` and `EmptyAnswerIs500`. |
| Server.HandleCallStatus | server.js:88-100 | The generation outcome gives a 200 exactly when it carries a usable answer, and the answer is cleaned. |
| Server.EmptyAnswerIs500 | server.js:88-91 | A falsy body or a falsy `response` gives the 500 "No response from LLM API" with no details. |
| Server.ReplyStatuses | server.js:53-135 | Every reply has status 200, 400, 404, 500, 503 or 504, and only a 200 carries an answer. |
| Server.RefusalLooksUnreachable | server.js:108-112 | A refused generation call and a failed probe give the client the same reply. |
| Server.BeforeColon | server.js:181 | `split(':')[0]` is a prefix without a colon, and the name continues with a colon exactly when it is shorter than the name. |
| Server.BeforeColonOfTagged | server.js:181 | A name `base:tag` splits to `base`. |
| Server.FindModel | server.js:179-182 | Models `models.some(...)` over the entries' names. Described by `FindModelSpec` and `TaggedNeedsExactName`. |
| Server.FindModelSpec | server.js:179-182 | `models.some` reports the model present if and only if a matching name comes before any non-string name. It throws if and only if a non-string name comes before any match. |
| Server.ModelAvailable | server.js:171-196 | Models the result of `checkModelAvailability`. Described by `AvailableByNameOrBase`. |
| Server.AvailableByNameOrBase | server.js:171-196 | An entry named `model`, or `model:tag` for an untagged model, makes the model available, provided every entry before it has a string name. A non-string name before it makes `split` throw (`FindModelSpec`). |
| Server.TaggedNeedsExactName | server.js:179-182 | A tagged model name such as `deepseek-r1:14b` is matched only by an entry with exactly that name. |
| LegacyServer.LegacyPrompt | components/index.js:13-28 | Models the older `buildPrompt`. Described by `CodePromptEndsWithSnippet`, `OtherTasksSendInstruction`, `ConvertIsDefault` and `WritePromptShape`. |
| LegacyServer.CodePromptEndsWithSnippet | components/index.js:17-24 | A code task's prompt is a heading fixed by the task, ending in a blank line, followed by the whole snippet. It does not depend on the instruction. |
| LegacyServer.OtherTasksSendInstruction | components/index.js:25-26 | Every other task type, `convert` included, sends the instruction value as it came. |
| LegacyServer.ConvertIsDefault | components/index.js:14-26 | `convert` has no template here and falls to the default. |
| LegacyServer.WritePromptShape | components/index.js:15-16 | The `write` prompt names the instruction, always asks for JavaScript, and ignores the snippet. |
| LegacyServer.Defaulted | components/index.js:31 | A `taskType` falsy after its default was present and is unchanged, and the instruction's truthiness is not changed by its default. |
| LegacyServer.LegacyAsk | components/index.js:30-81 | Models the older `POST /ask` given the call's outcome. Described by `RejectedExactly`, `EscapesExactly`, `WhatIsPosted`, `EmptyRequestPostsEmptyPrompt`, `AnswerIsRaw`, `UnexpectedFormatIs500` and `RejectedIsFailure`. |
| LegacyServer.RejectedExactly | components/index.js:31-35 | The 400 is given exactly when `taskType` is present but falsy and the instruction is falsy. Nothing is posted then. |
| LegacyServer.EscapesExactly | components/index.js:13-37 | An accepted request whose template cannot convert what it embeds throws before the `try`: nothing is posted and the handler sends no reply of its own. |
| LegacyServer.WhatIsPosted | components/index.js:37-45 | Something is posted exactly when the request is accepted and its template converts. It is the prompt built from the defaulted fields, for model `deepseek-r1:14b`, not streamed. |
| LegacyServer.EmptyRequestPostsEmptyPrompt | components/index.js:31-37 | An empty body is not rejected: the empty instruction is posted as the prompt. |
| LegacyServer.AnswerIsRaw | components/index.js:48-56 | An answer reaches the client exactly when a request was posted and the call returned a truthy body with a truthy `response`. It is then that value, uncleaned. |
| LegacyServer.UnexpectedFormatIs500 | components/index.js:48-56 | A posted request whose answer has a falsy body or a falsy `response` gets the 500 "Unexpected response format from LLM", with the body as details. |
| LegacyServer.LegacyHandleCall | components/index.js:40-80 | Models the `try` and `catch` around the generation call. Described by `ForwardsBackendStatus` and `NoReplyStatuses`. |
| LegacyServer.ForwardsBackendStatus | components/index.js:61-67 | A backend error reply is forwarded with its own status, with its data as details, or the error message when the data is falsy. |
| LegacyServer.NoReplyStatuses | components/index.js:68-79 | Without a backend reply: a request that went out gives 503, and anything else gives 500. |

## Left out

- Express itself is not modelled: routing, body parsing, CORS, static files, `app.listen`, `/health` and `/tasks`.
- Logging (`console.log` and `console.error`) is not modelled. It affects a reply only through the throw of the `${taskType}` log line, which `Server.Ask` includes.
- The HTTP calls are not performed. They are abstracted as their outcomes.
  - The probe outcome is a parameter: reachable or unreachable.
  - The generation outcome is a parameter: the answered `data` and its `response`, or an axios error.
  - The 5-second and 30-second timeouts appear only as the error codes they produce. axios reports its own timeout with code `ECONNABORTED` (unless `transitional.clarifyTimeoutError` is set), so an expired 30-second call gets the generic 500, not the 504 (`Server.AbortedCallIs500`).
- `async`/`await` ordering and concurrent requests are not modelled: each request is one pure decision.
- `checkOllamaStatus` and the start-up messages are left out: they are I/O with a boolean result.
- Server.ModelAvailable: takes the names already read from `models`. A non-array `models` is not modelled, nor an entry that is itself `null`. A failed request is the `None` case.
- JSON values other than strings are abstracted as their truthiness and their `${…}` text, or as `Unconvertible` when that conversion throws. The model does not compute the text of a number or an object.
- LegacyServer.LegacyAsk: when a template throws, what the client then sees is not modelled. The handler is `async`, so the throw rejects its promise, and the outcome depends on the Express and Node versions, which are not part of this model.
  - Express 5 answers with its default 500.
  - Express 4 ignores the rejection. No `unhandledRejection` handler is registered, so under Node 15 or later the process ends, for every client.
- ThinkingThenAnswer: shown only for a reasoning text with no `<`, `[` or label and an answer with no `<`, `[`, newline or letter t/T. Other inputs meet further rewrites, which the lemma does not follow.
- ResponseLabelDropped: shown only for text with no `<`, `[`, newline or letter t/T, so that no other rewrite applies to it.
- The messages of the three `TypeError`s the handler can throw are V8's wording. The model takes them as constants.
- LegacyServer.ForwardsBackendStatus: does not model Express rejecting an out-of-range forwarded status.
- Strings are sequences of Dafny characters (Unicode scalar values), not JavaScript's UTF-16 code units. No pattern or step here looks inside a surrogate pair, so nothing depends on the difference.
- Full Unicode case folding is not modelled. The patterns under the `i` flag are ASCII and have no `u` flag, so ASCII folding is exact for them.
- The worked examples (`TrailingCppExample`, `ConvertToExample`, `ConvertIntoExample`) are single inputs. Their general counterparts are `DetectLanguageSpec`, `DetectTargetSpec` and `DetectTargetCaptures`.
