# Tools-chat route: calculator, weather simulator and trace assembly

A Dafny model of the deterministic logic of the tools-chat endpoint of a
Next.js app built on the AI SDK (`app/api/tools-chat/route.ts`). The endpoint
offers a language model two tools, `getWeather` and `calculate`, and answers
with the model's text plus a `toolInvocations` trace. The model covers:

- **Sanitizer** (`sanitizer.dfy`): the filter `replace(/[^0-9+\-*/().\s]/g, "")`
  applied before arithmetic evaluation.
- **PercentPattern** (`percent_pattern.dfy`): the case-insensitive regular
  expression `(\d+(?:\.\d+)?)%\s*(?:of|on)\s*(\d+(?:\.\d+)?)` as a
  left-to-right scanner, with a declarative description of an occurrence
  (`OccursAt`) and proofs that the scanner returns the leftmost occurrence
  with the longest second numeral, which is what the backtracking match
  returns.
- **Calculator** (`calculator.dfy`): the branch and error policy of
  `calculate.execute`. The JavaScript evaluation of the sanitized text, the
  `parseFloat` display and the `toFixed(2)` percentage are the fields of a
  `Numerics` record of functions supplied by the caller. A throw from the
  evaluator is `None`.
- **Weather** (`weather.dfy`, `decimal.dfy`): `getWeather.execute`. Each
  `Math.floor(Math.random() * n)` is a draw `k` with `0 <= k < n`, passed in
  the order the tool makes the draws. Integers are rendered with an exact
  decimal renderer. The ranges are stated by reading the rendered text back.
- **ToolInvocations** (`tool_invocations.dfy`): the `toolInvocations` mapping
  of the response. Each call is paired with the first result that has the
  same `toolCallId`. An undefined `toolCalls` or `toolResults` list is `None`.

`lexical.dfy` holds the character classes `\d` (ASCII digits) and `\s` (the
ECMAScript WhiteSpace and LineTerminator code points). `wrappers.dfy` holds
`Option`.

The model follows the code where a comment says otherwise. The comment on the
temperature line (`app/api/tools-chat/route.ts:30`) reads 10-40°C, but
`Math.floor(Math.random() * 30) + 10` yields 10..39. The model proves exactly
the ranges the code produces: 10..39, 40..79 for humidity and 5..24 for wind.

## Model

| member | source | states |
|---|---|---|
| Sanitizer.Sanitize | app/api/tools-chat/route.ts:64 | the output has only digits, `+ - * / ( ) .` and whitespace, and it is a subsequence of the input (the input's order is kept) |
| Sanitizer.SanitizeCounts | app/api/tools-chat/route.ts:64 | every kept character occurs in the output exactly as often as in the input; every other character, `%` included, occurs zero times |
| Sanitizer.SanitizeKeepsKeptText | app/api/tools-chat/route.ts:64 | a text that has only allowed characters passes through unchanged |
| Sanitizer.SanitizeIdempotent | app/api/tools-chat/route.ts:64 | sanitizing twice equals sanitizing once |
| Sanitizer.SanitizeAppend | app/api/tools-chat/route.ts:64 | the filter works character by character: it distributes over concatenation |
| Sanitizer.KeptSubsequenceIsInSanitized | app/api/tools-chat/route.ts:64 | every subsequence of the input made of allowed characters is a subsequence of the output |
| Sanitizer.SanitizeIsLongestKeptSubsequence | app/api/tools-chat/route.ts:64 | every allowed-only subsequence of the input is at most as long as the output, and one as long as the output equals it: the output is the unique longest one |
| PercentPattern.ScanNumeral | app/api/tools-chat/route.ts:50 | `\d+(?:\.\d+)?` at a position fails iff no digit is there; on success it spans a numeral made of digits and dots |
| PercentPattern.ScanNumeralIsLongest | app/api/tools-chat/route.ts:50 | the greedy numeral reaches at least as far as any numeral at that position |
| PercentPattern.MatchAt | app/api/tools-chat/route.ts:50 | a match anchored at a position is an occurrence of the pattern there |
| PercentPattern.FindFrom | app/api/tools-chat/route.ts:50 | the search returns the first position where the anchored match succeeds; it fails only if no position from the start onward matches |
| PercentPattern.MatchAtComplete | app/api/tools-chat/route.ts:50 | every occurrence at a position is found there, with the same first numeral, `%` and keyword, and a second numeral at least as long |
| PercentPattern.RecognizeSound | app/api/tools-chat/route.ts:50 | the match is an occurrence; no occurrence starts earlier; at the same start every occurrence has the same first numeral and keyword and a second numeral no longer |
| PercentPattern.RecognizeComplete | app/api/tools-chat/route.ts:50 | any occurrence makes the match succeed, at that start or earlier |
| PercentPattern.Recognize | app/api/tools-chat/route.ts:50 | `expression.match(...)` succeeds iff the text contains numeral, `%`, whitespace, `of`/`on` in any case, whitespace, numeral; what it returns is such an occurrence |
| PercentPattern.RecognizeNeedsPercent | app/api/tools-chat/route.ts:49-50 | a text without `%` never matches, so the `includes("%")` guard changes nothing |
| Calculator.Calculate | app/api/tools-chat/route.ts:46-79 | every record echoes the input expression unchanged; apart from the error record, the explanation always ends with ` = ` followed by the result. The two branches are the helpers `PercentOutcome` (lines 52-58) and `ArithmeticOutcome` (lines 63-71, with the catch of lines 72-77), whose behaviour the two lemmas below state |
| Calculator.PercentPathTakesLeftmostOccurrence | app/api/tools-chat/route.ts:49-59 | given the leftmost occurrence with the longest second numeral, the result is the percentage of its two lexemes and the explanation is `<p>% of <a> = <r>`, whatever keyword or case was written |
| Calculator.ArithmeticPathWithoutPattern | app/api/tools-chat/route.ts:63-77 | with no occurrence (even when `%` is present) the evaluator gets the sanitized text, which has no `%`; a throw gives exactly `Error` / `Could not evaluate the expression`; a value `v` gives result `v` and explanation `<expression> = v` |
| Calculator.NoPercentSignMeansArithmetic | app/api/tools-chat/route.ts:49-71 | a text without `%` always takes the arithmetic path |
| Calculator.UpperCaseOnExample | app/api/tools-chat/route.ts:50-58 | `15% ON 45.50` takes the percentage path on `15` and `45.50`, and its explanation says `of` |
| Decimal.Render | app/api/tools-chat/route.ts:34-37 | `${n}` of an integer is a non-empty run of digits with no leading zero |
| Decimal.ParseRender | app/api/tools-chat/route.ts:34-37 | reading the decimal text of an integer gives back the integer |
| Weather.Simulate | app/api/tools-chat/route.ts:26-39 | the location is echoed; the condition is one of the four; the text reads back as an integer followed by exactly `°C`, `%` and ` km/h`; the values are in 10..39, 40..79 and 5..24 |
| Weather.TemperatureRangeIsExact | app/api/tools-chat/route.ts:30 | a temperature can be produced iff it is in 10..39; 40 never is |
| Weather.HumidityRangeIsExact | app/api/tools-chat/route.ts:36 | a humidity can be produced iff it is in 40..79 |
| Weather.WindRangeIsExact | app/api/tools-chat/route.ts:37 | a wind speed can be produced iff it is in 5..24 |
| Weather.ConditionsAreExact | app/api/tools-chat/route.ts:28-29 | a condition can be produced iff it is `sunny`, `cloudy`, `rainy` or `partly cloudy` |
| ToolInvocations.FirstIndex | app/api/tools-chat/route.ts:91 | the lookup fails iff no result has the id; otherwise the result it picks has the id, and no earlier one has |
| ToolInvocations.FindResult | app/api/tools-chat/route.ts:91 | `toolResults?.find(...)?.result` is absent iff there is no list or no result with the id; otherwise it is the result of the earliest one with the id |
| ToolInvocations.Assemble | app/api/tools-chat/route.ts:87-92 | no tool calls gives an empty list; otherwise one entry per call, in call order, with `toolName` and `args` copied |
| ToolInvocations.AssembledResultIsFirstMatch | app/api/tools-chat/route.ts:91 | an entry's result is absent iff no tool result carries the call's id; otherwise it is the earliest such result |
| ToolInvocations.AssembledResultWithUniqueIds | app/api/tools-chat/route.ts:91 | when only one result carries the call's id, the entry gets that result |
| ToolInvocations.NoResultsMeansNoResult | app/api/tools-chat/route.ts:91 | with no results list, every entry's result is absent |
| ToolInvocations.FirstIndexAppend | app/api/tools-chat/route.ts:91 | a later result never overrides an earlier one with the same id |
| ToolInvocations.AssembleAppend | app/api/tools-chat/route.ts:88-92 | the trace is built call by call, so splitting the calls splits the trace |

## Left out

- The multi-step model and tool loop (`generateText` with `maxSteps: 3`), tool dispatch and zod argument validation: they live inside the AI SDK, which is not part of this model. So is the choice of which steps' calls and results the SDK reports in `toolCalls` and `toolResults`.
- Arithmetic evaluation through `Function(...)`: it runs JavaScript. It is the `evaluate` parameter, and no grammar is assumed for it.
- Floating point: `parseFloat`, `(p / 100) * a`, `toFixed(2)` and Number-to-text conversion are the `show` and `percentOf` parameters.
- `Math.random`: replaced by bounded integer draws. The model takes `0 <= k < n` as given for each `Math.floor(Math.random() * n)`.
- JSON serialisation of the response: an entry whose result is `undefined` loses its `result` key. The model keeps it as `None`.
- Text is a sequence of Unicode scalar values, not UTF-16 code units. The filter and the pattern only accept BMP characters, so the outcome is the same.
- The API-key check, request parsing, logging and the HTTP 500 response (`app/api/tools-chat/route.ts:5-11`, `:15`, `:94-97`).
- `app/api/chat/route.ts`, `app/api/generate-text/route.ts` and `app/api/generate-object/route.ts`: thin wrappers over the SDK's `streamText`, `generateText` and `generateObject`.
- `app/page.tsx`: React state, `fetch` and rendering.
