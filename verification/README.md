# Health agent core, modelled in Dafny

A Dafny model of the request-handling core of a Next.js health-advice app. The app is built on an AI agent with one nutrition tool. The model covers four parts of the app:

- **Server actions** (`app/actions.ts`). `getQuickHealthTip`, `getHealthPlan` and `getNutritionInfo` each build a Japanese prompt and call the agent. They then pull a textual answer out of whatever the agent resolved to, using the shared extraction chain. The chain looks only at an object. It tries `text`, `value`, `message` and `output` in that order for a string. Failing that, it falls back to the object's JSON text, unless that text is `{}`.
  - Which fallback applies depends on the action. The two advice actions answer with a could-not-generate sentence when there is no answer, and with an apology when something throws. The nutrition action uses the mock nutrition report in both cases, and it rejects an empty food name before calling the agent.
- **Nutrition report** (`lib/nutrition/edamam.ts`). `formatNutritionInfo` renders a food-database response. It gives the not-found message when there are no candidates. Otherwise it reports on the first parsed food, or else the first hint. `getMockNutritionInfo` picks an entry from a five-food table: the first name that the query contains or that contains the query, else the first entry. It renders that entry and adds a disclaimer.
- **Nutrition tool** (`mastra/tools/nutritionTool.ts`). This covers the tool's name, its parameter schema, and `execute`, which returns the mock report.
- **Stream sanitiser** (`cleanStreamText` in `app/components/Plan.tsx`). It applies fifteen regular-expression replacements in a fixed order, which strip the streaming protocol's framing. It then trims every line.

The modules follow the program's structure:

| file | module | contents |
|---|---|---|
| `wrappers.dfy` | `Wrappers` | `Option` and `Result` |
| `strings.dfy` | `Strings` | `includes`, `endsWith`, `split`/`join` on one character, `trim` |
| `decimal.dfy` | `Decimal` | `String(n)` and `toFixed(1)` on amounts given in tenths |
| `js_values.dfy` | `JsValues` | the values an agent call can resolve to; `JSON.stringify` over them (throws, undefined, or text) |
| `actions.dfy` | `Actions` | prompts, the extraction chain, the three actions |
| `edamam.dfy` | `Edamam` | data shapes, `formatNutritionInfo`, the mock table and `getMockNutritionInfo` |
| `nutrition_tool.dfy` | `NutritionTool` | name, schema, `execute` |
| `rewrites.dfy` | `Rewrites` | the regular expressions of the sanitiser as matchers, global replacement, `$`-anchored cuts |
| `stream_steps.dfy` | `StreamSteps` | the sanitiser's stages and what each guarantees |
| `clean_stream.dfy` | `CleanStream` | the whole sanitiser and the line trimming |

How the model is set up:

- **The agent is a parameter.** `generate: string -> Actions.AgentOutcome` is either `Rejected`, meaning the promise rejected, or `Generated(result)`. Every action is a pure function of that parameter and its inputs.
- **Regular expressions are not interpreted generically.** Each pattern has its own matcher (`Rewrites.MatchAt`). The matchers follow JavaScript's backtracking semantics for that pattern. A global `replace` is a single left-to-right pass that takes the leftmost match at each position (`Rewrites.ReplaceAll`). A non-global `…$` replacement cuts the string at the first position where the pattern matches (`Rewrites.CutAt`). In JavaScript's `.`, every character except LF, CR, U+2028 and U+2029 matches. So `! e:(.|\n)*$` removes the rest of the text from the first `! e:` only when no CR, U+2028 or U+2029 follows it. The model keeps that condition (`StreamSteps.DropFinishEventAt`).

## Model

| member | source | states |
|---|---|---|
| Actions.FirstStringKey | app/actions.ts:20-34 | The key chosen is the first of `text`, `value`, `message`, `output` under which the result holds a string: none before it does. There is no key exactly when none of the four holds a string. |
| Actions.ExtractAnswer | app/actions.ts:15-43 | A null or non-object result has no answer. For an object, the debug `JSON.stringify` throws exactly when a BigInt is reachable. Otherwise the answer is the first string field. Failing that, it is the JSON text, and there is no answer when that text is `{}`. |
| Actions.ObjectMarkerNeverMatches | app/actions.ts:37-40 | The `"[object Object]"` comparison never fires: no JSON text of an object or array is that string. |
| Actions.Respond | app/actions.ts:15-47 | A rejected call gives the error value, and so does an object whose logging throws. A non-object result gives the fallback, and so does an object with no string answer whose JSON is `{}`. An extracted answer is returned as it is. |
| Actions.QuickPrompt | app/actions.ts:10 | The quick prompt is the fixed instruction line followed by the question verbatim: what follows the instruction is exactly the question. |
| Actions.QuickPromptInjective | app/actions.ts:10 | Different questions give different quick prompts. |
| Actions.GetQuickHealthTip | app/actions.ts:7-48 | A rejected agent call gives the apology, and so does a result whose logging throws. An extracted answer is returned as it is, and a string `text` is that answer. With no answer, including a non-object result, the action gives the could-not-generate sentence. |
| Actions.PlanPrompt | app/actions.ts:59-77 | Whatever the fields hold, the plan prompt starts with the header and ends with the closing request. |
| Actions.PlanPromptListsPresentFields | app/actions.ts:59-77 | The plan prompt is the header, then one titled line per truthy field in the order diet, exercise, goal, other info, then the closing. |
| Actions.PlanPromptWithoutFields | app/actions.ts:59-77 | With no truthy field, the prompt is exactly the header followed by the closing. |
| Actions.PlanPromptGoalOnly | app/actions.ts:69-71 | A request with only a non-empty goal yields exactly one section, the goal's. |
| Actions.GetHealthPlan | app/actions.ts:51-118 | It handles the plan prompt's outcome the same way the quick action handles its own. A rejected call or a throwing log gives the apology. An extracted answer is returned as it is. With no answer, the action gives the could-not-generate sentence. |
| Actions.NutritionPrompt | app/actions.ts:128 | The nutrition prompt starts with the food name enclosed in 「」 and ends with the request to use the tool. |
| Actions.NutritionPromptNamesTool | app/actions.ts:128 | The nutrition prompt contains the tool's name, which is also the key the health agent registers the tool under. |
| Actions.GetNutritionInfo | app/actions.ts:121-168 | The action fails exactly when the food name is empty, with the missing-name error. A rejected call gives the mock report for the name. Otherwise the result is the extracted answer, or the mock report when there is no answer or the log throws. |
| Actions.EmptyFoodNameIgnoresAgent | app/actions.ts:122-124 | For an empty name the outcome does not depend on the agent: the name is rejected before any call. |
| Actions.TextPreferredToValue | app/actions.ts:20-26 | An object with a string `value` listed before a string `text` answers with the `text`. |
| Actions.NonStringValueSkipped | app/actions.ts:24-30 | A numeric `value` is skipped and the string `message` is returned. |
| Actions.MessageAnswers | app/actions.ts:20-30 | Any object without a string `text` or `value` but with a string `message` answers with that message. |
| Actions.NonObjectHasNoAnswer | app/actions.ts:15 | `null` and a string result have no answer. |
| Actions.EmptyObjectHasNoAnswer | app/actions.ts:37-40 | `{}` has no answer. |
| Actions.UndefinedOutputHasNoAnswer | app/actions.ts:32-40 | `{output: undefined}` has no answer, because the undefined member is dropped from the JSON text. |
| Actions.EmptyArrayAnswersBrackets | app/actions.ts:37-40 | An empty array counts as an object, so it answers with the text `[]`. |
| Actions.BigIntMasksText | app/actions.ts:17 | A BigInt beside a string `text` makes the debug log throw, so the action takes the error path instead of returning the text. |
| JsValues.Serialise | app/actions.ts:37 | `JSON.stringify` throws exactly when a BigInt is reachable. It gives undefined exactly for undefined and functions. Object text is enclosed in braces, and is `{}` exactly when every member is omitted. Array text is enclosed in brackets. |
| Decimal.NatToStringRoundTrip | lib/nutrition/edamam.ts:174 | Reading the decimal rendering of a number back gives the number. |
| Decimal.Fixed1RoundTrip | lib/nutrition/edamam.ts:174-178 | The one-decimal rendering of an amount in tenths has the shape digits, point, digit. Without the point, it reads back as the amount. |
| Edamam.FormatNutritionInfo | lib/nutrition/edamam.ts:65-84 | The not-found message is returned exactly when both candidate lists are empty. Otherwise the text starts with a line feed. |
| Edamam.FormatReportsBestMatch | lib/nutrition/edamam.ts:71-84 | Otherwise the report has nine lines, with an empty first and last line. The header names the first parsed food, falling back to the first hint. The calorie, protein, fat and carbohydrate lines show that food's four amounts, each printed with `fixed1` and with its unit. The fibre line shows the fibre amount when it is present and non-zero, and is blank otherwise. The category line shows the category label, or the category when the label is empty. |
| Edamam.FormatReadsBackAsLines | lib/nutrition/edamam.ts:65-84 | Split at line feeds, the formatted text gives back exactly those lines, or the one not-found line. This holds provided no shown field and no printed amount contains a line feed. |
| Edamam.FibreLineOnly | lib/nutrition/edamam.ts:82 | Removing the fibre amount blanks the fibre line and changes no other line. |
| Edamam.FindFrom | lib/nutrition/edamam.ts:164-168 | The search returns the first table position that matches the query, and no earlier position matches. It returns nothing exactly when no position matches. |
| Edamam.MockIndex | lib/nutrition/edamam.ts:164-170 | The selected entry is the first matching name in table order. When no name matches, it is the first entry. |
| Edamam.MockLabelsAreKeys | lib/nutrition/edamam.ts:107-160 | Each table entry's label equals its key. |
| Edamam.MockKeysDistinct | lib/nutrition/edamam.ts:106-161 | The five keys of the mock table are pairwise distinct, as the keys of an object literal are. |
| Edamam.OnlyChickenLacksFibre | lib/nutrition/edamam.ts:107-160 | 鶏胸肉 is the only entry without a non-zero fibre amount. |
| Edamam.MockNamesAreShortAndJapanese | lib/nutrition/edamam.ts:107-160 | Every name is non-empty, at most six characters long, and made only of non-ASCII characters. |
| Edamam.MockReportLines | lib/nutrition/edamam.ts:170-182 | Split at line feeds, the mock report has eleven lines, each tied to the selected entry. Line 1 names the selected key. Lines 2-5 give that entry's energy, protein, fat and carbohydrate with one decimal and their units. The fibre line gives its fibre when that is present and non-zero, and is blank exactly for 鶏胸肉. Line 7 gives its category. Then come a blank line, the disclaimer and a final empty line. |
| Edamam.GetMockNutritionInfo | lib/nutrition/edamam.ts:170-182 | For every query, the mock report starts with a line feed and ends with the disclaimer and a line feed. |
| Edamam.EmptyQuerySelectsFirst | lib/nutrition/edamam.ts:164-168 | The empty query selects りんご, because every name includes "". |
| Edamam.AsciiQuerySelectsFirst | lib/nutrition/edamam.ts:164-168 | Any non-empty ASCII query matches no name, so it selects the default りんご. |
| Edamam.UnknownFoodSelectsFirst | lib/nutrition/edamam.ts:168 | An unknown English name falls back to りんご. |
| Edamam.EnglishAppleSelectsFirst | lib/nutrition/edamam.ts:164-168 | "green apple" falls back to りんご: matching is literal and there is no translation. |
| Edamam.SelectsAt | lib/nutrition/edamam.ts:164-168 | A matching entry with no matching entry before it is the one selected. |
| Edamam.QueryContainingNameSelectsIt | lib/nutrition/edamam.ts:167 | 青りんご contains a name and selects りんご. |
| Edamam.FirstMatchingNameWins | lib/nutrition/edamam.ts:166-167 | 完熟バナナ selects バナナ, the first name it contains. |
| Edamam.NameContainingQuerySelectsIt | lib/nutrition/edamam.ts:167 | 鶏 is contained in a name and selects 鶏胸肉. |
| Edamam.MockAppleCalories | lib/nutrition/edamam.ts:174 | The りんご report shows `・カロリー: 52.0 kcal`: amounts are printed with one decimal. |
| NutritionTool.ConformsIffFoodItemString | mastra/tools/nutritionTool.ts:11-21 | Arguments conform to the parameter schema exactly when they form an object whose `foodItem` is a string. |
| NutritionTool.FailureMessageQuotesFood | mastra/tools/nutritionTool.ts:29 | The catch block's failure message quotes the food name in 「」. |
| NutritionTool.Guarded | mastra/tools/nutritionTool.ts:23-30 | The text of a lookup that returns is passed on untouched. A lookup that throws gives a message that starts with the food name in 「」 and ends with the advice to try another name. |
| NutritionTool.Execute | mastra/tools/nutritionTool.ts:22-31 | `execute` returns the mock report for the food item. It never returns the failure message, because the mock lookup cannot throw. |
| Rewrites.MatchAt | app/components/Plan.tsx:30-56 | Every match spans at least two characters. One of its first two characters is a digit, colon, quote or backslash. |
| Rewrites.DigitsColonAt | app/components/Plan.tsx:32 | `\d+:` matches exactly when a non-empty run of digits followed by a colon starts the text. The whole match is removed. |
| Rewrites.QuoteRunAt | app/components/Plan.tsx:35 | `"{2,}` matches exactly at two quotes and takes the whole run of quotes, which becomes one quote. |
| Rewrites.StripEnclosingQuotes | app/components/Plan.tsx:35 | The anchored quote pattern removes one leading and one trailing quote, and nothing else. |
| Rewrites.MessageIdMatchesRecord | app/components/Plan.tsx:38 | Every message id record at the start of the text is matched whole and removed. |
| Rewrites.MessageIdMatchIsRecord | app/components/Plan.tsx:38 | Whatever the message id pattern matches is such a record. |
| Rewrites.NumberedBoldMatchesItem | app/components/Plan.tsx:44 | A numbered bold item is matched whole, whatever white space follows the number. It is rewritten onto a new line as `n. **text**`. |
| Rewrites.NumberedBoldMatchIsItem | app/components/Plan.tsx:44 | Whatever the numbered bold pattern matches is such an item, rewritten as stated above. |
| Rewrites.MetadataMatchesObject | app/components/Plan.tsx:48-50 | A `{"finishReason":…}`, `{"usage":…}` or `{"promptTokens":…}` object up to its first `}` is matched whole and removed. |
| Rewrites.MetadataMatchIsObject | app/components/Plan.tsx:48-50 | Whatever a metadata pattern matches is such an object. |
| Rewrites.BlockWithinMatch | app/components/Plan.tsx:52 | A continuation block that starts the text lies within the continuation pattern's match. |
| Rewrites.ContinuationMatchesLongestBlock | app/components/Plan.tsx:52 | The greedy continuation pattern matches the longest block that starts the text and ends at a `}` after `isContinued`. It matches nothing when no block starts the text. |
| Rewrites.ReplaceAllKeepsUnmarked | app/components/Plan.tsx:32-53 | A global replacement leaves text without digits, colons, quotes or backslashes unchanged. |
| Rewrites.ReplaceAll | app/components/Plan.tsx:32-53 | Under every global pattern except the numbered item, a replacement never makes the text longer. |
| Rewrites.ReplaceAllNoMatch | app/components/Plan.tsx:32-53 | A global replacement leaves text unchanged when its pattern matches at no position. |
| Rewrites.KeepsUnmatchedPrefix | app/components/Plan.tsx:32-53 | A head in which no match starts is copied as it is, and the replacement carries on after it. |
| Rewrites.CutAt | app/components/Plan.tsx:47 | An anchored cut keeps a prefix. The prefix is the whole text, or the pattern matches where the kept part ends. The pattern matches nowhere before that point. |
| Rewrites.CutAtFirst | app/components/Plan.tsx:56 | The cut falls exactly at the leftmost position where the pattern matches. |
| StreamSteps.DropPartPrefixes | app/components/Plan.tsx:32 | After the first stage no digit is directly followed by a colon, and the text is no longer than before. |
| StreamSteps.DropsTextPartPrefix | app/components/Plan.tsx:32 | On a text part, the first stage removes the `0:` prefix and keeps the quoted, digit-free body. |
| StreamSteps.NoDigitBeforeColon | app/components/Plan.tsx:32 | After the digits-and-colon rewrite no digit is directly followed by a colon. |
| StreamSteps.QuoteRunsCollapsed | app/components/Plan.tsx:35 | After the quote-run rewrite no two quotes are adjacent. |
| StreamSteps.NormaliseQuotes | app/components/Plan.tsx:35 | After the quote stage no two quotes are adjacent, the text neither starts nor ends with a quote, and it is no longer than before. |
| StreamSteps.QuotesNormalised | app/components/Plan.tsx:35 | After both quote rewrites no two quotes are adjacent, and the text neither starts nor ends with a quote. |
| StreamSteps.UnquotesString | app/components/Plan.tsx:35 | A JSON string whose non-empty body holds no quote loses exactly its two enclosing quotes. |
| StreamSteps.DropMessageIds | app/components/Plan.tsx:38 | The message id stage never makes the text longer. |
| StreamSteps.DropsMessageId | app/components/Plan.tsx:38 | A message id record at the front is removed, and the stage carries on after it. |
| StreamSteps.NoMessageIdWithoutColon | app/components/Plan.tsx:38 | Text without a colon holds no message id record and is kept as it is. |
| StreamSteps.BlankLinePassIsRedundant | app/components/Plan.tsx:41 | Rewriting escaped blank lines first changes nothing: the unescape stage equals the single-line-feed rewrite alone. |
| StreamSteps.UnescapeNewlines | app/components/Plan.tsx:41 | The unescape stage equals the single-line-feed rewrite alone. Afterwards no backslash is directly followed by `n`, and the text is no longer than before. |
| StreamSteps.LineFeedPassInvertsEscape | app/components/Plan.tsx:41 | The line-feed rewrite undoes escaping line feeds as a backslash and `n`, in text without backslashes. |
| StreamSteps.UnescapeInvertsEscape | app/components/Plan.tsx:41 | The whole unescape stage undoes that escaping. |
| StreamSteps.EscapeAppend | app/components/Plan.tsx:41 | Escaping line feeds works piece by piece: the escape of a concatenation is the concatenation of the escapes. |
| StreamSteps.EscapeWithoutBreaks | app/components/Plan.tsx:41 | Text without line feeds is its own escape. |
| StreamSteps.EscapedUnmarked | app/components/Plan.tsx:41 | The escape of text without digits, colons, quotes or backslashes holds no digit, colon or quote. It is at least as long as the text. |
| StreamSteps.LiftNumberedItems | app/components/Plan.tsx:44 | Text without a digit holds no numbered item and is left as it is. |
| StreamSteps.NumberedItemsNeedDigits | app/components/Plan.tsx:44 | The numbered-item rewrite leaves text without digits unchanged. |
| StreamSteps.LiftsItem | app/components/Plan.tsx:44 | A numbered bold item at the front is moved onto its own line, and the stage carries on after it. |
| StreamSteps.DropFinishEvent | app/components/Plan.tsx:47 | The stage keeps a prefix of the text. Anything it cuts starts with `! e:`. |
| StreamSteps.DropFinishEventAt | app/components/Plan.tsx:47 | The text is cut at the first `! e:` when no CR, U+2028 or U+2029 follows it. |
| StreamSteps.DropMetadata | app/components/Plan.tsx:48-53 | The metadata stage never makes the text longer. |
| StreamSteps.DropsMetaObject | app/components/Plan.tsx:48-50 | A metadata object at the front is removed, and the rewrite carries on after it. |
| StreamSteps.DropsContinuation | app/components/Plan.tsx:52 | The longest continuation block at the front is removed, and the rewrite carries on after it. |
| StreamSteps.DropsLiteral | app/components/Plan.tsx:51-53 | A closing `e:,"isContinued":false}d:}` or a dangling `d:}` at the front is removed, and the rewrite carries on after it. |
| StreamSteps.LaterStagesKeepUnmarked | app/components/Plan.tsx:44-56 | The stages from the numbered items to the trailing event leave text without digits, colons, quotes or backslashes unchanged. |
| StreamSteps.DropTrailingEvent | app/components/Plan.tsx:56 | The stage keeps a prefix of the text. Anything it cuts starts with ` ! e:`. |
| StreamSteps.DropTrailingEventAt | app/components/Plan.tsx:56 | The text is cut at the first ` ! e:` when no line terminator follows it. |
| CleanStream.CleanStreamText | app/components/Plan.tsx:30-63 | Every line of the sanitised text is trimmed. |
| CleanStream.TrimLines | app/components/Plan.tsx:59-60 | The lines of the result are the input's lines, each trimmed, in order. No line is added or lost, and every line of the result is trimmed. |
| CleanStream.TrimLinesKeepsInterior | app/components/Plan.tsx:60 | A single line padded with white space comes out as its core, with the white space inside it untouched. |
| CleanStream.TrimLinesKeepsTrimmed | app/components/Plan.tsx:59-60 | Trimming text whose lines are already trimmed changes nothing. |
| CleanStream.RewritesKeepUnmarked | app/components/Plan.tsx:32-56 | Together, the rewriting stages leave text without digits, colons, quotes or backslashes unchanged. |
| CleanStream.CleanProseUnchanged | app/components/Plan.tsx:30-63 | Plain prose with trimmed lines passes through the sanitiser unchanged. |
| CleanStream.CleanPaddedProse | app/components/Plan.tsx:30-63 | A line of plain prose padded with white space comes out as the prose alone, with its inner white space untouched. |
| CleanStream.CleanTextPart | app/components/Plan.tsx:30-63 | A text part, `0:` and a JSON string holding `u` with its line feeds escaped, is cleaned back to `u` exactly. This holds when `u` is non-empty, has no digit, colon, quote or backslash, and has trimmed lines. |
| CleanStream.TwoParagraphLines | app/components/Plan.tsx:59 | Two line-feed-free paragraphs with a blank line between split into the first, an empty line, and the second. |
| CleanStream.TwoParagraphEscape | app/components/Plan.tsx:41 | The stream writes that blank line as two escaped line feeds. |
| CleanStream.CleanTwoParagraphs | app/components/Plan.tsx:30-63 | Two trimmed paragraphs of plain prose sent as one text part, with the blank line escaped, come out with a real blank line between them. |
| CleanStream.CleanWorkedExample | app/components/Plan.tsx:30-63 | The chunk `0:"Hello\n\nWorld"` is cleaned to `Hello`, a blank line, and `World`. |
| Strings.Trim | app/components/Plan.tsx:60 | `trim` gives text included in the line, with no white space at either end. It leaves an already trimmed line as it is. |
| Strings.TrimIsBlock | app/components/Plan.tsx:60 | The trimmed text is the block of the line that starts after the leading white space, character for character. Only white space comes before the block and after it. |
| Strings.TrimPadded | app/components/Plan.tsx:60 | Trimming a trimmed core padded with white space at both ends gives exactly the core. |
| Strings.Split | app/components/Plan.tsx:59 | A split gives at least one piece, and no piece contains the separator. |
| Strings.Join | app/components/Plan.tsx:60 | A join is as long as its pieces together plus one separator between each two neighbours. |
| Strings.JoinSplit | app/components/Plan.tsx:59-60 | Joining the pieces of a split restores the text. |
| Strings.SplitJoin | app/components/Plan.tsx:59-60 | Splitting a join of line-feed-free pieces gives the pieces back. |
| Strings.IncludesAt | lib/nutrition/edamam.ts:167 | A block found at some offset of a string is included in it. |
| Strings.IncludesOffset | lib/nutrition/edamam.ts:167 | Conversely, an included string is found as a block at some offset. |

## Left out

- The live food-database client `getNutritionInfo` in `lib/nutrition/edamam.ts` (lines 40-58) is not modelled: it is network I/O with an API key. Nothing in the modelled core calls it.
- The agent itself, its instructions, the model provider and the `mastra` registry (`mastra/index.ts`, `mastra/agents/healthAgent.ts`) are not modelled. `agent.generate` is the `generate` parameter. The only thing kept from `healthAgent.ts` is the tool's registration key, as `NutritionTool.AgentToolKey`.
- `async`/`await` and promise timing are not modelled: a rejected promise is `AgentOutcome.Rejected`.
- Console logging is not modelled as output. Its one observable effect is that the debug `JSON.stringify(result, null, 2)` can throw, and that is kept: a reachable BigInt routes the action to its error path.
- Actions.ExtractAnswer: `JSON.stringify` also throws on cyclic objects and can call `toJSON` methods or getters. Those are not modelled: values are finite trees with plain properties in enumeration order. The pretty-printed text of the debug log is not modelled either, only whether it throws.
- JsValues.Serialise: numbers are integers only. Fractions, `NaN` and infinities (which serialise as `null`) are not modelled. Symbols are not modelled. Integers are unbounded and always written in plain decimal digits. JavaScript writes a number of magnitude 10^21 or more in exponent form, and integers beyond 2^53 are not all representable as JavaScript numbers. The model does not reproduce either effect.
- Edamam.FormatReportsBestMatch: the API's numbers are reals, and `toFixed(1)` on them is the parameter `fixed1`. Its rounding is not modelled. `NaN` fibre is not modelled: a fibre amount is missing, zero, or a non-zero number.
- The mock table's amounts are integer tenths, and `toFixed(1)` on them is rendered exactly (`Decimal.Fixed1`). Every amount in the table has one decimal, so no rounding arises.
- NutritionTool.Execute: the argument is taken as the food item string. This assumes that the agent framework validates the arguments against the parameter schema before calling `execute`; `NutritionTool.ConformsIffFoodItemString` states which arguments conform. Without that validation, a missing `foodItem`, or one with no `includes` method (a number, a boolean, null), would make `foodItem.includes` throw inside the mock lookup, and `execute` would return the failure message (`NutritionTool.Guarded` with no result). An array would not throw: `Array.prototype.includes` and the string conversion in `name.includes` both accept it, so `execute` would return a mock report. That path is not modelled.
- The tool's description strings are kept as constants only.
- StreamSteps.DropMessageIds: the stage's own contract only bounds the length. That each message id record is removed is stated separately, by `StreamSteps.DropsMessageId`.
- StreamSteps.DropMetadata: the stage's own contract only bounds the length. What each of its rewrites removes is stated separately: `StreamSteps.DropsMetaObject` for the metadata objects, `StreamSteps.DropsLiteral` for the two literals, and `StreamSteps.DropsContinuation` for a continuation block.
- CleanStream.CleanStreamText: the function's own contract only states that every line of the result is trimmed. What it returns is stated by lemmas on classes of input. `CleanStream.CleanTextPart` covers a text part, and `CleanStream.CleanWorkedExample` is one instance of it. `CleanStream.CleanProseUnchanged` and `CleanStream.CleanPaddedProse` cover plain prose. No lemma states the output for an arbitrary stream.
- The React components of `app/components/Plan.tsx`, the page files and the streaming transport are not modelled. Only `cleanStreamText` (lines 30-63) is.
- The comment at `app/components/Plan.tsx` line 58 promises to collapse runs of white space. The code only trims each line, and the model follows the code: runs of white space inside a line are kept.
- Strings are sequences of Unicode code points, not UTF-16 code units. No pattern in the sanitiser, and no use of `includes` or `trim`, treats a surrogate pair differently, so the difference does not show in the model.
