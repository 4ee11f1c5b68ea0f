# Gift generator: the `generateGiftIdeas` action and the `check-env` route

This project models, in Dafny, the two pieces of logic of a small Next.js
birthday-gift app that decide what a user sees.

- **`generateGiftIdeas`** (`app/actions/generate-gifts.ts`) is a server action.
  1. It checks that one of two API-key variables is set.
  2. It fills a prompt template with the recipient profile.
  3. It races the Gemini request against a 15-second timer.
  4. It pulls a JSON array out of the reply: first by a strict pattern, then by a loose one.
  5. It parses and shallowly validates that array.
  6. It wraps the outcome in an envelope. Every failure carries its stage's message, `fallback: true` and the same fixed catalog of five gift ideas.
- **`GET /api/check-env`** (`app/api/check-env/route.ts`) reports for each key
  whether it is set, and a masked form that shows at most its first four and
  last four characters.

Files:

- `wrappers.dfy`: `Option`.
- `environment.dfy`: environment variables and their JavaScript truthiness.
- `json.dfy`: JSON values and a property read with its `TypeError` on `null`.
- `patterns.dfy`: the two regular expressions.
  - Each is written the way a backtracking engine runs it.
  - Each is proved equal to a declarative description: the leftmost start, then the longest match.
- `generate_gifts.dfy`: the action.
- `generate_gifts_properties.dfy`: what the action promises.
- `check_env.dfy`: the route.

The outside world enters the model as inputs:

- the two environment variables are `Option<string>` values;
- the AI request, including the race against the timer, is `service`, a function from the prompt to how the race settled;
- `JSON.parse` is `parse`, a function from text to an optional JSON value;
- the route's clock reading is `now`, a string.

The literal prompt is `Fill(GiftPrompt, data, isRegenerate)`. `GiftPrompt` holds the template's fixed text, cut at its placeholders. The prompt lemmas are proved for every template, so they hold for `GiftPrompt` in particular.

Where the code does something other than it appears to intend, the model follows the code:

- The timeout produces the timer's own error message, "API request timed out after 15 seconds". The `.then` that would throw "API request timed out" never runs, because the timer's promise never fulfils.
- A `null` first element makes the property read throw inside the same `try` as `JSON.parse`. The action then reports the parse-failure message, not the missing-information one.

## Model

| member | source | states |
|---|---|---|
| Patterns.SkipSpaces | app/actions/generate-gifts.ts:140 | the `\s*` run from k: it ends at the first position that is not ECMAScript white space or a line terminator, and everything skipped is such a character |
| Patterns.IsSpace | app/actions/generate-gifts.ts:140 | no contract of its own: the `\s` class of both patterns, the ECMAScript WhiteSpace and LineTerminator characters; `SkipSpaces` and `StrictMatchAtIff` state the runs it delimits |
| Patterns.StrictMatch | app/actions/generate-gifts.ts:140 | the strict pattern's match, if any, is a span inside the text |
| Patterns.StrictMatchIsLeftmostLongest | app/actions/generate-gifts.ts:140 | the match found is the leftmost `[\s*{ … }\s*]` substring and, among those starting there, the longest; there is none exactly when no substring has that shape |
| Patterns.StrictMatchAtIff | app/actions/generate-gifts.ts:140 | a substring matches the strict pattern exactly when it opens with `[`, spaces, `{` and closes with `}`, spaces, `]` as located by the two position searches |
| Patterns.OpenAt | app/actions/generate-gifts.ts:140 | from a `[` at i, the position of the `{` that `\[\s*\{` reaches, if any; any `{` reached from i after spaces only is that one |
| Patterns.CloseAt | app/actions/generate-gifts.ts:140 | from a `}` at b, the end of the `\}\s*\]` that follows, if any; any `]` reached from b after spaces only ends there |
| Patterns.LastClose | app/actions/generate-gifts.ts:140 | the rightmost position in a range from which `\}\s*\]` matches, as the greedy `[\s\S]*` backtracks to it; none in the range when it finds none |
| Patterns.StrictFrom | app/actions/generate-gifts.ts:140 | the engine's scan over start positions i, i + 1, …: a match it finds lies in the text and starts no earlier than i; `StrictFromFinds` proves it is the first start with a match, and the longest there, or that no later start matches |
| Patterns.LooseMatch | app/actions/generate-gifts.ts:146 | the loose pattern's match, if any, is a span inside the text |
| Patterns.LastBracket | app/actions/generate-gifts.ts:146 | the rightmost `]` in a range, the one the greedy `[\s\S]*` backtracks to; none in the range when it finds none |
| Patterns.LooseFrom | app/actions/generate-gifts.ts:146 | the same scan for the loose pattern: a match it finds lies in the text and starts no earlier than i; `LooseFromFinds` proves it is the first `[` with a later `]`, running to the last `]` |
| Patterns.LooseMatchIsLeftmostLongest | app/actions/generate-gifts.ts:146 | the loose match is the leftmost `[ … ]` substring and the longest from there; there is none exactly when no such substring exists |
| Patterns.LooseMatchIsFirstToLast | app/actions/generate-gifts.ts:146 | the loose match runs from the first `[` to the last `]`; there is none exactly when no `]` follows the first `[` |
| Patterns.StrictWithinLoose | app/actions/generate-gifts.ts:140-146 | whenever the strict pattern matches, the loose one matches too, over a span that contains the strict one |
| Patterns.StrictMatchOfEmbedded | app/actions/generate-gifts.ts:140 | an array of the strict shape, after text with no `[` and before text with no `}`, is exactly what the strict pattern extracts |
| GenerateGifts.ToJson | app/actions/generate-gifts.ts:17-58 | a catalog entry as an object literal has its six properties with the entry's values |
| GenerateGifts.AllToJson | app/actions/generate-gifts.ts:17-58 | the catalog as an array holds each entry's object literal, in order |
| GenerateGifts.Failure | app/actions/generate-gifts.ts:149-154 | no contract of its own: the failure envelope of every stage (also lines 68-73, 167-172, 179-184, 190-195, 199-207, 211-219), with its message, `fallback: true` and the catalog; `OutcomeEnvelope` and `EnvelopeInvariant` state that every failure has this shape |
| GenerateGifts.Success | app/actions/generate-gifts.ts:187 | no contract of its own: `{ success: true, data }` with no `error` or `fallback`; `OutcomeSuccessExactly` states when it is returned and that `data` is the parsed array |
| GenerateGifts.BuildPrompt | app/actions/generate-gifts.ts:79-110 | no contract of its own: it is `Fill` of the template text; `PromptListsProfile`, `PromptInstructs`, `PromptsDifferOnlyInInstruction` and `FillLayout` state what the prompt holds |
| GenerateGifts.Fill | app/actions/generate-gifts.ts:79-110 | no contract of its own: `FillLayout`, `PromptListsProfile`, `PromptInstructs` and `PromptsDifferOnlyInInstruction` state its layout for every template |
| GenerateGifts.ApiKeyConfigured | app/actions/generate-gifts.ts:66 | no contract of its own: `MissingKeyShortCircuits`, `EitherKeySuffices` and `CheckEnv.ReportMatchesGeneration` state what the key check decides |
| GenerateGifts.Rejection | app/actions/generate-gifts.ts:116-132 | the race rejects exactly when the service did not reply; a rejected request makes it reject with the request's own value; a timeout rejects with the timer's `Error` ("API request timed out after 15 seconds") |
| GenerateGifts.ApiErrorMessage | app/actions/generate-gifts.ts:202-204 | no contract of its own: `ServiceFailures` states the message for each rejection and `ApiErrorIsNotAStageMessage` that it never equals a stage's message |
| GenerateGifts.Candidate | app/actions/generate-gifts.ts:140-159 | no contract of its own: `CandidateIsStrictThenLoose`, `NoArrayInReply` and `EmbeddedIsCandidate` state which text it picks |
| GenerateGifts.HasRequiredFields | app/actions/generate-gifts.ts:177 | no contract of its own: the first item's `name`, `description`, `reason` and `priceRange` are all truthy; `ValidationOutcomes`, `ToJsonHasRequiredFields` and `FallbackCatalogPassesValidation` state its verdicts |
| GenerateGifts.Validate | app/actions/generate-gifts.ts:158-195 | no contract of its own: `ValidationOutcomes` states the verdict for each shape of parse result and `OnlyFirstItemChecked` that only the first element is inspected |
| GenerateGifts.VerdictResult | app/actions/generate-gifts.ts:158-195 | no contract of its own: `ValidationOutcomes` and `OutcomeSuccessExactly` state the envelope each verdict returns |
| GenerateGifts.ReplyResult | app/actions/generate-gifts.ts:140-196 | no contract of its own: `OutcomeSuccessExactly`, `NoArrayInReply`, `ValidationOutcomes` and `EmbeddedArrayAccepted` state its result for a reply |
| GenerateGifts.HandleOutcome | app/actions/generate-gifts.ts:114-208 | no contract of its own: `OutcomeEnvelope`, `OutcomeSuccessExactly` and `ServiceFailures` state its result for every settled race |
| GenerateGifts.GenerateGiftIdeas | app/actions/generate-gifts.ts:60-221 | no contract of its own: `EnvelopeInvariant`, `MissingKeyShortCircuits` and `EitherKeySuffices` state its result for every input |
| GenerateGifts.BoundaryFailure | app/actions/generate-gifts.ts:209-219 | the outermost catch returns a fallback envelope with "Error: " and the message, or the generic message for a non-`Error` |
| Json.Get | app/actions/generate-gifts.ts:176-177 | reading a property throws exactly on `null`; it finds a value exactly when the object has that property, and is `undefined` otherwise |
| Json.Truthy | app/actions/generate-gifts.ts:177 | no contract of its own: `null`, `false`, zero and `""` are falsy, every array and object truthy; `ToJsonHasRequiredFields` and `ValidationOutcomes` use it for the `!firstItem.x` tests |
| Environment.IsSet | app/actions/generate-gifts.ts:66 | no contract of its own: a variable is truthy when present and non-empty; `MissingKeyShortCircuits`, `CheckEnv.KeyFlag` and `CheckEnv.MaskShape` state what follows from it, here and in app/api/check-env/route.ts |
| GenerateGiftsProperties.FallbackCatalogFilled | app/actions/generate-gifts.ts:17-58 | the catalog has five entries, each with non-empty name, description, reason and price range |
| GenerateGiftsProperties.FallbackCatalogPassesValidation | app/actions/generate-gifts.ts:17-58 | every element of the catalog array would itself pass the reply validation of lines 176-177 |
| GenerateGiftsProperties.ToJsonHasRequiredFields | app/actions/generate-gifts.ts:177 | an entry with the four required fields non-empty passes the field check |
| GenerateGiftsProperties.PromptListsProfile | app/actions/generate-gifts.ts:79-89 | all seven profile fields occur verbatim in the prompt, each on its labelled line |
| GenerateGiftsProperties.PromptInstructs | app/actions/generate-gifts.ts:90-110 | the prompt holds the sentence chosen by `isRegenerate` on its own line, and ends with the reply rules that ask for a bare JSON array |
| GenerateGiftsProperties.PromptsDifferOnlyInInstruction | app/actions/generate-gifts.ts:79-110 | the two flag values give prompts with the same head and the same tail; only the instruction line differs, holding the "COMPLETELY DIFFERENT" or the "5 specific" sentence |
| GenerateGiftsProperties.FillLayout | app/actions/generate-gifts.ts:79-110 | the prompt is the profile head, the instruction line, the reply format and the reply rules, each recoverable by position |
| GenerateGiftsProperties.JoinContainsPiece | app/actions/generate-gifts.ts:79-89 | each piece of the head occurs in the joined text |
| GenerateGiftsProperties.OutcomeEnvelope | app/actions/generate-gifts.ts:114-207 | after the race, every result is a success with no `error` or `fallback`, whose first item has the four fields; or it is a failure with a message, `fallback: true` and the catalog |
| GenerateGiftsProperties.OutcomeSuccessExactly | app/actions/generate-gifts.ts:140-187 | success holds exactly when the service replied, an array was extracted, it parsed to a non-empty array, and its first element has the four truthy fields; `data` is then that parsed array |
| GenerateGiftsProperties.ServiceFailures | app/actions/generate-gifts.ts:116-207 | a rejection with an `Error` reports "API Error: " and its message; any other rejection reports the communication message; a timeout reports the timer's message, never the `.then`'s |
| GenerateGiftsProperties.CandidateIsStrictThenLoose | app/actions/generate-gifts.ts:140-159 | the text parsed is the leftmost-longest strict match when one exists (whatever the loose pattern would find), otherwise the loose match; there is none exactly when no `]` follows the first `[` |
| GenerateGiftsProperties.NoArrayInReply | app/actions/generate-gifts.ts:146-155 | a reply in which no `]` follows the first `[` gives the "response format was unexpected" failure |
| GenerateGiftsProperties.ValidationOutcomes | app/actions/generate-gifts.ts:158-195 | a parse failure or `null` first item gives the parse-failure message; a non-array or an empty array gives the invalid-format message; a missing or falsy field gives the missing-information message; otherwise the parsed array is returned |
| GenerateGiftsProperties.OnlyFirstItemChecked | app/actions/generate-gifts.ts:176-187 | elements after the first never change the verdict; an accepted array is returned whole |
| GenerateGiftsProperties.EmbeddedIsCandidate | app/actions/generate-gifts.ts:140-159 | an array of the strict shape, after prose with no `[` and before prose with no `}`, is exactly the text handed to the parser |
| GenerateGiftsProperties.EmbeddedArrayAccepted | app/actions/generate-gifts.ts:140-187 | such an embedded array, parsed to an array whose first object has the four fields, is returned as the success data, whatever the surrounding prose |
| GenerateGiftsProperties.SampleArrayAccepted | app/actions/generate-gifts.ts:140-187 | one concrete array of one complete object inside any such prose is extracted and returned as the success data |
| GenerateGiftsProperties.FailureMessagesDistinct | app/actions/generate-gifts.ts:66-219 | the seven fixed failure messages are pairwise distinct |
| GenerateGiftsProperties.ApiErrorIsNotAStageMessage | app/actions/generate-gifts.ts:197-207 | "API Error: " followed by any message is never one of the fixed messages of the key check, extraction, validation or transport stages |
| GenerateGiftsProperties.MissingKeyShortCircuits | app/actions/generate-gifts.ts:63-74 | with neither key set, the result is the missing-key failure, whatever the service and the parser |
| GenerateGiftsProperties.EitherKeySuffices | app/actions/generate-gifts.ts:66-132 | either key alone lets the request go ahead; the result is what the rest of the action makes of the service's answer to the prompt |
| GenerateGiftsProperties.EnvelopeInvariant | app/actions/generate-gifts.ts:60-221 | for all inputs, the action returns either a success with a validated first item, or a failure with a message, `fallback: true` and the catalog |
| CheckEnv.MaskKey | app/api/check-env/route.ts:9-13 | "not set" for a missing or empty key; "****" for at most eight characters; otherwise 11 characters: the key's first four, "..." and its last four |
| CheckEnv.KeyFlag | app/api/check-env/route.ts:18-19 | "set" exactly when the variable is truthy, else "not set" |
| CheckEnv.CheckEnvReport | app/api/check-env/route.ts:15-24 | the response carries NODE_ENV and the timestamp; each flag is "set" for a set key and "not set" otherwise, and each mask is that key's `MaskKey` |
| CheckEnv.MaskShape | app/api/check-env/route.ts:9-13 | the three mask shapes, and exactly which keys produce each |
| CheckEnv.MaskHidesMiddle | app/api/check-env/route.ts:12 | long keys that agree in their first and last four characters get the same mask |
| CheckEnv.MaskShowsEnds | app/api/check-env/route.ts:12 | equal masks of long keys mean equal first and last four characters |
| CheckEnv.MaskHidesShortKeys | app/api/check-env/route.ts:11 | every key of one to eight characters gets the same mask |
| CheckEnv.FlagAgreesWithMask | app/api/check-env/route.ts:9-21 | the flag says "not set" exactly when the mask does |
| CheckEnv.ReportMatchesGeneration | app/api/check-env/route.ts:18-19 | the route reports a key as set exactly when the action's key check would pass (app/actions/generate-gifts.ts:66) |

## Left out

- Logging (`console.log`, `console.error`): it has no effect on results.
- The timer and the network request: they are folded into `service`, which returns how `Promise.race` settled. The model does not cover the 15-second delay, the model name or the token limit.
- `JSON.parse`: it is the parameter `parse`. JSON numbers are reals, and object keys map to values with no prototype chain.
- Json.JsonValue: a JSON number is a `real`, so the `Infinity` and `-Infinity` that `JSON.parse` gives for out-of-range literals such as `1e400` cannot be represented. Truthiness is unaffected: any non-zero real is truthy, as they are.
- A reply whose `text` is missing or not a string: in the source its `substring` call would throw and be reported as an "API Error". The model's `Replied` always carries text.
- GenerateGifts.BoundaryFailure: it models the outermost catch, but `GenerateGifts.GenerateGiftIdeas` never calls it. Every step the model keeps outside the inner `try` is total.
- CheckEnv.MaskKey: it counts Dafny characters, not UTF-16 code units, so the length tests and cuts of app/api/check-env/route.ts lines 11-12 differ from the source on keys with characters outside the Basic Multilingual Plane. The text the patterns extract does not differ: the pattern characters and every `\s` member are single code units, and `[\s\S]` takes both halves of a surrogate pair, so a match never starts or ends inside one. Only the span positions differ, and nothing reads them.
- Strings holding a lone UTF-16 surrogate: a JavaScript string can hold one, but a Dafny string cannot.
- The `Date` behind the route's `timestamp`: it is the parameter `now`. `NextResponse.json`'s serialisation is not modelled.
- The UI pages and components, `app/api-config.ts`, `app/api/test-gemini/route.ts`, `middleware.ts` and the build configuration: none of these is part of this model.
- Which key name the action logs (line 77): it affects only the log, not the result.
