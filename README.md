# KahaniBox AI: the `/api/generate` decision logic in Dafny

KahaniBox AI is a small Express server that takes a story prompt or earlier
story text from a client. It wraps the input in one of three instruction
templates, sends the result to Google's Gemini model, strips markdown markers
from the reply and returns it as JSON. This project models the decision logic
of the `POST /api/generate` handler as pure Dafny functions and proves what
that logic promises:

- **Validation.** A request whose `prompt` and `history` are both falsy is
  answered 400 "Prompt is required". A valid request without a configured API
  key is answered 500 "Server Error: API Key is missing". The checks run in
  that order, and neither rejection contacts the model.
- **Mode choice.** A truthy `history` always selects continuation. Otherwise
  a prompt whose lower-case form contains "news", "khabar" or "samachar"
  selects news. Everything else is a story.
- **Instruction assembly.** Continuation embeds only the last 1000 characters
  of the history. News and story embed the prompt verbatim after "Topic: ".
  The three templates are exactly the source's.
- **Upstream failures.** 404 and 429 get fixed messages. Any other non-2xx
  status is passed through with "AI Error: " and the body. An exception
  becomes 500 "Internal Server Error: " and its message.
- **Result.** A missing or empty candidate text is replaced by the
  placeholder "Maafi chahenge, content generate nahi ho paya.". The text then
  goes through `replace(/\*\*/g, "")`, `replace(/##/g, "")`,
  `replace(/\*/g, "")` and `trim()`.

Files:

- `js_strings.dfy`, module `JsStrings`: the JavaScript string operations the
  handler uses: truthiness, `${}` interpolation, `includes`, `toLowerCase`,
  `slice(-n)`, global `replace` of a literal pattern by "" and `trim`. Each
  has a reference definition or contract here, except truthiness and
  interpolation, whose properties are stated in `Generate` (the contracts of
  `Generate.Handle`, `Generate.ClassifyCases` and
  `Generate.InterpolatedTopicIsPrompt`).
- `generate.dfy`, module `Generate`: the handler's data and decisions. The
  HTTP call is the parameter `call(apiKey, fullPrompt)` of `Handle`. The
  formatted date in the news template is the parameter `today`.

Behaviour of the code worth knowing, each point proved or built into the model:

- The cleanup does not remove every `#`, and running it twice can change
  the text. `"#*#"` cleans to `"##"`, which cleans again to `""`
  (`Generate.CleanupCanLeaveHashPair`). Cleaning twice changes the text
  exactly when the cleaned text still contains `"##"`
  (`Generate.CleanupIdempotentUnlessHashPair`).
- A successful reply can carry an empty `generated_text`. The placeholder is
  applied before the cleanup, so a reply made only of markers, such as
  `"**"`, cleans to `""` (`Generate.GeneratedTextCanBeEmpty`).
- The handler makes exactly one upstream call; there is no retry and no
  fallback model.
- Missing fields are detected by JavaScript falsiness, so an empty string
  counts as missing too.

## Model

| member | source | states |
|---|---|---|
| `JsStrings.Truthy` | api/index.js:33 | JavaScript truthiness of a field: absent and "" are falsy; used by the contracts of `Generate.Handle` and `Generate.ClassifyCases` |
| `JsStrings.Interpolate` | api/index.js:54-73 | `${v}` in the news and story templates; its contract is `Generate.InterpolatedTopicIsPrompt` |
| `JsStrings.Includes` | api/index.js:45 | `includes`; its contract is `JsStrings.IncludesIsOccurs` |
| `JsStrings.RemoveAll` | api/index.js:101 | `replace(/p/g, "")` never lengthens the text; its other properties are `JsStrings.RemoveAllChar`, `RemoveAllKeepsOthers`, `RemoveAllNoMatch` and `RemoveAllShrinks` |
| `JsStrings.IncludesIsOccurs` | api/index.js:45 | the left-to-right `includes` scan answers true exactly when the keyword occurs at some position of the text |
| `JsStrings.ToLower` | api/index.js:45 | `toLowerCase` keeps the length, leaves no capital A-Z, maps each capital to its small letter and keeps every other character |
| `JsStrings.SliceFromEnd` | api/index.js:51 | `slice(-n)` returns a suffix of the string whose length is min(length, n) |
| `JsStrings.RemoveAllChar` | api/index.js:101 | after the global removal of a one-character pattern, that character no longer occurs |
| `JsStrings.RemoveAllKeepsOthers` | api/index.js:101 | a global removal of a marker-only pattern deletes markers only: every other character survives, in order |
| `JsStrings.RemoveAllNoMatch` | api/index.js:101 | a global removal leaves a string without a match unchanged |
| `JsStrings.RemoveAllShrinks` | api/index.js:101 | a global removal makes a string with a match strictly shorter |
| `JsStrings.Trim` | api/index.js:101 | `trim` returns a string that does not start or end with white space, and the input is that string padded with white space on both sides |
| `JsStrings.TrimUnique` | api/index.js:101 | the result of `trim` is the only string with both of those properties |
| `JsStrings.TrimOfTrimmed` | api/index.js:101 | `trim` does not change a string that has no white space at either end |
| `Generate.ClassifyCases` | api/index.js:45-74 | continuation iff history is truthy; news iff history is falsy, prompt is truthy and its lower-case form contains "news", "khabar" or "samachar"; story iff neither |
| `Generate.IsNews` | api/index.js:45 | the news test; its contract is the News case of `Generate.ClassifyCases` |
| `Generate.Classify` | api/index.js:45-74 | the three-way mode choice; its contract is `Generate.ClassifyCases` |
| `Generate.ContinuationPrompt` | api/index.js:49-52 | the continuation template; its contract is `Generate.ContinuationCarriesHistoryTail` |
| `Generate.NewsPrompt` | api/index.js:56-65 | the news template; its contract is `Generate.NewsPromptTopic` |
| `Generate.StoryPrompt` | api/index.js:69-73 | the story template; its contract is `Generate.StoryPromptTopic` |
| `Generate.FullPrompt` | api/index.js:42-74 | the instruction for the chosen mode; its contracts are `Generate.ModeOfFullPrompt`, `Generate.ContinuationCarriesHistoryTail` and `Generate.TopicIsVerbatimPrompt` |
| `Generate.InterpolatedTopicIsPrompt` | api/index.js:54-73 | once validation has passed, news and story mode always have a prompt string, so `${prompt}` never prints "undefined" |
| `Generate.ContextOf` | api/index.js:51 | the continuation context is the trailing min(length, 1000) characters of the history |
| `Generate.ModeOfFullPrompt` | api/index.js:47-74 | the first line of the assembled instruction tells which mode was chosen, so the three templates never coincide |
| `Generate.ContinuationCarriesHistoryTail` | api/index.js:47-52 | a continuation instruction carries, between its fixed head and tail, a suffix of the history of length min(length, 1000), and the whole history when it has at most 1000 characters |
| `Generate.NewsPromptTopic` | api/index.js:56-65 | the news template contains "Topic: " followed by the topic, and the topic can be read back from it given the date |
| `Generate.StoryPromptTopic` | api/index.js:69-73 | the story template contains "Topic: " followed by the topic, and the topic can be read back from it |
| `Generate.TopicIsVerbatimPrompt` | api/index.js:54-73 | in news and story mode the user's prompt appears verbatim after "Topic: " in the instruction sent |
| `Generate.MapFailure` | api/index.js:83-95 | a non-2xx upstream status is passed to the client unchanged; 404 carries "Model Not Found", 429 carries "Limit Exceeded", any other status carries "AI Error: " followed by the upstream body |
| `Generate.PickText` | api/index.js:98 | the text is the candidate text when it is present and non-empty, and the placeholder otherwise; it is never empty |
| `Generate.StripMarkers` | api/index.js:101 | the three replacements in source order; its contract is `Generate.StripMarkersDeletesOnlyMarkers` |
| `Generate.GeneratedText` | api/index.js:98-101 | the placeholder, then the cleanup; its contracts are `Generate.PickText`, `Generate.Cleanup` and `Generate.GeneratedTextCanBeEmpty` |
| `Generate.Cleanup` | api/index.js:101 | the cleaned text has no white space at either end and is no longer than the raw text |
| `Generate.CleanupHasNoAsterisk` | api/index.js:101 | the cleaned text contains no `*` |
| `Generate.StripMarkersDeletesOnlyMarkers` | api/index.js:101 | the three replacements delete only `*` and `#`; the cleaned text is their output with surrounding white space removed |
| `Generate.CleanupOfPlainText` | api/index.js:101 | on text without `*` and `#` the cleanup is only `trim` |
| `Generate.CleanupIdempotentUnlessHashPair` | api/index.js:101 | cleaning a cleaned text again changes it exactly when it still contains "##" |
| `Generate.CleanupCanLeaveHashPair` | api/index.js:101 | "#*#" cleans to "##", and cleaning that again gives "" |
| `Generate.GeneratedTextCanBeEmpty` | api/index.js:98-101 | a candidate text "**" passes the placeholder check and then cleans to the empty string |
| `Generate.Finish` | api/index.js:83-108 | a 2xx reply gives 200 with the generated text, i.e. the candidate text after the placeholder step and the cleanup, and no other reply gives generated text or a 2xx status; a non-2xx reply gives the mapped failure; an exception gives 500 "Internal Server Error: " with its message |
| `Generate.Handle` | api/index.js:29-109 | both fields falsy gives 400 "Prompt is required" whatever the key; a valid request without a key gives 500 "Server Error: API Key is missing"; otherwise the response is the outcome of one call made with the key and the assembled instruction |
| `Generate.RejectionMakesNoCall` | api/index.js:33-38 | a rejected request gets the same 400 or 500 response whatever the model would answer, so no upstream call is made |
| `Generate.SuccessIsCleanText` | api/index.js:97-103 | a request answered by a 2xx reply gets status 200 and the cleaned candidate text, or the cleaned placeholder when that text is missing or empty; the text has no `*` and no surrounding white space |

## Left out

- Express setup, the CORS middleware, the OPTIONS short-circuit, the `GET /` liveness route and the default export (api/index.js:1-27, 111). These are framework plumbing.
- The HTTP request to Gemini, including the URL with the model name and the key, and the JSON body with `contents[].parts[].text` (api/index.js:23, 77-81). It is the abstract parameter `call(apiKey, fullPrompt)`. Reading the reply with `response.text()` and `response.json()` and walking `candidates[0].content.parts[0].text` are summarised in the `UpstreamReply` datatype.
- The date from `toLocaleString('en-IN', { timeZone: 'Asia/Kolkata', ... })` (api/index.js:40). It is a clock and locale call, so it is the string parameter `today`.
- `console.error` logging (api/index.js:85, 106). It has no effect on the response.
- Request fields and candidate texts that are JSON values other than strings. The model takes every field to be absent or a string. In the source, falsy non-strings (`0`, `false`, `null`) behave like an absent field, because they never reach a method call (api/index.js:33, 45, 47). A truthy number or object `prompt` makes `toLowerCase` throw, and the catch answers 500. A truthy non-string `history` throws at `slice` unless it is an array. An array has `slice`, so `["a","b"]` gets continuation mode with the context `a,b` (api/index.js:47, 51). A truthy non-string candidate text throws at `replace`, giving 500.
- Express rejecting an out-of-range status code when an upstream status is passed through. The model passes any integer status through.
- JsStrings.ToLower: lowercases ASCII A-Z only. JavaScript also lowercases other scripts, and some non-ASCII characters lowercase to ASCII letters, e.g. KELVIN SIGN to "k". The model therefore misses news prompts written with such characters.
- JsStrings.SliceFromEnd: counts Unicode scalar values, whereas JavaScript counts UTF-16 code units. The two differ only on characters outside the Basic Multilingual Plane.
