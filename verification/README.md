# ThumbRate analysis core, modelled in Dafny

ThumbRate is a single-page web application: the user fills up to five
thumbnail slots (A to E), types a video title and an optional niche, and
asks a generative-AI provider for a comparative critique of the
thumbnails. This project models the two pieces of sequential logic in it:

- the dashboard's slot list, its upload and remove updates, and the submit
  handler `handleAnalyze` (module `Dashboard`, `dashboard.dfy`);
- the request pipeline `analyzeThumbnails` with its response cleaner
  `parseJSON` (module `GeminiService`, `gemini_service.dfy`).

Supporting modules: `Types` (the record shapes of `types.ts` and a JSON
value type), `Text` (the JavaScript string operations used: global literal
replacement, `trim`, `split`, decimal rendering), `Lists` (`filter` and a
flat map) and `Wrappers` (`Option`, `Result`).

The provider call and `JSON.parse` are parameters of the model: a
`Provider` maps the prompt parts to the response text (absent when the
response carries none) or to the message of the error it throws; a
`Parser` maps a text to the parsed JSON value or to `None` when parsing
throws. The API key from the environment is a parameter too. React state
updates are modelled as a list of committed states, and the awaited
service call as a `Service` parameter; `Dashboard.Wired` plugs the
service model into the dashboard.

The model follows the code as written; in particular:

- uploading to an unknown slot id is a silent no-op, not an error;
- the dashboard counts slots by `file`, the service selects them by
  `base64`; for uploads that carry a data URL, every upload and remove
  keeps the file, preview and payload present together, so the two
  selections agree (`Dashboard.ReachableSlots`);
- the title is passed to the service untrimmed and the niche is defaulted
  only inside the prompt text;
- no semantic check is made on the AI result: a report with a winner that
  was never submitted, missing or extra slots, or a score outside 0-100 is
  returned unchanged (`GeminiService.ReportPassesThrough`).

## Model

| member | source | states |
|---|---|---|
| Dashboard.InitialThumbnails | components/Dashboard.tsx:18-24 | the initial list is five empty slots with ids A, B, C, D, E in that order |
| Dashboard.Upload | components/Dashboard.tsx:31-33 | the slot with the given id gets the file and the data URL as both preview and payload; every other slot, the length and the id order are unchanged |
| Dashboard.Remove | components/Dashboard.tsx:35-37 | the slot with the given id loses file, preview and payload; every other slot, the length and the id order are unchanged |
| Dashboard.UnknownIdNoChange | components/Dashboard.tsx:31-37 | upload or remove with an id that names no slot changes nothing |
| Dashboard.RemoveIdempotent | components/Dashboard.tsx:35-37 | removing twice equals removing once |
| Dashboard.UploadThenRemove | components/Dashboard.tsx:31-37 | upload followed by remove on the same id equals remove alone |
| Dashboard.UploadThenRemoveRestoresInitial | components/Dashboard.tsx:18-37 | on the initial list, upload then remove restores the initial list |
| Dashboard.ReplayKeepsInvariant | components/Dashboard.tsx:31-37 | any sequence of uploads and removes keeps the id order and keeps file, preview and payload present together in every slot |
| Dashboard.ReachableSlots | components/Dashboard.tsx:18-37 | every slot list reachable from the initial one has ids A to E in order and satisfies the presence invariant |
| Dashboard.FileCountMatchesActive | components/Dashboard.tsx:44 | under the presence invariant the slots counted by file are exactly the slots the service selects by payload, so the counts agree |
| Dashboard.ErrorMessage | components/Dashboard.tsx:58 | the shown error equals the thrown message when that is non-empty, and is "An error occurred during analysis." when it is empty |
| Dashboard.GuardError | components/Dashboard.tsx:40-48 | a title that is blank after trim is rejected with "Please enter a video title." whatever the slots; otherwise fewer than two slots with a file is rejected with "Please upload at least 2 thumbnails to compare."; the submission passes exactly when neither holds |
| Dashboard.HandleAnalyze | components/Dashboard.tsx:39-61 | a failed guard only sets the guard's error and makes no call; otherwise analyzing starts with error and result cleared, the service is called once with the untrimmed title, and the final state is not analyzing and holds exactly one of the returned value or the error message; title, niche and slots are the same in the first and last state |
| Dashboard.GuardedSubmission | components/Dashboard.tsx:44-56 | from a slot list satisfying the presence invariant, with a present key, a submission passing the guard always reaches the provider call, and any result it shows is a truthy parsed value |
| GeminiService.Clean | services/geminiService.ts:7 | the cleaned response text never contains a triple backtick |
| Text.RemoveFenceLeavesNone | services/geminiService.ts:7 | removing every triple backtick left to right leaves none, even where removal brings backticks together |
| GeminiService.CleanTickFree | services/geminiService.ts:7 | cleaning text without backticks is just trimming it |
| GeminiService.CleanFenced | services/geminiService.ts:7 | for text s without backticks, cleaning the fenced form "```json" + s + "```" gives trim(s), the same as cleaning s |
| GeminiService.FencedResponseSameOutcome | services/geminiService.ts:4-8 | for a response body without backticks, a provider that fences it in "```json" ... "```" produces the same outcome as one that sends the bare body |
| GeminiService.ParseJson | services/geminiService.ts:4-13 | a missing response text fails like a parse exception; otherwise the parser sees the cleaned text |
| GeminiService.ActiveSlots | services/geminiService.ts:28 | the active slots are exactly the input slots whose payload field is set |
| Lists.FilterAppend | services/geminiService.ts:28 | filtering distributes over concatenation, so the active slots keep the input order |
| GeminiService.PayloadAfterFirstComma | services/geminiService.ts:58 | with a comma in the data URL, the payload is the text after the first comma up to the next comma or the end |
| GeminiService.PayloadWithoutComma | services/geminiService.ts:58 | without a comma there is no payload |
| Text.Split | services/geminiService.ts:58 | split yields at least one piece, no piece holds the separator, and joining the pieces with it gives back the input |
| Text.SplitUnique | services/geminiService.ts:58 | any separator-free cut of a string whose join is that string is its split |
| GeminiService.MimeType | services/geminiService.ts:65 | the inline MIME type is never empty: the file's type when that is non-empty, "image/png" when there is no file or its type is empty |
| GeminiService.ContextText | services/geminiService.ts:37-53 | the instruction text embeds the active-slot count, the title verbatim in quotes, and the niche or "General Content" when it is empty (`NicheLabel`) |
| Text.DecimalRoundTrip | services/geminiService.ts:39 | the count written into the prompt reads back as the same number |
| GeminiService.ImageParts | services/geminiService.ts:55-70 | the appended parts are two per slot with a non-empty payload, that slot's label and image, in slot order; other slots add nothing |
| Lists.FlatMapPairs | services/geminiService.ts:56-70 | `FlatMap`, a loop appending two items for each kept element and none for the others builds, pair by pair, the items of the kept elements in order |
| GeminiService.BuildParts | services/geminiService.ts:34-70 | the parts list is the instruction text followed by "Thumbnail <id>:" and the inline data for each slot with a non-empty payload, so its length is 1 + 2 x that number |
| GeminiService.AnalyzeThumbnails | services/geminiService.ts:15-116 | a missing or empty key fails with "API Key is missing" with no call and regardless of the slots; no slot with a payload fails with "No thumbnails provided" with no call; otherwise exactly one request carrying the active slots; a success is a truthy parsed response, and every truthy parsed response is returned unchanged; a failure after the call is the provider's error or "Invalid JSON response from AI" |
| GeminiService.ReportPassesThrough | services/geminiService.ts:108-111 | any report the response parses to is returned unchanged, whatever its winner, slot set or scores |
| GeminiService.ProviderErrorRethrown | services/geminiService.ts:96-116 | a provider error's message reaches the caller unchanged |
| GeminiService.UnusableResponseRejected | services/geminiService.ts:108-109 | a missing text, a parse failure or a falsy parsed value fails with "Invalid JSON response from AI" |
| GeminiService.ParsedValuePassesThrough | services/geminiService.ts:108-111 | any truthy value the response parses to, of whatever shape, is returned unchanged |
| GeminiService.Payload | services/geminiService.ts:58 | a payload exists exactly when the data URL holds a comma, and it holds no comma itself |
| Text.Trim | services/geminiService.ts:7 | the result is a slice of the input, everything outside it is whitespace, it neither starts nor ends with whitespace, and it is empty exactly when the input is all whitespace |
| Text.RemoveAll | services/geminiService.ts:7 | removing a pattern never lengthens the text and keeps only characters of the input |
| Text.RemoveAllAbsent | services/geminiService.ts:7 | removing a pattern that does not occur leaves the text unchanged |
| Types.IsFalsy | services/geminiService.ts:109 | a JSON value is falsy exactly when it is null, false, 0 or the empty string; arrays and objects are always truthy |
| Dashboard.UploadedCount | components/Dashboard.tsx:44 | the count of slots holding a file is at most the number of slots, and zero exactly when no slot holds a file |
| Lists.Filter | services/geminiService.ts:28 | the filtered list is no longer than the input, every element kept satisfies the predicate and comes from the input, and every input element satisfying it is kept |
| Text.Decimal | services/geminiService.ts:39 | the rendered count is a non-empty string of decimal digits with no leading zero except for 0 itself |
| GeminiService.KeyMissing | services/geminiService.ts:21 | the key counts as missing exactly when it is undefined or the empty string |
| GeminiService.HasImage | services/geminiService.ts:58-59 | a slot contributes an image only when its data URL holds a comma and the text after the first comma is present and non-empty |
| GeminiService.SlotParts | services/geminiService.ts:59-69 | a slot with an image adds exactly two parts, the label "Thumbnail <id>:" (`Label`) and an inline image with the slot's MIME type and its non-empty, comma-free payload; any other slot adds none |
| Types.ReportToJson | types.ts:8-18 | the JSON form of any report is a truthy object whose first member is the winner |

## Left out

- Rendering (JSX, icons, the chart, the cut of pros and cons to three),
  the landing page, the tab and view routing, and the unused history tab:
  presentation only.
- Reading a picked file as a data URL and opening the file picker: browser
  I/O; an upload receives an arbitrary string as its data URL.
- Dashboard.Upload: takes the data URL as a string, so it excludes the
  null `reader.result` that a failed or aborted read hands to the upload
  handler (components/ThumbnailSlot.tsx:18-19). Such an upload would store
  a file with no preview and no payload, counted by the dashboard's guard
  but dropped by the service's filter. `Dashboard.ReachableSlots`,
  `Dashboard.FileCountMatchesActive` and `Dashboard.GuardedSubmission`
  rely on this exclusion.
- The client construction and `generateContent`, the schema object, the
  model name, the system instruction and the temperature: the provider is
  an abstract function of the prompt parts, and its configuration is not
  modelled.
- `JSON.parse`: an abstract function from text to an optional JSON value.
- Asynchronous scheduling, React batching and the disabling of the button
  while analyzing: each handler runs as one sequence of steps.
- Console logging.
- Errors thrown as non-`Error` values: a thrown message is a string, and an
  absent message is modelled as the empty one.
- Strings are sequences of Unicode scalar values, not UTF-16 code units,
  so lone surrogates are not represented; the whitespace set of `trim` is
  the ECMAScript one.
- JSON numbers are reals. A numeric literal too large for a double (such
  as `1e400`) parses to plus or minus infinity, which the model represents
  by some non-zero real; both are truthy, so falsiness and the pass-through
  of parsed values are unaffected.
- Title and niche edits: plain field assignments with nothing to check;
  the model takes the state they produce as input.
