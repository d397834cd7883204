# Reverse-Valuation-2, modelled in Dafny

Reverse-Valuation-2 is a browser calculator. It takes a stock's price, free cash
flow per share, beta, risk-free rate and market risk premium, computes the cost
of equity with the Capital Asset Pricing Model, and solves the reverse
discounted-cash-flow relation for the growth rate the price implies. The inputs
are typed in, or fetched for a ticker from a generative-search model whose free
text answer is turned into a record.

This project models three pieces of that application and proves properties of them:

- **The valuation engine and the state of App.tsx** (`valuation.dfy`, `app.dfy`).
  `CalculateResults` is the closed-form computation. `class App` holds the five
  state slots (`ticker`, `loading`, `error`, `searchResult`, `data`). Its
  methods `SetTicker`, `HandleReset`, `UpdateField` and `HandleSearch` are each
  proved to produce the state that a pure transition function (`WithTicker`,
  `Reset`, `Edit`, `Search`) gives for the old state. The lemmas prove the
  handlers' properties about those functions. One of them shows that every
  transition preserves the state property `Valid`: after any handler returns,
  nothing is loading, and a stored result has data and no error next to it.
- **The normalisation in services/geminiService.ts** (`gemini.dfy`).
  This covers the fenced-block and brace extraction of `parseCodeBlock`, the
  citation filter and its Map-based de-duplication, the per-field coercion
  with its defaults, and `fetchStockData` as a whole. The request to the model
  is an input: its answer or the error it threw.
- **The sensitivity sweep of components/SensitivityChart.tsx** (`sensitivity.dfy`).
  The counted loop becomes a method with loop invariants. It is specified
  point by point by `PointAt`, and the lemmas describe the sweep.

`types.dfy` holds the records of types.ts. `jsruntime.dfy` models the
JavaScript behaviour the code depends on: truthiness, `Number(...)`, the
white-space set of `trim()` and `\s`, `includes`, `indexOf`, `lastIndexOf`,
`substring` (including its argument swap) and ASCII `toUpperCase`. The library
parsers `JSON.parse`, string-to-number conversion and `parseFloat` are left
abstract: they are the fields of a `Library` value of total functions, where
`None` means "threw" or "NaN". All numbers are mathematical reals.

Behaviour of the code worth knowing:

- De-duplication by URI keeps each URI where it first occurs, with the value
  of its last entry (`new Map(...)` overwrites). So
  `[{t1,u1},{t2,u1},{t3,u2}]` gives `[{t2,u1},{t3,u2}]`.
- The coercion `Number(x) || default` turns a real 0 into the default as well
  (beta 0 becomes 1), besides a missing or unparsable value.
- The fallback candidate is `text.substring(first '{', last '}' + 1)`.
  `substring` swaps its bounds, so when the last `}` comes before the first `{`
  the candidate is the text strictly between them.
- With exact arithmetic the default record gives Ke = 0.042 + 1.10 × 0.055 =
  0.1025 and g = 0.0525.

The regex `/```json\s*([\s\S]*?)\s*```/` is modelled by what its first match
captures (`FencedCapture`). The match starts at the first "```json". The greedy
`\s*` takes all the white space after it. The lazy group then stops where only
white space separates it from the first "```" that follows. There is a match
exactly when some "```" starts after the end of some "```json".

## Model

| member | source | states |
|---|---|---|
| Valuation.DefaultData | App.tsx:8-16 | the seven fields of DEFAULT_DATA: ticker "EXAMPLE", price 150.00, FCF per share 7.50, beta 1.10, risk-free rate 0.042, market risk premium 0.055, currency "USD"; DefaultResults gives what the calculator derives from it |
| Valuation.CalculateResults | App.tsx:27-42 | Ke = Rf + beta·MRP; the yield is 0 when the price is 0, and otherwise yield·price = FCF (a true quotient, no division by zero); growth + yield = Ke |
| Valuation.DefaultResults | App.tsx:8-16 | the default record gives exactly Ke = 0.1025, yield = 0.05, g = 0.0525 |
| Valuation.GordonRoundTrip | App.tsx:28-35 | for non-zero price and cash flow, the result solves the reverse DCF: price = FCF / (Ke − g) |
| Valuation.GrowthIncreasesWithPrice | App.tsx:31-35 | with a positive cash flow, a higher positive price implies a strictly higher growth |
| JsRuntime.IsWhitespace | App.tsx:50 | the ECMAScript WhiteSpace and LineTerminator code points (tab, LF, VT, FF, CR, space, NBSP, U+1680, U+2000-U+200A, U+2028, U+2029, U+202F, U+205F, U+3000, U+FEFF): what `trim()` strips and the regex class `\s` of services/geminiService.ts:5 matches |
| JsRuntime.Trim | App.tsx:50 | `trim()` is empty exactly when the text is all JavaScript white space, and otherwise neither starts nor ends with white space |
| JsRuntime.Includes | App.tsx:69-71 | `s.includes(sub)`: `sub` is a prefix of `s` or of one of its suffixes; specified by IncludesRight, IncludesChar and ClassifyErrorCases |
| JsRuntime.IncludesRight | App.tsx:69 | a text that includes `a + b` includes `b` |
| JsRuntime.Truthy | services/geminiService.ts:87 | `if (parsedData)`: null, false, 0 and "" are falsy; every other number and string, and every array and object, is truthy |
| JsRuntime.ToNumber | services/geminiService.ts:90-94 | `Number(v)`: undefined and objects give NaN (`None`), null gives 0, booleans give 0 and 1, numbers are kept, strings go through the library conversion, arrays through ArrayToNumber |
| JsRuntime.ArrayToNumber | services/geminiService.ts:90-94 | an array converts through its comma-joined text: an empty one as "", a one-element one as its element's text, a longer one (which has a comma) to NaN |
| JsRuntime.ElementTextToNumber | services/geminiService.ts:90-94 | the number of the text an array element is joined as: null as "", a boolean as "true"/"false" (NaN), an object as "[object Object]" (NaN), a nested array recursively |
| JsRuntime.SingletonArrayNumber | services/geminiService.ts:90-94 | a one-element array converts like its element, except that `[null]` converts like "" and `[true]`/`[false]` give NaN |
| JsRuntime.OrDefault | services/geminiService.ts:90-94 | `Number(x) \|\| d` is `d` exactly when the number is NaN, 0 or `d`, and otherwise is that non-zero number |
| JsRuntime.ToUpperCase | services/geminiService.ts:89 | same length; each lower-case ASCII letter becomes the upper-case letter at the same place in the alphabet; every other character is kept |
| JsRuntime.UpperCaseIdempotent | services/geminiService.ts:89 | upper-casing twice equals upper-casing once |
| JsRuntime.IndexOfFrom | services/geminiService.ts:5-6 | the result is -1 or an occurrence at or after `from`, with no occurrence between `from` and it |
| JsRuntime.IndexOf | services/geminiService.ts:15 | -1 exactly when the character is absent; otherwise its first position |
| JsRuntime.LastIndexOf | services/geminiService.ts:16 | -1 exactly when the character is absent; otherwise its last position |
| JsRuntime.Substring | services/geminiService.ts:19 | `substring(a, b)` is `s[a..b]`, or `s[b..a]` when the bounds are swapped |
| JsRuntime.Field | services/geminiService.ts:90-95 | a property is defined exactly when the parsed value is an object that has that key, and then it is that key's value |
| GeminiService.FencedCapture | services/geminiService.ts:5-6 | there is no match exactly when no "```" starts after the end of any "```json"; a captured group neither starts nor ends with white space and contains no "```" |
| GeminiService.FencedCaptureOfBlock | services/geminiService.ts:5-7 | round trip: prose, "```json", white space, a body, white space, "```" and more text give exactly the body, when this "```json" is the text's first and no "```" starts inside the body; backticks elsewhere are allowed |
| GeminiService.FencedCaptureAfterInlineCode | services/geminiService.ts:5-7 | inline code before the fence: "`A` ```json {}" followed by a newline and "```" captures "{}" |
| GeminiService.LooseCandidate | services/geminiService.ts:15-17 | there is a fallback candidate exactly when the text has both a `{` and a `}` |
| GeminiService.LooseCandidateOfObject | services/geminiService.ts:15-19 | with no `{` before it and no `}` after it, a braced span is the candidate, first brace to last brace inclusive |
| GeminiService.LooseCandidateCrossed | services/geminiService.ts:15-19 | when the last `}` precedes the first `{`, the swapped `substring` gives the text strictly between them |
| GeminiService.ParseCodeBlock | services/geminiService.ts:4-25 | the result is null or the parse of one of the two candidates |
| GeminiService.ParseFencedBlock | services/geminiService.ts:5-9 | a fenced block (the text's first "```json", no "```" starting inside the body) whose non-empty body parses yields that value; the fenced stage comes first |
| GeminiService.FallThrough | services/geminiService.ts:7-24 | whenever the fenced stage fails (no match, an empty capture, or a capture that does not parse), the result is the brace candidate's parse when there is a candidate and it parses, and null otherwise, including the crossed-brace candidate |
| GeminiService.ParseLooseObject | services/geminiService.ts:7-19 | when the fenced stage fails (no match, empty capture, or no parse), a braced span that parses is the result |
| GeminiService.ParseNothing | services/geminiService.ts:14-24 | when the fenced stage fails and a brace is missing, the result is null |
| GeminiService.HasWebSource | services/geminiService.ts:76 | the filter `chunk.web?.uri && chunk.web?.title`: the chunk has a web entry whose URI and title are both present and non-empty |
| GeminiService.ToSource | services/geminiService.ts:77-80 | the map step: the `{title, uri}` of a chunk that passed the filter |
| GeminiService.FilterSources | services/geminiService.ts:75-80 | every output has a non-empty URI and title; the output holds exactly the `{title, uri}` of the chunks that have both |
| GeminiService.FilterSourcesOne | services/geminiService.ts:76-80 | a single chunk gives its `{title, uri}` when it has both, and nothing otherwise |
| GeminiService.FilterSourcesAppend | services/geminiService.ts:76-80 | filtering distributes over concatenation, so the kept sources keep the chunks' order and there is one per kept chunk |
| GeminiService.UniqueSources | services/geminiService.ts:83 | `Array.from(new Map(sources.map(s => [s.uri, s])).values())`, built one `Map.set` at a time; specified by UniqueSourcesUris, UniqueSourcesLastWins and UniqueSourcesFirstOrder below |
| GeminiService.UniqueSourcesUris | services/geminiService.ts:83 | after de-duplication the URIs are pairwise distinct and are exactly the input's URIs |
| GeminiService.UniqueSourcesLastWins | services/geminiService.ts:83 | each output entry is the last input entry with its URI |
| GeminiService.UniqueSourcesFirstOrder | services/geminiService.ts:83 | the output is ordered by each URI's first occurrence in the input |
| GeminiService.UniqueSourcesExample | services/geminiService.ts:83 | `[{t1,u1},{t2,u1},{t3,u2}]` becomes `[{t2,u1},{t3,u2}]` |
| GeminiService.MapSet | services/geminiService.ts:83 | `Map.prototype.set` inside `new Map(...)`: a URI already present keeps its position and takes the new entry; a new URI goes last; specified by MapSetUris |
| GeminiService.MapSetUris | services/geminiService.ts:83 | one `Map.set` keeps the URIs distinct and adds the new one |
| GeminiService.CurrencyOf | services/geminiService.ts:95 | the currency is never empty; a non-empty string is kept; a falsy or missing value gives "USD" |
| GeminiService.CoerceStockData | services/geminiService.ts:88-96 | the ticker is always the upper-cased input ticker, whatever the payload says; beta, risk-free rate and premium are never 0; the currency is never empty |
| GeminiService.CoercedFields | services/geminiService.ts:90-94 | each numeric field is its default (0, 0, 1, 0.04, 0.05) exactly when its number is missing, unparsable, zero or the default; otherwise it is that number |
| GeminiService.ZeroBetaBecomesOne | services/geminiService.ts:92 | a beta of 0 becomes 1 |
| GeminiService.UnparsablePriceBecomesZero | services/geminiService.ts:90 | an unparsable price string becomes price 0 |
| GeminiService.MissingKeyMentionsApiKey | services/geminiService.ts:31-33 | the missing-key message contains "API Key" |
| GeminiService.FetchStockData | services/geminiService.ts:27-109 | a missing or empty key rejects with a message containing "API Key", whatever the request would have given; with a key, a thrown request is rethrown unchanged and an answer always resolves |
| GeminiService.FetchAnswered | services/geminiService.ts:70-103 | an answer resolves with the raw text (or ""), the de-duplicated sources, and data exactly when the extracted JSON is truthy, that data being the coercion of the extracted JSON for the given ticker |
| GeminiService.NoDataStillReturnsSources | services/geminiService.ts:70-103 | when parsing yields nothing usable, data is null but the raw text and the sources' URIs are still returned |
| AppState.ErrorMessageOf | App.tsx:67 | the error's message when it is non-empty, and the error's JSON serialisation otherwise |
| AppState.ClassifyError | App.tsx:69-75 | the result is one of the three fixed user messages |
| AppState.ClassifyErrorCases | App.tsx:69-75 | security alert exactly when the message includes "leaked"; configuration error exactly when it includes "API Key" but not "leaked"; generic message otherwise (the "reported as leaked" test is subsumed) |
| AppState.IncludesChar | App.tsx:69 | a text including `sub` contains every character of `sub` |
| AppState.MissingKeyIsConfigurationError | App.tsx:71-72 | the missing-key error is classified as the configuration error |
| AppState.WithField | App.tsx:91 | the named field takes the value; every other field, the ticker and the currency are unchanged |
| AppState.WithTicker | App.tsx:116 | the ticker input's change sets only the ticker |
| AppState.Reset | App.tsx:81-86 | handleReset: default data, empty ticker, no result, no error; specified by ResetProperties |
| AppState.Edit | App.tsx:88-93 | updateField: a rejected parse changes nothing, otherwise the named field takes the value; specified by EditProperties |
| AppState.Search | App.tsx:48-79 | the ticker is never changed; data is either unchanged or is the data of the stored search result |
| AppState.Settle | App.tsx:56-78 | the state once the fetch has settled: the ticker is kept, loading is false, and data is either kept or the stored result's data |
| AppState.TransitionsPreserveValid | App.tsx:19-25 | the initial state is valid (not loading; a stored result has data and no error beside it), and every handler keeps the state valid |
| AppState.ResetProperties | App.tsx:81-86 | reset gives data = DEFAULT_DATA, ticker "", no result, no error; loading is untouched; reset twice is reset once |
| AppState.EditProperties | App.tsx:88-93 | an unparsable edit changes nothing; a parsable one sets just the named field, leaving every other field and slot equal |
| AppState.BlankTickerIsNoOp | App.tsx:50 | an empty or white-space-only ticker changes no state |
| AppState.SearchResolved | App.tsx:56-63 | with data: data is replaced wholesale, the result is stored and there is no error; with null data: data is kept, nothing is stored and the error is the insufficient-data message; loading is false |
| AppState.SearchRejected | App.tsx:64-78 | a thrown error keeps data, stores no result, sets the classified message and ends loading |
| AppState.SearchWithoutKey | App.tsx:64-75 | with an absent or empty API key a search ends in the configuration error, with data unchanged, no result and loading false |
| AppState.App.constructor | App.tsx:19-25 | the initial state: empty ticker, not loading, no error, no result, the default data |
| AppState.App.SetTicker | App.tsx:116 | only the ticker changes |
| AppState.App.HandleReset | App.tsx:81-86 | the new state is `Reset` of the old |
| AppState.App.UpdateField | App.tsx:88-93 | the new state is `Edit` of the old |
| AppState.App.Results | App.tsx:44-46 | the displayed results are recomputed from the current data, as `useMemo` does |
| AppState.App.Settled | App.tsx:56-78 | the try, catch and `finally` branches: the new state is `Settle` of the old for the settled outcome |
| AppState.App.HandleSearch | App.tsx:48-79 | the new state is `Search` of the old, for the given key and request outcome |
| SensitivityChart.SamplePrice | components/SensitivityChart.tsx:12-20 | sample i is the price times (10 + i) / 20 |
| SensitivityChart.PointAt | components/SensitivityChart.tsx:20-28 | the loop body: point i is sample price i with growth 100·(Ke − FCF/pᵢ), or no growth at a zero sample |
| SensitivityChart.ChartData | components/SensitivityChart.tsx:11-32 | exactly 21 points, point i being sample price i with growth 100·(Ke − FCF/pᵢ) and Ke held fixed |
| SensitivityChart.SweepEnds | components/SensitivityChart.tsx:13-20 | the first sample is 0.5·P, the last 1.5·P, and sample 10 is P |
| SensitivityChart.EvenSpacing | components/SensitivityChart.tsx:15-20 | consecutive samples differ by exactly P/20 |
| SensitivityChart.SamplesIncrease | components/SensitivityChart.tsx:15-20 | for P > 0 the samples strictly increase |
| SensitivityChart.NoZeroSample | components/SensitivityChart.tsx:20-24 | for P ≠ 0 no sample is 0, so every point has a finite growth |
| SensitivityChart.MiddlePointMatchesValuation | components/SensitivityChart.tsx:20-28 | with the engine's results, point 10 is (P, 100 × implicitGrowth) |

## Left out

- Rendering: the JSX, components/FinancialCard.tsx, components/InfoTooltip.tsx, the recharts configuration, the `slice(0, 5)` citation display and the `new URL(...).hostname` labels are presentation only.
- The model request: `GoogleGenAI`, `generateContent`, the prompt text and the network are external. The awaited answer (text and grounding chunks) or its thrown error is the `Reply` input, and the environment's `API_KEY` is the `apiKey` input.
- `JSON.parse`, the string-to-number step of `Number(...)` and `parseFloat` are foreign library code, so they are the abstract functions of `Library`. Regex matching is modelled only for the one pattern the code uses.
- IEEE-754 arithmetic is not modelled: numbers are reals, with no rounding, no `toFixed` formatting, and no Infinity from `parseFloat("Infinity")`.
- SensitivityChart.ChartData: where the source divides by a zero sample price (only when the price is 0) it produces NaN or an infinity. The model gives `None` there.
- JsRuntime.Trim: the contract says when the result is empty and that it neither starts nor ends with white space. It does not say which slice of the input is kept, because the only use, App.tsx:50, tests emptiness alone. TrimStart and TrimEnd each state their slice.
- JsRuntime.ToUpperCase: only ASCII letters are mapped. The full Unicode case mapping of `toUpperCase` (for example ß to SS) is library behaviour.
- GeminiService.CoerceStockData: a truthy currency that is not a string (a number, say) is stored untyped by the source. The model's currency is a string, so it uses "USD" for such a value.
- GeminiService.HasWebSource: `web.uri` and `web.title` are modelled as optional strings. Truthy non-string values are not modelled.
- `response.candidates?.[0]?.groundingMetadata?.groundingChunks` is abstracted as an optional list of chunks.
- AppState.App.UpdateField: only the five numeric fields are modelled, since those are the only keys the inputs pass. `keyof StockData` would also admit `ticker` and `currency`.
- AppState.App.HandleSearch: the handler runs as one step from submit to `finally`. The state while the request is in flight (`loading` true) is not observable in the model. Concurrent submits, which only the disabled button prevents, are not modelled, and neither is React's batching of setters.
- Logging with `console.error` and vite.config.ts (build-time environment injection) have no effect on the modelled state.
