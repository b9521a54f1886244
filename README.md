# Gemini summary extension for FreshRSS — a verified model

This project models the server-side core of a FreshRSS extension that summarises an
article with Google's Gemini generateContent API:

- **The summarize action** (`SummaryAction`). It reads the user's settings and applies
  their defaults. It refuses to run without an API key and a model, and looks the
  article up. For a YouTube link it builds a video context; for anything else it uses
  the article's plain text. It then runs the fallback ladder and wraps the outcome in
  the JSON envelope returned to the browser.
- **Request construction** (`RequestBuilder`, `YouTube`):
  - recognising a video id with the two link patterns;
  - choosing the v1 or v1beta endpoint;
  - the two payload shapes;
  - switching a URL to the other API version;
  - the three alternative payloads.
- **The fallback ladder** (`Negotiator`):
  - one request to the primary endpoint, one to the other API version when that URL
    differs, then up to three alternative payloads;
  - each reply is classified as makeGeminiRequest does, and either ends the ladder or
    moves it on.
- **Response extraction** (`ResponseParser`):
  - the guards on a decoded response and its first candidate;
  - the eight text shapes tried in priority order;
  - the join of trimmed text parts.
- **The model catalog** (`ModelCatalog`): the paginated listing of models, filtered to
  those that support generateContent and sorted by display name, behind a one-hour file
  cache. The cache is modelled as a map, as a class whose methods update it.
- **Configuration** (`GeminiConfig`, `Extension`):
  - the two clamp helpers;
  - the hook that puts the Summary button in front of an entry's content (a class
    whose content is rewritten in place);
  - the settings form handler (a class whose fields are assigned, then saved).
- **PHP semantics the code relies on** (`Json`, `PhpStrings`):
  - a decoded JSON value with `isset`, `??`, `empty`, `is_array` and `foreach`;
  - `trim`, the `\s+` collapse, `str_replace`, `strpos`, `substr` and decimal
    rendering.

Inputs the model does not compute are parameters:

| Parameter | Stands for |
|---|---|
| `Network` | a function from a request to curl's error, the HTTP status and the decoded body |
| `FloatFormat` | PHP's float-to-string conversion |
| `World.domText` | the DOM parser's text of an HTML document |
| `World.videoPage` | the scraped, entity-decoded title and description of a watch page |
| `Fingerprint` | `md5` |
| `Order` | `asort`'s display-name comparison |
| `UrlBuilder` | `Minz_Url::display` |
| `Casts` | PHP's `(int)` and `(float)` conversions |
| `now` | `time()` |

Some consequences of the code that are easy to miss, each proved in the model:

- **Numbers are not clamped on save.** The form handler stores the plain `(int)` and
  `(float)` casts of the submitted values, and the action does not clamp them either.
  The clamp helpers, which bound tokens to [100, 4096] and the temperature to
  [0.0, 2.0], are not applied on either path. See `FormValuesOf` and
  `UserConf.HandleConfigure`.
- **Some parse failures are retried.** A safety block, and an `error` object inside a
  200 body, make parseGeminiResponse throw an `Exception`. callGeminiAPI catches it and
  tries the next attempt, so neither is terminal. See `RefusedBodyMovesOn`.
- **The empty string can be a successful summary.** Shape 7 returns a string `content`
  without checking it is non-empty. See `EmptyStringContentAccepted`.
- **A failed page does not empty the catalog.** A failing page keeps the models gathered
  from earlier pages and also sets the error, so models and error are not mutually
  exclusive. See `GatherKeepsEarlierModels`.
- **The TTL bound is inclusive.** A cache entry exactly 3600 seconds old is still
  served. See `CachedRead`.
- **An error catalog is cached too.** A failed listing is cached for an hour like a
  good one. See `CacheMissStores`.
- **v1 models get at most two requests.** For a v1 model, alternative 0 is identical to
  the original payload, so the loop stops at once. See `V1LadderAtMostTwo`.
- **A non-200 reply without an `error` object is retried.** makeGeminiRequest returns
  null for it and the ladder moves on. See `Classify` and `StepOfOutcomes`.

## Model

| member | source | states |
|---|---|---|
| GeminiConfig.ClampMaxTokens | GeminiConfig.php:6-24 | the result lies in [100, 4096]; values inside are kept, values below become 100, values above become 4096 |
| GeminiConfig.ClampMaxTokensIdempotent | GeminiConfig.php:14-24 | clamping twice equals clamping once |
| GeminiConfig.ClampMaxTokensMonotone | GeminiConfig.php:14-24 | a larger request never gets a smaller budget |
| GeminiConfig.ClampTemperature | GeminiConfig.php:8-39 | the result lies in [0.0, 2.0]; values inside are kept, values outside go to the nearer bound |
| Json.LookupFound | Controllers/SummaryController.php:538-544 | reading `$x['k']` finds a value exactly when some member carries the key, and the value found is stored under it |
| Json.LookupAppend | Controllers/SummaryController.php:477-491 | a key added after the existing members is only found when none of them carries it |
| Json.Coalesce | Controllers/SummaryController.php:483-488 | `??` gives the value when it is set and the default otherwise |
| Json.Values | Controllers/SummaryController.php:684 | `foreach` over a list visits its items; over an object, its member values in order |
| PhpStrings.TrimStart | Controllers/SummaryController.php:702-703 | `ltrim` removes exactly the leading trim characters and leaves a suffix that does not start with one |
| PhpStrings.TrimEnd | Controllers/SummaryController.php:702-703 | `rtrim` removes exactly the trailing trim characters and leaves a prefix that does not end with one |
| PhpStrings.TrimIsTrimmedSlice | Controllers/SummaryController.php:702-703 | `trim` yields a contiguous slice of its input that neither starts nor ends with whitespace |
| PhpStrings.TrimOfTrimmed | Controllers/SummaryController.php:525 | `trim` leaves an already trimmed string unchanged |
| PhpStrings.TrimIdempotent | Controllers/SummaryController.php:525 | `trim` is idempotent |
| PhpStrings.TrimBlank | extension.php:44-45 | `trim` yields "" exactly when every character is a trim character |
| PhpStrings.DropSpaces | Controllers/SummaryController.php:524 | skipping a run of `\s` leaves a suffix that starts with a non-space and keeps every non-space character |
| PhpStrings.Collapse | Controllers/SummaryController.php:524 | no two adjacent whitespace characters remain and every whitespace is a plain space; the non-space characters are unchanged and in order; the result is empty only for an empty input, and starts with a space exactly when the input starts with whitespace |
| PhpStrings.DropSpacesRun | Controllers/SummaryController.php:524 | the leading `\s` run of a string is skipped whole, up to the first non-space character |
| PhpStrings.CollapseRun | Controllers/SummaryController.php:524 | a run of `\s` characters of any length, followed by a non-space or the end, becomes exactly one space |
| PhpStrings.CollapseWord | Controllers/SummaryController.php:524 | characters `\s` does not match are copied through unchanged; with CollapseRun this fixes the result of every input ("a b" stays "a b", "a \t\n b" becomes "a b") |
| PhpStrings.CollapseFixesNormal | Controllers/SummaryController.php:524 | a string already in that normal form is a fixed point of the collapse |
| PhpStrings.Prefix | Controllers/SummaryController.php:215 | `substr($s, 0, n)` is a prefix of the string: the whole string when it has at most n characters, exactly n characters otherwise |
| PhpStrings.ReplaceAllSkips | Controllers/SummaryController.php:357-359 | `str_replace` copies through unchanged a prefix in which the search string does not start |
| PhpStrings.ReplaceAllAbsent | Controllers/SummaryController.php:357-359 | `str_replace` with a search string that does not occur returns its input |
| PhpStrings.ReplaceAllAtStart | Controllers/SummaryController.php:357-359 | an occurrence at the start is replaced by the replacement |
| PhpStrings.NatToDecimal | Controllers/SummaryController.php:419 | the decimal form of a number is a non-empty string of digits |
| PhpStrings.NatToDecimalValue | Controllers/SummaryController.php:419 | those digits denote the number they were written for, with no leading zero unless the number is 0 |
| YouTube.AlternativeAt | Controllers/SummaryController.php:8 | an alternative of pattern 1 that matches at an offset captures a well-formed 11-character id |
| YouTube.PrefixedIdAt | Controllers/SummaryController.php:8 | pattern 1 anchored at an offset captures only well-formed ids |
| YouTube.FirstPrefixedFrom | Controllers/SummaryController.php:80 | the offset found is the leftmost one at which pattern 1 matches; none means no offset matches |
| YouTube.MatchPrefixed | Controllers/SummaryController.php:80-82 | `preg_match` of pattern 1 succeeds exactly when some offset matches, and its capture is a well-formed id |
| YouTube.NextNewline | Controllers/SummaryController.php:9 | `.*` reaches up to the first newline after the offset, or the end of the string |
| YouTube.LastVIdIn | Controllers/SummaryController.php:9 | the greedy `.*v=` settles on the last `v=<id>` within reach; none means there is none |
| YouTube.WatchQueryIdAt | Controllers/SummaryController.php:9 | pattern 2 anchored at an offset captures only well-formed ids |
| YouTube.FirstWatchQueryFrom | Controllers/SummaryController.php:80 | the offset found is the leftmost one at which pattern 2 matches; none means no offset matches |
| YouTube.MatchWatchQuery | Controllers/SummaryController.php:80-82 | `preg_match` of pattern 2 succeeds exactly when some offset matches, and its capture is a well-formed id |
| YouTube.MatchPattern | Controllers/SummaryController.php:7-10 | whatever pattern matches captures a well-formed id |
| YouTube.ExtractVideoId | Controllers/SummaryController.php:77-85 | the loop returns the capture of the first pattern, in list order, that matches, with every earlier pattern failing; it returns nothing exactly when no pattern matches; an id returned is 11 characters from `[a-zA-Z0-9_-]` |
| YouTube.NoPrefixedMatchWithoutY | Controllers/SummaryController.php:8 | pattern 1 cannot match at an offset that does not hold a `y` |
| YouTube.NoPrefixedMatchInHead | Controllers/SummaryController.php:8 | no match of pattern 1 starts inside a head without `y` |
| YouTube.AlternativeCapture | Controllers/SummaryController.php:8 | where an alternative followed by an id occurs, pattern 1 captures that id, whichever alternative it is |
| YouTube.LeadingAlternativeWins | Controllers/SummaryController.php:80-82 | behind a head without `y`, the first alternative followed by an id is the match |
| YouTube.LinkShapesAgree | Controllers/SummaryController.php:77-85 | watch, short and embed links with the same id all resolve to that id |
| YouTube.NewlineFreeTail | Controllers/SummaryController.php:9 | with no newline after the offset, `.*` reaches the end of the string |
| YouTube.GreedyFindsFinalV | Controllers/SummaryController.php:9 | a string ending in `v=<id>` is matched at that final `v=` |
| YouTube.QueryLinkFound | Controllers/SummaryController.php:77-85 | a watch link whose `v=` follows other query parameters is found by pattern 2 |
| YouTube.WatchQueryCapture | Controllers/SummaryController.php:9 | pattern 2 at a watch query captures the id after the final `v=` when no newline intervenes |
| YouTube.NoWatchQueryInHead | Controllers/SummaryController.php:9 | no match of pattern 2 starts inside a head without `y` |
| YouTube.TailHasNoNewline | Controllers/SummaryController.php:9 | a newline-free query followed by `v=<id>` holds no newline |
| YouTube.WatchQueryLinkFound | Controllers/SummaryController.php:80-82 | behind a head without `y`, a newline-free watch query ending in `v=<id>` is matched by pattern 2 with that id |
| YouTube.FirstWatchQueryIs | Controllers/SummaryController.php:80 | the leftmost match of pattern 2 is at an offset that matches when none before it does |
| YouTube.NoVideoWithoutY | Controllers/SummaryController.php:77-85 | a URL without `y` matches neither pattern, so it is not taken for a video |
| YouTube.VideoInfoFromPage | Controllers/SummaryController.php:203-216 | the description kept is a prefix of the scraped one: the whole of it up to 500 characters, exactly its first 500 characters when longer |
| YouTube.TitleSuffixDropped | Controllers/SummaryController.php:203-206 | a page title ending in " - YouTube" (with no other occurrence) is shown without that suffix |
| YouTube.TitleWithoutSuffixKept | Controllers/SummaryController.php:203-206 | a page title that does not contain " - YouTube" is shown as it is |
| YouTube.InfoLines | Controllers/SummaryController.php:121-126 | nothing without page data; otherwise the title line, followed by the description line exactly when the description is not `empty()` |
| YouTube.VideoContext | Controllers/SummaryController.php:117-129 | the context is the request header, the "Video URL: " line with the watch URL, then exactly the page data lines, then the fixed note |
| YouTube.VideoContextNamesVideo | Controllers/SummaryController.php:110-119 | the watch URL written after the header and label resolves back to the video id |
| YouTube.VideoContextInjective | Controllers/SummaryController.php:117-129 | two contexts for recognised ids are equal only for the same id and the same page data lines |
| YouTube.VideoIdShape | Controllers/SummaryController.php:77-85 | any id recognised is 11 characters from `[a-zA-Z0-9_-]` |
| YouTube.VideoIdIsTruthy | Controllers/SummaryController.php:58-67 | a recognised id is never falsy, so `if ($id)` agrees with `$id !== null` |
| YouTube.WatchUrlResolves | Controllers/SummaryController.php:110-118 | the watch URL named in the context resolves to the same id |
| RequestBuilder.PathVersionOfBase | Controllers/SummaryController.php:5-6 | the two bases read back as their own API versions |
| RequestBuilder.VersionAfterHost | Controllers/SummaryController.php:5-6 | the version of a URL on the API host is read from the path after the host |
| RequestBuilder.ApiUrlVersion | Controllers/SummaryController.php:87-102 | the endpoint is on v1 exactly when the model is in V1_MODELS, and on v1beta otherwise |
| RequestBuilder.BuildPayload | Controllers/SummaryController.php:132-274 | the payload's text is prompt, blank line and content; `role: user` is present exactly for v1 models; the generation config is temperature, maxOutputTokens, topP 0.9 and topK 40 |
| RequestBuilder.AlternativeApiUrl | Controllers/SummaryController.php:353-362 | a URL containing neither `/v1beta/` nor `/v1/` is returned unchanged |
| RequestBuilder.ApiHostOk | Controllers/SummaryController.php:5-6 | the API host holds no `/v` segment |
| RequestBuilder.NoVersionInHost | Controllers/SummaryController.php:355-358 | no version segment begins inside such a host |
| RequestBuilder.ContainsSkip | Controllers/SummaryController.php:356-358 | `strpos` on a string whose prefix holds no occurrence succeeds exactly when it does on the rest |
| RequestBuilder.DropFirstStaysClean | Controllers/SummaryController.php:356-358 | a tail without a version segment stays without one after its first character |
| RequestBuilder.BetaToV1 | Controllers/SummaryController.php:356-357 | switching a v1beta endpoint gives the v1 endpoint with the same tail |
| RequestBuilder.V1ToBeta | Controllers/SummaryController.php:358-359 | switching a v1 endpoint gives the v1beta endpoint with the same tail |
| RequestBuilder.V1PathSegments | Controllers/SummaryController.php:356-358 | a v1 endpoint URL contains the v1 segment and no v1beta segment, so the v1 branch is taken |
| RequestBuilder.V1PathReplaced | Controllers/SummaryController.php:358-359 | replacing the v1 segment of a v1 endpoint URL gives the v1beta URL with the same tail |
| RequestBuilder.AlternativeApiUrlRoundTrip | Controllers/SummaryController.php:353-362 | for an endpoint whose model and key hold no version segment, the switch changes the URL and moves to the other version; switching twice gives back the original |
| RequestBuilder.V1RoundTrip | Controllers/SummaryController.php:353-362 | from a v1 endpoint the switch changes the URL, reaches v1beta, and a second switch returns to the start |
| RequestBuilder.BetaRoundTrip | Controllers/SummaryController.php:353-362 | from a v1beta endpoint the switch changes the URL, reaches v1, and a second switch returns to the start |
| RequestBuilder.AlternativeRequestFormat | Controllers/SummaryController.php:438-503 | a payload without `contents[0].parts[0].text`, or an index outside 0..2, comes back unchanged |
| RequestBuilder.AlternativeFields | Controllers/SummaryController.php:473-495 | an alternative carries its body's keys, plus `generationConfig` exactly when the original had one set |
| RequestBuilder.AlternativeKeepsText | Controllers/SummaryController.php:441-495 | alternative 0 keeps the text where the original has it and adds `role: user`; 1 puts it under `prompt.text` and 2 under `input.text`, both without `contents`; the generation config is kept exactly when the original had one set |
| RequestBuilder.AlternativeConfigKept | Controllers/SummaryController.php:475-492 | alternative 0 reads temperature, maxOutputTokens, topP and topK from the original config, taking 0.7, 1024, 0.9 and 40 for any that is not set; alternatives 1 and 2 copy the original config verbatim |
| RequestBuilder.GenerationConfigFields | Controllers/SummaryController.php:155-160 | the generation config reads back its four values under their own keys |
| RequestBuilder.V1PayloadIsOwnAlternative | Controllers/SummaryController.php:446-488 | for a v1 model, alternative 0 is identical to the original payload |
| RequestBuilder.BetaPayloadAlternativesDiffer | Controllers/SummaryController.php:446-495 | for any other model, each of the three alternatives differs from the original payload |
| ResponseParser.StringArg | Controllers/SummaryController.php:702-703 | `trim` raises exactly on an array; a string is passed as it is |
| ResponseParser.KeptStep | Controllers/SummaryController.php:684-712 | one more iteration adds the part's non-empty trimmed text, or raises |
| ResponseParser.KeptFails | Controllers/SummaryController.php:701 | a part `trim` cannot take makes the whole loop raise |
| ResponseParser.KeptGrows | Controllers/SummaryController.php:688-703 | the loop body appends the trimmed text of a part `trim` accepts, unless it is empty |
| ResponseParser.KeptRaises | Controllers/SummaryController.php:701 | a part whose text is an array makes `trim` raise, and the whole loop raises with it |
| ResponseParser.AppendContribution | Controllers/SummaryController.php:701-702 | a trimmed text that is `empty()` adds nothing to `$text_parts`, and any other is appended |
| ResponseParser.CollectTextParts | Controllers/SummaryController.php:683-712 | the `foreach` collects the parts' trimmed texts as the front-to-back specification does, or raises |
| ResponseParser.CombineTextPartsLoop | Controllers/SummaryController.php:669-725 | combineTextParts returns "" for a non-array and otherwise the collected texts joined by single spaces |
| ResponseParser.PiecesSnoc | Controllers/SummaryController.php:684-712 | the front-to-back list of pieces grows at the back like the loop |
| ResponseParser.KeptIsPieces | Controllers/SummaryController.php:684-712 | the loop raises exactly when some part is an array; otherwise it keeps the non-empty trimmed texts of the parts, in their original order |
| ResponseParser.PiecesAreTrimmed | Controllers/SummaryController.php:702-703 | every kept piece is non-empty and has no whitespace at either end |
| ResponseParser.JoinOfTrimmed | Controllers/SummaryController.php:714 | joining such pieces gives a trimmed string that is empty exactly when there is no piece |
| ResponseParser.CombinedTextIsTrimmed | Controllers/SummaryController.php:669-725 | the joined text has no whitespace at either end, and is empty exactly when no part contributed text |
| ResponseParser.FirstShape | Controllers/SummaryController.php:583-659 | the first shape that finds a value or raises decides, and every shape before it found nothing; nothing is found only when every shape finds nothing |
| ResponseParser.FirstShapeAt | Controllers/SummaryController.php:583-659 | a shape that finds something decides when every earlier shape found nothing |
| ResponseParser.Extract | Controllers/SummaryController.php:583-666 | when some shape finds text, the first such shape's value is returned, and a returned text is always that one, non-empty or a string; a part that cannot be trimmed in the deciding shape is a PHP error; "no text found" is reported exactly when the candidate is an array and no shape holds text |
| ResponseParser.ExtractAt | Controllers/SummaryController.php:583-666 | for each of the eight shapes: when every earlier shape finds nothing, the text it finds is the result, and a part it cannot trim is a PHP error |
| ResponseParser.FoundIsText | Controllers/SummaryController.php:610-658 | every shape that finds something finds a non-empty value or a string |
| ResponseParser.ParseResponse | Controllers/SummaryController.php:530-667 | a top-level `error` is reported exactly when set; missing, non-array or empty `candidates` exactly when there is no error; a safety block exactly when candidates are present and the first one is blocked; a MAX_TOKENS candidate whose `model` content has no parts is refused exactly when it passes those guards; a text is returned only when every guard passed, and it is the extraction's result |
| ResponseParser.ContentPartsFirst | Controllers/SummaryController.php:584-596 | content parts that join to a non-empty text win, and that text is trimmed |
| ResponseParser.TruncatedAnswerStillUsed | Controllers/SummaryController.php:559-596 | a MAX_TOKENS candidate whose content still has parts is not refused; its joined part text is returned |
| ResponseParser.MaxTokensIsNotBlocking | Controllers/SummaryController.php:556 | MAX_TOKENS is not one of the safety reasons |
| ResponseParser.GuardsPassed | Controllers/SummaryController.php:538-582 | a response that passes every guard is decided by the text shapes alone |
| ResponseParser.EmptyStringContentAccepted | Controllers/SummaryController.php:642-647 | a candidate whose content is "" is accepted as a successful, empty text |
| ResponseParser.EmptyContentExtracted | Controllers/SummaryController.php:583-647 | for that candidate shapes 1 to 6 find nothing and shape 7 returns "" |
| Negotiator.Classify | Controllers/SummaryController.php:396-435 | a curl error is reported exactly when there is one; a non-200 status is an HTTP failure, which carries a message (with the status) exactly when the decoded body is truthy and has an `error`, and returns null otherwise; a 200 with a falsy decoded body is invalid JSON; success is a 200 with a truthy body, passed on as decoded |
| Negotiator.StepOf | Controllers/SummaryController.php:290-348 | no single attempt reports exhaustion |
| Negotiator.AltPlan | Controllers/SummaryController.php:327-348 | at most three alternatives are planned |
| Negotiator.SentBound | Controllers/SummaryController.php:279-351 | no more requests are sent than are planned |
| Negotiator.CallGeminiApi | Controllers/SummaryController.php:279-351 | the result is that of the first attempt of the plan that ends the ladder, or exhaustion; the requests sent are, in order, a prefix of the plan of the length the walk needs |
| Negotiator.Continues | Controllers/SummaryController.php:303-348 | the requests the alternatives' loop sends continue the prefix already sent, and the loop's outcome and count are those of the whole plan |
| Negotiator.TryAlternatives | Controllers/SummaryController.php:327-348 | the loop sends alternatives 0..2 in order until one equals the original, and stops at the first reply that ends the ladder; its result and requests are those of the alternatives' plan |
| Negotiator.Finished | Controllers/SummaryController.php:327-350 | with nothing left to send, every planned request was sent and the ladder is exhausted |
| Negotiator.Stops | Controllers/SummaryController.php:290-341 | sending the next planned request, when its reply ends the ladder, settles the outcome with that reply after one more request |
| Negotiator.Moves | Controllers/SummaryController.php:294-347 | sending the next planned request, when its reply falls through, leaves the rest of the plan to decide |
| Negotiator.WalkAfter | Controllers/SummaryController.php:279-351 | once the first k requests fell through, the remaining plan decides the outcome, and the count is k more than its own |
| Negotiator.SentSomething | Controllers/SummaryController.php:290 | a non-empty plan sends at least one request |
| Negotiator.WalkStops | Controllers/SummaryController.php:290-293 | an attempt that ends the ladder decides it after one request |
| Negotiator.WalkSkips | Controllers/SummaryController.php:291-299 | an attempt that falls through leaves the rest of the plan to decide |
| Negotiator.StepOfOutcomes | Controllers/SummaryController.php:290-348 | a null reply or a parse that throws an `Exception` moves on; a curl error, an API error with a message and a falsy 200 body end the ladder with their message; a parsed text ends it with the summary |
| Negotiator.RefusedBodyMovesOn | Controllers/SummaryController.php:538-558 | a 200 reply whose body has an `error` object or a safety-blocked first candidate does not end the ladder |
| Negotiator.StepAtNeverExhausts | Controllers/SummaryController.php:290-348 | no reply on any network makes an attempt report exhaustion |
| Negotiator.WalkFirstDecisive | Controllers/SummaryController.php:279-351 | the ladder ends at the first attempt that decides it, after exactly that many requests; it is exhausted, after every planned request, exactly when no attempt decides |
| Negotiator.AltPlanStep | Controllers/SummaryController.php:327-337 | an alternative that differs from the original is planned next, followed by the later ones |
| Negotiator.AltPlanIndex | Controllers/SummaryController.php:327-337 | the k-th planned alternative is alternative i+k sent to the primary URL, and it differs from the original |
| Negotiator.AltPlanOrder | Controllers/SummaryController.php:327-337 | the alternatives are sent in index order, to the primary URL, and none equals the original payload |
| Negotiator.PlanOrder | Controllers/SummaryController.php:279-351 | the order is the original request, then the other API version when its URL differs, then the alternatives in index order; at most five requests |
| Negotiator.PlanBound | Controllers/SummaryController.php:279-351 | between one and five requests are planned |
| Negotiator.V1LadderAtMostTwo | Controllers/SummaryController.php:303-331 | for a v1 model at most two requests are ever made |
| Negotiator.BetaLadderHasFive | Controllers/SummaryController.php:303-331 | for any other model whose endpoint holds no extra version segment, all five requests are planned |
| SummaryAction.Resolve | Controllers/SummaryController.php:24-29 | a missing key becomes "", a missing model "gemini-2.5-flash", missing numbers 1024 and 0.7 |
| SummaryAction.Respond | Controllers/SummaryController.php:64-74 | success exactly when the ladder produced a summary, which is passed through with the video flag; a thrown exception becomes an error "Failed to generate summary: " followed by its message, and exhaustion that prefix followed by the fixed "All request formats and API endpoints failed…" text; a TypeError leaves no envelope |
| SummaryAction.RespondErrorReadsBack | Controllers/SummaryController.php:69-73 | the error text of a failure is the prefix followed by the whole reason, which reads back after the prefix |
| SummaryAction.Answer | Controllers/SummaryController.php:18-75 | without a key or a model the configuration error is returned; a missing article gives "Article not found"; a success has an article and flags exactly the video links |
| SummaryAction.RequestSummary | Controllers/SummaryController.php:113-276 | the ladder runs on the model's endpoint with the model's payload, sending between one and five requests of its plan in order, at most two for a v1 model |
| SummaryAction.Summarize | Controllers/SummaryController.php:18-75 | the action's answer is as specified; no request is sent when the settings are incomplete or the article is missing; otherwise between one and five requests of the plan are sent, at most two for a v1 model |
| SummaryAction.SliceStaysNormal | Controllers/SummaryController.php:524-525 | trimming a collapsed string keeps it free of whitespace runs and of non-space whitespace |
| SummaryAction.HtmlToTextIsNormal | Controllers/SummaryController.php:505-528 | the article text has no whitespace at either end, no two whitespace characters in a row and no whitespace other than plain spaces |
| SummaryAction.ArticlePrompt | Controllers/SummaryController.php:225-274 | for a non-video link the payload text is the general prompt, a blank line and the normalised article text |
| SummaryAction.VideoPrompt | Controllers/SummaryController.php:104-173 | for a video link the payload text is the video prompt, a blank line and the context block; the block starts with the header and the "Video URL:" line naming the watch URL, which leads back to the same video, and ends with the fixed note |
| ModelCatalog.Find | GeminiModelService.php:82-84 | a key is listed exactly when some entry carries it |
| ModelCatalog.Put | GeminiModelService.php:82-84 | assigning a key stores the value under it; no other key changes; a new key is appended and an existing one keeps its place |
| ModelCatalog.PutDistinct | GeminiModelService.php:82-84 | assigning a key keeps the keys distinct |
| ModelCatalog.KeyOf | GeminiModelService.php:77-85 | a model is keyed by its name when that is truthy, else by its base id when that is truthy, else dropped |
| ModelCatalog.AddModel | GeminiModelService.php:72-86 | a model without generateContent support or without a key leaves the listing alone; otherwise its display name is stored under its key and no other key changes |
| ModelCatalog.AddModels | GeminiModelService.php:72-86 | the page's loop keeps keys distinct |
| ModelCatalog.AddModelsKeys | GeminiModelService.php:72-86 | after a page a key is listed exactly when it was before or some kept model of the page carries it |
| ModelCatalog.LastModelWins | GeminiModelService.php:82-84 | the display name under a key is that of the last kept model carrying it |
| ModelCatalog.FetchError | GeminiModelService.php:64-66 | the error is "Unable to fetch models list (HTTP ", the status in decimal and ")", then " - " and the first 200 characters of curl's error exactly when that error is not `empty()`, then a period |
| ModelCatalog.GatherKeepsEarlierModels | GeminiModelService.php:42-89 | models gathered before a failing page are kept |
| ModelCatalog.GatherError | GeminiModelService.php:64-68 | the error is empty or the message of a failing page, and empty when no page fails |
| ModelCatalog.GatherOnlySupported | GeminiModelService.php:72-86 | every listed id comes from a reply's model that supports generateContent |
| ModelCatalog.Insert | GeminiModelService.php:96 | insertion adds the entry to the others |
| ModelCatalog.SortByDisplay | GeminiModelService.php:96 | `asort` keeps exactly the same (id, display name) entries |
| ModelCatalog.InsertKeys | GeminiModelService.php:96 | insertion lists the ids listed before plus the new one, each once |
| ModelCatalog.InsertBounded | GeminiModelService.php:96 | a common lower bound still bounds every entry after insertion |
| ModelCatalog.InsertSorted | GeminiModelService.php:96 | insertion into a sorted listing leaves it sorted |
| ModelCatalog.SortByDisplaySorted | GeminiModelService.php:96 | `asort` orders the listing by display name |
| ModelCatalog.SameEntriesSameKeys | GeminiModelService.php:96 | listings with the same entries list the same ids |
| ModelCatalog.SortByDisplayKeys | GeminiModelService.php:96 | sorting keeps the set of ids |
| ModelCatalog.SortByDisplayDistinct | GeminiModelService.php:96 | each id is still listed once after sorting |
| ModelCatalog.Fetch | GeminiModelService.php:91-97 | the catalog lists as many models as were gathered; with none, the error is the failing page's message or, when no page failed, "No models supporting generateContent were returned."; with some, the gathered error is kept as it is |
| ModelCatalog.FetchShape | GeminiModelService.php:33-103 | the catalog lists each id once, sorted by display name, and every id came from a model that supports generateContent |
| ModelCatalog.GatherDistinct | GeminiModelService.php:42-89 | pagination keeps ids distinct |
| ModelCatalog.AddPageModels | GeminiModelService.php:72-86 | the `foreach` over a page adds its models as the page specification does |
| ModelCatalog.GatherStep | GeminiModelService.php:42-89 | a successful page with a next token adds its models and goes on with the next reply |
| ModelCatalog.FetchModels | GeminiModelService.php:33-103 | the do…while over the replies, then the empty-listing message or the sort, computes the fetch specification |
| ModelCatalog.CacheKey | GeminiModelService.php:18 | every cache key starts with the "gemini_models_" prefix |
| ModelCatalog.CachedRead | GeminiModelService.php:105-130 | data comes back exactly for a complete entry at most 3600 seconds old, unchanged and without touching the store; an expired complete entry is deleted; anything else is a miss |
| ModelCatalog.EmptyKeyShortCircuits | GeminiModelService.php:13-15 | an empty key gives no models and no error, with no fetch and no cache change |
| ModelCatalog.CacheHit | GeminiModelService.php:17-22 | a fresh complete entry is returned verbatim, with no fetch and no write |
| ModelCatalog.CacheMissStores | GeminiModelService.php:24-30 | otherwise the models are fetched and the result, models or error, is stored under the key with the current time |
| ModelCatalog.StoredThenHit | GeminiModelService.php:18-30 | within an hour of a fetch the same key is answered from the cache with the same data and nothing is fetched |
| ModelCatalog.ModelCache.GetFromCache | GeminiModelService.php:105-130 | reads, and deletes an expired entry, as CachedRead states |
| ModelCatalog.ModelCache.SetCache | GeminiModelService.php:132-141 | the entry under the key becomes the current time and the data |
| ModelCatalog.ModelCache.GetModels | GeminiModelService.php:11-31 | the catalog, the store afterwards and whether a fetch happened are those of getModels' specification |
| Extension.ButtonMarkup | extension.php:27-31 | the markup starts with the wrapper and the button whose `data-request` is the URL |
| Extension.Unwrap | extension.php:27-33 | whatever is recovered from wrapped content wraps back to it |
| Extension.UnwrapWrapped | extension.php:27-33 | the old content is a suffix of the new one and can be read back |
| Extension.WrappedInjective | extension.php:27-33 | distinct contents stay distinct once wrapped with the same button |
| Extension.AddSummaryButton | extension.php:17-35 | the content becomes the markup for the Summary/summarize URL of the entry's id followed by the old content; the id is unchanged |
| Extension.Param | extension.php:40-54 | an absent parameter gives its default |
| Extension.ChosenModel | extension.php:40-48 | with "custom" selected and a custom id that is not `empty()`, the stored model is `trim` of that id; otherwise it is the selected value |
| Extension.BlankCustomModelStoresEmpty | extension.php:44-45 | a whitespace-only custom id stores the empty string |
| Extension.EmptyCustomModelStoresChoice | extension.php:44-47 | choosing "custom" with an empty custom id stores the literal "custom" |
| Extension.MissingSelectionStoresDefault | extension.php:40-47 | without a selection "gemini-2.0-flash-latest" is stored |
| Extension.FormValuesOf | extension.php:50-54 | the numbers are the plain casts of the submitted strings, or 1024 and 0.7 when absent, not clamped; an absent key is stored as "" |
| Extension.UserConf.HandleConfigure | extension.php:37-57 | on a POST every field takes the form's value and the configuration is saved once; otherwise nothing changes |

## Left out

- curl, its options, timeouts and status retrieval: a reply is an input (`Network`, `Page`).
- `json_encode` and `json_decode`: the model works on decoded values. A body that does
  not decode is `null`.
- The DOMDocument/XPath part of htmlToText: the parser's text is an input
  (`World.domText`). Only the collapse-and-trim step is modelled.
- Scraping the watch page in getYouTubeVideoInfo (the HTTP fetch, the two regular
  expressions, `html_entity_decode`): the scraped title and description are an input
  (`World.videoPage`). The " - YouTube" removal and the 500-character cap are modelled.
- Characters and bytes are not distinguished. `substr`, `mb_substr` and the regular
  expressions work on a sequence of characters.
- PHP's float-to-string conversion is a parameter (`FloatFormat`).
- `md5`, the temporary directory, file reads, writes and deletes, and `time()`: the
  fingerprint is a parameter, the cache directory is a map and the clock is `now`. A
  cache file that cannot be read or decoded is one `Unreadable` entry.
- Concurrent access to the cache files is not modelled.
- The exact `SORT_NATURAL | SORT_FLAG_CASE` order is a parameter (`Order`).
- SortByDisplay: stability among equal display names is not stated. Only order and the
  preservation of entries are proved.
- PHP's conversion of numeric-string array keys to integers: a model id is always a
  string key here.
- The typed records for model entries and pages: a `supportedGenerationMethods` value
  that is not an array, which would make `in_array` raise, is outside `ModelInfo`.
- The `catch (Exception)` of fetchModelsFromAPI (line 98) has no exception to catch in
  the model.
- FetchModels and ModelCache.GetModels require that some reply ends the listing
  (`Terminates`). An endless run of replies with a next-page token is not modelled.
- The request parameters, the URL builder and PHP's `(int)`/`(float)` casts are
  parameters (`Params`, `UrlBuilder`, `Casts`).
- ClampTemperature works on reals: NaN and the string-to-float cast are not modelled.
- ClampMaxTokens takes the value after PHP's `(int)` cast. The cast itself is not
  modelled, so a float argument (150.9 becomes 150) or a string argument ("abc" becomes
  0, then 100) has to be converted by the caller.
- NatToDecimal: its own contract states only that the result is a non-empty digit
  string. The number the digits denote is stated by NatToDecimalValue, kept apart so
  that the recursive value facts stay out of proofs that only render a number.
- Collapse: its own contract states the shape of the result (no runs, plain spaces,
  the same non-space characters). The result for each run is stated by CollapseRun and
  CollapseWord, which together fix the output for every input.
- The entry lookup, the user-configuration store, `save()` beyond a counter, the JSON
  output and `header()`, and hook and controller registration in `init()`: this is
  framework glue. The article found is an input, and `save()` is counted.
- `DEBUG_MODE` and `error_log`: they have no effect on behaviour.
- static/script.js (browser UI) and gemini_debug.php (a command-line diagnostic) are not
  part of this model.
- Messages of exceptions that callGeminiAPI catches and discards (parse failures) are
  kept only as a reason, not as text. Rejected(ApiErrorInBody) keeps the message value.
