# Shared Skillet core, modelled in Dafny

Shared Skillet is a cooking assistant. This project models its core, as found in `app1.py`
and `app.py`:

- **Completion gateway** (`call_euron_api`, `get_euron_api_key`).
  - The API key is read from the secrets.
  - A chat completion is requested from the primary model, with a fallback model listed after it.
  - HTTP 500 and timeouts are retried with exponential back-off; every other failure ends the call at once.
  - The reply text is read defensively from one of three shapes.
  - Module `Gateway` (`gateway.dfy`).
  - The network is a parameter `respond`, which gives the outcome of the n-th request of the call.
  - The call is specified by a state machine function (`Machine`), and the imperative method `CallEuronApi` is proved to produce exactly its result, its list of requests (one model name per request) and its list of sleeps.
- **Relevance engine** (`smart_menu_search`).
  - Each dish of the menu is scored against the query by name, category and taste containment, by a similarity ratio and by shared keywords.
  - Dishes scoring above 20 are kept, sorted by score (highest first, stable) and cut to `limit`.
  - Module `MenuSearch` (`menu_search.dfy`), which also holds the menu data (`MenuItem`, `MenuItems`) and the Menu Explorer's category/taste filter.
  - `difflib.SequenceMatcher(...).ratio()` is the parameter `sim`, assumed to lie in [0, 1] and to be 0 for an empty first string against a non-empty second one.
- **Preference extraction** (`extract_preferences` in `app.py`).
  - A JSON reply updates the cooking style, expertise level and dietary restrictions held in the session.
  - Module `Preferences` (`preferences.dfy`) holds a `PreferenceStore` class whose dictionary field is updated in place.
  - The store starts from the defaults of `app1.py`.
- **Python semantics** the code relies on, written out explicitly:
  - `str.strip`, `str.lower`, substring `in`, `str(int)`: module `PyText`.
  - The JSON values `json.loads` produces, and `in`, `[]`, `len`, `[0]`, `.strip()`, `set()` on them, including the exception each raises: module `PyJson`.

Some behaviour of the code differs from what a reader of its names and comments might
expect; the model follows the code:

- **Fallback model.** The comment at `app1.py:324` says the primary model is tried first, then the fallback model. In the code, the last attempt of the primary model always returns, so the fallback model is never requested when `retries >= 1` (`Gateway.CallNeverFallsBack`). The "failed with both models" message is returned only when `retries <= 0`, and then no request is sent (`Gateway.ExhaustedOnlyWithoutRetries`).
- **Which errors are retried.** Of the HTTP errors, only status 500 is retried (`app1.py:355`, `Gateway.Transient`); every other 4xx or 5xx status ends the call.
- **Delays `time.sleep` refuses.** `time.sleep` raises ValueError for a negative delay. CPython also raises OverflowError for a delay above 9223372036 s, because it holds the delay as a signed 64-bit count of nanoseconds. The sleep is called inside the `except` handlers, so either exception leaves `call_euron_api`. The model ends the call with `SleepFailed` there.
  - `Gateway.RefusedDelayRaises` covers an initial delay that is refused outright.
  - `Gateway.LongScheduleOverflows` shows that the doubling overflows after 34 transient outcomes in a row from the default delay of 2.
  - The callers in `app1.py` use the default delay of 2 and at most 3 attempts.
- **Empty query.** One might expect an empty query to find nothing. In the code, `""` is contained in every name, category and taste, so every dish with a non-empty name scores 170. The search therefore returns the first `limit` dishes of the menu in menu order (`MenuSearch.EmptyQueryReturnsPrefix`).
- **Exact name match.** One might expect a query equal to a dish's name to rank that dish first. The model does not state this, because it does not hold for every similarity function or catalogue.
  - With `sim` left abstract, the ratio of a string with itself is not fixed.
  - Another dish whose name contains the query can score more when it also gets category or taste bonuses that the exact match lacks.
  - Keyword bonuses cannot tip the balance, since every keyword in such a query is also in the matching dish's name.

  For the app's own menu, with difflib's ratio of 1.0 for equal strings, the exact match does rank first. What is proved in general is that every dish left out of the result ranks after every dish shown (`MenuSearch.SearchReturnsTop`).

## Model

| member | source | states |
|---|---|---|
| PyText.Strip | app1.py:345 | `.strip()` yields a string that neither starts nor ends with whitespace and is no longer than its input |
| PyText.StripRemovesOnlyWhitespace | app1.py:345 | the stripped text is a contiguous slice of the input, with only whitespace before and after it |
| PyText.StripFixesStripped | app1.py:345 | stripping a string without whitespace at its ends changes nothing; stripping is idempotent |
| PyText.IsSubstring | app1.py:391-401 | Python's `in` between two strings: the needle is a prefix of the haystack or of one of its suffixes (the empty string is in every string) |
| PyText.SubstringAt | app1.py:391 | `needle in haystack` holds whenever the needle occurs at some offset |
| PyText.SubstringOffset | app1.py:391 | conversely, `needle in haystack` holds only when the needle occurs at some offset, which is returned; with `SubstringAt`, `IsSubstring` is exactly Python's `in` on strings |
| PyText.IntToDecimal | app1.py:360 | `str(i)` of an integer: at least one character, starting with a minus sign exactly when `i` is negative |
| PyText.DecimalRoundTrip | app1.py:360 | reading back the digits that `str(n)` writes gives `n` |
| PyText.Lower | app1.py:387 | `.lower()` keeps the length and lowers each character on its own (ASCII letters) |
| PyText.LowerIdempotent | app1.py:387 | lowering an already lowered string changes nothing |
| PyJson.Truthy | app.py:90 | `bool(v)`: None, False, 0, and empty strings, lists and dicts are false |
| PyJson.Contains | app1.py:342-348 | `key in v`: a dict tests its keys, a list its elements, a string its substrings; any other value raises TypeError |
| PyJson.GetItem | app1.py:343-349 | `v[key]`: a dict with the key yields its value; a dict without it raises KeyError; any other value raises TypeError |
| PyJson.Len | app1.py:342 | `len(v)` of a dict, list or string; any other value raises TypeError |
| PyJson.ItemZero | app1.py:343 | `v[0]`: the first element of a non-empty list or string; IndexError when empty, KeyError for a dict, TypeError otherwise |
| PyJson.CallStrip | app1.py:345-349 | `v.strip()` strips a string; any other value raises AttributeError |
| PyJson.ToSet | app.py:97-98 | `set(list)` holds exactly the list's elements; a successful `set()` holds only hashable values (a list or dict element raises TypeError) |
| Gateway.GetApiKey | app1.py:303-311 | a key is returned iff `secrets["euron"]["api_key"]` exists and is truthy, and it is that value; a missing section, missing key, wrong type or empty key gives None |
| Gateway.Selects | app1.py:344-348 | the test of each reply shape: `'message' in choice and 'content' in choice['message']`, `'text' in choice`, `'content' in choice`, with the exceptions they raise |
| Gateway.Read | app1.py:345-349 | the value a selected shape reads is stripped; a read that fails gives the exception raised |
| Gateway.FirstShape | app1.py:344-349 | content comes only from one of the shapes tried, read and stripped |
| Gateway.ExtractContent | app1.py:342-351 | extracted text is stripped; a reply without "choices", or with an empty choices list, has no valid content |
| Gateway.ReadsFirstChoice | app1.py:342-343 | when `choices` is a non-empty list whose first element is a dict, the content is read from that first choice alone |
| Gateway.MessageContentWins | app1.py:344-345 | a first choice with `message.content` returns that content stripped, whatever other fields it has |
| Gateway.SkipsMessageContent | app1.py:344-346 | a choice without `message`, or whose message lacks `content`, is read by the text and flat-content shapes only |
| Gateway.TextComesSecond | app1.py:346-347 | without message content, a `text` field is returned stripped, before any flat `content` |
| Gateway.FlatContentComesLast | app1.py:348-349 | with neither message content nor `text`, a flat `content` field is returned stripped |
| Gateway.NoShapeNoContent | app1.py:350-351 | a first choice with none of the three shapes yields "No valid response content" |
| Gateway.Settle | app1.py:336-381 | an attempt that settles returns an HTTP error iff the status is 400-599, the timed-out error iff it timed out, the reply's content only for a non-error JSON reply holding it, and never "not configured", the both-models failure or the sleep error |
| Gateway.ErrorText | app1.py:317-383 | the text after "Error: " of each failure the call returns, with the status and body of an HTTP error and the retry count of the both-models failure |
| Gateway.Message | app1.py:317-383 | the returned string is the reply's text for an answer and starts with "Error: " for every failure; a sleep error returns no string |
| Gateway.IsHttpError | app1.py:337 | `raise_for_status()` raises for statuses 400 to 599 |
| Gateway.Transient | app1.py:353-364 | the outcomes the call may retry: HTTP status 500 exactly, and a timeout |
| Gateway.Retried | app1.py:355-364 | an outcome is retried when it is transient and `attempt < retries - 1` |
| Gateway.Delay | app1.py:356-365 | the back-off delay after attempt `attempt` is `initial_delay * 2**attempt` |
| Gateway.SleepAccepts | app1.py:358-367 | `time.sleep` accepts a delay from 0 to 9223372036 s; it raises ValueError below and OverflowError above |
| Gateway.Sleeps | app1.py:355-367 | an attempt sleeps and continues iff it is retried and `time.sleep` accepts its delay |
| Gateway.Stop | app1.py:353-381 | an attempt that does not sleep ends the run: with the sleep error when it was retried, otherwise settled by its outcome |
| Gateway.DelaySign | app1.py:356 | the back-off delay is negative exactly when the initial delay is, and the first delay is the initial delay |
| Gateway.DelayGrows | app1.py:356-365 | with a non-negative initial delay, later delays are never shorter |
| Gateway.ScheduleFitsEach | app1.py:355-367 | when the initial delay is non-negative and the last possible delay is at most 9223372036 s, every delay of the schedule is slept |
| Gateway.Attempt | app1.py:335-381 | one pass of the attempt loop sleeps iff the outcome is HTTP 500 or a timeout, attempts remain and `time.sleep` accepts the delay `initial_delay * 2**attempt`; a retried outcome with a refused delay ends the call with the sleep error; any other outcome returns its settled result |
| Gateway.Backoff | app1.py:356-358 | the delay is `initial_delay * 2**attempt`; it is slept when `time.sleep` accepts it, and otherwise `time.sleep` raises |
| Gateway.Machine | app1.py:325-383 | the retry loop as a state machine: each attempt of each model in order sends one request; a sleeping attempt moves to the next one, any other attempt ends the run, and running out of attempts moves to the next model |
| Gateway.Finish | app1.py:334-383 | the result of a run's end: the settled outcome, the summary error of the last line, or the escaping sleep error |
| Gateway.Call | app1.py:313-383 | the specification of the call: no key gives "not configured" with no request; otherwise the machine from the first attempt of the primary model |
| Gateway.CallEuronApi | app1.py:313-383 | the call returns (or raises) exactly the result, the requests and the sleeps of the state machine; "not configured" iff there is no key, and then no request is sent |
| Gateway.MachineStep | app1.py:334-369 | a sleeping attempt sends one request for the current model, sleeps its delay and moves to the next attempt; any other attempt sends one request and ends the run, settled by its outcome or with the sleep error |
| Gateway.MachineNextModel | app1.py:325-334 | when a model's attempts run out, the run goes on with the next model from attempt 0 |
| Gateway.RunStaysOnModel | app1.py:334-381 | once a model has an attempt left, the run ends on that model (never by running out of models), after between 1 and the remaining number of requests, with one sleep fewer than requests |
| Gateway.RunSleepsDouble | app1.py:355-367 | the k-th sleep inside a model is `initial_delay * 2**(attempt + k)` |
| Gateway.RunRetriesTransients | app1.py:334-381 | every request but the last of a model had a transient outcome and slept; the last does not sleep and ends the run, settled by its outcome or, if it was retried, with the sleep error |
| Gateway.NoAttemptsExhausts | app1.py:325-383 | with `retries <= 0` no request is sent and the run ends without an outcome |
| Gateway.CallNeverFallsBack | app1.py:325-383 | with a key and `retries >= 1`, only the primary model is requested, 1 to `retries` times, and the both-models failure is never returned |
| Gateway.CallRetrySchedule | app1.py:334-369 | the sleeps are `initial_delay * 2**k` for k = 0, 1, ...; every request but the last failed transiently; the last request ends the call, and when `time.sleep` accepts every delay of the schedule its settled outcome is the result |
| Gateway.RefusedSleepEndsCall | app1.py:353-367 | transient outcomes whose delays are accepted up to attempt `n`, whose delay is refused, end the call with that sleep error after `n + 1` requests and `n` sleeps |
| Gateway.DoublingFromTwo | app1.py:356-358 | from an initial delay of 2, the delay after attempt 32 is accepted and the one after attempt 33, 17179869184 s, is not |
| Gateway.LongScheduleOverflows | app1.py:355-367 | from an initial delay of 2, 34 transient outcomes in a row end the call with OverflowError from the sleep of 2 * 2**33 s, after 34 requests and 33 sleeps |
| Gateway.RefusedDelayRaises | app1.py:355-367 | with an initial delay `time.sleep` refuses, the call sends one request and then either settles its outcome or, when that outcome is retried, raises from `time.sleep` |
| Gateway.ExhaustedOnlyWithoutRetries | app1.py:383 | the both-models failure is returned iff a key exists and `retries <= 0`, and then nothing is sent |
| Gateway.RequestsBounded | app1.py:325-383 | a call never sends more than `retries` requests |
| Gateway.PermanentFailureStops | app1.py:353-381 | an outcome that is neither HTTP 500 nor a timeout ends the call after one request, with no sleep and no fallback |
| Gateway.PersistentServerError | app1.py:353-360 | when `time.sleep` accepts every delay of the schedule, HTTP 500 on every attempt gives `retries` requests and the HTTP 500 error of the last |
| Gateway.PersistentTimeout | app1.py:362-369 | when `time.sleep` accepts every delay of the schedule, a timeout on every attempt gives `retries` requests and the timed-out error |
| Gateway.SettlesToAnswer | app1.py:336-349 | a non-error response whose JSON holds content returns that content |
| Gateway.RetriedOnce | app1.py:353-359 | when `time.sleep` accepts the initial delay, a transient first outcome followed by a permanent one gives two requests of the primary model and one sleep of `initial_delay` |
| Gateway.SuccessOnSecondAttempt | app1.py:353-359 | when `time.sleep` accepts the initial delay, HTTP 500 and then a successful reply returns the reply's stripped content from the primary model, after one sleep of `initial_delay` |
| MenuSearch.SharedKeywords | app1.py:399-402 | the keyword loop: how many of the keywords are in both the query and the dish name, at most the number of keywords |
| MenuSearch.SharedKeywordsCountsSet | app1.py:399-402 | for distinct keywords, the bonus count is the number of keywords contained in both the query and the dish name |
| MenuSearch.Relevance | app1.py:390-402 | the score of a dish for a lowered query: 90 if the query is in the name, 50 if in the category, 30 if in the taste, 40 times the similarity ratio, and 25 per keyword shared with the name |
| MenuSearch.Score | app1.py:387-402 | the query is lowered before it is compared; category and taste are lowered too |
| MenuSearch.KeywordsDistinct | app1.py:399 | the ten keywords are pairwise distinct |
| MenuSearch.KeywordBonusCountsShared | app1.py:399-402 | the keyword term is 25 times the number of the ten keywords contained in both the lowered query and the lowered dish name |
| MenuSearch.Candidates | app1.py:403-404 | the kept pairs are exactly the dishes scoring above 20, each with its score, in menu order |
| MenuSearch.Insert | app1.py:405 | inserting adds exactly one element and keeps the others |
| MenuSearch.SortByScore | app1.py:405 | sorting is a permutation of the candidates |
| MenuSearch.InsertRanked | app1.py:405 | inserting a dish earlier in the menu than all of a ranked list keeps it ranked (stability) |
| MenuSearch.SortRanks | app1.py:405 | sorting candidates in menu order ranks them by descending score, ties in menu order |
| MenuSearch.SortKeepsSorted | app1.py:405 | sorting a list already in non-increasing score order leaves it unchanged |
| MenuSearch.PrefixSlice | app1.py:406 | `xs[:limit]` is a prefix of length `min(limit, len)`, or all but the last `-limit` for a negative limit |
| MenuSearch.Top | app1.py:403-406 | the candidates above 20, sorted by score and cut to `limit` |
| MenuSearch.Ranking | app1.py:386-406 | the ranked entries of the search: each dish of the catalogue scored against the query, then `Top` |
| MenuSearch.Search | app1.py:386-406 | the specification of `smart_menu_search`: the dishes of the ranking, in ranked order |
| MenuSearch.TopEntries | app1.py:403-406 | the kept entries are ranked, at most `limit` of them, each a dish with its score above 20 |
| MenuSearch.TopIsBest | app1.py:405-406 | a dish above the threshold that is left out implies the result is full and every shown dish ranks before it |
| MenuSearch.TopIsComplete | app1.py:403-406 | with a limit covering the menu, a dish is ranked iff it scores above 20 |
| MenuSearch.ItemsOf | app1.py:406 | the result lists the dish of each ranked entry, in ranked order |
| MenuSearch.ScoreItem | app1.py:390-402 | the loop body adds up the name, category, taste, similarity and keyword bonuses to the dish's relevance |
| MenuSearch.SmartMenuSearch | app1.py:386-406 | the imperative search returns exactly the top-ranked dishes of the specification |
| MenuSearch.SearchRanked | app1.py:386-406 | the search result is ranked by score, stable, without repeats, holds at most `limit` dishes, and each has its own score above 20 |
| MenuSearch.SearchReturnsTop | app1.py:403-406 | every eligible dish left out ranks after every dish returned, and the result is then full |
| MenuSearch.UnlimitedSearchMembers | app1.py:671 | with `limit` at least the menu size, a dish is returned iff it is on the menu and scores above 20 |
| MenuSearch.ScoreBounds | app1.py:390-402 | a score lies between 0 and 460 |
| MenuSearch.NameMatchScores | app1.py:391-392 | a query contained in the dish name scores at least 90, so the dish is always a candidate |
| MenuSearch.EmptyQueryScore | app1.py:387-402 | the empty query scores every dish with a non-empty name exactly 170 |
| MenuSearch.NoKeywordInEmpty | app1.py:400-402 | no keyword is contained in the empty query |
| MenuSearch.EqualScoresCandidates | app1.py:403-404 | when every score is 170, every dish is a candidate, in menu order |
| MenuSearch.EmptyQueryRanking | app1.py:403-406 | for the empty query the ranking is the first `limit` dishes in menu order, each scoring 170 |
| MenuSearch.EmptyQueryReturnsPrefix | app1.py:386-406 | the empty query returns the first `limit` dishes of the catalogue |
| MenuSearch.MenuNamesNonEmpty | app1.py:230-251 | the menu has 20 dishes, each with a non-empty name |
| MenuSearch.EmptyQueryOnMenu | app1.py:386-406 | an empty search with the default limit 3 shows Chicken Mandi, Kabuli Pulao and Chicken Dum Biryani |
| MenuSearch.KeepFacet | app1.py:672-675 | the filtered list is never longer than the list it filters |
| MenuSearch.KeepFacetMembers | app1.py:672-675 | the filter keeps exactly the dishes with the chosen category or taste |
| MenuSearch.KeepFacetAllMatch | app1.py:672-675 | a list whose dishes all have the chosen value passes the filter unchanged |
| MenuSearch.KeepFacetAppend | app1.py:672-675 | the filter keeps order and repeats: filtering a concatenation concatenates the filtered parts |
| MenuSearch.KeepFacetSingle | app1.py:672-675 | a single dish is kept exactly when it has the chosen value |
| MenuSearch.Filter | app1.py:672-675 | a drop-down choice of "All" keeps the list; any other choice filters it |
| MenuSearch.ExploreMenu | app1.py:669-675 | the dishes shown are the search result in ranked order (the whole menu for an empty query), filtered by category and then by taste unless "All"; a dish is shown iff it is in that list and matches both choices |
| Preferences.Lookup | app.py:90 | on a dict, the test passes iff the key is present with a truthy value, and yields that value |
| Preferences.Union | app.py:97-99 | the union succeeds iff the stored and extracted values can both be made sets, and is then their union |
| Preferences.MergeParsed | app.py:89-101 | the three merge steps on a parsed reply, in order, stopping at the first exception; dietary restrictions are assigned only when nothing raised |
| Preferences.MergeReply | app.py:76-106 | a failed completion call or a reply that is not JSON assigns nothing and fails; a parsed reply is merged |
| Preferences.SetToList | app.py:99 | `list(set)` holds each element of the set exactly once |
| Preferences.PreferenceStore.constructor | app1.py:278-285 | a session starts with the five default preferences |
| Preferences.PreferenceStore.ExtractPreferences | app.py:76-106 | as written: the assignments made before any exception stay in place, no other key changes, and True is returned iff the merge raised nothing and assigned a field |
| Preferences.PreferenceStore.ExtractPreferencesAtomic | app.py:76-106 | corrected: the same merge applied all or nothing; False always leaves the preferences unchanged |
| Preferences.FailedReplyAssignsNothing | app.py:102-106 | a failed completion call or a reply that is not JSON assigns nothing and reports failure |
| Preferences.ScalarFieldsNeedNonEmptyValue | app.py:90-95 | cooking style and expertise level are assigned iff present with a truthy value, and to that value |
| Preferences.ObjectFailsOnlyAtUnion | app.py:89-103 | on a JSON object, the merge fails iff the dietary restrictions are truthy and their union raises |
| Preferences.DietaryIsUnion | app.py:96-99 | the new dietary restrictions are the union of the stored and extracted sets and keep every stored one |
| Preferences.StoredListIsUnion | app.py:96-100 | the stored list has no repeats and holds exactly the old and new restrictions |
| Preferences.PartialUpdateReportsFalse | app.py:89-103 | a reply with a cooking style and numeric dietary restrictions changes the cooking style, yet the merge fails and False is reported |

## Left out

- The request payload, headers, `temperature`, `max_tokens`, the URL and the 5-second timeout are not modelled; a request is recorded by its model name only.
- Logging is not modelled. `time.sleep` is recorded as the list of delays, not performed.
- The ValueError or OverflowError that `time.sleep` raises for a delay it refuses is the result `SleepFailed`, not an exception; `Gateway.Message` gives no string for it, since the call returns none. Which of the two is raised is not recorded.
- Gateway.PersistentServerError, Gateway.PersistentTimeout, Gateway.RetriedOnce and Gateway.SuccessOnSecondAttempt are stated for delays `time.sleep` accepts, as every caller's are; `Gateway.RefusedDelayRaises` and `Gateway.LongScheduleOverflows` state what a refused delay does.
- `st.secrets` is a map of JSON values.
- Gateway.Settle: an exception raised while reading the reply (TypeError, KeyError, IndexError, AttributeError) gives the "Unexpected issue" error with the exception's name, not Python's `str(e)` text.
- Gateway.Settle: a body that is not JSON gives "Invalid API response format". With recent `requests` versions the decode error is also a `RequestException`, which would give the "Failed to connect" error instead. The library version is not part of this model.
- HTTP statuses below 400 are not errors, as for `raise_for_status`; redirects are not modelled.
- `difflib.SequenceMatcher.ratio` is a parameter constrained only by its range and its value on an empty query; its algorithm is not modelled.
- Scores are reals, not floats; rounding of `similarity * 40` is not modelled.
- `str.lower` is modelled for ASCII letters only.
- `set()` on JSON values treats `true` and `1` as different, where Python merges them.
- MenuSearch.SmartMenuSearch: `list.sort` is a library call. It is specified by a stable insertion sort on values, not run in place.
- MenuSearch.ScoreItem: the scoring of one dish is a method of its own, where the source writes it inline in the loop.
- MenuItem's `image_url`, `youtube_link`, `pricing` and `serving_info` fields are not modelled. Neither are `validate_image_urls`, nor the Streamlit UI and session state other than the preferences.
- `app.py` never initialises `user_preferences`; the store starts from the defaults of `app1.py`.
- The OpenAI completion call and `json.loads` are abstracted into `Completion`: the call failed, or its content parsed to a JSON value or did not.
- Preferences.SetToList: the order of `list(set)` is unspecified in Python, so the stored list is only said to hold the set's elements once each.
- PreferenceStore.ExtractPreferences: its ensures describe the stored dietary list by its elements, not its order, for the same reason.

## Findings

| source | as written | input that shows it | evidently intended | confidence | as-written member | corrected member |
|---|---|---|---|---|---|---|
| app.py:89-103 | each preference is assigned as soon as its test passes; an exception at a later step is caught by the bare `except` and returns False without undoing earlier assignments | a reply `{"cooking_style": "Italian", "dietary_restrictions": 5}`: the cooking style becomes "Italian", then `set(5)` raises TypeError and False is returned | False means the preferences were not changed (all-or-nothing update) | medium, not executed | Preferences.PreferenceStore.ExtractPreferences, Preferences.PartialUpdateReportsFalse | Preferences.PreferenceStore.ExtractPreferencesAtomic |
