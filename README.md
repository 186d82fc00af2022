# Privacy Analyzer core, modelled in Dafny

This project models the deterministic core of the Privacy Analyzer. The analyzer reads a privacy policy and reports which privacy-related keywords it contains, grouped by category. It then asks a local language-model server for a short summary and falls back to the keyword report when the server cannot help.

The model has three parts:

- **Keyword scan and report** (`keyword_matcher.dfy`, `keyword_report.dfy`).
  - `KeywordMatcher` is a class. It holds the dictionary of (term, category) pairs and two maps: the occurrence count per category and the list of matched terms per category.
  - `FindMatches` rebuilds both maps from the text with two nested loops, proved against the specification functions `ScanCounts` and `ScanLists`.
  - The report that `getKeywordAnalysis` returns is the pure function `Render` of the two maps.
- **Prompt sanitising and reply parsing** (`llm_manager.dfy`).
  - The stages of `LLMManager::generateSummary` are spec functions: truncation, cleaning, space collapse, hint, prompt, payload, field extraction and unescape.
  - The loops of the source are methods proved equal to those functions.
  - `Outcome` maps every failure of the request to its `Error:` message.
- **Session** (`text_analyzer.dfy`). `TextAnalyzer` is a class with the fields `policyText`, `currentSource`, `currentFilename` and `lastKeywordAnalysis`, plus the matcher and the client it owns. Its methods are load, analyze, summarize with fallback, store the policy and store the analysis.

`strings.dfy` holds the shared helpers:

- an `Option` type;
- the byte-wise order in which `std::map<std::string, _>` iterates, with `SortedKeys`, the ascending enumeration of a key set;
- `std::string::find`;
- decimal rendering of integers.

The store, the file system and the server are not called. The model receives what they would answer as parameters:

- whether the store is reachable, and the keyword list it returns;
- the newest-first policy listing and the success flag of a write;
- the file contents as an `Option`;
- the availability probe's answer, and an `Exchange`: transport status, transport error text, HTTP status and body.

Behaviour of the source worth noting:

- **Ordering.** Categories in the report, and terms within a category, come out in ascending string order, because both maps are `std::map`. They are not in first-seen order.
- **Word boundaries.** The pattern is `\b<term>\b`, so a term only matches between word boundaries. Scanning `"aa"` for the term `"a"` gives no match, not two.
- **Loading.** `loadText` and `loadFromFile` do not clear `lastKeywordAnalysis`. A new load keeps the previous report until the next successful `analyze`.
- **Reply parsing.** The reply value ends at the first `"` after the marker, escaped or not. An escaped quote `\"` in the reply cuts the value after its backslash, so the unescape branch for `\"` is never reached (`EscapedQuoteCutsReply`).

## Model

| member | source | states |
|---|---|---|
| Strings.SortedKeys | KeywordMatcher.cpp:100-100 | the keys of a map, listed without repetition, each key exactly once, in strictly ascending byte-wise order (the iteration order of `std::map`) |
| Strings.AscendingUnique | KeywordMatcher.cpp:112-112 | any strictly ascending listing of a key set is that iteration order, so the iteration order is determined by the set alone |
| Strings.FindFrom | LLMManager.cpp:153-156 | `find` returns the leftmost occurrence at or after the start position, or none when the pattern occurs nowhere from there |
| Strings.FoundAtZeroIffPrefix | TextAnalyzer.cpp:91-91 | `find(p) == 0` holds exactly when the string begins with `p` |
| Strings.NatToStringRoundTrip | KeywordMatcher.cpp:102-102 | the decimal digits written for a count read back as that count |
| Strings.IntToString | LLMManager.cpp:141-141 | `std::to_string` gives a non-empty string of digits for a non-negative number and a leading minus sign for a negative one |
| KeywordReport.Freq | KeywordMatcher.cpp:106-109 | the frequency map of a category's list has exactly the listed terms as keys, and each value is that term's multiplicity in the list (at least 1) |
| KeywordReport.Items | KeywordMatcher.cpp:112-119 | one entry per distinct term, in the given order, each the term with its count |
| KeywordReport.ItemSuffix | KeywordMatcher.cpp:114-117 | an entry is the bare term when it occurred once; when it occurred N > 1 times it is the term, `(`, the decimal digits of N (read back as N) and `x)` |
| KeywordReport.CountLineValue | KeywordMatcher.cpp:102-102 | the count line is `  Occurrences: `, the category's count in decimal digits that read back as the count (after a minus sign when negative), and a line break |
| KeywordReport.TermListLayout | KeywordMatcher.cpp:105-120 | the term list names each distinct matched term once, in ascending order, comma-separated, with its number of occurrences in the category's list |
| KeywordReport.Render | KeywordMatcher.cpp:89-124 | the report always begins with the two-line `KEYWORD ANALYSIS RESULTS:` header |
| KeywordMatching.KeywordMatcher.GetKeywordAnalysis | KeywordMatcher.cpp:89-124 | the report of the matcher's current maps, which begins with the header (`Render`) |
| KeywordReport.RenderEmpty | KeywordMatcher.cpp:92-98 | the report is the header followed by `No keywords matched in the privacy policy.` exactly when no category matched |
| KeywordReport.RenderLayout | KeywordMatcher.cpp:100-121 | after the header come the sections of all matched categories in ascending category order; the k-th section names the k-th category, its `Occurrences:` count and its term list |
| KeywordMatching.FirstMatchSpec | KeywordMatcher.cpp:48-54 | one `regex_search` from a position returns a case-insensitive whole-word match, no match lies between the position and it, and when none is returned no match exists from that position on |
| KeywordMatching.MatchPositionsSound | KeywordMatcher.cpp:51-56 | every position the scan reports is a whole-word match, and each starts at or after the end of the previous one |
| KeywordMatching.MatchPositionsComplete | KeywordMatcher.cpp:54-56 | no match is skipped: each match is reported, or lies inside a reported match |
| KeywordMatching.NoOverlap | KeywordMatcher.cpp:48-48 | two whole-word matches of a term made of word characters never overlap |
| KeywordMatching.SingleWordCountsAll | KeywordMatcher.cpp:48-56 | for a term made of word characters, the scan reports every whole-word occurrence |
| KeywordMatching.MatchingIgnoresCase | KeywordMatcher.cpp:48-48 | texts and terms that agree up to ASCII case have the same matches (`icase`) |
| KeywordMatching.ScanStep | KeywordMatcher.cpp:54-57 | one round of the search loop counts one match and resumes strictly later, so the number of rounds is the number of occurrences |
| KeywordMatching.MatchPositions | KeywordMatcher.cpp:51-56 | the start positions the search loop visits, each found by `FirstMatch` from the end of the previous match (`MatchPositionsSound`, `MatchPositionsComplete`) |
| KeywordMatching.Occurrences | KeywordMatcher.cpp:51-56 | the number of times the loop body runs for a term: the number of positions `MatchPositions` reports |
| KeywordMatching.ScanCounts | KeywordMatcher.cpp:43-60 | `categoryCount` after scanning the dictionary entries in order from an empty map: each entry adds its term's occurrences to its category, creating the entry only on a match (`ScanConsistent`) |
| KeywordMatching.ScanLists | KeywordMatcher.cpp:43-60 | `matchedKeywordsByCategory` after the same scan: each entry appends one copy of its term per occurrence (`ScanListsByCategory`, `ScanListsEmpty`) |
| KeywordMatching.Inc | KeywordMatcher.cpp:57-57 | `categoryCount[category]++` creates a missing entry at 0, adds one to it, and changes no other entry |
| KeywordMatching.Push | KeywordMatcher.cpp:60-60 | `push_back` on the category's list creates a missing list, appends the keyword to it, and changes no other list |
| KeywordMatching.ScanConsistent | KeywordMatcher.cpp:54-60 | after a scan both maps have the same categories, and each category's count equals its list's length and is at least 1 |
| KeywordMatching.ScanListsByCategory | KeywordMatcher.cpp:43-60 | a category's list after the scan holds the terms of that category's entries in keyword-list order, each repeated once per occurrence, and a category appears exactly when this is non-empty; a term listed under two categories is counted in each |
| KeywordMatching.KeywordAnalysis | KeywordMatcher.cpp:89-93 | the report of a scan begins with the header |
| KeywordMatching.ScanListsEmpty | KeywordMatcher.cpp:43-60 | the scan records no category exactly when no term of the dictionary occurs in the text |
| KeywordMatching.NoMatchReport | KeywordMatcher.cpp:95-98 | the report of a scan is the "no keywords matched" notice exactly when no term of the list occurs in the text |
| KeywordMatching.KeywordMatcher.constructor | KeywordMatcher.cpp:10-12 | a new matcher has an empty dictionary and empty maps |
| KeywordMatching.KeywordMatcher.LoadKeywords | KeywordMatcher.cpp:14-28 | loading succeeds exactly when the store is reachable and returns a non-empty list; a reachable store's list replaces the dictionary, even an empty one; the maps are untouched |
| KeywordMatching.KeywordMatcher.Search | KeywordMatcher.cpp:54-54 | the search loop returns the leftmost match from the start position |
| KeywordMatching.KeywordMatcher.FindMatches | KeywordMatcher.cpp:30-73 | with an empty dictionary nothing changes; otherwise both maps are cleared and rebuilt, so they depend only on the dictionary and the text; the count/list invariant holds afterwards |
| KeywordMatching.KeywordMatcher.MatchTerm | KeywordMatcher.cpp:51-68 | the search loop for one entry adds the term's number of occurrences to its category's count and appends that many copies of the term to its list |
| KeywordMatching.KeywordMatcher.Record | KeywordMatcher.cpp:57-60 | one recorded match increments the category's count (inserting zero first when missing) and pushes the keyword onto its list, carrying both maps from `hits` matches to `hits + 1`; the dictionary is unchanged |
| LlmManager.Truncate | LLMManager.cpp:57-58 | the text kept is a prefix of the policy of length min(500, length) |
| LlmManager.Clean | LLMManager.cpp:61-70 | cleaning keeps the length and rewrites each character independently |
| LlmManager.CleanProperties | LLMManager.cpp:61-70 | CR and LF become a space and `"` becomes `'`, every other character is unchanged, and no `"`, CR or LF remains |
| LlmManager.CleanText | LLMManager.cpp:61-70 | the cleaning loop computes `Clean` |
| LlmManager.CollapseShape | LLMManager.cpp:73-85 | the collapsed text has no two adjacent spaces and is never longer than its input |
| LlmManager.CollapseKeepsNonSpaces | LLMManager.cpp:73-85 | only spaces are dropped: the other characters come through unchanged and in order |
| LlmManager.CollapseIdempotent | LLMManager.cpp:73-85 | collapsing twice gives the same text as collapsing once |
| LlmManager.CollapseRunsFrom | LLMManager.cpp:73-85 | from any index on, entered with the flag the loop holds there, the collapse keeps one space for each maximal run of spaces that starts there |
| LlmManager.CollapseOneSpacePerRun | LLMManager.cpp:73-85 | the collapsed text has exactly as many spaces as the text has maximal runs of spaces |
| LlmManager.CollapseSpaces | LLMManager.cpp:73-85 | the loop with its `lastWasSpace` flag computes `Collapse` |
| LlmManager.CollapseAt | LLMManager.cpp:76-84 | one round of the collapse loop: a space after a space is dropped, a first space is kept and sets the flag, any other character is kept and clears it |
| LlmManager.SanitizeProperties | LLMManager.cpp:56-85 | the text placed in the prompt is no longer than min(500, length of the policy), has no `"`, CR or LF, and has no double space |
| LlmManager.HintEmpty | LLMManager.cpp:88-100 | the hint is empty exactly when the report is empty or contains none of "Data Collection", "Data Sharing", "User Rights" |
| LlmManager.HintLeads | LLMManager.cpp:91-93 | the collection phrase comes first in the hint exactly when "Data Collection" occurs in the report |
| LlmManager.HintEnds | LLMManager.cpp:97-99 | the user-rights phrase ends the hint exactly when "User Rights" occurs in the report |
| LlmManager.HintShares | LLMManager.cpp:93-95 | the data-sharing phrase occurs in the hint exactly when "Data Sharing" occurs in the report |
| LlmManager.HintQuoteFree | LLMManager.cpp:88-100 | the hint holds no double quote |
| LlmManager.Hint | LLMManager.cpp:87-99 | nothing for an empty report; otherwise the phrases for the labels found, in the order collection, sharing, rights (`HintEmpty`, `HintLeads`, `HintShares`, `HintEnds`) |
| LlmManager.KeywordHint | LLMManager.cpp:87-99 | the source's step-by-step appends (collection, then sharing, then rights phrase, each only when its label occurs, nothing when the report is empty) build exactly `Hint` of the report |
| LlmManager.Sanitize | LLMManager.cpp:56-85 | truncation to 500 characters, then cleaning, then the space collapse (`SanitizeProperties`) |
| LlmManager.Collapse | LLMManager.cpp:73-85 | the space-collapse pass over a whole text, starting with the flag clear (`CollapseShape`, `CollapseOneSpacePerRun`) |
| LlmManager.CollapseFrom | LLMManager.cpp:73-85 | the collapse of the rest of a text given the `lastWasSpace` flag: a space after a space is dropped, every other character kept |
| LlmManager.Prompt | LLMManager.cpp:103-103 | the prompt is the fixed instruction, then exactly the hint, then ` Text: ` and the sanitized policy, and nothing else |
| LlmManager.PromptQuoteFree | LLMManager.cpp:103-103 | the prompt holds no double quote, so the quotes around the payload's `"prompt"` value are the only ones it has; backslashes and tabs are not escaped |
| LlmManager.Payload | LLMManager.cpp:109-109 | the payload is the fixed JSON head naming `gemma:2b`, then exactly the prompt, then the fixed tail |
| LlmManager.PayloadKeepsBackslash | LLMManager.cpp:61-70 | cleaning leaves backslashes alone, so a backslash among the first 500 characters of the policy reaches the sanitized text and the payload unescaped |
| LlmManager.PayloadField | LLMManager.cpp:109-109 | any prompt without a double quote is read back exactly from the payload by the quote-to-quote field extraction the program uses for replies (not by a JSON reader) |
| LlmManager.PayloadCarriesPrompt | LLMManager.cpp:109-109 | the quote-to-quote field extraction recovers every prompt from its payload; this is not JSON validity, since backslashes pass through unescaped |
| LlmManager.FieldValue | LLMManager.cpp:153-158 | the extracted reply value never contains a double quote |
| LlmManager.FieldValueRoundTrip | LLMManager.cpp:153-158 | a quote-free value written after the first `"response":"` marker and closed by a quote is extracted exactly |
| LlmManager.EscapedQuoteCutsReply | LLMManager.cpp:156-167 | a JSON-escaped quote in the reply ends the value after its backslash, so the unescape branch for `\"` is unreachable |
| LlmManager.UnescapeShorter | LLMManager.cpp:160-176 | unescaping never lengthens the text |
| LlmManager.UnescapePlain | LLMManager.cpp:160-176 | a text without backslashes is unescaped to itself |
| LlmManager.UnescapeEscape | LLMManager.cpp:160-176 | unescaping undoes JSON escaping of line feeds and backslashes (`\n` becomes a line feed, `\\` one backslash) |
| LlmManager.UnescapeText | LLMManager.cpp:160-176 | the unescape loop, which skips the escaped character, computes `Unescape` |
| LlmManager.UnescapeAt | LLMManager.cpp:162-176 | one round of the unescape loop: `\n`, `\\` and `\"` yield one character and consume two, anything else (a trailing backslash included) is copied |
| LlmManager.Unescape | LLMManager.cpp:160-176 | `\n` becomes a line feed, `\\` and `\"` one character, any other backslash (a trailing one included) is kept (`UnescapeEscape`, `UnescapeShorter`) |
| LlmManager.Reply | LLMManager.cpp:147-183 | an empty body gives `Error: Empty response from LLM server`; a non-empty body without a readable `"response"` field gives `Error: Could not parse LLM response`; otherwise the result is the unescaped field value |
| LlmManager.ParseReply | LLMManager.cpp:147-183 | the parsing steps of `generateSummary` (find the marker, cut at the next quote, unescape) compute `Reply` |
| LlmManager.Outcome | LLMManager.cpp:49-183 | every failure gives a result starting with `Error:`, with the source's message for each: `Failed to initialize CURL` without a handle, `CURL failed - <error>` on a transport error, `HTTP <status>` for a status other than 200, `Empty response from LLM server` for an empty body, `Could not parse LLM response` without a readable field; otherwise the result is the unescaped field value |
| LlmManager.Failed | LLMManager.cpp:49-183 | the request fails exactly when there is no handle, a transport error, a status other than 200, an empty body, or no readable `"response"` field (`Outcome`, `FailedRequestFallsBack`) |
| LlmManager.ReplyRoundTrip | LLMManager.cpp:147-179 | a successful reply carrying an escaped quote-free summary gives that summary back |
| LlmManager.LlmClient.constructor | LLMManager.cpp:14-18 | the client keeps the server address and model name it is given |
| LlmManager.LlmClient.GenerateSummary | LLMManager.cpp:44-184 | without a handle nothing is sent; otherwise the request to `<apiUrl>/api/generate` carries the payload of the prompt, and the result is `Outcome` of the exchange |
| TextAnalysis.Summary | TextAnalyzer.cpp:66-69 | with no text loaded the answer is the fixed `Error: No privacy policy text loaded...` message |
| TextAnalysis.SummaryUnavailable | TextAnalyzer.cpp:75-86 | with text loaded and the server down, the answer is the `LLM Server Not Available` banner followed by the last keyword report verbatim |
| TextAnalysis.SummaryIssue | TextAnalyzer.cpp:89-101 | with text loaded and a reply starting with `Error:`, the answer is the `LLM Generation Issue` banner followed by the last keyword report verbatim |
| TextAnalysis.SummaryFramed | TextAnalyzer.cpp:89-109 | any other reply is shown verbatim between the fixed header lines and the footer with the legal note |
| TextAnalysis.SummaryErrorOnlyWithoutText | TextAnalyzer.cpp:66-110 | the summary starts with `Error:` exactly when no text is loaded |
| TextAnalysis.FailedRequestFallsBack | TextAnalyzer.cpp:89-101 | whenever the request fails in any way the manager reports, the summary ends with the keyword report |
| TextAnalysis.LatestPolicyId | TextAnalyzer.cpp:165-171 | -1 for an empty listing, otherwise the id of the newest policy |
| TextAnalysis.TextAnalyzer.constructor | TextAnalyzer.cpp:6-19 | a new session has no text, no source, no filename and no report; its matcher has an empty dictionary and empty match maps |
| TextAnalysis.TextAnalyzer.LoadText | TextAnalyzer.cpp:21-26 | the text is replaced, the source becomes `manual`, the filename empty, and the last report is kept |
| TextAnalysis.TextAnalyzer.LoadFromFile | TextAnalyzer.cpp:28-43 | loading succeeds exactly when the file could be read; a failure changes nothing; a success sets the text, source `file` and the filename |
| TextAnalysis.TextAnalyzer.Analyze | TextAnalyzer.cpp:45-64 | with no text, or when keyword loading fails, the last report and the matcher's two match maps are kept; otherwise the maps become `ScanCounts`/`ScanLists` of the fetched dictionary over the current text and the last report becomes the report of that scan |
| TextAnalysis.TextAnalyzer.GenerateSummary | TextAnalyzer.cpp:66-110 | the server is asked only when there is text and it is up, and the result is `Summary` of the manager's outcome |
| TextAnalysis.TextAnalyzer.StoreCurrentPolicy | TextAnalyzer.cpp:112-131 | without text or source nothing is written and the answer is false; otherwise the text, source and filename are written and the store's answer is returned |
| TextAnalysis.TextAnalyzer.StoreAnalysisResults | TextAnalyzer.cpp:137-159 | without a report or a stored policy nothing is written and the answer is false; otherwise the report and summary are written against the newest policy's id and the store's answer is returned |

## Left out

- Database access (`DatabaseManager.cpp`) is not part of this model. The store is represented by its answers: reachability, the keyword list, the policy listing, and success flags for writes.
- The HTTP transport (`isServerAvailable`, `WriteCallback`, `curl_easy_perform`, headers, timeouts) is not part of this model. Its observable result is a parameter: an availability flag, whether a handle was created, and an `Exchange`.
- The file read in `loadFromFile` is replaced by the file's contents as an `Option`.
- Console logging, `showSummary` and the coloured match output are left out. They change no state.
- The `std::regex` engine is replaced by literal ASCII whole-word matching, where word characters are `[A-Za-z0-9_]` and case is folded for ASCII letters only. Locale-dependent case folding is not modelled.
- KeywordMatching.KeywordMatcher.FindMatches: requires every dictionary term to be a `WordTerm`, meaning non-empty, starting and ending with a word character, and free of regex metacharacters. The source splices the term into the pattern unescaped, so other terms would be read as regular expressions, which this model does not interpret. An empty term is excluded as well, because the source does not terminate on it: the pattern `\b\b` matches the empty string at the first word boundary, `match.suffix().first` is then that same position, and the loop at KeywordMatcher.cpp:54-60 finds the same empty match again forever while both maps keep growing. A text without any word character gives no match and no hang. The termination measure of `MatchPositions` relies on this requirement.
- TextAnalysis.TextAnalyzer.Analyze: requires the fetched dictionary to consist of `WordTerm`s, for the same reason.
- LlmManager.Truncate: truncates by characters. `substr` counts bytes, so a multi-byte character may be split at the 500th byte in the source.
- `getStoredPolicies` and `getAnalysisHistory` only pass the store's listings through. They are not modelled. The policy listing is a parameter of `StoreAnalysisResults` and `LatestPolicyId`.
- `PolicyRecord` keeps only the id, content, source and filename. The character count and date are never read by the core.
- The payload is not JSON-escaped. Cleaning (LLMManager.cpp:61-70) replaces only `"`, CR and LF, so backslashes, tabs and other control characters reach the `"prompt"` value raw (`PayloadKeepsBackslash`). A prompt ending in a backslash escapes the closing quote of that value, and the server then sees malformed JSON. The model states only that the prompt is quote-free and that the program's own field extraction reads it back; how the server parses such a payload is not modelled.
- `apiUrl` and `modelName` are kept by `LlmClient`, but the payload always names `gemma:2b`, as the source does.
