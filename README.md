# R2R demo front-end — a verified model of its core

The R2R demo application is a Next.js front-end for an R2R retrieval-augmented
generation (RAG) server. The user uploads documents and types a query. The
page sends the query with a GET request to its own `/api/rag-completion`
route, a proxy that POSTs it to the R2R server's `rag_completion` endpoint and
passes the streamed reply back. The page reads that reply chunk by chunk. The reply text carries two segments marked by sentinel tokens:
the retrieved sources, between `<search>` and `</search>`, and the generated
answer, between `<completion>` and `</completion>`. After every chunk the page
re-scans the whole text received so far. It replaces its "sources" and
"markdown" state wholesale, and it rewrites citation markers such as
`[[citation:3]]` into markdown links `[citation](3)`. Around this sit smaller
pieces of view logic:

- a log viewer that parses the server's stored logs, pages through them one
  run per page, filters them by pipeline and collapses entries;
- a document sidebar that abbreviates long file names and removes deleted
  documents;
- the error overlay shown for a failed request;
- the chart-data builders for the analytics line and pie charts.

This project models that logic in Dafny and proves what each piece promises.
It has these modules:

- `Wrappers` defines `Option`.
- `Text` models what the JavaScript string operations used by the core do:
  - `includes`, as `Contains`;
  - the first-occurrence search that `split` and `replace` perform, as `IndexOf`;
  - `toLowerCase` on ASCII letters, as `LogTableView.ToLower`;
  - `split(sep)[0]` and `split(sep)[1]`, as `SplitHead` and `SplitSecond`;
  - `replace` with a string pattern, which replaces only the first
    occurrence, as `ReplaceFirst`;
  - string concatenation over a list of chunks, as `Concat`.
- `Tokens` defines the four sentinel tokens and how they can overlap.
- `Markdown` implements `markdownParse`:
  - its four global regular-expression replacements become a left-to-right
    scanner `ReplaceAll` over a `Rule`;
  - `Match` gives each rule's match, including greedy `\d+` and the `(?!])`
    look-ahead;
  - a final first-newline replacement follows.
- `WebRagResult` models the streaming answer panel (`web-rag/result.tsx`):
  - `AnswerPanel` is a class whose fields are the component's React state;
  - `ReadChunks` holds the chunk-reading loop;
  - `ParseStreaming`, `Cleanup` and `QueryEffect` model the request, the effect
    clean-up and the query effect.
- `LogParsing` models `parseLogs` in `r2rClient.ts`. Its JSON values are a
  datatype, and `JSON.parse` is a parameter that may fail.
- `LogTableView` models the log table:
  - pagination with JavaScript's `slice`;
  - the collapse keys `${logIndex}-${entryIndex}`;
  - the tab filters;
  - the `LogTable` class holding the component state.
- `Sidebar`, `ErrorView`, `ChartColors`, `LineChart` and `PieChart` model the
  remaining view logic.

Behaviour worth knowing, stated as the code does it:

- **Sources are cut at the first closing token.** They are taken from the start
  of the buffer up to the first `</search>`, and the first `<search>` is then
  removed. Once the sources have appeared, nothing later in the stream changes
  them (`SourcesFixedAcrossChunks`).
- **The answer ends at a second `<completion>`.** The answer is
  `split("<completion>")[1]`. It is therefore cut short at a second
  `<completion>`, not only at the closing `</completion>`; the closing token is
  removed once (`AnswerCutAtSecondStart`).
- **Only the first newline is escaped.** `markdownParse` ends with a
  string-pattern `replace("\n", "\\n")`, which escapes the first newline only
  (`FirstNewlineOnly`).
- **Collapse keys are shared across pages.** The log table shows one run per
  page, and the collapse key is built from the index within the current page.
  So every page's run has `logIndex` 0, and expanding an entry on one page
  expands the same entry position on every page.
- **`parseStreaming` records an error but does not show it.** A non-200
  status is stored in the `error` state, which `web-rag/result.tsx` never
  renders. `ErrorView` models the overlay of `components/result.tsx`, which
  renders it; that overlay treats a status of `0`, like `null`, as no error.

## Model

| member | source | states |
|---|---|---|
| `Tokens.TokensLeadUnique` | web/src/r2r-js-client/index.ts:1-5 | every sentinel token begins with `<` and contains no other `<`, so no token can overlap a shifted copy of itself |
| `Tokens.OpeningTokensNotInClosing` | web/src/r2r-js-client/index.ts:1-5 | each opening token differs from its closing token and does not occur inside it |
| `Text.Contains` | web/src/app/components/web-rag/result.tsx:50 | `sink.includes(token)`: some position of the string starts an occurrence of the pattern; `IndexOfSpec` and `ContainsExtend` relate it to the search and to appending |
| `Text.IndexOf` | web/src/app/components/web-rag/result.tsx:51-52 | the first-occurrence search that `split` and `replace` perform: a found index leaves room for the whole pattern; `IndexOfSpec` proves it is the first occurrence, and that nothing is found exactly when the pattern is absent |
| `Text.IndexOfSpec` | web/src/app/components/web-rag/result.tsx:51-52 | the first-occurrence search behind `split` and `replace` finds an index exactly when the pattern occurs; the index is an occurrence and no earlier position is one; when nothing is found there is no occurrence anywhere |
| `Text.SplitHead` | web/src/app/components/web-rag/result.tsx:51 | `split(sep)[0]` is a prefix of the string; `SplitHeadSpec` and `SplitHeadAt` prove where it ends |
| `Text.SplitHeadSpec` | web/src/app/components/web-rag/result.tsx:51 | `split(sep)[0]` ends exactly at the first occurrence of the separator, and is the whole string when the separator is absent |
| `Text.SplitHeadAt` | web/src/app/components/web-rag/result.tsx:51 | a string made of a separator-free head, the separator and anything else splits back to that head |
| `Text.SplitSecond` | web/src/app/components/web-rag/result.tsx:57 | `split(sep)[1]` is defined exactly when the separator occurs |
| `Text.SplitSecondAt` | web/src/app/components/web-rag/result.tsx:57 | `split(sep)[1]` of `pre + sep + post` is `post` cut at its own first separator |
| `Text.ReplaceFirst` | web/src/app/components/web-rag/result.tsx:52 | a `replace` with a string pattern; specified by `ReplaceFirstWithout`, `ReplaceFirstAt` and `ReplaceFirstSkipsPrefix` |
| `Text.ReplaceFirstWithout` | web/src/app/components/web-rag/result.tsx:52 | a string-pattern `replace` leaves a string without the pattern unchanged |
| `Text.ReplaceFirstAt` | web/src/app/components/web-rag/result.tsx:52 | a string-pattern `replace` substitutes only the first occurrence, leaving the text before and after it intact |
| `Text.ReplaceFirstSkipsPrefix` | web/src/app/components/web-rag/result.tsx:12 | a prefix that cannot start the pattern passes through `replace` unchanged, and the replacement happens in the rest |
| `Text.IndexOfExtend` | web/src/app/components/web-rag/result.tsx:47-53 | appending text keeps the first occurrence found in the original string |
| `Text.ContainsExtend` | web/src/app/components/web-rag/result.tsx:47-53 | appending text keeps an occurrence that was already there |
| `Text.Concat` | web/src/app/components/web-rag/result.tsx:47 | the running `sink += chunk`; specified by `ConcatSplit`, and the loop of `ReadChunks` is proved to build exactly it |
| `Text.ConcatSplit` | web/src/app/components/web-rag/result.tsx:47 | the accumulated buffer of a list of chunks is the buffer of a prefix of it followed by the buffer of the rest |
| `Markdown.DigitRun` | web/src/app/components/web-rag/result.tsx:9-11 | `\d+` matches greedily: the run is all digits and is followed by a non-digit or the end |
| `Markdown.Match` | web/src/app/components/web-rag/result.tsx:8-11 | a rule's match consumes at least one character and starts with a character the rule can begin with |
| `Markdown.ReplaceAll` | web/src/app/components/web-rag/result.tsx:8-11 | one global regular-expression `replace`, scanning left to right and resuming after each match; specified by `ReplaceAllInertPrefix`, `ReplaceAllNoMatch` and the `MarkerStep` lemmas |
| `Markdown.NormaliseCitations` | web/src/app/components/web-rag/result.tsx:8-11 | the four global replacements in their order; specified by `MarkerToLink`, `MarkersToLinks` and `CitationFreeUntouched` |
| `Markdown.MarkdownParse` | web/src/app/components/web-rag/result.tsx:6-13 | `markdownParse`; specified by `MarkersToLinks` (through `NormaliseCitations`), `CitationMarkerNormalised`, `PlainTextUnchanged` and `FirstNewlineOnly` |
| `Markdown.ReplaceAllInertPrefix` | web/src/app/components/web-rag/result.tsx:8-11 | a global replacement copies unchanged a prefix in which the rule cannot begin a match, then continues after it |
| `Markdown.ReplaceAllNoMatch` | web/src/app/components/web-rag/result.tsx:8-11 | text with no match at any position is left unchanged by a global replacement |
| `Markdown.MarkerStep1` | web/src/app/components/web-rag/result.tsx:8 | the first rule turns the `[[citation` or `[[Citation` of a marker after bracket-free text into `[citation`, and continues on whatever follows |
| `Markdown.MarkerStep2` | web/src/app/components/web-rag/result.tsx:9 | the second rule turns the `citation:N]]` after citation-free text into `citation:N]`, dropping one closing bracket, and continues on whatever follows |
| `Markdown.MarkerStep3` | web/src/app/components/web-rag/result.tsx:10 | the third rule, which turns `[[citation:N]]` not followed by `]` into `[citation:N]`, finds no match in the single-bracket `[citation:N]` after bracket-free text and continues on whatever follows |
| `Markdown.MarkerStep4` | web/src/app/components/web-rag/result.tsx:11 | the fourth rule turns `[citation:N]` after bracket-free text into the link `[citation](N)` and continues on whatever follows |
| `Markdown.ClosingSkipsCitationFree` | web/src/app/components/web-rag/result.tsx:9 | the second rule copies citation-free text followed by `[` unchanged, and scanning resumes at the `[` |
| `Markdown.MarkerToLink` | web/src/app/components/web-rag/result.tsx:8-11 | the four passes together turn `[[citation:N]]` or `[[Citation:N]]` after citation-free text into `[citation](N)`, and treat whatever follows as if it stood alone |
| `Markdown.MarkersToLinks` | web/src/app/components/web-rag/result.tsx:8-11 | in text made of citation-free pieces and any number of markers, every marker becomes its link and every piece is kept |
| `Markdown.CitationMarkerNormalised` | web/src/app/components/web-rag/result.tsx:6-13 | `markdownParse` of citation-free text, a citation marker and more citation-free text yields the text with the marker replaced by its link, and the first newline after it escaped |
| `Markdown.CitationFreeUntouched` | web/src/app/components/web-rag/result.tsx:8-11 | text with no `[` and neither `citation` nor `Citation` passes the four citation rules unchanged |
| `Markdown.PlainTextUnchanged` | web/src/app/components/web-rag/result.tsx:6-13 | `markdownParse` returns citation-free text without newlines unchanged |
| `Markdown.FirstNewlineOnly` | web/src/app/components/web-rag/result.tsx:12 | only the first newline of citation-free text is escaped as `\n`; later ones stay |
| `WebRagResult.ExtractSources` | web/src/app/components/web-rag/result.tsx:50-54 | a sources value is produced exactly when the buffer contains `</search>` |
| `WebRagResult.ExtractAnswer` | web/src/app/components/web-rag/result.tsx:56-62 | an answer is produced exactly when the buffer contains `<completion>` |
| `WebRagResult.UpdateSources` | web/src/app/components/web-rag/result.tsx:50-55 | the guarded `setSources` of one pass; specified by `SourcesStable`, `SourcesFixedAcrossChunks`, `CompletedStreamShown` and the loop contract of `ReadChunks` |
| `WebRagResult.UpdateMarkdown` | web/src/app/components/web-rag/result.tsx:56-62 | the guarded `setMarkdown(markdownParse(...))` of one pass; specified by `CompletedStreamShown` and the loop contract of `ReadChunks` |
| `WebRagResult.SourcesDecomposition` | web/src/app/components/web-rag/result.tsx:50-53 | the sources are the text before the first `</search>` with its first `<search>` removed |
| `WebRagResult.AnswerCutAtSecondStart` | web/src/app/components/web-rag/result.tsx:56-59 | the answer is the text after the first `<completion>`, cut at a second `<completion>`, with the first `</completion>` removed |
| `WebRagResult.AnswerDecomposition` | web/src/app/components/web-rag/result.tsx:57-59 | without a second `<completion>`, the answer is the whole text after the first one with the first `</completion>` removed |
| `WebRagResult.SourcesSegment` | web/src/app/components/web-rag/result.tsx:50-53 | a buffer that starts `<search>S</search>` yields sources S, whatever follows |
| `WebRagResult.AnswerSegment` | web/src/app/components/web-rag/result.tsx:56-59 | after `<search>S</search>M<completion>`, with no `<completion>` in S, M or the rest, the answer is the rest with its first `</completion>` removed |
| `WebRagResult.SourcesStable` | web/src/app/components/web-rag/result.tsx:47-54 | once the buffer yields sources, appending more text yields the same sources |
| `WebRagResult.SourcesSticky` | web/src/app/components/web-rag/result.tsx:47-54 | if a longer buffer has no sources yet, no prefix of it had any |
| `WebRagResult.AnswerSticky` | web/src/app/components/web-rag/result.tsx:47-62 | if a longer buffer has no answer yet, no prefix of it had one |
| `WebRagResult.SourcesFixedAcrossChunks` | web/src/app/components/web-rag/result.tsx:43-54 | sources seen after the first k chunks are the sources of the whole stream |
| `WebRagResult.StreamRoundTrip` | web/src/app/components/web-rag/result.tsx:50-61 | a complete stream `<search>S</search>M<completion>A</completion>` yields sources S and answer A, where S holds no `</search>` or `<completion>`, M no `<completion>` and A neither answer token |
| `WebRagResult.StreamPartialAnswer` | web/src/app/components/web-rag/result.tsx:50-61 | a stream cut off inside the answer, `<search>S</search>M<completion>P`, yields sources S and the answer so far P |
| `WebRagResult.StreamBeforeSources` | web/src/app/components/web-rag/result.tsx:50-61 | a stream cut off inside the sources, `<search>P` with no `</search>` or `<completion>` in P yet, yields neither sources nor an answer |
| `WebRagResult.CompletedStreamShown` | web/src/app/components/web-rag/result.tsx:43-68 | however a complete stream `<search>S</search>M<completion>A</completion>` is split into chunks, the state the chunks leave is sources S and markdown `markdownParse(A)` |
| `WebRagResult.AnswerPanel.constructor` | web/src/app/components/web-rag/result.tsx:17-19 | the panel starts with no sources, empty markdown and no error |
| `WebRagResult.AnswerPanel.ReadChunks` | web/src/app/components/web-rag/result.tsx:43-63 | after the loop the buffer is the concatenation of all chunks, the sources and markdown are those the last buffer that had them yields, and the error is untouched |
| `WebRagResult.AnswerPanel.ParseStreaming` | web/src/app/components/web-rag/result.tsx:22-69 | a non-200 status sets the error and nothing else; a missing body changes nothing; otherwise sources and markdown come from the concatenated stream |
| `WebRagResult.AnswerPanel.Cleanup` | web/src/app/components/web-rag/result.tsx:86-92 | the effect's clean-up clears sources and markdown and keeps the error |
| `WebRagResult.AnswerPanel.QueryEffect` | web/src/app/components/web-rag/result.tsx:70-93 | an empty query starts nothing and changes nothing; a non-empty one runs the request: a non-200 status sets only the error, a 200 without a body changes nothing, and a 200 with a body sets sources and markdown from the stream and keeps the error |
| `WebRagResult.Prompts` | web/src/app/components/web-rag/result.tsx:101-115 | at most one prompt shows; the upload prompt exactly when the document list is empty; the query prompt exactly when it is not empty (or absent) and the query is empty |
| `LogParsing.ParseOrKeep` | web/src/r2r-js-client/r2rClient.ts:220-224 | the `try { JSON.parse } catch` that keeps the raw value; specified by `UnparsableEntryKept` and `RejectingParserKeepsElements` |
| `LogParsing.ParseElements` | web/src/r2r-js-client/r2rClient.ts:228-236 | each search result is parsed as JSON, or kept as it was when parsing fails, and the list keeps its length and order |
| `LogParsing.ParseEntry` | web/src/r2r-js-client/r2rClient.ts:218-239 | the key is kept; the value is parsed or kept; a `search_results` array also has its elements parsed |
| `LogParsing.ParseEntries` | web/src/r2r-js-client/r2rClient.ts:218-240 | every entry is parsed in place, keeping the number, order and keys of the entries |
| `LogParsing.ParseLogs` | web/src/r2r-js-client/r2rClient.ts:216-247 | every run keeps its id and type, and its entries are parsed one by one |
| `LogParsing.UnparsableEntryKept` | web/src/r2r-js-client/r2rClient.ts:220-224 | an entry whose value is not valid JSON comes out exactly as it went in |
| `LogParsing.KeysPreserved` | web/src/r2r-js-client/r2rClient.ts:218-239 | the j-th entry of the i-th run keeps its key after parsing |
| `LogParsing.ParseLogsConcat` | web/src/r2r-js-client/r2rClient.ts:217 | runs are parsed independently: parsing two lists of runs one after the other is parsing their concatenation |
| `LogParsing.RejectingParserKeepsElements` | web/src/r2r-js-client/r2rClient.ts:228-236 | when nothing parses, the search results are returned unchanged |
| `LogParsing.RejectingParserKeepsLogs` | web/src/r2r-js-client/r2rClient.ts:216-247 | when nothing parses, the logs are returned unchanged |
| `LogTableView.TotalPages` | web/src/app/components/logtable.tsx:97 | the page count is the ceiling of runs over runs per page, and equals the number of runs at one run per page |
| `LogTableView.JsSlice` | web/src/app/components/logtable.tsx:98 | `slice` with in-range bounds is the ordinary sub-sequence, and is never longer than its input |
| `LogTableView.CurrentLogs` | web/src/app/components/logtable.tsx:98 | `currentLogs`, the slice of the current page; specified by `PageShowsOneRun`, `PageOutsideRangeIsEmpty`, `AtMostOneRunPerPage` and `NegativePageCountsFromEnd` |
| `LogTableView.PageShowsOneRun` | web/src/app/components/logtable.tsx:97-98 | page p of 1..n shows exactly run p-1 |
| `LogTableView.PageOutsideRangeIsEmpty` | web/src/app/components/logtable.tsx:137-153 | page 0 or a page past the end shows no run, and the table then shows "No logs available." |
| `LogTableView.AtMostOneRunPerPage` | web/src/app/components/logtable.tsx:98 | any page number shows at most `logsPerPage` runs |
| `LogTableView.NegativePageCountsFromEnd` | web/src/app/components/logtable.tsx:98 | a negative page counts from the end of the list, as `slice` does |
| `LogTableView.EmptyRow` | web/src/app/components/logtable.tsx:137-153 | the empty-table row appears exactly when the current page has no run, with the text "No logs available." |
| `LogTableView.NatToString` | web/src/app/components/logtable.tsx:39 | the decimal form of an index is non-empty and all digits |
| `LogTableView.NumeralRoundTrip` | web/src/app/components/logtable.tsx:39 | reading back the decimal form of an index gives the index |
| `LogTableView.CollapseKey` | web/src/app/components/logtable.tsx:39 | the key `${logIndex}-${entryIndex}`; specified by `CollapseKeyInjective`, with `NatToString` and `NumeralRoundTrip` for its numbers |
| `LogTableView.CollapseKeyInjective` | web/src/app/components/logtable.tsx:39 | two collapse keys `${logIndex}-${entryIndex}` are equal only for the same pair of indices |
| `LogTableView.ToggleCollapse` | web/src/app/components/logtable.tsx:38-44 | the toggled key becomes the negation of its truthiness; every other key keeps its presence and value |
| `LogTableView.ToggleTwiceRestores` | web/src/app/components/logtable.tsx:38-44 | toggling a key twice restores the collapse state of every key |
| `LogTableView.ToLower` | web/src/app/components/logtable.tsx:17 | `toLowerCase` on the tab name: the length is kept, no upper-case ASCII letter remains, and every character that is not one is kept |
| `LogTableView.PipelineFilter` | web/src/app/components/logtable.tsx:11-21 | "ALL" asks for every log; any other tab asks for its name in lower case |
| `LogTableView.TabFilters` | web/src/app/components/logtable.tsx:105-113 | the three tabs ask for all logs, "rag" and "ingestion" |
| `LogTableView.LogTable.constructor` | web/src/app/components/logtable.tsx:4-34 | the table starts with no collapse state, page 1, tab "ALL" and no logs, and the two mount effects have each issued a fetch for all logs |
| `LogTableView.LogTable.SelectTab` | web/src/app/components/logtable.tsx:23-27 | choosing a different tab resets to page 1 and issues one fetch with its filter; choosing the same tab does nothing |
| `LogTableView.LogTable.FetchIdChanged` | web/src/app/components/logtable.tsx:30-34 | a new fetch id resets to page 1 and re-fetches with the current tab's filter; the same id does nothing |
| `LogTableView.LogTable.ReceiveLogs` | web/src/app/components/logtable.tsx:13-19 | a fetch's reply replaces the logs and nothing else |
| `LogTableView.LogTable.Shown` | web/src/app/components/logtable.tsx:97-98 | in a valid state (page at least 1) the table shows exactly the run numbered by the page, and past the last page it shows none |
| `LogTableView.LogTable.ClickPage` | web/src/app/components/logtable.tsx:118-126 | clicking page button i shows page i+1, which holds exactly run i |
| `LogTableView.LogTable.Toggle` | web/src/app/components/logtable.tsx:38-44 | toggling an entry flips its collapse state and leaves every other entry's state as it was |
| `Sidebar.Substring` | web/src/app/components/sidebar.tsx:46 | `substring` with in-range bounds is the ordinary sub-string, and never longer than its input |
| `Sidebar.AbbreviateFileName` | web/src/app/components/sidebar.tsx:44-47 | a name that fits is kept; a longer one is cut to `maxLength - 3` characters followed by "..." |
| `Sidebar.AbbreviationFits` | web/src/app/components/sidebar.tsx:44-47 | for a maximum of at least 3 the result fits in it, uses it fully when abbreviated, and keeps a prefix of the name |
| `Sidebar.DefaultAbbreviation` | web/src/app/components/sidebar.tsx:44-47 | with the default maximum of 48, a long name shows its first 45 characters and "..." |
| `Sidebar.RemoveDocument` | web/src/app/components/sidebar.tsx:35 | the deleted id no longer occurs, every other id keeps its number of occurrences, and nothing new appears |
| `Sidebar.RemoveDocumentConcat` | web/src/app/components/sidebar.tsx:35 | filtering distributes over concatenation, so the order of the remaining documents is kept |
| `Sidebar.RemoveAbsentDocument` | web/src/app/components/sidebar.tsx:35 | deleting an id that is not listed leaves the list unchanged |
| `Sidebar.DeleteDocument` | web/src/app/components/sidebar.tsx:25-41 | a refused delete keeps the list and alerts failure; an accepted one removes the id and alerts success |
| `Sidebar.DeleteTwice` | web/src/app/components/sidebar.tsx:35 | deleting the same document twice leaves the same list as deleting it once |
| `ErrorView.ErrorOverlay` | web/src/app/components/result.tsx:35-41 | the overlay shows exactly when the error is truthy, with the rate-limit message exactly for status 429 and the overload message otherwise |
| `ErrorView.OverlayCases` | web/src/app/components/result.tsx:35-41 | no error and status 0 show nothing, 429 shows the rate-limit message, and every other status the overload message |
| `ChartColors.CycleColor` | web/src/app/components/linechart.tsx:27-28 | `defaultColors[index % defaultColors.length]`; specified by `CyclePeriod` and used by `CycleColors` |
| `ChartColors.CycleColors` | web/src/app/components/piechart.tsx:40-41 | the i-th colour is palette entry `i mod 6`, for as many items as asked |
| `ChartColors.CyclePeriod` | web/src/app/components/linechart.tsx:27-28 | colours repeat with period 6, and the first six are the palette itself |
| `LineChart.StyleFrom` | web/src/app/components/linechart.tsx:25-31 | each dataset is styled with the colour of its own position, in order |
| `LineChart.CreateLineChartData` | web/src/app/components/linechart.tsx:22-33 | the labels are kept, and dataset i keeps its data and label and gets colour `i mod 6` as border and fill, border width 2 and no area fill |
| `LineChart.StyleFromConcat` | web/src/app/components/linechart.tsx:25 | styling two lists of series one after the other equals styling their concatenation with the second list's positions offset |
| `LineChart.AppendedSeriesKeepStyles` | web/src/app/components/linechart.tsx:25-31 | appending series does not restyle those already there |
| `PieChart.Labels` | web/src/app/components/piechart.tsx:36 | the chart labels are the slices' labels, in order |
| `PieChart.Counts` | web/src/app/components/piechart.tsx:39 | the chart data are the slices' counts, in order |
| `PieChart.PieChartDataOf` | web/src/app/components/piechart.tsx:35-45 | one dataset whose labels and data follow the slices, with slice i coloured by palette entry `i mod 6` as both background and border, and border width 1 |
| `PieChart.PieColoursRepeat` | web/src/app/components/piechart.tsx:40 | slice i and slice i+6 have the same colour |

## Left out

- HTTP requests, `fetch`, the `R2RClient` request methods and the server-side completion proxy are left out. The model receives a `Response` value (a status and an optional chunk list) in their place.
- The proxy (`web/src/pages/api/rag-completion.js:46-48`) always answers with a fresh `Response` of default status 200, whatever the R2R server replied. So the non-200 branch of `ParseStreaming` and `QueryEffect` is reached only when the proxy itself fails; the model keeps that branch because the page's code has it.
- A `fetch` or `reader.read()` that rejects (`web/src/app/components/web-rag/result.tsx:23-27, 43-44`) needs no error path of its own. A rejected `fetch` changes no state, exactly as `ParseStreaming` of `Response(200, None)` does. A read that fails part-way leaves the state `ReadChunks` computes over the chunks received so far, which is `ParseStreaming` on that shorter list, because its final pass repeats the loop's last update (`SourcesSticky`, `AnswerSticky`).
- `TextDecoder` and UTF-8 decoding are left out: chunks arrive as already decoded strings.
- String lengths are sequence lengths, not UTF-16 code-unit counts.
- The `AbortController` is left out: it is created but never passed to `fetch`, so aborting cancels nothing.
- Overlapping asynchronous replies are not modelled. `Sidebar.DeleteDocument` and `LogTableView.LogTable.ReceiveLogs` each apply one reply to the state as it is at that moment, and `ParseStreaming` reads one stream to its end. The code allows three interleavings the model does not describe:
  - `web/src/app/components/sidebar.tsx:35` filters the `uploadedDocuments` captured when the component rendered, so two overlapping deletes can bring back the id deleted first.
  - `web/src/app/components/logtable.tsx:13-19`: replies to `getLogs` can arrive out of order, so the table can show the logs of a filter other than `selectedLogs`.
  - In `web/src/app/components/web-rag/result.tsx:70-92`, the stream of an earlier query goes on calling the setters after a new query has started, because the abort reaches no request.
- The debounce timer around the query effect is left out: timers are not modelled, and `QueryEffect` runs the request at once.
- `JSON.parse` is a parameter of `LogParsing`, and JSON numbers are integers in its value datatype: floating point is not modelled.
- The sources JSON that the view decodes is left out, along with ID generation, `encodeURIComponent`, the analytics page, uploads, configuration and all rendering and styling. None of them is part of the parsing and state logic.
- `createHistogramData` and the histogram component are left out. The line and pie chart builders model the chart-data logic, and chart values are `real`.
- The six colours of the chart palette are kept abstract (`IsPalette` only fixes their number), because their literal values are styling.
- `LogTableView.ToLower` maps ASCII letters only, which covers every tab name; full Unicode case mapping is not modelled.
- `LogTableView.LogTable.ClickPage` requires a page button that exists, because buttons are only rendered for pages 1 to the page count; negative pages are unreachable from the interface but are described by `NegativePageCountsFromEnd`.
- What React renders for a status of `0` (the text `0`) is not modelled; `ErrorOverlay` only says that no overlay is shown.
- The `parseStreaming` helper in `utils` used by `components/result.tsx` is not part of this model. Of that file only the error overlay is.
