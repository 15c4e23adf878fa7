# Lynalyze core in Dafny

Lynalyze is a URL-analysis web application. A user submits a URL. The Express backend:

- fetches the page;
- asks the Gemini model for an analysis, or builds a fallback one;
- counts word frequencies;
- stores the result in an in-memory store, guarded by ownership checks;
- exports it as a PDF report or a CSV file.

Python microservices compute text sentiment, word rankings and dominant image colours. A Spotify helper extracts track ids. The React dashboard sorts and filters a table, and colours sentiment scores.

This project models the deterministic core of that system, one Dafny module per source file:

- **Stateful code.** The stores, the controllers' state changes, the DataTable component state and the loops in the source are classes and methods with loops. Each is proved against a specification function.
- **Expression code.** Everything else is functions with contracts and lemmas.
- **Foreign calls** are parameters of the operations:
  - the HTTP fetch, `new URL`, URL resolution, `JSON.parse`;
  - the Gemini call, the microservice POST;
  - bcrypt, `jwt.sign`;
  - the clock, `Math.random`;
  - `word_tokenize`, TextBlob polarity, PIL's decoded pixels;
  - `toFixed(2)`, `toLocaleString()`, the Spotify requests.

Shared modules:

- **`Strings`**: ASCII whitespace, case, `trim`, `split`, `join`, decimal rendering.
- **`Sorting`**: a stable insertion sort over a "may precede" relation, `filter`, `slice`.
- **`Counting`**: counting, a first-seen counter, `most_common`.
- **`JsObject`**: the enumeration order of `Object.entries`, with array-index keys first in ascending order, then the other keys in creation order.
- **`Optional`**: JavaScript `||` on possibly missing strings.
- **`Records`** and **`Http`**: the shared data records, and the replies with their status codes.

## Model

| member | source | states |
|---|---|---|
| GeminiService.CalculateWordFrequency | backend/src/services/gemini.service.ts:222-246 | the counting loop and the deletion loop over the stopwords compute the enumeration of the top 50 ranked counted words |
| GeminiService.NormaliseChar | backend/src/services/gemini.service.ts:224-226 | every character becomes a lowercase letter, a digit or whitespace, and whitespace is kept |
| GeminiService.FrequencyWordsShape | backend/src/services/gemini.service.ts:224-229 | every counted word is longer than 3 and made only of `[a-z0-9]` |
| GeminiService.TopWordsCounts | backend/src/services/gemini.service.ts:231-245 | at most 50 entries; each key is a frequency word and not a stopword; each count equals the word's occurrences and is at least 1 |
| GeminiService.TopWords | backend/src/services/gemini.service.ts:241-245 | at most 50 entries, each an entry of the counted words, in non-increasing count order |
| GeminiService.TopWordsEntry | backend/src/services/gemini.service.ts:231-238 | each counter entry left after the stopword deletion is not a stopword, and its count is its number of occurrences (at least 1) |
| GeminiService.TopWordsDistinct | backend/src/services/gemini.service.ts:231-245 | no word appears twice in the result |
| GeminiService.TopWordsRanked | backend/src/services/gemini.service.ts:241-244 | counts are non-increasing; among equal counts the counter's order is kept (stability) |
| GeminiService.TopWordsComplete | backend/src/services/gemini.service.ts:241-244 | a non-stopword left out means 50 entries were kept, each counted at least as often |
| GeminiService.EntriesOfCounted | backend/src/services/gemini.service.ts:231-238 | the record after the deletions lists, in insertion order, exactly the non-stopword words with their counts |
| GeminiService.EntriesOfRestrict | backend/src/services/gemini.service.ts:237-238 | the entries depend only on the keys in the insertion order |
| GeminiService.CountedOver | backend/src/services/gemini.service.ts:231-234 | the keys come out in the given order, each paired with its number of occurrences in the words; over the first-seen order this is the whole counter |
| GeminiService.PromptFor | backend/src/services/gemini.service.ts:133-136 | the prompt carries the URL and the first 3000 characters of the content |
| GeminiService.FallbackWords | backend/src/services/gemini.service.ts:195-196 | the fallback's words are whitespace-free tokens longer than 3 |
| GeminiService.FallbackAnalysis | backend/src/services/gemini.service.ts:192-220 | title 'Content Analysis'; the description for the long-word count; the summary is the first 200 characters (or all of a shorter text) followed by '...'; the neutral sentiment; keyInsights exactly the five insights for the count; the fixed topics; keywords exactly the first min(5, count) long words |
| GeminiService.FallbackDescriptionCount | backend/src/services/gemini.service.ts:200 | the description holds the decimal word count between its fixed prefix and suffix |
| GeminiService.DescriptionDigits | backend/src/services/gemini.service.ts:200 | the description for a count n is the fixed prefix, the decimal digits of n and the fixed suffix, and those digits read back as n |
| GeminiService.FirstIndexOf | backend/src/services/gemini.service.ts:165 | the leftmost occurrence, absent exactly when the character does not occur |
| GeminiService.LastIndexOf | backend/src/services/gemini.service.ts:165 | the rightmost occurrence, absent exactly when the character does not occur |
| GeminiService.JsonBlock | backend/src/services/gemini.service.ts:165-171 | the reply's text from the first `{` to the last `}`; absent exactly when no `}` follows a `{` |
| GeminiService.Repaired | backend/src/services/gemini.service.ts:174-179 | shares untouched when all three are truthy; otherwise recomputed from the polarity (0.7·p or 0.2, 0.7·\|p\| or 0.1), summing to 1 |
| GeminiService.RepairedSharesPositive | backend/src/services/gemini.service.ts:174-179 | the repaired shares are all positive exactly when -8/7 < p < 9/7 |
| GeminiService.ModelReply | backend/src/services/gemini.service.ts:125-181 | a model analysis exists exactly when the key is usable, the call answers, a JSON block is found, it parses, and it holds a sentiment |
| GeminiService.AnalyzeWithGemini | backend/src/services/gemini.service.ts:125-190 | the fallback when the key is unusable or any step fails; otherwise the parsed analysis with its sentiment repaired; a sentiment is always present |
| GeminiService.CollapsedText | backend/src/services/gemini.service.ts:87 | the body text with every whitespace run replaced by one space and then trimmed; equal to the `split(/\s+/)` pieces joined by ' ' and trimmed; single-spaced, no whitespace at either end |
| GeminiService.CollapsedTextIdempotent | backend/src/services/gemini.service.ts:87 | collapsing and trimming the collapsed content again changes nothing |
| GeminiService.MetaContent | backend/src/services/gemini.service.ts:105-108 | the content of the first meta tag in document order whose name is X, or whose property is X or og:X; missing when no tag matches or that content is empty |
| GeminiService.FirstMeta | backend/src/services/gemini.service.ts:106 | no index when no meta matches; otherwise the index of a match with no match before it |
| GeminiService.MetaContentOgProperty | backend/src/services/gemini.service.ts:105-108 | a page whose only meta has property 'og:description' gives its content as the description |
| GeminiService.MetaKeywords | backend/src/services/gemini.service.ts:114 | empty when the tag is missing; otherwise one entry per comma-separated piece, the i-th being the i-th piece trimmed, so no entry holds a comma or edge whitespace |
| GeminiService.ResolvedImages | backend/src/services/gemini.service.ts:90-102 | at most one image per `<img>`; a string is an image exactly when it starts with 'http' and some `<img>` with a non-empty src resolves to it |
| GeminiService.ResolvedImagesAppend | backend/src/services/gemini.service.ts:90-102 | the images of two runs of `<img>` elements are the images of the first run followed by those of the second, so document order is kept |
| GeminiService.FetchWebpage | backend/src/services/gemini.service.ts:72-123 | fails exactly when the fetch fails; content is the collapsed body text or '' without a body; images are the resolved images; title is the truthy `<title>` text; description and author are their meta contents; keywords the split meta keywords; publishDate the published-time meta, else the publish_date meta |
| GeminiService.FetchedPageShape | backend/src/services/gemini.service.ts:72-123 | a fetched page has collapsed, single-spaced content that a second collapse leaves alone, and only http(s) images |
| GeminiService.Merge | backend/src/services/gemini.service.ts:50-65 | title is the first truthy of the model title, the page title and 'Untitled'; description the model's, else the page's, else ''; content exactly the first 5000 characters (all of a shorter text); images exactly the first 20 (all of fewer); the model's keywords array wins even when empty; author, publishDate, sentiment, frequencies and the optional lists as given |
| GeminiService.UrlAnalysis | backend/src/services/gemini.service.ts:39-70 | absent exactly when the page fetch fails |
| GeminiService.UrlAnalysisShape | backend/src/services/gemini.service.ts:50-65 | a result has a non-empty title, content ≤ 5000, a sentiment, and at most 20 images all starting with 'http' |
| GeminiService.AnalyzeUrl | backend/src/services/gemini.service.ts:39-70 | returns nothing exactly when the fetch fails, otherwise the merge of the fetched page, the model (or fallback) analysis and the word frequencies of the page content |
| TextAnalysisService.TokensShape | backend/src/services/text-analysis.service.ts:47-51 | every token is longer than 2 characters and made of lowercase word characters |
| TextAnalysisService.Tokens | backend/src/services/text-analysis.service.ts:47-51 | every token is longer than 2 characters and holds no whitespace |
| TextAnalysisService.CountKeywords | backend/src/services/text-analysis.service.ts:86-92 | the loop counts exactly the tokens in each keyword list |
| TextAnalysisService.BasicTextAnalysis | backend/src/services/text-analysis.service.ts:45-113 | the loops compute the specified analysis |
| TextAnalysisService.BasicAnalysis | backend/src/services/text-analysis.service.ts:45-113 | wordCount is the number of tokens; the frequency entries are a reordering of the tokens' tally; neutral is NaN exactly when there are no tokens |
| TextAnalysisService.BasicAnalysisFrequency | backend/src/services/text-analysis.service.ts:53-59 | wordCount is the number of tokens; the counts sum to it; keys are distinct; each count equals the occurrences; every token is a key |
| TextAnalysisService.RecordCounts | backend/src/services/text-analysis.service.ts:56-59 | the frequency record's counts sum to the number of words, each equal to the word's occurrences |
| TextAnalysisService.RecordKeysDistinct | backend/src/services/text-analysis.service.ts:56-59 | no word is listed twice |
| TextAnalysisService.RecordKeysComplete | backend/src/services/text-analysis.service.ts:56-59 | every word is a key |
| TextAnalysisService.RecordHasKey | backend/src/services/text-analysis.service.ts:56-59 | a given word is a key |
| TextAnalysisService.KeywordListsDisjoint | backend/src/services/text-analysis.service.ts:62-84 | no word is in both keyword lists |
| TextAnalysisService.DisjointMatches | backend/src/services/text-analysis.service.ts:86-92 | positive plus negative matches never exceed the number of tokens |
| TextAnalysisService.MatchesBound | backend/src/services/text-analysis.service.ts:86-92 | pos + neg ≤ wordCount for the tokens of a text |
| TextAnalysisService.Denominator | backend/src/services/text-analysis.service.ts:94 | pos + neg, or 1 when both are 0 |
| TextAnalysisService.ScoreRange | backend/src/services/text-analysis.service.ts:95 | the score lies in [-1, 1] |
| TextAnalysisService.Label | backend/src/services/text-analysis.service.ts:98-100 | 'Positive' iff score > 0.3, 'Negative' iff score < -0.3, else 'Neutral' |
| TextAnalysisService.LabelThresholds | backend/src/services/text-analysis.service.ts:94-100 | 'Positive' iff 10·(pos − neg) > 3·total, 'Negative' iff 10·(pos − neg) < −3·total |
| TextAnalysisService.ScaleBy | backend/src/services/text-analysis.service.ts:98-100 | comparing a quotient with a threshold is comparing with the scaled threshold |
| TextAnalysisService.SharesSum | backend/src/services/text-analysis.service.ts:94-109 | the shares sum to 1 when a keyword matched; all zero and 'Neutral' otherwise |
| TextAnalysisService.SentimentOf | backend/src/services/text-analysis.service.ts:94-111 | the score lies in [-1, 1] and carries its threshold label; both shares are non-negative; neutral is NaN exactly when wordCount is 0 |
| TextAnalysisService.NeutralOf | backend/src/services/text-analysis.service.ts:96 | neutral is NaN iff wordCount is 0; otherwise 1 − matched/wordCount, in [0, 1] |
| TextAnalysisService.NeutralShare | backend/src/services/text-analysis.service.ts:96-110 | NaN iff the text has no tokens, otherwise in [0, 1] |
| TextAnalysisService.AnalyzeText | backend/src/services/text-analysis.service.ts:18-40 | the microservice's reply when a URL is set and the call succeeds, otherwise the basic analysis |
| ExportController.WrapText | backend/src/controllers/export.controller.ts:203-222 | the loop computes the specified wrapping |
| ExportController.WrapFrom | backend/src/controllers/export.controller.ts:208-219 | the fold only appends to the lines it starts from, and adds at least one line while a current line is pending |
| ExportController.WrapLines | backend/src/controllers/export.controller.ts:203-221 | at least one line, even for "" |
| ExportController.WrapLinesFit | backend/src/controllers/export.controller.ts:208-219 | every line is within maxLength or is a single space-free word |
| ExportController.FirstLineEmpty | backend/src/controllers/export.controller.ts:209-211 | a first word longer than maxLength makes the first line "" |
| ExportController.FirstLineNotEmpty | backend/src/controllers/export.controller.ts:209-211 | a non-empty text starting with a non-space first word that fits has a non-empty first line |
| ExportController.WrapTextEmptyFirstLine | backend/src/controllers/export.controller.ts:209-211 | `wrapText("abc", 2)` is `["", "abc"]` and does not join back to "abc" |
| ExportController.TrimFits | backend/src/controllers/export.controller.ts:210 | trimming the current line keeps it within the limit |
| ExportController.WrapFromFits | backend/src/controllers/export.controller.ts:208-219 | the fold keeps every line within the limit or a single word |
| ExportController.WrapLinesNonEmptyProperties | backend/src/controllers/export.controller.ts:203-222 | the corrected wrapping is the original without empty lines: no empty line, every line fits or is one word |
| ExportController.WrapFromNonEmpty | backend/src/controllers/export.controller.ts:208-219 | the corrected fold only appends, and every line it adds is non-empty |
| ExportController.WrapFromNonEmptyIsFiltered | backend/src/controllers/export.controller.ts:208-219 | the corrected fold equals the original fold with its empty lines removed |
| ExportController.NonEmptyJoin | backend/src/controllers/export.controller.ts:204-219 | the corrected fold's lines joined by ' ' give the words joined by ' ' |
| ExportController.WrapLinesNonEmptyRoundTrip | backend/src/controllers/export.controller.ts:204-219 | for single-spaced words, the corrected lines joined by ' ' give the text back: nothing dropped or reordered |
| ExportController.Shown | backend/src/controllers/export.controller.ts:52-61 | a missing template field shows as "undefined" |
| ExportController.DescriptionLines | backend/src/controllers/export.controller.ts:70-81 | no lines for an empty description; otherwise the lines of `wrapText(description, 80)` as written, at least one, each within 80 characters or one word (empty lines included) |
| ExportController.DescriptionNonEmptyLines | backend/src/controllers/export.controller.ts:70-81 | the report description lines without their empty lines are the corrected wrapping |
| ExportController.DescriptionFirstLineEmpty | backend/src/controllers/export.controller.ts:209-211 | when the first word is longer than 80 characters, the first description line drawn is empty |
| ExportController.AnalysisLines | backend/src/controllers/export.controller.ts:85-112 | the text-analysis block; none without an analysis; a failure exactly when the polarity to format is missing |
| ExportController.ReportLines | backend/src/controllers/export.controller.ts:42-115 | heading, URL and title first, then exactly the as-written description lines, exactly the text-analysis block of AnalysisLines, and the 'Generated' line last; no report exactly when a text analysis lacks its polarity |
| ExportController.DescriptionRoundTrip | backend/src/controllers/export.controller.ts:70-81 | the non-empty description lines of a single-spaced description, joined by ' ', give it back |
| ExportController.ExportPdf | backend/src/controllers/export.controller.ts:12-135 | 404 when absent, 403 when not the owner, before any output; otherwise exactly the report lines with 200, or 500 when they cannot be produced; success only for the owner |
| ExportController.CsvRecords | backend/src/controllers/export.controller.ts:161-168 | one record per word-frequency entry in entry order; none without a text analysis |
| ExportController.CsvRecordsEntries | backend/src/controllers/export.controller.ts:161-168 | the records hold exactly the frequency entries |
| ExportController.CsvRecordsStoredOrder | backend/src/controllers/export.controller.ts:161-168 | for a stored frequency record, the rows follow it entry by entry |
| ExportController.ExportCsv | backend/src/controllers/export.controller.ts:140-200 | 404 when absent, 403 when not the owner; otherwise exactly the CSV records |
| AnalysisStore.Without | backend/src/models/analysis.model.ts:72-74 | the insertion order after a delete holds every other id |
| AnalysisStore.AnalysisModel.constructor | backend/src/models/analysis.model.ts:48-50 | an empty store with the counter at 1 |
| AnalysisStore.AnalysisModel.Create | backend/src/models/analysis.model.ts:52-60 | the id is the old counter in decimal (never issued before); the record is added under it; the counter is incremented; no other record changes |
| AnalysisStore.AnalysisModel.FindById | backend/src/models/analysis.model.ts:62-64 | the stored record, absent exactly when the id is not stored |
| AnalysisStore.AnalysisModel.Values | backend/src/models/analysis.model.ts:67 | the stored records in insertion order |
| AnalysisStore.AnalysisModel.Delete | backend/src/models/analysis.model.ts:72-74 | removes only that id (a no-op when absent); counter and issued ids unchanged |
| AnalysisStore.AnalysisModel.FindByUserIdProperties | backend/src/models/analysis.model.ts:66-70 | exactly the user's stored records, no duplicates, newest first, ties in insertion order |
| AnalysisStore.AnalysisModel.FindByUserId | backend/src/models/analysis.model.ts:66-70 | no more records than are stored; every returned record is stored and belongs to the user |
| AnalysisStore.StoredAppend | backend/src/models/analysis.model.ts:52-60 | a new id from the counter was never issued, is not stored and is not listed; storing and listing it keeps the store invariant with the counter incremented |
| AnalysisStore.AnalysisModel.FindByUserIdMember | backend/src/models/analysis.model.ts:66-68 | a record is in the user's list iff it is stored under its own id and belongs to that user |
| AnalysisStore.AnalysisModel.ValuesDistinct | backend/src/models/analysis.model.ts:67 | `Array.from(values())` lists no record twice |
| AnalysisStore.AnalysisModel.FindByUserIdOrder | backend/src/models/analysis.model.ts:68-69 | newest first; records with the same timestamp keep insertion order |
| Counting.DistinctAppend | backend/src/models/analysis.model.ts:58 | appending a fresh id keeps the order free of duplicates |
| UserStore.FirstWithEmail | backend/src/models/user.model.ts:33 | the first index whose email matches, absent exactly when none does |
| UserStore.UserModel.constructor | backend/src/models/user.model.ts:12-14 | an empty store with the counter at 1 |
| UserStore.UserModel.Create | backend/src/models/user.model.ts:16-30 | a fresh id from the counter; the user stored unchanged and appended to the values; the counter incremented; no email check |
| UserStore.StoredAppend | backend/src/models/user.model.ts:16-30 | a new id from the counter is not stored; storing and listing it keeps the store invariant and appends the user to the values |
| UserStore.UserModel.Values | backend/src/models/user.model.ts:33 | the stored users in insertion order |
| UserStore.UserModel.FindByEmail | backend/src/models/user.model.ts:32-34 | the earliest-inserted user with exactly that email; absent when there is none |
| UserStore.UserModel.FindById | backend/src/models/user.model.ts:36-38 | the stored user, absent exactly when the id is not stored |
| AnalyzeController.Owner | backend/src/controllers/analyze.controller.ts:15 | the authenticated user, or 'demo-user' |
| AnalyzeController.Interest | backend/src/controllers/analyze.controller.ts:53-56 | the random trend interest lies in [60, 99] |
| AnalyzeController.WordCount | backend/src/controllers/analyze.controller.ts:50 | the number of whitespace-split segments, at least 1 even for empty content |
| AnalyzeController.AnalysisRecord | backend/src/controllers/analyze.controller.ts:37-60 | the stored fields come from the URL, the owner and the merged analysis |
| AnalyzeController.AnalyzeUrl | backend/src/controllers/analyze.controller.ts:9-71 | 400 for a missing or invalid URL, 500 when the fetch fails, each leaving the store unchanged; otherwise 201 and exactly one new record with a fresh id, owned by the caller (or anonymous), whose data is the analysis record built from the URL analysis, the timestamp and the random score |
| AnalyzeController.GetAnalysis | backend/src/controllers/analyze.controller.ts:76-102 | 404 when absent, 403 when not the owner, else the record; the store is not modified |
| AnalyzeController.GetUserAnalyses | backend/src/controllers/analyze.controller.ts:107-119 | exactly the user's records, newest first; the body is the store's `FindByUserId` answer |
| AnalyzeController.DeleteAnalysis | backend/src/controllers/analyze.controller.ts:124-151 | removes the record only when it exists and the requester owns it, dropping its id from the insertion order and keeping the id counter and the issued ids; otherwise the store is unchanged; other records are untouched |
| AuthController.Register | backend/src/controllers/auth.controller.ts:10-59 | 400 for a missing field or an existing email, the store unchanged; otherwise the hash is stored, the password-free user is returned, and distinct emails are preserved |
| AuthController.Login | backend/src/controllers/auth.controller.ts:64-110 | 400 for missing fields; 401 with the same message for an unknown email and a wrong password; otherwise the password-free user and a token |
| AuthController.GetCurrentUser | backend/src/controllers/auth.controller.ts:115-141 | 401 without an authenticated user, 404 for an unknown id, else the password-free user |
| Records.Public | backend/src/controllers/auth.controller.ts:46-54 | the exposed user keeps id, name, email and creation time, and has no password field |
| ScraperService.Attribute | backend/src/services/scraper.service.ts:33-70 | a meta attribute, absent exactly when the document lacks it |
| ScraperService.Title | backend/src/services/scraper.service.ts:33-37 | the first truthy of og:title, twitter:title, the `<title>` text and 'Untitled', then trimmed |
| ScraperService.BlankTitle | backend/src/services/scraper.service.ts:33-37 | a whitespace-only og:title yields "" instead of falling through |
| ScraperService.Description | backend/src/services/scraper.service.ts:40-44 | the first truthy of og:description, twitter:description, description and '', trimmed |
| ScraperService.HttpSources | backend/src/services/scraper.service.ts:50-55 | exactly the `<img>` sources starting with 'http', in document order |
| ScraperService.ImageList | backend/src/services/scraper.service.ts:47-56 | og:image first when truthy, with no scheme check, then the http sources |
| ScraperService.CollectImages | backend/src/services/scraper.service.ts:47-56 | the push loop computes the specified image list |
| ScraperService.ImagesShape | backend/src/services/scraper.service.ts:47-79 | at most 10 images; each is the og:image in first place or starts with 'http' |
| ScraperService.Favicon | backend/src/services/scraper.service.ts:59-61 | icon, else shortcut icon; absent when missing or empty |
| ScraperService.Author | backend/src/services/scraper.service.ts:64-66 | author, else article:author; absent when missing or empty |
| ScraperService.Keywords | backend/src/services/scraper.service.ts:69-70 | the comma-split pieces, each trimmed, empty pieces kept; [] when missing or empty |
| ScraperService.Text | backend/src/services/scraper.service.ts:73-74 | the joined, trimmed paragraphs when they fit in 5000 characters, otherwise exactly their first 5000 characters |
| ScraperService.ScrapeUrlMetadata | backend/src/services/scraper.service.ts:76-88 | fails exactly when the fetch fails; otherwise each field follows its rule |
| DataTableView.NextSort | frontend/src/components/Dashboard/DataTable.tsx:29-41 | the same column goes asc to desc, then desc to unsorted; another column starts asc |
| DataTableView.NextSortConsistent | frontend/src/components/Dashboard/DataTable.tsx:25-41 | a click keeps "key null iff direction null" |
| DataTableView.ThreeClicks | frontend/src/components/Dashboard/DataTable.tsx:29-41 | three clicks on a column, starting unsorted, return to unsorted |
| DataTableView.DataTable.constructor | frontend/src/components/Dashboard/DataTable.tsx:25-27 | unsorted, with an empty filter |
| DataTableView.DataTable.HandleSort | frontend/src/components/Dashboard/DataTable.tsx:29-41 | the state moves by the click transition and the filter is kept |
| DataTableView.DataTable.SetFilterText | frontend/src/components/Dashboard/DataTable.tsx:80 | only the filter text changes |
| DataTableView.Filtered | frontend/src/components/Dashboard/DataTable.tsx:46-52 | an empty filter keeps every row; otherwise every kept row is a row of the data that matches |
| DataTableView.RowMatches | frontend/src/components/Dashboard/DataTable.tsx:47-51 | a matching row has a field; with an empty filter text every row that has a field matches |
| DataTableView.MayPrecede | frontend/src/components/Dashboard/DataTable.tsx:56-67 | two numbers compare by the direction; rows with equal fields may precede each other, so the stable sort keeps them in place |
| DataTableView.FilteredMembers | frontend/src/components/Dashboard/DataTable.tsx:46-52 | a row is kept iff the filter is empty or some field, lowercased, contains the lowercased filter |
| DataTableView.FilteredOrder | frontend/src/components/Dashboard/DataTable.tsx:46-52 | filtering two runs of rows gives the filtered first run followed by the filtered second, so the rows keep their order |
| DataTableView.Processed | frontend/src/components/Dashboard/DataTable.tsx:43-70 | a permutation of the filtered rows, unchanged without a sort key and direction |
| DataTableView.NumericComparator | frontend/src/components/Dashboard/DataTable.tsx:60-62 | on numeric fields the comparator is a total preorder that orders the numbers |
| DataTableView.ProcessedNumericOrder | frontend/src/components/Dashboard/DataTable.tsx:55-62 | on numeric fields the output is non-decreasing for asc and non-increasing for desc |
| DataTableView.DataTable.ProcessedData | frontend/src/components/Dashboard/DataTable.tsx:43-70 | the component computes the specified rows from its state |
| SentimentUtils.SentimentColor | frontend/src/lib/utils.ts:29-33 | green iff score > 0.3, red iff score < -0.3, yellow otherwise |
| SentimentUtils.SentimentLabel | frontend/src/lib/utils.ts:35-39 | 'Positive' iff score > 0.3, 'Negative' iff score < -0.3, 'Neutral' otherwise |
| SentimentUtils.ColorMatchesLabel | frontend/src/lib/utils.ts:29-39 | colour and label always agree |
| SentimentUtils.Boundaries | frontend/src/lib/utils.ts:29-39 | 0.3 and -0.3 are 'Neutral' and yellow |
| SentimentUtils.LabelMonotone | frontend/src/lib/utils.ts:35-39 | a higher score never gets a lower label |
| SentimentUtils.SameLabelAsBackend | frontend/src/lib/utils.ts:35-39 | the dashboard's label agrees with the backend's label at the same thresholds |
| TextAnalyzer.PolarityLabel | microservices/text_analyzer.py:43-48 | 'Positive' iff polarity > 0.1, 'Negative' iff polarity < -0.1, else 'Neutral' |
| TextAnalyzer.AnalyzeTextSentiment | microservices/text_analyzer.py:43-72 | shares (p, 0, 1−p), (0, \|p\|, 1−\|p\|) or (0, 0, 1) by the sign of p |
| TextAnalyzer.SharesProperties | microservices/text_analyzer.py:52-63 | the shares sum to 1, at most one of positive and negative is non-zero, and all lie in [0, 1] for p in [-1, 1] |
| TextAnalyzer.WeakPolarityIsNeutral | microservices/text_analyzer.py:43-63 | a polarity in (0, 0.1] gives positive > 0 under the label 'Neutral' |
| TextAnalyzer.KeptWords | microservices/text_analyzer.py:93 | kept tokens are not stop words and are longer than 2 |
| TextAnalyzer.Cleaned | microservices/text_analyzer.py:86-87 | never longer than the text; a character survives exactly when it is a word character or Python whitespace (including 0x1C-0x1F), and none is upper case |
| TextAnalyzer.CleanedKeepsSeparator | microservices/text_analyzer.py:87 | the separator 0x1C is whitespace to Python and survives the cleaning |
| TextAnalyzer.AnalyzeWordFrequency | microservices/text_analyzer.py:74-101 | at most top_n entries; no key is a stop word or of length ≤ 2; each count is the word's exact number of occurrences and at least 1 |
| TextAnalyzer.WordFrequencyProperties | microservices/text_analyzer.py:74-101 | at most top_n distinct words, none a stop word or of length ≤ 2, each with its exact count, counts non-increasing, ties in first-seen order |
| TextAnalyzer.ExtractKeywords | microservices/text_analyzer.py:103-115 | at most n words: the keys of the frequency result, in order |
| ImageAnalyzer.Quantize | microservices/image_analyzer.py:77-79 | round(c/32)·32 with half-to-even rounding |
| ImageAnalyzer.QuantizeUnique | microservices/image_analyzer.py:77-79 | the rounding specification has exactly one solution |
| ImageAnalyzer.QuantizeNearest | microservices/image_analyzer.py:77-79 | no multiple of 32 is nearer to the channel |
| ImageAnalyzer.QuantizeTies | microservices/image_analyzer.py:77-79 | 16 → 0, 48 → 64, 80 → 64, 208 → 192 |
| ImageAnalyzer.QuantizeRange | microservices/image_analyzer.py:77-79 | channels in [0, 255] map to multiples of 32 in [0, 256]; 256 exactly for c ≥ 240 |
| ImageAnalyzer.QuantizePixel | microservices/image_analyzer.py:76-79 | each channel is rounded |
| ImageAnalyzer.Quantized | microservices/image_analyzer.py:74-80 | same length and order as the pixels, each quantised |
| ImageAnalyzer.GetDominantColors | microservices/image_analyzer.py:62-88 | the loop and the ranking compute the specified dominant colours |
| ImageAnalyzer.Dominant | microservices/image_analyzer.py:83-86 | at most num_colors colours, each a quantised colour of the image |
| ImageAnalyzer.DominantProperties | microservices/image_analyzer.py:83-88 | at most num_colors distinct quantised colours; counts non-increasing; ties first-seen; a colour left out is no more frequent than the last one kept |
| ImageAnalyzer.DominantRanked | microservices/image_analyzer.py:83-88 | at most num_colors colours, none only when the image or num_colors is empty, distinct, all quantised pixels, counts non-increasing |
| ImageAnalyzer.DominantLeftOut | microservices/image_analyzer.py:83-88 | a quantised colour not in the result means num_colors colours were kept, each at least as frequent as it |
| ImageAnalyzer.HexDigits | microservices/image_analyzer.py:100 | the lowercase hexadecimal digits: one for n < 16, at most two for n < 256 |
| ImageAnalyzer.Hex2 | microservices/image_analyzer.py:100 | the field zero-padded to width 2, exactly 2 digits iff n < 256 |
| ImageAnalyzer.ParseHexDigits | microservices/image_analyzer.py:100 | the digits read back as the number |
| ImageAnalyzer.ParseHex2 | microservices/image_analyzer.py:100 | the padded field reads back as the number |
| ImageAnalyzer.RgbToHex | microservices/image_analyzer.py:90-100 | '#' and three fields; exactly 7 characters iff every channel is ≤ 255 |
| ImageAnalyzer.RgbToHexRoundTrip | microservices/image_analyzer.py:90-100 | the three fields read back as the channels |
| ImageAnalyzer.WhiteRendersLong | microservices/image_analyzer.py:77-100 | white quantises to 256 per channel and renders as '#100100100' |
| ImageAnalyzer.HexList | microservices/image_analyzer.py:55 | each colour rendered in order |
| ImageAnalyzer.AnalyzeImageColors | microservices/image_analyzer.py:19-60 | the fixed five colours without PIL; an error when the image cannot be had; else the rendered dominant colours |
| ImageAnalyzer.PaletteOf | microservices/image_analyzer.py:112-119 | colours[0..2] with defaults '#000000', '#FFFFFF', '#808080' |
| ImageAnalyzer.GetColorPalette | microservices/image_analyzer.py:102-119 | the palette of the five dominant colours, or of the fallback colours |
| ImageAnalyzer.FallbackPalette | microservices/image_analyzer.py:30-32 | without PIL the palette is the first three fixed colours |
| ImageAnalyzer.EmptyImagePalette | microservices/image_analyzer.py:112-119 | an image without pixels gets all three defaults |
| ImageAnalyzer.PrimaryIsMostFrequent | microservices/image_analyzer.py:83-119 | the primary colour is a most frequent quantised colour |
| SpotifyService.AlnumRun | backend/src/services/spotify.service.ts:18 | the maximal `[a-zA-Z0-9]` prefix |
| SpotifyService.FindMatch | backend/src/services/spotify.service.ts:18 | the first matching position from the start, absent when none |
| SpotifyService.TrackId | backend/src/services/spotify.service.ts:18-23 | present iff the pattern matches; the maximal run after the leftmost match |
| SpotifyService.TrackIdShape | backend/src/services/spotify.service.ts:18-23 | the id is non-empty, sits right after "track/", and ends at the end or at a non-alphanumeric character |
| SpotifyService.TrackIdAt | backend/src/services/spotify.service.ts:18-23 | the capture starts at the leftmost match and is the greedy run of letters and digits there |
| SpotifyService.TrackIdPlainUrl | backend/src/services/spotify.service.ts:18-23 | "/track/a1?si=2" gives "a1": the id ends at the query string |
| SpotifyService.TrackIdInsideSegment | backend/src/services/spotify.service.ts:18-23 | "/soundtrack/b" gives "b": "track/" matches inside a longer segment |
| SpotifyService.TrackIdSkipsEmpty | backend/src/services/spotify.service.ts:18-23 | a "track/" with nothing alphanumeric after it does not stop the search |
| SpotifyService.SpotifyToken | backend/src/services/spotify.service.ts:56-82 | missing credentials give null; with credentials, the result is exactly the token field the request answered (null when the request fails or the field is absent) |
| SpotifyService.Field | backend/src/services/spotify.service.ts:41-46 | a field read from the data, undefined when absent |
| SpotifyService.FeaturesExactlyFour | backend/src/services/spotify.service.ts:41-46 | the result is determined by exactly tempo, energy, danceability and valence |
| SpotifyService.SpotifyFeatures | backend/src/services/spotify.service.ts:13-51 | null without a track id, a token or data; otherwise the four fields of the data |
| SpotifyService.FeaturesOf | backend/src/services/spotify.service.ts:41-46 | each of tempo, energy, danceability and valence is present exactly when the reply has it, with the reply's value |
| SpotifyService.NoMatchNoRequest | backend/src/services/spotify.service.ts:19-21 | without a match the environment is irrelevant: no token is requested |
| SpotifyService.NoTokenNoRequest | backend/src/services/spotify.service.ts:26-29 | without a token the features request is irrelevant |
| SpotifyService.MissingCredentials | backend/src/services/spotify.service.ts:61-64 | a missing client id or secret gives null |
| Counting.CountOccurrences | microservices/text_analyzer.py:96 | the counting loop computes the first-seen distinct order and the exact counts |
| Counting.Tally | microservices/text_analyzer.py:96 | the counter's entries are the distinct elements in first-seen order, each with its exact count |
| Counting.TallyTotal | backend/src/services/text-analysis.service.ts:56-59 | the counts sum to the length of the input |
| Counting.RankedProperties | microservices/text_analyzer.py:99 | `most_common(n)`: at most n entries, non-increasing counts, ties in order, and no left-out entry larger than the last kept |
| Counting.Ranked | backend/src/services/gemini.service.ts:241-243 | `min(n, entries)` entries, each one of the given entries |
| Counting.MostCommon | microservices/text_analyzer.py:96-99 | at most n entries, each an entry of the counter |
| Counting.RankedLeftOut | microservices/text_analyzer.py:99 | an entry left out of `most_common(n)` means n entries were kept, and it is no larger than the last |
| Counting.RankedTies | microservices/text_analyzer.py:99 | among entries with equal counts, the kept ones are the first ones, in input order |
| Counting.MostCommonCounts | microservices/text_analyzer.py:96-99 | each ranked entry has its word's exact count, in non-increasing order |
| Counting.MostCommonDistinct | microservices/text_analyzer.py:96-99 | ranked keys are distinct |
| Counting.MostCommonLeftOut | microservices/text_analyzer.py:96-99 | an element left out means n entries were kept, each at least as frequent |
| Counting.MostCommonNonEmpty | microservices/text_analyzer.py:96-99 | the ranking is empty iff the input is empty or n is 0 |
| Sorting.SortSorted | backend/src/services/gemini.service.ts:242 | with a total preorder, the sort's output is sorted |
| Sorting.SortStable | backend/src/services/gemini.service.ts:242 | the sort keeps the input order of tied elements |
| Sorting.Sort | backend/src/models/analysis.model.ts:69 | the sort's output is a permutation of the input |
| Sorting.FilterMembers | backend/src/models/analysis.model.ts:68 | an element is kept iff it is in the input and satisfies the predicate |
| Sorting.FilterFrom | backend/src/models/analysis.model.ts:68 | every kept element comes from the input |
| JsObject.EnumerationOrder | backend/src/services/gemini.service.ts:241 | `Object.entries` lists a permutation of the created properties |
| JsObject.EnumerationOrderShape | backend/src/services/gemini.service.ts:241-245 | array-index keys come first in ascending order; the other keys keep creation order |
| JsObject.IndexKeysFirst | backend/src/services/gemini.service.ts:241-245 | no named key comes before an array-index key, and index keys are in ascending order |
| JsObject.NamedKeysInOrder | backend/src/services/gemini.service.ts:241-245 | the named keys keep creation order |
| JsObject.EnumerationOrderNamed | backend/src/services/gemini.service.ts:241-245 | without array-index keys, the creation order is kept |
| JsObject.EnumerationOrderIdempotent | backend/src/services/gemini.service.ts:245 | rebuilding an object from its entries lists them in the same order |
| Strings.SplitWs | backend/src/services/text-analysis.service.ts:50 | `split(/\s+/)`: at least one piece, none containing whitespace, every character taken from the text |
| Strings.JoinSplitWs | backend/src/services/text-analysis.service.ts:50 | the pieces joined by ' ' are the text with every whitespace run replaced by one space |
| Strings.Collapse | backend/src/services/gemini.service.ts:87 | `replace(/\s+/g, ' ')`: never longer, empty only for empty text, starts with whitespace iff the text does, and single-spaced |
| Strings.CollapseSingleSpaced | backend/src/services/gemini.service.ts:87 | text that is already single-spaced is left unchanged |
| Strings.SplitOn | backend/src/controllers/export.controller.ts:204 | `split(' ')`: at least one piece, none containing the separator |
| Strings.JoinSplitOn | backend/src/controllers/export.controller.ts:204 | joining the pieces with the separator gives the text back |
| Strings.SplitOnJoin | backend/src/controllers/export.controller.ts:204 | splitting a join of separator-free pieces gives the pieces back |
| Strings.Trim | backend/src/services/scraper.service.ts:77 | the result is a contiguous slice of the text with only whitespace around it and no whitespace at either of its own ends; text without whitespace is unchanged |
| Strings.TrimStartsAt | backend/src/services/scraper.service.ts:77 | names the offset at which the trimmed slice starts |
| Strings.TrimTrimmed | backend/src/services/scraper.service.ts:77 | text without whitespace at either end is its own trim |
| Strings.TrimSingleSpaced | backend/src/services/gemini.service.ts:87 | trimming single-spaced text keeps it single-spaced |
| Strings.NatToString | backend/src/models/analysis.model.ts:54 | the id's decimal digits, without leading zeros |
| Strings.ParseNatToString | backend/src/models/analysis.model.ts:54 | the decimal id reads back as the counter |
| Strings.NatToStringInjective | backend/src/models/analysis.model.ts:54 | distinct counter values give distinct ids |
| Optional.OrElse | backend/src/services/scraper.service.ts:33-37 | `a \|\| b`: a when truthy, else b |
| Optional.TruthyOnly | backend/src/services/scraper.service.ts:59-66 | `a \|\| undefined`: present iff a is truthy |

## Left out

- Network, DOM and parsing: the axios fetch, JSDOM, `new URL`, URL resolution and `JSON.parse` are parameters. A page is an abstract record of optional strings.
- The Gemini SDK call, the microservice POST and the Spotify requests are parameters. Any error they raise is an absent reply. The Basic-credential encoding is part of the request parameter.
- Crypto: bcrypt hashing and comparison and `jwt.sign` are parameters. The token's content and expiry are not modelled.
- Clock and randomness: `new Date()`, `toISOString()`, `toLocaleString()` and `Math.random()` are inputs.
- PDF drawing, fonts, page layout and the response stream, and the CSV file write, download and unlink, are not modelled. Only the text lines and the records produced are.
- Float formatting: Python `round(x, 3)` and JS `toFixed(2)`. Shares and scores are exact reals; `toFixed(2)` is a parameter.
- Unicode: `toLowerCase`, `\s` and `\w` are restricted to ASCII. On ASCII, Python's `\s` also matches 0x1C-0x1F and JavaScript's does not; the model keeps that difference.
- String lengths: JavaScript's `.length` and `substring` count UTF-16 code units, and the model counts characters. The two differ for characters outside the Basic Multilingual Plane, such as emoji. This affects `substring(0, 5000)` and `substring(0, 3000)` in the services, and the width test `(currentLine + word).length` in `wrapText`.
- DataTableView.MayPrecede: `localeCompare` is replaced by lexicographic order on code points.
- DataTableView.MayPrecede: a column mixing numbers and strings gives an inconsistent comparator, whose sorted order is engine-defined. The only order proved is on numeric columns.
- DataTableView.DataTable.ProcessedData: `data` is an immutable sequence, so the copy made before sorting is implicit.
- Async interleaving: handlers run one at a time. The race where two `register` calls both pass the uniqueness check across the `await` is not modelled.
- `getUserAnalyses` is modelled, but routes are not. The router registers `GET /:id` before `GET /user`, which makes it unreachable (backend/src/routes/analyze.routes.ts:27, 34).
- AnalyzeController.AnalyzeUrl: only a failed fetch raises from the analysis service, which the model turns into 500. The `error` detail field of that response is not modelled. Other throws the model cannot raise (a store failure) are not modelled either.
- ExportController.ExportPdf: the catch-all 500 covers only the failure the model can raise, a missing polarity for `toFixed(2)`. The standard PDF fonts encode text as WinAnsi (CP1252), so `drawText` throws, and the endpoint answers 500, for a title, URL or description holding a character outside that code page; the model does not raise this failure and returns the report lines instead.
- ExportController.FirstLineEmpty: the converse "a first line of "" means the first word is too long" needs a non-empty text that does not start with whitespace. It is therefore stated separately as FirstLineNotEmpty under those conditions.
- GeminiService.AnalyzeWithGemini: any failure of the model call, the JSON parse, or the repair of a missing sentiment becomes the fallback. The log messages are not modelled.
- GeminiService.FetchWebpage: the axios timeout and user agent are not modelled.
- TextAnalyzer.WordFrequencyProperties, ImageAnalyzer.GetDominantColors: `top_n` and `num_colors` are natural numbers. Python's slicing with a negative count is not modelled.
- TextAnalyzer: `word_tokenize` and TextBlob polarity and subjectivity are parameters.
- `summarize_text` in microservices/text_analyzer.py is not modelled: it is sentence tokenisation plus float ranking. microservices/audio_analyzer.py is not part of this model, since it is signal processing on floats.
- ImageAnalyzer.AnalyzeImageColors: the image download with its timeout, PIL's decoding and the resize to 150×150 are outside the model. The decoded pixels are an input, absent when the download or decode fails.
- SpotifyService.SpotifyFeatures: the reply data is a map from names to reals. Non-numeric fields of the Spotify reply are not modelled.
- JavaScript prototype keys such as `constructor` and `__proto__` in plain-object counters are not modelled. Object keys follow the array-index-first enumeration order.
- Flask and Express wiring, CORS, rate limits, the authentication middleware, the Mongoose schemas and the React views are not part of this model.

## Findings

| source | as written | input that shows it | evidently intended | confidence | as-written member | corrected member |
|---|---|---|---|---|---|---|
| backend/src/controllers/export.controller.ts:209-211 | when the first word is longer than `maxLength`, the empty current line is pushed, so the first line is "" | `wrapText("abc", 2)` returns `["", "abc"]`, which joins back to " abc" | push the current line only when it holds a word, so no line is empty and the lines join back to the text | not executed | ExportController.WrapTextEmptyFirstLine | ExportController.WrapLinesNonEmptyRoundTrip |

The report drawn by ExportController.ReportLines uses the lines as written, empty lines included (ExportController.DescriptionLines). ExportController.DescriptionNonEmptyLines states that dropping those empty lines gives the corrected wrapping.
