# Hourly news ingestion, modelled in Dafny

This project models the two variants of the hourly ingestion run of the placefeed
Cloud Functions. Each run reads one page of headlines from the news feed and walks the
candidates in order against an append-only article collection, with the url as the
dedup key. A candidate whose url is already stored is skipped. Any other candidate is
enriched and written as exactly one new record.

- `functions/index.js`, `scheduledNewsFetcher`: random placeholder enrichment
  (importance 1-100, a pair of zoom hints). There is no per-item error handling, so the
  first failing query, property read or write ends the whole run with an "internal"
  error.
- `functions_firebase/index.js`, `fetchNewsAndAnalyze`: AI-assisted enrichment. The
  model's reply is scraped with `/\{[^]*\}/` and parsed, and location and importance
  are stored as parsed. Every failure from the model call to the write drops only that
  candidate. The duplicate lookup is outside that handler: if it fails, the rest of the
  run is abandoned and the run still returns null.

Modules:

- `Optional` holds the Option type.
- `JsValues` holds decoded JSON values, JavaScript truthiness, `a || b`, `x.name`.
- `Articles` holds the raw candidate, the stored `Record`, the `Collection` class
  (a `seq<Record>` that only `Add` changes), the duplicate query `Query` (at most one
  hit, and none exactly when the predicate `Stored` is false) and the outcome log
  with its `Count`.
- `BraceRegion` is the regex extraction.
- `HeuristicEnrichment` holds the random draws.
- `ScheduledFetcher` and `AnalyzingFetcher` are the two runs.

Every external effect is a parameter:
- the feed response (`FeedResponse`);
- per batch position, an `Effects` value. It says whether the duplicate query succeeds,
  what `Math.random()` returned or what the model replied, and whether the write
  succeeds;
- `JSON.parse` as a function from the scraped text to the parsed object's members;
- the API keys as JavaScript values.

Each run is a method with the source's loop, written against a collection object. Its
postcondition ties the new collection, the log and the status to a specification
function (`ScheduledRun`, `AnalyzingRun`). That function is built from `Walk`, a
recursive function that processes the candidates in the same order as the loop, and
`StepOf`, which processes one candidate. The lemmas are proved about those functions.

A few choices follow the code rather than the intended design:
- **Failure scope.** The design isolates failures per item. In the heuristic variant
  any failure aborts the remaining batch.
- **Importance scale.** The two variants keep their different importance scales. The
  heuristic one is 1-100; the AI one stores whatever the model produced, unchecked.
- **One record per url.** This is not guaranteed by the AI variant. It queries the raw
  url but stores `url || ""`, so a candidate whose url is null is stored again on every
  occurrence. `AnalyzingFetcher.NullUrlStoredTwice` exhibits this, and uniqueness is
  proved under the hypothesis `KeysPreserved`.
- **Top zoom level.** The comment at functions/index.js:130 says "minZoom-20". The
  formula never yields 20, and the model proves the bound 19.
- **Undefined urls.** The document store refuses `undefined` as a query value, so a
  candidate whose url is undefined makes the duplicate lookup throw. The model treats
  that like a failed query.

## Model

| member | source | states |
|---|---|---|
| `JsValues.Member` | functions_firebase/index.js:86 | reading `source.name` throws exactly when `source` is null or undefined |
| `Articles.Query` | functions/index.js:104-110 | the duplicate query returns at most one document, only documents whose url equals the queried value exactly (null matching null), and nothing exactly when no stored record has that url |
| `Articles.Collection.Add` | functions_firebase/index.js:96 | a write appends exactly one record and changes no stored record |
| `BraceRegion.MatchSpan` | functions_firebase/index.js:75 | the span reported by `/\{[^]*\}/` is a match of the pattern, it is the leftmost match, and it is the longest match from that start; it runs from the first `{` of the text to its last `}`; there is no span iff the pattern matches nowhere |
| `BraceRegion.Match` | functions_firebase/index.js:75-78 | a match exists iff some `{` is followed later by a `}`; the match opens with `{` and closes with `}` |
| `BraceRegion.MatchIsFirstToLast` | functions_firebase/index.js:75 | given the first `{` at i and the last `}` at j > i, the match is exactly the text from i to j |
| `BraceRegion.WrappedObject` | functions_firebase/index.js:74-75 | an object wrapped in text without braces of its own (such as a code fence) is extracted exactly |
| `BraceRegion.CodeFencedReply` | functions_firebase/index.js:74-75 | a reply of `{"location":"Seoul","importance":8}` inside a json code fence yields exactly the object |
| `HeuristicEnrichment.Below` | functions/index.js:128-130 | `Math.floor(Math.random() * n)` lies in [0, n) |
| `HeuristicEnrichment.BelowReaches` | functions/index.js:128-130 | every integer of [0, n) is drawn by some value of `Math.random()` |
| `HeuristicEnrichment.Importance` | functions/index.js:128 | importance lies in [1, 100] |
| `HeuristicEnrichment.MinZoom` | functions/index.js:129 | minZoom lies in [1, 5] |
| `HeuristicEnrichment.MaxZoom` | functions/index.js:130 | maxZoom lies in [minZoom, 19]; it never reaches the 20 the comment announces |
| `HeuristicEnrichment.DrawsCoverTheirRanges` | functions/index.js:128-130 | every importance in [1, 100] and every zoom pair with 1 <= minZoom <= 5 and minZoom <= maxZoom <= 19 can be drawn |
| `ScheduledFetcher.PlacedRecord` | functions/index.js:133-146 | the written record carries the candidate's url, title, description, image url and publishedAt unchanged, the given non-empty source, and scores and zoom hints in range |
| `ScheduledFetcher.StepOf` | functions/index.js:102-150 | a candidate is skipped iff the lookup succeeds and finds its url; it is inserted iff the url is unseen, `source` can be read and the write succeeds; the inserted record is `PlacedRecord` of the candidate with source `name \|\| "NewsAPI"` and its own draws |
| `ScheduledFetcher.Walk` | functions/index.js:102-151 | the loop over the batch as a specification: each position applies `StepOf` to the store left by the earlier ones and logs its outcome, and the loop stops at the first abort; its properties are stated by `WalkAppends`, `WalkLogLength`, `WalkCounts` and the lemmas below |
| `ScheduledFetcher.ScheduledRun` | functions/index.js:83-160 | the feed is requested iff the news key is truthy; without the key the run writes and logs nothing; a failed request or a missing `articles` list ends as "internal" with nothing written; a normal end needs an article list |
| `ScheduledFetcher.ScheduledNewsFetcher` | functions/index.js:71-161 | the loop leaves the collection, log and status equal to `ScheduledRun` of the old collection |
| `ScheduledFetcher.WalkShape` | functions/index.js:102-151 | the loop only appends and the old records are a prefix of the new ones; the log has one entry per candidate it got through, all of them unless it aborted; the store grows by the number of Inserted entries; nothing is dropped |
| `ScheduledFetcher.WalkAppends` | functions/index.js:102-151 | the loop only appends: the old store is a prefix of the new one and the old log a prefix of the new log |
| `ScheduledFetcher.WalkLogLength` | functions/index.js:102-151 | the loop logs at most one outcome per candidate, and fewer exactly when it was aborted |
| `ScheduledFetcher.WalkCounts` | functions/index.js:102-151 | the store grows by exactly the number of Inserted entries logged; nothing is logged as dropped |
| `ScheduledFetcher.WalkStopsAtFailure` | functions/index.js:102-160 | every logged candidate had a working lookup on a defined url, and every inserted one a readable `source` and a successful write; an aborted loop stopped at the first candidate whose step throws, and logged nothing after it; a loop that is not aborted logs every candidate |
| `ScheduledFetcher.WalkKeepsUnique` | functions/index.js:102-151 | each insert is awaited before the next lookup, so unique store urls stay unique, even when a url repeats in the batch |
| `ScheduledFetcher.WalkRecords` | functions/index.js:127-146 | every appended record has importance in [1, 100], 1 <= minZoom <= 5 and minZoom <= maxZoom <= 19, and is exactly `PlacedRecord` of a candidate the log marks Inserted, with that candidate's draws |
| `ScheduledFetcher.WalkStoresAll` | functions/index.js:102-151 | a loop that does not abort leaves every candidate's url stored |
| `ScheduledFetcher.WalkOverStoredBatch` | functions/index.js:104-110 | when every url is already stored and every lookup succeeds, everything is skipped and the store is unchanged |
| `ScheduledFetcher.RunAppendsOnly` | functions/index.js:88-160 | a run only appends, and grows the store by its Inserted count; a run that ends normally logs every candidate; an "internal" error comes only after the fetch |
| `ScheduledFetcher.RunKeepsUnique` | functions/index.js:102-151 | unique store urls before a run stay unique after it |
| `ScheduledFetcher.RunRecordsEnriched` | functions/index.js:127-146 | every record a run writes has its scores and zoom hints in range and is the record built for a candidate the run's log marks Inserted |
| `ScheduledFetcher.RerunChangesNothing` | functions/index.js:102-151 | a second run over the same batch after a normal run skips every candidate and writes nothing |
| `ScheduledFetcher.ThreeCandidatesOneKnown` | functions/index.js:102-150 | three candidates, one already stored, every call succeeding: two records are written and the middle one is skipped |
| `AnalyzingFetcher.Analyse` | functions_firebase/index.js:71-80 | an analysis exists iff the model replied, the reply holds a `{ ... }` region and that region parses; location and importance are the parsed members as they are, undefined when missing |
| `AnalyzingFetcher.NewsArticleData` | functions_firebase/index.js:83-94 | title, author, source name, url and image url default to "" when falsy; content falls back from content to description to ""; locationText and importance are stored exactly as parsed; a null or undefined `source` makes construction fail |
| `AnalyzingFetcher.Handled` | functions_firebase/index.js:51-102 | the per-item handler writes a record iff analysis, construction and write all succeed; that record is the one `newsArticleData` builds from the parsed reply, stored under url `url \|\| ""`; a missing reply or one without a brace pair writes nothing |
| `AnalyzingFetcher.StepOf` | functions_firebase/index.js:43-102 | the run is abandoned iff the lookup throws; a candidate is skipped iff the lookup finds its url; it is dropped iff its url is unseen and the handler fails; otherwise the handler's record is inserted |
| `AnalyzingFetcher.Walk` | functions_firebase/index.js:43-103 | the loop over the batch as a specification: each position applies `StepOf` to the store left by the earlier ones, logs Skipped, Dropped or Inserted, and a throwing lookup abandons the rest; its properties are stated by `WalkAppends`, `WalkLogLength`, `WalkCounts` and the lemmas below |
| `AnalyzingFetcher.AnalyzingRun` | functions_firebase/index.js:21-38 | the feed is requested iff both keys are truthy, and a missing key means no writes; a failed request abandons the run with no writes; a missing or empty article list ends the run with no writes |
| `AnalyzingFetcher.FetchNewsAndAnalyze` | functions_firebase/index.js:18-111 | the loop leaves the collection, log and status equal to `AnalyzingRun` of the old collection |
| `AnalyzingFetcher.WalkShape` | functions_firebase/index.js:43-103 | the loop only appends with old records a prefix; it logs one entry per candidate it got through, all unless abandoned; the store grows by the Inserted count |
| `AnalyzingFetcher.WalkAppends` | functions_firebase/index.js:43-103 | the loop only appends: the old store is a prefix of the new one and the old log a prefix of the new log |
| `AnalyzingFetcher.WalkLogLength` | functions_firebase/index.js:43-103 | the loop logs at most one outcome per candidate, and fewer exactly when it was abandoned |
| `AnalyzingFetcher.WalkCounts` | functions_firebase/index.js:43-103 | the store grows by exactly the number of Inserted entries logged |
| `AnalyzingFetcher.WalkAbandonsOnlyAtLookup` | functions_firebase/index.js:43-110 | every candidate the loop got through had a working lookup, and its outcome is explained by its own effects; an abandoned loop stopped at the first lookup that threw |
| `AnalyzingFetcher.WalkExplained` | functions_firebase/index.js:43-102 | every logged candidate had a working lookup; an inserted one got through analysis, construction and write, and a dropped one failed in one of them |
| `AnalyzingFetcher.WalkStopsAtLookup` | functions_firebase/index.js:43-110 | an abandoned loop stopped at the first candidate whose duplicate lookup threw; a loop that is not abandoned logs every candidate |
| `AnalyzingFetcher.WalkKeepsUnique` | functions_firebase/index.js:43-103 | when every candidate is stored under its lookup url, unique store urls stay unique |
| `AnalyzingFetcher.WalkRecords` | functions_firebase/index.js:79-96 | every appended record is the one the handler wrote (`newsArticleData` of the candidate and its parsed reply, with the write succeeding) for a candidate the log marks Inserted |
| `AnalyzingFetcher.WalkStoresAll` | functions_firebase/index.js:43-103 | when `url \|\| ""` leaves every candidate's url unchanged, a loop that is not abandoned leaves stored the url of every candidate it did not drop |
| `AnalyzingFetcher.WalkOverStoredBatch` | functions_firebase/index.js:45-49 | when every url is already stored and every lookup works, everything is skipped and nothing is written |
| `AnalyzingFetcher.RunIsolatesItems` | functions_firebase/index.js:43-110 | a run is abandoned iff some duplicate lookup throws; otherwise it completes with one outcome per candidate; each outcome is explained by that candidate's own effects; inserted + skipped + dropped = outcomes logged |
| `AnalyzingFetcher.ReplyWithoutObject` | functions_firebase/index.js:75-78 | a reply without a `{ ... }` region loses only its own candidate; the run still completes and logs every candidate |
| `AnalyzingFetcher.SeoulAnalysed` | functions_firebase/index.js:75-80 | a bare `{"location":"Seoul","importance":8}` reply is extracted whole, and its parse yields location "Seoul" and importance 8 |
| `AnalyzingFetcher.NullUrlInsertedTwice` | functions_firebase/index.js:45-96 | for any analysis, a null-url candidate appearing twice with both lookups, analyses and writes succeeding is appended twice, as the same record |
| `AnalyzingFetcher.RunAppendsAndKeepsUnique` | functions_firebase/index.js:43-103 | a run only appends and grows the store by its Inserted count; uniqueness is kept when no url is defaulted; every new record is the one the handler wrote for a candidate the run's log marks Inserted |
| `AnalyzingFetcher.NullUrlStoredTwice` | functions_firebase/index.js:45-96 | a batch holding a null-url candidate twice, with a complete analysis reply and every call succeeding, stores two records with url "" and the parsed location and importance |
| `AnalyzingFetcher.RerunChangesNothing` | functions_firebase/index.js:43-103 | when `url \|\| ""` leaves every candidate's url unchanged: after a run that completed without drops, a second run over the same batch whose lookups work skips every candidate and writes nothing |

## Left out

- `crawlArticle` (functions/index.js:8-69), the single-url preview, is not part of this model. It is an authentication and argument gate around HTML meta-tag reads, which are library calls.
- HTTP requests, document-store queries and writes, and calls to the generative model are not modelled as behaviour. Each is an oracle value per batch position.
- `JSON.parse` is an oracle function on the scraped text. Only the extraction that feeds it is modelled.
- The random coordinates (functions/index.js:123-125) and the GeoPoint are left out. They are floating point.
- `Math.random()` is an exact real in [0, 1). The model relies on floating-point `r * n` staying below n, which holds for these small n.
- The generated document id, `serverTimestamp()` for `createdAt`, and the date conversion of `publishedAt` are left out. They are clock and date-parsing library calls. A record keeps the raw `publishedAt`. A conversion or write the store rejects, including undefined field values, is covered by the failed-write outcome.
- Configuration reading is left out: `functions.config()` at module load, the unused geocoding settings, the URL defaults, and client construction. The keys are parameters.
- Logging, the prompt text, the messages of the thrown errors, and the deployment comment block are left out.
- Non-integer numbers and NaN have no JSON value in the model. An `articles` field that is present but is not a list is not modelled either.
- Every entry of `articles` is modelled as an object. An entry that is null or not an object is not modelled. For such an entry the duplicate lookup throws: reading `url` of null throws, and on any other non-object it reads undefined, which the query refuses. That ends the heuristic run as "internal" and abandons the AI-assisted run.
- Overlapping scheduled runs are not modelled. The model is one sequential run, so the race between a lookup and the following insert is not represented.
- A generative-model call that hangs is not modelled, and neither is the scheduler's deadline.
