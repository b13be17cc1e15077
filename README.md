# arxiv-feed-viewer, modelled in Dafny

This project models the ingestion-and-enrichment core of arxiv-feed-viewer, plus the
store and the read paths built on it:

- **Discovery.** The arXiv search and its client-side date window.
- **Enrichment.** The cached PDF download and the Grok enrichment client: rate limiter,
  tenacity retry, reply normalisation, list check, count warning, and filtering and
  truncating the key points.
- **Ingestion.** The `fetch_new_papers` cycle: deduplication, one commit per paper, and
  rollback on a fatal error.
- **Store.** The SQLite store: three tables, the `papers_fts` index kept in step by
  triggers, and sessions with commit and rollback.
- **Read paths.** The paginated listing, full-text search, single-paper and bookmark
  lookups, and the bookmark endpoints.
- **Backfill.** The script that adds missing analyses.

The project has one module per source file:

| module | models |
|---|---|
| `Wrappers` | `Option` and `Result` |
| `Time` | the wall clock and `time.sleep` |
| `Models` | `models.py` |
| `Database` | `database.py` |
| `ArxivService` | `arxiv_service.py` |
| `GrokService` | `grok_service.py` |
| `PaperService` | `paper_service.py` |
| `Bookmarks` | `routers/bookmarks.py` |
| `AddMissingAnalysis` | `scripts/add_missing_analysis.py` |

How the model is built:

- **Tables and sessions.** A table is a map from primary key to row. Analyses and
  bookmarks are keyed by the paper id, because their `paper_id` is UNIQUE. A
  `Database.Session` object holds the tables as the session sees them, the last committed
  tables, the next rowid, and whether `init_db` has created the index. Its methods
  (`AddPaper`, `AddAnalysis`, `Commit`, `Rollback`, …) are proved against pure functions
  on a `Store` value (`WithPaper`, `WithAnalysis`, …). Those functions carry the
  constraint checks and the trigger effects.
- **The ingestion cycle.** `PaperService.Run` specifies the cycle as a fold of `Step`
  over what the loop learns about each candidate. `FetchNewPapers` is the imperative loop
  against a session, and is proved to end in the state `Run` gives. The lemmas about `Run`
  carry the cycle's promises.
- **The backfill.** It is specified by `AddMissingAnalysis.BackfillRun` and implemented
  by `AddMissing`/`AnalyzeEach` in the same way.
- **Queries.** Queries are pure functions on a `Store`: the id lists a query returns,
  newest first, windowed by `LIMIT`/`OFFSET` with SQLite's reading of negative values.
- **The outside world.** Everything external arrives as a parameter:
  - arXiv results;
  - what a download did;
  - what each POST to the chat endpoint gave;
  - `json.loads`, as a classifying function;
  - the FTS5 `MATCH` test, as a predicate on index rows;
  - which commits raise.

## Model

| member | source | states |
|---|---|---|
| Models.HasArxivIdIsMembership | backend/services/paper_service.py:48-49 | the dedup lookup finds a paper exactly when the id is among the stored `arxiv_id`s |
| Database.Projection | backend/database.py:38-46 | the external-content index has exactly one row per paper, with the paper's rowid |
| Database.WithPaper | backend/database.py:49-54 | an INSERT is refused (UNIQUE `arxiv_id`) iff the id is stored. Otherwise the row gets rowid `nextId`, the insert trigger adds its index row, the other tables stay as they were, and the constraints and index stay intact |
| Database.WithUpdatedPaper | backend/database.py:56-64 | an UPDATE of a missing row changes nothing, and taking another paper's `arxiv_id` is refused. Otherwise the row is replaced and the update trigger rewrites only that index row, keeping the constraints and index intact |
| Database.UpdateKeepsGood | backend/database.py:56-64 | replacing a paper with one whose `arxiv_id` is not used elsewhere keeps UNIQUE and index consistency |
| Database.WithoutPaper | backend/database.py:66-70 | deleting a paper cascades to its analysis and bookmark (ORM cascade), the delete trigger drops its index row, and nothing else changes |
| Database.WithAnalysis | backend/models.py:37 | an analysis insert is refused iff the paper already has one (UNIQUE `paper_id`); otherwise exactly that row is added |
| Database.WithBookmark | backend/models.py:51 | a bookmark insert is refused iff the paper already has one (UNIQUE `paper_id`); otherwise exactly that row is added |
| Database.WithoutBookmark | backend/routers/bookmarks.py:61 | deleting a bookmark removes exactly that row and keeps the store consistent |
| Database.ApplyAllKeepsGood | backend/database.py:49-70 | any sequence of inserts, updates and deletes keeps the constraints and keeps the index equal to the projection of `papers` |
| Database.IndexFollowsPapers | backend/database.py:49-70 | from a new database, after any writes, the index is exactly one (arxiv_id, title, abstract) row per paper |
| Database.Session.constructor | backend/database.py:28 | a new database has empty tables, no index yet, and nothing uncommitted |
| Database.Session.InitDb | backend/database.py:26-72 | after `init_db` the index exists. A second call, finding `papers_fts`, changes nothing |
| Database.Session.AddPaper | backend/services/paper_service.py:72-73 | `add` + `flush` of a paper: the store becomes `WithPaper`, and the new id is returned, or the UNIQUE error with nothing changed |
| Database.Session.UpdatePaper | backend/database.py:56-64 | an UPDATE through the session is `WithUpdatedPaper` |
| Database.Session.DeletePaper | backend/database.py:66-70 | a delete through the session is `WithoutPaper` |
| Database.Session.AddAnalysis | backend/services/paper_service.py:83-88 | adding an analysis row: an error iff one exists, else exactly that row is added |
| Database.Session.AddBookmark | backend/routers/bookmarks.py:35-40 | adding a bookmark row: an error iff one exists, else exactly that row is added |
| Database.Session.DeleteBookmark | backend/routers/bookmarks.py:61 | removing a bookmark row is `WithoutBookmark` |
| Database.Session.Commit | backend/services/paper_service.py:96 | the pending writes become the committed state, and the tables are unchanged |
| Database.Session.Rollback | backend/services/paper_service.py:104 | the tables return to the last committed state |
| Time.Clock.Read | backend/services/grok_service.py:29 | reading the clock never goes backwards |
| Time.Clock.Sleep | backend/services/grok_service.py:33 | a sleep lasts at least as long as asked |
| ArxivService.Recent | backend/services/arxiv_service.py:54-64 | keeps exactly those results whose effective date (updated, else published, naive read as UTC) is on or after now minus `days_back` days |
| ArxivService.RecentIsSubsequence | backend/services/arxiv_service.py:54-64 | the kept results are in the client's order |
| ArxivService.FutureDatedIsKept | backend/services/arxiv_service.py:41-42 | the window has no upper bound: a result dated after now is kept |
| ArxivService.SearchPapers | backend/services/arxiv_service.py:39-67 | the loop over the client's results returns exactly `Recent` of them |
| ArxivService.ReplaceChar | backend/services/arxiv_service.py:86 | `str.replace` of one character: same length, only that character changed |
| ArxivService.SafeId | backend/services/arxiv_service.py:86 | the file-name id has the same length, contains no `/` or `:`, puts `_` exactly where they were, and keeps every other character |
| ArxivService.SafeIdInjective | backend/services/arxiv_service.py:86-88 | ids without `_` or `:` never share a cached PDF |
| ArxivService.SafeIdMergesSeparators | backend/services/arxiv_service.py:86 | any two ids of equal length that differ only where one has `/` and the other `:` map to the same file name |
| ArxivService.PdfPath | backend/services/arxiv_service.py:86-88 | the PDF path is in the storage directory, named by the safe id plus `.pdf` |
| ArxivService.ArxivClient.constructor | backend/services/arxiv_service.py:12-19 | the download delay defaults to 3 seconds |
| ArxivService.ArxivClient.DownloadPdf | backend/services/arxiv_service.py:84-109 | an existing file is returned at once, with no download and no sleep. Otherwise there is one download, then a fixed sleep, and the path iff the file is there. It never raises: a failed download or an invalid sleep gives None. The result is `DownloadResult` of the path, whether the file already existed, the outcome and the delay |
| ArxivService.ArxivClient.DownloadPdfTwice | backend/services/arxiv_service.py:90-93 | once a download succeeded, asking again returns the same path without downloading |
| GrokService.Strip | backend/services/grok_service.py:103 | `str.strip()` cuts only whitespace (Python's set) from both ends, and what is left starts and ends with non-whitespace |
| GrokService.StripOfStripped | backend/services/grok_service.py:111 | stripping an already stripped text changes nothing |
| GrokService.FencedBody | backend/services/grok_service.py:108 | `split("```")[1]` is the text after the opening fence up to the next fence or the end, and it contains no fence |
| GrokService.DropJsonTagInverse | backend/services/grok_service.py:109-110 | removing the tag undoes prefixing it, for every text, and a text without a leading `json` passes through unchanged |
| GrokService.Unfence | backend/services/grok_service.py:107-111 | the fenced case yields stripped, fence-free text |
| GrokService.NormalizeReply | backend/services/grok_service.py:103-111 | the text given to `json.loads` is stripped: unchanged for an unfenced reply, fence-free for a fenced one |
| GrokService.NormalizeFencedRoundTrip | backend/services/grok_service.py:103-111 | a stripped, fence-free payload wrapped in a fenced block (with or without a `json` tag) comes back exactly |
| GrokService.NormalizePlain | backend/services/grok_service.py:103 | an unfenced stripped reply is passed on unchanged |
| GrokService.Truncate | backend/services/grok_service.py:124 | `point[:120]`: a prefix of at most 120 characters, the whole point when it is short enough |
| GrokService.KeepStrings | backend/services/grok_service.py:124 | the filtered list is no longer than the parsed one, and every point has at most 120 characters |
| GrokService.KeepStringsAppend | backend/services/grok_service.py:124 | the filter works element by element |
| GrokService.KeepStringsAllStrings | backend/services/grok_service.py:124 | a list of strings keeps every element in order, each truncated |
| GrokService.KeepStringsDropsOthers | backend/services/grok_service.py:124 | non-string elements are dropped |
| GrokService.DecodeReply | backend/services/grok_service.py:107-124 | a JSON error gives NotJson; a non-list gives NotAList; a list gives exactly `KeepStrings` of the parsed items (no more of them, each at most 120 characters), with a warning iff the raw count is outside 5–7 |
| GrokService.CountOnlyWarns | backend/services/grok_service.py:120-127 | a list of strings of any length is returned whole, each string truncated to 120 characters in order: a count outside 5–7 only warns |
| GrokService.AttemptBody | backend/services/grok_service.py:74-137 | one attempt raises iff the POST failed with an HTTP error, and then re-raises it. A reply without content gives None; a reply that parses to a list gives exactly its kept, truncated strings; any other parse gives None. A returned list comes from a parsed JSON list |
| GrokService.BackoffWait | backend/services/grok_service.py:38 | `wait_exponential(multiplier=1, min=2, max=10)` waits between 2 and 10 seconds |
| GrokService.RetryFrom | backend/services/grok_service.py:36-41 | retries only HTTP errors, for at most 3 attempts, and returns the last attempt's outcome. Each wait between attempts is the back-off for that attempt |
| GrokService.RetrySucceedsOnThirdAttempt | backend/services/grok_service.py:36-41 | two transient failures then a value give that value after exactly two waits of 2 seconds |
| GrokService.RetryReraisesLastFailure | backend/services/grok_service.py:36-41 | three transient failures re-raise the third (`reraise=True`) |
| GrokService.RetryStopsOnOtherOutcomes | backend/services/grok_service.py:39 | a value, or a non-HTTP exception, ends the call at the first attempt |
| GrokService.AnalysisReturnsKeptPoints | backend/services/grok_service.py:36-137 | after HTTP failures on the first k attempts, a reply that parses to a list ends the call at attempt k+1 with that list's kept, truncated strings |
| GrokService.OnlyHttpErrorsEscape | backend/services/grok_service.py:129-137 | only an HTTP error can leave `analyze_paper`. JSON and any other error become None |
| GrokService.RateLimitSleep | backend/services/grok_service.py:29-33 | sleeps iff less than the delay has elapsed, and then exactly for the remainder |
| GrokService.Grok.constructor | backend/services/grok_service.py:12-25 | the defaults are `grok-4-1-fast-reasoning` and a 6-second spacing, with no previous request |
| GrokService.Grok.RateLimit | backend/services/grok_service.py:27-34 | after `_rate_limit`, the recorded request time is now, and at least the delay after the previous request time |
| GrokService.Grok.AnalyzePaper | backend/services/grok_service.py:36-57 | the retried call gives exactly the `Retry` outcome of its attempts, and each attempt runs the rate limiter first |
| PaperService.MakePaper | backend/services/paper_service.py:59-70 | the stored record carries the candidate's id, title, authors, abstract, published date, updated date (when present), PDF URL, categories and primary category, and a local path iff the download gave one, equal to `str(pdf_path)` |
| PaperService.Ingest | backend/services/paper_service.py:56-92 | a new candidate adds one paper at the next rowid, and its analysis iff the key points are non-empty. Bookmarks are untouched and the stored ids grow by the candidate's id |
| PaperService.Step | backend/services/paper_service.py:44-97 | a known id is skipped. A new one is added and committed, unless handling it raises (the storage `mkdir`, the flush or the commit): then the session rolls back to the last commit and the cycle stops |
| PaperService.Run | backend/services/paper_service.py:44-100 | the loop keeps the store consistent and indexed |
| PaperService.RunCounts | backend/services/paper_service.py:31-32 | a completed cycle counts every candidate once, as added or skipped; an aborted one counts fewer |
| PaperService.RunKeepsRows | backend/services/paper_service.py:56-97 | stored rows are never changed, bookmarks untouched, one new paper per added candidate, and nothing left uncommitted |
| PaperService.RunRecordsIds | backend/services/paper_service.py:47-97 | each added candidate is a new distinct `arxiv_id`. Only candidates' ids appear, and a completed cycle stores all of them |
| PaperService.KnownCandidatesAreSkipped | backend/services/paper_service.py:47-52 | candidates that are all stored already are all skipped, and nothing changes |
| PaperService.RunIsIdempotent | backend/services/paper_service.py:47-52 | re-running over the same candidates adds nothing, whatever downloads and analyses give |
| PaperService.AddedCountsNewIds | backend/services/paper_service.py:47-97 | a completed cycle adds exactly the number of distinct new `arxiv_id`s |
| PaperService.AbortedRunStays | backend/services/paper_service.py:102-105 | after an abort no further candidate is processed |
| PaperService.EarlierCommitsSurvive | backend/services/paper_service.py:96-105 | rows committed for earlier candidates survive whatever happens later, abort included |
| PaperService.RepeatedCandidateIsSkipped | backend/services/paper_service.py:47-52 | a candidate whose id appeared earlier in the same cycle is skipped |
| PaperService.StageCandidate | backend/services/paper_service.py:54-94 | download, paper insert, analysis and optional analysis row leave the session at `Ingest` of what was observed, with nothing committed. The stored `pdf_local_path` is what `download_pdf` gives for this download outcome and for whether the file was already on disk. When a path is stored the file is on disk. The disk gains the saved file and nothing else |
| PaperService.StepAdds | backend/services/paper_service.py:96-97 | a new candidate whose commit succeeds becomes the committed state and is counted |
| PaperService.ProcessCandidate | backend/services/paper_service.py:44-97 | one loop turn leaves the session in the state `Step` gives, and reports skipped, added or aborted, with the counters moved accordingly. Its record holds the `download_pdf` result for this download and for whether the file was on disk before the turn. The disk gains at most the saved file |
| PaperService.PadAborted | backend/services/paper_service.py:102-105 | candidates after an abort change nothing |
| PaperService.IngestCandidates | backend/services/paper_service.py:44-100 | the loop ends in `Run`'s state and counters. It fails iff handling a candidate raised. Each candidate's record, and so its stored `pdf_local_path`, is the `download_pdf` result for its own download and a cached flag. The flag is set for a file on disk before the run. It is set only for such a file or one an earlier candidate saved (`CachedFlags`). The disk only gains saved files (`DiskFrom`) |
| PaperService.FetchNewPapers | backend/services/paper_service.py:20-105 | a failed search rolls back and re-raises, leaving the disk alone. Otherwise the windowed candidates are processed and the session ends in `Run`'s state, returning `(added, skipped)` unless handling a candidate raised. Each stored `pdf_local_path` is the `download_pdf` result for that candidate's download and cached flag, with the flags and the disk bounded as for `IngestCandidates` |
| PaperService.Listing | backend/services/paper_service.py:170 | a scan by rowid gives each matching key once, in increasing order |
| PaperService.ListingFindsAll | backend/services/paper_service.py:170 | the scan finds every key, without repetition |
| PaperService.InsertByDate | backend/services/paper_service.py:173 | inserting one id adds exactly that id |
| PaperService.InsertKeepsOrder | backend/services/paper_service.py:173 | inserting into a newest-first list keeps it newest first |
| PaperService.SortByDate | backend/services/paper_service.py:173 | `sort(key=published_date, reverse=True)` gives a newest-first list |
| PaperService.SortIsPermutation | backend/services/paper_service.py:173 | the sort is a permutation of its input |
| PaperService.SortKeepsElems | backend/services/paper_service.py:173 | the sort keeps the length and the set of ids |
| PaperService.Skip | backend/services/paper_service.py:135 | `OFFSET` skips at most the rows there are |
| PaperService.WindowLength | backend/services/paper_service.py:134-135 | the `LIMIT` window fits after the skipped rows |
| PaperService.Window | backend/services/paper_service.py:133-136 | `LIMIT`/`OFFSET` is one contiguous slice of the ordered rows |
| PaperService.SliceIsNewest | backend/services/paper_service.py:133 | a slice of a newest-first list is newest first |
| PaperService.WindowNoRepeats | backend/services/paper_service.py:133-136 | a window repeats nothing and takes nothing new. The full window is the whole list |
| PaperService.WindowsTile | backend/services/paper_service.py:133-136 | two consecutive windows of n rows are the window of 2n rows |
| PaperService.Ranked | backend/services/paper_service.py:133-136 | the ordered, windowed ids are newest first and distinct, of the window's length. From offset 0, no unreturned row is newer than a returned one |
| PaperService.TopIsNewest | backend/services/paper_service.py:133-136 | the first rows of a newest-first order are no older than the rest |
| PaperService.Matching | backend/services/paper_service.py:126-129 | the listing ranges over all papers, or over those joined to a bookmark |
| PaperService.GetPapers | backend/services/paper_service.py:107-138 | the total counts all matching papers. The page is newest first, distinct, drawn from them, of the window's length, and the whole set when uncut |
| PaperService.PagesTile | backend/services/paper_service.py:133-136 | consecutive pages of n papers concatenate to the page of 2n papers |
| PaperService.LookupsAfterIngest | backend/services/paper_service.py:140-142 | after a candidate is ingested, the lookup by the new id finds the record built from it (nothing was there before); other ids and the bookmark flag answer as before |
| PaperService.GetPaperMatchesArxivLookup | backend/services/paper_service.py:140-142 | the paper found by id is the one the dedup lookup finds by its arXiv id, and the only one with that id |
| PaperService.BookmarkedPaperExists | backend/services/paper_service.py:177-180 | a bookmarked paper can always be fetched by id |
| PaperService.Hits | backend/services/paper_service.py:157-161 | the FTS join yields stored papers only |
| PaperService.SearchStored | backend/services/paper_service.py:144-175 | results are newest first, distinct, matching, and `LIMIT` long (all hits when the limit does not cut). No matching paper left out is newer than one returned |
| PaperService.SearchMatchesPapers | backend/services/paper_service.py:157-161 | thanks to the triggers, search hits are exactly the papers whose (arxiv_id, title, abstract) match |
| Bookmarks.Create | backend/routers/bookmarks.py:25-44 | 404 iff the paper does not exist, and 400 iff it is already bookmarked. Otherwise exactly that bookmark is added, keeping the store consistent |
| Bookmarks.Delete | backend/routers/bookmarks.py:56-64 | 404 iff no bookmark exists; otherwise exactly that bookmark is removed |
| Bookmarks.CreateThenDeleteRestores | backend/routers/bookmarks.py:25-64 | creating and then deleting a bookmark restores the tables |
| Bookmarks.DeleteThenCreateRestores | backend/routers/bookmarks.py:25-64 | deleting and re-creating a bookmark with its notes restores the tables |
| Bookmarks.CreateRefusedIffBookmarked | backend/routers/bookmarks.py:30-32 | create answers 400 exactly when the paper exists and `is_bookmarked` holds for it |
| Bookmarks.IsBookmarkedAfterCreate | backend/services/paper_service.py:177-180 | after a create, `is_bookmarked` turns from false to true for that paper only, and the papers are untouched |
| Bookmarks.IsBookmarkedAfterDelete | backend/services/paper_service.py:177-180 | after a delete, `is_bookmarked` turns from true to false for that paper only, and the papers are untouched |
| Bookmarks.CreateTwiceIsRefused | backend/routers/bookmarks.py:30-32 | a second create for the same paper answers 400 |
| Bookmarks.DeleteTwiceIsNotFound | backend/routers/bookmarks.py:56-59 | a second delete answers 404 |
| Bookmarks.CreateBookmark | backend/routers/bookmarks.py:12-44 | an error writes and commits nothing; success adds the bookmark, commits it, and returns it |
| Bookmarks.DeleteBookmark | backend/routers/bookmarks.py:47-64 | an error writes and commits nothing; success removes the bookmark and commits |
| Bookmarks.ListBookmarks | backend/routers/bookmarks.py:67-85 | one entry per bookmark, for the bookmark's paper, flagged as bookmarked, with no paper twice |
| Bookmarks.BookmarkRows | backend/routers/bookmarks.py:75-76 | the bookmark rows name every bookmarked paper once, and each is a stored paper |
| Bookmarks.ItemsOfRows | backend/routers/bookmarks.py:76-85 | an entry per bookmark row, carrying that row's paper, is the list answer |
| AddMissingAnalysis.Selected | scripts/add_missing_analysis.py:33-36 | the outer join selects exactly the papers without an analysis, each once |
| AddMissingAnalysis.BackfillRun | scripts/add_missing_analysis.py:48-80 | the loop changes only analyses, keeps existing ones, and adds only selected papers' |
| AddMissingAnalysis.BackfillAnalyses | scripts/add_missing_analysis.py:61-69 | afterwards a paper has an analysis iff it had one or was selected with non-empty key points and a good commit; that analysis holds its key points |
| AddMissingAnalysis.BackfillCounts | scripts/add_missing_analysis.py:48-80 | every selected paper is counted once. `analyzed` is the number with non-empty key points and a good commit |
| AddMissingAnalysis.BackfillKeepsGood | scripts/add_missing_analysis.py:63-69 | the backfill keeps the constraints and the index |
| AddMissingAnalysis.EarlierAnalysesPersist | scripts/add_missing_analysis.py:69-80 | an analysis committed early survives later failures and rollbacks |
| AddMissingAnalysis.StoreAnswer | scripts/add_missing_analysis.py:61-80 | one paper's answer: non-empty key points are stored and committed; anything else, or a failing commit, counts as failed and leaves nothing pending |
| AddMissingAnalysis.AnalyzeEach | scripts/add_missing_analysis.py:48-80 | the loop ends in `BackfillRun`'s state and counters |
| AddMissingAnalysis.AddMissing | scripts/add_missing_analysis.py:23-89 | nothing to do iff every paper has an analysis, and then nothing changes. Otherwise the result is `BackfillRun` over the selected papers |

## Left out

- **External services and files.**
  - Network, HTTP, and the arXiv client are modelled only by their results, given as
    parameters: the query, sorting, `max_results`, and the lazy result generator are left
    out.
  - The file system is a set of paths (`Disk`). Pathlib details are not modelled.
- **JSON and FTS5.**
  - `json.loads` is a parameter that classifies its input; no JSON parser is modelled.
  - FTS5 tokenisation and `MATCH` semantics are a predicate on index rows.
- **Time.**
  - Dates and times are integer seconds, and floating-point delays are not modelled.
  - Auto-filled timestamps (`created_at`, `analyzed_at`, `bookmarked_at`) and the
    surrogate ids of analysis and bookmark rows are not modelled.
  - `datetime.now` is read from the `Clock`.
- **Out of scope.**
  - `async`/`await`, logging, and `print` output.
  - HTTP status codes other than the bookmark router's errors, and response schemas.
  - `db.close()`, `get_db`, the FastAPI app and `routers/papers.py` (which only forwards
    to `PaperService`), the scheduler, and the frontend.
- **Row order.**
  - SQLite returns rows of equal `published_date`, and the rows of `list_bookmarks` and of
    the backfill selection, in an unspecified order. The model takes rowid order there,
    and a stable sort for `papers.sort`.
  - The contracts promise only the date order and the set of rows.
- **Foreign keys.** The store keeps the foreign keys of analyses and bookmarks as an
  invariant kept by the callers. SQLite is never told to enforce them (no
  `PRAGMA foreign_keys`), and every caller looks the paper up first.
- **Before `init_db`.** Data operations require that `init_db` has run. Only the
  one-off `scripts/init_db.py` calls it; the application itself never does. Writes
  before the index exists are not modelled.
- **Faults.** In `fetch_new_papers` the modelled faults are:
  - a search that raises;
  - a raise while one candidate is handled.

  A candidate's `commitFails` stands for any raise while it is handled: the `mkdir` of
  the storage directory, the flush or the commit. All three take the same
  rollback-and-raise path, so the tables end the same. The model lets the download run
  before the raise. A raising `mkdir` comes before `download_pdf` in the source, so there
  the model's disk may hold a file the source never downloaded. The download and the
  analysis themselves never raise out of the loop.
- DownloadPdf: a `Raised` download leaves the disk unchanged. `urlretrieve` can raise
  after writing part of the file, and a later run would take that partial file as
  cached. Partial files are not modelled.
- WithoutPaper: keeps `nextId`, so a rowid freed by deleting the highest row is not
  reused. SQLite's `INTEGER PRIMARY KEY` without `AUTOINCREMENT` would give the next
  insert the largest remaining rowid plus one. No code path deletes a paper, so the
  cycle and the endpoints are unaffected.
- **Bookmarks.Create** does not model `db.refresh(bookmark)`, which only reloads
  defaults.

Behaviour of the code worth noting:

- **PDF download delay.** The download "rate limiter" is a fixed sleep after each
  download. It is not an elapsed-time limiter.
- **Rate limiting and retries.**
  - The Grok rate limiter runs inside each retried attempt, not once before the retried
    call.
  - Tenacity's `wait_exponential(min=2)` gives waits of 2 and 2 seconds.
  - Every `httpx.HTTPError` is retried, including 4xx status errors.
- **Key points.**
  - The 5–7 count warning is computed on the raw parsed list, before non-strings are
    filtered out.
  - An empty list is returned as such and stored by nobody, since `if key_points:` is
    false.
- **Papers.** The author list of a paper is not checked to be non-empty.
