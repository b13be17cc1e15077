/**
 * The ingestion cycle `fetch_new_papers` and the read queries of the paper
 * service.
 *
 * The cycle is specified by `Run`, a fold of `Step` over the candidates;
 * `FetchNewPapers` runs it against a session, calling the arXiv search and
 * download and the enrichment client, and is proved to end in the state
 * `Run` describes. The lemmas about `Run` carry the promises of the cycle:
 * counters, deduplication, idempotence, what survives an abort.
 */
module PaperService {
  import opened Wrappers
  import opened Time
  import opened Models
  import opened Database
  import opened ArxivService
  import opened GrokService

  // ---------------------------------------------------------------------
  // One candidate

  /** The `Paper(...)` record built from an arXiv result and the downloaded file. */
  function MakePaper(c: ArxivResult, pdf: Option<Path>): (p: Paper)
    ensures p.arxivId == c.shortId && p.title == c.title && p.abstractText == c.summary
    ensures p.authors == c.authors && p.pdfUrl == c.pdfUrl
    ensures p.categories == c.categories && p.primaryCategory == c.primaryCategory
    ensures p.publishedDate == c.published.wall
    ensures p.updatedDate.Some? <==> c.updated.Some?
    ensures c.updated.Some? ==> p.updatedDate.value == c.updated.value.wall
    ensures p.pdfLocalPath.Some? <==> pdf.Some?
    ensures pdf.Some? ==> p.pdfLocalPath.value == pdf.value.ToString()
  {
    Paper(
      c.shortId, c.title, c.authors, c.summary, c.published.wall,
      (match c.updated case Some(u) => Some(u.wall) case None => None),
      c.pdfUrl,
      (match pdf case Some(path) => Some(path.ToString()) case None => None),
      c.categories, c.primaryCategory)
  }

  /** What `analyze_paper` amounts to for one paper, given what its POSTs give. */
  function AnalysisOf(calls: seq<CallOutcome>, parse: string -> Parsed): Outcome
    requires MaxAttempts <= |calls|
  {
    Retry(Attempts(calls, parse)).outcome
  }

  /** Everything the cycle learns about one candidate from the outside. */
  datatype Item = Item(
    candidate: ArxivResult,
    pdf: Option<Path>,         // what `download_pdf` returned
    analysis: Outcome,         // what `analyze_paper` returned or raised
    commitFails: bool)         // whether handling it raised: the storage `mkdir`, the flush or `db.commit()`

  /**
   * Adding a new candidate inside the session: the paper row (flushed, so it
   * gets the next id) and, when the analysis produced a non-empty list, its
   * analysis row tagged with the client's model.
   */
  function Ingest(s: Store, it: Item, model: string): (r: Store)
    requires Good(s) && !HasArxivId(s.papers, it.candidate.shortId)
    ensures Good(r)
    ensures s.nextId !in s.papers && r.nextId == s.nextId + 1
    ensures r.papers == s.papers[s.nextId := MakePaper(it.candidate, it.pdf)]
    ensures HasKeyPoints(it.analysis) ==>
              r.analyses == s.analyses[s.nextId := GrokAnalysis(it.analysis.points.value, None, model)]
    ensures !HasKeyPoints(it.analysis) ==> r.analyses == s.analyses
    ensures r.bookmarks == s.bookmarks
    ensures ArxivIds(r.papers) == ArxivIds(s.papers) + {it.candidate.shortId}
    ensures it.candidate.shortId !in ArxivIds(s.papers)
  {
    HasArxivIdIsMembership(s.papers, it.candidate.shortId);
    var id := s.nextId;
    var s1 := WithPaper(s, MakePaper(it.candidate, it.pdf)).value;
    if HasKeyPoints(it.analysis) then
      WithAnalysis(s1, id, GrokAnalysis(it.analysis.points.value, None, model)).value
    else
      s1
  }

  /** The state of a cycle: the session's tables, the last committed tables, the counters. */
  datatype Cycle = Cycle(store: Store, committed: Store, added: nat, skipped: nat, aborted: bool)

  predicate Sound(c: Cycle) {
    Good(c.store) && Good(c.committed)
  }

  /**
   * One turn of the loop. A known `arxiv_id` is skipped. A new one is added
   * and committed; if handling it raises (the storage `mkdir`, the flush or
   * the commit), the exception leaves the loop, the session rolls back to the last commit and nothing more is processed.
   */
  function Step(c: Cycle, it: Item, model: string): (r: Cycle)
    requires Sound(c)
    ensures Sound(r)
    ensures c.aborted ==> r == c
    ensures !c.aborted && HasArxivId(c.store.papers, it.candidate.shortId) ==>
              r == c.(skipped := c.skipped + 1)
    ensures !c.aborted && !HasArxivId(c.store.papers, it.candidate.shortId) && it.commitFails ==>
              r == c.(store := c.committed, aborted := true)
    ensures !c.aborted && !HasArxivId(c.store.papers, it.candidate.shortId) && !it.commitFails ==>
              && !r.aborted && r.added == c.added + 1 && r.skipped == c.skipped
              && r.store == r.committed
              && r.store.papers == c.store.papers[c.store.nextId := MakePaper(it.candidate, it.pdf)]
              && (c.store.nextId in r.store.analyses <==> HasKeyPoints(it.analysis))
              && (HasKeyPoints(it.analysis) ==>
                    r.store.analyses[c.store.nextId] == GrokAnalysis(it.analysis.points.value, None, model))
  {
    if c.aborted then c
    else if HasArxivId(c.store.papers, it.candidate.shortId) then c.(skipped := c.skipped + 1)
    else if it.commitFails then c.(store := c.committed, aborted := true)
    else
      var s := Ingest(c.store, it, model);
      assert c.store.nextId !in c.store.analyses;
      c.(store := s, committed := s, added := c.added + 1)
  }

  /** A cycle that has not processed anything yet. */
  function Start(s: Store, committed: Store): Cycle {
    Cycle(s, committed, 0, 0, false)
  }

  /** The loop over the candidates, in order. */
  function Run(c: Cycle, items: seq<Item>, model: string): (r: Cycle)
    requires Sound(c)
    ensures Sound(r)
    decreases |items|
  {
    if items == [] then c
    else Step(Run(c, items[..|items| - 1], model), items[|items| - 1], model)
  }

  /** The `arxiv_id`s of the candidates. */
  function CandidateIds(items: seq<Item>): set<string> {
    set i | 0 <= i < |items| :: items[i].candidate.shortId
  }

  lemma CandidateIdsSnoc(items: seq<Item>)
    requires items != []
    ensures CandidateIds(items) == CandidateIds(items[..|items| - 1]) + {items[|items| - 1].candidate.shortId}
  {
    var init := items[..|items| - 1];
    forall a | a in CandidateIds(items) ensures a in CandidateIds(init) + {items[|items| - 1].candidate.shortId} {
      var i :| 0 <= i < |items| && items[i].candidate.shortId == a;
      if i < |items| - 1 {
        assert init[i] == items[i];
      }
    }
    forall a | a in CandidateIds(init) ensures a in CandidateIds(items) {
      var i :| 0 <= i < |init| && init[i].candidate.shortId == a;
      assert items[i] == init[i];
    }
  }

  /** Every candidate is counted once, as added or as skipped, unless the run aborted. */
  lemma {:induction false} RunCounts(c: Cycle, items: seq<Item>, model: string)
    requires Sound(c) && !c.aborted
    ensures var r := Run(c, items, model);
      && (!r.aborted ==> r.added + r.skipped == c.added + c.skipped + |items|)
      && (r.aborted ==> r.added + r.skipped < c.added + c.skipped + |items|)
    decreases |items|
  {
    if items != [] {
      RunCounts(c, items[..|items| - 1], model);
    }
  }

  /** Rows present in `s` are still in `t`, unchanged; the bookmarks are the same. */
  predicate Extends(s: Store, t: Store) {
    && (forall id | id in s.papers :: id in t.papers && t.papers[id] == s.papers[id])
    && (forall id | id in s.analyses :: id in t.analyses && t.analyses[id] == s.analyses[id])
    && t.bookmarks == s.bookmarks
  }

  /**
   * How a run from a committed state treats the rows: the session holds no
   * uncommitted rows between turns, existing rows are untouched, and each
   * added candidate is one more paper.
   */
  predicate KeepsRows(a: Cycle, b: Cycle) {
    && b.store == b.committed
    && Extends(a.store, b.store)
    && b.added >= a.added
    && |b.store.papers| == |a.store.papers| + (b.added - a.added)
  }

  /**
   * How a run over candidates with the given `arxiv_id`s treats the ids: each
   * added candidate is one more distinct id, only candidates' ids appear, and
   * a completed run stores all of them.
   */
  predicate RecordsIds(a: Cycle, b: Cycle, ids: set<string>) {
    && b.added >= a.added
    && |ArxivIds(b.store.papers)| == |ArxivIds(a.store.papers)| + (b.added - a.added)
    && ArxivIds(a.store.papers) <= ArxivIds(b.store.papers) <= ArxivIds(a.store.papers) + ids
    && (!b.aborted ==> ArxivIds(b.store.papers) == ArxivIds(a.store.papers) + ids)
  }

  /** One turn from a committed state keeps the rows. */
  lemma StepKeepsRows(p: Cycle, it: Item, model: string)
    requires Sound(p) && !p.aborted && p.store == p.committed
    ensures KeepsRows(p, Step(p, it, model))
  {
    if !HasArxivId(p.store.papers, it.candidate.shortId) && !it.commitFails {
      var r := Step(p, it, model);
      assert r.store == Ingest(p.store, it, model);
      assert r.store.papers.Keys == p.store.papers.Keys + {p.store.nextId};
    }
  }

  /** One turn from a committed state records the candidate's id. */
  lemma StepRecordsIds(p: Cycle, it: Item, model: string)
    requires Sound(p) && !p.aborted && p.store == p.committed
    ensures RecordsIds(p, Step(p, it, model), {it.candidate.shortId})
  {
    HasArxivIdIsMembership(p.store.papers, it.candidate.shortId);
    if !HasArxivId(p.store.papers, it.candidate.shortId) && !it.commitFails {
      assert Step(p, it, model).store == Ingest(p.store, it, model);
    }
  }

  /** The cycle as a whole, from a committed state, keeps the rows. */
  lemma {:induction false} RunKeepsRows(c: Cycle, items: seq<Item>, model: string)
    requires Sound(c) && !c.aborted && c.store == c.committed
    ensures KeepsRows(c, Run(c, items, model))
    decreases |items|
  {
    if items != [] {
      var p := Run(c, items[..|items| - 1], model);
      RunKeepsRows(c, items[..|items| - 1], model);
      if !p.aborted {
        StepKeepsRows(p, items[|items| - 1], model);
        var r := Step(p, items[|items| - 1], model);
        assert Extends(c.store, r.store) by {
          ExtendsTransitive(c.store, p.store, r.store);
        }
      }
    }
  }

  lemma ExtendsTransitive(a: Store, b: Store, c: Store)
    requires Extends(a, b) && Extends(b, c)
    ensures Extends(a, c)
  {
  }

  lemma RecordsIdsTransitive(a: Cycle, b: Cycle, c: Cycle, ids1: set<string>, ids2: set<string>)
    requires RecordsIds(a, b, ids1) && RecordsIds(b, c, ids2)
    requires b.aborted ==> c.aborted && ArxivIds(c.store.papers) == ArxivIds(b.store.papers)
    ensures RecordsIds(a, c, ids1 + ids2)
  {
  }

  /** The cycle as a whole, from a committed state, records the candidates' ids. */
  lemma {:induction false} RunRecordsIds(c: Cycle, items: seq<Item>, model: string)
    requires Sound(c) && !c.aborted && c.store == c.committed
    ensures RecordsIds(c, Run(c, items, model), CandidateIds(items))
    decreases |items|
  {
    if items != [] {
      var init := items[..|items| - 1];
      var it := items[|items| - 1];
      var p := Run(c, init, model);
      var r := Step(p, it, model);
      assert Run(c, items, model) == r;
      RunRecordsIds(c, init, model);
      RunKeepsRows(c, init, model);
      CandidateIdsSnoc(items);
      if p.aborted {
        assert r == p;
        assert RecordsIds(p, r, {it.candidate.shortId});
      } else {
        StepRecordsIds(p, it, model);
      }
      RecordsIdsTransitive(c, p, r, CandidateIds(init), {it.candidate.shortId});
    }
  }

  /** Candidates whose `arxiv_id` is already stored are all skipped, and nothing changes. */
  lemma {:induction false} KnownCandidatesAreSkipped(t: Store, items: seq<Item>, model: string)
    requires Good(t) && CandidateIds(items) <= ArxivIds(t.papers)
    ensures Run(Start(t, t), items, model) == Cycle(t, t, 0, |items|, false)
    decreases |items|
  {
    if items != [] {
      CandidateIdsSnoc(items);
      KnownCandidatesAreSkipped(t, items[..|items| - 1], model);
      HasArxivIdIsMembership(t.papers, items[|items| - 1].candidate.shortId);
    }
  }

  /** A second run over the same candidates, whatever its downloads and analyses give, adds nothing. */
  lemma RunIsIdempotent(s: Store, items: seq<Item>, again: seq<Item>, model: string)
    requires Good(s) && !Run(Start(s, s), items, model).aborted
    requires CandidateIds(again) <= CandidateIds(items)
    ensures var t := Run(Start(s, s), items, model).store;
      Run(Start(t, t), again, model) == Cycle(t, t, 0, |again|, false)
  {
    RunRecordsIds(Start(s, s), items, model);
    KnownCandidatesAreSkipped(Run(Start(s, s), items, model).store, again, model);
  }

  /** A completed run adds exactly one paper per distinct new `arxiv_id`. */
  lemma AddedCountsNewIds(s: Store, items: seq<Item>, model: string)
    requires Good(s) && !Run(Start(s, s), items, model).aborted
    ensures Run(Start(s, s), items, model).added == |CandidateIds(items) - ArxivIds(s.papers)|
  {
    var r := Run(Start(s, s), items, model);
    RunRecordsIds(Start(s, s), items, model);
    NewIdsCount(ArxivIds(s.papers), CandidateIds(items), ArxivIds(r.store.papers), r.added);
  }

  /** If `b` is `a` plus `c` and has `added` more elements than `a`, then `added` counts `c - a`. */
  lemma NewIdsCount(a: set<string>, c: set<string>, b: set<string>, added: nat)
    requires b == a + c && |b| == |a| + added
    ensures added == |c - a|
  {
    assert b == a + (c - a);
    assert a * (c - a) == {};
  }

  /** Folding over a concatenation is folding over each part in turn. */
  lemma {:induction false} RunAppend(c: Cycle, a: seq<Item>, b: seq<Item>, model: string)
    requires Sound(c)
    ensures Run(c, a + b, model) == Run(Run(c, a, model), b, model)
    decreases |b|
  {
    if b == [] {
      assert a + b == a;
    } else {
      assert (a + b)[..|a + b| - 1] == a + b[..|b| - 1];
      assert (a + b)[|a + b| - 1] == b[|b| - 1];
      RunAppend(c, a, b[..|b| - 1], model);
    }
  }

  lemma RunSnoc(c: Cycle, items: seq<Item>, it: Item, model: string)
    requires Sound(c)
    ensures Run(c, items + [it], model) == Step(Run(c, items, model), it, model)
  {
    assert (items + [it])[..|items|] == items;
  }

  /** Once aborted, a run ignores the remaining candidates. */
  lemma {:induction false} AbortedRunStays(c: Cycle, items: seq<Item>, model: string)
    requires Sound(c) && c.aborted
    ensures Run(c, items, model) == c
    decreases |items|
  {
    if items != [] {
      AbortedRunStays(c, items[..|items| - 1], model);
    }
  }

  /** What was committed for the first `k` candidates survives the rest of the run, abort or not. */
  lemma EarlierCommitsSurvive(s: Store, items: seq<Item>, k: nat, model: string)
    requires Good(s) && k <= |items|
    requires !Run(Start(s, s), items[..k], model).aborted
    ensures Extends(Run(Start(s, s), items[..k], model).store, Run(Start(s, s), items, model).store)
  {
    var p := Run(Start(s, s), items[..k], model);
    RunKeepsRows(Start(s, s), items[..k], model);
    assert items == items[..k] + items[k..];
    RunAppend(Start(s, s), items[..k], items[k..], model);
    RunKeepsRows(p, items[k..], model);
  }

  /** A candidate whose `arxiv_id` came earlier in the same run is skipped. */
  lemma RepeatedCandidateIsSkipped(s: Store, items: seq<Item>, i: nat, j: nat, model: string)
    requires Good(s) && i < j < |items|
    requires items[i].candidate.shortId == items[j].candidate.shortId
    requires !Run(Start(s, s), items[..j], model).aborted
    ensures Run(Start(s, s), items[..j + 1], model)
         == Run(Start(s, s), items[..j], model).(skipped := Run(Start(s, s), items[..j], model).skipped + 1)
  {
    var p := Run(Start(s, s), items[..j], model);
    assert HasArxivId(p.store.papers, items[j].candidate.shortId) by {
      RunRecordsIds(Start(s, s), items[..j], model);
      assert items[..j][i] == items[i];
      assert items[i].candidate.shortId in CandidateIds(items[..j]);
      HasArxivIdIsMembership(p.store.papers, items[j].candidate.shortId);
    }
    RunSnoc(Start(s, s), items[..j], items[j], model);
    assert items[..j] + [items[j]] == items[..j + 1];
  }

  // ---------------------------------------------------------------------
  // The cycle against a session

  /** The exception `fetch_new_papers` re-raises after rolling back. */
  datatype Fault = SearchFailed | CommitFailed(arxivId: string)

  /**
   * What the loop records for a candidate: the PDF path is what
   * `download_pdf` returns for this download, the file having been on disk
   * already or not (`cached`); the analysis is what the retried client gives
   * for the POSTs; the commit outcome as given. A skipped candidate is never
   * downloaded: its record holds what the download would have given, which
   * `Step` ignores.
   */
  predicate Observed(it: Item, candidate: ArxivResult, saveDir: string,
                     download: DownloadOutcome, cached: bool, delay: int,
                     calls: seq<CallOutcome>, parse: string -> Parsed, commitFails: bool)
  {
    && it.candidate == candidate
    && it.pdf == DownloadResult(PdfPath(saveDir, candidate.shortId), cached, download, delay)
    && MaxAttempts <= |calls| && it.analysis == AnalysisOf(calls, parse)
    && it.commitFails == commitFails
  }

  /** `Observed` for each candidate processed so far. */
  predicate AllObserved(items: seq<Item>, candidates: seq<ArxivResult>, saveDir: string,
                        downloads: seq<DownloadOutcome>, cached: seq<bool>, delay: int,
                        calls: seq<seq<CallOutcome>>, parse: string -> Parsed, commitFails: seq<bool>)
  {
    && |items| <= |candidates| && |items| <= |downloads| && |items| <= |cached|
    && |items| <= |calls| && |items| <= |commitFails|
    && forall k | 0 <= k < |items| ::
         Observed(items[k], candidates[k], saveDir, downloads[k], cached[k], delay, calls[k], parse, commitFails[k])
  }

  lemma AllObservedSnoc(items: seq<Item>, it: Item, candidates: seq<ArxivResult>, saveDir: string,
                        downloads: seq<DownloadOutcome>, cached: seq<bool>, delay: int,
                        calls: seq<seq<CallOutcome>>, parse: string -> Parsed, commitFails: seq<bool>)
    requires AllObserved(items, candidates, saveDir, downloads, cached, delay, calls, parse, commitFails)
    requires |items| < |candidates| && |items| < |downloads| && |items| < |cached|
    requires |items| < |calls| && |items| < |commitFails|
    requires Observed(it, candidates[|items|], saveDir, downloads[|items|], cached[|items|], delay,
                      calls[|items|], parse, commitFails[|items|])
    ensures AllObserved(items + [it], candidates, saveDir, downloads, cached, delay, calls, parse, commitFails)
  {
  }

  /** The files the first `n` downloads save, where they are saved. */
  function SavedPaths(candidates: seq<ArxivResult>, downloads: seq<DownloadOutcome>, saveDir: string, n: nat): set<Path>
    requires n <= |candidates| && n <= |downloads|
  {
    set j | 0 <= j < n && downloads[j].Saved? :: PdfPath(saveDir, candidates[j].shortId)
  }

  lemma SavedPathsSnoc(candidates: seq<ArxivResult>, downloads: seq<DownloadOutcome>, saveDir: string, n: nat)
    requires n < |candidates| && n < |downloads|
    ensures SavedPaths(candidates, downloads, saveDir, n + 1)
         == SavedPaths(candidates, downloads, saveDir, n)
            + (if downloads[n].Saved? then {PdfPath(saveDir, candidates[n].shortId)} else {})
  {
    var a := SavedPaths(candidates, downloads, saveDir, n + 1);
    var b := SavedPaths(candidates, downloads, saveDir, n);
    forall x | x in a ensures x in b || (downloads[n].Saved? && x == PdfPath(saveDir, candidates[n].shortId)) {
      var j :| 0 <= j < n + 1 && downloads[j].Saved? && x == PdfPath(saveDir, candidates[j].shortId);
      if j < n {
        assert x in b;
      }
    }
  }

  lemma SavedPathsGrow(candidates: seq<ArxivResult>, downloads: seq<DownloadOutcome>, saveDir: string, m: nat, n: nat)
    requires m <= n <= |candidates| && n <= |downloads|
    ensures SavedPaths(candidates, downloads, saveDir, m) <= SavedPaths(candidates, downloads, saveDir, n)
  {
  }

  /**
   * The disk during the cycle: no file goes away, and every new file is one
   * that one of the first `n` downloads saved.
   */
  predicate DiskFrom(before: set<Path>, now: set<Path>, candidates: seq<ArxivResult>,
                     downloads: seq<DownloadOutcome>, saveDir: string, n: nat)
    requires n <= |candidates| && n <= |downloads|
  {
    before <= now && now <= before + SavedPaths(candidates, downloads, saveDir, n)
  }

  /**
   * The cached flags: a candidate whose file was on disk when the cycle
   * began finds it cached, and a cached file was there from the start or
   * was saved by an earlier candidate's download.
   */
  predicate CachedFlags(cached: seq<bool>, candidates: seq<ArxivResult>, downloads: seq<DownloadOutcome>,
                        saveDir: string, before: set<Path>)
  {
    && |cached| <= |candidates| && |cached| <= |downloads|
    && forall k | 0 <= k < |cached| ::
         && (PdfPath(saveDir, candidates[k].shortId) in before ==> cached[k])
         && (cached[k] ==> PdfPath(saveDir, candidates[k].shortId) in before + SavedPaths(candidates, downloads, saveDir, k))
  }

  /** One more candidate, whose flag is read from the disk of the moment, keeps the flags and the disk bound. */
  lemma CachedFlagsSnoc(cached: seq<bool>, candidates: seq<ArxivResult>, downloads: seq<DownloadOutcome>,
                        saveDir: string, before: set<Path>, mid: set<Path>, after: set<Path>)
    requires |cached| < |candidates| && |cached| < |downloads|
    requires CachedFlags(cached, candidates, downloads, saveDir, before)
    requires DiskFrom(before, mid, candidates, downloads, saveDir, |cached|)
    requires var path := PdfPath(saveDir, candidates[|cached|].shortId);
      mid <= after <= mid + (if downloads[|cached|].Saved? then {path} else {})
    ensures CachedFlags(cached + [PdfPath(saveDir, candidates[|cached|].shortId) in mid],
                        candidates, downloads, saveDir, before)
    ensures DiskFrom(before, after, candidates, downloads, saveDir, |cached| + 1)
  {
    SavedPathsSnoc(candidates, downloads, saveDir, |cached|);
    var all := cached + [PdfPath(saveDir, candidates[|cached|].shortId) in mid];
    forall k | 0 <= k < |all|
      ensures && (PdfPath(saveDir, candidates[k].shortId) in before ==> all[k])
              && (all[k] ==> PdfPath(saveDir, candidates[k].shortId) in before + SavedPaths(candidates, downloads, saveDir, k))
    {
      if k < |cached| {
        assert all[k] == cached[k];
      }
    }
  }

  /**
   * The candidates the loop never reached after an abort, flagged from the
   * disk where it stopped, keep the flags and the disk bound.
   */
  lemma CachedFlagsPad(cached: seq<bool>, candidates: seq<ArxivResult>, downloads: seq<DownloadOutcome>,
                       saveDir: string, before: set<Path>, now: set<Path>)
    returns (all: seq<bool>)
    requires |cached| <= |candidates| <= |downloads|
    requires CachedFlags(cached, candidates, downloads, saveDir, before)
    requires DiskFrom(before, now, candidates, downloads, saveDir, |cached|)
    ensures |all| == |candidates| && all[..|cached|] == cached
    ensures CachedFlags(all, candidates, downloads, saveDir, before)
    ensures DiskFrom(before, now, candidates, downloads, saveDir, |candidates|)
  {
    var n := |cached|;
    all := cached + seq(|candidates| - n, k requires 0 <= k < |candidates| - n =>
      PdfPath(saveDir, candidates[n + k].shortId) in now);
    forall k | 0 <= k < |all|
      ensures && (PdfPath(saveDir, candidates[k].shortId) in before ==> all[k])
              && (all[k] ==> PdfPath(saveDir, candidates[k].shortId) in before + SavedPaths(candidates, downloads, saveDir, k))
    {
      if k < n {
        assert all[k] == cached[k];
      } else {
        SavedPathsGrow(candidates, downloads, saveDir, n, k);
      }
    }
    SavedPathsGrow(candidates, downloads, saveDir, n, |candidates|);
  }

  /** How one turn of the loop ended. */
  datatype Disposition = Skipped | Added | Aborted

  /**
   * The body of the loop for one candidate, from the dedup lookup to the
   * commit (or the rollback when handling it raises). `c` is the cycle so far.
   */
  method ProcessCandidate(
    db: Session, arxiv: ArxivClient, grok: Grok, disk: Disk, clock: Clock,
    candidate: ArxivResult, saveDir: string, download: DownloadOutcome,
    calls: seq<CallOutcome>, parse: string -> Parsed, commitFails: bool, added: nat, skipped: nat, ghost c: Cycle)
    returns (d: Disposition, added': nat, skipped': nat, ghost item: Item)
    requires db.Valid() && db.ftsCreated && MaxAttempts <= |calls|
    requires c == Cycle(db.State(), db.committed, added, skipped, false)
    modifies db, disk, clock, grok`lastRequestTime
    ensures db.Valid() && db.ftsCreated
    ensures Observed(item, candidate, saveDir, download, PdfPath(saveDir, candidate.shortId) in old(disk.files),
                     arxiv.rateLimitDelay, calls, parse, commitFails)
    ensures old(disk.files) <= disk.files
    ensures disk.files <= old(disk.files) + (if download.Saved? then {PdfPath(saveDir, candidate.shortId)} else {})
    ensures added' == (if d.Added? then added + 1 else added)
    ensures skipped' == (if d.Skipped? then skipped + 1 else skipped)
    ensures Step(c, item, grok.model) == Cycle(db.State(), db.committed, added', skipped', d.Aborted?)
  {
    added', skipped' := added, skipped;
    if HasArxivId(db.papers, candidate.shortId) {
      var path := PdfPath(saveDir, candidate.shortId);
      return Skipped, added, skipped + 1, Item(candidate, DownloadResult(path, path in disk.files, download, arxiv.rateLimitDelay),
                           AnalysisOf(calls, parse), commitFails);
    }
    item := StageCandidate(db, arxiv, grok, disk, clock, candidate, saveDir, download, calls, parse, commitFails);
    if commitFails {
      db.Rollback();
      d := Aborted;
    } else {
      StepAdds(c, item, grok.model);
      db.Commit();
      d, added' := Added, added + 1;
    }
  }

  /**
   * A candidate not stored yet, up to the commit: the download, the paper
   * row, the analysis and, when it produced key points, the analysis row,
   * all inside the open transaction.
   */
  method StageCandidate(
    db: Session, arxiv: ArxivClient, grok: Grok, disk: Disk, clock: Clock,
    candidate: ArxivResult, saveDir: string, download: DownloadOutcome,
    calls: seq<CallOutcome>, parse: string -> Parsed, commitFails: bool)
    returns (ghost item: Item)
    requires db.Valid() && db.ftsCreated && MaxAttempts <= |calls|
    requires !HasArxivId(db.papers, candidate.shortId)
    modifies db`papers, db`fts, db`nextId, db`analyses, disk, clock, grok`lastRequestTime
    ensures db.Valid() && db.committed == old(db.committed)
    ensures Observed(item, candidate, saveDir, download, PdfPath(saveDir, candidate.shortId) in old(disk.files),
                     arxiv.rateLimitDelay, calls, parse, commitFails)
    ensures item.pdf.Some? ==> PdfPath(saveDir, candidate.shortId) in disk.files
    ensures disk.files == if PdfPath(saveDir, candidate.shortId) !in old(disk.files) && download.Saved?
                          then old(disk.files) + {PdfPath(saveDir, candidate.shortId)} else old(disk.files)
    ensures db.State() == Ingest(old(db.State()), item, grok.model)
  {
    var pdf, _ := arxiv.DownloadPdf(candidate, saveDir, disk, clock, download);
    var paper := MakePaper(candidate, pdf);
    var inserted := db.AddPaper(paper);
    var id := inserted.value;
    var run := grok.AnalyzePaper(clock, calls, parse);
    assert run.outcome == AnalysisOf(calls, parse);
    item := Item(candidate, pdf, run.outcome, commitFails);
    if HasKeyPoints(run.outcome) {
      var _ := db.AddAnalysis(id, GrokAnalysis(run.outcome.points.value, None, grok.model));
    }
  }

  /** A new candidate whose commit goes through becomes the committed state. */
  lemma StepAdds(c: Cycle, it: Item, model: string)
    requires Sound(c) && !c.aborted && !HasArxivId(c.store.papers, it.candidate.shortId) && !it.commitFails
    ensures var s := Ingest(c.store, it, model);
      Step(c, it, model) == c.(store := s, committed := s, added := c.added + 1)
  {
  }

  /**
   * After an abort the remaining candidates are never looked at: whatever is
   * recorded for them changes nothing, since the run has ended.
   */
  lemma PadAborted(c0: Cycle, items: seq<Item>, rest: seq<Item>, model: string)
    requires Sound(c0) && Run(c0, items, model).aborted
    ensures Run(c0, items + rest, model) == Run(c0, items, model)
  {
    RunAppend(c0, items, rest, model);
    AbortedRunStays(Run(c0, items, model), rest, model);
  }

  /** Records for the candidates from `n` on, as `Observed` describes them. */
  lemma Unreached(n: nat, results: seq<ArxivResult>, saveDir: string,
                  downloads: seq<DownloadOutcome>, cached: seq<bool>, delay: int,
                  calls: seq<seq<CallOutcome>>, parse: string -> Parsed, commitFails: seq<bool>)
    returns (rest: seq<Item>)
    requires n <= |results| <= |downloads| && |results| <= |cached| && |results| <= |calls| && |results| <= |commitFails|
    requires forall i | 0 <= i < |calls| :: MaxAttempts <= |calls[i]|
    ensures |rest| == |results| - n
    ensures forall j | 0 <= j < |rest| ::
              Observed(rest[j], results[n + j], saveDir, downloads[n + j], cached[n + j], delay,
                       calls[n + j], parse, commitFails[n + j])
  {
    rest := seq(|results| - n, k requires 0 <= k < |results| - n =>
      Item(results[n + k], DownloadResult(PdfPath(saveDir, results[n + k].shortId), cached[n + k], downloads[n + k], delay),
           AnalysisOf(calls[n + k], parse), commitFails[n + k]));
  }

  lemma AllObservedAppend(items: seq<Item>, rest: seq<Item>, candidates: seq<ArxivResult>, saveDir: string,
                          downloads: seq<DownloadOutcome>, cached: seq<bool>, delay: int,
                          calls: seq<seq<CallOutcome>>, parse: string -> Parsed, commitFails: seq<bool>)
    requires AllObserved(items, candidates, saveDir, downloads, cached, delay, calls, parse, commitFails)
    requires |items| + |rest| <= |candidates| && |items| + |rest| <= |downloads| && |items| + |rest| <= |cached|
    requires |items| + |rest| <= |calls| && |items| + |rest| <= |commitFails|
    requires forall j | 0 <= j < |rest| ::
               Observed(rest[j], candidates[|items| + j], saveDir, downloads[|items| + j], cached[|items| + j], delay,
                        calls[|items| + j], parse, commitFails[|items| + j])
    ensures AllObserved(items + rest, candidates, saveDir, downloads, cached, delay, calls, parse, commitFails)
  {
    var all := items + rest;
    forall k | 0 <= k < |all|
      ensures Observed(all[k], candidates[k], saveDir, downloads[k], cached[k], delay, calls[k], parse, commitFails[k])
    {
      if k >= |items| {
        assert all[k] == rest[k - |items|];
      }
    }
  }

  /** After an abort: the records and the flags completed for the candidates never reached. */
  lemma PadRun(c0: Cycle, items: seq<Item>, cached: seq<bool>, candidates: seq<ArxivResult>, saveDir: string,
               downloads: seq<DownloadOutcome>, delay: int,
               calls: seq<seq<CallOutcome>>, parse: string -> Parsed, commitFails: seq<bool>, model: string,
               before: set<Path>, now: set<Path>)
    returns (all: seq<Item>, flags: seq<bool>)
    requires Sound(c0) && Run(c0, items, model).aborted
    requires |items| == |cached| <= |candidates| <= |downloads| && |candidates| <= |calls| && |candidates| <= |commitFails|
    requires forall i | 0 <= i < |calls| :: MaxAttempts <= |calls[i]|
    requires AllObserved(items, candidates, saveDir, downloads, cached, delay, calls, parse, commitFails)
    requires CachedFlags(cached, candidates, downloads, saveDir, before)
    requires DiskFrom(before, now, candidates, downloads, saveDir, |cached|)
    ensures |all| == |candidates| && |flags| == |candidates|
    ensures AllObserved(all, candidates, saveDir, downloads, flags, delay, calls, parse, commitFails)
    ensures CachedFlags(flags, candidates, downloads, saveDir, before)
    ensures DiskFrom(before, now, candidates, downloads, saveDir, |candidates|)
    ensures Run(c0, all, model) == Run(c0, items, model)
  {
    var rest;
    rest, flags := PadObserved(items, cached, candidates, saveDir, downloads, delay, calls, parse, commitFails, before, now);
    PadAborted(c0, items, rest, model);
    all := items + rest;
  }

  /** The records and flags of the candidates never reached, kept apart from the run. */
  lemma PadObserved(items: seq<Item>, cached: seq<bool>, candidates: seq<ArxivResult>, saveDir: string,
                    downloads: seq<DownloadOutcome>, delay: int,
                    calls: seq<seq<CallOutcome>>, parse: string -> Parsed, commitFails: seq<bool>,
                    before: set<Path>, now: set<Path>)
    returns (rest: seq<Item>, flags: seq<bool>)
    requires |items| == |cached| <= |candidates| <= |downloads| && |candidates| <= |calls| && |candidates| <= |commitFails|
    requires forall i | 0 <= i < |calls| :: MaxAttempts <= |calls[i]|
    requires AllObserved(items, candidates, saveDir, downloads, cached, delay, calls, parse, commitFails)
    requires CachedFlags(cached, candidates, downloads, saveDir, before)
    requires DiskFrom(before, now, candidates, downloads, saveDir, |cached|)
    ensures |items + rest| == |candidates| && |flags| == |candidates|
    ensures AllObserved(items + rest, candidates, saveDir, downloads, flags, delay, calls, parse, commitFails)
    ensures CachedFlags(flags, candidates, downloads, saveDir, before)
    ensures DiskFrom(before, now, candidates, downloads, saveDir, |candidates|)
  {
    flags := CachedFlagsPad(cached, candidates, downloads, saveDir, before, now);
    rest := ObserveUnreached(items, cached, flags, candidates, saveDir, downloads, delay, calls, parse, commitFails);
  }

  /** Records for the candidates never reached, under flags that extend the ones so far. */
  lemma ObserveUnreached(items: seq<Item>, cached: seq<bool>, flags: seq<bool>, candidates: seq<ArxivResult>,
                         saveDir: string, downloads: seq<DownloadOutcome>, delay: int,
                         calls: seq<seq<CallOutcome>>, parse: string -> Parsed, commitFails: seq<bool>)
    returns (rest: seq<Item>)
    requires |items| == |cached| <= |candidates| <= |downloads| && |candidates| <= |calls| && |candidates| <= |commitFails|
    requires |flags| == |candidates| && flags[..|cached|] == cached
    requires forall i | 0 <= i < |calls| :: MaxAttempts <= |calls[i]|
    requires AllObserved(items, candidates, saveDir, downloads, cached, delay, calls, parse, commitFails)
    ensures |items + rest| == |candidates|
    ensures AllObserved(items + rest, candidates, saveDir, downloads, flags, delay, calls, parse, commitFails)
  {
    AllObservedFlags(items, candidates, saveDir, downloads, cached, flags, delay, calls, parse, commitFails);
    rest := Unreached(|items|, candidates, saveDir, downloads, flags, delay, calls, parse, commitFails);
    AllObservedAppend(items, rest, candidates, saveDir, downloads, flags, delay, calls, parse, commitFails);
  }

  /** One more candidate observed against the disk of the moment keeps the loop's records. */
  lemma ObserveTurn(items: seq<Item>, it: Item, cached: seq<bool>, candidates: seq<ArxivResult>, saveDir: string,
                    downloads: seq<DownloadOutcome>, delay: int,
                    calls: seq<seq<CallOutcome>>, parse: string -> Parsed, commitFails: seq<bool>,
                    before: set<Path>, mid: set<Path>, after: set<Path>)
    requires |items| == |cached| < |candidates| && |cached| < |downloads| && |cached| < |calls| && |cached| < |commitFails|
    requires AllObserved(items, candidates, saveDir, downloads, cached, delay, calls, parse, commitFails)
    requires CachedFlags(cached, candidates, downloads, saveDir, before)
    requires DiskFrom(before, mid, candidates, downloads, saveDir, |cached|)
    requires var path := PdfPath(saveDir, candidates[|cached|].shortId);
      && Observed(it, candidates[|cached|], saveDir, downloads[|cached|], path in mid, delay,
                  calls[|cached|], parse, commitFails[|cached|])
      && mid <= after <= mid + (if downloads[|cached|].Saved? then {path} else {})
    ensures var flags := cached + [PdfPath(saveDir, candidates[|cached|].shortId) in mid];
      && AllObserved(items + [it], candidates, saveDir, downloads, flags, delay, calls, parse, commitFails)
      && CachedFlags(flags, candidates, downloads, saveDir, before)
      && DiskFrom(before, after, candidates, downloads, saveDir, |cached| + 1)
  {
    var flags := cached + [PdfPath(saveDir, candidates[|cached|].shortId) in mid];
    CachedFlagsSnoc(cached, candidates, downloads, saveDir, before, mid, after);
    AllObservedFlags(items, candidates, saveDir, downloads, cached, flags, delay, calls, parse, commitFails);
    AllObservedSnoc(items, it, candidates, saveDir, downloads, flags, delay, calls, parse, commitFails);
  }

  /** `AllObserved` reads only the flags of the candidates recorded so far. */
  lemma AllObservedFlags(items: seq<Item>, candidates: seq<ArxivResult>, saveDir: string,
                         downloads: seq<DownloadOutcome>, cached: seq<bool>, flags: seq<bool>, delay: int,
                         calls: seq<seq<CallOutcome>>, parse: string -> Parsed, commitFails: seq<bool>)
    requires AllObserved(items, candidates, saveDir, downloads, cached, delay, calls, parse, commitFails)
    requires |cached| <= |flags| && flags[..|cached|] == cached
    ensures AllObserved(items, candidates, saveDir, downloads, flags, delay, calls, parse, commitFails)
  {
    forall k | 0 <= k < |items| ensures flags[k] == cached[k] {
      assert flags[..|cached|][k] == flags[k];
    }
  }

  /**
   * The loop of `fetch_new_papers` over the candidates, ending in the state
   * `Run` describes for what it observed.
   */
  method IngestCandidates(
    db: Session, arxiv: ArxivClient, grok: Grok, disk: Disk, clock: Clock,
    candidates: seq<ArxivResult>, saveDir: string,
    downloads: seq<DownloadOutcome>, calls: seq<seq<CallOutcome>>, parse: string -> Parsed,
    commitFails: seq<bool>)
    returns (r: Result<(nat, nat), Fault>, ghost items: seq<Item>, ghost cached: seq<bool>)
    requires db.Valid() && db.ftsCreated
    requires |candidates| <= |downloads| && |candidates| <= |calls| && |candidates| <= |commitFails|
    requires forall i | 0 <= i < |calls| :: MaxAttempts <= |calls[i]|
    modifies db, disk, clock, grok`lastRequestTime
    ensures db.Valid() && db.ftsCreated
    ensures |items| == |candidates| && |cached| == |candidates|
    ensures AllObserved(items, candidates, saveDir, downloads, cached, arxiv.rateLimitDelay, calls, parse, commitFails)
    ensures CachedFlags(cached, candidates, downloads, saveDir, old(disk.files))
    ensures DiskFrom(old(disk.files), disk.files, candidates, downloads, saveDir, |candidates|)
    ensures var c := Run(Start(old(db.State()), old(db.committed)), items, grok.model);
              && db.State() == c.store && db.committed == c.committed
              && (r.Ok? <==> !c.aborted)
              && (r.Ok? ==> r.value == (c.added, c.skipped))
              && (r.Err? ==> r.error.CommitFailed?)
  {
    ghost var c0 := Start(db.State(), db.committed);
    ghost var cycle := c0;
    var added: nat := 0;
    var skipped: nat := 0;
    var failed := false;
    items, cached := [], [];
    var i := 0;
    while i < |candidates| && !failed
      invariant 0 <= i <= |candidates| && |items| == i && |cached| == i
      invariant db.Valid() && db.ftsCreated
      invariant AllObserved(items, candidates, saveDir, downloads, cached, arxiv.rateLimitDelay, calls, parse, commitFails)
      invariant CachedFlags(cached, candidates, downloads, saveDir, old(disk.files))
      invariant DiskFrom(old(disk.files), disk.files, candidates, downloads, saveDir, i)
      invariant Sound(c0) && Run(c0, items, grok.model) == cycle
      invariant cycle == Cycle(db.State(), db.committed, added, skipped, failed)
    {
      var d;
      ghost var item;
      ghost var mid := disk.files;
      ghost var hit := PdfPath(saveDir, candidates[i].shortId) in mid;
      d, added, skipped, item := ProcessCandidate(db, arxiv, grok, disk, clock, candidates[i], saveDir, downloads[i],
                                                  calls[i], parse, commitFails[i], added, skipped, cycle);
      RunSnoc(c0, items, item, grok.model);
      ObserveTurn(items, item, cached, candidates, saveDir, downloads, arxiv.rateLimitDelay, calls, parse, commitFails,
                  old(disk.files), mid, disk.files);
      items, cached := items + [item], cached + [hit];
      cycle := Step(cycle, item, grok.model);
      failed := d.Aborted?;
      i := i + 1;
    }
    if failed {
      items, cached := PadRun(c0, items, cached, candidates, saveDir, downloads, arxiv.rateLimitDelay,
                              calls, parse, commitFails, grok.model, old(disk.files), disk.files);
      r := Err(CommitFailed(candidates[i - 1].shortId));
    } else {
      r := Ok((added, skipped));
    }
  }

  /**
   * `fetch_new_papers`. `found` is what the arXiv client returned for the
   * query (None: the search raised); `downloads[i]`, `calls[i]` and
   * `commitFails[i]` say how the download, the POSTs of the analysis and the
   * commit go for the i-th candidate. The ghost results name the candidates
   * after the date window and what the loop learned about each, and the
   * final state is the one `Run` gives for them. A search that raises rolls
   * the session back and is re-raised.
   */
  method FetchNewPapers(
    db: Session, arxiv: ArxivClient, grok: Grok, disk: Disk, clock: Clock,
    found: Option<seq<ArxivResult>>, daysBack: int, saveDir: string,
    downloads: seq<DownloadOutcome>, calls: seq<seq<CallOutcome>>, parse: string -> Parsed,
    commitFails: seq<bool>)
    returns (r: Result<(nat, nat), Fault>, ghost searchedAt: int, ghost candidates: seq<ArxivResult>,
             ghost items: seq<Item>, ghost cached: seq<bool>)
    requires db.Valid() && db.ftsCreated
    requires found.Some? ==>
               |downloads| >= |found.value| && |calls| >= |found.value| && |commitFails| >= |found.value|
    requires forall i | 0 <= i < |calls| :: MaxAttempts <= |calls[i]|
    modifies db, disk, clock, grok`lastRequestTime
    ensures db.Valid() && db.ftsCreated
    ensures found.None? ==>
              r == Err(SearchFailed) && db.Clean() && db.State() == old(db.committed) && disk.files == old(disk.files)
    ensures found.Some? ==>
              && old(clock.now) <= searchedAt
              && candidates == Recent(found.value, searchedAt, daysBack)
              && |items| == |candidates| && |cached| == |candidates|
              && AllObserved(items, candidates, saveDir, downloads, cached, arxiv.rateLimitDelay, calls, parse, commitFails)
              && CachedFlags(cached, candidates, downloads, saveDir, old(disk.files))
              && DiskFrom(old(disk.files), disk.files, candidates, downloads, saveDir, |candidates|)
    ensures found.Some? ==>
              var c := Run(Start(old(db.State()), old(db.committed)), items, grok.model);
              && db.State() == c.store && db.committed == c.committed
              && (r.Ok? <==> !c.aborted)
              && (r.Ok? ==> r.value == (c.added, c.skipped))
              && (r.Err? ==> r.error.CommitFailed?)
  {
    if found.None? {
      db.Rollback();
      return Err(SearchFailed), clock.now, [], [], [];
    }
    var now := clock.Read();
    var results := SearchPapers(found.value, now, daysBack);
    searchedAt, candidates := now, results;
    r, items, cached := IngestCandidates(db, arxiv, grok, disk, clock, results, saveDir, downloads, calls, parse, commitFails);
  }

  // ---------------------------------------------------------------------
  // Queries

  /** The distinct elements of a list of ids. */
  function Elems(xs: seq<int>): set<int> {
    set x | x in xs
  }

  /** No id occurs twice. */
  predicate NoRepeats(xs: seq<int>) {
    |Elems(xs)| == |xs|
  }

  predicate Increasing(xs: seq<int>) {
    forall i, j | 0 <= i < j < |xs| :: xs[i] < xs[j]
  }

  lemma {:induction false} ElemsCardAtMostLength(xs: seq<int>)
    ensures |Elems(xs)| <= |xs|
    decreases |xs|
  {
    if xs != [] {
      var init := xs[..|xs| - 1];
      ElemsCardAtMostLength(init);
      assert Elems(xs) == Elems(init) + {xs[|xs| - 1]} by {
        assert xs == init + [xs[|xs| - 1]];
      }
    }
  }

  lemma {:induction false} IncreasingNoRepeats(xs: seq<int>)
    requires Increasing(xs)
    ensures NoRepeats(xs)
    decreases |xs|
  {
    if xs != [] {
      var init := xs[..|xs| - 1];
      IncreasingNoRepeats(init);
      assert xs == init + [xs[|xs| - 1]];
      assert Elems(xs) == Elems(init) + {xs[|xs| - 1]};
      assert xs[|xs| - 1] !in Elems(init);
    }
  }

  /** Cutting a list without repetitions leaves two lists without repetitions. */
  lemma SplitNoRepeats(xs: seq<int>, m: nat)
    requires m <= |xs| && NoRepeats(xs)
    ensures NoRepeats(xs[..m]) && NoRepeats(xs[m..])
    ensures Elems(xs) == Elems(xs[..m]) + Elems(xs[m..])
  {
    assert xs == xs[..m] + xs[m..];
    assert Elems(xs) == Elems(xs[..m]) + Elems(xs[m..]);
    ElemsCardAtMostLength(xs[..m]);
    ElemsCardAtMostLength(xs[m..]);
  }

  /** The ids of `keys` in `(0, n)`, ascending: the order of a scan by rowid. */
  function Listing(keys: set<int>, n: int): (r: seq<int>)
    ensures Increasing(r)
    ensures forall i | 0 <= i < |r| :: r[i] in keys && 0 < r[i] < n
    ensures forall k :: k in r <==> k in keys && 0 < k < n
    decreases n
  {
    if n <= 1 then []
    else Listing(keys, n - 1) + (if n - 1 in keys then [n - 1] else [])
  }

  /** Scanning rowids below `n` finds every key when the keys lie below `n`. */
  lemma ListingFindsAll(keys: set<int>, n: int)
    requires forall k | k in keys :: 0 < k < n
    ensures Elems(Listing(keys, n)) == keys
    ensures NoRepeats(Listing(keys, n))
  {
    IncreasingNoRepeats(Listing(keys, n));
  }

  /** All the ids are papers. */
  predicate InPapers(papers: map<int, Paper>, ids: seq<int>) {
    forall i | 0 <= i < |ids| :: ids[i] in papers
  }

  /** `ORDER BY published_date DESC`. */
  predicate NewestFirst(papers: map<int, Paper>, ids: seq<int>)
    requires InPapers(papers, ids)
  {
    forall i, j | 0 <= i < j < |ids| :: papers[ids[i]].publishedDate >= papers[ids[j]].publishedDate
  }

  /** Puts `id` before the first paper that is not newer. */
  function InsertByDate(papers: map<int, Paper>, id: int, sorted: seq<int>): (r: seq<int>)
    requires id in papers && InPapers(papers, sorted)
    ensures InPapers(papers, r)
    ensures multiset(r) == multiset(sorted) + multiset{id}
    decreases |sorted|
  {
    if sorted == [] || papers[id].publishedDate >= papers[sorted[0]].publishedDate then
      [id] + sorted
    else
      assert sorted == [sorted[0]] + sorted[1..];
      var rest := InsertByDate(papers, id, sorted[1..]);
      [sorted[0]] + rest
  }

  lemma {:induction false} InsertKeepsOrder(papers: map<int, Paper>, id: int, sorted: seq<int>)
    requires id in papers && InPapers(papers, sorted) && NewestFirst(papers, sorted)
    ensures NewestFirst(papers, InsertByDate(papers, id, sorted))
    decreases |sorted|
  {
    var r := InsertByDate(papers, id, sorted);
    if sorted == [] || papers[id].publishedDate >= papers[sorted[0]].publishedDate {
      forall i, j | 0 <= i < j < |r| ensures papers[r[i]].publishedDate >= papers[r[j]].publishedDate {
        if i == 0 && j > 1 {
          assert r[1] == sorted[0] && r[j] == sorted[j - 1];
        }
      }
    } else {
      var rest := InsertByDate(papers, id, sorted[1..]);
      InsertKeepsOrder(papers, id, sorted[1..]);
      assert r == [sorted[0]] + rest;
      forall i, j | 0 <= i < j < |r| ensures papers[r[i]].publishedDate >= papers[r[j]].publishedDate {
        if i == 0 {
          var y := r[j];
          assert y in multiset(rest);
          if y != id {
            assert y in multiset(sorted[1..]);
            var k :| 1 <= k < |sorted| && sorted[k] == y;
          }
        } else {
          assert r[i] == rest[i - 1] && r[j] == rest[j - 1];
        }
      }
    }
  }

  /** A stable sort, newest first: papers with the same date keep their order. */
  function SortByDate(papers: map<int, Paper>, ids: seq<int>): (r: seq<int>)
    requires InPapers(papers, ids)
    ensures InPapers(papers, r) && NewestFirst(papers, r)
    decreases |ids|
  {
    if ids == [] then []
    else
      assert ids == [ids[0]] + ids[1..];
      var sorted := SortByDate(papers, ids[1..]);
      InsertKeepsOrder(papers, ids[0], sorted);
      InsertByDate(papers, ids[0], sorted)
  }

  /** The sort is a permutation of its input. */
  lemma {:induction false} SortIsPermutation(papers: map<int, Paper>, ids: seq<int>)
    requires InPapers(papers, ids)
    ensures multiset(SortByDate(papers, ids)) == multiset(ids)
    decreases |ids|
  {
    if ids != [] {
      assert ids == [ids[0]] + ids[1..];
      SortIsPermutation(papers, ids[1..]);
    }
  }

  /** Sorting keeps the length and the ids. */
  lemma SortKeepsElems(papers: map<int, Paper>, ids: seq<int>)
    requires InPapers(papers, ids)
    ensures |SortByDate(papers, ids)| == |ids|
    ensures Elems(SortByDate(papers, ids)) == Elems(ids)
  {
    var r := SortByDate(papers, ids);
    SortIsPermutation(papers, ids);
    assert |multiset(r)| == |multiset(ids)|;
    forall x ensures x in r <==> x in ids {
      assert x in r <==> x in multiset(r);
      assert x in ids <==> x in multiset(ids);
    }
  }

  /** The papers of a newest-first list before position `m` are no older than those after it. */
  lemma PrefixIsNewest(papers: map<int, Paper>, xs: seq<int>, m: nat)
    requires InPapers(papers, xs) && NewestFirst(papers, xs) && m <= |xs|
    ensures forall x, h | x in xs[..m] && h in xs[m..] :: papers[x].publishedDate >= papers[h].publishedDate
  {
    forall x, h | x in xs[..m] && h in xs[m..] ensures papers[x].publishedDate >= papers[h].publishedDate {
      var i :| 0 <= i < m && xs[i] == x;
      var j :| 0 <= j < |xs| - m && xs[m..][j] == h;
      assert xs[m + j] == h;
    }
  }

  /** `OFFSET`: SQLite reads a negative offset as zero. */
  function Skip(n: nat, offset: int): (from: nat)
    ensures from <= n
  {
    if offset < 0 then 0 else if offset > n then n else offset
  }

  /** The length of the window at `offset` of at most `limit` out of `n` rows. */
  function WindowLength(n: nat, limit: int, offset: int): (len: nat)
    ensures Skip(n, offset) + len <= n
  {
    if limit < 0 || limit > n - Skip(n, offset) then n - Skip(n, offset) else limit
  }

  /** `LIMIT limit OFFSET offset`; SQLite reads a negative limit as no limit. */
  function Window(xs: seq<int>, limit: int, offset: int): (r: seq<int>)
    ensures r == xs[Skip(|xs|, offset)..Skip(|xs|, offset) + WindowLength(|xs|, limit, offset)]
  {
    var rest := xs[Skip(|xs|, offset)..];
    if limit < 0 || limit > |rest| then rest else rest[..limit]
  }

  /** A slice of a newest-first list is newest first. */
  lemma SliceIsNewest(papers: map<int, Paper>, xs: seq<int>, lo: nat, hi: nat)
    requires InPapers(papers, xs) && NewestFirst(papers, xs) && lo <= hi <= |xs|
    ensures InPapers(papers, xs[lo..hi]) && NewestFirst(papers, xs[lo..hi])
  {
    var w := xs[lo..hi];
    forall i | 0 <= i < |w| ensures w[i] in papers {
      assert w[i] == xs[lo + i];
    }
    forall i, j | 0 <= i < j < |w| ensures papers[w[i]].publishedDate >= papers[w[j]].publishedDate {
      assert w[i] == xs[lo + i] && w[j] == xs[lo + j];
    }
  }

  /** A window of a newest-first list is newest first; with no offset it is a prefix. */
  lemma WindowIsNewest(papers: map<int, Paper>, xs: seq<int>, limit: int, offset: int)
    requires InPapers(papers, xs) && NewestFirst(papers, xs)
    ensures InPapers(papers, Window(xs, limit, offset)) && NewestFirst(papers, Window(xs, limit, offset))
    ensures offset <= 0 ==> |Window(xs, limit, offset)| <= |xs|
    ensures offset <= 0 ==> Window(xs, limit, offset) == xs[..|Window(xs, limit, offset)|]
  {
    var from := Skip(|xs|, offset);
    SliceIsNewest(papers, xs, from, from + WindowLength(|xs|, limit, offset));
  }

  /** A window of a list without repetitions has none, and takes nothing else. */
  lemma WindowNoRepeats(xs: seq<int>, limit: int, offset: int)
    requires NoRepeats(xs)
    ensures NoRepeats(Window(xs, limit, offset))
    ensures Elems(Window(xs, limit, offset)) <= Elems(xs)
    ensures offset <= 0 && (limit < 0 || limit >= |xs|) ==> Window(xs, limit, offset) == xs
  {
    var from := Skip(|xs|, offset);
    var w := Window(xs, limit, offset);
    assert xs[from..][..|w|] == w;
    SplitNoRepeats(xs, from);
    SplitNoRepeats(xs[from..], |w|);
  }

  /** Two consecutive pages of size `n` make the page of size `2 * n` at the same offset. */
  lemma WindowsTile(xs: seq<int>, n: nat, offset: nat)
    ensures Window(xs, n, offset) + Window(xs, n, offset + n) == Window(xs, 2 * n, offset)
  {
    var a := Window(xs, n, offset);
    var b := Window(xs, n, offset + n);
    var c := Window(xs, 2 * n, offset);
    assert |a + b| == |c|;
    forall i | 0 <= i < |c| ensures (a + b)[i] == c[i] {
      if i >= |a| {
        assert |a| == n;
      }
    }
  }

  /**
   * The ids in `keys` (papers, with rowids below `n`) in the order
   * `ORDER BY published_date DESC LIMIT limit OFFSET offset` gives them.
   */
  function Ranked(papers: map<int, Paper>, keys: set<int>, n: int, limit: int, offset: int): (w: seq<int>)
    requires forall k | k in keys :: k in papers && 0 < k < n
    ensures InPapers(papers, w) && NewestFirst(papers, w) && NoRepeats(w)
    ensures Elems(w) <= keys
    ensures |w| == WindowLength(|keys|, limit, offset)
    ensures offset <= 0 && (limit < 0 || limit >= |keys|) ==> Elems(w) == keys
    ensures offset <= 0 ==> forall h, x | h in keys - Elems(w) && x in Elems(w) ::
              papers[x].publishedDate >= papers[h].publishedDate
  {
    OrderedRows(papers, keys, n);
    var ordered := SortByDate(papers, Listing(keys, n));
    var w := Window(ordered, limit, offset);
    WindowIsNewest(papers, ordered, limit, offset);
    WindowNoRepeats(ordered, limit, offset);
    TopOfOrdered(papers, ordered, w, keys, offset);
    w
  }

  /** The rows of `keys`, sorted: each key once, newest first. */
  lemma OrderedRows(papers: map<int, Paper>, keys: set<int>, n: int)
    requires forall k | k in keys :: k in papers && 0 < k < n
    ensures InPapers(papers, Listing(keys, n))
    ensures var ordered := SortByDate(papers, Listing(keys, n));
      Elems(ordered) == keys && |ordered| == |keys| && NoRepeats(ordered)
  {
    ListingFindsAll(keys, n);
    SortKeepsElems(papers, Listing(keys, n));
  }

  /** With no offset the window is a prefix, so what it leaves out is no newer. */
  lemma TopOfOrdered(papers: map<int, Paper>, ordered: seq<int>, w: seq<int>, keys: set<int>, offset: int)
    requires InPapers(papers, ordered) && NewestFirst(papers, ordered) && Elems(ordered) == keys
    requires offset <= 0 ==> |w| <= |ordered| && w == ordered[..|w|]
    ensures offset <= 0 ==> forall h, x | h in keys - Elems(w) && x in Elems(w) ::
              x in papers && h in papers && papers[x].publishedDate >= papers[h].publishedDate
  {
    if offset <= 0 {
      TopIsNewest(papers, ordered, w, keys);
    }
  }

  /** Every paper left out of the first `|top|` is no newer than those kept. */
  lemma TopIsNewest(papers: map<int, Paper>, ranked: seq<int>, top: seq<int>, all: set<int>)
    requires InPapers(papers, ranked) && NewestFirst(papers, ranked)
    requires |top| <= |ranked| && top == ranked[..|top|] && Elems(ranked) == all
    ensures forall h, x | h in all - Elems(top) && x in Elems(top) ::
              x in papers && h in papers && papers[x].publishedDate >= papers[h].publishedDate
  {
    PrefixIsNewest(papers, ranked, |top|);
    assert ranked == top + ranked[|top|..];
    forall h, x | h in all - Elems(top) && x in Elems(top)
      ensures x in papers && h in papers && papers[x].publishedDate >= papers[h].publishedDate
    {
      assert x in top && h in ranked[|top|..];
      var i :| 0 <= i < |ranked| && ranked[i] == h;
      var j :| 0 <= j < |top| && top[j] == x;
      assert ranked[j] == x;
    }
  }

  /** The papers a listing ranges over: all, or those joined to a bookmark. */
  function Matching(s: Store, bookmarkedOnly: bool): (ids: set<int>)
    requires Consistent(s)
    ensures forall k | k in ids :: k in s.papers && 0 < k < s.nextId
  {
    if bookmarkedOnly then s.papers.Keys * s.bookmarks.Keys else s.papers.Keys
  }

  /**
   * `get_papers`: the ids of one page of papers, newest first, and the number
   * of rows the query matches before paging.
   */
  function GetPapers(s: Store, limit: int, offset: int, bookmarkedOnly: bool): (result: (seq<int>, nat))
    requires Consistent(s)
    ensures result.1 == |Matching(s, bookmarkedOnly)|
    ensures InPapers(s.papers, result.0) && NewestFirst(s.papers, result.0)
    ensures Elems(result.0) <= Matching(s, bookmarkedOnly) && NoRepeats(result.0)
    ensures |result.0| == WindowLength(result.1, limit, offset)
    ensures offset <= 0 && (limit < 0 || limit >= result.1) ==> Elems(result.0) == Matching(s, bookmarkedOnly)
  {
    var keys := Matching(s, bookmarkedOnly);
    ListingFindsAll(keys, s.nextId);
    (Ranked(s.papers, keys, s.nextId, limit, offset), |Listing(keys, s.nextId)|)
  }

  /** Two consecutive pages of `n` papers make the page of `2 * n` papers at the same offset. */
  lemma PagesTile(s: Store, n: nat, offset: nat, bookmarkedOnly: bool)
    requires Consistent(s)
    ensures GetPapers(s, n, offset, bookmarkedOnly).0 + GetPapers(s, n, offset + n, bookmarkedOnly).0
         == GetPapers(s, 2 * n, offset, bookmarkedOnly).0
  {
    var keys := Matching(s, bookmarkedOnly);
    var rows := Listing(keys, s.nextId);
    ListingFindsAll(keys, s.nextId);
    WindowsTile(SortByDate(s.papers, rows), n, offset);
  }

  /** `get_paper_by_id`. */
  function GetPaperById(s: Store, id: int): (r: Option<Paper>)
    ensures r.Some? <==> id in s.papers
    ensures r.Some? ==> r.value == s.papers[id]
  {
    if id in s.papers then Some(s.papers[id]) else None
  }

  /** `is_bookmarked`. */
  function IsBookmarked(s: Store, id: int): (r: bool)
    ensures r <==> id in s.bookmarks
  {
    id in s.bookmarks
  }

  /** A bookmarked paper can always be fetched. */
  lemma BookmarkedPaperExists(s: Store, id: int)
    requires Consistent(s) && IsBookmarked(s, id)
    ensures GetPaperById(s, id).Some?
  {
  }

  /**
   * After a candidate is ingested, `get_paper_by_id` finds the record built
   * from it at the new id; every other id, and `is_bookmarked` for every id,
   * answer as before.
   */
  lemma LookupsAfterIngest(s: Store, it: Item, model: string, id: int)
    requires Good(s) && !HasArxivId(s.papers, it.candidate.shortId)
    ensures GetPaperById(Ingest(s, it, model), s.nextId) == Some(MakePaper(it.candidate, it.pdf))
    ensures GetPaperById(s, s.nextId) == None
    ensures id != s.nextId ==> GetPaperById(Ingest(s, it, model), id) == GetPaperById(s, id)
    ensures IsBookmarked(Ingest(s, it, model), id) == IsBookmarked(s, id)
  {
  }

  /**
   * The paper `get_paper_by_id` finds is the one the dedup lookup finds by
   * its arXiv id, and no other stored paper carries that id.
   */
  lemma GetPaperMatchesArxivLookup(s: Store, id: int)
    requires Consistent(s) && GetPaperById(s, id).Some?
    ensures HasArxivId(s.papers, GetPaperById(s, id).value.arxivId)
    ensures forall k | k in s.papers && s.papers[k].arxivId == GetPaperById(s, id).value.arxivId :: k == id
  {
  }

  /** The ids the FTS join matches: papers whose index row satisfies the query. */
  function Hits(s: Store, matches: FtsRow -> bool): (ids: set<int>)
    requires Consistent(s)
    ensures forall k | k in ids :: k in s.papers && 0 < k < s.nextId
  {
    set id | id in s.papers && id in s.fts && matches(s.fts[id])
  }

  /**
   * `search_papers`: the SQL query joins papers to their index rows, keeps
   * the matching ones, orders them newest first and keeps `limit` of them
   * (`matches` stands for `papers_fts MATCH :query`); the papers with those
   * ids are then fetched, in rowid order, and sorted newest first again.
   */
  function SearchStored(s: Store, matches: FtsRow -> bool, limit: int): (r: seq<int>)
    requires Consistent(s)
    ensures InPapers(s.papers, r) && NewestFirst(s.papers, r)
    ensures Elems(r) <= Hits(s, matches) && NoRepeats(r)
    ensures |r| == WindowLength(|Hits(s, matches)|, limit, 0)
    ensures limit < 0 || limit >= |Hits(s, matches)| ==> Elems(r) == Hits(s, matches)
    ensures forall h, x | h in Hits(s, matches) - Elems(r) && x in Elems(r) ::
              s.papers[x].publishedDate >= s.papers[h].publishedDate
  {
    var top := Ranked(s.papers, Hits(s, matches), s.nextId, limit, 0);
    var fetched := Listing(Elems(top), s.nextId);
    ListingFindsAll(Elems(top), s.nextId);
    SortKeepsElems(s.papers, fetched);
    SortByDate(s.papers, fetched)
  }

  /**
   * With the index in step with `papers`, search finds exactly the papers
   * whose title, abstract or arXiv id match, and all of them once the limit
   * does not cut.
   */
  lemma SearchMatchesPapers(s: Store, matches: FtsRow -> bool, limit: int)
    requires Good(s)
    ensures forall id | id in Elems(SearchStored(s, matches, limit)) :: matches(IndexRow(s.papers[id]))
    ensures Hits(s, matches) == set id | id in s.papers && matches(IndexRow(s.papers[id]))
  {
    forall id | id in s.papers ensures id in s.fts && s.fts[id] == IndexRow(s.papers[id]) {
      assert s.fts == Projection(s.papers);
    }
  }
}
