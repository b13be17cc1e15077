/**
 * The arXiv side: the client-side date window applied to search results,
 * the file name a PDF is cached under, and the cached download.
 *
 * The arXiv client itself (the query, its sorting and `max_results`) is
 * outside the model: its results arrive as a sequence, and a download's
 * effect on the disk is an input.
 */
module ArxivService {
  import opened Wrappers
  import opened Time

  /** A `datetime`: wall-clock seconds plus, when it is time-zone aware, its UTC offset. */
  datatype DateTime = DateTime(wall: int, utcOffset: Option<int>)

  /** The instant a datetime denotes; a naive datetime is read as UTC. */
  function Instant(d: DateTime): int {
    d.wall - d.utcOffset.GetOr(0)
  }

  /** One `arxiv.Result`, with the fields the pipeline reads. */
  datatype ArxivResult = ArxivResult(
    shortId: string,
    title: string,
    authors: seq<string>,
    summary: string,
    published: DateTime,
    updated: Option<DateTime>,
    pdfUrl: string,
    categories: seq<string>,
    primaryCategory: string)

  /** The date the window applies to: `updated` when present, else `published`. */
  function EffectiveDate(r: ArxivResult): DateTime {
    match r.updated
    case Some(u) => u
    case None => r.published
  }

  /** `now - timedelta(days=days_back)`, in seconds. */
  function WindowStart(now: int, daysBack: int): int {
    now - daysBack * SecondsPerDay
  }

  /** The only test applied: on or after the start of the window. There is no upper bound. */
  predicate IsRecent(r: ArxivResult, now: int, daysBack: int) {
    Instant(EffectiveDate(r)) >= WindowStart(now, daysBack)
  }

  /** The results that pass the window, in the client's order. */
  function Recent(rs: seq<ArxivResult>, now: int, daysBack: int): (kept: seq<ArxivResult>)
    ensures |kept| <= |rs|
    ensures forall x | x in kept :: x in rs && IsRecent(x, now, daysBack)
    ensures forall x | x in rs && IsRecent(x, now, daysBack) :: x in kept
    decreases |rs|
  {
    if rs == [] then []
    else
      var last := rs[|rs| - 1];
      Recent(rs[..|rs| - 1], now, daysBack) + (if IsRecent(last, now, daysBack) then [last] else [])
  }

  /** `a` is `b` with some elements left out, the rest in the same order. */
  predicate IsSubsequence<T(==)>(a: seq<T>, b: seq<T>)
    decreases |b|
  {
    if a == [] then true
    else if b == [] then false
    else if a[|a| - 1] == b[|b| - 1] then IsSubsequence(a[..|a| - 1], b[..|b| - 1])
    else IsSubsequence(a, b[..|b| - 1])
  }

  /** The kept results keep the client's order. */
  lemma {:induction false} RecentIsSubsequence(rs: seq<ArxivResult>, now: int, daysBack: int)
    ensures IsSubsequence(Recent(rs, now, daysBack), rs)
    decreases |rs|
  {
    if rs != [] {
      var init, last := rs[..|rs| - 1], rs[|rs| - 1];
      var kept := Recent(rs, now, daysBack);
      RecentIsSubsequence(init, now, daysBack);
      if IsRecent(last, now, daysBack) {
        assert kept[..|kept| - 1] == Recent(init, now, daysBack);
      } else {
        assert kept == Recent(init, now, daysBack);
        if kept != [] {
          assert kept[|kept| - 1] in kept;
        }
      }
    }
  }

  /** A result dated later than now is kept whenever the window reaches back at all. */
  lemma FutureDatedIsKept(rs: seq<ArxivResult>, i: int, now: int, daysBack: int)
    requires 0 <= i < |rs| && 0 <= daysBack
    requires Instant(EffectiveDate(rs[i])) > now
    ensures rs[i] in Recent(rs, now, daysBack)
  {
  }

  /**
   * `search_papers` after the client has answered: walks the results once
   * and appends those inside the window. `now` is the UTC time read at entry.
   */
  method SearchPapers(clientResults: seq<ArxivResult>, now: int, daysBack: int) returns (results: seq<ArxivResult>)
    ensures results == Recent(clientResults, now, daysBack)
  {
    var startDate := WindowStart(now, daysBack);
    results := [];
    for i := 0 to |clientResults|
      invariant results == Recent(clientResults[..i], now, daysBack)
    {
      var result := clientResults[i];
      var paperDate := if result.updated.Some? then result.updated.value else result.published;
      if paperDate.utcOffset.None? {
        paperDate := paperDate.(utcOffset := Some(0));
      }
      if Instant(paperDate) >= startDate {
        results := results + [result];
      }
      assert clientResults[..i + 1][..i] == clientResults[..i];
    }
    assert clientResults[..|clientResults|] == clientResults;
  }

  /** `s.replace(c, d)` for single characters. */
  function ReplaceChar(s: string, c: char, d: char): (r: string)
    ensures |r| == |s|
    ensures forall i | 0 <= i < |s| :: r[i] == (if s[i] == c then d else s[i])
    decreases |s|
  {
    if s == [] then []
    else [if s[0] == c then d else s[0]] + ReplaceChar(s[1..], c, d)
  }

  /** `get_short_id().replace("/", "_").replace(":", "_")`. */
  function SafeId(shortId: string): (r: string)
    ensures |r| == |shortId|
    ensures '/' !in r && ':' !in r
    ensures forall i | 0 <= i < |shortId| && shortId[i] != '/' && shortId[i] != ':' :: r[i] == shortId[i]
    ensures forall i | 0 <= i < |shortId| && (shortId[i] == '/' || shortId[i] == ':') :: r[i] == '_'
  {
    ReplaceChar(ReplaceChar(shortId, '/', '_'), ':', '_')
  }

  /**
   * For arXiv-shaped ids (no `_` and no `:`), distinct ids get distinct
   * safe ids, so two papers never share a cached PDF.
   */
  lemma SafeIdInjective(a: string, b: string)
    requires '_' !in a && ':' !in a && '_' !in b && ':' !in b
    requires SafeId(a) == SafeId(b)
    ensures a == b
  {
    assert |a| == |b|;
    forall i | 0 <= i < |a| ensures a[i] == b[i] {
      assert a[i] in a && b[i] in b;
      assert SafeId(a)[i] == SafeId(b)[i];
    }
  }

  /** A path separator or a colon: the two characters the safe id replaces. */
  predicate IsSeparator(ch: char) {
    ch == '/' || ch == ':'
  }

  /**
   * Ids that differ only in `/` against `:` share a file name, so such ids
   * would share a cached PDF (for example `a/1` and `a:1`).
   */
  lemma SafeIdMergesSeparators(a: string, b: string)
    requires |a| == |b|
    requires forall i | 0 <= i < |a| :: a[i] == b[i] || (IsSeparator(a[i]) && IsSeparator(b[i]))
    ensures SafeId(a) == SafeId(b)
  {
    forall i | 0 <= i < |a| ensures SafeId(a)[i] == SafeId(b)[i] {
      if IsSeparator(a[i]) {
        assert SafeId(a)[i] == '_';
      }
    }
  }

  /** A file path: the storage directory and a file name in it. */
  datatype Path = Path(dir: string, name: string) {
    /** `str(path)`. */
    function ToString(): string {
      dir + "/" + name
    }
  }

  /** `save_dir / f"{safe_id}.pdf"`. */
  function PdfPath(saveDir: string, shortId: string): (p: Path)
    ensures p.dir == saveDir
    ensures |p.name| == |shortId| + 4 && p.name[|shortId|..] == ".pdf"
    ensures p.name[..|shortId|] == SafeId(shortId)
  {
    Path(saveDir, SafeId(shortId) + ".pdf")
  }

  /** The local file system, as far as existence of files goes. */
  class Disk {
    var files: set<Path>

    constructor (files: set<Path>)
      ensures this.files == files
    {
      this.files := files;
    }
  }

  /** What `paper.download_pdf(...)` did. */
  datatype DownloadOutcome =
    | Saved          // returned, and the file is there
    | SavedNothing   // returned, but no file appeared
    | Raised         // raised (network or file error)

  /**
   * What `download_pdf` returns for the file at `path`: the file when it was
   * there already (`cached`), or when it was saved and the sleep after the
   * download went through; otherwise None.
   */
  function DownloadResult(path: Path, cached: bool, outcome: DownloadOutcome, delay: int): Option<Path> {
    if cached || (outcome.Saved? && delay >= 0) then Some(path) else None
  }

  class ArxivClient {
    /** Seconds slept after each download (not an elapsed-time limiter). */
    const rateLimitDelay: int

    constructor (rateLimitDelay: int := 3)
      ensures this.rateLimitDelay == rateLimitDelay
    {
      this.rateLimitDelay := rateLimitDelay;
    }

    /**
     * `download_pdf`: never raises. If the derived path exists it is returned
     * at once (no download, no sleep). Otherwise one download is attempted,
     * then a fixed sleep, and the path is returned iff the file is there.
     * An exception from the download (or from `time.sleep` with a negative
     * delay) is swallowed and gives None.
     */
    method DownloadPdf(paper: ArxivResult, saveDir: string, disk: Disk, clock: Clock, outcome: DownloadOutcome)
      returns (r: Option<Path>, downloads: nat)
      modifies disk, clock
      ensures r == None || r == Some(PdfPath(saveDir, paper.shortId))
      ensures r == DownloadResult(PdfPath(saveDir, paper.shortId), PdfPath(saveDir, paper.shortId) in old(disk.files),
                                  outcome, rateLimitDelay)
      ensures r.Some? ==> PdfPath(saveDir, paper.shortId) in disk.files
      ensures PdfPath(saveDir, paper.shortId) in old(disk.files) ==>
                r.Some? && downloads == 0 && disk.files == old(disk.files) && clock.now == old(clock.now)
      ensures PdfPath(saveDir, paper.shortId) !in old(disk.files) ==>
                && downloads == 1
                && disk.files == (if outcome.Saved? then old(disk.files) + {PdfPath(saveDir, paper.shortId)} else old(disk.files))
                && (outcome.Raised? || rateLimitDelay < 0 ==> r.None? && clock.now == old(clock.now))
                && (!outcome.Raised? && rateLimitDelay >= 0 ==> clock.now >= old(clock.now) + rateLimitDelay)
                && (r.Some? <==> outcome.Saved? && rateLimitDelay >= 0)
    {
      var pdfPath := PdfPath(saveDir, paper.shortId);
      if pdfPath in disk.files {
        return Some(pdfPath), 0;
      }
      downloads := 1;
      match outcome {
        case Raised =>
          return None, downloads;
        case Saved =>
          disk.files := disk.files + {pdfPath};
        case SavedNothing =>
      }
      if rateLimitDelay < 0 {
        // time.sleep raises ValueError; the handler turns it into None
        return None, downloads;
      }
      clock.Sleep(rateLimitDelay);
      r := if pdfPath in disk.files then Some(pdfPath) else None;
    }

    /** Asking twice for the same paper downloads at most once once the first call succeeded. */
    method DownloadPdfTwice(paper: ArxivResult, saveDir: string, disk: Disk, clock: Clock,
                            first: DownloadOutcome, second: DownloadOutcome)
      returns (r1: Option<Path>, r2: Option<Path>, downloads: nat)
      modifies disk, clock
      ensures r1.Some? ==> r2 == r1 && downloads <= 1
      ensures PdfPath(saveDir, paper.shortId) in old(disk.files) ==> downloads == 0
    {
      var d1, d2;
      r1, d1 := DownloadPdf(paper, saveDir, disk, clock, first);
      r2, d2 := DownloadPdf(paper, saveDir, disk, clock, second);
      downloads := d1 + d2;
    }
  }
}
