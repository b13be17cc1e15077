/**
 * The three ORM record types and the constraints the schema declares on them.
 *
 * A table is a map from primary key to row. `grok_analyses` and `bookmarks`
 * each carry a UNIQUE `paper_id`, so both are keyed by the id of the paper
 * they belong to: "at most one analysis and one bookmark per paper" is then
 * a fact of the representation. Auto-filled timestamps (`created_at`,
 * `analyzed_at`, `bookmarked_at`) and the surrogate ids of analyses and
 * bookmarks are not modelled.
 */
module Models {
  import opened Wrappers

  /** Column default of `grok_analyses.model_version`. */
  const DefaultModelVersion: string := "grok-4-1-fast-reasoning"

  /**
   * A row of `papers`. NOT NULL columns are plain fields; the two nullable
   * ones (`updated_date`, `pdf_local_path`) are options. Dates are the stored
   * wall-clock value in seconds (the column keeps no time zone).
   */
  datatype Paper = Paper(
    arxivId: string,
    title: string,
    authors: seq<string>,
    abstractText: string,
    publishedDate: int,
    updatedDate: Option<int>,
    pdfUrl: string,
    pdfLocalPath: Option<string>,
    categories: seq<string>,
    primaryCategory: string)

  /** A row of `grok_analyses`; `summary` is nullable, `model_version` has a default. */
  datatype GrokAnalysis = GrokAnalysis(
    keyPoints: seq<string>,
    summary: Option<string> := None,
    modelVersion: string := DefaultModelVersion)

  /** A row of `bookmarks`; `notes` is nullable. */
  datatype Bookmark = Bookmark(notes: Option<string>)

  /** The set of `arxiv_id` values present in `papers`. */
  function ArxivIds(papers: map<int, Paper>): set<string> {
    set id | id in papers :: papers[id].arxivId
  }

  /** Whether some paper carries the given `arxiv_id` (the dedup lookup). */
  predicate HasArxivId(papers: map<int, Paper>, arxivId: string) {
    exists id | id in papers :: papers[id].arxivId == arxivId
  }

  /** UNIQUE on `papers.arxiv_id`. */
  predicate UniqueArxivIds(papers: map<int, Paper>) {
    forall i, j | i in papers && j in papers && papers[i].arxivId == papers[j].arxivId :: i == j
  }

  /** The foreign key `paper_id -> papers.id` of a table keyed by paper id. */
  predicate ReferencesPapers<V>(owned: map<int, V>, papers: map<int, Paper>) {
    owned.Keys <= papers.Keys
  }

  /** All the declared relational constraints together. */
  predicate Integrity(papers: map<int, Paper>, analyses: map<int, GrokAnalysis>, bookmarks: map<int, Bookmark>) {
    && UniqueArxivIds(papers)
    && ReferencesPapers(analyses, papers)
    && ReferencesPapers(bookmarks, papers)
  }

  lemma HasArxivIdIsMembership(papers: map<int, Paper>, arxivId: string)
    ensures HasArxivId(papers, arxivId) <==> arxivId in ArxivIds(papers)
  {
    if arxivId in ArxivIds(papers) {
      var id :| id in papers && papers[id].arxivId == arxivId;
    }
  }
}
