/**
 * The SQLite database behind the ORM: the three tables of `Models`, the
 * `papers_fts` full-text index kept in step with `papers` by three triggers,
 * the create-only-if-absent set-up in `init_db`, and the unit of work of a
 * session (pending writes, `commit`, `rollback`).
 *
 * The index is modelled by what the triggers write into it: one row
 * `(rowid, arxiv_id, title, abstract)` per paper. How FTS5 tokenises and
 * stores those rows is not modelled.
 */
module Database {
  import opened Wrappers
  import opened Models

  /** A row of `papers_fts` (its rowid is the key of the index map). */
  datatype FtsRow = FtsRow(arxivId: string, title: string, abstractText: string)

  /** The indexed columns of a paper. */
  function IndexRow(p: Paper): FtsRow {
    FtsRow(p.arxivId, p.title, p.abstractText)
  }

  /** The index the triggers are meant to maintain: one row per paper, same rowid. */
  function Projection(papers: map<int, Paper>): (m: map<int, FtsRow>)
    ensures m.Keys == papers.Keys
  {
    map id | id in papers :: IndexRow(papers[id])
  }

  /** The content of the database: the tables and the next rowid of `papers`. */
  datatype Store = Store(
    papers: map<int, Paper>,
    analyses: map<int, GrokAnalysis>,
    bookmarks: map<int, Bookmark>,
    fts: map<int, FtsRow>,
    nextId: int)

  /** A freshly created database. SQLite hands out rowid 1 first. */
  const Empty: Store := Store(map[], map[], map[], map[], 1)

  /** Constraint violations SQLite reports as `IntegrityError`. */
  datatype DbError = UniquePaperArxivId | UniqueAnalysisPaperId | UniqueBookmarkPaperId

  /** The declared constraints hold and every paper id is below the next rowid. */
  predicate Consistent(s: Store) {
    && Integrity(s.papers, s.analyses, s.bookmarks)
    && 0 < s.nextId
    && forall id | id in s.papers :: 0 < id < s.nextId
  }

  /** The search index is exactly the projection of `papers`. */
  predicate Indexed(s: Store) {
    s.fts == Projection(s.papers)
  }

  predicate Good(s: Store) {
    Consistent(s) && Indexed(s)
  }

  /**
   * `INSERT INTO papers` followed by trigger `papers_fts_insert`. The new row
   * gets rowid `s.nextId`; a duplicate `arxiv_id` is refused by the UNIQUE
   * constraint and the statement changes nothing.
   */
  function WithPaper(s: Store, p: Paper): (r: Result<Store, DbError>)
    ensures r.Err? <==> HasArxivId(s.papers, p.arxivId)
    ensures r.Err? ==> r.error == UniquePaperArxivId
    ensures r.Ok? ==>
              && r.value.papers == s.papers[s.nextId := p]
              && r.value.fts == s.fts[s.nextId := IndexRow(p)]
              && r.value.analyses == s.analyses
              && r.value.bookmarks == s.bookmarks
              && r.value.nextId == s.nextId + 1
    ensures r.Ok? && Good(s) ==> s.nextId !in s.papers && Good(r.value)
    ensures r.Ok? && Good(s) ==> ArxivIds(r.value.papers) == ArxivIds(s.papers) + {p.arxivId}
  {
    if HasArxivId(s.papers, p.arxivId) then
      Err(UniquePaperArxivId)
    else
      var id := s.nextId;
      var r := s.(papers := s.papers[id := p], fts := s.fts[id := IndexRow(p)], nextId := id + 1);
      assert Good(s) ==> Projection(r.papers) == r.fts by {
        if Good(s) {
          forall k | k in r.papers ensures k in r.fts && r.fts[k] == IndexRow(r.papers[k]) { }
        }
      }
      assert Good(s) ==> ArxivIds(r.papers) == ArxivIds(s.papers) + {p.arxivId} by {
        if Good(s) {
          assert id !in s.papers;
          assert r.papers[id].arxivId == p.arxivId;
          forall a | a in ArxivIds(s.papers) ensures a in ArxivIds(r.papers) {
            var k :| k in s.papers && s.papers[k].arxivId == a;
            assert r.papers[k] == s.papers[k];
          }
        }
      }
      Ok(r)
  }

  /**
   * `UPDATE papers` of the row with the given id, followed by trigger
   * `papers_fts_update`, which overwrites the three indexed columns of the
   * index row with the same rowid, if there is one. Updating a row that does
   * not exist changes nothing; taking another paper's `arxiv_id` is refused.
   */
  function WithUpdatedPaper(s: Store, id: int, p: Paper): (r: Result<Store, DbError>)
    ensures r.Err? <==> id in s.papers && exists k | k in s.papers :: k != id && s.papers[k].arxivId == p.arxivId
    ensures r.Ok? && id !in s.papers ==> r.value == s
    ensures r.Ok? && id in s.papers ==>
              && r.value.papers == s.papers[id := p]
              && r.value.analyses == s.analyses
              && r.value.bookmarks == s.bookmarks
              && r.value.nextId == s.nextId
              && r.value.fts.Keys == s.fts.Keys
              && (id in s.fts ==> r.value.fts[id] == IndexRow(p))
              && (forall k | k in s.fts && k != id :: r.value.fts[k] == s.fts[k])
    ensures r.Ok? && Good(s) ==> Good(r.value)
  {
    if id !in s.papers then
      Ok(s)
    else if exists k | k in s.papers :: k != id && s.papers[k].arxivId == p.arxivId then
      Err(UniquePaperArxivId)
    else
      var fts := if id in s.fts then s.fts[id := IndexRow(p)] else s.fts;
      var r := s.(papers := s.papers[id := p], fts := fts);
      assert Good(s) ==> Good(r) by {
        if Good(s) {
          UpdateKeepsGood(s, id, p);
        }
      }
      Ok(r)
  }

  /** Overwriting a stored paper with one whose `arxiv_id` no other paper has keeps the store good. */
  lemma UpdateKeepsGood(s: Store, id: int, p: Paper)
    requires Good(s) && id in s.papers
    requires forall k | k in s.papers && k != id :: s.papers[k].arxivId != p.arxivId
    ensures Good(s.(papers := s.papers[id := p], fts := s.fts[id := IndexRow(p)]))
  {
    var r := s.(papers := s.papers[id := p], fts := s.fts[id := IndexRow(p)]);
    forall k | k in r.papers ensures k in r.fts && r.fts[k] == IndexRow(r.papers[k]) { }
  }

  /**
   * Deleting a paper through the session: the ORM cascade ("all,
   * delete-orphan") deletes its analysis and its bookmark, then the paper row
   * goes and trigger `papers_fts_delete` removes the index row with its rowid.
   */
  function WithoutPaper(s: Store, id: int): (r: Store)
    ensures r.papers == s.papers - {id} && r.fts == s.fts - {id}
    ensures id !in r.analyses && id !in r.bookmarks
    ensures forall k | k != id :: (k in r.analyses <==> k in s.analyses) && (k in r.bookmarks <==> k in s.bookmarks)
    ensures forall k | k in r.analyses :: r.analyses[k] == s.analyses[k]
    ensures forall k | k in r.bookmarks :: r.bookmarks[k] == s.bookmarks[k]
    ensures Good(s) ==> Good(r)
  {
    var r := Store(s.papers - {id}, s.analyses - {id}, s.bookmarks - {id}, s.fts - {id}, s.nextId);
    assert Good(s) ==> Projection(r.papers) == r.fts by {
      if Good(s) {
        forall k | k in r.papers ensures k in r.fts && r.fts[k] == IndexRow(r.papers[k]) { }
      }
    }
    r
  }

  /**
   * `INSERT INTO grok_analyses` for an existing paper. SQLite is not told to
   * enforce foreign keys, so the reference to the paper is the caller's to
   * guarantee; the UNIQUE `paper_id` is enforced.
   */
  function WithAnalysis(s: Store, paperId: int, a: GrokAnalysis): (r: Result<Store, DbError>)
    requires paperId in s.papers
    ensures r.Err? <==> paperId in s.analyses
    ensures r.Ok? ==> r.value == s.(analyses := s.analyses[paperId := a])
    ensures r.Ok? && Good(s) ==> Good(r.value)
  {
    if paperId in s.analyses then Err(UniqueAnalysisPaperId)
    else Ok(s.(analyses := s.analyses[paperId := a]))
  }

  /** `INSERT INTO bookmarks` for an existing paper; UNIQUE `paper_id`. */
  function WithBookmark(s: Store, paperId: int, b: Bookmark): (r: Result<Store, DbError>)
    requires paperId in s.papers
    ensures r.Err? <==> paperId in s.bookmarks
    ensures r.Ok? ==> r.value == s.(bookmarks := s.bookmarks[paperId := b])
    ensures r.Ok? && Good(s) ==> Good(r.value)
  {
    if paperId in s.bookmarks then Err(UniqueBookmarkPaperId)
    else Ok(s.(bookmarks := s.bookmarks[paperId := b]))
  }

  /** `DELETE FROM bookmarks` of the bookmark of one paper. */
  function WithoutBookmark(s: Store, paperId: int): (r: Store)
    ensures r == s.(bookmarks := s.bookmarks - {paperId})
    ensures Good(s) ==> Good(r)
  {
    s.(bookmarks := s.bookmarks - {paperId})
  }

  /** A write to `papers`, as the triggers see it. */
  datatype PaperWrite = Insert(p: Paper) | Update(id: int, p: Paper) | Delete(id: int)

  /** One write; a write refused by a constraint leaves the database as it was. */
  function Apply(s: Store, w: PaperWrite): Store {
    match w
    case Insert(p) => (match WithPaper(s, p) case Ok(s') => s' case Err(_) => s)
    case Update(id, p) => (match WithUpdatedPaper(s, id, p) case Ok(s') => s' case Err(_) => s)
    case Delete(id) => WithoutPaper(s, id)
  }

  /** A sequence of writes, in order. */
  function ApplyAll(s: Store, ws: seq<PaperWrite>): Store
    decreases |ws|
  {
    if ws == [] then s else ApplyAll(Apply(s, ws[0]), ws[1..])
  }

  /** Every write keeps the tables consistent and the index equal to the projection. */
  lemma {:induction false} ApplyAllKeepsGood(s: Store, ws: seq<PaperWrite>)
    requires Good(s)
    ensures Good(ApplyAll(s, ws))
    decreases |ws|
  {
    if ws != [] {
      assert Good(Apply(s, ws[0]));
      ApplyAllKeepsGood(Apply(s, ws[0]), ws[1..]);
    }
  }

  /** Starting from empty tables, the index always equals the projection of `papers`. */
  lemma IndexFollowsPapers(ws: seq<PaperWrite>)
    ensures ApplyAll(Empty, ws).fts == Projection(ApplyAll(Empty, ws).papers)
  {
    assert Good(Empty);
    ApplyAllKeepsGood(Empty, ws);
  }

  /**
   * A session on the database. The fields are the tables as this session
   * sees them (committed rows plus its own pending writes); `committed` is
   * what the last commit left; `ftsCreated` records whether `init_db` has
   * created `papers_fts` and its triggers.
   */
  class Session {
    var papers: map<int, Paper>
    var analyses: map<int, GrokAnalysis>
    var bookmarks: map<int, Bookmark>
    var fts: map<int, FtsRow>
    var nextId: int
    var ftsCreated: bool
    var committed: Store

    function State(): Store
      reads this
    {
      Store(papers, analyses, bookmarks, fts, nextId)
    }

    /**
     * Both the working and the committed tables are consistent and indexed.
     * Before `init_db` has run nothing has been written: the data
     * operations require `init_db` to have run, and only the one-off
     * `scripts/init_db.py` calls it.
     */
    ghost predicate Valid()
      reads this
    {
      && Good(State())
      && Good(committed)
      && (!ftsCreated ==> State() == Empty && committed == Empty)
    }

    /** No uncommitted writes. */
    predicate Clean()
      reads this
    {
      State() == committed
    }

    /** A new database file after `Base.metadata.create_all`: empty tables, no index yet. */
    constructor ()
      ensures Valid() && Clean() && !ftsCreated && State() == Empty
    {
      papers, analyses, bookmarks, fts, nextId := map[], map[], map[], map[], 1;
      ftsCreated := false;
      committed := Empty;
    }

    /** `init_db`: creates `papers_fts` and the three triggers only if the table is absent. */
    method InitDb()
      requires Valid()
      modifies this`ftsCreated
      ensures Valid() && ftsCreated
      ensures old(ftsCreated) ==> unchanged(this)
    {
      if !ftsCreated {
        ftsCreated := true;
      }
    }

    /** `db.add(paper); db.flush()`: the INSERT and its trigger run inside the open transaction. */
    method AddPaper(p: Paper) returns (r: Result<int, DbError>)
      requires Valid() && ftsCreated
      modifies this`papers, this`fts, this`nextId
      ensures Valid()
      ensures WithPaper(old(State()), p).Ok? ==> r == Ok(old(nextId)) && State() == WithPaper(old(State()), p).value
      ensures WithPaper(old(State()), p).Err? ==> r == Err(UniquePaperArxivId) && State() == old(State())
    {
      var s := WithPaper(State(), p);
      if s.Ok? {
        r := Ok(nextId);
        papers, fts, nextId := s.value.papers, s.value.fts, s.value.nextId;
      } else {
        r := Err(s.error);
      }
    }

    /** An UPDATE of one paper row through the session, with its trigger. */
    method UpdatePaper(id: int, p: Paper) returns (r: Result<(), DbError>)
      requires Valid() && ftsCreated
      modifies this`papers, this`fts
      ensures Valid()
      ensures WithUpdatedPaper(old(State()), id, p).Ok? ==> r.Ok? && State() == WithUpdatedPaper(old(State()), id, p).value
      ensures WithUpdatedPaper(old(State()), id, p).Err? ==> r == Err(UniquePaperArxivId) && State() == old(State())
    {
      var s := WithUpdatedPaper(State(), id, p);
      if s.Ok? {
        r := Ok(());
        papers, fts := s.value.papers, s.value.fts;
      } else {
        r := Err(s.error);
      }
    }

    /** `db.delete(paper)`: cascades to the analysis and bookmark, trigger drops the index row. */
    method DeletePaper(id: int)
      requires Valid() && ftsCreated
      modifies this`papers, this`analyses, this`bookmarks, this`fts
      ensures Valid()
      ensures State() == WithoutPaper(old(State()), id)
    {
      var s := WithoutPaper(State(), id);
      papers, analyses, bookmarks, fts := s.papers, s.analyses, s.bookmarks, s.fts;
    }

    /** `db.add(analysis)` for a stored paper. */
    method AddAnalysis(paperId: int, a: GrokAnalysis) returns (r: Result<(), DbError>)
      requires Valid() && ftsCreated && paperId in papers
      modifies this`analyses
      ensures Valid()
      ensures r.Err? <==> paperId in old(analyses)
      ensures r.Ok? ==> State() == old(State()).(analyses := old(analyses)[paperId := a])
      ensures r.Err? ==> State() == old(State())
    {
      var s := WithAnalysis(State(), paperId, a);
      if s.Ok? {
        r := Ok(());
        analyses := s.value.analyses;
      } else {
        r := Err(s.error);
      }
    }

    /** `db.add(bookmark)` for a stored paper. */
    method AddBookmark(paperId: int, b: Bookmark) returns (r: Result<(), DbError>)
      requires Valid() && ftsCreated && paperId in papers
      modifies this`bookmarks
      ensures Valid()
      ensures r.Err? <==> paperId in old(bookmarks)
      ensures r.Ok? ==> State() == old(State()).(bookmarks := old(bookmarks)[paperId := b])
      ensures r.Err? ==> State() == old(State())
    {
      var s := WithBookmark(State(), paperId, b);
      if s.Ok? {
        r := Ok(());
        bookmarks := s.value.bookmarks;
      } else {
        r := Err(s.error);
      }
    }

    /** `db.delete(bookmark)`. */
    method DeleteBookmark(paperId: int)
      requires Valid()
      modifies this`bookmarks
      ensures Valid()
      ensures State() == WithoutBookmark(old(State()), paperId)
    {
      bookmarks := bookmarks - {paperId};
    }

    /** `db.commit()`: the pending writes become durable. */
    method Commit()
      requires Valid()
      modifies this`committed
      ensures Valid() && Clean()
      ensures State() == old(State())
    {
      committed := State();
    }

    /** `db.rollback()`: the pending writes are discarded. */
    method Rollback()
      requires Valid()
      modifies this`papers, this`analyses, this`bookmarks, this`fts, this`nextId
      ensures Valid() && Clean()
      ensures State() == old(committed)
    {
      papers, analyses, bookmarks, fts, nextId :=
        committed.papers, committed.analyses, committed.bookmarks, committed.fts, committed.nextId;
    }
  }
}
