/**
 * The bookmark endpoints: create and delete with their 404/400 answers, and
 * the list of bookmarked papers. Each request works on a fresh session over
 * the committed database; a successful write is committed before answering.
 */
module Bookmarks {
  import opened Wrappers
  import opened Models
  import opened Database
  import opened PaperService

  /** `HTTPException(status_code, detail)`. */
  datatype HttpError = HttpError(status: int, detail: string)

  const PaperNotFound := HttpError(404, "Paper not found")
  const AlreadyBookmarked := HttpError(400, "Paper already bookmarked")
  const BookmarkNotFound := HttpError(404, "Bookmark not found")

  /** What `create_bookmark` does to the tables, or the error it answers with. */
  function Create(s: Store, paperId: int, notes: Option<string>): (r: Result<Store, HttpError>)
    ensures r == Err(PaperNotFound) <==> paperId !in s.papers
    ensures r == Err(AlreadyBookmarked) <==> paperId in s.papers && paperId in s.bookmarks
    ensures r.Ok? ==> r.value == s.(bookmarks := s.bookmarks[paperId := Bookmark(notes)])
    ensures r.Ok? && Good(s) ==> Good(r.value)
  {
    if paperId !in s.papers then Err(PaperNotFound)
    else match WithBookmark(s, paperId, Bookmark(notes))
      case Err(_) => Err(AlreadyBookmarked)
      case Ok(t) => Ok(t)
  }

  /** What `delete_bookmark` does to the tables, or the error it answers with. */
  function Delete(s: Store, paperId: int): (r: Result<Store, HttpError>)
    ensures r.Err? <==> paperId !in s.bookmarks
    ensures r.Err? ==> r.error == BookmarkNotFound
    ensures r.Ok? ==> r.value == s.(bookmarks := s.bookmarks - {paperId})
    ensures r.Ok? && Good(s) ==> Good(r.value)
  {
    if paperId !in s.bookmarks then Err(BookmarkNotFound)
    else Ok(WithoutBookmark(s, paperId))
  }

  /** A bookmark just created and then deleted leaves the tables as they were. */
  lemma CreateThenDeleteRestores(s: Store, paperId: int, notes: Option<string>)
    requires Create(s, paperId, notes).Ok?
    ensures Delete(Create(s, paperId, notes).value, paperId) == Ok(s)
  {
    var t := Create(s, paperId, notes).value;
    assert t.bookmarks - {paperId} == s.bookmarks;
  }

  /** Deleting a bookmark and creating it again with its notes restores it. */
  lemma DeleteThenCreateRestores(s: Store, paperId: int)
    requires Consistent(s) && Delete(s, paperId).Ok?
    ensures Create(Delete(s, paperId).value, paperId, s.bookmarks[paperId].notes) == Ok(s)
  {
    var t := Delete(s, paperId).value;
    assert t.bookmarks[paperId := s.bookmarks[paperId]] == s.bookmarks;
  }

  /** A second create for the same paper is refused and changes nothing. */
  lemma CreateTwiceIsRefused(s: Store, paperId: int, notes: Option<string>, again: Option<string>)
    requires Create(s, paperId, notes).Ok?
    ensures Create(Create(s, paperId, notes).value, paperId, again) == Err(AlreadyBookmarked)
  {
  }

  /** A second delete of the same bookmark answers 404. */
  lemma DeleteTwiceIsNotFound(s: Store, paperId: int)
    requires Delete(s, paperId).Ok?
    ensures Delete(Delete(s, paperId).value, paperId) == Err(BookmarkNotFound)
  {
  }

  /** `create_bookmark` answers 400 exactly when the paper exists and `is_bookmarked` holds. */
  lemma CreateRefusedIffBookmarked(s: Store, paperId: int, notes: Option<string>)
    ensures Create(s, paperId, notes) == Err(AlreadyBookmarked)
        <==> GetPaperById(s, paperId).Some? && IsBookmarked(s, paperId)
  {
  }

  /**
   * After a successful create, `is_bookmarked` holds for that paper (it did
   * not before) and is unchanged for every other; the papers are untouched.
   */
  lemma IsBookmarkedAfterCreate(s: Store, paperId: int, notes: Option<string>, other: int)
    requires Create(s, paperId, notes).Ok?
    ensures !IsBookmarked(s, paperId) && IsBookmarked(Create(s, paperId, notes).value, paperId)
    ensures other != paperId ==> IsBookmarked(Create(s, paperId, notes).value, other) == IsBookmarked(s, other)
    ensures GetPaperById(Create(s, paperId, notes).value, other) == GetPaperById(s, other)
  {
  }

  /**
   * After a successful delete, `is_bookmarked` is false for that paper (it
   * was true before) and unchanged for every other; the papers are untouched.
   */
  lemma IsBookmarkedAfterDelete(s: Store, paperId: int, other: int)
    requires Delete(s, paperId).Ok?
    ensures IsBookmarked(s, paperId) && !IsBookmarked(Delete(s, paperId).value, paperId)
    ensures other != paperId ==> IsBookmarked(Delete(s, paperId).value, other) == IsBookmarked(s, other)
    ensures GetPaperById(Delete(s, paperId).value, other) == GetPaperById(s, other)
  {
  }

  /**
   * `create_bookmark`: 404 if the paper does not exist, 400 if it is already
   * bookmarked (nothing written or committed in either case), otherwise the
   * bookmark is added and committed and returned.
   */
  method CreateBookmark(db: Session, paperId: int, notes: Option<string>) returns (r: Result<Bookmark, HttpError>)
    requires db.Valid()
    modifies db`bookmarks, db`committed
    ensures db.Valid()
    ensures Create(old(db.State()), paperId, notes).Err? ==>
              && r == Err(Create(old(db.State()), paperId, notes).error)
              && db.State() == old(db.State()) && db.committed == old(db.committed)
    ensures Create(old(db.State()), paperId, notes).Ok? ==>
              && r == Ok(Bookmark(notes))
              && db.State() == Create(old(db.State()), paperId, notes).value
              && db.Clean()
  {
    if paperId !in db.papers {
      return Err(PaperNotFound);
    }
    if paperId in db.bookmarks {
      return Err(AlreadyBookmarked);
    }
    var bookmark := Bookmark(notes);
    var added := db.AddBookmark(paperId, bookmark);
    db.Commit();
    r := Ok(bookmark);
  }

  /**
   * `delete_bookmark`: 404 if the paper has no bookmark (nothing written or
   * committed), otherwise the bookmark is removed and the removal committed.
   */
  method DeleteBookmark(db: Session, paperId: int) returns (r: Result<(), HttpError>)
    requires db.Valid()
    modifies db`bookmarks, db`committed
    ensures db.Valid()
    ensures Delete(old(db.State()), paperId).Err? ==>
              && r == Err(BookmarkNotFound)
              && db.State() == old(db.State()) && db.committed == old(db.committed)
    ensures Delete(old(db.State()), paperId).Ok? ==>
              && r == Ok(())
              && db.State() == Delete(old(db.State()), paperId).value
              && db.Clean()
  {
    if paperId !in db.bookmarks {
      return Err(BookmarkNotFound);
    }
    db.DeleteBookmark(paperId);
    db.Commit();
    r := Ok(());
  }

  /** One entry of the list answer: the paper, its id and the bookmark flag. */
  datatype PaperItem = PaperItem(id: int, paper: Paper, isBookmarked: bool)

  function Ids(items: seq<PaperItem>): (ids: seq<int>)
    ensures |ids| == |items|
    ensures forall i | 0 <= i < |items| :: ids[i] == items[i].id
  {
    seq(|items|, i requires 0 <= i < |items| => items[i].id)
  }

  /**
   * `list_bookmarks`: every bookmark's paper, once, flagged as bookmarked.
   * The bookmark rows are read in the order of the ids of their papers.
   */
  method ListBookmarks(db: Session) returns (items: seq<PaperItem>)
    requires db.Valid()
    ensures ListsBookmarks(db.State(), items)
  {
    var rows := Listing(db.bookmarks.Keys, db.nextId);
    BookmarkRows(db.State());
    items := [];
    for i := 0 to |rows|
      invariant |items| == i
      invariant forall j | 0 <= j < i :: items[j] == PaperItem(rows[j], db.papers[rows[j]], true)
    {
      var paper := db.papers[rows[i]];
      items := items + [PaperItem(rows[i], paper, true)];
    }
    ItemsOfRows(db.State(), rows, items);
  }

  /**
   * The answer of `list_bookmarks`: one entry per bookmark, for the paper
   * the bookmark belongs to, flagged as bookmarked.
   */
  predicate ListsBookmarks(s: Store, items: seq<PaperItem>) {
    && |items| == |s.bookmarks|
    && Elems(Ids(items)) == s.bookmarks.Keys && NoRepeats(Ids(items))
    && forall i | 0 <= i < |items| ::
         && items[i].isBookmarked
         && IsBookmarked(s, items[i].id)
         && GetPaperById(s, items[i].id) == Some(items[i].paper)
  }

  /** The bookmark rows, one per bookmarked paper, each the id of a paper. */
  lemma BookmarkRows(s: Store)
    requires Consistent(s)
    ensures var rows := Listing(s.bookmarks.Keys, s.nextId);
      && Elems(rows) == s.bookmarks.Keys && NoRepeats(rows) && |rows| == |s.bookmarks|
      && forall i | 0 <= i < |rows| :: rows[i] in s.bookmarks && rows[i] in s.papers
  {
    ListingFindsAll(s.bookmarks.Keys, s.nextId);
    assert |s.bookmarks.Keys| == |s.bookmarks|;
  }

  /** One item per bookmark row, with the row's paper, is the list answer. */
  lemma ItemsOfRows(s: Store, rows: seq<int>, items: seq<PaperItem>)
    requires Consistent(s) && rows == Listing(s.bookmarks.Keys, s.nextId)
    requires forall i | 0 <= i < |rows| :: rows[i] in s.papers
    requires |items| == |rows|
    requires forall j | 0 <= j < |rows| :: items[j] == PaperItem(rows[j], s.papers[rows[j]], true)
    ensures ListsBookmarks(s, items)
  {
    BookmarkRows(s);
    assert Ids(items) == rows;
  }
}
