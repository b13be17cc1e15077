/**
 * The backfill script: every paper without an analysis is sent to the
 * language model once (with the service's own retries), and a non-empty
 * answer is stored and committed on its own. Empty answers, None and
 * exceptions count as failures and store nothing.
 */
module AddMissingAnalysis {
  import opened Wrappers
  import opened Time
  import opened Models
  import opened Database
  import opened GrokService
  import opened PaperService

  /** The papers the outer join finds without an analysis row. */
  function Missing(s: Store): set<int> {
    s.papers.Keys - s.analyses.Keys
  }

  /** The selected papers, in rowid order. */
  function Selected(s: Store): (ids: seq<int>)
    requires Consistent(s)
    ensures Increasing(ids) && Elems(ids) == Missing(s) && NoRepeats(ids)
  {
    ListingFindsAll(Missing(s), s.nextId);
    Listing(Missing(s), s.nextId)
  }

  /** The tables and the two counters. */
  datatype Backfill = Backfill(store: Store, analyzed: nat, failed: nat)

  /**
   * One paper: with a non-empty answer whose commit goes through, its
   * analysis is stored; anything else counts as failed, and a failed
   * commit is rolled back, which leaves the committed tables as they were.
   */
  function BackfillStep(b: Backfill, id: int, answer: Outcome, commitFails: bool): Backfill
    requires id in b.store.papers && id !in b.store.analyses
  {
    if HasKeyPoints(answer) && !commitFails then
      b.(store := b.store.(analyses := b.store.analyses[id := GrokAnalysis(answer.points.value, None, DefaultModel)]),
         analyzed := b.analyzed + 1)
    else
      b.(failed := b.failed + 1)
  }

  /** Whether the backfill may visit `ids` from `b`: papers, all distinct, none analysed yet. */
  predicate Visitable(b: Backfill, ids: seq<int>) {
    && NoRepeats(ids)
    && forall i | 0 <= i < |ids| :: ids[i] in b.store.papers && ids[i] !in b.store.analyses
  }

  /**
   * The loop over the selected papers. `answers` gives each paper's outcome
   * of `analyze_paper`, `failingCommits` the papers whose commit raises.
   */
  function BackfillRun(b: Backfill, ids: seq<int>, answers: int -> Outcome, failingCommits: set<int>): (r: Backfill)
    requires Visitable(b, ids)
    ensures r.store.papers == b.store.papers && r.store.bookmarks == b.store.bookmarks
    ensures r.store.fts == b.store.fts && r.store.nextId == b.store.nextId
    ensures forall id | id in b.store.analyses :: id in r.store.analyses && r.store.analyses[id] == b.store.analyses[id]
    ensures forall id | id in r.store.analyses :: id in b.store.analyses || id in ids
    decreases |ids|
  {
    if ids == [] then b
    else
      var init := ids[..|ids| - 1];
      var id := ids[|ids| - 1];
      VisitableInit(b, ids);
      var c := BackfillRun(b, init, answers, failingCommits);
      BackfillStep(c, id, answers(id), id in failingCommits)
  }

  lemma VisitableInit(b: Backfill, ids: seq<int>)
    requires Visitable(b, ids) && ids != []
    ensures Visitable(b, ids[..|ids| - 1])
    ensures ids[|ids| - 1] !in ids[..|ids| - 1]
  {
    var init := ids[..|ids| - 1];
    SplitNoRepeats(ids, |ids| - 1);
    assert ids[|ids| - 1..] == [ids[|ids| - 1]];
    assert Elems(ids) == Elems(init) + {ids[|ids| - 1]};
  }

  /** One more paper: the run over `ids[..k + 1]` is one step after the run over `ids[..k]`. */
  lemma BackfillRunSnoc(b: Backfill, ids: seq<int>, k: nat, answers: int -> Outcome, failingCommits: set<int>)
    requires Visitable(b, ids) && k < |ids|
    ensures Visitable(b, ids[..k]) && Visitable(b, ids[..k + 1])
    ensures var c := BackfillRun(b, ids[..k], answers, failingCommits);
      && ids[k] in c.store.papers && ids[k] !in c.store.analyses
      && BackfillRun(b, ids[..k + 1], answers, failingCommits) == BackfillStep(c, ids[k], answers(ids[k]), ids[k] in failingCommits)
  {
    SplitNoRepeats(ids, k + 1);
    VisitableInit(b, ids[..k + 1]);
    assert ids[..k + 1][..k] == ids[..k];
  }

  /** Which papers carry an analysis after the backfill, and what it holds. */
  lemma {:induction false} BackfillAnalyses(b: Backfill, ids: seq<int>, answers: int -> Outcome, failingCommits: set<int>)
    requires Visitable(b, ids)
    ensures var r := BackfillRun(b, ids, answers, failingCommits);
      forall id :: id in r.store.analyses <==>
        id in b.store.analyses || (id in ids && HasKeyPoints(answers(id)) && id !in failingCommits)
    ensures var r := BackfillRun(b, ids, answers, failingCommits);
      forall id | id in ids && id in r.store.analyses ::
        r.store.analyses[id] == GrokAnalysis(answers(id).points.value, None, DefaultModel)
    decreases |ids|
  {
    if ids != [] {
      var init := ids[..|ids| - 1];
      VisitableInit(b, ids);
      BackfillAnalyses(b, init, answers, failingCommits);
      assert ids == init + [ids[|ids| - 1]];
    }
  }

  /** Every selected paper is counted once, as analysed or as failed. */
  lemma {:induction false} BackfillCounts(b: Backfill, ids: seq<int>, answers: int -> Outcome, failingCommits: set<int>)
    requires Visitable(b, ids)
    ensures var r := BackfillRun(b, ids, answers, failingCommits);
      && r.analyzed + r.failed == b.analyzed + b.failed + |ids|
      && r.analyzed == b.analyzed + |set id | id in ids && HasKeyPoints(answers(id)) && id !in failingCommits|
    decreases |ids|
  {
    if ids != [] {
      var init := ids[..|ids| - 1];
      var last := ids[|ids| - 1];
      VisitableInit(b, ids);
      BackfillCounts(b, init, answers, failingCommits);
      assert ids == init + [last];
      var before := set id | id in init && HasKeyPoints(answers(id)) && id !in failingCommits;
      var after := set id | id in ids && HasKeyPoints(answers(id)) && id !in failingCommits;
      if HasKeyPoints(answers(last)) && last !in failingCommits {
        assert last !in before;
        assert after == before + {last};
      } else {
        assert after == before;
      }
    }
  }

  /** The backfill keeps the declared constraints and the index. */
  lemma {:induction false} BackfillKeepsGood(b: Backfill, ids: seq<int>, answers: int -> Outcome, failingCommits: set<int>)
    requires Visitable(b, ids) && Good(b.store)
    ensures Good(BackfillRun(b, ids, answers, failingCommits).store)
    decreases |ids|
  {
    if ids != [] {
      VisitableInit(b, ids);
      BackfillKeepsGood(b, ids[..|ids| - 1], answers, failingCommits);
    }
  }

  /** An analysis committed for an earlier paper is still there at the end. */
  lemma {:induction false} EarlierAnalysesPersist(b: Backfill, ids: seq<int>, k: nat, answers: int -> Outcome, failingCommits: set<int>)
    requires Visitable(b, ids) && k <= |ids|
    ensures Visitable(b, ids[..k])
    ensures var mid := BackfillRun(b, ids[..k], answers, failingCommits);
      forall id | id in mid.store.analyses ::
        id in BackfillRun(b, ids, answers, failingCommits).store.analyses
  {
    var pre := ids[..k];
    SplitNoRepeats(ids, k);
    BackfillAnalyses(b, ids, answers, failingCommits);
    BackfillAnalyses(b, pre, answers, failingCommits);
    assert forall id | id in pre :: id in ids;
  }

  /** What the script reports. */
  datatype Report = NothingToDo | Done(analyzed: nat, failed: nat)

  /** The outcome of `analyze_paper` for each paper, from that paper's replies. */
  function Answers(calls: int -> seq<CallOutcome>, parse: string -> Parsed): int -> Outcome
    requires forall id :: MaxAttempts <= |calls(id)|
  {
    id => AnalysisOf(calls(id), parse)
  }

  /**
   * The body of the loop for one paper once `analyze_paper` has answered:
   * store non-empty key points and commit; an exception (from the call or
   * from the commit) is counted and rolled back.
   */
  method StoreAnswer(db: Session, id: int, keyPoints: Outcome, commitFails: bool, ghost b: Backfill) returns (ok: bool)
    requires db.Valid() && db.Clean()
    requires id in db.papers && id !in db.analyses
    requires b.store == db.State()
    modifies db
    ensures db.Valid() && db.Clean() && db.ftsCreated == old(db.ftsCreated)
    ensures BackfillStep(b, id, keyPoints, commitFails)
         == Backfill(db.State(), b.analyzed + (if ok then 1 else 0), b.failed + (if ok then 0 else 1))
  {
    ok := false;
    if keyPoints.Threw? {
      db.Rollback();
    } else if keyPoints.points.Some? && keyPoints.points.value != [] {
      assert db.ftsCreated;
      var added := db.AddAnalysis(id, GrokAnalysis(keyPoints.points.value, None, DefaultModel));
      if commitFails {
        db.Rollback();
      } else {
        db.Commit();
        ok := true;
      }
    }
  }

  /**
   * `main` of the backfill script, from a fresh session. `calls(id)` are the
   * replies the chat endpoint gives for paper `id`; `failingCommits` the
   * papers whose commit raises.
   */
  method AddMissing(db: Session, clock: Clock, calls: int -> seq<CallOutcome>, parse: string -> Parsed, failingCommits: set<int>)
    returns (r: Report)
    requires db.Valid() && db.Clean()
    requires forall id :: MaxAttempts <= |calls(id)|
    modifies db, clock
    ensures db.Valid() && db.Clean() && db.ftsCreated == old(db.ftsCreated)
    ensures Missing(old(db.State())) == {} <==> r == NothingToDo
    ensures r == NothingToDo ==> db.State() == old(db.State())
    ensures r.Done? ==>
              var b := BackfillRun(Backfill(old(db.State()), 0, 0), Selected(old(db.State())), Answers(calls, parse), failingCommits);
              r == Done(b.analyzed, b.failed) && db.State() == b.store
  {
    ghost var s0 := db.State();
    var selected := Listing(db.papers.Keys - db.analyses.Keys, db.nextId);
    assert selected == Selected(s0);
    if |selected| == 0 {
      assert Elems(selected) == {};
      return NothingToDo;
    }
    assert selected[0] in db.papers;
    var grok := new Grok();
    var analyzed, failed := AnalyzeEach(db, grok, clock, selected, calls, parse, failingCommits);
    r := Done(analyzed, failed);
  }

  /** The loop of `main` over the selected papers, one commit per stored analysis. */
  method AnalyzeEach(db: Session, grok: Grok, clock: Clock, selected: seq<int>,
                     calls: int -> seq<CallOutcome>, parse: string -> Parsed, failingCommits: set<int>)
    returns (analyzed: nat, failed: nat)
    requires db.Valid() && db.Clean() && grok.model == DefaultModel
    requires Visitable(Backfill(db.State(), 0, 0), selected)
    requires forall id :: MaxAttempts <= |calls(id)|
    modifies db, grok`lastRequestTime, clock
    ensures db.Valid() && db.Clean() && db.ftsCreated == old(db.ftsCreated)
    ensures BackfillRun(Backfill(old(db.State()), 0, 0), selected, Answers(calls, parse), failingCommits)
         == Backfill(db.State(), analyzed, failed)
  {
    ghost var answers := Answers(calls, parse);
    ghost var start := Backfill(db.State(), 0, 0);
    analyzed, failed := 0, 0;
    for i := 0 to |selected|
      invariant db.Valid() && db.Clean() && db.ftsCreated == old(db.ftsCreated)
      invariant Visitable(start, selected[..i])
      invariant BackfillRun(start, selected[..i], answers, failingCommits) == Backfill(db.State(), analyzed, failed)
    {
      var id := selected[i];
      BackfillRunSnoc(start, selected, i, answers, failingCommits);
      ghost var before := Backfill(db.State(), analyzed, failed);
      var run := grok.AnalyzePaper(clock, calls(id), parse);
      assert run.outcome == AnalysisOf(calls(id), parse) == answers(id);
      var ok := StoreAnswer(db, id, run.outcome, id in failingCommits, before);
      if ok {
        analyzed := analyzed + 1;
      } else {
        failed := failed + 1;
      }
    }
    assert selected[..|selected|] == selected;
  }
}
