/**
 * The administration page of the manga site: creating a comic from a cover image and
 * ingesting a chapter from a batch of page images.
 *
 * The remote services the page talks to (the blob upload route and the `comics`,
 * `chapters` and `pages` tables) are modelled as three append-only tables held by the
 * page object and a log of every remote call in the order it is issued. What each
 * remote call answers is not decided here: it is given to the handlers as an oracle.
 */
module Admin {
  import opened Common

  /** A file chosen in a file input. Only its name reaches the code (as the upload's `filename`). */
  datatype File = File(name: string)

  type Url = string

  /** Identifier the database generates for a new chapter row. */
  type RowId = int

  datatype ComicRow = ComicRow(title: string, author: string, coverUrl: Url)

  /** `chapter_number` is the text of a number input; the database does the conversion. */
  datatype ChapterRow = ChapterRow(id: RowId, comicId: string, title: string, chapterNumber: string)

  datatype PageRow = PageRow(chapterId: RowId, imageUrl: Url, pageNumber: int)

  /** The three tables, each in insertion order. */
  datatype Tables = Tables(comics: seq<ComicRow>, chapters: seq<ChapterRow>, pages: seq<PageRow>)

  /** A remote call issued by the page. */
  datatype Call =
    | UploadFile(fileName: string)              // POST /api/upload?filename=<name>
    | InsertComic(comic: ComicRow)              // insert into `comics`
    | InsertChapter(comicId: string, title: string, chapterNumber: string)
    | InsertPage(page: PageRow)                 // insert into `pages`
    | FetchComics                               // re-read of the comic list

  /** What an upload answers: the blob's URL, or a throw (network failure or a response that is not JSON). */
  datatype Upload = Uploaded(url: Url) | UploadThrew

  /** What the chapter insert (with `.select().single()`) answers. */
  datatype ChapterInsert = ChapterInserted(id: RowId) | ChapterInsertError

  /** The answers of the remote services during one chapter ingestion run:
      `upload(i)` answers the upload of the file at position `i`, and
      `pageAccepted(i)` tells whether the page insert that follows it writes its row. */
  datatype ChapterNet = ChapterNet(insert: ChapterInsert, upload: nat -> Upload, pageAccepted: nat -> bool)

  /** The answers of the remote services while a comic is created. */
  datatype ComicNet = ComicNet(upload: Upload, insertAccepted: bool)

  /** The step whose error is reported to the operator. */
  datatype Step = ChapterInsertStep | UploadStep | ComicInsertStep

  /** The alert a handler ends with. */
  datatype Notice =
    | PickComic                      // no comic selected
    | PickImages                     // no page images chosen
    | PickCover                      // no cover image chosen
    | ChapterUploaded(pageCount: nat)
    | ComicCreated
    | Failed(step: Step)

  /** The "new comic" form: two text fields and the cover file input
      (`None` while the input's ref is not attached). */
  datatype ComicForm = ComicForm(title: string, author: string, cover: Option<seq<File>>)

  /** The "upload chapter" form: the selected comic, two text fields and the page file input. */
  datatype ChapterForm = ChapterForm(comicId: string, title: string, number: string, files: Option<seq<File>>)

  /** Everything the page and its remote services hold. */
  datatype AdminState = AdminState(
    db: Tables,
    calls: seq<Call>,
    loading: bool,
    comicForm: ComicForm,
    chapterForm: ChapterForm)

  /** The state a handler leaves and the alert it ends with. */
  datatype Outcome = Outcome(state: AdminState, notice: Notice)

  /** A file input with nothing in it (or no input at all). */
  predicate NoFiles(files: Option<seq<File>>)
  {
    files.None? || |files.value| == 0
  }

  // ---------------------------------------------------------------------------
  // Specification of one chapter ingestion run
  // ---------------------------------------------------------------------------

  predicate UploadedBelow(net: ChapterNet, k: nat)
  {
    forall j :: 0 <= j < k ==> net.upload(j).Uploaded?
  }

  /** Position of the first of the uploads 0 .. n-1 that throws, or n when none does. */
  function FirstFailure(upload: nat -> Upload, n: nat): (k: nat)
    ensures k <= n
    ensures forall j :: 0 <= j < k ==> upload(j).Uploaded?
    ensures k < n ==> upload(k).UploadThrew?
  {
    if n == 0 then 0
    else
      var k := FirstFailure(upload, n - 1);
      if k < n - 1 || upload(n - 1).UploadThrew? then k else n
  }

  /** The page record written for the file at position `i`: it belongs to the chapter,
      points at the URL the upload of that file returned and is numbered `i + 1`. */
  function PageFor(chapterId: RowId, net: ChapterNet, i: nat): PageRow
    requires net.upload(i).Uploaded?
  {
    PageRow(chapterId, net.upload(i).url, i + 1)
  }

  /** The calls issued by the first `k` rounds of the page loop, all of whose uploads succeeded. */
  function LoopCalls(files: seq<File>, chapterId: RowId, net: ChapterNet, k: nat): seq<Call>
    requires k <= |files| && UploadedBelow(net, k)
  {
    if k == 0 then []
    else LoopCalls(files, chapterId, net, k - 1)
         + [UploadFile(files[k - 1].name), InsertPage(PageFor(chapterId, net, k - 1))]
  }

  /** The rows the first `k` rounds of the page loop add to `pages`: a round whose insert is
      not accepted adds nothing. */
  function LoopPages(chapterId: RowId, net: ChapterNet, k: nat): seq<PageRow>
    requires UploadedBelow(net, k)
  {
    if k == 0 then []
    else LoopPages(chapterId, net, k - 1)
         + (if net.pageAccepted(k - 1) then [PageFor(chapterId, net, k - 1)] else [])
  }

  /** Validation passes: a comic is selected and at least one page image is chosen. */
  predicate Validated(s: AdminState)
  {
    s.chapterForm.comicId != "" && !NoFiles(s.chapterForm.files)
  }

  /** The chapter insert a run issues, with the values of the form. */
  function ChapterCall(f: ChapterForm): Call
  {
    InsertChapter(f.comicId, f.title, f.number)
  }

  /** The page loop and what follows it, from a state in which chapter `id` has just been
      inserted: the pages of the rounds before the first failed upload are added; on success
      the chapter form is cleared except for the selected comic. */
  function PagesRun(s: AdminState, files: seq<File>, id: RowId, net: ChapterNet): (r: Outcome)
    ensures !r.state.loading && r.state.comicForm == s.comicForm
    ensures r.state.db.comics == s.db.comics && r.state.db.chapters == s.db.chapters
    ensures s.calls <= r.state.calls && s.db.pages <= r.state.db.pages
    ensures r.state.chapterForm.comicId == s.chapterForm.comicId
  {
    var k := FirstFailure(net.upload, |files|);
    var s' := s.(db := s.db.(pages := s.db.pages + LoopPages(id, net, k)),
                 calls := s.calls + LoopCalls(files, id, net, k)
                          + (if k < |files| then [UploadFile(files[k].name)] else []),
                 loading := false);
    if k < |files| then Outcome(s', Failed(UploadStep))
    else Outcome(s'.(chapterForm := s.chapterForm.(title := "", number := "", files := Some([]))),
                 ChapterUploaded(|files|))
  }

  /** The state after one chapter ingestion run, and the alert it ends with. */
  function UploadChapterRun(s: AdminState, net: ChapterNet): (r: Outcome)
    // the comic check comes first, the file check second, and a failed check changes nothing
    ensures s.chapterForm.comicId == "" ==> r == Outcome(s, PickComic)
    ensures s.chapterForm.comicId != "" && NoFiles(s.chapterForm.files) ==> r == Outcome(s, PickImages)
    // a run that passes validation always leaves `loading` false
    ensures Validated(s) ==> !r.state.loading
    // nothing is removed or rolled back, and at most one chapter is added
    ensures s.calls <= r.state.calls && s.db.chapters <= r.state.db.chapters && s.db.pages <= r.state.db.pages
    ensures |r.state.db.chapters| <= |s.db.chapters| + 1
    ensures r.state.db.comics == s.db.comics && r.state.comicForm == s.comicForm
    ensures r.state.chapterForm.comicId == s.chapterForm.comicId
  {
    if s.chapterForm.comicId == "" then Outcome(s, PickComic)
    else if NoFiles(s.chapterForm.files) then Outcome(s, PickImages)
    else
      var f := s.chapterForm;
      var sent := s.(calls := s.calls + [ChapterCall(f)], loading := true);
      match net.insert
      case ChapterInsertError =>
        Outcome(sent.(loading := false), Failed(ChapterInsertStep))
      case ChapterInserted(id) =>
        var row := ChapterRow(id, f.comicId, f.title, f.number);
        PagesRun(sent.(db := s.db.(chapters := s.db.chapters + [row])), f.files.value, id, net)
  }

  // ---------------------------------------------------------------------------
  // Specification of comic creation
  // ---------------------------------------------------------------------------

  /** The state after one comic creation, and the alert it ends with. */
  function CreateComicRun(s: AdminState, net: ComicNet): (r: Outcome)
    // without a cover nothing happens
    ensures NoFiles(s.comicForm.cover) ==> r == Outcome(s, PickCover)
    ensures !NoFiles(s.comicForm.cover) ==> !r.state.loading
    // the chapter form and the chapter and page tables are never touched
    ensures r.state.db.chapters == s.db.chapters && r.state.db.pages == s.db.pages
    ensures r.state.chapterForm == s.chapterForm
    // nothing is removed, and one comic is added exactly when the run reports success
    ensures s.calls <= r.state.calls && s.db.comics <= r.state.db.comics
    ensures |r.state.db.comics| == |s.db.comics| + (if r.notice == ComicCreated then 1 else 0)
  {
    if NoFiles(s.comicForm.cover) then Outcome(s, PickCover)
    else
      var f := s.comicForm;
      var sent := s.calls + [UploadFile(f.cover.value[0].name)];
      match net.upload
      case UploadThrew => Outcome(s.(calls := sent, loading := false), Failed(UploadStep))
      case Uploaded(url) =>
        var row := ComicRow(f.title, f.author, url);
        var sent' := sent + [InsertComic(row)];
        if !net.insertAccepted then
          Outcome(s.(calls := sent', loading := false), Failed(ComicInsertStep))
        else
          Outcome(s.(db := s.db.(comics := s.db.comics + [row]), calls := sent' + [FetchComics],
                     loading := false, comicForm := ComicForm("", "", Some([]))),
                  ComicCreated)
  }

  // ---------------------------------------------------------------------------
  // Properties of a chapter ingestion run
  // ---------------------------------------------------------------------------

  /** Every row the page loop writes belongs to the chapter, carries the URL of the upload at
      position `pageNumber - 1` and was accepted; there is at most one row per round. */
  lemma {:induction false} LoopPagesRows(chapterId: RowId, net: ChapterNet, k: nat)
    requires UploadedBelow(net, k)
    ensures var rows := LoopPages(chapterId, net, k);
      && |rows| <= k
      && forall r :: r in rows ==>
           && r.chapterId == chapterId
           && 1 <= r.pageNumber <= k
           && net.pageAccepted(r.pageNumber - 1)
           && r == PageFor(chapterId, net, r.pageNumber - 1)
  {
    if k > 0 {
      LoopPagesRows(chapterId, net, k - 1);
    }
  }

  /** The page of position `j` is written exactly when its insert is accepted. */
  lemma {:induction false} LoopPagesPresence(chapterId: RowId, net: ChapterNet, k: nat, j: nat)
    requires UploadedBelow(net, k) && j < k
    ensures PageFor(chapterId, net, j) in LoopPages(chapterId, net, k) <==> net.pageAccepted(j)
  {
    if j < k - 1 {
      LoopPagesPresence(chapterId, net, k - 1, j);
    } else {
      LoopPagesRows(chapterId, net, k - 1);
    }
  }

  /** The rows appear in strictly increasing page order: the order of the file list, with no sorting. */
  lemma {:induction false} LoopPagesOrdered(chapterId: RowId, net: ChapterNet, k: nat)
    requires UploadedBelow(net, k)
    ensures var rows := LoopPages(chapterId, net, k);
      forall a, b :: 0 <= a < b < |rows| ==> rows[a].pageNumber < rows[b].pageNumber
  {
    if k > 0 {
      LoopPagesOrdered(chapterId, net, k - 1);
      var prev := LoopPages(chapterId, net, k - 1);
      LoopPagesRows(chapterId, net, k - 1);
      assert forall a :: 0 <= a < |prev| ==> prev[a] in prev;
    }
  }

  /** When every page insert is accepted, the loop's rows are exactly the pages of
      positions 0 .. k-1 in that order, numbered 1 .. k. */
  lemma {:induction false} LoopPagesComplete(chapterId: RowId, net: ChapterNet, k: nat)
    requires UploadedBelow(net, k)
    requires forall j :: 0 <= j < k ==> net.pageAccepted(j)
    ensures var rows := LoopPages(chapterId, net, k);
      && |rows| == k
      && forall j :: 0 <= j < k ==>
           rows[j] == PageFor(chapterId, net, j) && rows[j].pageNumber == j + 1
  {
    if k > 0 {
      LoopPagesComplete(chapterId, net, k - 1);
    }
  }

  /** The loop is strictly sequential: the upload of file `j` is followed by the insert of its
      page, which comes before the upload of file `j + 1`; nothing else is issued. */
  lemma {:induction false} LoopCallsAlternate(files: seq<File>, chapterId: RowId, net: ChapterNet, k: nat)
    requires k <= |files| && UploadedBelow(net, k)
    ensures var calls := LoopCalls(files, chapterId, net, k);
      && |calls| == 2 * k
      && (forall j :: 0 <= j < k ==>
            calls[2 * j] == UploadFile(files[j].name)
            && calls[2 * j + 1] == InsertPage(PageFor(chapterId, net, j)))
      && (forall c :: c in calls ==> c.UploadFile? || c.InsertPage?)
  {
    if k > 0 {
      LoopCallsAlternate(files, chapterId, net, k - 1);
    }
  }

  /** What the loop issues does not depend on whether page inserts are accepted. */
  lemma {:induction false} LoopCallsIgnorePageResult(files: seq<File>, chapterId: RowId, net: ChapterNet,
                                                     accepted: nat -> bool, k: nat)
    requires k <= |files| && UploadedBelow(net, k)
    ensures UploadedBelow(net.(pageAccepted := accepted), k)
    ensures LoopCalls(files, chapterId, net.(pageAccepted := accepted), k) == LoopCalls(files, chapterId, net, k)
  {
    if k > 0 {
      LoopCallsIgnorePageResult(files, chapterId, net, accepted, k - 1);
    }
  }

  /** A run that passes validation issues the chapter insert first, with the form's values,
      and never issues another one. If that insert fails, nothing else is issued and no table
      changes; otherwise exactly one chapter row, taken from the form, is added. */
  lemma ChapterInsertedFirstAndOnce(s: AdminState, net: ChapterNet)
    requires Validated(s)
    ensures var r := UploadChapterRun(s, net);
      && |r.state.calls| > |s.calls|
      && r.state.calls[|s.calls|] == ChapterCall(s.chapterForm)
      && (forall c :: c in r.state.calls[|s.calls| + 1..] ==> c.UploadFile? || c.InsertPage?)
    ensures net.insert.ChapterInsertError? ==>
      UploadChapterRun(s, net)
        == Outcome(s.(calls := s.calls + [ChapterCall(s.chapterForm)], loading := false), Failed(ChapterInsertStep))
    ensures net.insert.ChapterInserted? ==>
      UploadChapterRun(s, net).state.db.chapters
        == s.db.chapters + [ChapterRow(net.insert.id, s.chapterForm.comicId, s.chapterForm.title, s.chapterForm.number)]
  {
    var f := s.chapterForm;
    var files := f.files.value;
    var r := UploadChapterRun(s, net);
    if net.insert.ChapterInserted? {
      var k := FirstFailure(net.upload, |files|);
      var tail := LoopCalls(files, net.insert.id, net, k)
                  + (if k < |files| then [UploadFile(files[k].name)] else []);
      LoopCallsAlternate(files, net.insert.id, net, k);
      assert r.state.calls == s.calls + [ChapterCall(f)] + tail;
      assert r.state.calls[|s.calls| + 1..] == tail;
    }
  }

  /** A run in which the chapter insert and every upload succeed reports `files.length` pages
      whatever the page inserts answered, clears the chapter form (keeping the selected comic)
      and adds the rows of the accepted inserts; when all of them are accepted, the new rows
      are the files' pages in input order, numbered 1 .. N. */
  lemma SuccessfulRun(s: AdminState, net: ChapterNet)
    requires Validated(s) && net.insert.ChapterInserted?
    requires UploadedBelow(net, |s.chapterForm.files.value|)
    ensures var n := |s.chapterForm.files.value|;
      var r := UploadChapterRun(s, net);
      && r.notice == ChapterUploaded(n)
      && !r.state.loading
      && r.state.chapterForm == ChapterForm(s.chapterForm.comicId, "", "", Some([]))
      && r.state.db.pages == s.db.pages + LoopPages(net.insert.id, net, n)
      && ((forall j :: 0 <= j < n ==> net.pageAccepted(j)) ==>
            && |r.state.db.pages| == |s.db.pages| + n
            && forall j :: 0 <= j < n ==>
                 r.state.db.pages[|s.db.pages| + j] == PageRow(net.insert.id, net.upload(j).url, j + 1))
  {
    var n := |s.chapterForm.files.value|;
    assert FirstFailure(net.upload, n) == n;
    if forall j :: 0 <= j < n ==> net.pageAccepted(j) {
      LoopPagesComplete(net.insert.id, net, n);
    }
  }

  /** If the upload at position `k` throws after all earlier ones succeeded, the run stops
      there: exactly `k + 1` uploads were issued (the last being file `k`), the chapter row
      stays, only rows from positions before `k` were added (all `k` of them when every insert
      was accepted), the form is kept and `loading` is cleared. */
  lemma UploadFailureStopsRun(s: AdminState, net: ChapterNet, k: nat)
    requires Validated(s) && net.insert.ChapterInserted?
    requires k < |s.chapterForm.files.value|
    requires UploadedBelow(net, k) && net.upload(k).UploadThrew?
    ensures var f := s.chapterForm;
      var id := net.insert.id;
      var r := UploadChapterRun(s, net);
      && r.notice == Failed(UploadStep)
      && !r.state.loading
      && r.state.chapterForm == f
      && r.state.db.chapters == s.db.chapters + [ChapterRow(id, f.comicId, f.title, f.number)]
      && r.state.calls == s.calls + [ChapterCall(f)] + LoopCalls(f.files.value, id, net, k)
                          + [UploadFile(f.files.value[k].name)]
      && r.state.db.pages == s.db.pages + LoopPages(id, net, k)
      && (forall p :: p in LoopPages(id, net, k) ==> p.chapterId == id && p.pageNumber <= k)
      && ((forall j :: 0 <= j < k ==> net.pageAccepted(j)) ==> |r.state.db.pages| == |s.db.pages| + k)
  {
    assert FirstFailure(net.upload, |s.chapterForm.files.value|) == k;
    LoopPagesRows(net.insert.id, net, k);
    if forall j :: 0 <= j < k ==> net.pageAccepted(j) {
      LoopPagesComplete(net.insert.id, net, k);
    }
  }

  /** The result of a page insert is never inspected: whatever the inserts answer, the run
      issues the same calls, ends with the same alert and leaves the same state apart from
      the `pages` table. */
  lemma PageInsertResultIgnored(s: AdminState, net: ChapterNet, accepted: nat -> bool)
    ensures var r1 := UploadChapterRun(s, net);
      var r2 := UploadChapterRun(s, net.(pageAccepted := accepted));
      && r1.notice == r2.notice
      && r1.state.calls == r2.state.calls
      && r1.state.(db := s.db) == r2.state.(db := s.db)
      && r1.state.db.(pages := s.db.pages) == r2.state.db.(pages := s.db.pages)
  {
    if Validated(s) && net.insert.ChapterInserted? {
      var files := s.chapterForm.files.value;
      var k := FirstFailure(net.upload, |files|);
      LoopCallsIgnorePageResult(files, net.insert.id, net, accepted, k);
    }
  }

  // ---------------------------------------------------------------------------
  // Properties of comic creation
  // ---------------------------------------------------------------------------

  /** A comic is created exactly when a cover is chosen, its upload returns a URL and the insert
      is accepted; the new row holds the form's title and author and the upload's URL, the form
      is cleared and the comic list is re-read. When the insert is refused, the uploaded cover
      is left behind and no row is added. */
  lemma ComicCreatedFromForm(s: AdminState, net: ComicNet)
    ensures var r := CreateComicRun(s, net);
      r.notice == ComicCreated <==> !NoFiles(s.comicForm.cover) && net.upload.Uploaded? && net.insertAccepted
    ensures var r := CreateComicRun(s, net);
      r.notice == ComicCreated ==>
        && r.state.db.comics == s.db.comics + [ComicRow(s.comicForm.title, s.comicForm.author, net.upload.url)]
        && r.state.comicForm == ComicForm("", "", Some([]))
        && r.state.calls[|r.state.calls| - 1] == FetchComics
    ensures var r := CreateComicRun(s, net);
      !NoFiles(s.comicForm.cover) && net.upload.Uploaded? && !net.insertAccepted ==>
        && r.state.db == s.db
        && r.state.comicForm == s.comicForm
        && r.state.calls == s.calls + [UploadFile(s.comicForm.cover.value[0].name),
                                       InsertComic(ComicRow(s.comicForm.title, s.comicForm.author, net.upload.url))]
  {
  }

  // ---------------------------------------------------------------------------
  // The page
  // ---------------------------------------------------------------------------

  class AdminPage {
    /** The remote tables. */
    var db: Tables
    /** Every remote call issued so far, in order. */
    var calls: seq<Call>
    var loading: bool
    var comicForm: ComicForm
    var chapterForm: ChapterForm

    function State(): AdminState
      reads this
    {
      AdminState(db, calls, loading, comicForm, chapterForm)
    }

    /** The page once mounted over the existing tables: every field empty, both file inputs
        attached and empty, no call issued yet. */
    constructor (tables: Tables)
      ensures State() == AdminState(tables, [], false, ComicForm("", "", Some([])),
                                    ChapterForm("", "", "", Some([])))
    {
      db, calls, loading := tables, [], false;
      comicForm := ComicForm("", "", Some([]));
      chapterForm := ChapterForm("", "", "", Some([]));
    }

    method SetTitle(v: string)
      modifies this
      ensures State() == old(State()).(comicForm := old(comicForm).(title := v))
    {
      comicForm := comicForm.(title := v);
    }

    method SetAuthor(v: string)
      modifies this
      ensures State() == old(State()).(comicForm := old(comicForm).(author := v))
    {
      comicForm := comicForm.(author := v);
    }

    /** The operator picks the cover image(s) in the cover input. */
    method ChooseCover(files: seq<File>)
      modifies this
      ensures State() == old(State()).(comicForm := old(comicForm).(cover := Some(files)))
    {
      comicForm := comicForm.(cover := Some(files));
    }

    method SelectComic(id: string)
      modifies this
      ensures State() == old(State()).(chapterForm := old(chapterForm).(comicId := id))
    {
      chapterForm := chapterForm.(comicId := id);
    }

    method SetChapterTitle(v: string)
      modifies this
      ensures State() == old(State()).(chapterForm := old(chapterForm).(title := v))
    {
      chapterForm := chapterForm.(title := v);
    }

    method SetChapterNumber(v: string)
      modifies this
      ensures State() == old(State()).(chapterForm := old(chapterForm).(number := v))
    {
      chapterForm := chapterForm.(number := v);
    }

    /** The operator picks the page images in the chapter input, in the order the input lists them. */
    method ChooseChapterFiles(files: seq<File>)
      modifies this
      ensures State() == old(State()).(chapterForm := old(chapterForm).(files := Some(files)))
    {
      chapterForm := chapterForm.(files := Some(files));
    }

    /** Issues one remote call. Only ever done while `loading` is set. */
    method Issue(c: Call)
      requires loading
      modifies this`calls
      ensures calls == old(calls) + [c]
    {
      calls := calls + [c];
    }

    /** `handleUploadChapter`: one chapter ingestion run. */
    method UploadChapter(net: ChapterNet) returns (notice: Notice)
      modifies this
      ensures Outcome(State(), notice) == UploadChapterRun(old(State()), net)
    {
      var files := chapterForm.files;
      if chapterForm.comicId == "" {
        return PickComic;
      }
      if files.None? || |files.value| == 0 {
        return PickImages;
      }

      loading := true;
      Issue(ChapterCall(chapterForm));
      match net.insert
      case ChapterInsertError =>
        loading := false;
        return Failed(ChapterInsertStep);
      case ChapterInserted(chapterId) =>
        var f := chapterForm;
        db := db.(chapters := db.chapters + [ChapterRow(chapterId, f.comicId, f.title, f.number)]);
        var fs := files.value;
        var done := UploadPages(fs, chapterId, net);
        if done {
          chapterForm := chapterForm.(title := "", number := "", files := Some([]));
          notice := ChapterUploaded(|fs|);
        } else {
          notice := Failed(UploadStep);
        }
        loading := false;
    }

    /** The page loop of `handleUploadChapter`: for each file in input order, upload it and insert
        its page record; stop at the first upload that throws. `done` is false when one did. */
    method UploadPages(fs: seq<File>, chapterId: RowId, net: ChapterNet) returns (done: bool)
      requires loading
      modifies this`db, this`calls
      ensures var k := FirstFailure(net.upload, |fs|);
        && done == (k == |fs|)
        && db == old(db).(pages := old(db).pages + LoopPages(chapterId, net, k))
        && calls == old(calls) + LoopCalls(fs, chapterId, net, k)
                    + (if done then [] else [UploadFile(fs[k].name)])
    {
      var i := 0;
      while i < |fs|
        invariant 0 <= i <= |fs|
        invariant UploadedBelow(net, i)
        invariant db == old(db).(pages := old(db).pages + LoopPages(chapterId, net, i))
        invariant calls == old(calls) + LoopCalls(fs, chapterId, net, i)
      {
        Issue(UploadFile(fs[i].name));
        match net.upload(i)
        case UploadThrew =>
          assert FirstFailure(net.upload, |fs|) == i;
          return false;
        case Uploaded(url) =>
          var page := PageRow(chapterId, url, i + 1);
          Issue(InsertPage(page));
          if net.pageAccepted(i) {
            db := db.(pages := db.pages + [page]);
          }
          i := i + 1;
      }
      assert FirstFailure(net.upload, |fs|) == |fs|;
      return true;
    }

    /** `handleCreateComic`: upload the first chosen cover image and insert the comic. */
    method CreateComic(net: ComicNet) returns (notice: Notice)
      modifies this
      ensures Outcome(State(), notice) == CreateComicRun(old(State()), net)
    {
      var f := comicForm;
      if f.cover.None? || |f.cover.value| == 0 {
        return PickCover;
      }

      loading := true;
      Issue(UploadFile(f.cover.value[0].name));
      match net.upload
      case UploadThrew =>
        loading := false;
        return Failed(UploadStep);
      case Uploaded(url) =>
        var row := ComicRow(f.title, f.author, url);
        Issue(InsertComic(row));
        if !net.insertAccepted {
          loading := false;
          return Failed(ComicInsertStep);
        }
        db := db.(comics := db.comics + [row]);
        comicForm := ComicForm("", "", Some([]));
        Issue(FetchComics);
        loading := false;
        return ComicCreated;
    }
  }
}
