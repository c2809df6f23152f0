# Manga site: admin ingestion, route gate and password check

This project models the logic of a small manga site built on Next.js. Pages are stored as
image blobs, and comics, chapters and pages are rows in a database. There are three parts:

- **The admin page** (`Admin`, admin.dfy). It has two form handlers.
  - *Create comic* uploads the first chosen cover image and inserts a comic row.
  - *Upload chapter* does the following in order:
    1. It checks that a comic is selected, then that page images are chosen.
    2. It inserts one chapter row and keeps its id.
    3. It walks the chosen files in the order the file input lists them. For each file it
       uploads the file, then inserts a page row numbered `i + 1`.
  - The page is a class with these fields: the remote tables, a log of every remote call
    in the order issued, the `loading` flag, and the state of the two forms.
  - What the remote services answer is an oracle. For a chapter run it gives:
    - the chapter insert's result;
    - `upload(i)`, the result of the upload at position `i`;
    - `pageAccepted(i)`, whether the page insert after it writes its row.
  - Each handler is a method proved equal to a pure function of the old state. These
    functions are `UploadChapterRun` (built on `PagesRun`) and `CreateComicRun`. Lemmas about
    them state what the code promises:
    - validation happens before any remote call;
    - the chapter is inserted first, and exactly once;
    - page numbers follow file position, 1 .. N;
    - the loop is strictly sequential;
    - a run stops at the first failed upload and rolls nothing back;
    - the page-insert result is ignored.
  - The helper `Issue` requires `loading`. So the verifier checks that every remote call of
    both handlers is made while `loading` is set.
- **The route gate** (`Gate`, gate.dfy) is the middleware's pure decision. It takes a path
  and a cookie map and returns either a redirect to `/login` or pass-through.
- **The password check** (`Auth`, auth.dfy) is the login route's decision. It uses strict
  equality between the submitted password and the configured secret, and either can be
  missing. On success it sets the fixed session cookie; otherwise it answers 401.
  `Session` (session.dfy) joins the two. After an accepted login, the cookie the browser
  stores is the one the gate looks for. A refused login changes nothing.

Behaviour of the code that the model follows as written:

- The chosen files are **not sorted**. Pages follow the file input's order
  (`src/app/admin/page.js:84-85`).
- The result of each page insert is **never checked**. A refused insert writes no row, and
  the loop goes on (`src/app/admin/page.js:92-96`).
- A failed run reports only which step threw. It does not report how many pages were
  written (`src/app/admin/page.js:102-104`).
- The handler checks only the selected comic and the file list. It does not check the
  chapter title or number (`src/app/admin/page.js:63-64`).
- The reader component has no chapter or page navigation logic. It is not part of this model.

## Model

| member | source | states |
|---|---|---|
| `Admin.UploadChapterRun` | src/app/admin/page.js:59-108 | The comic check comes first and the file check second. A failed check changes nothing. A validated run ends with `loading` false. Tables and the call log only grow, and at most one chapter row is added. The comic form and comic table are untouched. |
| `Admin.PagesRun` | src/app/admin/page.js:84-107 | After the chapter insert: `loading` ends false, the chapters and comics tables and the comic form are unchanged, pages and calls only grow, and the selected comic is kept. |
| `Admin.AdminPage.UploadChapter` | src/app/admin/page.js:59-108 | The new page state and the alert are exactly those of `UploadChapterRun` on the old state. |
| `Admin.AdminPage.UploadPages` | src/app/admin/page.js:84-97 | The loop's rows are `LoopPages` up to the first failed upload, and its calls are `LoopCalls` plus the failing upload. It reports whether every file was processed. |
| `Admin.FirstFailure` | src/app/admin/page.js:84-97 | Returns the position of the first upload that throws (every earlier one returned a URL), or N when none throws. |
| `Admin.LoopPagesRows` | src/app/admin/page.js:91-96 | Every page row written has the new chapter's id and a number in 1..k. Its URL is the one returned by the upload at position number−1, and that insert was accepted. There are at most k rows. |
| `Admin.LoopPagesPresence` | src/app/admin/page.js:92-96 | The row for position j is present exactly when its insert was accepted. |
| `Admin.LoopPagesOrdered` | src/app/admin/page.js:84-96 | Rows appear in strictly increasing page-number order, so file-list order is kept and nothing is sorted. |
| `Admin.LoopPagesComplete` | src/app/admin/page.js:84-96 | When every insert is accepted, the rows are exactly the pages of positions 0..k−1 in order, numbered j+1. |
| `Admin.LoopCallsAlternate` | src/app/admin/page.js:84-97 | The loop issues upload(file j) and then insert(page j), and that insert comes before upload(file j+1). It issues 2k calls and nothing else. |
| `Admin.LoopCallsIgnorePageResult` | src/app/admin/page.js:92-96 | The calls the loop issues do not depend on whether page inserts are accepted. |
| `Admin.ChapterInsertedFirstAndOnce` | src/app/admin/page.js:69-80 | After validation, the first call is the chapter insert with the form's comic id, title and number, and no later call is a chapter insert. If the insert fails, nothing else is issued and no table changes. Otherwise exactly one chapter row, taken from the form, is added. |
| `Admin.SuccessfulRun` | src/app/admin/page.js:84-100 | When every upload succeeds, the run reports `files.length` pages whatever the inserts answered. It clears title, number and file input but keeps the selected comic. When all inserts are accepted, the new rows are numbered 1..N in file order, with the uploads' URLs. |
| `Admin.UploadFailureStopsRun` | src/app/admin/page.js:84-104 | If the upload at position k throws, the run stops there: k+1 uploads are issued, the chapter row stays, and only rows numbered ≤ k are written (exactly k when all inserts are accepted). The form is kept and `loading` is cleared. |
| `Admin.PageInsertResultIgnored` | src/app/admin/page.js:92-96 | Changing what the page inserts answer changes neither the alert, the calls issued, the form nor the other tables, only the `pages` table. |
| `Admin.CreateComicRun` | src/app/admin/page.js:33-56 | With no cover chosen, nothing changes. Otherwise `loading` ends false. The chapter form and the chapter and page tables are untouched. One comic row is added exactly when the run reports success. |
| `Admin.AdminPage.CreateComic` | src/app/admin/page.js:33-56 | The new page state and the alert are exactly those of `CreateComicRun` on the old state. |
| `Admin.ComicCreatedFromForm` | src/app/admin/page.js:35-50 | Success happens exactly when there is a cover, its upload returns a URL and the insert is accepted. The new row then holds the form's title and author and the URL, the form is cleared, and the list is re-read last. A refused insert leaves the uploaded cover behind and adds no row. |
| `Admin.AdminPage.constructor` | src/app/admin/page.js:8-20 | The mounted page has empty fields, `loading` false, both file inputs attached and empty, and no call issued. |
| `Admin.AdminPage.SetTitle` | src/app/admin/page.js:120 | Only the comic title changes. |
| `Admin.AdminPage.SetAuthor` | src/app/admin/page.js:121 | Only the author changes. |
| `Admin.AdminPage.ChooseCover` | src/app/admin/page.js:124 | Only the cover input's file list changes. |
| `Admin.AdminPage.SelectComic` | src/app/admin/page.js:138-140 | Only the selected comic id changes. |
| `Admin.AdminPage.SetChapterTitle` | src/app/admin/page.js:151 | Only the chapter title changes. |
| `Admin.AdminPage.SetChapterNumber` | src/app/admin/page.js:152 | Only the chapter number text changes. |
| `Admin.AdminPage.ChooseChapterFiles` | src/app/admin/page.js:158 | Only the page input's file list changes, kept in the order given. |
| `Gate.Middleware` | src/middleware.js:3-21 | A path not starting with `/admin` passes, whatever the cookies. Under `/admin`, a request is redirected exactly when it has no `admin_token` cookie. The redirect target is always `/login` on the request's origin. |
| `Gate.GatedPathsAreAdminExtensions` | src/middleware.js:8 | The gated paths are exactly `/admin` followed by any text. |
| `Gate.TokenValueIgnored` | src/middleware.js:11-14 | Any `admin_token` value, even empty or `false`, lets an admin request through. Only presence is checked. |
| `Gate.PrefixNotSegment` | src/middleware.js:8 | `/administrator` and `/admin/upload` are redirected without the cookie. `/adm` and `/comic/1` pass. |
| `Gate.RedirectIgnoresPath` | src/middleware.js:15 | Two redirected requests from one origin get the same location, whatever path they asked for. |
| `Auth.Login` | src/app/api/auth/route.js:3-22 | Accepted exactly when the password is the secret character for character, or when both are missing. Success is status 200 and sets exactly the session cookie. Anything else is 401 with no cookie. |
| `Auth.SessionCookieAttributes` | src/app/api/auth/route.js:11-15 | The session cookie is `admin_token = "true"`, `httpOnly`, with path `/` and `maxAge` 86400. |
| `Auth.NoNormalisation` | src/app/api/auth/route.js:7 | Any password that differs from the secret, even by a leading space, gets a 401 with no cookie. |
| `Auth.MissingSecretAcceptsMissingPassword` | src/app/api/auth/route.js:7 | With no secret configured, a body without a password is accepted and gets the cookie. |
| `Session.AcceptedLoginOpensAdmin` | src/app/api/auth/route.js:7-17 | The cookie set on success has the name the gate checks. After the browser stores it, every path, `/admin` ones included, passes the gate. |
| `Session.RefusedLoginChangesNothing` | src/app/api/auth/route.js:21 | A refused login leaves the cookie store, and so the gate's decision, unchanged. |

## Left out

- Upload responses are either a URL or a throw. A response that parses as JSON but has no
  `url` would store `undefined` in the page row; that case is not modelled.
- Error messages: the alerts and `console.error` are reduced to which step threw. The text
  of `err.message` is not modelled.
- The comic list: the query that fills it on mount (`src/app/admin/page.js:23-30`) and its
  ordering are not modelled. The re-read after a comic is created is recorded only as a
  `FetchComics` call.
- Browser constraint validation: the forms' `required` attributes and `e.preventDefault()`
  are not modelled. The model follows the handlers' own checks.
- Concurrency: both handlers await each step in turn, so they are modelled as sequential
  runs. A second submission while `loading` is set (the buttons are disabled) and React's
  deferred state updates are not modelled.
- Row ids: the database generates comic and page ids. Only the chapter id is modelled,
  because the code uses it. `chapter_number` stays the form's text, and the database's
  conversion is not modelled.
- The gate's `matcher` configuration (`src/middleware.js:24-26`): it restricts where the
  middleware runs. The middleware function is modelled on every path.
- Malformed login bodies: if the body is not JSON, or is JSON `null`, reading `password`
  throws and the framework answers. That case is not modelled.
- Cookie lifetime: `maxAge` expiry needs a clock and is not modelled. The cookie store
  keeps the cookie.
- `src/app/api/upload/route.js` is the blob store's `put` with a random suffix. It appears
  only as the abstract upload answer.
- `src/app/components/MangaReader.jsx`, `src/app/components/MangaGrid.jsx`,
  `src/app/login/page.js`, `src/app/page.js` and `src/app/comic/[id]/page.js` are rendering,
  data fetching and navigation. They are not part of this model.
