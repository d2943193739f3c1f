# goweb post store and template layer, in Dafny

This project models two parts of the goweb web application and proves
properties of them.

The **post store** (`PostModel` over the MySQL `posts` table) is module `Posts`:

- The table is a sequence of rows in insertion order, plus its
  auto-increment counter.
- `now` stands for the server's `UTC_TIMESTAMP()` and is an input of each
  operation. Timestamps are whole seconds.
- Every driver failure the code checks is an explicit input: Exec,
  LastInsertId, Query, Scan, and `rows.Err()`.
- `Insert` is a method of the `PostModel` class. It appends a row and
  advances the counter.
- `InsertChecked` is the corrected insert from the findings below. It
  reports both driver failures instead of swallowing them. The scenario
  methods use it; when no failure occurs it behaves exactly like `Insert`.
- `Get` is a function over the table.
- `Latest` is a method. It takes the query's result set and drains it with
  the `for rows.Next()` loop (`Drain`).

The **template layer** is module `Templates`:

- `humanDate` formats a UTC calendar record.
- `functions` is the helper map.
- `newTemplateCache` is a method whose loop fills the cache map one page at a
  time.
- `templateData` (cmd/web/template.go:13-21) is the record datatype
  `TemplateData`, and `templateData{}` is the constant `EmptyTemplateData`.
  They carry no contract, so they have no row in the table below.

Inside the template layer, a directory is its listing of file names, taken
in the order `filepath.Glob` reports its matches (Go sorts them; the model
keeps whatever order the listing has). Whether a file parses is abstract:
the `broken` map sends each file that fails to the parser's message.

Module `Wrappers` holds the `Option` and `Result` types.

## Model

| member | source | states |
|---|---|---|
| Posts.Live | pkg/models/mysql/posts.go:63 | a row is in the filtered result exactly when it is stored and `expires > now` |
| Posts.FirstLive | pkg/models/mysql/posts.go:39-40 | the single-row query finds a stored row with the id that has not expired, and finds nothing exactly when every stored row with that id has expired |
| Posts.SortNewestFirst | pkg/models/mysql/posts.go:63 | `ORDER BY created DESC`: the result is ordered newest first and is a permutation of its input |
| Posts.InsertNewest | pkg/models/mysql/posts.go:63 | inserting one row into a newest-first sequence keeps it newest first and adds exactly that row |
| Posts.LatestRows | pkg/models/mysql/posts.go:63 | `LIMIT 10`: the listing holds at most ten rows |
| Posts.LatestRowsSelect | pkg/models/mysql/posts.go:63 | the listing is newest first, holds only stored live rows (each no more often than it is live), holds every live row when it has fewer than ten, and leaves out only rows no newer than any row it shows |
| Posts.PrefixOfNewestFirst | pkg/models/mysql/posts.go:63 | cutting a newest-first arrangement after its first rows keeps the newest rows and only rows of the input |
| Posts.NoneLive | pkg/models/mysql/posts.go:63 | when every stored row has expired the filtered result is empty |
| Posts.LatestRowsEmpty | pkg/models/mysql/posts.go:63-74 | with no live row the listing is empty, so Latest returns the empty slice |
| Posts.PostModel.Insert | pkg/models/mysql/posts.go:16-35 | if Exec fails, nothing changes and the result is (0, no error); otherwise the row (next id, title, content, now, now + days) is appended and the counter advances; the id is returned unless LastInsertId fails, in which case the result is again (0, no error); ids stay positive and increasing |
| Posts.PostModel.InsertChecked | pkg/models/mysql/posts.go:16-35 | the same insert, with each failure returned as an error instead of swallowed; on success the id is the new row's id, at least 1 |
| Posts.QueryRow | pkg/models/mysql/posts.go:39-49 | the single-row query fails with the driver's message exactly when the driver fails; otherwise it yields a stored live row with the id, or no rows exactly when every stored row with that id has expired |
| Posts.PostModel.Get | pkg/models/mysql/posts.go:37-59 | a scan error other than no-rows is returned unchanged; the result is a post exactly when a stored live row has the id, and ErrNoRecord exactly when none does; the post returned is a stored row with that id and `expires > now`, and the only such row when ids are unique |
| Posts.PostModel.Latest | pkg/models/mysql/posts.go:61-94 | a query error is returned as is; otherwise the first failing scan among the rows reached wins, then an iteration error; with no failure the result is the whole listing, in cursor order |
| Posts.Drain | pkg/models/mysql/posts.go:76-92 | the cursor loop returns the first scan error among the rows it reaches, else the iteration error if the cursor fails within or at the end of the rows, else every row in order |
| Posts.FirstScanFault | pkg/models/mysql/posts.go:77-83 | the index reported is a failing row with no failing row before it, and there is none exactly when no row in range fails |
| Posts.FirstScanFaultIs | pkg/models/mysql/posts.go:77-83 | a failing row with no failing row before it is the first scan fault of any longer run |
| Posts.Reached | pkg/models/mysql/posts.go:77 | iteration hands out no more rows than the result set has |
| Posts.InsertThenGet | pkg/models/mysql/posts.go:16-59 | with no driver failure, a post inserted for a positive number of days is found by its returned id with every field as given; one inserted for no days is already expired |
| Posts.HelloWorldScenario | pkg/models/mysql/posts.go:16-59 | inserting ("Hello", "World", 7) into an empty store returns id 1; Get returns the post one second before its seventh day ends and ErrNoRecord a day later, while the row stays stored |
| Posts.LostInsert | pkg/models/mysql/posts.go:22-25 | a failed Exec reports id 0 and no error, and nothing is stored |
| Posts.ReportedInsert | pkg/models/mysql/posts.go:22-25 | with InsertChecked the Exec failure reaches the caller |
| Posts.LostInsertId | pkg/models/mysql/posts.go:28-31 | a failed LastInsertId reports id 0 and no error although the row is stored as id 1, and a lookup of the reported id finds nothing |
| Posts.ReportedInsertId | pkg/models/mysql/posts.go:28-31 | with InsertChecked the LastInsertId failure reaches the caller, and the row is still stored |
| Templates.HumanDate | cmd/web/template.go:25-32 | the result is empty exactly for the zero time |
| Templates.MonthAbbrev | cmd/web/template.go:31 | the layout element `Jan` gives three letters |
| Templates.MonthAbbrevTable | cmd/web/template.go:31 | month m prints as the m-th of Jan, Feb, Mar, Apr, May, Jun, Jul, Aug, Sep, Oct, Nov, Dec |
| Templates.MonthAbbrevInjective | cmd/web/template.go:31 | no two months share an abbreviation |
| Templates.MonthRoundTrip | cmd/web/template.go:31 | reading a month abbreviation back gives the month |
| Templates.PaddedField | cmd/web/template.go:31 | a field that fits its width (`02`, `2006`, `15`, `04`) prints as exactly that many digits, which read back as the field |
| Templates.HumanDateRoundTrip | cmd/web/template.go:31 | for a non-zero time with a year of at most four digits, the text has 20 characters and reads back as its day, month, year, hour and minute in the layout "02 Jan 2006 at 15:04" |
| Templates.HumanDateExample | cmd/web/template.go:31 | 2023-03-05 15:04 UTC shows as "05 Mar 2023 at 15:04" |
| Templates.Functions | cmd/web/template.go:37-39 | the helper map has exactly the key "humanDate", and it maps to humanDate |
| Templates.LastSlash | cmd/web/template.go:55 | the index found holds a separator and no separator follows it |
| Templates.BaseOfJoin | cmd/web/template.go:55 | the base name of a path joined from a directory and an entry name is the entry name |
| Templates.Matching | cmd/web/template.go:47 | an entry matches exactly when it is listed and ends with the suffix; the matches are again a valid listing |
| Templates.MatchingAppend | cmd/web/template.go:47 | the matches keep listing order: the matches of two listings in a row are those of the first followed by those of the second |
| Templates.Glob | cmd/web/template.go:47 | the glob gives one path per matching entry, in listing order, each being the directory joined with the entry |
| Templates.NothingMatches | cmd/web/template.go:47 | a listing with no entry ending in the suffix matches nothing |
| Templates.FirstBroken | cmd/web/template.go:63 | a file is reported only if it is listed and fails to parse, and none is reported exactly when every file parses |
| Templates.FirstBrokenIsFirst | cmd/web/template.go:63 | the file reported comes before every other file that fails |
| Templates.ParseGlob | cmd/web/template.go:63 | adding a glob succeeds exactly when it matches some file and every match parses; it then adds the matches in order; a glob that matches nothing is an error; otherwise the error is the parse error of the first match that fails, with that file's name |
| Templates.ComposePage | cmd/web/template.go:55-71 | a page composes exactly when it, its layouts and its partials all parse; the set is named by the page's base name, holds the page, then the layouts, then the partials, and carries the helper map; a failure returns the page's own parse error first, else the layout glob's error, else the partial glob's error |
| Templates.ComposeAll | cmd/web/template.go:53-74 | the loop succeeds exactly when every page composes |
| Templates.ComposeAllFirstError | cmd/web/template.go:53-71 | a failed loop returns the error of the first page that fails to compose |
| Templates.ComposeAllStopsAtError | cmd/web/template.go:58-71 | once a page fails the whole result is that error, so no partial cache is returned |
| Templates.ComposeAllKeys | cmd/web/template.go:55-73 | a successful loop has an entry under each page's name, and only under pages' names |
| Templates.ComposeAllKeysAre | cmd/web/template.go:55-73 | when the page names are listed in a sequence, the cache keys are exactly that sequence's entries |
| Templates.ComposeAllEntries | cmd/web/template.go:73 | each cache entry is the composed set of a page with that name |
| Templates.TemplateCache | cmd/web/template.go:47-50 | a glob error is returned as is |
| Templates.TemplateCacheOk | cmd/web/template.go:47-71 | the cache is built exactly when there is no page file, or every page file parses and both the layout glob and the partial glob parse |
| Templates.TemplateCacheFirstError | cmd/web/template.go:53-71 | a failed cache returns the failure of the first page file that does not compose, every page file before it composing |
| Templates.TemplateCacheError | cmd/web/template.go:55-71 | a failed cache returns the first page file's own parse error if it has one, else the layout glob's error, else the partial glob's error |
| Templates.TemplateCacheFirstBrokenPage | cmd/web/template.go:55-71 | when both fragment globs parse, a failed cache returns the parse error of the first page file that fails, naming that file |
| Templates.NoPagesEmptyCache | cmd/web/template.go:44-53 | a directory with no page file gives an empty cache and no error |
| Templates.PageNames | cmd/web/template.go:55 | the base name of each page path is the page's entry name |
| Templates.TemplateCacheKeys | cmd/web/template.go:53-73 | a built cache's keys are exactly the page files' names, one entry per page file |
| Templates.TemplateCacheEntries | cmd/web/template.go:57-73 | each entry of a built cache is the set of its page, then every layout file, then every partial file |
| Templates.NewTemplateCache | cmd/web/template.go:42-77 | the loop returns exactly the template cache of the listing: the glob error, the first page's failure, or the full map |

## Left out

- Posts.PostModel.Insert: the `expires` argument is a string that MySQL converts to a day count. The model takes the day count as an integer and leaves the conversion out.
- Posts.PostModel.Insert: a failed Exec is taken to leave the table and the auto-increment counter unchanged. MySQL (InnoDB) may use up an auto-increment value on a failed INSERT, and an error reported after the commit may leave the row stored. Neither is modelled. The `nextId` clause of `Insert` and the "nothing is stored" of `LostInsert` rest on this.
- Posts.PostModel.Insert: the `int64` to `int` conversion of the id is not modelled. Integers are unbounded.
- Posts.LatestRows: SQL leaves the order of rows with equal `created` open. The model fixes it to table order. Only the properties in `LatestRowsSelect` hold for every order the database may choose.
- Posts.PostModel.Latest: `rows.Close()` and the connection pool are not modelled. Nil pointers and nil slices are the error arm of `Result`.
- Posts: the server clock is the `now` input. Two statements never see different clocks within one operation.
- Templates.HumanDate: the time is already a UTC calendar record. Converting from a zone offset or from the store's timestamps is not part of this model.
- Templates.HumanDateRoundTrip: stated only for years 0 to 9999. Other years print with a sign or more digits (as `AppendInt` models), so the fixed-width read-back does not apply to them.
- Templates.Join: `filepath.Join` also cleans the path (dropping `.`, `..` and doubled separators). The model joins with one separator and takes the directory as already clean.
- Templates.NewTemplateCache: the only error `filepath.Glob` can return is a bad-pattern error. The pattern is `Join(dir, "*.page.html")`, so only a malformed `dir` can cause it. Whether `dir` is malformed is not modelled; the error is the `globErr` input.
- Templates.NewTemplateCache: `filepath.Glob` ignores I/O errors. A missing or unreadable directory is therefore an empty listing, and the result is an empty cache with no error (`NoPagesEmptyCache`), not a startup failure.
- Templates.NewTemplateCache: `html/template` parsing, and the execution of the parsed sets, are abstract. A set is the ordered list of files parsed into it plus its helper names.
- Templates.NewTemplateCache: `ParseGlob` fails when its pattern matches no file. So a directory that has a page file but no layout file, or no partial file, yields an error rather than a cache. This follows the code, not the wider reading "any number of layouts and partials".
- Templates.ComposeAllFirstError: stated for the loop over any compose step. `TemplateCache` applies it with `ComposePage` as that step.
- Templates.TemplateData: `forms.Form` is not part of this model. The form is an opaque handle.
- cmd/web/main.go is not part of this model: flags, logging, TLS, the HTTP server, sessions and opening the database.
- The commented-out `PrintMost` (pkg/models/mysql/posts.go:96-110) is not modelled.

## Findings

| source | as written | input that shows it | evidently intended | confidence | as-written member | corrected member |
|---|---|---|---|---|---|---|
| pkg/models/mysql/posts.go:22-25 | a failed Exec returns `(0, nil)` | Exec fails with any message | return `(0, err)` so the caller learns nothing was stored | high; not executed | Posts.LostInsert | Posts.PostModel.InsertChecked |
| pkg/models/mysql/posts.go:28-31 | a failed LastInsertId returns `(0, nil)` after the row was stored | Exec succeeds and LastInsertId fails; the row is stored as id 1 and id 0 is reported | return `(0, err)` | high; not executed | Posts.LostInsertId | Posts.PostModel.InsertChecked |
