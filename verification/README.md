# A verified model of the dou.ua company scraper

The scraper (`dou.py`) pages through the company listing of jobs.dou.ua,
twenty companies per page, with at most five page tasks in flight. Each task
fetches one page and turns every company block into a record. It then
inserts into the `companies` table each record whose name is not stored yet.
The first task that comes back with no company raises a stop flag. After
that, `run` launches no more pages.

This project models the deterministic core of that program in Dafny:

- `fields.dfy` (module `Fields`): Python's `str.strip()` and
  `str.split(',')`, and the field helpers `_get_value` and `_get_list` built
  from them.
- `offsets.dfy` (module `Offsets`): the offset generator `_get_tasks`, that
  is `range(0, 9999, 20)`.
- `companies.dfy` (module `Companies`): the record built from one company
  block, and the early exits of `get_companies_info`. The exits are a
  status other than 200 and a payload that is blank after stripping.
- `persistence.dfy` (module `Persistence`): the check-then-insert loop of
  `save_companies_data`. It runs over an in-memory table and is proved
  against the specification function `Saved`.
- `crawl.dfy` (module `Crawl`): the class `Crawler`. It holds the in-flight
  counter `threadsCount` and the stop flag `isStop`. Its methods are a
  launch step (`Dispatch`), the done-callback `_done_task` (`Complete`), one
  poll of the throttle loop (`Sleep`), the throttle loop itself
  (`Throttle`), one turn of `run`'s loop (`Turn`, and `Advance` with its
  bookkeeping) and `run` (`Run`, `RunOver`, whose loop is `LaunchAll`). `CrawlFromStart` is the
  script's entry point, which runs a fresh crawler.
- `wrappers.dfy` (module `Wrappers`): `Option`.

asyncio runs a done-callback on the event loop's only thread, between two
awaits of `run`. So a launch and a callback are each one atomic step: one
method call on `Crawler`. The event loop's own record of unfinished tasks is
the multiset `pending`. During one `asyncio.sleep` of the throttle loop, the
callbacks of one or more finished tasks run. The model leaves open which
tasks those are and how many (`:|`). Everything proved about `Run` therefore
holds for every order in which tasks may finish.

In four places the code differs from what a crawler of this kind is
usually meant to do. The model follows the code:
- A failed request, or any other empty result, raises the stop flag exactly
  like a genuine end-of-data page (`FailureLooksLikeEndOfData`, `Complete`).
- `run` returns as soon as the generator is exhausted or the flag is seen.
  It does not wait for the tasks still in flight.
- The throttle polls with `sleep` instead of waiting on a semaphore.
- Errors inside a task are not turned into empty results. They propagate
  (see "Left out").

## Model

| member | source | states |
|---|---|---|
| Fields.StripLeft | dou.py:124 | the result is a suffix of the input; everything cut off before it is whitespace; it does not start with whitespace |
| Fields.StripRight | dou.py:124 | the result is a prefix of the input; everything cut off after it is whitespace; it does not end with whitespace |
| Fields.Strip | dou.py:124 | the result is a slice of the input with only whitespace around it, and it neither starts nor ends with whitespace |
| Fields.TrimUnique | dou.py:124 | a string has only one trimmed form, so the contract of `Strip` fixes its result |
| Fields.TrimEmptyIffBlank | dou.py:81-84 | the trimmed form is empty exactly when the whole string is whitespace |
| Fields.StripIdempotent | dou.py:81 | stripping an already stripped string changes nothing |
| Fields.Split | dou.py:127 | a split yields at least one piece, and no piece contains the separator |
| Fields.JoinSplit | dou.py:127 | joining the pieces of a split with the same separator gives back the original string |
| Fields.SplitAfterPiece | dou.py:127 | a separator-free leading piece ends up whole in the first piece of the split |
| Fields.SplitJoin | dou.py:127 | splitting a join of separator-free pieces gives back the pieces, so a split is determined by its join |
| Fields.GetValue | dou.py:123-124 | `''` for no match; otherwise the first match trimmed; empty exactly when there is no match or the first match is blank |
| Fields.GetList | dou.py:126-127 | `''` exactly for no match; otherwise a non-empty list of comma-free pieces whose comma-join is the trimmed first match |
| Offsets.Range | dou.py:120 | the range is non-empty exactly when start is below stop |
| Offsets.RangeAt | dou.py:120 | the k-th value is start + k*step; the last value is below stop and the next one would not be |
| Offsets.Tasks | dou.py:119-121 | the generator yields 500 offsets; the k-th is 20*k, the first 0 and the last 9980 |
| Offsets.TasksIncrease | dou.py:119-121 | every offset lies in [0, 9999), and the offsets strictly increase |
| Offsets.TasksMembership | dou.py:120 | x is yielded exactly when 0 <= x < 9999 and x is a multiple of 20 |
| Companies.GetCompanySiteUrl | dou.py:112-117 | the site is `''` without a site link, else the first link trimmed |
| Companies.CompanyFromBlock | dou.py:89-101 | each text field is empty exactly when its query matched nothing or only whitespace, otherwise it is the trimmed first match; cities is `_get_list` of the city matches: `''` exactly when no city matched, otherwise comma-free pieces whose comma-join is the trimmed first match; the website is `get_company_site_url` of the record's own company URL: the trimmed first site link on that page, empty exactly when there is none or it is blank |
| Companies.CompaniesInfo | dou.py:74-104 | no companies for a status other than 200 or a whitespace-only payload; otherwise one record per block of the stripped payload, in page order |
| Companies.FailureLooksLikeEndOfData | dou.py:77-84 | a failed request yields the same result as a blank page |
| Persistence.NewRow | dou.py:132-139 | the inserted row holds, under each of name, image_url, description and website_url, the company's value for that key |
| Persistence.SelectByName | dou.py:137-138 | nothing is found exactly when no row has the name; otherwise a row with that name (the model returns the first; the query has no `ORDER BY`, and only whether a row was found is used) |
| Persistence.InsertIfAbsent | dou.py:137-140 | afterwards the name is stored; the old rows are untouched; a row is appended exactly when the name was not stored, and it is the company's row; when the name was stored the table is left exactly as it was |
| Persistence.Saved | dou.py:136-140 | the rows stored before the batch are kept, unchanged and in place: the table only grows |
| Persistence.SaveCompaniesData | dou.py:129-140 | the loop leaves the table equal to `Saved` of the old table and the batch; each lookup sees the rows inserted earlier in the same call |
| Persistence.SavedNames | dou.py:136-140 | afterwards the stored names are the old names plus every name of the batch |
| Persistence.SavedAddsUnstored | dou.py:137-138 | every row the batch adds carries a name that was not stored before the call |
| Persistence.SavedAddsFromBatch | dou.py:139-140 | every row the batch adds is the row of some company of the batch |
| Persistence.SavedAddsOnce | dou.py:136-140 | no two rows the batch adds share a name: a name repeated within the batch is inserted once |
| Persistence.SavedKeepsNamesUnique | dou.py:137-140 | a table without duplicate names keeps that property |
| Persistence.SavedWhenAllStored | dou.py:137-138 | a batch whose names are all stored changes nothing |
| Persistence.SavedIdempotent | dou.py:136-140 | saving the same batch twice leaves the table as after the first time |
| Crawl.Crawler.constructor | dou.py:8-21 | the counter starts at 0, the flag is down, nothing is in flight |
| Crawl.Crawler.MustWait | dou.py:54 | under the invariant, `run` waits only when exactly five tasks are in flight, and does not wait only when fewer than five are |
| Crawl.Crawler.Dispatch | dou.py:46-52 | with the flag up nothing at all changes; otherwise the offset is launched, appended to the launch history and counted; the counter stays within the ceiling |
| Crawl.Crawler.Complete | dou.py:65-72 | the counter goes down by one and the task leaves the pending set; the flag is raised exactly when the task found no company, and it never goes down |
| Crawl.Crawler.Sleep | dou.py:54-55 | at least one callback runs, so the counter strictly decreases; the finished tasks leave the pending set; the flag is up afterwards exactly when it was up before or one of the finished tasks found no company; nothing is launched |
| Crawl.Crawler.Throttle | dou.py:54-55 | the loop ends with the counter below the ceiling; nothing is launched; the finished tasks leave the pending set, and the flag is up afterwards exactly when one of them found no company; started below the ceiling it does not await, so nothing finishes and the flag stays down |
| Crawl.Crawler.Turn | dou.py:47-55 | with the flag up nothing at all changes; otherwise the offset is launched and the sleep loop runs, and the flag is up afterwards exactly when a task that finished during the turn found no company; a launch that leaves fewer than five tasks in flight runs no callback, so only the new task is added and the flag stays down |
| Crawl.Crawler.Advance | dou.py:46-55 | one turn of the loop over the offsets: with the flag down it launches the next offset and extends the progress made so far by one launch, running no callback when fewer than five tasks are then in flight; with the flag up nothing at all changes |
| Crawl.Crawler.RunOver | dou.py:46-55 | the offsets launched are a prefix of the generator's, in its order; fewer than all only when the flag is up; the flag is up afterwards exactly when it was up before or a task that finished during the call (pending at the start or launched since) found no company; when every page from the n-th on is empty, at most five offsets from the n-th on, the n-th included, are launched; with the flag down at the start it launches every offset or fills the ceiling; on return the counter is below the ceiling |
| Crawl.Crawler.Run | dou.py:42-55 | launches a prefix of the 500 offsets in strictly increasing order; stops early only on the flag; the flag is up afterwards exactly when it was up before or a task that finished during the call found no company; when every page from the n-th offset on is empty, at most five offsets from the n-th on, the n-th included, are launched; with the flag down at the start it launches all 500 or fills the ceiling; with the flag already up it launches nothing |
| Crawl.Crawler.LaunchAll | dou.py:46-55 | the loop of `run` keeps `Progress`: the launches are the next offsets in order, every pending task has arrived, the flag is up exactly when it was up at the start or a finished task found nothing, and at most five launches lie past the trailing run of empty pages; it stops early only on the flag, and with the flag already up it launches nothing |
| Crawl.Crawler.ProgressEnd | dou.py:46-55 | when the loop ends, every index from which all pages are empty has at most five launches from it on; a flag raised during the call comes from a launched task that found nothing; with the flag down at the start, an early stop comes only after five tasks were in flight |
| Crawl.CrawlFromStart | dou.py:146-149 | a fresh crawl launches at most the 500 offsets, and fewer only when one of the launched offsets found no company; when every page from the n-th offset on is empty, at most n + 5 offsets are launched; at least five offsets are launched, since no callback runs before five tasks are in flight |

The invariant `Crawler.Valid()` is a precondition and a postcondition of
every `Crawler` method. It says four things:
- `0 <= threadsCount <= 5`.
- The counter equals the number of pending tasks.
- Every pending task was launched.
- Once the flag is up, the launch history has the length it had when the
  flag went up.

Because every method keeps `Valid()`, the ceiling holds after every step of
every interleaving. No offset is launched after the stop flag is raised.

## Left out

- HTTP: the aiohttp session, its headers, the token fetch and the listing
  and company-page requests (`_get_headers`, `_init_search_data`,
  `load_companies`, the fetch in `get_company_site_url`). These are network
  I/O. A response is given to the model as a status plus the `html` member
  of its JSON body.
- HTML parsing and XPath (lxml): these are foreign code. The blocks of a
  page and the site links of a company page are function parameters
  (`blocks`, `siteLinks`).
- The database: the aiomysql pool (`_create_pool`), the SQL text and the
  table-name parameter. The table is a sequence of rows. A row's id is its
  position.
- Persistence.SelectByName: compares names with exact string equality.
  MySQL's default collation also matches names that differ in letter case
  or trailing spaces. That collation belongs to the database, not to this
  program.
- Exceptions: a body without an `html` member, a failed company-page fetch,
  a database error. Each raises inside the task. `_done_task` then re-raises
  in `task.result()` before it decrements the counter. These paths are not
  modelled.
- Crawl.Crawler.Run: the task for an offset is represented only by its
  result, `results(offset)`. The fetch, the extraction and the save inside
  the task are modelled separately by `CompaniesInfo` and
  `SaveCompaniesData`.
- Persistence.SaveCompaniesData: each INSERT is treated as committed once it
  runs. The source never calls `commit()`, and `create_pool` is not given
  `autocommit=True` (dou.py:144). With aiomysql's default, a connection
  released inside an open transaction (the end of the `async with` at
  dou.py:130) is closed, so on a transactional table such as InnoDB the
  inserted rows may be rolled back. `Saved`, `SavedIdempotent` and the other
  `Saved` lemmas describe the table as the loop leaves it within the call,
  not what stays stored after it.
- The interleaving of two tasks saving at the same time is not modelled.
  Each `save_companies_data` call is one atomic step.
- Crawl.Crawler.Dispatch: the offset that the generator yields just before
  `run` breaks on the flag is not recorded. The generator is discarded right
  after.
- Crawl.Crawler.Sleep: a poll during which no callback runs changes no state
  and is not a separate step.
- `asyncio.sleep`, `ensure_future`, `add_done_callback` and
  `run_until_complete`: these are the asyncio runtime. The event loop stops
  as soon as `run` returns, so tasks still in flight at that point never
  complete.
- `print`: output only.
