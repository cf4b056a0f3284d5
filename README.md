# Watchy footage ledger, modelled in Dafny

Watchy keeps a ledger of the files and directories under a watched footage
directory. The ledger is one SQLite table, `files`, with one row per path. A
row is added when the filesystem watcher reports a creation or a move, and
when an initial scan walks the directory tree. The HTTP API does three things:

- it reports statistics;
- it lists the processing queue (unprocessed files, oldest first);
- it searches records by name, directory and type, newest first.

It also moves records from unprocessed to processed: one id at a time, a
batch of ids, or a simulated background run over the first `batch_size`
queued files.

The model keeps the table in memory. A `FileRecord` datatype holds one row
and a `Table` holds the rows in rowid order plus the next AUTOINCREMENT id.

Modules:

- `Classifier` (`classifier.dfy`) is the pure extension classifier.
- `Store` (`store.dfy`) holds the record and table types and the table
  invariant. The invariant says ids increase strictly, each id is below the
  next id, no two rows share a path, and every row is well formed.
  `Store` also holds `INSERT OR IGNORE` as a function on tables, plus the
  `WHERE` and `LIMIT` building blocks.
- `Processing` (`processing.dfy`) holds the state transition "mark processed"
  over a set of ids, the rowcount the UPDATE reports, the processing queue,
  and the selection a simulated run makes.
- `Views` (`views.dfy`) holds the three read-only queries as pure
  filter/sort/take functions: `/stats`, `/files/unprocessed` and
  `/files/search`.
- `Scanner` (`scanner.dfy`) holds the directory tree the initial scan walks,
  the order in which it visits entries, and the effect of ingesting them.
- `Service` (`service.dfy`) holds class `Ledger`. Its `rows` and `nextId`
  fields are updated in place by these methods, each proved against the
  functions above:
  - the two watcher handlers;
  - `insert_file_to_db`;
  - single and batch marking;
  - the `process_files` loop;
  - the recursive `scan_recursive` walk.
- `Wrappers` (`wrappers.dfy`) holds `Option` and a `Response` that is either
  `Ok` or an HTTP error status.

Modelling decisions:

- The filesystem is an input. An entry is its absolute path, name, parent
  and suffix. Ingestion receives its `stat()` as an `Option<Stat>`, where
  `None` is the exception that `insert_file_to_db` catches and ignores.
- The watched root is a `Tree`. For each entry, the tree says what `stat()`
  finds: its facts, nothing (`Gone`), or a PermissionError (`Denied`).
  `is_dir()` answers false for `Gone` and re-raises for `Denied`, as
  `pathlib` does when it swallows only not-found-style errors. An
  unreadable directory raises PermissionError from `iterdir()`.
- SQLite draws the next AUTOINCREMENT rowid before it checks `UNIQUE`. So an
  `INSERT OR IGNORE` of a known path adds no row but uses up an id, and the
  ids later rows receive skip a value.
- SQLite's INTEGER is a signed 64-bit value, and Python's `sqlite3` raises
  OverflowError when asked to bind an `int` outside it. Nothing in the
  endpoints catches it, so an id, a list of ids or a limit outside that
  range is a 500 that changes nothing (`Store.Bindable`).
- The clock is an input. Each operation receives one `now`, which is the
  `discovered_at` or `processed_at` it writes.
- Query parameters follow Python truthiness. A filter that is `None` or
  the empty string is not applied. A negative `LIMIT` is SQLite's "no
  limit".
- `str.lower()` is modelled on ASCII letters plus the Kelvin sign, the only
  non-ASCII character that lowers into one of the classifier's suffixes.
  `LIKE` folds ASCII letters only, as SQLite does.

## Model

| member | source | states |
|---|---|---|
| Classifier.FileType | main.py:52-66 | the type is one of directory/image/video/other, and it is "directory" exactly when the path is a directory |
| Classifier.LowerMatchesSpelling | main.py:57-59 | for a lower-case word, the lowered suffix equals it exactly when the suffix spells it letter by letter in either case |
| Classifier.ClassifyBySuffix | main.py:57-66 | a non-directory is an image exactly when its lowered suffix is .jpg or .jpeg, a video exactly when it is .mp4 or .blk, and other exactly when it is neither |
| Classifier.ClassifyIgnoresCase | main.py:57 | two suffixes that agree after lower-casing are classified alike |
| Classifier.Examples | main.py:54-66 | .jpg and .JPEG are images, .mp4 and .blk are videos, .txt is other, and a directory with a .jpg suffix is a directory |
| Store.NewRecord | main.py:75-92 | the inserted row is well formed and unprocessed, and its type is the classifier's answer |
| Store.Insert | main.py:69-98 | insert-or-ignore only appends, by at most one row; the path is present afterwards exactly when it was before or the stat succeeded; no other path changes presence; the id counter advances exactly when the statement runs, that is when the stat succeeded |
| Store.InsertValid | main.py:28-29 | insertion keeps the table invariant: unique paths, increasing ids below the next AUTOINCREMENT value, well-formed rows |
| Store.InsertExistingKeepsRows | main.py:80-83 | inserting a path the table already holds leaves every row exactly unchanged |
| Store.InsertTwice | main.py:80-83 | ingesting a path a second time after a successful first time yields the same rows as ingesting it once |
| Store.IgnoredInsertUsesId | main.py:80-92 | creating a twice and then b records a with id 1 and b with id 3, because the ignored insertion used up id 2 |
| Store.InsertAppends | main.py:77-92 | a new path appends one row with the next id, the entry's names, the classified type, size 0 for a directory, the stat's ctime, discovery time now, unprocessed |
| Store.Select | main.py:259-272 | a WHERE clause returns exactly the table rows that satisfy it: each returned row is a table row meeting the clause, and each table row meeting it is returned |
| Store.SelectSubMultiset | main.py:259-272 | a WHERE clause's result is a sub-multiset of the table |
| Store.Cap | main.py:274-275 | LIMIT keeps a prefix: of length limit when 0 <= limit < size, and the whole input otherwise, a negative limit included |
| Service.Ledger.constructor | main.py:26-39 | a new ledger is the empty valid table |
| Service.Ledger.Ingest | main.py:69-98 | the new state is Insert of the old state, and the table invariant is kept |
| Service.Ledger.OnCreated | main.py:104-112 | a creation event ingests the created path |
| Service.Ledger.OnMoved | main.py:114-119 | a move event ingests the destination only; every existing row, the source's included, is unchanged, and the source path's presence changes only when it is the destination |
| Processing.Mark | main.py:293-297 | marking keeps the number of rows |
| Processing.MarkEffect | main.py:293-297 | each row whose id is marked becomes processed at now with every other field unchanged, and every other row is unchanged |
| Processing.MarkValid | main.py:293-297 | marking keeps the table invariant |
| Processing.MarkProcessedIds | main.py:293-297 | after marking, the processed ids are the old processed ids plus the marked ids that exist |
| Processing.MarkOne | main.py:293-306 | marking one existing id changes exactly one row, the one with that id |
| Processing.MarkTwice | main.py:386-396 | marking one id set and then another is marking their union |
| Processing.MarkPrefixStep | main.py:386-396 | marking the selected records one at a time covers one more id per step |
| Processing.MarkKeepsIds | main.py:293-297 | marking keeps ids strictly increasing |
| Processing.RowCountSingle | main.py:299-301 | the UPDATE for one id reports no rows exactly when no record has that id |
| Processing.RowCount | main.py:299 | the rowcount is at most the number of rows, and it is 0 exactly when no row has a listed id; RowCountCountsExistingIds gives its value |
| Service.Ledger.MarkAsProcessed | main.py:287-306 | an id outside SQLite's 64-bit INTEGER range gives 500 and leaves the table unchanged; an absent id gives 404 and leaves the table unchanged; an existing id gives success and marks exactly that record |
| Processing.RowCountCountsExistingIds | main.py:316-322 | the UPDATE's rowcount is the number of distinct requested ids that exist, processed or not |
| Processing.BatchExample | main.py:309-329 | a batch [a, b, unknown] with a and b existing reports 2 and leaves a and b processed |
| Processing.EmptyBatch | main.py:315-322 | an empty batch reports 0 and changes nothing |
| Service.Ledger.ProcessBatch | main.py:309-329 | a list longer than SQLite's host-parameter limit, or holding an id outside SQLite's 64-bit INTEGER range, fails with 500 and changes nothing; otherwise the count is the number of distinct listed ids that exist, and exactly those records become processed |
| Processing.SelectAppend | main.py:378-382 | a WHERE clause over two tables joined is the two results joined |
| Processing.SelectIncreasing | main.py:378-382 | a WHERE clause keeps ids increasing |
| Processing.WithoutOwnIds | main.py:386-396 | removing a list's own ids leaves nothing |
| Processing.WithoutSubset | main.py:386-396 | removing a superset of a list's ids leaves nothing |
| Processing.WithoutDisjoint | main.py:386-396 | removing ids a list does not hold leaves it unchanged |
| Processing.Selection | main.py:378-384 | the worker selects a prefix of the queue, of length batch_size when 0 <= batch_size < the queue's length and the whole queue otherwise, and only pending table rows |
| Processing.Simulate | main.py:386-398 | a run keeps every row in place and leaves each one unchanged or the same record processed at now; SimulateEffect says which |
| Processing.QueueAfterMark | main.py:378-396 | after marking, the queue is the old queue without the marked ids |
| Processing.SimulateLeavesRest | main.py:378-396 | after a simulated run, the queue is the old queue with the selected prefix removed |
| Processing.SimulateEffect | main.py:378-396 | a run marks at most batch_size records and only pending ones, and every unselected record is unchanged |
| Processing.SimulateTwiceExample | main.py:373-402 | with 5 queued files, a run with batch 3 leaves 2, and a second run selects those 2 and empties the queue |
| Service.Ledger.ProcessFiles | main.py:373-402 | a batch_size outside SQLite's 64-bit INTEGER range makes the SELECT raise, so nothing is marked and no count is logged; otherwise the per-row UPDATE loop ends in the state of a simulated run over the selection, and the count it logs is the selection's size |
| Views.InsertBySorted | main.py:227 | inserting into a sorted list keeps it sorted and adds exactly that element |
| Views.SortByCorrect | main.py:227 | ORDER BY yields a sorted permutation of its input |
| Views.CapKeepsFront | main.py:227-228 | a LIMIT over a sorted list keeps elements no later in the order than any dropped one |
| Views.PageOf | main.py:224-238 | ORDER BY then LIMIT returns sorted matching rows: all of them when the limit does not bite, exactly limit of them when it does, and the first ones in the order |
| Views.PageMembers | main.py:238 | every row of the page is a matching row, and every matching row is in the sorted list the page is cut from |
| Views.Unprocessed | main.py:216-244 | a limit outside SQLite's 64-bit INTEGER range gives 500, and any other limit gives a page; in the page, count equals the list's length; at most limit rows; each is an unprocessed non-directory of the requested type; oldest first; drawn from the table; the whole queue when the limit does not bite, exactly limit rows when it does; every row kept is at least as old as every matching row left out |
| Views.Search | main.py:247-284 | a limit outside SQLite's 64-bit INTEGER range gives 500, and any other limit gives a page; in the page, count equals the list's length; at most limit rows; each is a non-directory meeting every given filter; newest first; drawn from the table; all matches when the limit does not bite, exactly limit when it does; every row kept is at least as new as every matching row left out |
| Views.Like | main.py:262-268 | a value can match a pattern only if the pattern is no longer than it |
| Views.LikeItself | main.py:262-268 | every value matches itself and the empty pattern |
| Views.Bump | main.py:204-205 | counting one more file of a type raises that type's count by one and leaves every other type alone |
| Views.MapSumRemove | main.py:204-205 | a dict's total is one entry plus the total of the rest |
| Views.TallyStep | main.py:204-205 | one more row keeps each type's count equal to the number of files of that type |
| Views.MapSumBump | main.py:204-205 | one more file of a type raises the dict's total by one |
| Views.TallyCounts | main.py:204-205 | a type is in the dict exactly when some file has it, and then its count is the number of files of that type |
| Views.TallySum | main.py:204-205 | the per-type counts sum to the number of files |
| Views.Tally | main.py:204-205 | every type in the dict has a positive count; TallyCounts and TallySum give the counts |
| Views.SizeSum | main.py:207-209 | the byte total is the sum of size_bytes over the non-directory rows, 0 when there are none |
| Views.SplitCount | main.py:196-201 | when a condition is the disjoint union of two others, its count is the sum of theirs (processed plus unprocessed files) |
| Views.SplitAll | main.py:189-194 | a condition's count plus its negation's count is the table size (files plus directories) |
| Views.GetStats | main.py:180-213 | files plus directories is the table size; processed plus unprocessed is the file count; the per-type counts sum to the file count and each is the count of files of that type; the unprocessed count is the queue's length; the byte total is the sum of size_bytes over the files |
| Views.SameFilter | main.py:231-236 | two WHERE clauses that agree on every row select the same rows |
| Scanner.IsDir | main.py:352 | the walk descends into exactly the entries whose stat the classifier calls a directory |
| Scanner.Listing | main.py:345-355 | an unreadable directory lists nothing; a readable one starts with the given child; every entry listed lies strictly inside the directory |
| Scanner.Visit | main.py:349-353 | an entry's walk starts with the entry, and everything after it lies strictly inside it |
| Scanner.IngestAll | main.py:348-349 | ingesting entries only appends, at most one row per entry, and the id counter never goes back |
| Scanner.IngestAllAppend | main.py:348-353 | ingesting two lists of entries one after the other is ingesting their concatenation |
| Scanner.IngestAllValid | main.py:348-349 | ingesting any entries keeps the table invariant |
| Scanner.IngestAllPaths | main.py:345-353 | after a scan a path has a record exactly when it had one before or the scan visited it with a successful stat |
| Scanner.IngestAllKnown | main.py:348-349 | ingesting entries that are all already recorded, or that cannot be stat'ed, adds no row and changes none |
| Scanner.RescanKeepsRows | main.py:332-357 | scanning the same entries again, at any time, leaves every row as the first scan left it |
| Service.Ledger.ScanDir | main.py:345-356 | the recursive walk counts every entry it visits, stops a listing after an entry whose is_dir() raises PermissionError, and leaves the table as ingesting the directory's pre-order listing would |
| Service.Ledger.InitialScan | main.py:332-363 | a root that does not exist gives 404 and an unchanged table; a root that cannot be stat'ed or is not a directory gives 500; otherwise the count of visited entries and the table after ingesting them |

## Left out

- HTTP layer: FastAPI routing, request parsing, JSON bodies and `read_root` are not modelled. An error is the status a `Response` carries. Starlette tries routes in declaration order, and `POST /process/{file_id}` is declared before `POST /process/batch` and `POST /process/simulate`. So those two requests reach `mark_as_processed` and fail integer validation with 422. The model treats each endpoint as reachable on its own terms.
- The watchdog observer thread, the lifespan hooks and the global observer handle are not modelled. Only the two handler rules are kept. Concurrent writers are not modelled either: each operation is one sequential step.
- SQLite mechanics are not modelled: connections, commits, the `CREATE TABLE`/`CREATE INDEX` bootstrap and indexes. The constraints they impose are kept: UNIQUE paths and AUTOINCREMENT ids, including the id an ignored insertion uses up.
- The real filesystem and clock are not modelled. `stat()`, `is_dir()`, `iterdir()`, `mkdir` and the timestamps are inputs: an `Option<Stat>`, a `Tree` and one `now` per operation. A directory tree is finite, so symbolic-link cycles are not represented.
- Service.Ledger.ScanDir: of the errors the walk can meet, only these are modelled: an entry that is gone or that cannot be stat'ed, and a PermissionError from `iterdir()` or from `is_dir()`. Under a `pathlib` whose `is_dir()` returns false on every OSError, a `Denied` entry would act as `Gone`, and the walk would carry on with its siblings.
- Service.Ledger.ScanDir: every row a scan inserts gets the same `discovered_at`. The source runs one INSERT per entry, and `CURRENT_TIMESTAMP` is taken per statement.
- Store.Insert: AUTOINCREMENT running out of ids at 2^63 - 1 (SQLITE_FULL) is not modelled. The model would keep allocating, and `MarkAsProcessed` would answer 500 for such an id.
- Service.Ledger.InitialScan: a root whose `exists()` raises is modelled as the `Denied` probe, status 500.
- Service.Ledger.ProcessBatch: the host-parameter limit is SQLite's default of 32766 (since 3.32.0). A build with a different SQLITE_MAX_VARIABLE_NUMBER fails at a different length.
- Views.GetStats: reports the integer byte sum in place of `round(total_bytes / (1024*1024), 2)` megabytes, because the model has no floating point.
- Views.Like and Views.Search: `LIKE` is modelled as an ASCII-case-insensitive substring test. `%` and `_` in the user's input are read literally rather than as wildcards.
- Views.Unprocessed and Views.Search: rows with equal `discovered_at` come out in the order the model's insertion sort gives, one of the orders SQLite may choose. The contracts state only the non-strict order.
- Processing.Selection: the simulated run's `SELECT ... LIMIT` has no `ORDER BY`. The model takes the rows in rowid order.
- `time.sleep`, `BackgroundTasks` scheduling and `print` logging are not modelled. A simulated run is modelled as the whole `process_files` body, executed at once.
- Service.Ledger.ProcessFiles: every record of a run gets the same `processed_at`. The source issues one UPDATE per record, and `CURRENT_TIMESTAMP` is taken per statement.
