/**
 * The read-only queries: the unprocessed queue, search, and the aggregate
 * statistics. Each SQL query filters the table, orders it by `discovered_at`
 * and applies `LIMIT`; here each is a function of the table's rows.
 */
module Views {
  import opened Wrappers
  import opened Store
  import Processing

  /** The response body of the list endpoints: `{"count": len(files), "files": files}`. */
  datatype Page = Page(count: nat, files: seq<FileRecord>)

  ghost predicate SortedBy(s: seq<FileRecord>, key: FileRecord -> int) {
    forall i, j :: 0 <= i < j < |s| ==> key(s[i]) <= key(s[j])
  }

  /** `ORDER BY discovered_at ASC`. */
  function Oldest(r: FileRecord): int {
    r.discoveredAt
  }

  /** `ORDER BY discovered_at DESC`. */
  function Newest(r: FileRecord): int {
    -r.discoveredAt
  }

  function InsertBy(x: FileRecord, s: seq<FileRecord>, key: FileRecord -> int): seq<FileRecord> {
    if s == [] || key(x) <= key(s[0]) then [x] + s
    else [s[0]] + InsertBy(x, s[1..], key)
  }

  /** An ordering of `s` by `key`, ties in an order SQL leaves unspecified. */
  function SortBy(s: seq<FileRecord>, key: FileRecord -> int): seq<FileRecord> {
    if s == [] then [] else InsertBy(s[0], SortBy(s[1..], key), key)
  }

  lemma SortedCons(x: FileRecord, s: seq<FileRecord>, key: FileRecord -> int)
    requires SortedBy(s, key)
    requires forall y :: y in s ==> key(x) <= key(y)
    ensures SortedBy([x] + s, key)
  {
    var r := [x] + s;
    forall i, j | 0 <= i < j < |r| ensures key(r[i]) <= key(r[j]) {
      assert r[j] == s[j - 1] && s[j - 1] in s;
      if i > 0 {
        assert r[i] == s[i - 1];
      }
    }
  }

  lemma SortedTail(s: seq<FileRecord>, key: FileRecord -> int)
    requires SortedBy(s, key) && s != []
    ensures SortedBy(s[1..], key)
    ensures forall y :: y in s ==> key(s[0]) <= key(y)
  {
    forall i, j | 0 <= i < j < |s| - 1 ensures key(s[1..][i]) <= key(s[1..][j]) {
      assert s[1..][i] == s[i + 1] && s[1..][j] == s[j + 1];
    }
    forall y | y in s ensures key(s[0]) <= key(y) {
      var j :| 0 <= j < |s| && s[j] == y;
    }
  }

  lemma MembersOfMultiset(r: seq<FileRecord>, s: seq<FileRecord>, x: FileRecord)
    requires multiset(r) == multiset(s) + multiset{x}
    ensures forall y :: y in r ==> y == x || y in s
  {
    forall y | y in r ensures y == x || y in s {
      assert y in multiset(r);
    }
  }

  lemma {:induction false} InsertBySorted(x: FileRecord, s: seq<FileRecord>, key: FileRecord -> int)
    requires SortedBy(s, key)
    ensures SortedBy(InsertBy(x, s, key), key)
    ensures multiset(InsertBy(x, s, key)) == multiset(s) + multiset{x}
  {
    if s == [] {
      SortedCons(x, s, key);
    } else if key(x) <= key(s[0]) {
      SortedTail(s, key);
      SortedCons(x, s, key);
    } else {
      var tail := s[1..];
      SortedTail(s, key);
      InsertBySorted(x, tail, key);
      var r := InsertBy(x, tail, key);
      MembersOfMultiset(r, tail, x);
      SortedCons(s[0], r, key);
      assert s == [s[0]] + tail;
    }
  }

  /** The ordering is sorted by its key and a permutation of its input. */
  lemma {:induction false} SortByCorrect(s: seq<FileRecord>, key: FileRecord -> int)
    ensures SortedBy(SortBy(s, key), key)
    ensures multiset(SortBy(s, key)) == multiset(s)
  {
    if s != [] {
      SortByCorrect(s[1..], key);
      InsertBySorted(s[0], SortBy(s[1..], key), key);
      assert s == [s[0]] + s[1..];
    }
  }

  /**
   * `LIMIT` on a sorted result keeps the front: every row it keeps comes no
   * later in the ordering than any row it drops.
   */
  lemma CapKeepsFront(s: seq<FileRecord>, limit: int, key: FileRecord -> int)
    requires SortedBy(s, key)
    ensures SortedBy(Cap(s, limit), key)
    ensures forall x, y :: x in Cap(s, limit) && y in s && y !in Cap(s, limit) ==> key(x) <= key(y)
  {
    var c := Cap(s, limit);
    forall x, y | x in c && y in s && y !in c ensures key(x) <= key(y) {
      var i :| 0 <= i < |c| && c[i] == x;
      var j :| 0 <= j < |s| && s[j] == y;
      assert s[i] == x;
    }
  }

  /**
   * Ordering a query's matching rows and applying `LIMIT` gives a sorted
   * sub-multiset of them: all of them when the limit does not bite, exactly
   * `limit` of them when it does, and never one that sorts after a row it
   * leaves out.
   */
  lemma PageOf(matching: seq<FileRecord>, key: FileRecord -> int, limit: int)
    ensures var files := Cap(SortBy(matching, key), limit);
      && SortedBy(files, key)
      && multiset(files) <= multiset(matching)
      && (forall r :: r in files ==> r in matching)
      && ((limit < 0 || |matching| <= limit) ==> multiset(files) == multiset(matching))
      && (0 <= limit <= |matching| ==> |files| == limit)
      && forall x, y :: x in files && y in matching && y !in files ==> key(x) <= key(y)
  {
    var sorted := SortBy(matching, key);
    SortByCorrect(matching, key);
    CapKeepsFront(sorted, limit, key);
    PageMembers(sorted, matching, limit);
  }

  lemma PageMembers(sorted: seq<FileRecord>, matching: seq<FileRecord>, limit: int)
    requires multiset(sorted) == multiset(matching)
    ensures var files := Cap(sorted, limit);
      && |sorted| == |matching|
      && multiset(files) <= multiset(matching)
      && (forall r :: r in files ==> r in matching)
      && (forall y :: y in matching ==> y in sorted)
  {
    var files := Cap(sorted, limit);
    assert multiset(files) <= multiset(sorted) by {
      assert sorted == files + sorted[|files|..];
    }
    assert |sorted| == |matching| by {
      assert |multiset(sorted)| == |multiset(matching)|;
    }
    forall y | y in matching ensures y in sorted {
      assert y in multiset(matching);
    }
    forall r | r in files ensures r in matching {
      assert r in multiset(files);
    }
  }

  /** A query parameter filters only when it is given and non-empty, as Python's `if file_type:` reads it. */
  predicate Active(filter: Option<string>) {
    filter.Some? && filter.value != ""
  }

  /**
   * The `WHERE` clause of `get_unprocessed_files`: unprocessed, not a
   * directory, and of the requested type when one is given.
   */
  predicate Queued(r: FileRecord, fileType: Option<string>) {
    Processing.Pending(r) && (Active(fileType) ==> r.fileType == fileType.value)
  }

  function QueuedAs(fileType: Option<string>): FileRecord -> bool {
    (r: FileRecord) => Queued(r, fileType)
  }

  /**
   * `GET /files/unprocessed`: up to `limit` pending records, optionally of one
   * type, oldest discovery first. A `limit` SQLite cannot bind is an uncaught
   * error.
   */
  function Unprocessed(rows: seq<FileRecord>, limit: int, fileType: Option<string>): (r: Response<Page>)
    ensures r.Ok? <==> Bindable(limit)
    ensures r.Err? ==> r.status == ServerError
    ensures r.Ok? ==> r.value.count == |r.value.files|
    ensures r.Ok? && 0 <= limit ==> |r.value.files| <= limit
    ensures r.Ok? ==> forall x :: x in r.value.files ==> Queued(x, fileType)
    ensures r.Ok? ==> forall i, j :: 0 <= i < j < |r.value.files| ==> r.value.files[i].discoveredAt <= r.value.files[j].discoveredAt
    ensures r.Ok? ==> multiset(r.value.files) <= multiset(rows)
    ensures r.Ok? ==> var files, matching := r.value.files, Select(rows, QueuedAs(fileType));
      && ((limit < 0 || |matching| <= limit) ==> multiset(files) == multiset(matching))
      && (0 <= limit <= |matching| ==> |files| == limit)
      && forall x, y :: x in files && y in matching && y !in files ==> x.discoveredAt <= y.discoveredAt
  {
    if !Bindable(limit) then Err(ServerError)
    else
      var matching := Select(rows, QueuedAs(fileType));
      var files := Cap(SortBy(matching, Oldest), limit);
      PageOf(matching, Oldest, limit);
      SelectSubMultiset(rows, QueuedAs(fileType));
      QueuedMatches(rows, fileType, files);
      OldestFirst(files, matching);
      Ok(Page(|files|, files))
  }

  lemma QueuedMatches(rows: seq<FileRecord>, fileType: Option<string>, files: seq<FileRecord>)
    requires forall r :: r in files ==> r in Select(rows, QueuedAs(fileType))
    ensures forall r :: r in files ==> Queued(r, fileType)
  {
    forall r | r in files ensures Queued(r, fileType) {
      assert QueuedAs(fileType)(r);
    }
  }

  /** Sorted by `Oldest` is oldest discovery first, and so is keeping the front. */
  lemma OldestFirst(files: seq<FileRecord>, matching: seq<FileRecord>)
    requires SortedBy(files, Oldest)
    requires forall x, y :: x in files && y in matching && y !in files ==> Oldest(x) <= Oldest(y)
    ensures forall i, j :: 0 <= i < j < |files| ==> files[i].discoveredAt <= files[j].discoveredAt
    ensures forall x, y :: x in files && y in matching && y !in files ==> x.discoveredAt <= y.discoveredAt
  {
    forall x, y | x in files && y in matching && y !in files ensures x.discoveredAt <= y.discoveredAt {
      assert Oldest(x) <= Oldest(y);
    }
    forall i, j | 0 <= i < j < |files| ensures files[i].discoveredAt <= files[j].discoveredAt {
      assert Oldest(files[i]) <= Oldest(files[j]);
    }
  }

  /** `lower()` as SQLite's `LIKE` applies it: ASCII letters only. */
  function AsciiLower(s: string): string {
    seq(|s|, i requires 0 <= i < |s| => if 'A' <= s[i] <= 'Z' then (s[i] as int + 32) as char else s[i])
  }

  predicate Contains(s: string, sub: string) {
    exists i :: 0 <= i <= |s| && sub <= s[i..]
  }

  /** `value LIKE '%pattern%'`, reading the pattern's characters literally. */
  predicate Like(value: string, pattern: string)
    ensures Like(value, pattern) ==> |pattern| <= |value|
  {
    Contains(AsciiLower(value), AsciiLower(pattern))
  }

  /** A value matches itself, and the empty pattern matches every value. */
  lemma LikeItself(value: string)
    ensures Like(value, value) && Like(value, "")
  {
    assert AsciiLower(value) <= AsciiLower(value)[0..];
  }

  /**
   * The `WHERE` clause `search_files` assembles: not a directory, and each
   * filter that is given holds (substring of the file name, substring of the
   * parent directory, equal type); a filter not given constrains nothing.
   */
  predicate MatchesSearch(r: FileRecord, filename: Option<string>, directory: Option<string>, fileType: Option<string>) {
    && !r.isDirectory
    && (Active(filename) ==> Like(r.filename, filename.value))
    && (Active(directory) ==> Like(r.parentDirectory, directory.value))
    && (Active(fileType) ==> r.fileType == fileType.value)
  }

  function SearchFilter(filename: Option<string>, directory: Option<string>, fileType: Option<string>): FileRecord -> bool {
    (r: FileRecord) => MatchesSearch(r, filename, directory, fileType)
  }

  /**
   * `GET /files/search`: up to `limit` non-directory records meeting every
   * filter given, newest discovery first. A `limit` SQLite cannot bind is an
   * uncaught error.
   */
  function Search(rows: seq<FileRecord>, filename: Option<string>, directory: Option<string>,
                  fileType: Option<string>, limit: int): (r: Response<Page>)
    ensures r.Ok? <==> Bindable(limit)
    ensures r.Err? ==> r.status == ServerError
    ensures r.Ok? ==> r.value.count == |r.value.files|
    ensures r.Ok? && 0 <= limit ==> |r.value.files| <= limit
    ensures r.Ok? ==> forall x :: x in r.value.files ==> MatchesSearch(x, filename, directory, fileType)
    ensures r.Ok? ==> forall i, j :: 0 <= i < j < |r.value.files| ==> r.value.files[i].discoveredAt >= r.value.files[j].discoveredAt
    ensures r.Ok? ==> multiset(r.value.files) <= multiset(rows)
    ensures r.Ok? ==> var files, matching := r.value.files, Select(rows, SearchFilter(filename, directory, fileType));
      && ((limit < 0 || |matching| <= limit) ==> multiset(files) == multiset(matching))
      && (0 <= limit <= |matching| ==> |files| == limit)
      && forall x, y :: x in files && y in matching && y !in files ==> x.discoveredAt >= y.discoveredAt
  {
    if !Bindable(limit) then Err(ServerError)
    else
      var matching := Select(rows, SearchFilter(filename, directory, fileType));
      var files := Cap(SortBy(matching, Newest), limit);
      PageOf(matching, Newest, limit);
      SelectSubMultiset(rows, SearchFilter(filename, directory, fileType));
      SearchMatches(rows, filename, directory, fileType, files);
      NewestFirst(files, matching);
      Ok(Page(|files|, files))
  }

  lemma SearchMatches(rows: seq<FileRecord>, filename: Option<string>, directory: Option<string>,
                      fileType: Option<string>, files: seq<FileRecord>)
    requires forall r :: r in files ==> r in Select(rows, SearchFilter(filename, directory, fileType))
    ensures forall r :: r in files ==> MatchesSearch(r, filename, directory, fileType)
  {
    forall r | r in files ensures MatchesSearch(r, filename, directory, fileType) {
      assert SearchFilter(filename, directory, fileType)(r);
    }
  }

  /** Sorted by `Newest` is newest discovery first, and so is keeping the front. */
  lemma NewestFirst(files: seq<FileRecord>, matching: seq<FileRecord>)
    requires SortedBy(files, Newest)
    requires forall x, y :: x in files && y in matching && y !in files ==> Newest(x) <= Newest(y)
    ensures forall i, j :: 0 <= i < j < |files| ==> files[i].discoveredAt >= files[j].discoveredAt
    ensures forall x, y :: x in files && y in matching && y !in files ==> x.discoveredAt >= y.discoveredAt
  {
    forall x, y | x in files && y in matching && y !in files ensures x.discoveredAt >= y.discoveredAt {
      assert Newest(x) <= Newest(y);
    }
    forall i, j | 0 <= i < j < |files| ensures files[i].discoveredAt >= files[j].discoveredAt {
      assert Newest(files[i]) <= Newest(files[j]);
    }
  }

  /** The body of `GET /stats`, with the byte total in place of the rounded megabytes. */
  datatype Stats = Stats(
    totalFiles: nat,
    totalDirectories: nat,
    processedFiles: nat,
    unprocessedFiles: nat,
    byType: map<string, nat>,
    totalBytes: nat)

  predicate IsFile(r: FileRecord) {
    !r.isDirectory
  }

  predicate IsDirectoryRow(r: FileRecord) {
    r.isDirectory
  }

  predicate ProcessedFile(r: FileRecord) {
    r.processed && !r.isDirectory
  }

  function OfType(t: string): FileRecord -> bool {
    (r: FileRecord) => !r.isDirectory && r.fileType == t
  }

  /** `SELECT file_type, COUNT(*) ... WHERE is_directory = FALSE GROUP BY file_type`, as a dict. */
  function Tally(rows: seq<FileRecord>): (m: map<string, nat>)
    ensures forall t :: t in m ==> 0 < m[t]
  {
    if rows == [] then map[]
    else
      var m := Tally(rows[1..]);
      if rows[0].isDirectory then m else Bump(m, rows[0].fileType)
  }

  /** One more file of type `t`. */
  function Bump(m: map<string, nat>, t: string): (m': map<string, nat>)
    ensures t in m' && m'[t] == (if t in m then m[t] else 0) + 1
    ensures forall u :: u != t ==> (u in m' <==> u in m) && (u in m ==> m'[u] == m[u])
  {
    m[t := (if t in m then m[t] else 0) + 1]
  }

  /** `SUM(size_bytes) ... WHERE is_directory = FALSE`, with `or 0` for an empty sum. */
  function SizeSum(rows: seq<FileRecord>): (n: nat)
    ensures n == TotalSize(Select(rows, IsFile))
  {
    if rows == [] then 0
    else
      var head := if IsFile(rows[0]) then [rows[0]] else [];
      assert Select(rows, IsFile) == head + Select(rows[1..], IsFile);
      TotalSizeAppend(head, Select(rows[1..], IsFile));
      (if rows[0].isDirectory then 0 else rows[0].sizeBytes) + SizeSum(rows[1..])
  }

  /** The sum of `size_bytes` over `rows`. */
  function TotalSize(rows: seq<FileRecord>): nat {
    if rows == [] then 0 else rows[0].sizeBytes + TotalSize(rows[1..])
  }

  lemma {:induction false} TotalSizeAppend(a: seq<FileRecord>, b: seq<FileRecord>)
    ensures TotalSize(a + b) == TotalSize(a) + TotalSize(b)
  {
    if a != [] {
      TotalSizeAppend(a[1..], b);
      assert (a + b)[1..] == a[1..] + b;
    } else {
      assert a + b == b;
    }
  }

  ghost function MapSum(m: map<string, nat>): nat
    decreases |m|
  {
    if m == map[] then 0
    else
      var k :| k in m;
      assert |m - {k}| < |m| by {
        assert m.Keys == (m - {k}).Keys + {k};
      }
      m[k] + MapSum(m - {k})
  }

  lemma MapSumRemove(m: map<string, nat>, k: string)
    requires k in m
    ensures MapSum(m) == m[k] + MapSum(m - {k})
    decreases |m|
  {
    var j :| j in m && MapSum(m) == m[j] + MapSum(m - {j});
    if j != k {
      assert m.Keys == (m - {j}).Keys + {j};
      assert m.Keys == (m - {k}).Keys + {k};
      MapSumRemove(m - {j}, k);
      MapSumRemove(m - {k}, j);
      assert m - {j} - {k} == m - {k} - {j};
    }
  }

  /** Adding one to a key's count (starting it at one when absent) adds one to the sum. */
  lemma MapSumBump(m: map<string, nat>, t: string)
    ensures MapSum(Bump(m, t)) == MapSum(m) + 1
  {
    var m' := Bump(m, t);
    MapSumRemove(m', t);
    assert m' - {t} == m - {t};
    if t in m {
      MapSumRemove(m, t);
    } else {
      assert m - {t} == m;
    }
  }

  lemma TallyHit(rows: seq<FileRecord>, t: string)
    requires rows != [] && !rows[0].isDirectory && rows[0].fileType == t
    ensures Tally(rows) == Bump(Tally(rows[1..]), t)
    ensures |Select(rows, OfType(t))| == |Select(rows[1..], OfType(t))| + 1
  {
    assert OfType(t)(rows[0]);
  }

  lemma TallyMiss(rows: seq<FileRecord>, t: string)
    requires rows != [] && !(!rows[0].isDirectory && rows[0].fileType == t)
    ensures t in Tally(rows) <==> t in Tally(rows[1..])
    ensures t in Tally(rows) ==> Tally(rows)[t] == Tally(rows[1..])[t]
    ensures |Select(rows, OfType(t))| == |Select(rows[1..], OfType(t))|
  {
    assert !OfType(t)(rows[0]);
  }

  lemma TallyStep(rows: seq<FileRecord>, t: string)
    requires rows != []
    requires t in Tally(rows[1..]) ==> Tally(rows[1..])[t] == |Select(rows[1..], OfType(t))| > 0
    requires t !in Tally(rows[1..]) ==> |Select(rows[1..], OfType(t))| == 0
    ensures t in Tally(rows) ==> Tally(rows)[t] == |Select(rows, OfType(t))| > 0
    ensures t !in Tally(rows) ==> |Select(rows, OfType(t))| == 0
  {
    if !rows[0].isDirectory && rows[0].fileType == t {
      TallyHit(rows, t);
    } else {
      TallyMiss(rows, t);
    }
  }

  /** The per-type counts: a type appears exactly when some file has it, with that many files. */
  lemma {:induction false} TallyCounts(rows: seq<FileRecord>)
    ensures forall t :: t in Tally(rows) ==> Tally(rows)[t] == |Select(rows, OfType(t))| > 0
    ensures forall t :: t !in Tally(rows) ==> |Select(rows, OfType(t))| == 0
  {
    if rows != [] {
      TallyCounts(rows[1..]);
      forall t
        ensures t in Tally(rows) ==> Tally(rows)[t] == |Select(rows, OfType(t))| > 0
        ensures t !in Tally(rows) ==> |Select(rows, OfType(t))| == 0
      {
        TallyStep(rows, t);
      }
    }
  }

  /** The per-type counts sum to the number of files. */
  lemma {:induction false} TallySum(rows: seq<FileRecord>)
    ensures MapSum(Tally(rows)) == |Select(rows, IsFile)|
  {
    if rows != [] {
      TallySum(rows[1..]);
      if !rows[0].isDirectory {
        MapSumBump(Tally(rows[1..]), rows[0].fileType);
      }
    }
  }

  /** Two disjoint filters whose union is a third select as many rows together as the third. */
  lemma {:induction false} SplitCount(rows: seq<FileRecord>, p: FileRecord -> bool, q: FileRecord -> bool, u: FileRecord -> bool)
    requires forall x :: u(x) == (p(x) || q(x))
    requires forall x :: !(p(x) && q(x))
    ensures |Select(rows, p)| + |Select(rows, q)| == |Select(rows, u)|
  {
    if rows != [] {
      SplitCount(rows[1..], p, q, u);
    }
  }

  /** A filter and its complement together select every row. */
  lemma {:induction false} SplitAll(rows: seq<FileRecord>, p: FileRecord -> bool, q: FileRecord -> bool)
    requires forall x :: q(x) == !p(x)
    ensures |Select(rows, p)| + |Select(rows, q)| == |rows|
  {
    if rows != [] {
      SplitAll(rows[1..], p, q);
    }
  }

  /**
   * `GET /stats` over one snapshot of the table: files and directories
   * together are every record, processed and unprocessed files together are
   * every file, the per-type counts sum to the files, and the unprocessed
   * count is the length of the queue.
   */
  function GetStats(rows: seq<FileRecord>): (s: Stats)
    ensures s.totalFiles + s.totalDirectories == |rows|
    ensures s.processedFiles + s.unprocessedFiles == s.totalFiles
    ensures MapSum(s.byType) == s.totalFiles
    ensures forall t :: t in s.byType ==> s.byType[t] == |Select(rows, OfType(t))| > 0
    ensures forall t :: t !in s.byType ==> |Select(rows, OfType(t))| == 0
    ensures s.unprocessedFiles == |Processing.Queue(rows)|
    ensures s.unprocessedFiles == |Unprocessed(rows, -1, None).value.files|
    ensures s.totalBytes == TotalSize(Select(rows, IsFile))
  {
    SplitAll(rows, IsFile, IsDirectoryRow);
    SplitCount(rows, ProcessedFile, Processing.Pending, IsFile);
    TallyCounts(rows);
    TallySum(rows);
    var queue := Unprocessed(rows, -1, None).value;
    assert |queue.files| == |Select(rows, QueuedAs(None))| by {
      assert |multiset(queue.files)| == |multiset(Select(rows, QueuedAs(None)))|;
    }
    SameFilter(rows, QueuedAs(None), Processing.Pending);
    Stats(
      |Select(rows, IsFile)|,
      |Select(rows, IsDirectoryRow)|,
      |Select(rows, ProcessedFile)|,
      |Processing.Queue(rows)|,
      Tally(rows),
      SizeSum(rows))
  }

  lemma {:induction false} SameFilter(rows: seq<FileRecord>, p: FileRecord -> bool, q: FileRecord -> bool)
    requires forall x :: p(x) == q(x)
    ensures Select(rows, p) == Select(rows, q)
  {
    if rows != [] {
      SameFilter(rows[1..], p, q);
    }
  }
}
