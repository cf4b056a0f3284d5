/**
 * The store: the `files` table held in memory as a sequence of records in
 * insertion (rowid) order, together with the next AUTOINCREMENT id.
 */
module Store {
  import opened Wrappers
  import Classifier

  /** The filesystem facts ingestion reads: `is_dir()`, `st_size`, `st_ctime`. */
  datatype Stat = Stat(isDir: bool, size: nat, ctime: int)

  /**
   * A filesystem path as the ingestor sees it: its absolute form, its final
   * component, the absolute form of its parent, and the suffix of its name.
   */
  datatype Entry = Entry(path: string, name: string, parent: string, suffix: string)

  /** One row of the `files` table. */
  datatype FileRecord = FileRecord(
    id: int,
    path: string,
    filename: string,
    parentDirectory: string,
    fileType: string,
    sizeBytes: nat,
    createdAt: int,
    discoveredAt: int,
    processed: bool,
    processedAt: Option<int>,
    isDirectory: bool)

  /** The table's rows in rowid order and the id the next insertion receives. */
  datatype Table = Table(rows: seq<FileRecord>, nextId: int)

  /** The table as `CREATE TABLE` leaves it: no rows, AUTOINCREMENT starting at 1. */
  const Empty := Table([], 1)

  /** What every row satisfies given how rows are created and updated. */
  predicate WellFormed(r: FileRecord) {
    && (r.isDirectory <==> r.fileType == Classifier.Directory)
    && r.fileType in Classifier.Kinds
    && (r.isDirectory ==> r.sizeBytes == 0)
    && (r.processed <==> r.processedAt.Some?)
  }

  /** Ids strictly increase along the rows, as AUTOINCREMENT assigns them. */
  ghost predicate IncreasingIds(rows: seq<FileRecord>) {
    forall i, j :: 0 <= i < j < |rows| ==> rows[i].id < rows[j].id
  }

  lemma IncreasingTail(rows: seq<FileRecord>)
    requires IncreasingIds(rows) && rows != []
    ensures IncreasingIds(rows[1..])
    ensures forall r :: r in rows[1..] ==> rows[0].id < r.id
  {
    forall i, j | 0 <= i < j < |rows| - 1 ensures rows[1..][i].id < rows[1..][j].id {
      assert rows[1..][i] == rows[i + 1] && rows[1..][j] == rows[j + 1];
    }
    forall r | r in rows[1..] ensures rows[0].id < r.id {
      var j :| 0 <= j < |rows| - 1 && rows[1..][j] == r;
      assert rows[j + 1] == r;
    }
  }

  lemma IncreasingCons(r: FileRecord, rows: seq<FileRecord>)
    requires IncreasingIds(rows)
    requires forall x :: x in rows ==> r.id < x.id
    ensures IncreasingIds([r] + rows)
  {
    var s := [r] + rows;
    forall i, j | 0 <= i < j < |s| ensures s[i].id < s[j].id {
      assert s[j] == rows[j - 1] && rows[j - 1] in rows;
      if i > 0 {
        assert s[i] == rows[i - 1];
      }
    }
  }

  /** No two rows share a path (`path TEXT UNIQUE`). */
  ghost predicate UniquePaths(rows: seq<FileRecord>) {
    forall i, j :: 0 <= i < j < |rows| ==> rows[i].path != rows[j].path
  }

  /** The table invariant. */
  ghost predicate Valid(t: Table) {
    && 1 <= t.nextId
    && (forall i :: 0 <= i < |t.rows| ==> WellFormed(t.rows[i]) && 1 <= t.rows[i].id < t.nextId)
    && IncreasingIds(t.rows)
    && UniquePaths(t.rows)
  }

  predicate HasPath(rows: seq<FileRecord>, path: string) {
    exists i :: 0 <= i < |rows| && rows[i].path == path
  }

  function IdsOf(rows: seq<FileRecord>): set<int> {
    set r | r in rows :: r.id
  }

  lemma IdsOfCons(rows: seq<FileRecord>)
    requires rows != []
    ensures IdsOf(rows) == {rows[0].id} + IdsOf(rows[1..])
  {
    assert rows == [rows[0]] + rows[1..];
  }

  /** The row `insert_file_to_db` writes for an entry it could stat. */
  function NewRecord(id: int, e: Entry, s: Stat, now: int): (r: FileRecord)
    ensures WellFormed(r) && !r.processed
    ensures r.fileType == Classifier.FileType(s.isDir, e.suffix)
  {
    FileRecord(
      id, e.path, e.name, e.parent,
      Classifier.FileType(s.isDir, e.suffix),
      if s.isDir then 0 else s.size,
      s.ctime, now, false, None, s.isDir)
  }

  /**
   * `insert_file_to_db`: `INSERT OR IGNORE` keyed on the path. A failed stat
   * (`None`) is an exception the function catches before the statement runs,
   * so the table is unchanged. Otherwise the statement runs: SQLite draws the
   * next AUTOINCREMENT rowid before it checks `UNIQUE`, so a path the table
   * already holds adds no row but still uses up an id.
   */
  function Insert(t: Table, e: Entry, st: Option<Stat>, now: int): (t': Table)
    ensures t.rows <= t'.rows && |t'.rows| <= |t.rows| + 1
    ensures t'.nextId == t.nextId + (if st.Some? then 1 else 0)
    ensures HasPath(t'.rows, e.path) <==> HasPath(t.rows, e.path) || st.Some?
    ensures forall p :: p != e.path ==> (HasPath(t'.rows, p) <==> HasPath(t.rows, p))
  {
    if st.None? then t
    else if HasPath(t.rows, e.path) then Table(t.rows, t.nextId + 1)
    else
      var t' := Table(t.rows + [NewRecord(t.nextId, e, st.value, now)], t.nextId + 1);
      assert t'.rows[|t.rows|].path == e.path;
      assert forall p :: HasPath(t.rows, p) ==> HasPath(t'.rows, p) by {
        forall p | HasPath(t.rows, p) ensures HasPath(t'.rows, p) {
          var i :| 0 <= i < |t.rows| && t.rows[i].path == p;
          assert t'.rows[i].path == p;
        }
      }
      t'
  }

  /** Insertion keeps the table invariant: in particular no two records ever share a path. */
  lemma InsertValid(t: Table, e: Entry, st: Option<Stat>, now: int)
    requires Valid(t)
    ensures Valid(Insert(t, e, st, now))
  {
    var t' := Insert(t, e, st, now);
    if st.Some? && !HasPath(t.rows, e.path) {
      assert t'.rows == t.rows + [NewRecord(t.nextId, e, st.value, now)];
      forall i, j | 0 <= i < j < |t'.rows| ensures t'.rows[i].path != t'.rows[j].path {
        if j == |t.rows| {
          assert !HasPath(t.rows, e.path);
          assert t.rows[i].path != e.path;
        }
      }
    }
  }

  /**
   * Inserting a path the table already holds leaves every row exactly as it
   * was, whatever the filesystem now says about it and whenever it happens.
   */
  lemma InsertExistingKeepsRows(t: Table, e: Entry, st: Option<Stat>, now: int)
    requires HasPath(t.rows, e.path)
    ensures Insert(t, e, st, now).rows == t.rows
  {
  }

  /**
   * Ingesting the same path twice gives the same rows as ingesting it once
   * (the second attempt may still add the row if the first one's stat failed).
   */
  lemma {:induction false} InsertTwice(t: Table, e: Entry, e': Entry, st: Option<Stat>, st': Option<Stat>, now: int, now': int)
    requires e'.path == e.path && st.Some?
    ensures Insert(Insert(t, e, st, now), e', st', now').rows == Insert(t, e, st, now).rows
  {
    InsertExistingKeepsRows(Insert(t, e, st, now), e', st', now');
  }

  /**
   * Two creation events for `a` followed by one for `b`: the ignored second
   * insertion of `a` uses up id 2, so `b` is recorded with id 3.
   */
  lemma IgnoredInsertUsesId(a: Entry, b: Entry, s: Stat, now: int)
    requires a.path != b.path
    ensures var t := Insert(Insert(Insert(Empty, a, Some(s), now), a, Some(s), now), b, Some(s), now);
      && |t.rows| == 2
      && t.rows[0].path == a.path && t.rows[0].id == 1
      && t.rows[1].path == b.path && t.rows[1].id == 3
  {
    var t1 := Insert(Empty, a, Some(s), now);
    assert t1.rows[0].path == a.path;
    var t2 := Insert(t1, a, Some(s), now);
    assert t2 == Table(t1.rows, 3);
    assert !HasPath(t2.rows, b.path);
  }

  /**
   * A successful insertion of a new path appends exactly one record, with the
   * next id, that path, the classifier's type, the stat's facts, the given
   * discovery time and the unprocessed state.
   */
  lemma InsertAppends(t: Table, e: Entry, s: Stat, now: int)
    requires !HasPath(t.rows, e.path)
    ensures var t' := Insert(t, e, Some(s), now);
      && |t'.rows| == |t.rows| + 1
      && t'.nextId == t.nextId + 1
      && var r := t'.rows[|t.rows|];
      && r.id == t.nextId && r.path == e.path && r.filename == e.name && r.parentDirectory == e.parent
      && r.fileType == Classifier.FileType(s.isDir, e.suffix)
      && r.sizeBytes == (if s.isDir then 0 else s.size)
      && r.createdAt == s.ctime && r.discoveredAt == now
      && !r.processed && r.processedAt == None && r.isDirectory == s.isDir
  {
  }

  /** The rows of `rows` that satisfy `p`, in order (a `WHERE` clause). */
  function Select(rows: seq<FileRecord>, p: FileRecord -> bool): (r: seq<FileRecord>)
    ensures |r| <= |rows|
    ensures forall x :: x in r ==> x in rows && p(x)
    ensures forall x :: x in rows && p(x) ==> x in r
  {
    if rows == [] then []
    else
      assert rows == [rows[0]] + rows[1..];
      (if p(rows[0]) then [rows[0]] else []) + Select(rows[1..], p)
  }

  lemma {:induction false} SelectSubMultiset(rows: seq<FileRecord>, p: FileRecord -> bool)
    ensures multiset(Select(rows, p)) <= multiset(rows)
  {
    if rows != [] {
      SelectSubMultiset(rows[1..], p);
      assert rows == [rows[0]] + rows[1..];
    }
  }

  /** `LIMIT n` in SQLite: a negative limit means no limit. */
  function Cap(s: seq<FileRecord>, limit: int): (r: seq<FileRecord>)
    ensures r <= s
    ensures 0 <= limit ==> |r| <= limit
    ensures |r| == if 0 <= limit < |s| then limit else |s|
  {
    if 0 <= limit < |s| then s[..limit] else s
  }

  /**
   * SQLite's INTEGER is a signed 64-bit value. Python's `sqlite3` raises
   * OverflowError when asked to bind an `int` outside that range, so the
   * statement never runs.
   */
  const MinInteger: int := -0x8000_0000_0000_0000
  const MaxInteger: int := 0x7FFF_FFFF_FFFF_FFFF

  predicate Bindable(x: int) {
    MinInteger <= x <= MaxInteger
  }

  /** Every parameter of a statement can be bound. */
  predicate AllBindable(xs: seq<int>) {
    forall i :: 0 <= i < |xs| ==> Bindable(xs[i])
  }
}
