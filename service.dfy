/**
 * The ledger service: the `files` table as an object whose operations update
 * it in place — ingestion and the two filesystem-event handlers, the initial
 * scan, and the three processing transitions.
 */
module Service {
  import opened Wrappers
  import opened Store
  import Processing
  import Scanner

  /**
   * SQLite's default SQLITE_MAX_VARIABLE_NUMBER (since version 3.32.0): a
   * statement with more `?` parameters fails with "too many SQL variables".
   */
  const MaxHostParameters: nat := 32766

  class Ledger {
    /** The rows of the `files` table, in rowid order. */
    var rows: seq<FileRecord>
    /** The id AUTOINCREMENT assigns next. */
    var nextId: int

    function State(): Table
      reads this
    {
      Table(rows, nextId)
    }

    ghost predicate Valid()
      reads this
    {
      Store.Valid(State())
    }

    /** `init_database`: an empty table. */
    constructor ()
      ensures Valid() && State() == Empty
    {
      rows := [];
      nextId := 1;
    }

    /**
     * `insert_file_to_db`: insert-if-absent keyed on the path; a failed stat
     * is caught and leaves the table unchanged.
     */
    method Ingest(e: Entry, st: Option<Stat>, now: int)
      requires Valid()
      modifies this
      ensures Valid()
      ensures State() == Insert(old(State()), e, st, now)
    {
      InsertValid(State(), e, st, now);
      if st.Some? {
        if !HasPath(rows, e.path) {
          rows := rows + [NewRecord(nextId, e, st.value, now)];
        }
        nextId := nextId + 1;
      }
    }

    /** `FootageEventHandler.on_created`: ingests the created path. */
    method OnCreated(src: Entry, st: Option<Stat>, now: int)
      requires Valid()
      modifies this
      ensures Valid()
      ensures State() == Insert(old(State()), src, st, now)
    {
      Ingest(src, st, now);
    }

    /**
     * `FootageEventHandler.on_moved`: ingests the destination only. The
     * source's record, if any, stays exactly where and as it was.
     */
    method OnMoved(src: Entry, dest: Entry, destStat: Option<Stat>, now: int)
      requires Valid()
      modifies this
      ensures Valid()
      ensures State() == Insert(old(State()), dest, destStat, now)
      ensures forall i :: 0 <= i < |old(rows)| ==> rows[i] == old(rows)[i]
      ensures HasPath(rows, src.path) <==> HasPath(old(rows), src.path) || (src.path == dest.path && destStat.Some?)
    {
      Ingest(dest, destStat, now);
    }

    /**
     * `mark_as_processed`: an id SQLite cannot bind is an uncaught error; an
     * id no record has is a 404; in both cases nothing changes. Otherwise
     * that record is marked processed at `now`.
     */
    method MarkAsProcessed(id: int, now: int) returns (r: Response<int>)
      requires Valid()
      modifies this
      ensures Valid()
      ensures !Bindable(id) ==> r == Err(ServerError) && State() == old(State())
      ensures Bindable(id) && id !in IdsOf(old(rows)) ==> r == Err(NotFound) && State() == old(State())
      ensures Bindable(id) && id in IdsOf(old(rows)) ==> r == Ok(id) && nextId == old(nextId)
      ensures Bindable(id) && id in IdsOf(old(rows)) ==> rows == Processing.Mark(old(rows), {id}, now)
    {
      if !Bindable(id) {
        return Err(ServerError);
      }
      Processing.RowCountSingle(rows, id);
      var rowCount := Processing.RowCount(rows, {id});
      if rowCount == 0 {
        return Err(NotFound);
      }
      Processing.MarkValid(State(), {id}, now);
      rows := Processing.Mark(rows, {id}, now);
      r := Ok(id);
    }

    /**
     * `process_batch`: marks every listed id that exists and reports how many
     * distinct listed ids matched a record. The statement binds one parameter
     * per listed id, so a list longer than SQLite accepts, or an id SQLite
     * cannot bind, is an uncaught error that changes nothing.
     */
    method ProcessBatch(ids: seq<int>, now: int) returns (r: Response<nat>)
      requires Valid()
      modifies this
      ensures Valid()
      ensures |ids| > MaxHostParameters || !AllBindable(ids) ==> r == Err(ServerError) && State() == old(State())
      ensures |ids| <= MaxHostParameters && AllBindable(ids) ==>
        && r == Ok(|Processing.BatchIds(ids) * IdsOf(old(rows))|)
        && rows == Processing.Mark(old(rows), Processing.BatchIds(ids), now)
        && nextId == old(nextId)
    {
      if |ids| > MaxHostParameters || !AllBindable(ids) {
        return Err(ServerError);
      }
      var matched := Processing.BatchIds(ids);
      Processing.RowCountCountsExistingIds(rows, matched);
      var count := Processing.RowCount(rows, matched);
      Processing.MarkValid(State(), matched, now);
      rows := Processing.Mark(rows, matched, now);
      r := Ok(count);
    }

    /**
     * `process_files`, the background body of `simulate_processing`: selects
     * up to `batchSize` pending records and marks them one UPDATE at a time.
     * Returns the number processed, which the source logs, or `None` when
     * SQLite cannot bind `batchSize`: the SELECT raises and nothing is marked.
     */
    method ProcessFiles(batchSize: int, now: int) returns (processedCount: Option<nat>)
      requires Valid()
      modifies this
      ensures Valid()
      ensures !Bindable(batchSize) ==> processedCount == None && State() == old(State())
      ensures Bindable(batchSize) ==> processedCount == Some(|Processing.Selection(old(rows), batchSize)|)
      ensures Bindable(batchSize) ==> rows == Processing.Simulate(old(rows), batchSize, now)
      ensures nextId == old(nextId)
    {
      if !Bindable(batchSize) {
        return None;
      }
      var files := Processing.Selection(rows, batchSize);
      var i := 0;
      Processing.MarkEffect(rows, {}, now);
      assert IdsOf(files[..0]) == {};
      while i < |files|
        invariant 0 <= i <= |files|
        invariant Valid() && nextId == old(nextId)
        invariant rows == Processing.Mark(old(rows), IdsOf(files[..i]), now)
      {
        Processing.MarkValid(State(), {files[i].id}, now);
        Processing.MarkPrefixStep(old(rows), files, i, now);
        rows := Processing.Mark(rows, {files[i].id}, now);
        i := i + 1;
      }
      assert files[..i] == files;
      processedCount := Some(|files|);
    }

    /**
     * `initial_scan`: a root that does not exist is a 404. A root whose
     * `exists()` raises PermissionError, or that is not a directory so that
     * `iterdir()` raises, ends in an error nothing catches. Otherwise the root
     * is walked and the number of entries visited is returned.
     */
    method InitialScan(root: Scanner.Tree, now: int) returns (r: Response<nat>)
      requires Valid()
      modifies this
      ensures Valid()
      ensures root.probe.Gone? ==> r == Err(NotFound) && State() == old(State())
      ensures !root.probe.Gone? && !Scanner.IsDir(root) ==> r == Err(ServerError) && State() == old(State())
      ensures Scanner.IsDir(root) ==>
        && r == Ok(|Scanner.Listing(root, 0)|)
        && State() == Scanner.IngestAll(old(State()), Scanner.Listing(root, 0), now)
    {
      if root.probe.Gone? {
        return Err(NotFound);
      }
      if !Scanner.IsDir(root) {
        return Err(ServerError);
      }
      var added := ScanDir(root, now);
      r := Ok(added);
    }

    /**
     * `scan_recursive`: ingests each entry of `d`'s listing, counts it, and
     * descends into it when it is a directory. A PermissionError from
     * `iterdir()` or from an entry's `is_dir()` is caught and ends the
     * directory's listing.
     */
    method ScanDir(d: Scanner.Tree, now: int) returns (added: nat)
      requires Valid()
      modifies this
      ensures Valid()
      ensures added == |Scanner.Listing(d, 0)|
      ensures State() == Scanner.IngestAll(old(State()), Scanner.Listing(d, 0), now)
      decreases d, 0
    {
      added := 0;
      if !d.readable {
        return;
      }
      ghost var total := |Scanner.Listing(d, 0)|;
      ghost var target := Scanner.IngestAll(State(), Scanner.Listing(d, 0), now);
      var i := 0;
      while i < |d.children|
        invariant 0 <= i <= |d.children|
        invariant Valid()
        invariant added + |Scanner.Listing(d, i)| == total
        invariant Scanner.IngestAll(State(), Scanner.Listing(d, i), now) == target
      {
        var item := d.children[i];
        ghost var before := State();
        Ingest(item.entry, Scanner.StatOf(item), now);
        added := added + 1;
        if item.probe.Denied? {
          Scanner.ListingDenied(d, i);
          Scanner.IngestOne(before, item, now);
          return;
        }
        if Scanner.IsDir(item) {
          var sub := ScanDir(item, now);
          added := added + sub;
        } else {
          assert State() == Scanner.IngestAll(State(), [], now);
        }
        Scanner.ScanAdvance(before, State(), d, i, now);
        i := i + 1;
      }
    }
  }
}
