/**
 * The processing state machine: the one-way `processed` transition that
 * `mark_as_processed`, `process_batch` and the simulated background worker
 * apply, the row counts the database reports, and the queue of work.
 */
module Processing {
  import opened Wrappers
  import opened Store

  /** A record after `SET processed = TRUE, processed_at = CURRENT_TIMESTAMP`. */
  function Processed(r: FileRecord, now: int): FileRecord {
    r.(processed := true, processedAt := Some(now))
  }

  /** `UPDATE files SET processed = TRUE, processed_at = now WHERE id IN ids`. */
  function Mark(rows: seq<FileRecord>, ids: set<int>, now: int): (m: seq<FileRecord>)
    ensures |m| == |rows|
  {
    if rows == [] then []
    else [if rows[0].id in ids then Processed(rows[0], now) else rows[0]] + Mark(rows[1..], ids, now)
  }

  /** The `rowcount` that UPDATE reports: the number of rows its `WHERE id IN ids` matched. */
  function RowCount(rows: seq<FileRecord>, ids: set<int>): (n: nat)
    ensures n <= |rows|
    ensures n == 0 <==> forall i :: 0 <= i < |rows| ==> rows[i].id !in ids
  {
    if rows == [] then 0
    else (if rows[0].id in ids then 1 else 0) + RowCount(rows[1..], ids)
  }

  /** The ids of the processed records. */
  function ProcessedIds(rows: seq<FileRecord>): set<int> {
    set r | r in rows && r.processed :: r.id
  }

  /** `processed = FALSE AND is_directory = FALSE`: a record waiting in the queue. */
  predicate Pending(r: FileRecord) {
    !r.processed && !r.isDirectory
  }

  /** The queue: pending records in storage order. */
  function Queue(rows: seq<FileRecord>): seq<FileRecord> {
    Select(rows, Pending)
  }

  function NotIn(ids: set<int>): FileRecord -> bool {
    (r: FileRecord) => r.id !in ids
  }

  /** The records of `rows` whose id is not in `ids`, in order. */
  function Without(rows: seq<FileRecord>, ids: set<int>): seq<FileRecord> {
    Select(rows, NotIn(ids))
  }

  /**
   * The rows the simulated worker selects: `SELECT ... WHERE processed = FALSE
   * AND is_directory = FALSE LIMIT batch_size`. The query has no ORDER BY;
   * the model takes the rows in storage order.
   */
  function Selection(rows: seq<FileRecord>, batchSize: int): (s: seq<FileRecord>)
    ensures s <= Queue(rows)
    ensures |s| == if 0 <= batchSize < |Queue(rows)| then batchSize else |Queue(rows)|
    ensures forall r :: r in s ==> r in rows && Pending(r)
  {
    var queue := Queue(rows);
    var s := Cap(queue, batchSize);
    assert forall r :: r in s ==> r in queue;
    s
  }

  /**
   * The table rows after the simulated worker has marked every selected row:
   * no row is added, dropped or moved, and each row is either unchanged or
   * the same record processed at `now` (`SimulateEffect` says which).
   */
  function Simulate(rows: seq<FileRecord>, batchSize: int, now: int): (m: seq<FileRecord>)
    ensures |m| == |rows|
    ensures forall i :: 0 <= i < |rows| ==> m[i] == rows[i] || m[i] == Processed(rows[i], now)
  {
    var selected := IdsOf(Selection(rows, batchSize));
    MarkEffect(rows, selected, now);
    Mark(rows, selected, now)
  }

  /** The distinct ids of a request body. */
  function BatchIds(ids: seq<int>): set<int> {
    set x | x in ids
  }

  /**
   * Marking changes exactly the rows whose id is listed, and in them only the
   * `processed` and `processed_at` columns; every other row is unchanged.
   */
  lemma {:induction false} MarkEffect(rows: seq<FileRecord>, ids: set<int>, now: int)
    ensures forall i :: 0 <= i < |rows| ==>
      Mark(rows, ids, now)[i] == if rows[i].id in ids then Processed(rows[i], now) else rows[i]
  {
    if rows != [] {
      MarkEffect(rows[1..], ids, now);
      var m := Mark(rows, ids, now);
      forall i | 0 < i < |rows|
        ensures m[i] == if rows[i].id in ids then Processed(rows[i], now) else rows[i]
      {
        assert m[i] == Mark(rows[1..], ids, now)[i - 1];
        assert rows[1..][i - 1] == rows[i];
      }
    }
  }

  /** Marking one set of ids and then another is marking their union. */
  lemma MarkTwice(rows: seq<FileRecord>, a: set<int>, b: set<int>, now: int)
    ensures Mark(Mark(rows, a, now), b, now) == Mark(rows, a + b, now)
  {
    var once := Mark(rows, a, now);
    MarkEffect(rows, a, now);
    MarkEffect(once, b, now);
    MarkEffect(rows, a + b, now);
  }

  /** Marking a selection one record at a time adds one id per step. */
  lemma MarkPrefixStep(rows: seq<FileRecord>, files: seq<FileRecord>, i: nat, now: int)
    requires i < |files|
    ensures Mark(Mark(rows, IdsOf(files[..i]), now), {files[i].id}, now) == Mark(rows, IdsOf(files[..i + 1]), now)
  {
    MarkTwice(rows, IdsOf(files[..i]), {files[i].id}, now);
    assert files[..i + 1] == files[..i] + [files[i]];
    assert IdsOf(files[..i + 1]) == IdsOf(files[..i]) + {files[i].id};
  }

  /** Marking keeps the table invariant. */
  lemma MarkValid(t: Table, ids: set<int>, now: int)
    requires Valid(t)
    ensures Valid(Table(Mark(t.rows, ids, now), t.nextId))
  {
    MarkEffect(t.rows, ids, now);
  }

  /**
   * The transition is one-way: the processed records afterwards are those
   * before plus exactly the listed ids that exist; none is ever unmarked.
   */
  lemma MarkProcessedIds(rows: seq<FileRecord>, ids: set<int>, now: int)
    ensures ProcessedIds(Mark(rows, ids, now)) == ProcessedIds(rows) + (ids * IdsOf(rows))
  {
    var m := Mark(rows, ids, now);
    MarkEffect(rows, ids, now);
    forall x | x in ProcessedIds(m) ensures x in ProcessedIds(rows) + (ids * IdsOf(rows)) {
      var k :| 0 <= k < |m| && m[k].processed && m[k].id == x;
      assert rows[k] in rows;
    }
    forall x | x in ProcessedIds(rows) + (ids * IdsOf(rows)) ensures x in ProcessedIds(m) {
      var k :| 0 <= k < |rows| && rows[k].id == x && (rows[k].processed || x in ids);
      assert m[k] in m;
    }
  }

  /**
   * `mark_as_processed` on an existing id: exactly one record changes, and it
   * ends processed with `processed_at` set to the current time.
   */
  lemma MarkOne(t: Table, id: int, now: int)
    requires Valid(t) && id in IdsOf(t.rows)
    ensures var m := Mark(t.rows, {id}, now);
      exists k :: 0 <= k < |t.rows| && t.rows[k].id == id
        && m[k].processed && m[k].processedAt == Some(now)
        && m[k] == Processed(t.rows[k], now)
        && forall i :: 0 <= i < |t.rows| && i != k ==> m[i] == t.rows[i]
  {
    MarkEffect(t.rows, {id}, now);
    var k :| 0 <= k < |t.rows| && t.rows[k].id == id;
    var m := Mark(t.rows, {id}, now);
    forall i | 0 <= i < |t.rows| && i != k ensures m[i] == t.rows[i] {
      assert t.rows[i].id != id;
    }
  }

  /**
   * With unique ids the reported row count is the number of distinct listed
   * ids that exist in the table, counting ones already processed.
   */
  lemma {:induction false} RowCountCountsExistingIds(rows: seq<FileRecord>, ids: set<int>)
    requires IncreasingIds(rows)
    ensures RowCount(rows, ids) == |ids * IdsOf(rows)|
  {
    if rows == [] {
      assert ids * IdsOf(rows) == {};
    } else {
      IncreasingTail(rows);
      RowCountCountsExistingIds(rows[1..], ids);
      IdsOfCons(rows);
      assert rows[0].id !in IdsOf(rows[1..]);
      CountWithNewId(ids, rows[0].id, IdsOf(rows[1..]));
    }
  }

  lemma CountWithNewId(ids: set<int>, x: int, known: set<int>)
    requires x !in known
    ensures |ids * ({x} + known)| == (if x in ids then 1 else 0) + |ids * known|
  {
    var head := ids * {x};
    assert ids * ({x} + known) == head + ids * known;
    assert head !! ids * known;
    if x in ids {
      assert head == {x};
    } else {
      assert head == {};
    }
  }

  /** A single id is matched by the UPDATE exactly when some record has it. */
  lemma RowCountSingle(rows: seq<FileRecord>, id: int)
    requires IncreasingIds(rows)
    ensures RowCount(rows, {id}) == 0 <==> id !in IdsOf(rows)
  {
    RowCountCountsExistingIds(rows, {id});
    if id in IdsOf(rows) {
      assert id in {id} * IdsOf(rows);
    } else {
      assert {id} * IdsOf(rows) == {};
    }
  }

  /** `process_batch([a, b, unknown])` with `a`, `b` existing reports 2 and processes `a` and `b`. */
  lemma BatchExample(rows: seq<FileRecord>, a: int, b: int, unknown: int, now: int)
    requires IncreasingIds(rows)
    requires a != b && a in IdsOf(rows) && b in IdsOf(rows) && unknown !in IdsOf(rows)
    ensures RowCount(rows, BatchIds([a, b, unknown])) == 2
    ensures {a, b} <= ProcessedIds(Mark(rows, BatchIds([a, b, unknown]), now))
  {
    var s := BatchIds([a, b, unknown]);
    ExampleMatches(a, b, unknown, IdsOf(rows));
    RowCountCountsExistingIds(rows, s);
    MarkProcessedIds(rows, s, now);
  }

  lemma ExampleMatches(a: int, b: int, unknown: int, known: set<int>)
    requires a != b && a in known && b in known && unknown !in known
    ensures BatchIds([a, b, unknown]) * known == {a, b}
    ensures |{a, b}| == 2
  {
    assert BatchIds([a, b, unknown]) == {a, b, unknown};
  }

  /** An empty batch matches nothing and changes nothing. */
  lemma {:induction false} EmptyBatch(rows: seq<FileRecord>, now: int)
    ensures RowCount(rows, BatchIds([])) == 0
    ensures Mark(rows, BatchIds([]), now) == rows
  {
    assert BatchIds([]) == {};
    if rows != [] {
      EmptyBatch(rows[1..], now);
      assert rows == [rows[0]] + rows[1..];
    }
  }

  lemma {:induction false} SelectAppend(a: seq<FileRecord>, b: seq<FileRecord>, p: FileRecord -> bool)
    ensures Select(a + b, p) == Select(a, p) + Select(b, p)
  {
    if a == [] {
      assert a + b == b;
    } else {
      assert (a + b)[0] == a[0];
      assert (a + b)[1..] == a[1..] + b;
      SelectAppend(a[1..], b, p);
    }
  }

  lemma {:induction false} SelectIncreasing(rows: seq<FileRecord>, p: FileRecord -> bool)
    requires IncreasingIds(rows)
    ensures IncreasingIds(Select(rows, p))
  {
    if rows != [] {
      var rest := rows[1..];
      IncreasingTail(rows);
      SelectIncreasing(rest, p);
      var s := Select(rest, p);
      if p(rows[0]) {
        IncreasingCons(rows[0], s);
        assert Select(rows, p) == [rows[0]] + s;
      } else {
        assert Select(rows, p) == s;
      }
    }
  }

  /** Records of an id set are all dropped by `Without`. */
  lemma {:induction false} WithoutOwnIds(a: seq<FileRecord>)
    ensures Without(a, IdsOf(a)) == []
  {
    if a != [] {
      assert a[0] in a;
      assert IdsOf(a[1..]) <= IdsOf(a) by {
        forall x | x in IdsOf(a[1..]) ensures x in IdsOf(a) {
          var r :| r in a[1..] && r.id == x;
          assert r in a;
        }
      }
      WithoutOwnIds(a[1..]);
      WithoutSubset(a[1..], IdsOf(a[1..]), IdsOf(a));
    }
  }

  lemma {:induction false} WithoutSubset(a: seq<FileRecord>, small: set<int>, big: set<int>)
    requires Without(a, small) == [] && small <= big
    ensures Without(a, big) == []
  {
    if a != [] {
      assert !NotIn(small)(a[0]);
      WithoutSubset(a[1..], small, big);
    }
  }

  /** Ids disjoint from a sequence's own ids drop nothing from it. */
  lemma {:induction false} WithoutDisjoint(b: seq<FileRecord>, ids: set<int>)
    requires ids !! IdsOf(b)
    ensures Without(b, ids) == b
  {
    if b != [] {
      assert b[0] in b;
      assert IdsOf(b[1..]) <= IdsOf(b) by {
        forall x | x in IdsOf(b[1..]) ensures x in IdsOf(b) {
          var r :| r in b[1..] && r.id == x;
          assert r in b;
        }
      }
      WithoutDisjoint(b[1..], ids);
      assert b == [b[0]] + b[1..];
    }
  }

  /** After marking, the queue is the old queue minus the marked ids, in the same order. */
  lemma {:induction false} QueueAfterMark(rows: seq<FileRecord>, ids: set<int>, now: int)
    ensures Queue(Mark(rows, ids, now)) == Without(Queue(rows), ids)
  {
    if rows != [] {
      var m := Mark(rows, ids, now);
      QueueAfterMark(rows[1..], ids, now);
      assert m[0] == if rows[0].id in ids then Processed(rows[0], now) else rows[0];
      assert m[1..] == Mark(rows[1..], ids, now);
      var q := Queue(rows);
      var rest := Queue(rows[1..]);
      if Pending(rows[0]) {
        assert q == [rows[0]] + rest;
        SelectAppend([rows[0]], rest, NotIn(ids));
      } else {
        assert q == rest;
      }
    }
  }

  /**
   * The simulated worker takes the first `batch_size` records of the queue
   * (all of it for a negative size), and afterwards the queue is exactly the
   * rest of the old queue, in the same order.
   */
  lemma SimulateLeavesRest(rows: seq<FileRecord>, batchSize: int, now: int)
    requires IncreasingIds(rows)
    ensures Queue(Simulate(rows, batchSize, now)) == Queue(rows)[|Selection(rows, batchSize)|..]
  {
    var q := Queue(rows);
    var sel := Selection(rows, batchSize);
    var n := |sel|;
    assert sel == q[..n];
    QueueAfterMark(rows, IdsOf(sel), now);
    assert q == q[..n] + q[n..];
    SelectAppend(q[..n], q[n..], NotIn(IdsOf(sel)));
    WithoutOwnIds(q[..n]);
    SelectIncreasing(rows, Pending);
    assert IdsOf(sel) !! IdsOf(q[n..]);
    WithoutDisjoint(q[n..], IdsOf(sel));
  }

  /**
   * The simulated worker changes at most `batch_size` records, only records
   * that were pending (unprocessed, not directories), and each of them only
   * by marking it processed; every other record is unchanged.
   */
  lemma SimulateEffect(rows: seq<FileRecord>, batchSize: int, now: int)
    requires IncreasingIds(rows)
    ensures 0 <= batchSize ==> |Selection(rows, batchSize)| <= batchSize
    ensures forall i :: 0 <= i < |rows| ==>
      var sel := IdsOf(Selection(rows, batchSize));
      Simulate(rows, batchSize, now)[i] ==
        if rows[i].id in sel then Processed(rows[i], now) else rows[i]
    ensures forall i :: 0 <= i < |rows| && rows[i].id in IdsOf(Selection(rows, batchSize)) ==> Pending(rows[i])
  {
    var sel := Selection(rows, batchSize);
    MarkEffect(rows, IdsOf(sel), now);
    forall i | 0 <= i < |rows| && rows[i].id in IdsOf(sel) ensures Pending(rows[i]) {
      var r :| r in sel && r.id == rows[i].id;
      assert r in Queue(rows);
      var j :| 0 <= j < |rows| && rows[j] == r;
      assert i == j;
    }
  }

  /** Marking leaves every id where it was, so ids still increase. */
  lemma MarkKeepsIds(rows: seq<FileRecord>, ids: set<int>, now: int)
    requires IncreasingIds(rows)
    ensures IncreasingIds(Mark(rows, ids, now))
  {
    MarkEffect(rows, ids, now);
  }

  /**
   * Five pending records and a batch size of three: the first run leaves
   * exactly two pending, and a second run of three selects only those two
   * and empties the queue.
   */
  lemma SimulateTwiceExample(rows: seq<FileRecord>, now: int, later: int)
    requires IncreasingIds(rows) && |Queue(rows)| == 5
    ensures |Queue(Simulate(rows, 3, now))| == 2
    ensures |Selection(Simulate(rows, 3, now), 3)| == 2
    ensures Queue(Simulate(Simulate(rows, 3, now), 3, later)) == []
  {
    SimulateLeavesRest(rows, 3, now);
    var once := Simulate(rows, 3, now);
    MarkKeepsIds(rows, IdsOf(Selection(rows, 3)), now);
    SimulateLeavesRest(once, 3, later);
  }
}
