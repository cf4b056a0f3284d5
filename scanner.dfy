/**
 * The initial scan: a depth-first walk of the watched tree that ingests every
 * entry it meets. The tree is a snapshot given to the model; the order in
 * which the walk meets entries is `Visit`/`Listing`, and the table it leaves
 * is `IngestAll` over that order.
 */
module Scanner {
  import opened Wrappers
  import opened Store
  import Classifier

  /**
   * What `stat()` finds for an entry: its facts; nothing, because the entry
   * is gone or is not reachable (`is_dir()` answers false); or a
   * PermissionError, which `is_dir()` passes on to its caller.
   */
  datatype Probe = Found(facts: Stat) | Gone | Denied

  /**
   * An entry of the watched tree: its path, what `stat()` finds for it,
   * whether `iterdir()` on it succeeds (false when it raises
   * PermissionError), and its entries in the order `iterdir()` yields them.
   */
  datatype Tree = Node(entry: Entry, probe: Probe, readable: bool, children: seq<Tree>)

  /** The stat `insert_file_to_db` sees: any exception is caught there. */
  function StatOf(t: Tree): Option<Stat> {
    if t.probe.Found? then Some(t.probe.facts) else None
  }

  /**
   * `item.is_dir()` when it returns: the walk descends into exactly the
   * entries whose stat the classifier calls a directory.
   */
  predicate IsDir(t: Tree)
    ensures IsDir(t) <==> StatOf(t).Some? && Classifier.FileType(StatOf(t).value.isDir, t.entry.suffix) == Classifier.Directory
  {
    t.probe.Found? && t.probe.facts.isDir
  }

  /**
   * The entries `scan_recursive(d)` visits from the `i`-th entry of `d`'s
   * listing on: each entry, followed by what the walk visits inside it when
   * it is a directory. An unreadable directory yields nothing: `iterdir()`
   * raises before its first entry and the error is caught. An entry whose
   * `is_dir()` raises PermissionError is ingested and counted, and then the
   * error leaves the loop and is caught, so the rest of the listing is skipped.
   */
  function Listing(d: Tree, i: nat): (r: seq<Tree>)
    requires i <= |d.children|
    ensures !d.readable || i == |d.children| ==> r == []
    ensures d.readable && i < |d.children| ==> r != [] && r[0] == d.children[i]
    ensures forall x :: x in r ==> x < d
    decreases d, 0, |d.children| - i
  {
    if !d.readable || i == |d.children| then []
    else if d.children[i].probe.Denied? then [d.children[i]]
    else Visit(d.children[i]) + Listing(d, i + 1)
  }

  /** One entry of a listing, then the walk inside it if it is a directory. */
  function Visit(t: Tree): (r: seq<Tree>)
    ensures r != [] && r[0] == t
    ensures forall x :: x in r[1..] ==> x < t
    decreases t, 1
  {
    [t] + (if IsDir(t) then Listing(t, 0) else [])
  }

  /**
   * The table after ingesting `items` one after another: rows are only
   * appended, at most one per item, and the id counter never goes back.
   */
  function IngestAll(t: Table, items: seq<Tree>, now: int): (t': Table)
    ensures t.rows <= t'.rows && |t'.rows| <= |t.rows| + |items|
    ensures t.nextId <= t'.nextId
    decreases items
  {
    if items == [] then t
    else IngestAll(Insert(t, items[0].entry, StatOf(items[0]), now), items[1..], now)
  }

  lemma {:induction false} IngestAllAppend(t: Table, a: seq<Tree>, b: seq<Tree>, now: int)
    ensures IngestAll(t, a + b, now) == IngestAll(IngestAll(t, a, now), b, now)
    decreases a
  {
    if a != [] {
      assert (a + b)[0] == a[0] && (a + b)[1..] == a[1..] + b;
      IngestAllAppend(Insert(t, a[0].entry, StatOf(a[0]), now), a[1..], b, now);
    } else {
      assert a + b == b;
    }
  }

  /** Scanning keeps the table invariant. */
  lemma {:induction false} IngestAllValid(t: Table, items: seq<Tree>, now: int)
    requires Valid(t)
    ensures Valid(IngestAll(t, items, now))
    decreases items
  {
    if items != [] {
      InsertValid(t, items[0].entry, StatOf(items[0]), now);
      IngestAllValid(Insert(t, items[0].entry, StatOf(items[0]), now), items[1..], now);
    }
  }

  /**
   * After scanning, a path has a record exactly when it had one before or
   * the scan visited it and could stat it.
   */
  lemma {:induction false} IngestAllPaths(t: Table, items: seq<Tree>, now: int, p: string)
    ensures HasPath(IngestAll(t, items, now).rows, p) <==>
      HasPath(t.rows, p) || exists k :: 0 <= k < |items| && items[k].entry.path == p && StatOf(items[k]).Some?
    decreases items
  {
    if items != [] {
      var t' := Insert(t, items[0].entry, StatOf(items[0]), now);
      IngestAllPaths(t', items[1..], now, p);
      if exists k :: 0 <= k < |items| - 1 && items[1..][k].entry.path == p && StatOf(items[1..][k]).Some? {
        var k :| 0 <= k < |items| - 1 && items[1..][k].entry.path == p && StatOf(items[1..][k]).Some?;
        assert items[k + 1] == items[1..][k];
      }
      if exists k :: 0 <= k < |items| && items[k].entry.path == p && StatOf(items[k]).Some? {
        var k :| 0 <= k < |items| && items[k].entry.path == p && StatOf(items[k]).Some?;
        if k > 0 {
          assert items[1..][k - 1] == items[k];
        }
      }
    }
  }

  /** Ingesting entries that are all known already, or cannot be stat'ed, adds no row. */
  lemma {:induction false} IngestAllKnown(t: Table, items: seq<Tree>, now: int)
    requires forall k :: 0 <= k < |items| ==> StatOf(items[k]).None? || HasPath(t.rows, items[k].entry.path)
    ensures IngestAll(t, items, now).rows == t.rows
    decreases items
  {
    if items != [] {
      var t' := Insert(t, items[0].entry, StatOf(items[0]), now);
      if StatOf(items[0]).Some? {
        InsertExistingKeepsRows(t, items[0].entry, StatOf(items[0]), now);
      }
      assert forall k :: 0 <= k < |items| - 1 ==> items[1..][k] == items[k + 1];
      assert forall q :: HasPath(t.rows, q) ==> HasPath(t'.rows, q);
      IngestAllKnown(t', items[1..], now);
    }
  }

  /**
   * Scanning the same tree a second time, at any later time, leaves every row
   * exactly as the first scan left it.
   */
  lemma RescanKeepsRows(t: Table, items: seq<Tree>, now: int, later: int)
    ensures IngestAll(IngestAll(t, items, now), items, later).rows == IngestAll(t, items, now).rows
  {
    var t' := IngestAll(t, items, now);
    forall k | 0 <= k < |items| && StatOf(items[k]).Some?
      ensures HasPath(t'.rows, items[k].entry.path)
    {
      IngestAllPaths(t, items, now, items[k].entry.path);
    }
    IngestAllKnown(t', items, later);
  }

  /** Ingesting one entry is inserting it. */
  lemma IngestOne(t: Table, item: Tree, now: int)
    ensures IngestAll(t, [item], now) == Insert(t, item.entry, StatOf(item), now)
  {
    assert [item][1..] == [];
  }

  /** An entry's walk ingests the entry and then, for a directory, its listing. */
  lemma IngestVisit(t: Table, item: Tree, now: int)
    ensures IngestAll(t, Visit(item), now)
         == IngestAll(Insert(t, item.entry, StatOf(item), now), if IsDir(item) then Listing(item, 0) else [], now)
  {
    var v := Visit(item);
    assert v[0] == item;
    assert v[1..] == if IsDir(item) then Listing(item, 0) else [];
  }

  /**
   * One step of a directory's loop: once the entry is ingested and, for a
   * directory, walked, what remains is the rest of the listing.
   */
  lemma ScanAdvance(before: Table, mid: Table, d: Tree, i: nat, now: int)
    requires d.readable && i < |d.children| && !d.children[i].probe.Denied?
    requires mid == IngestAll(Insert(before, d.children[i].entry, StatOf(d.children[i]), now),
                              if IsDir(d.children[i]) then Listing(d.children[i], 0) else [], now)
    ensures IngestAll(mid, Listing(d, i + 1), now) == IngestAll(before, Listing(d, i), now)
    ensures |Listing(d, i)| == 1 + (if IsDir(d.children[i]) then |Listing(d.children[i], 0)| else 0) + |Listing(d, i + 1)|
  {
    var item := d.children[i];
    ListingStep(d, i);
    IngestAllAppend(before, Visit(item), Listing(d, i + 1), now);
    IngestVisit(before, item, now);
  }

  /** A listing stops after an entry whose `is_dir()` raises PermissionError. */
  lemma ListingDenied(d: Tree, i: nat)
    requires d.readable && i < |d.children| && d.children[i].probe.Denied?
    ensures Listing(d, i) == [d.children[i]]
  {
  }

  /** A readable directory's walk is each entry's walk in listing order, up to a denied entry. */
  lemma ListingStep(d: Tree, i: nat)
    requires d.readable && i < |d.children| && !d.children[i].probe.Denied?
    ensures Listing(d, i) == Visit(d.children[i]) + Listing(d, i + 1)
  {
  }
}
