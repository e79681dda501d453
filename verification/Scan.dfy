/** `scan_ticks` and `scan_orderbook_events`: the partitions of a date range, filtered by window
    and simulated clock, sorted on `(ts_utc, received_at, file offset, row index)`, and
    deduplicated when rows of two or more nodes remain.  Both scans run this one loop. */
module Scan {
  import opened Basics
  import opened Sorting
  import Lex
  import opened Dedup

  /** A day in microseconds. */
  const DAY := 86_400_000_000

  /** A Parquet file: its path, the node its path names, and its rows. */
  datatype File<K> = File(path: string, node: string, rows: seq<Row<K>>)
  /** Per UTC date, the partition's files in path order. */
  type Store<K> = map<int, seq<File<K>>>

  /** A row that passed the filter, with where it came from.  File offsets restart per date. */
  datatype Entry<K> = Entry(row: Row<K>, path: string, node: string, day: int, file: nat, index: nat)
  /** What the rest of the scan looks at. */
  datatype Seen<K> = Seen(row: Row<K>, path: string, node: string)

  datatype Query = Query(start: int, end: int, clock: Option<int>)

  predicate Visible<K>(r: Row<K>, clock: Option<int>) { clock.Some? ==> r.receivedAt <= clock.value }
  predicate Passes<K>(r: Row<K>, q: Query) { q.start <= r.ts < q.end && Visible(r, q.clock) }

  function ToSeen<K>(e: Entry<K>): Seen<K> { Seen(e.row, e.path, e.node) }

  predicate ByScanKey<K>(a: Entry<K>, b: Entry<K>) {
    || a.row.ts < b.row.ts
    || (a.row.ts == b.row.ts && a.row.receivedAt < b.row.receivedAt)
    || (Tied(a, b) && a.file < b.file)
    || (Tied(a, b) && a.file == b.file && a.index <= b.index)
  }

  predicate Tied<K>(a: Entry<K>, b: Entry<K>) { a.row.ts == b.row.ts && a.row.receivedAt == b.row.receivedAt }

  predicate BySeenKey<K>(a: Seen<K>, b: Seen<K>) {
    a.row.ts < b.row.ts || (a.row.ts == b.row.ts && a.row.receivedAt <= b.row.receivedAt)
  }

  // ---------------------------------------------------------------- collecting

  function FileEntries<K>(f: File<K>, day: int, n: nat, i: nat, q: Query): seq<Entry<K>>
    requires i <= |f.rows|
    decreases |f.rows| - i
  {
    if i == |f.rows| then []
    else
      (if Passes(f.rows[i], q) then [Entry(f.rows[i], f.path, f.node, day, n, i)] else [])
      + FileEntries(f, day, n, i + 1, q)
  }

  function DayEntries<K>(files: seq<File<K>>, day: int, n: nat, q: Query): seq<Entry<K>>
    requires n <= |files|
    decreases |files| - n
  {
    if n == |files| then [] else FileEntries(files[n], day, n, 0, q) + DayEntries(files, day, n + 1, q)
  }

  function Files<K>(s: Store<K>, day: int): seq<File<K>> { if day in s then s[day] else [] }

  function Entries<K>(s: Store<K>, day: int, last: int, q: Query): seq<Entry<K>>
    decreases last - day
  {
    if day > last then [] else DayEntries(Files(s, day), day, 0, q) + Entries(s, day + 1, last, q)
  }

  function AllEntries<K>(s: Store<K>, q: Query): seq<Entry<K>> {
    Entries(s, q.start / DAY, q.end / DAY, q)
  }

  /** The rows in the order the scan goes on with. */
  function Ordered<K>(s: Store<K>, q: Query): seq<Seen<K>> {
    Map(ToSeen, StableSort(ByScanKey, AllEntries(s, q)))
  }

  // ---------------------------------------------------------------- dedup on top

  predicate MultiNode<K>(seen: seq<Seen<K>>) {
    exists i, j :: 0 <= i < j < |seen| && seen[i].node != seen[j].node
  }

  function Plain<K>(r: Row<K>): Row<K> { r.(nodeId := None) }
  function Wrap<K>(e: Seen<K>): Row<K> { e.row.(nodeId := Some(e.node)) }
  function Unwrap<K>(e: Seen<K>): Row<K> { Plain(e.row) }

  function Deduped<K(==,!new)>(seen: seq<Seen<K>>): seq<Row<K>> {
    if MultiNode(seen) then Map(Plain, Emitted(Map(Wrap, seen))) else Map(Unwrap, seen)
  }

  function ScanRows<K(==,!new)>(s: Store<K>, q: Query): seq<Row<K>> { Deduped(Ordered(s, q)) }

  /** `scan_ticks` / `scan_orderbook_events`. */
  method ScanStore<K(==,!new)>(s: Store<K>, q: Query, clock: nat -> int) returns (rows: seq<Row<K>>)
    ensures rows == ScanRows(s, q)
  {
    var entries: seq<Entry<K>> := [];
    var day := q.start / DAY;
    var last := q.end / DAY;
    ghost var all := AllEntries(s, q);
    while day <= last
      invariant all == entries + Entries(s, day, last, q)
      decreases last - day
    {
      var found := ScanDay(Files(s, day), day, q);
      entries := entries + found;
      day := day + 1;
    }
    assert entries == all;
    var seen := Map(ToSeen, StableSort(ByScanKey, entries));
    if !MultiNode(seen) {
      return Map(Unwrap, seen);
    }
    var emitted, _, _, _ := DeduplicateByKey(Map(Wrap, seen), true, clock);
    rows := Map(Plain, emitted);
  }

  /** The row loop over one file. */
  method ScanFile<K>(f: File<K>, day: int, n: nat, q: Query) returns (entries: seq<Entry<K>>)
    ensures entries == FileEntries(f, day, n, 0, q)
  {
    entries := [];
    for i := 0 to |f.rows|
      invariant FileEntries(f, day, n, 0, q) == entries + FileEntries(f, day, n, i, q)
    {
      if Passes(f.rows[i], q) {
        entries := entries + [Entry(f.rows[i], f.path, f.node, day, n, i)];
      }
    }
  }

  /** The file loop over one partition. */
  method ScanDay<K>(files: seq<File<K>>, day: int, q: Query) returns (entries: seq<Entry<K>>)
    ensures entries == DayEntries(files, day, 0, q)
  {
    entries := [];
    for n := 0 to |files|
      invariant DayEntries(files, day, 0, q) == entries + DayEntries(files, day, n, q)
    {
      var found := ScanFile(files[n], day, n, q);
      entries := entries + found;
    }
  }

  // ---------------------------------------------------------------- output is in time order

  lemma ByScanKeyIsPreorder<K(!new)>()
    ensures TotalPreorder<Entry<K>>(ByScanKey)
  {
  }

  lemma OrderedByTime<K(!new)>(s: Store<K>, q: Query)
    ensures forall i, j :: 0 <= i < j < |Ordered(s, q)| ==> Ordered(s, q)[i].row.ts <= Ordered(s, q)[j].row.ts
  {
    ByScanKeyIsPreorder<K>();
    SortSorts(ByScanKey, AllEntries(s, q));
  }

  /** Whichever branch is taken, the scan yields rows in `ts_utc` order. */
  lemma ScanSorted<K(!new)>(s: Store<K>, q: Query)
    ensures forall i, j :: 0 <= i < j < |ScanRows(s, q)| ==> ScanRows(s, q)[i].ts <= ScanRows(s, q)[j].ts
  {
    OrderedByTime(s, q);
    var seen := Ordered(s, q);
    if MultiNode(seen) { EmittedOnce(Map(Wrap, seen)); }
  }

  // ---------------------------------------------------------------- no lookahead

  /** Everything in a partition that the clock lets through, in file order. */
  function VisibleRows<K>(files: seq<File<K>>, clock: Option<int>): seq<Seen<K>> {
    if files == [] then [] else VisibleIn(files[0], 0, clock) + VisibleRows(files[1..], clock)
  }

  function VisibleIn<K>(f: File<K>, i: nat, clock: Option<int>): seq<Seen<K>>
    requires i <= |f.rows|
    decreases |f.rows| - i
  {
    if i == |f.rows| then []
    else
      (if Visible(f.rows[i], clock) then [Seen(f.rows[i], f.path, f.node)] else []) + VisibleIn(f, i + 1, clock)
  }

  /** Two stores that a reader at `clock` cannot tell apart: in each date the visible rows, with
      their files' paths and nodes, are the same in the same order.  Rows received later may be
      added, dropped or altered, and files without visible rows may come and go. */
  ghost predicate Indistinguishable<K>(s: Store<K>, t: Store<K>, clock: Option<int>) {
    forall day :: VisibleRows(Files(s, day), clock) == VisibleRows(Files(t, day), clock)
  }

  function Within<K>(q: Query): Seen<K> -> bool { (e: Seen<K>) => q.start <= e.row.ts < q.end }

  lemma {:induction false} FileSeen<K>(f: File<K>, day: int, n: nat, i: nat, q: Query)
    requires i <= |f.rows|
    ensures Map(ToSeen, FileEntries(f, day, n, i, q)) == Filter(Within(q), VisibleIn(f, i, q.clock))
    decreases |f.rows| - i
  {
    if i < |f.rows| {
      FileSeen(f, day, n, i + 1, q);
      var rest := VisibleIn(f, i + 1, q.clock);
      var e := Seen(f.rows[i], f.path, f.node);
      assert ([e] + rest)[1..] == rest;
      assert [] + rest == rest;
    }
  }

  lemma {:induction false} DaySeen<K>(files: seq<File<K>>, day: int, n: nat, q: Query)
    requires n <= |files|
    ensures Map(ToSeen, DayEntries(files, day, n, q)) == Filter(Within(q), VisibleRows(files[n..], q.clock))
    decreases |files| - n
  {
    if n < |files| {
      FileSeen(files[n], day, n, 0, q);
      DaySeen(files, day, n + 1, q);
      assert files[n..][1..] == files[n + 1..];
      MapConcat(ToSeen, FileEntries(files[n], day, n, 0, q), DayEntries(files, day, n + 1, q));
      FilterConcat(Within(q), VisibleIn(files[n], 0, q.clock), VisibleRows(files[n + 1..], q.clock));
    }
  }

  /** Before sorting, indistinguishable stores yield the same rows. */
  lemma {:induction false} SameEntries<K>(s: Store<K>, t: Store<K>, day: int, last: int, q: Query)
    requires Indistinguishable(s, t, q.clock)
    ensures Map(ToSeen, Entries(s, day, last, q)) == Map(ToSeen, Entries(t, day, last, q))
    decreases last - day
  {
    if day <= last {
      SameEntries(s, t, day + 1, last, q);
      DaySeen(Files(s, day), day, 0, q);
      DaySeen(Files(t, day), day, 0, q);
      assert Files(s, day)[0..] == Files(s, day) && Files(t, day)[0..] == Files(t, day);
      assert VisibleRows(Files(s, day), q.clock) == VisibleRows(Files(t, day), q.clock);
      MapConcat(ToSeen, DayEntries(Files(s, day), day, 0, q), Entries(s, day + 1, last, q));
      MapConcat(ToSeen, DayEntries(Files(t, day), day, 0, q), Entries(t, day + 1, last, q));
    }
  }

  /** Where an entry comes from. */
  ghost predicate FromDay<K>(e: Entry<K>, files: seq<File<K>>, day: int, q: Query) {
    && e.day == day && e.file < |files| && e.index < |files[e.file].rows|
    && e.row == files[e.file].rows[e.index] && e.path == files[e.file].path && e.node == files[e.file].node
    && Passes(e.row, q)
  }

  lemma {:induction false} FileEntry<K>(f: File<K>, day: int, n: nat, i: nat, q: Query, e: Entry<K>)
    requires i <= |f.rows|
    ensures e in FileEntries(f, day, n, i, q) <==>
            && e.day == day && e.file == n && i <= e.index < |f.rows|
            && e.row == f.rows[e.index] && e.path == f.path && e.node == f.node && Passes(e.row, q)
    decreases |f.rows| - i
  {
    if i < |f.rows| { FileEntry(f, day, n, i + 1, q, e); }
  }

  lemma {:induction false} DayEntry<K>(files: seq<File<K>>, day: int, n: nat, q: Query, e: Entry<K>)
    requires n <= |files|
    ensures e in DayEntries(files, day, n, q) <==> FromDay(e, files, day, q) && n <= e.file
    decreases |files| - n
  {
    if n < |files| {
      FileEntry(files[n], day, n, 0, q, e);
      DayEntry(files, day, n + 1, q, e);
    }
  }

  lemma {:induction false} StoreEntry<K>(s: Store<K>, day: int, last: int, q: Query, e: Entry<K>)
    ensures e in Entries(s, day, last, q) <==> day <= e.day <= last && FromDay(e, Files(s, e.day), e.day, q)
    decreases last - day
  {
    if day <= last {
      DayEntry(Files(s, day), day, 0, q, e);
      StoreEntry(s, day + 1, last, q, e);
    }
  }

  predicate InFile<K(==)>(e: Entry<K>, f: File<K>, q: Query) {
    && e.index < |f.rows| && e.row == f.rows[e.index] && e.path == f.path && e.node == f.node && Passes(e.row, q)
  }

  lemma EntryInFile<K(!new)>(t: Store<K>, q: Query, e: Entry<K>)
    requires e.day in t && e.file < |t[e.day]|
    ensures e in AllEntries(t, q) <==> q.start / DAY <= e.day <= q.end / DAY && InFile(e, t[e.day][e.file], q)
  {
    StoreEntry(t, q.start / DAY, q.end / DAY, q, e);
  }

  /** Collected order: by date, then file, then row. */
  predicate Before<K>(a: Entry<K>, b: Entry<K>) {
    a.day < b.day || (a.day == b.day && (a.file < b.file || (a.file == b.file && a.index < b.index)))
  }

  lemma {:induction false} FileInOrder<K(!new)>(f: File<K>, day: int, n: nat, i: nat, q: Query)
    requires i <= |f.rows|
    ensures SortedBy(Before, FileEntries(f, day, n, i, q))
    decreases |f.rows| - i
  {
    if i < |f.rows| {
      FileInOrder(f, day, n, i + 1, q);
      var rest := FileEntries(f, day, n, i + 1, q);
      forall k | 0 <= k < |rest| ensures rest[k].day == day && rest[k].file == n && rest[k].index > i {
        FileEntry(f, day, n, i + 1, q, rest[k]);
      }
    }
  }

  lemma {:induction false} DayInOrder<K(!new)>(files: seq<File<K>>, day: int, n: nat, q: Query)
    requires n <= |files|
    ensures SortedBy(Before, DayEntries(files, day, n, q))
    decreases |files| - n
  {
    if n < |files| {
      FileInOrder(files[n], day, n, 0, q);
      DayInOrder(files, day, n + 1, q);
      var a, b := FileEntries(files[n], day, n, 0, q), DayEntries(files, day, n + 1, q);
      forall i, j | 0 <= i < |a| && 0 <= j < |b| ensures Before(a[i], b[j]) {
        FileEntry(files[n], day, n, 0, q, a[i]);
        DayEntry(files, day, n + 1, q, b[j]);
      }
    }
  }

  lemma {:induction false} InOrder<K(!new)>(s: Store<K>, day: int, last: int, q: Query)
    ensures SortedBy(Before, Entries(s, day, last, q))
    decreases last - day
  {
    if day <= last {
      DayInOrder(Files(s, day), day, 0, q);
      InOrder(s, day + 1, last, q);
      var a, b := DayEntries(Files(s, day), day, 0, q), Entries(s, day + 1, last, q);
      forall i, j | 0 <= i < |a| && 0 <= j < |b| ensures Before(a[i], b[j]) {
        DayEntry(Files(s, day), day, 0, q, a[i]);
        StoreEntry(s, day + 1, last, q, b[j]);
      }
    }
  }

  /** No two visible rows of different date partitions agree on `ts_utc` and `received_at`.
      File offsets restart with each partition, so such a tie would be broken by how many files,
      visible or not, each partition happens to hold. */
  ghost predicate NoCrossTie<K(!new)>(s: Store<K>, q: Query) {
    forall a, b :: a in AllEntries(s, q) && b in AllEntries(s, q) && a.day != b.day ==> !Tied(a, b)
  }

  /** Without such ties the scan order is a function of what is visible. */
  lemma OrderFromVisible<K(!new)>(s: Store<K>, q: Query)
    requires NoCrossTie(s, q)
    ensures Ordered(s, q) == StableSort(BySeenKey, Map(ToSeen, AllEntries(s, q)))
  {
    var es := AllEntries(s, q);
    InOrder(s, q.start / DAY, q.end / DAY, q);
    forall i, j | 0 <= i < j < |es| ensures ByScanKey(es[i], es[j]) == BySeenKey(ToSeen(es[i]), ToSeen(es[j])) {
      assert Before(es[i], es[j]);
      assert es[i] in es && es[j] in es;
    }
    SortProject(ToSeen, ByScanKey, BySeenKey, es);
  }

  lemma TiesAreVisible<K(!new)>(s: Store<K>, t: Store<K>, q: Query)
    requires Indistinguishable(s, t, q.clock) && NoCrossTie(s, q)
    ensures NoCrossTie(t, q)
  {
    forall a, b | a in AllEntries(t, q) && b in AllEntries(t, q) && a.day != b.day ensures !Tied(a, b) {
      var a' := Twin(t, s, q, a);
      var b' := Twin(t, s, q, b);
      assert a'.day != b'.day && !Tied(a', b');
    }
  }

  /** An entry's row is also collected, under the same date, from an indistinguishable store. */
  lemma Twin<K(!new)>(s: Store<K>, t: Store<K>, q: Query, e: Entry<K>) returns (e': Entry<K>)
    requires forall day :: VisibleRows(Files(s, day), q.clock) == VisibleRows(Files(t, day), q.clock)
    requires e in AllEntries(s, q)
    ensures e' in AllEntries(t, q) && ToSeen(e') == ToSeen(e) && e'.row == e.row && e'.day == e.day
  {
    var first, last := q.start / DAY, q.end / DAY;
    StoreEntry(s, first, last, q, e);
    var mine, theirs := Files(s, e.day), Files(t, e.day);
    DayEntry(mine, e.day, 0, q, e);
    DaySeen(mine, e.day, 0, q);
    DaySeen(theirs, e.day, 0, q);
    assert mine[0..] == mine && theirs[0..] == theirs;
    assert VisibleRows(mine, q.clock) == VisibleRows(theirs, q.clock);
    var xs, ys := DayEntries(mine, e.day, 0, q), DayEntries(theirs, e.day, 0, q);
    var i :| 0 <= i < |xs| && xs[i] == e;
    assert Map(ToSeen, xs)[i] == Map(ToSeen, ys)[i];
    e' := ys[i];
    DayEntry(theirs, e.day, 0, q, e');
    StoreEntry(t, first, last, q, e');
  }

  /** Lookahead safety of the scan: without cross-partition ties, rows received after the clock
      never change what it yields, whatever is added, dropped or altered. */
  lemma ScanNoLookahead<K(!new)>(s: Store<K>, t: Store<K>, q: Query)
    requires Indistinguishable(s, t, q.clock) && NoCrossTie(s, q)
    ensures Ordered(s, q) == Ordered(t, q)
    ensures ScanRows(s, q) == ScanRows(t, q)
  {
    TiesAreVisible(s, t, q);
    OrderFromVisible(s, q);
    OrderFromVisible(t, q);
    SameEntries(s, t, q.start / DAY, q.end / DAY, q);
  }

  /** No row is filed under a later date than its own.  A writer that files a buffer under its
      first row's date keeps this on a time-ordered stream. */
  ghost predicate NotFiledLate<K>(s: Store<K>) {
    forall d, i, j :: d in s && 0 <= i < |s[d]| && 0 <= j < |s[d][i].rows| ==> d <= s[d][i].rows[j].ts / DAY
  }

  /** The query of one UTC day, which reads that date's partition and the next. */
  ghost predicate OneDay(q: Query) { q.start == q.start / DAY * DAY && q.end == q.start + DAY }

  lemma OwnPartition<K(!new)>(s: Store<K>, q: Query, e: Entry<K>)
    requires NotFiledLate(s) && OneDay(q) && e in AllEntries(s, q)
    ensures e.day == q.start / DAY
  {
    StoreEntry(s, q.start / DAY, q.end / DAY, q, e);
    assert e.day <= e.row.ts / DAY <= q.start / DAY;
  }

  /** Within one UTC day such rows all come from the day's own partition, so none tie across. */
  lemma DayRowsDoNotTie<K(!new)>(s: Store<K>, q: Query)
    requires NotFiledLate(s) && OneDay(q)
    ensures NoCrossTie(s, q)
  {
    forall e | e in AllEntries(s, q) ensures e.day == q.start / DAY { OwnPartition(s, q, e); }
  }

  // ---------------------------------------------------------------- exactness

  /** The directories of some date partitions: their dates are written with equal length. */
  ghost predicate Directories(dir: int -> string, days: set<int>) {
    forall d, e :: d in days && e in days && d != e ==> |dir(d)| == |dir(e)| && dir(d) != dir(e)
  }

  /** What directories can hold: each partition lists distinct paths below its own, in order. */
  ghost predicate Listed<K>(s: Store<K>, dir: int -> string) {
    && (forall d, i :: d in s && 0 <= i < |s[d]| ==> dir(d) <= s[d][i].path)
    && (forall d, i, j :: d in s && 0 <= i < j < |s[d]| ==> Lex.Lt(s[d][i].path, s[d][j].path))
  }

  /** Names start with a letter, a digit or another character above `!`. */
  ghost predicate NamedIn<K>(files: seq<File<K>>, dir: string) {
    forall i :: 0 <= i < |files| ==> |files[i].path| > |dir| && files[i].path[|dir|] > '!'
  }

  ghost predicate Named<K>(s: Store<K>, dir: int -> string) {
    forall d :: d in s ==> NamedIn(s[d], dir(d))
  }

  /** A date's directory is part of its files' paths. */
  ghost predicate PathsNameDays<K>(s: Store<K>) {
    forall d, e, i, j :: d in s && e in s && d != e && 0 <= i < |s[d]| && 0 <= j < |s[e]| ==>
      s[d][i].path != s[e][j].path
  }

  lemma DirectoriesNameDays<K>(s: Store<K>, dir: int -> string)
    requires Directories(dir, s.Keys) && Listed(s, dir)
    ensures PathsNameDays(s)
  {
    forall d, e, i, j | d in s && e in s && d != e && 0 <= i < |s[d]| && 0 <= j < |s[e]|
      ensures s[d][i].path != s[e][j].path
    {
      var x, y := s[d][i].path, s[e][j].path;
      assert x[..|dir(d)|] == dir(d) && y[..|dir(e)|] == dir(e);
    }
  }

  function Zeros(k: nat): string { if k == 0 then ".parquet" else ['0'] + Zeros(k - 1) }

  /** `n` files without rows, named so that they sort before everything else of the partition. */
  function Empties<K>(dir: string, n: nat): (files: seq<File<K>>)
    ensures |files| == n
    ensures forall i :: 0 <= i < n ==> files[i] == File(dir + (['!'] + Zeros(i)), "", [])
  {
    if n == 0 then [] else Empties(dir, n - 1) + [File(dir + (['!'] + Zeros(n - 1)), "", [])]
  }

  function Pad<K>(s: Store<K>, dir: int -> string, day: int, n: nat): Store<K> {
    s[day := Empties(dir(day), n) + Files(s, day)]
  }

  lemma {:induction false} ZerosSorted(i: nat, j: nat)
    requires i < j
    ensures Lex.Lt(Zeros(i), Zeros(j))
  {
    if i > 0 {
      ZerosSorted(i - 1, j - 1);
      assert Zeros(i)[1..] == Zeros(i - 1) && Zeros(j)[1..] == Zeros(j - 1);
    }
  }

  lemma EmptyBeforeEmpty(dir: string, i: nat, j: nat)
    requires i < j
    ensures Lex.Lt(dir + (['!'] + Zeros(i)), dir + (['!'] + Zeros(j)))
  {
    ZerosSorted(i, j);
    Lex.LtBelow(['!'], Zeros(i), Zeros(j));
    Lex.LtBelow(dir, ['!'] + Zeros(i), ['!'] + Zeros(j));
  }

  lemma EmptyBeforeNamed(dir: string, i: nat, path: string)
    requires dir <= path && |path| > |dir| && path[|dir|] > '!'
    ensures Lex.Lt(dir + (['!'] + Zeros(i)), path)
  {
    var name := path[|dir|..];
    assert path == dir + name;
    Lex.LtBelow(dir, ['!'] + Zeros(i), name);
  }

  lemma PadListed<K>(s: Store<K>, dir: int -> string, day: int, n: nat)
    requires Listed(s, dir) && NamedIn(Files(s, day), dir(day))
    ensures Listed(Pad(s, dir, day, n), dir)
  {
    var files := Empties<K>(dir(day), n) + Files(s, day);
    forall i, j | 0 <= i < j < |files| ensures Lex.Lt(files[i].path, files[j].path) {
      if j < n {
        EmptyBeforeEmpty(dir(day), i, j);
      } else if i < n {
        EmptyBeforeNamed(dir(day), i, Files(s, day)[j - n].path);
      }
    }
  }

  lemma {:induction false} EmptiesInvisible<K>(pads: seq<File<K>>, files: seq<File<K>>, clock: Option<int>)
    requires forall i :: 0 <= i < |pads| ==> pads[i].rows == []
    ensures VisibleRows(pads + files, clock) == VisibleRows(files, clock)
  {
    if pads == [] {
      assert pads + files == files;
    } else {
      EmptiesInvisible(pads[1..], files, clock);
      assert (pads + files)[1..] == pads[1..] + files;
      assert VisibleIn(pads[0], 0, clock) == [];
      assert [] + VisibleRows(pads[1..] + files, clock) == VisibleRows(pads[1..] + files, clock);
    }
  }

  lemma PadIndistinguishable<K>(s: Store<K>, dir: int -> string, day: int, n: nat, clock: Option<int>)
    ensures Indistinguishable(s, Pad(s, dir, day, n), clock)
  {
    EmptiesInvisible(Empties<K>(dir(day), n), Files(s, day), clock);
  }

  /** An entry of a padded store, where it was before. */
  function Unshift<K>(e: Entry<K>, day: int, n: nat): Entry<K> {
    if e.day == day && e.file >= n then e.(file := e.file - n) else e
  }

  /** Padding a date shifts the file offsets of its rows and of no others. */
  lemma PadShifts<K(!new)>(s: Store<K>, dir: int -> string, day: int, n: nat, q: Query, e: Entry<K>)
    requires e in AllEntries(Pad(s, dir, day, n), q)
    ensures Unshift(e, day, n) in AllEntries(s, q) && (e.day == day ==> n <= e.file)
    ensures e.day == day ==> e.file < n + |Files(s, day)|
    ensures e.day != day ==> e.file < |Files(s, e.day)|
  {
    var t := Pad(s, dir, day, n);
    StoreEntry(t, q.start / DAY, q.end / DAY, q, e);
    if e.day == day {
      PaddedFile(s, dir, day, n, e.file);
      EntryInFile(t, q, e);
      EntryInFile(s, q, Unshift(e, day, n));
    } else {
      StoreEntry(s, q.start / DAY, q.end / DAY, q, e);
    }
  }

  lemma PaddedFile<K>(s: Store<K>, dir: int -> string, day: int, n: nat, k: nat)
    requires k < |Pad(s, dir, day, n)[day]|
    ensures if k < n then Pad(s, dir, day, n)[day][k].rows == []
            else day in s && k - n < |s[day]| && Pad(s, dir, day, n)[day][k] == s[day][k - n]
  {
  }

  /** Of two tied rows of different dates the unpadded one comes first. */
  lemma PaddedComesLater<K(!new)>(s: Store<K>, dir: int -> string, q: Query, a: Entry<K>, b: Entry<K>)
    returns (p: nat, r: nat)
    requires a in AllEntries(s, q) && b in AllEntries(s, q) && a.day != b.day && Tied(a, b)
    ensures var t := Pad(s, dir, a.day, |Files(s, b.day)|);
            && p < r < |Ordered(t, q)| && Ordered(t, q)[p] == ToSeen(b) && Ordered(t, q)[r] == ToSeen(a)
  {
    var n := |Files(s, b.day)|;
    var t := Pad(s, dir, a.day, n);
    PadIndistinguishable(s, dir, a.day, n, q.clock);
    var a' := Twin(s, t, q, a);
    var b' := Twin(s, t, q, b);
    PadShifts(s, dir, a.day, n, q, a');
    PadShifts(s, dir, a.day, n, q, b');
    p, r := Places(t, q, b', a');
  }

  /** Where two entries stand that the sort cannot put the other way round. */
  lemma Places<K(!new)>(t: Store<K>, q: Query, first: Entry<K>, second: Entry<K>) returns (p: nat, r: nat)
    requires first in AllEntries(t, q) && second in AllEntries(t, q) && !ByScanKey(second, first)
    ensures p < r < |Ordered(t, q)| && Ordered(t, q)[p] == ToSeen(first) && Ordered(t, q)[r] == ToSeen(second)
  {
    var sorted := StableSort(ByScanKey, AllEntries(t, q));
    ByScanKeyIsPreorder<K>();
    SortSorts(ByScanKey, AllEntries(t, q));
    SameElements(sorted, AllEntries(t, q), first);
    SameElements(sorted, AllEntries(t, q), second);
    p :| p < |sorted| && sorted[p] == first;
    r :| r < |sorted| && sorted[r] == second;
    SortedPlaces(ByScanKey, sorted, p, r);
  }

  /** The entries behind two places of a scan. */
  lemma Behind<K(!new)>(t: Store<K>, q: Query, p: nat, r: nat) returns (x: Entry<K>, y: Entry<K>)
    requires p < r < |Ordered(t, q)|
    ensures x in AllEntries(t, q) && y in AllEntries(t, q) && ByScanKey(x, y)
    ensures ToSeen(x) == Ordered(t, q)[p] && ToSeen(y) == Ordered(t, q)[r]
  {
    var sorted := StableSort(ByScanKey, AllEntries(t, q));
    ByScanKeyIsPreorder<K>();
    SortSorts(ByScanKey, AllEntries(t, q));
    x, y := sorted[p], sorted[r];
    SameElements(sorted, AllEntries(t, q), x);
    SameElements(sorted, AllEntries(t, q), y);
  }

  /** With a date padded by as many files as another has, none of its rows precedes a tied row
      of the other. */
  lemma PaddedNeverEarlier<K(!new)>(s: Store<K>, dir: int -> string, q: Query, day: int, other: int,
                                    x: Entry<K>, y: Entry<K>)
    requires day != other && x.day == day && y.day == other && Tied(x, y)
    requires var t := Pad(s, dir, day, |Files(s, other)|); x in AllEntries(t, q) && y in AllEntries(t, q)
    ensures !ByScanKey(x, y)
  {
    PadShifts(s, dir, day, |Files(s, other)|, q, x);
    PadShifts(s, dir, day, |Files(s, other)|, q, y);
  }

  /** A row's path tells its date, padded or not. */
  lemma PathTellsDay<K(!new)>(s: Store<K>, dir: int -> string, q: Query, day: int, n: nat, e: Entry<K>, a: Entry<K>)
    requires PathsNameDays(s) && e in AllEntries(Pad(s, dir, day, n), q) && a in AllEntries(s, q)
    requires e.path == a.path
    ensures e.day == a.day
  {
    PadShifts(s, dir, day, n, q, e);
    StoreEntry(s, q.start / DAY, q.end / DAY, q, a);
    StoreEntry(s, q.start / DAY, q.end / DAY, q, Unshift(e, day, n));
  }

  lemma TieBreaksOrder<K(!new)>(s: Store<K>, dir: int -> string, q: Query, a: Entry<K>, b: Entry<K>)
    requires PathsNameDays(s)
    requires a in AllEntries(s, q) && b in AllEntries(s, q) && a.day != b.day && Tied(a, b)
    ensures Ordered(Pad(s, dir, a.day, |Files(s, b.day)|), q) != Ordered(Pad(s, dir, b.day, |Files(s, a.day)|), q)
  {
    var t, u := Pad(s, dir, a.day, |Files(s, b.day)|), Pad(s, dir, b.day, |Files(s, a.day)|);
    var p, r := PaddedComesLater(s, dir, q, a, b);
    if Ordered(t, q) == Ordered(u, q) {
      var x, y := Behind(u, q, p, r);
      PathTellsDay(s, dir, q, b.day, |Files(s, a.day)|, x, b);
      PathTellsDay(s, dir, q, b.day, |Files(s, a.day)|, y, a);
      PaddedNeverEarlier(s, dir, q, b.day, a.day, x, y);
    }
  }

  /** The exact condition: the scan order is beyond the reach of rows the clock hides if and
      only if no two visible rows of different date partitions tie. */
  lemma LookaheadExactly<K(!new)>(s: Store<K>, dir: int -> string, q: Query)
    requires Directories(dir, s.Keys) && Listed(s, dir) && Named(s, dir)
    ensures (forall t: Store<K> :: Listed(t, dir) && Indistinguishable(s, t, q.clock) ==>
               Ordered(t, q) == Ordered(s, q))
            <==> NoCrossTie(s, q)
  {
    if NoCrossTie(s, q) {
      forall t: Store<K> | Listed(t, dir) && Indistinguishable(s, t, q.clock) ensures Ordered(t, q) == Ordered(s, q) {
        ScanNoLookahead(s, t, q);
      }
    } else {
      var a, b :| a in AllEntries(s, q) && b in AllEntries(s, q) && a.day != b.day && Tied(a, b);
      DirectoriesNameDays(s, dir);
      TieBreaksOrder(s, dir, q, a, b);
      BothPads(s, dir, q, a.day, b.day);
    }
  }

  lemma BothPads<K(!new)>(s: Store<K>, dir: int -> string, q: Query, d: int, e: int)
    requires Listed(s, dir) && Named(s, dir)
    ensures var t := Pad(s, dir, d, |Files(s, e)|); Listed(t, dir) && Indistinguishable(s, t, q.clock)
    ensures var u := Pad(s, dir, e, |Files(s, d)|); Listed(u, dir) && Indistinguishable(s, u, q.clock)
  {
    PadListed(s, dir, d, |Files(s, e)|);
    PadListed(s, dir, e, |Files(s, d)|);
    PadIndistinguishable(s, dir, d, |Files(s, e)|, q.clock);
    PadIndistinguishable(s, dir, e, |Files(s, d)|, q.clock);
  }
}
