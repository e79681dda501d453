/** When the rows a scan yields are out of the reach of rows the clock hides, for the day of one
    node: exactly when rows of the two partitions that tie are equal. */
module RowLookahead {
  import opened Basics
  import opened Sorting
  import opened Dedup
  import opened Scan

  /** Visible rows of different partitions that tie are equal. */
  ghost predicate CrossTiesAgree<K(!new)>(s: Store<K>, q: Query) {
    forall a, b :: a in AllEntries(s, q) && b in AllEntries(s, q) && a.day != b.day && Tied(a, b) ==>
      Plain(a.row) == Plain(b.row)
  }

  ghost predicate OneNode<K(!new)>(s: Store<K>, q: Query) {
    forall a, b :: a in AllEntries(s, q) && b in AllEntries(s, q) ==> a.node == b.node
  }

  predicate ByRowKey<K>(a: Row<K>, b: Row<K>) {
    a.ts < b.ts || (a.ts == b.ts && a.receivedAt <= b.receivedAt)
  }

  lemma ByRowKeyIsPreorder<K(!new)>()
    ensures TotalPreorder<Row<K>>(ByRowKey)
  {
  }

  function PlainRow<K>(e: Entry<K>): Row<K> { Plain(e.row) }

  // ---------------------------------------------------------------- what a scan yields

  /** A scan of one node's rows yields them in order, without dedup. */
  lemma PlainScan<K(!new)>(s: Store<K>, q: Query)
    requires OneNode(s, q)
    ensures ScanRows(s, q) == Map(PlainRow, StableSort(ByScanKey, AllEntries(s, q)))
  {
    var sorted, seen := StableSort(ByScanKey, AllEntries(s, q)), Ordered(s, q);
    forall i, j | 0 <= i < j < |seen| ensures seen[i].node == seen[j].node {
      SameElements(sorted, AllEntries(s, q), sorted[i]);
      SameElements(sorted, AllEntries(s, q), sorted[j]);
    }
    assert !MultiNode(seen);
    assert Map(Unwrap, seen) == Map(PlainRow, sorted);
  }

  lemma SameNode<K(!new)>(s: Store<K>, t: Store<K>, q: Query)
    requires Indistinguishable(s, t, q.clock) && OneNode(s, q)
    ensures OneNode(t, q)
  {
    forall a, b | a in AllEntries(t, q) && b in AllEntries(t, q) ensures a.node == b.node {
      var a' := Twin(t, s, q, a);
      var b' := Twin(t, s, q, b);
    }
  }

  // ---------------------------------------------------------------- sufficiency

  /** Where rows that tie across partitions are equal, the scan is the stable sort of the visible
      rows by time and receipt: within a partition file order is kept, across it does not show. */
  lemma RowsFromVisible<K(!new)>(s: Store<K>, q: Query)
    requires CrossTiesAgree(s, q)
    ensures Map(PlainRow, StableSort(ByScanKey, AllEntries(s, q)))
         == StableSort(ByRowKey, Map(PlainRow, AllEntries(s, q)))
  {
    var es := AllEntries(s, q);
    InOrder(s, q.start / DAY, q.end / DAY, q);
    ByRowKeyIsPreorder<K>();
    forall i, j | 0 <= i < j < |es| ensures AgreeOrTie(PlainRow, ByScanKey, ByRowKey, es[i], es[j]) {
      assert Before(es[i], es[j]) && es[i] in es && es[j] in es;
    }
    SortProjectTies(PlainRow, ByScanKey, ByRowKey, es);
  }

  lemma CrossTiesVisible<K(!new)>(s: Store<K>, t: Store<K>, q: Query)
    requires Indistinguishable(s, t, q.clock) && CrossTiesAgree(s, q)
    ensures CrossTiesAgree(t, q)
  {
    forall a, b | a in AllEntries(t, q) && b in AllEntries(t, q) && a.day != b.day && Tied(a, b)
      ensures Plain(a.row) == Plain(b.row)
    {
      var a' := Twin(t, s, q, a);
      var b' := Twin(t, s, q, b);
      assert ToSeen(a').row == a.row && ToSeen(b').row == b.row;
      assert a'.day != b'.day && Tied(a', b');
    }
  }

  lemma SamePlain<K>(es: seq<Entry<K>>, fs: seq<Entry<K>>)
    requires Map(ToSeen, es) == Map(ToSeen, fs)
    ensures Map(PlainRow, es) == Map(PlainRow, fs)
  {
    assert |es| == |Map(ToSeen, es)| == |fs|;
    forall i | 0 <= i < |es| ensures PlainRow(es[i]) == PlainRow(fs[i]) {
      assert Map(ToSeen, es)[i] == Map(ToSeen, fs)[i];
    }
  }

  lemma EqualTiesHarmless<K(!new)>(s: Store<K>, t: Store<K>, q: Query)
    requires Indistinguishable(s, t, q.clock) && OneNode(s, q) && CrossTiesAgree(s, q)
    ensures ScanRows(t, q) == ScanRows(s, q)
  {
    SameNode(s, t, q);
    PlainScan(s, q);
    PlainScan(t, q);
    CrossTiesVisible(s, t, q);
    RowsFromVisible(s, q);
    RowsFromVisible(t, q);
    SameEntries(s, t, q.start / DAY, q.end / DAY, q);
    SamePlain(AllEntries(s, q), AllEntries(t, q));
  }

  // ---------------------------------------------------------------- the sort with no ties left

  /** The scan key, with the date where even offset and index agree. */
  predicate ByFullKey<K>(a: Entry<K>, b: Entry<K>) {
    ByScanKey(a, b) && (!ByScanKey(b, a) || a.day <= b.day)
  }

  lemma ByFullKeyIsPreorder<K(!new)>()
    ensures TotalPreorder<Entry<K>>(ByFullKey)
  {
  }

  function Itself<T>(x: T): T { x }

  /** Collected by date, entries come out of the stable sort in full key order. */
  lemma FullSort<K(!new)>(s: Store<K>, q: Query)
    ensures StableSort(ByScanKey, AllEntries(s, q)) == StableSort(ByFullKey, AllEntries(s, q))
  {
    var es := AllEntries(s, q);
    InOrder(s, q.start / DAY, q.end / DAY, q);
    forall i, j | 0 <= i < j < |es| ensures ByScanKey(es[i], es[j]) == ByFullKey(Itself(es[i]), Itself(es[j])) {
      assert Before(es[i], es[j]);
    }
    SortProject(Itself<Entry<K>>, ByScanKey, ByFullKey, es);
    var sorted := StableSort(ByScanKey, es);
    assert Map(Itself<Entry<K>>, sorted) == sorted && Map(Itself<Entry<K>>, es) == es;
  }

  lemma EntriesDistinct<K(!new)>(s: Store<K>, q: Query)
    ensures Distinct(AllEntries(s, q))
  {
    InOrder(s, q.start / DAY, q.end / DAY, q);
    var es := AllEntries(s, q);
    forall i, j | 0 <= i < j < |es| ensures es[i] != es[j] { assert Before(es[i], es[j]); }
  }

  /** An entry's place says what it is. */
  lemma FullKeyStrict<K(!new)>(s: Store<K>, q: Query, a: Entry<K>, b: Entry<K>)
    requires a in AllEntries(s, q) && b in AllEntries(s, q) && ByFullKey(a, b) && ByFullKey(b, a)
    ensures a == b
  {
    StoreEntry(s, q.start / DAY, q.end / DAY, q, a);
    StoreEntry(s, q.start / DAY, q.end / DAY, q, b);
  }

  /** A duplicate-free list of a store's entries in full key order is what the scan sorts to. */
  lemma ScanSortsTo<K(!new)>(s: Store<K>, q: Query, target: seq<Entry<K>>)
    requires SortedBy(ByFullKey, target) && Distinct(target) && forall e :: e in target <==> e in AllEntries(s, q)
    ensures StableSort(ByScanKey, AllEntries(s, q)) == target
  {
    var es := AllEntries(s, q);
    FullSort(s, q);
    EntriesDistinct(s, q);
    DistinctSame(target, es);
    ByFullKeyIsPreorder<K>();
    SortSorts(ByFullKey, es);
    forall x, y | x in target && y in target && ByFullKey(x, y) && ByFullKey(y, x) ensures x == y {
      FullKeyStrict(s, q, x, y);
    }
    SortedUnique(ByFullKey, target, StableSort(ByFullKey, es));
  }

  // ---------------------------------------------------------------- two neighbours

  /** Entries of two dates, tied, next to each other at one file offset; two hidden rows follow
      the first in its file, and nothing else is visible there. */
  ghost predicate Neighbours<K(!new)>(t: Store<K>, q: Query, a: Entry<K>, b: Entry<K>) {
    && a in AllEntries(t, q) && b in AllEntries(t, q) && a.day != b.day && Tied(a, b)
    && a.file == b.file && b.index == a.index + 1 && RoomAfter(t, q, a)
    && forall e :: e in AllEntries(t, q) && e.file == a.file && a.index <= e.index <= a.index + 2 ==> e == a || e == b
  }

  ghost predicate RoomAfter<K>(t: Store<K>, q: Query, a: Entry<K>) {
    && a.day in t && a.file < |t[a.day]| && a.index + 2 < |t[a.day][a.file].rows|
    && !Visible(t[a.day][a.file].rows[a.index + 1], q.clock) && !Visible(t[a.day][a.file].rows[a.index + 2], q.clock)
  }

  /** The first of them behind its two hidden rows. */
  function Behind2<K>(f: File<K>, i: nat): File<K>
    requires i + 2 < |f.rows|
  {
    f.(rows := f.rows[..i] + [f.rows[i + 2], f.rows[i + 1], f.rows[i]] + f.rows[i + 3..])
  }

  function Swapped<K>(t: Store<K>, a: Entry<K>): Store<K>
    requires a.day in t && a.file < |t[a.day]| && a.index + 2 < |t[a.day][a.file].rows|
  {
    t[a.day := t[a.day][a.file := Behind2(t[a.day][a.file], a.index)]]
  }

  function Moved<K>(a: Entry<K>): Entry<K> { a.(index := a.index + 2) }

  lemma BehindAt<K>(f: File<K>, i: nat, k: nat)
    requires i + 2 < |f.rows| && k < |f.rows|
    ensures |Behind2(f, i).rows| == |f.rows|
    ensures Behind2(f, i).rows[k] == f.rows[if k == i then i + 2 else if k == i + 2 then i else k]
  {
  }

  /** One file's entries, before and after the move. */
  lemma MovedInFile<K(!new)>(f: File<K>, q: Query, a: Entry<K>, e: Entry<K>)
    requires a.index + 2 < |f.rows| && !Visible(f.rows[a.index + 1], q.clock) && !Visible(f.rows[a.index + 2], q.clock)
    requires InFile(a, f, q) && e.day == a.day && e.file == a.file
    ensures InFile(e, Behind2(f, a.index), q) <==> (InFile(e, f, q) && e != a) || e == Moved(a)
    ensures !InFile(Moved(a), f, q)
  {
    if e.index < |f.rows| { BehindAt(f, a.index, e.index); }
    BehindAt(f, a.index, a.index);
  }

  lemma SwappedEntries<K(!new)>(t: Store<K>, q: Query, a: Entry<K>, e: Entry<K>)
    requires a in AllEntries(t, q) && RoomAfter(t, q, a)
    ensures Moved(a) !in AllEntries(t, q)
    ensures e in AllEntries(Swapped(t, a), q) <==> (e in AllEntries(t, q) && e != a) || e == Moved(a)
  {
    var u := Swapped(t, a);
    EntryInFile(t, q, a);
    EntryInFile(t, q, Moved(a));
    MovedInFile(t[a.day][a.file], q, a, a);
    if e.day == a.day && e.file == a.file {
      EntryInFile(t, q, e);
      EntryInFile(u, q, e);
      MovedInFile(t[a.day][a.file], q, a, e);
    } else {
      StoreEntry(t, q.start / DAY, q.end / DAY, q, e);
      StoreEntry(u, q.start / DAY, q.end / DAY, q, e);
    }
  }

  /** What comes after both neighbours comes after the first even where it is moved to. */
  lemma AfterBoth<K(!new)>(t: Store<K>, q: Query, a: Entry<K>, b: Entry<K>, e: Entry<K>)
    requires Neighbours(t, q, a, b) && e in AllEntries(t, q) && ByFullKey(b, e) && e != b && e != a
    ensures ByFullKey(Moved(a), e)
  {
  }

  /** Neighbours stand next to each other in the scan. */
  lemma NextInScan<K(!new)>(t: Store<K>, q: Query, a: Entry<K>, b: Entry<K>, sorted: seq<Entry<K>>) returns (p: nat)
    requires Neighbours(t, q, a, b) && SortedBy(ByFullKey, sorted) && Distinct(sorted)
    requires forall e :: e in sorted <==> e in AllEntries(t, q)
    ensures p + 1 < |sorted| && sorted[p] == a && sorted[p + 1] == b
  {
    assert a in sorted && b in sorted;
    p :| p < |sorted| && sorted[p] == a;
    var r: nat :| r < |sorted| && sorted[r] == b;
    SortedPlaces(ByFullKey, sorted, p, r);
    var e := sorted[p + 1];
    assert e in sorted && ByFullKey(sorted[p], e) && (p + 1 == r || ByFullKey(e, sorted[r]));
    NothingBetween(t, q, a, b, e);
  }

  lemma NothingBetween<K(!new)>(t: Store<K>, q: Query, a: Entry<K>, b: Entry<K>, e: Entry<K>)
    requires Neighbours(t, q, a, b) && e in AllEntries(t, q) && ByFullKey(a, e) && ByFullKey(e, b)
    ensures e == a || e == b
  {
  }

  function Exchanged<K>(sorted: seq<Entry<K>>, p: nat, a: Entry<K>, b: Entry<K>): seq<Entry<K>>
    requires p + 1 < |sorted|
  {
    sorted[..p] + [b, Moved(a)] + sorted[p + 2..]
  }

  lemma ExchangedSorted<K(!new)>(t: Store<K>, q: Query, a: Entry<K>, b: Entry<K>, sorted: seq<Entry<K>>, p: nat)
    requires Neighbours(t, q, a, b) && SortedBy(ByFullKey, sorted) && Distinct(sorted)
    requires forall e :: e in sorted ==> e in AllEntries(t, q)
    requires p + 1 < |sorted| && sorted[p] == a && sorted[p + 1] == b
    ensures SortedBy(ByFullKey, Exchanged(sorted, p, a, b))
  {
    var target := Exchanged(sorted, p, a, b);
    ByFullKeyIsPreorder<K>();
    assert ByFullKey(a, Moved(a)) && ByFullKey(b, Moved(a));
    forall i, j | 0 <= i < j < |target| ensures ByFullKey(target[i], target[j]) {
      assert i != p && i != p + 1 ==> target[i] == sorted[i];
      assert j != p && j != p + 1 ==> target[j] == sorted[j];
      if j == p + 1 && i < p {
        assert ByFullKey(sorted[i], sorted[p]);
      } else if i == p + 1 {
        assert sorted[j] in sorted && ByFullKey(sorted[p + 1], sorted[j]);
        AfterBoth(t, q, a, b, sorted[j]);
      } else if j == p {
        assert ByFullKey(sorted[i], sorted[p + 1]);
      } else if i == p && j > p + 1 {
        assert ByFullKey(sorted[p + 1], sorted[j]);
      } else if i != p {
        assert ByFullKey(sorted[i], sorted[j]);
      }
    }
  }

  lemma ExchangedElements<K(!new)>(a: Entry<K>, b: Entry<K>, sorted: seq<Entry<K>>, p: nat)
    requires Distinct(sorted) && Moved(a) !in sorted && p + 1 < |sorted| && sorted[p] == a && sorted[p + 1] == b
    ensures Distinct(Exchanged(sorted, p, a, b))
    ensures forall e :: e in Exchanged(sorted, p, a, b) <==> (e in sorted && e != a) || e == Moved(a)
  {
    var target := Exchanged(sorted, p, a, b);
    assert forall i :: 0 <= i < |target| ==>
      target[i] == if i == p then b else if i == p + 1 then Moved(a) else sorted[i];
    forall e | e in sorted && e != a ensures e in target {
      var i :| 0 <= i < |sorted| && sorted[i] == e;
      assert target[if i == p + 1 then p else i] == e;
    }
    assert target[p + 1] == Moved(a);
    forall i, j | 0 <= i < j < |target| ensures target[i] != target[j] { }
    forall e | e in target ensures (e in sorted && e != a) || e == Moved(a) {
      var i :| 0 <= i < |target| && target[i] == e;
    }
  }

  /** Moving the first neighbour behind the second exchanges them, and nothing else. */
  lemma NeighboursExchange<K(!new)>(t: Store<K>, q: Query, a: Entry<K>, b: Entry<K>) returns (p: nat)
    requires Neighbours(t, q, a, b)
    ensures var sorted := StableSort(ByScanKey, AllEntries(t, q));
            && p + 1 < |sorted| && sorted[p] == a && sorted[p + 1] == b
            && StableSort(ByScanKey, AllEntries(Swapped(t, a), q)) == Exchanged(sorted, p, a, b)
  {
    var es := AllEntries(t, q);
    var sorted := StableSort(ByScanKey, es);
    FullSort(t, q);
    EntriesDistinct(t, q);
    SortDistinct(ByScanKey, es);
    ByFullKeyIsPreorder<K>();
    SortSorts(ByFullKey, es);
    forall e ensures e in sorted <==> e in es { SameElements(sorted, es, e); }
    p := NextInScan(t, q, a, b, sorted);
    ExchangedSorted(t, q, a, b, sorted, p);
    SwappedEntries(t, q, a, a);
    ExchangedElements(a, b, sorted, p);
    forall e ensures e in Exchanged(sorted, p, a, b) <==> e in AllEntries(Swapped(t, a), q) {
      SwappedEntries(t, q, a, e);
    }
    ScanSortsTo(Swapped(t, a), q, Exchanged(sorted, p, a, b));
  }

  lemma NeighboursShow<K(!new)>(t: Store<K>, q: Query, a: Entry<K>, b: Entry<K>)
    requires Neighbours(t, q, a, b) && Plain(a.row) != Plain(b.row)
    ensures Map(PlainRow, StableSort(ByScanKey, AllEntries(t, q)))
         != Map(PlainRow, StableSort(ByScanKey, AllEntries(Swapped(t, a), q)))
  {
    var p := NeighboursExchange(t, q, a, b);
    var sorted := StableSort(ByScanKey, AllEntries(t, q));
    var target := Exchanged(sorted, p, a, b);
    assert target[p] == b;
    assert Map(PlainRow, sorted)[p] == Plain(a.row) && Map(PlainRow, target)[p] == Plain(b.row);
  }

  // ---------------------------------------------------------------- hidden rows do not show

  function VisibleTo<K>(clock: Option<int>): Row<K> -> bool { (r: Row<K>) => Visible(r, clock) }
  function SeenAt<K>(path: string, node: string): Row<K> -> Seen<K> { (r: Row<K>) => Seen(r, path, node) }
  function Kept<K>(rows: seq<Row<K>>, clock: Option<int>): seq<Row<K>> { Filter(VisibleTo(clock), rows) }

  lemma {:induction false} VisibleByFilter<K>(f: File<K>, i: nat, clock: Option<int>)
    requires i <= |f.rows|
    ensures VisibleIn(f, i, clock) == Map(SeenAt(f.path, f.node), Kept(f.rows[i..], clock))
    decreases |f.rows| - i
  {
    if i < |f.rows| {
      VisibleByFilter(f, i + 1, clock);
      assert f.rows[i..][1..] == f.rows[i + 1..];
      var rest := Kept(f.rows[i + 1..], clock);
      MapConcat(SeenAt(f.path, f.node), [f.rows[i]], rest);
      assert Map(SeenAt<K>(f.path, f.node), [f.rows[i]]) == [Seen(f.rows[i], f.path, f.node)];
      assert [] + VisibleIn(f, i + 1, clock) == VisibleIn(f, i + 1, clock);
    }
  }

  /** Files of one path and node that keep the same rows look the same. */
  lemma SameVisible<K>(f: File<K>, g: File<K>, clock: Option<int>)
    requires f.path == g.path && f.node == g.node && Kept(f.rows, clock) == Kept(g.rows, clock)
    ensures VisibleIn(f, 0, clock) == VisibleIn(g, 0, clock)
  {
    VisibleByFilter(f, 0, clock);
    VisibleByFilter(g, 0, clock);
    assert f.rows[0..] == f.rows && g.rows[0..] == g.rows;
  }

  lemma {:induction false} ReplacedVisible<K>(files: seq<File<K>>, k: nat, g: File<K>, clock: Option<int>)
    requires k < |files| && VisibleIn(g, 0, clock) == VisibleIn(files[k], 0, clock)
    ensures VisibleRows(files[k := g], clock) == VisibleRows(files, clock)
  {
    if k == 0 {
      assert files[k := g][1..] == files[1..];
    } else {
      ReplacedVisible(files[1..], k - 1, g, clock);
      assert files[k := g][1..] == files[1..][k - 1 := g];
    }
  }

  lemma KeptParts<K>(x: seq<Row<K>>, y: seq<Row<K>>, z: seq<Row<K>>, clock: Option<int>)
    ensures Kept(x + y + z, clock) == Kept(x, clock) + Kept(y, clock) + Kept(z, clock)
  {
    FilterConcat(VisibleTo(clock), x + y, z);
    FilterConcat(VisibleTo(clock), x, y);
  }

  lemma SwappedVisible<K(!new)>(t: Store<K>, q: Query, a: Entry<K>)
    requires RoomAfter(t, q, a)
    ensures Indistinguishable(t, Swapped(t, a), q.clock)
  {
    var f, i := t[a.day][a.file], a.index;
    var x, z := f.rows[..i], f.rows[i + 3..];
    var y, y' := [f.rows[i], f.rows[i + 1], f.rows[i + 2]], [f.rows[i + 2], f.rows[i + 1], f.rows[i]];
    assert f.rows == x + y + z;
    KeptParts(x, y, z, q.clock);
    KeptParts(x, y', z, q.clock);
    KeptAmong(f.rows[i], f.rows[i + 1], f.rows[i + 2], q.clock);
    SameVisible(f, Behind2(f, i), q.clock);
    ReplacedVisible(t[a.day], a.file, Behind2(f, i), q.clock);
  }

  lemma KeptAmong<K>(r: Row<K>, g: Row<K>, h: Row<K>, clock: Option<int>)
    requires !Visible(g, clock) && !Visible(h, clock)
    ensures Kept([r, g, h], clock) == Kept([h, g, r], clock)
  {
    assert [r, g, h] == [r] + [g, h] && [h, g, r] == [h, g] + [r];
    FilterConcat(VisibleTo(clock), [r], [g, h]);
    FilterConcat(VisibleTo(clock), [h, g], [r]);
    FilterNone(VisibleTo(clock), [g, h]);
    FilterNone(VisibleTo(clock), [h, g]);
  }

  lemma SwappedListed<K>(t: Store<K>, dir: int -> string, a: Entry<K>)
    requires Listed(t, dir) && a.day in t && a.file < |t[a.day]| && a.index + 2 < |t[a.day][a.file].rows|
    ensures Listed(Swapped(t, a), dir)
  {
  }

  // ---------------------------------------------------------------- making neighbours

  function Copies<K>(h: Row<K>, n: nat): (rows: seq<Row<K>>)
    ensures |rows| == n && forall i :: 0 <= i < n ==> rows[i] == h
  {
    seq(n, _ => h)
  }

  /** The file with copies of a row before and after its `i`th. */
  function Stretch<K>(f: File<K>, i: nat, before: nat, after: nat, h: Row<K>): (g: File<K>)
    requires i < |f.rows|
    ensures g.path == f.path && g.node == f.node && |g.rows| == |f.rows| + before + after
    ensures g.rows[i + before] == f.rows[i]
    ensures forall k :: i <= k < i + before || i + before < k <= i + before + after ==> g.rows[k] == h
  {
    f.(rows := f.rows[..i] + Copies(h, before) + ([f.rows[i]] + Copies(h, after) + f.rows[i + 1..]))
  }

  lemma CopiesHidden<K>(h: Row<K>, n: nat, clock: Option<int>)
    requires !Visible(h, clock)
    ensures Kept(Copies(h, n), clock) == []
  {
    FilterNone(VisibleTo(clock), Copies(h, n));
  }

  lemma HiddenEnd<K>(x: seq<Row<K>>, p: seq<Row<K>>, clock: Option<int>)
    requires Kept(p, clock) == []
    ensures Kept(x + p, clock) == Kept(x, clock)
  {
    FilterConcat(VisibleTo(clock), x, p);
    assert Kept(x, clock) + [] == Kept(x, clock);
  }

  lemma StretchKept<K>(x: seq<Row<K>>, r: Row<K>, z: seq<Row<K>>, p: seq<Row<K>>, n: seq<Row<K>>, clock: Option<int>)
    requires Kept(p, clock) == [] && Kept(n, clock) == []
    ensures Kept(x + p + ([r] + n + z), clock) == Kept(x + ([r] + z), clock)
  {
    HiddenEnd(x, p, clock);
    HiddenEnd([r], n, clock);
    FilterConcat(VisibleTo(clock), x + p, [r] + n + z);
    FilterConcat(VisibleTo(clock), [r] + n, z);
    FilterConcat(VisibleTo(clock), [r], z);
    FilterConcat(VisibleTo(clock), x, [r] + z);
  }

  lemma StretchVisible<K>(f: File<K>, i: nat, before: nat, after: nat, h: Row<K>, clock: Option<int>)
    requires i < |f.rows| && !Visible(h, clock)
    ensures VisibleIn(Stretch(f, i, before, after, h), 0, clock) == VisibleIn(f, 0, clock)
  {
    CopiesHidden(h, before, clock);
    CopiesHidden(h, after, clock);
    StretchKept(f.rows[..i], f.rows[i], f.rows[i + 1..], Copies(h, before), Copies(h, after), clock);
    assert f.rows == f.rows[..i] + ([f.rows[i]] + f.rows[i + 1..]);
    SameVisible(Stretch(f, i, before, after, h), f, clock);
  }

  /** The store with one entry's file stretched around it. */
  function Stretched<K>(s: Store<K>, e: Entry<K>, before: nat, after: nat, h: Row<K>): Store<K>
    requires e.day in s && e.file < |s[e.day]| && e.index < |s[e.day][e.file].rows|
  {
    s[e.day := s[e.day][e.file := Stretch(s[e.day][e.file], e.index, before, after, h)]]
  }

  lemma StretchedVisible<K>(s: Store<K>, e: Entry<K>, before: nat, after: nat, h: Row<K>, clock: Option<int>)
    requires e.day in s && e.file < |s[e.day]| && e.index < |s[e.day][e.file].rows| && !Visible(h, clock)
    ensures Indistinguishable(s, Stretched(s, e, before, after, h), clock)
  {
    StretchVisible(s[e.day][e.file], e.index, before, after, h, clock);
    ReplacedVisible(s[e.day], e.file, Stretch(s[e.day][e.file], e.index, before, after, h), clock);
  }

  lemma StretchedListed<K>(s: Store<K>, dir: int -> string, e: Entry<K>, before: nat, after: nat, h: Row<K>)
    requires e.day in s && e.file < |s[e.day]| && e.index < |s[e.day][e.file].rows|
    requires Listed(s, dir) && Named(s, dir)
    ensures Listed(Stretched(s, e, before, after, h), dir) && Named(Stretched(s, e, before, after, h), dir)
  {
  }

  /** Both entries at one file offset, the second an index after the first, hidden rows around. */
  function Spread<K>(s: Store<K>, dir: int -> string, a: Entry<K>, b: Entry<K>, h: Row<K>): Store<K>
    requires a.day != b.day && Holds(s, a) && Holds(s, b)
  {
    Pad(Pad(Wide(s, a, b, h), dir, a.day, b.file), dir, b.day, a.file)
  }

  predicate Holds<K>(s: Store<K>, e: Entry<K>) {
    e.day in s && e.file < |s[e.day]| && e.index < |s[e.day][e.file].rows|
  }

  function Wide<K>(s: Store<K>, a: Entry<K>, b: Entry<K>, h: Row<K>): Store<K>
    requires a.day != b.day && Holds(s, a) && Holds(s, b)
  {
    Stretched(Stretched(s, a, b.index, 3, h), b, a.index + 1, 2, h)
  }

  lemma SpreadFits<K(!new)>(s: Store<K>, dir: int -> string, a: Entry<K>, b: Entry<K>, h: Row<K>, clock: Option<int>)
    requires a.day != b.day && Holds(s, a) && Holds(s, b) && !Visible(h, clock)
    requires Listed(s, dir) && Named(s, dir)
    ensures Listed(Spread(s, dir, a, b, h), dir) && Indistinguishable(s, Spread(s, dir, a, b, h), clock)
  {
    var s1 := Stretched(s, a, b.index, 3, h);
    var s2 := Wide(s, a, b, h);
    var s3 := Pad(s2, dir, a.day, b.file);
    StretchedVisible(s, a, b.index, 3, h, clock);
    StretchedVisible(s1, b, a.index + 1, 2, h, clock);
    PadIndistinguishable(s2, dir, a.day, b.file, clock);
    PadIndistinguishable(s3, dir, b.day, a.file, clock);
    StretchedListed(s, dir, a, b.index, 3, h);
    StretchedListed(s1, dir, b, a.index + 1, 2, h);
    PadListed(s2, dir, a.day, b.file);
    PadListed(s3, dir, b.day, a.file);
  }

  function FirstPlace<K>(a: Entry<K>, b: Entry<K>): Entry<K> {
    a.(file := a.file + b.file, index := a.index + b.index)
  }

  function SecondPlace<K>(a: Entry<K>, b: Entry<K>): Entry<K> {
    b.(file := a.file + b.file, index := a.index + b.index + 1)
  }

  /** What stands at the common file offset of either date. */
  lemma SpreadFiles<K(!new)>(s: Store<K>, dir: int -> string, a: Entry<K>, b: Entry<K>, h: Row<K>)
    requires a.day != b.day && Holds(s, a) && Holds(s, b)
    ensures var t, n := Spread(s, dir, a, b, h), a.file + b.file;
            && a.day in t && n < |t[a.day]| && t[a.day][n] == Stretch(s[a.day][a.file], a.index, b.index, 3, h)
            && b.day in t && n < |t[b.day]| && t[b.day][n] == Stretch(s[b.day][b.file], b.index, a.index + 1, 2, h)
  {
    var s2 := Wide(s, a, b, h);
    var t := Spread(s, dir, a, b, h);
    assert t[a.day] == Empties<K>(dir(a.day), b.file) + s2[a.day];
    assert t[b.day] == Empties<K>(dir(b.day), a.file) + s2[b.day];
  }

  lemma SpreadNeighbours<K(!new)>(s: Store<K>, dir: int -> string, q: Query, a: Entry<K>, b: Entry<K>, h: Row<K>)
    requires OneDay(q) && !Visible(h, q.clock)
    requires a in AllEntries(s, q) && b in AllEntries(s, q) && a.day != b.day && Tied(a, b)
    requires Holds(s, a) && Holds(s, b)
    ensures Neighbours(Spread(s, dir, a, b, h), q, FirstPlace(a, b), SecondPlace(a, b))
  {
    var t, x, y := Spread(s, dir, a, b, h), FirstPlace(a, b), SecondPlace(a, b);
    var first, last := q.start / DAY, q.end / DAY;
    SpreadFiles(s, dir, a, b, h);
    StoreEntry(s, first, last, q, a);
    StoreEntry(s, first, last, q, b);
    StoreEntry(t, first, last, q, x);
    StoreEntry(t, first, last, q, y);
    forall e | e in AllEntries(t, q) && e.file == x.file && x.index <= e.index <= x.index + 2 ensures e == x || e == y {
      StoreEntry(t, first, last, q, e);
      TwoPartitions(t, q, e);
      TwoPartitions(s, q, a);
      TwoPartitions(s, q, b);
    }
  }

  lemma TwoPartitions<K(!new)>(s: Store<K>, q: Query, e: Entry<K>)
    requires OneDay(q) && e in AllEntries(s, q)
    ensures e.day == q.start / DAY || e.day == q.start / DAY + 1
  {
    StoreEntry(s, q.start / DAY, q.end / DAY, q, e);
  }

  // ---------------------------------------------------------------- exactly

  /** Tied rows of both partitions that differ can be shown in either order. */
  lemma DifferingTieShows<K(!new)>(s: Store<K>, dir: int -> string, q: Query, a: Entry<K>, b: Entry<K>)
    returns (t: Store<K>, u: Store<K>)
    requires Listed(s, dir) && Named(s, dir) && OneDay(q) && OneNode(s, q) && q.clock.Some?
    requires a in AllEntries(s, q) && b in AllEntries(s, q) && a.day != b.day && Tied(a, b)
    requires Plain(a.row) != Plain(b.row)
    ensures Listed(t, dir) && Indistinguishable(s, t, q.clock) && Listed(u, dir) && Indistinguishable(s, u, q.clock)
    ensures ScanRows(t, q) != ScanRows(u, q)
  {
    var h := a.row.(receivedAt := q.clock.value + 1);
    StoreEntry(s, q.start / DAY, q.end / DAY, q, a);
    StoreEntry(s, q.start / DAY, q.end / DAY, q, b);
    t := Spread(s, dir, a, b, h);
    SpreadFits(s, dir, a, b, h, q.clock);
    SpreadNeighbours(s, dir, q, a, b, h);
    var x, y := FirstPlace(a, b), SecondPlace(a, b);
    u := Swapped(t, x);
    SwappedVisible(t, q, x);
    SwappedListed(t, dir, x);
    NeighboursShow(t, q, x, y);
    SameNode(s, t, q);
    SameNode(t, u, q);
    PlainScan(t, q);
    PlainScan(u, q);
  }

  /** The rows of one node's day are beyond the reach of rows the clock hides if and only if
      visible rows of the two partitions it reads that tie are equal. */
  lemma RowsLookaheadExactly<K(!new)>(s: Store<K>, dir: int -> string, q: Query)
    requires Listed(s, dir) && Named(s, dir) && OneDay(q) && OneNode(s, q) && q.clock.Some?
    ensures (forall t: Store<K> :: Listed(t, dir) && Indistinguishable(s, t, q.clock) ==>
               ScanRows(t, q) == ScanRows(s, q))
            <==> CrossTiesAgree(s, q)
  {
    if CrossTiesAgree(s, q) {
      forall t: Store<K> | Listed(t, dir) && Indistinguishable(s, t, q.clock) ensures ScanRows(t, q) == ScanRows(s, q) {
        EqualTiesHarmless(s, t, q);
      }
    } else {
      var a, b :| a in AllEntries(s, q) && b in AllEntries(s, q) && a.day != b.day && Tied(a, b)
                  && Plain(a.row) != Plain(b.row);
      var t, u := DifferingTieShows(s, dir, q, a, b);
    }
  }
}
