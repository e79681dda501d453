/** What a scan yields, by the rows of the store alone: which rows, in which order, and when and how
    the rows of several nodes are deduplicated. */
module ScanResults {
  import opened Basics
  import opened Sorting
  import Lex
  import opened Dedup
  import opened Scan

  /** The collected rows are those of the dates of the range, with their place in the partition,
      that lie in the half-open window and were received by the clock. */
  lemma CollectsExactly<K(!new)>(s: Store<K>, q: Query, e: Entry<K>)
    ensures e in AllEntries(s, q) <==>
            && q.start / DAY <= e.day <= q.end / DAY && e.day in s
            && e.file < |s[e.day]| && e.path == s[e.day][e.file].path && e.node == s[e.day][e.file].node
            && e.index < |s[e.day][e.file].rows| && e.row == s[e.day][e.file].rows[e.index]
            && q.start <= e.row.ts < q.end && (q.clock.Some? ==> e.row.receivedAt <= q.clock.value)
  {
    StoreEntry(s, q.start / DAY, q.end / DAY, q, e);
  }

  /** Each is collected once. */
  lemma CollectsOnce<K(!new)>(s: Store<K>, q: Query)
    ensures Distinct(AllEntries(s, q))
  {
    InOrder(s, q.start / DAY, q.end / DAY, q);
    var es := AllEntries(s, q);
    forall i, j | 0 <= i < j < |es| ensures es[i] != es[j] { assert Before(es[i], es[j]); }
  }

  // ---------------------------------------------------------------- order

  /** By time, then by time of receipt, file offset, row and at last by date. */
  predicate ScansBefore<K>(a: Entry<K>, b: Entry<K>) {
    || a.row.ts < b.row.ts
    || (a.row.ts == b.row.ts && a.row.receivedAt < b.row.receivedAt)
    || (Tied(a, b) && a.file < b.file)
    || (Tied(a, b) && a.file == b.file && a.index < b.index)
    || (Tied(a, b) && a.file == b.file && a.index == b.index && a.day < b.day)
  }

  /** The scan goes through the collected rows in exactly that order. */
  lemma ScansInOrder<K(!new)>(s: Store<K>, q: Query)
    ensures multiset(StableSort(ByScanKey, AllEntries(s, q))) == multiset(AllEntries(s, q))
    ensures SortedBy(ScansBefore, StableSort(ByScanKey, AllEntries(s, q)))
  {
    var es := AllEntries(s, q);
    InOrder(s, q.start / DAY, q.end / DAY, q);
    ByScanKeyIsPreorder<K>();
    SortPairs(ByScanKey, ScansBefore, es);
    forall i, j | 0 <= i < j < |es| ensures InSortOrder(ByScanKey, ScansBefore, es[i], es[j]) {
      assert Before(es[i], es[j]);
    }
  }

  /** The entry at a place of the scan, and the place of an entry. */
  lemma EntryAt<K(!new)>(s: Store<K>, q: Query, i: nat) returns (e: Entry<K>)
    requires i < |Ordered(s, q)|
    ensures e in AllEntries(s, q) && Ordered(s, q)[i] == ToSeen(e)
  {
    var sorted := StableSort(ByScanKey, AllEntries(s, q));
    e := sorted[i];
    SameElements(sorted, AllEntries(s, q), e);
  }

  lemma PlaceOf<K(!new)>(s: Store<K>, q: Query, e: Entry<K>) returns (i: nat)
    requires e in AllEntries(s, q)
    ensures i < |Ordered(s, q)| && Ordered(s, q)[i] == ToSeen(e)
  {
    var sorted := StableSort(ByScanKey, AllEntries(s, q));
    SameElements(sorted, AllEntries(s, q), e);
    i :| i < |sorted| && sorted[i] == e;
  }

  // ---------------------------------------------------------------- one node or several

  ghost predicate TwoNodes<K(!new)>(s: Store<K>, q: Query) {
    exists a, b :: a in AllEntries(s, q) && b in AllEntries(s, q) && a.node != b.node
  }

  lemma NodesCounted<K(!new)>(s: Store<K>, q: Query)
    ensures MultiNode(Ordered(s, q)) <==> TwoNodes(s, q)
  {
    var seen := Ordered(s, q);
    if MultiNode(seen) {
      var i, j :| 0 <= i < j < |seen| && seen[i].node != seen[j].node;
      var a := EntryAt(s, q, i);
      var b := EntryAt(s, q, j);
    }
    if a, b :| a in AllEntries(s, q) && b in AllEntries(s, q) && a.node != b.node {
      var i := PlaceOf(s, q, a);
      var j := PlaceOf(s, q, b);
      assert seen[if i < j then i else j].node != seen[if i < j then j else i].node;
    }
  }

  /** A row as it is yielded: without the node it came from. */
  function Yielded<K>(e: Entry<K>): Row<K> { e.row.(nodeId := None) }

  /** Rows of one node only: every collected row is yielded, as often as it occurs, in scan order. */
  lemma OneNodeYieldsAll<K(!new)>(s: Store<K>, q: Query)
    requires forall a, b :: a in AllEntries(s, q) && b in AllEntries(s, q) ==> a.node == b.node
    ensures ScanRows(s, q) == Map(Yielded, StableSort(ByScanKey, AllEntries(s, q)))
    ensures multiset(ScanRows(s, q)) == multiset(Map(Yielded, AllEntries(s, q)))
  {
    NodesCounted(s, q);
    var sorted := StableSort(ByScanKey, AllEntries(s, q));
    MapPermutes(Yielded, sorted, AllEntries(s, q));
    assert ScanRows(s, q) == Map(Yielded, sorted);
  }

  /** Rows of two nodes or more: no two yielded rows agree on their logical key, and every collected
      row's key is yielded. */
  lemma NodesDeduplicated<K(!new)>(s: Store<K>, q: Query)
    requires TwoNodes(s, q)
    ensures var rows := ScanRows(s, q);
            && (forall i, j :: 0 <= i < j < |rows| ==> rows[i].body != rows[j].body || rows[i].ts != rows[j].ts)
            && (forall e :: e in AllEntries(s, q) ==> exists r :: r in rows && r.body == e.row.body && r.ts == e.row.ts)
  {
    NodesCounted(s, q);
    EmittedOnce(Map(Wrap, Ordered(s, q)));
    forall e | e in AllEntries(s, q)
      ensures exists r :: r in ScanRows(s, q) && r.body == e.row.body && r.ts == e.row.ts
    {
      var i := PlaceOf(s, q, e);
      KeyYielded(Ordered(s, q), i);
    }
  }

  lemma KeyYielded<K(!new)>(seen: seq<Seen<K>>, i: nat)
    requires MultiNode(seen) && i < |seen|
    ensures exists r :: r in Deduped(seen) && r.body == seen[i].row.body && r.ts == seen[i].row.ts
  {
    var wrapped := Map(Wrap, seen);
    assert wrapped[i] in wrapped;
    var e := KeyEmitted(wrapped, wrapped[i]);
    var j :| 0 <= j < |Emitted(wrapped)| && Emitted(wrapped)[j] == e;
    assert Deduped(seen)[j] == Plain(e);
  }

  /** Whatever the nodes, every yielded row was collected. */
  lemma YieldedWasCollected<K(!new)>(s: Store<K>, q: Query, r: Row<K>) returns (e: Entry<K>)
    requires r in ScanRows(s, q)
    ensures e in AllEntries(s, q) && r == Yielded(e)
  {
    var seen := Ordered(s, q);
    var wrapped := Map(Wrap, seen);
    var i: nat :| i < |ScanRows(s, q)| && ScanRows(s, q)[i] == r;
    if MultiNode(seen) {
      EmittedIsInput(wrapped, Emitted(wrapped)[i]);
      var j: nat :| j < |wrapped| && wrapped[j] == Emitted(wrapped)[i];
      e := EntryAt(s, q, j);
    } else {
      e := EntryAt(s, q, i);
    }
  }

  // ---------------------------------------------------------------- which of them

  predicate SameKey<K(==)>(a: Seen<K>, b: Seen<K>) { a.row.body == b.row.body && a.row.ts == b.row.ts }

  /** Two known payloads that differ. */
  predicate Differ<K>(a: Seen<K>, b: Seen<K>) {
    a.row.raw.Some? && b.row.raw.Some? && a.row.raw.value != b.row.raw.value
  }

  predicate RanksBefore<K>(a: Seen<K>, b: Seen<K>) {
    Lex.Lt(NodePriority(Some(a.node)), NodePriority(Some(b.node)))
  }

  /** Of the rows of a key the one yielded is the first in scan order, or of a node that ranks before
      that one's; no later row of the key has another payload and a node that ranks before its own. */
  lemma YieldedSurvives<K(!new)>(s: Store<K>, q: Query, f: nat) returns (i: nat)
    requires TwoNodes(s, q) && f < |Ordered(s, q)|
    requires forall j :: 0 <= j < f ==> !SameKey(Ordered(s, q)[j], Ordered(s, q)[f])
    ensures var seen := Ordered(s, q);
            && f <= i < |seen| && SameKey(seen[i], seen[f]) && seen[i].row.(nodeId := None) in ScanRows(s, q)
            && (i == f || RanksBefore(seen[i], seen[f]))
            && (forall j :: i < j < |seen| && SameKey(seen[j], seen[i]) && Differ(seen[i], seen[j]) ==>
                  !RanksBefore(seen[j], seen[i]))
  {
    var seen := Ordered(s, q);
    var wrapped, key := Map(Wrap, seen), KeyOf(seen[f].row);
    NodesCounted(s, q);
    i := SurvivorStands(wrapped, key, f);
    LiveIsEmitted(wrapped, key);
    var j :| 0 <= j < |Emitted(wrapped)| && Emitted(wrapped)[j] == wrapped[i];
    assert ScanRows(s, q)[j] == seen[i].row.(nodeId := None);
  }
}
