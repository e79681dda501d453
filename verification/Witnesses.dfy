/** Stores on which reconstruction does less than it promises: a file whose only row is hidden by
    the clock changes the book, and a mid-day snapshot of one side leaves the other as it was. */
module Witnesses {
  import opened Basics
  import opened Sorting
  import opened Dedup
  import opened Scan
  import opened Replay
  import opened RowLookahead

  function Event(ts: int, kind: Kind, side: Side, price: int, quantity: int, receivedAt: int): Row<EventBody> {
    Row(ts, EventBody("upbit", "BTC", kind, side, 0, Price(price), quantity), receivedAt, None, None)
  }

  const BASE := Event(0, Snapshot, Bid, 1, 1, 0)
  const SEVEN := Event(10, Delta, Bid, 5, 7, 10)
  const NINE := Event(10, Delta, Bid, 5, 9, 10)
  const HIDDEN := Event(10, Delta, Bid, 5, 3, 99)

  /** Two deltas tied on both timestamps, the second filed under the next date. */
  function TiedStore(more: seq<File<EventBody>>): Store<EventBody> {
    map[0 := [File("date=1/a", "n", [BASE, SEVEN])], 1 := more + [File("date=2/b", "n", [NINE])]]
  }

  function Extra(): seq<File<EventBody>> { [File("date=2/a", "n", [HIDDEN])] }

  const AT_50 := DayQuery(10, Some(50))

  function At(row: Row<EventBody>, path: string, day: int, file: nat, index: nat): Entry<EventBody> {
    Entry(row, path, "n", day, file, index)
  }

  lemma OneRow(f: File<EventBody>, day: int, n: nat, q: Query)
    requires |f.rows| == 1
    ensures FileEntries(f, day, n, 0, q) ==
            if Passes(f.rows[0], q) then [Entry(f.rows[0], f.path, f.node, day, n, 0)] else []
  {
    assert FileEntries(f, day, n, 1, q) == [];
  }

  lemma FirstDay(more: seq<File<EventBody>>)
    ensures DayEntries(Files(TiedStore(more), 0), 0, 0, AT_50)
         == [At(BASE, "date=1/a", 0, 0, 0), At(SEVEN, "date=1/a", 0, 0, 1)]
  {
    var f := File("date=1/a", "n", [BASE, SEVEN]);
    assert FileEntries(f, 0, 0, 2, AT_50) == [];
    assert FileEntries(f, 0, 0, 1, AT_50) == [At(SEVEN, "date=1/a", 0, 0, 1)];
    assert DayEntries([f], 0, 1, AT_50) == [];
  }

  lemma SecondDay()
    ensures DayEntries(Files(TiedStore([]), 1), 1, 0, AT_50) == [At(NINE, "date=2/b", 1, 0, 0)]
    ensures DayEntries(Files(TiedStore(Extra()), 1), 1, 0, AT_50) == [At(NINE, "date=2/b", 1, 1, 0)]
  {
    var b := File("date=2/b", "n", [NINE]);
    OneRow(b, 1, 0, AT_50);
    OneRow(b, 1, 1, AT_50);
    OneRow(Extra()[0], 1, 0, AT_50);
    var two := Extra() + [b];
    assert [] + [b] == [b];
    assert DayEntries([b], 1, 1, AT_50) == [] && DayEntries(two, 1, 2, AT_50) == [];
    assert DayEntries(two, 1, 1, AT_50) == [At(NINE, "date=2/b", 1, 1, 0)];
  }

  lemma Collected(more: seq<File<EventBody>>, nine: Entry<EventBody>)
    requires DayEntries(Files(TiedStore(more), 1), 1, 0, AT_50) == [nine]
    ensures AllEntries(TiedStore(more), AT_50) == [At(BASE, "date=1/a", 0, 0, 0), At(SEVEN, "date=1/a", 0, 0, 1), nine]
  {
    var s := TiedStore(more);
    FirstDay(more);
    assert AT_50.start / DAY == 0 && AT_50.end / DAY == 1;
    assert Entries(s, 2, 1, AT_50) == [];
    assert Entries(s, 1, 1, AT_50) == [nine];
  }

  /** The scan's sort, by its outcome. */
  lemma SortsTo<K(!new)>(es: seq<Entry<K>>, target: seq<Entry<K>>)
    requires multiset(es) == multiset(target) && SortedBy(ByScanKey, target)
    requires forall a, b :: a in target && b in target && ByScanKey(a, b) && ByScanKey(b, a) ==> a == b
    ensures StableSort(ByScanKey, es) == target
  {
    ByScanKeyIsPreorder<K>();
    SortSorts(ByScanKey, es);
    SortedUnique(ByScanKey, target, StableSort(ByScanKey, es));
  }

  predicate Precedes<K>(a: Entry<K>, b: Entry<K>) { ByScanKey(a, b) && !ByScanKey(b, a) }

  lemma SortThree<K(!new)>(x: Entry<K>, y: Entry<K>, z: Entry<K>)
    requires Precedes(x, y) && Precedes(x, z) && Precedes(y, z)
    ensures StableSort(ByScanKey, [x, y, z]) == [x, y, z] == StableSort(ByScanKey, [x, z, y])
  {
    var target := [x, y, z];
    forall a, b | a in target && b in target && ByScanKey(a, b) && ByScanKey(b, a) ensures a == b { }
    assert multiset([x, z, y]) == multiset(target);
    SortsTo(target, target);
    SortsTo([x, z, y], target);
  }

  lemma SingleNode<K(!new)>(x: Seen<K>, y: Seen<K>, z: Seen<K>)
    requires x.node == y.node == z.node && x.row.nodeId == y.row.nodeId == z.row.nodeId == None
    ensures Deduped([x, y, z]) == [x.row, y.row, z.row]
  {
    assert !MultiNode([x, y, z]);
    MapThree(Unwrap, x, y, z);
  }

  lemma MapThree<T, U>(f: T -> U, x: T, y: T, z: T)
    ensures Map(f, [x, y, z]) == [f(x), f(y), f(z)]
  {
  }

  /** The scan of one node's rows in a given order. */
  lemma Scanned<K(!new)>(s: Store<K>, q: Query, x: Entry<K>, y: Entry<K>, z: Entry<K>)
    requires StableSort(ByScanKey, AllEntries(s, q)) == [x, y, z]
    requires x.node == y.node == z.node && x.row.nodeId == y.row.nodeId == z.row.nodeId == None
    ensures ScanRows(s, q) == [x.row, y.row, z.row]
  {
    MapThree(ToSeen, x, y, z);
    SingleNode(ToSeen(x), ToSeen(y), ToSeen(z));
  }

  predicate BidDelta(e: Row<EventBody>) {
    e.ts == 10 && e.body.kind.Delta? && e.body.side.Bid? && e.body.price == Price(5) && e.body.quantity > 0
  }

  lemma DeltaStep(a: Acc, e: Row<EventBody>)
    requires BidDelta(e) && 0 <= a.lastTs <= 10
    ensures FoldStep(a, e, 0, 300).Ok?
    ensures FoldStep(a, e, 0, 300).acc == Acc(a.book.(bids := a.book.bids[Price(5) := e.body.quantity]), 10)
  {
  }

  /** Of two deltas on one level the later wins. */
  lemma LaterDeltaWins(a: Acc, first: Row<EventBody>, last: Row<EventBody>)
    requires BidDelta(first) && BidDelta(last) && a.lastTs == 0
    ensures var r := ToOutcome(Fold(a, [first, last], 10, 0, 300));
            r.Reconstructed? && forall q :: Level(Price(5), q) in r.bids <==> q == last.body.quantity
  {
    DeltaStep(a, first);
    var b := FoldStep(a, first, 0, 300).acc;
    DeltaStep(b, last);
    var c := FoldStep(b, last, 0, 300).acc;
    assert [first, last][1..] == [last] && [last][1..] == [];
    assert Fold(c, [], 10, 0, 300) == Ok(c);
    assert Fold(b, [last], 10, 0, 300) == Ok(c);
    assert c.book.bids[Price(5)] == last.body.quantity;
  }

  lemma StartsAtBase(base: Row<EventBody>, first: Row<EventBody>, last: Row<EventBody>)
    requires base.body.kind.Snapshot? && BidDelta(first)
    ensures FindStart(None, [base, first, last])
         == Found(Start(Baseline(base.ts, Positive(Map(EventQuote, [base]))), [first, last]))
  {
    var evs := [base, first, last];
    assert FirstIndex(IsSnapshot(), evs) == 0;
    assert GroupEnd(evs, 1, base.ts) == 1 && GroupEnd(evs, 0, base.ts) == 1;
    assert evs[0..1] == [base] && evs[1..] == [first, last];
  }

  lemma NoSnapshots(q: Query)
    requires q.start / DAY == 0 && q.end / DAY == 1
    ensures SnapRows(map[], q) == []
  {
    assert Entries<SnapBody>(map[], 2, 1, q) == [];
    assert Entries<SnapBody>(map[], 1, 1, q) == [];
    assert AllEntries<SnapBody>(map[], q) == [];
  }

  /** The book of a store without stored snapshots, from what is scanned. */
  lemma BookFromScan(s: Store<EventBody>, events: seq<Row<EventBody>>)
    requires ScanRows(s, AT_50) == events
    ensures OrderbookAt(s, map[], 10, Some(50), 300) == ToOutcome(FoldFrom(FindStart(None, events), 10, 300))
  {
    NoSnapshots(AT_50);
  }

  /** From the baseline, the later delta wins. */
  lemma Replayed(s: Store<EventBody>, first: Row<EventBody>, last: Row<EventBody>)
    requires ScanRows(s, AT_50) == [BASE, first, last] && BidDelta(first) && BidDelta(last)
    ensures ShowsBid(OrderbookAt(s, map[], 10, Some(50), 300), last.body.quantity)
  {
    BookFromScan(s, [BASE, first, last]);
    StartsAtBase(BASE, first, last);
    LaterDeltaWins(Acc(Positive(Map(EventQuote, [BASE])), 0), first, last);
  }

  lemma HiddenFile()
    ensures Indistinguishable(TiedStore([]), TiedStore(Extra()), Some(50))
  {
    var b := File("date=2/b", "n", [NINE]);
    assert [] + [b] == [b];
    assert VisibleIn(Extra()[0], 1, Some(50)) == [] && VisibleIn(Extra()[0], 0, Some(50)) == [];
    assert (Extra() + [b])[1..] == [b];
    assert VisibleRows(Extra() + [b], Some(50)) == VisibleRows([b], Some(50));
  }

  lemma Order(more: seq<File<EventBody>>, nine: Entry<EventBody>)
    requires DayEntries(Files(TiedStore(more), 1), 1, 0, AT_50) == [nine]
    requires nine.row == NINE && nine.node == "n" && nine.index == 0
    ensures ScanRows(TiedStore(more), AT_50) == if nine.file == 0 then [BASE, NINE, SEVEN] else [BASE, SEVEN, NINE]
  {
    var base, seven := At(BASE, "date=1/a", 0, 0, 0), At(SEVEN, "date=1/a", 0, 0, 1);
    Collected(more, nine);
    if nine.file == 0 {
      SortThree(base, nine, seven);
      Scanned(TiedStore(more), AT_50, base, nine, seven);
    } else {
      SortThree(base, seven, nine);
      Scanned(TiedStore(more), AT_50, base, seven, nine);
    }
  }

  function BookOf(more: seq<File<EventBody>>): Outcome { OrderbookAt(TiedStore(more), map[], 10, Some(50), 300) }

  ghost predicate ShowsBid(r: Outcome, quantity: int) {
    r.Reconstructed? && forall q :: Level(Price(5), q) in r.bids <==> q == quantity
  }

  lemma WithoutFile()
    ensures ShowsBid(BookOf([]), 7)
  {
    SecondDay();
    Order([], At(NINE, "date=2/b", 1, 0, 0));
    Replayed(TiedStore([]), NINE, SEVEN);
  }

  lemma WithFile()
    ensures ShowsBid(BookOf(Extra()), 9)
  {
    SecondDay();
    Order(Extra(), At(NINE, "date=2/b", 1, 1, 0));
    Replayed(TiedStore(Extra()), SEVEN, NINE);
  }

  lemma BidsDiffer(r: Outcome, s: Outcome)
    requires ShowsBid(r, 7) && ShowsBid(s, 9)
    ensures r != s
  {
    assert Level(Price(5), 7) in r.bids && Level(Price(5), 7) !in s.bids;
  }

  /** A file that holds nothing but a row received after the clock moves the tied rows of its
      partition behind those of the other, and the book shows the other quantity. */
  lemma HiddenFileChangesBook()
    ensures Indistinguishable(TiedStore([]), TiedStore(Extra()), Some(50))
    ensures BookOf([]) != BookOf(Extra())
  {
    HiddenFile();
    WithoutFile();
    WithFile();
    BidsDiffer(BookOf([]), BookOf(Extra()));
  }

  function DateDirectory(): int -> string { day => if day == 0 then "date=1/" else "date=2/" }

  lemma TiedEntry(e: Entry<EventBody>)
    ensures e in AllEntries(TiedStore([]), AT_50) <==>
            e in [At(BASE, "date=1/a", 0, 0, 0), At(SEVEN, "date=1/a", 0, 0, 1), At(NINE, "date=2/b", 1, 0, 0)]
  {
    SecondDay();
    Collected([], At(NINE, "date=2/b", 1, 0, 0));
  }

  /** One file a day, each below its date's directory. */
  lemma OneFileADay(dir: int -> string, f: File<EventBody>, g: File<EventBody>, x: string, y: string)
    requires |dir(0)| == |dir(1)| && dir(0) != dir(1) && f.path == dir(0) + x && g.path == dir(1) + y
    requires |x| > 0 && x[0] > '!' && |y| > 0 && y[0] > '!'
    ensures var s := map[0 := [f], 1 := [g]]; Directories(dir, s.Keys) && Listed(s, dir) && Named(s, dir)
  {
    assert f.path[|dir(0)|] == x[0] && g.path[|dir(1)|] == y[0];
  }

  lemma TiedStoreListed()
    ensures var s, dir := TiedStore([]), DateDirectory();
            Directories(dir, s.Keys) && Listed(s, dir) && Named(s, dir)
  {
    var f, g := File("date=1/a", "n", [BASE, SEVEN]), File("date=2/b", "n", [NINE]);
    var one, two := "date=1/", "date=2/";
    assert one[5] != two[5] && f.path == one + "a" && g.path == two + "b";
    OneFileADay(DateDirectory(), f, g, "a", "b");
    assert [] + [g] == [g];
  }

  lemma TiedStoreTies()
    ensures var s := TiedStore([]);
            && RowLookahead.OneNode(s, AT_50) && !NoCrossTie(s, AT_50) && !CrossTiesAgree(s, AT_50)
  {
    var s, seven, nine := TiedStore([]), At(SEVEN, "date=1/a", 0, 0, 1), At(NINE, "date=2/b", 1, 0, 0);
    forall e | e in AllEntries(s, AT_50) ensures e.node == "n" { TiedEntry(e); }
    TiedEntry(seven);
    TiedEntry(nine);
    assert Tied(seven, nine) && Plain(seven.row) != Plain(nine.row);
  }

  /** The store of the first witness is one the exact theorems speak of, on their failing side. */
  lemma TiedStoreIsOrdinary()
    ensures var s, dir := TiedStore([]), DateDirectory();
            && Directories(dir, s.Keys) && Listed(s, dir) && Named(s, dir)
            && OneDay(AT_50) && AT_50.clock.Some? && RowLookahead.OneNode(s, AT_50)
            && !NoCrossTie(s, AT_50) && !CrossTiesAgree(s, AT_50)
  {
    TiedStoreListed();
    TiedStoreTies();
  }

  // ---------------------------------------------------------------- a stale level

  const ASK := Event(0, Snapshot, Ask, 2, 5, 0)
  const AGAIN := Event(10, Snapshot, Bid, 1, 3, 10)

  /** A day that opens with one bid and one ask, and re-baselines with one bid. */
  function OneFile(): File<EventBody> { File("date=1/a", "n", [BASE, ASK, AGAIN]) }
  function OneFileStore(): Store<EventBody> { map[0 := [OneFile()]] }

  lemma OneFileScanned()
    ensures ScanRows(OneFileStore(), AT_50) == [BASE, ASK, AGAIN]
  {
    var s, f := OneFileStore(), OneFile();
    var x, y, z := At(BASE, f.path, 0, 0, 0), At(ASK, f.path, 0, 0, 1), At(AGAIN, f.path, 0, 0, 2);
    assert FileEntries(f, 0, 0, 3, AT_50) == [];
    assert FileEntries(f, 0, 0, 2, AT_50) == [z];
    assert FileEntries(f, 0, 0, 1, AT_50) == [y, z];
    assert FileEntries(f, 0, 0, 0, AT_50) == [x, y, z];
    assert DayEntries([f], 0, 1, AT_50) == [] && DayEntries([f], 0, 0, AT_50) == [x, y, z];
    OnlyDay(s, [x, y, z]);
    SortThree(x, y, z);
    Scanned(s, AT_50, x, y, z);
  }

  lemma OnlyDay(s: Store<EventBody>, es: seq<Entry<EventBody>>)
    requires DayEntries(Files(s, 0), 0, 0, AT_50) == es && 1 !in s
    ensures AllEntries(s, AT_50) == es
  {
    assert AT_50.start / DAY == 0 && AT_50.end / DAY == 1;
    assert Entries(s, 2, 1, AT_50) == [] && DayEntries<EventBody>([], 1, 0, AT_50) == [];
    assert Entries(s, 1, 1, AT_50) == [];
  }

  lemma BothSidesStart(bid: Row<EventBody>, ask: Row<EventBody>, again: Row<EventBody>)
    requires bid.body.kind.Snapshot? && ask.body.kind.Snapshot? && bid.ts == ask.ts != again.ts
    ensures FindStart(None, [bid, ask, again])
         == Found(Start(Baseline(bid.ts, Positive(Map(EventQuote, [bid, ask]))), [again]))
  {
    var evs := [bid, ask, again];
    assert FirstIndex(IsSnapshot(), evs) == 0;
    assert GroupEnd(evs, 2, bid.ts) == 2 && GroupEnd(evs, 1, bid.ts) == 2 && GroupEnd(evs, 0, bid.ts) == 2;
    assert evs[0..2] == [bid, ask] && evs[2..] == [again];
  }

  lemma Opening()
    ensures Positive(Map(EventQuote, [BASE, ASK])) == Book(map[Price(1) := 1], map[Price(2) := 5])
  {
    var quotes := Map(EventQuote, [BASE, ASK]);
    assert quotes == [Quote(Bid, Price(1), 1), Quote(Ask, Price(2), 5)];
    assert quotes[..1] == [quotes[0]] && [quotes[0]][..0] == [];
    assert Positive([quotes[0]]) == Book(map[Price(1) := 1], map[]);
  }

  lemma BidOnly(a: Acc)
    requires a == Acc(Book(map[Price(1) := 1], map[Price(2) := 5]), 0)
    ensures Fold(a, [AGAIN], 10, 0, 300) == Ok(Acc(Book(map[Price(1) := 3], map[Price(2) := 5]), 10))
  {
    var b := FoldStep(a, AGAIN, 0, 300).acc;
    assert b.book == Book(map[Price(1) := 3], map[Price(2) := 5]);
    assert [AGAIN][1..] == [] && Fold(b, [], 10, 0, 300) == Ok(b);
  }

  lemma BookAtTen()
    ensures FoldFrom(FindStart(None, [BASE, ASK, AGAIN]), 10, 300)
         == Ok(Acc(Book(map[Price(1) := 3], map[Price(2) := 5]), 10))
  {
    BothSidesStart(BASE, ASK, AGAIN);
    Opening();
    BidOnly(Acc(Positive(Map(EventQuote, [BASE, ASK])), 0));
  }

  lemma StaleBook()
    ensures OrderbookAt(OneFileStore(), map[], 10, Some(50), 300)
         == ToOutcome(Ok(Acc(Book(map[Price(1) := 3], map[Price(2) := 5]), 10)))
  {
    OneFileScanned();
    BookFromScan(OneFileStore(), [BASE, ASK, AGAIN]);
    BookAtTen();
  }

  lemma AskShown(book: Book, ts: int, p: Price)
    requires p in book.asks
    ensures ToOutcome(Ok(Acc(book, ts))).Reconstructed?
    ensures Level(p, book.asks[p]) in ToOutcome(Ok(Acc(book, ts))).asks
  {
  }

  lemma NoAskQuoted()
    ensures Positive(Map(EventQuote, [AGAIN])).asks == map[]
  {
    assert Map(EventQuote, [AGAIN])[..0] == [];
  }

  /** The group at ten quotes one bid and no ask, and the book at ten still shows an earlier ask. */
  lemma StaleAskSurvives()
    ensures Positive(Map(EventQuote, [AGAIN])).asks == map[]
    ensures var r := OrderbookAt(OneFileStore(), map[], 10, Some(50), 300);
            r.Reconstructed? && Level(Price(2), 5) in r.asks
  {
    NoAskQuoted();
    StaleBook();
    AskShown(Book(map[Price(1) := 3], map[Price(2) := 5]), 10, Price(2));
  }
}
