/** What a reconstruction starts from, level by level: the stored snapshot with the highest sequence,
    or else the first snapshot group of the events. */
module Baselines {
  import opened Basics
  import opened Sorting
  import opened Dedup
  import opened Scan
  import opened Replay

  // ---------------------------------------------------------------- levels of a list of quotes

  predicate Sets(q: Quote, side: Side, p: Price) { q.side == side && q.price == p && q.quantity > 0 }

  /** The last quote that sets a level, or -1. */
  function LastSet(quotes: seq<Quote>, side: Side, p: Price): (i: int)
    ensures -1 <= i < |quotes| && (i >= 0 ==> Sets(quotes[i], side, p))
    ensures forall j :: i < j < |quotes| ==> !Sets(quotes[j], side, p)
  {
    if quotes == [] then -1
    else if Sets(quotes[|quotes| - 1], side, p) then |quotes| - 1
    else LastSet(quotes[..|quotes| - 1], side, p)
  }

  lemma {:induction false} LevelOfLast(quotes: seq<Quote>, side: Side, p: Price)
    ensures var levels, i := Levels(Positive(quotes), side), LastSet(quotes, side, p);
            if i < 0 then p !in levels else p in levels && levels[p] == quotes[i].quantity
  {
    if quotes != [] { LevelOfLast(quotes[..|quotes| - 1], side, p); }
  }

  // ---------------------------------------------------------------- stored snapshots

  /** A row of the highest sequence. */
  ghost predicate Top(rows: seq<Snap>, i: nat) {
    i < |rows| && forall k :: 0 <= k < |rows| ==> rows[k].body.baselineSeq <= rows[i].body.baselineSeq
  }

  /** Such a row that quotes a level. */
  ghost predicate TopQuotes(rows: seq<Snap>, i: nat, side: Side, p: Price) {
    Top(rows, i) && rows[i].body.side == side && rows[i].body.price == p && rows[i].body.quantity > 0
  }

  /** The last of them. */
  ghost predicate LastQuotes(rows: seq<Snap>, i: nat, side: Side, p: Price) {
    TopQuotes(rows, i, side, p) && forall j :: i < j < |rows| ==> !TopQuotes(rows, j, side, p)
  }

  /** The rows of the highest sequence, by their places. */
  lemma TopPlaces(rows: seq<Snap>) returns (at: seq<nat>)
    requires rows != []
    ensures var group := Filter(OfSeq(MaxSeq(rows)), rows);
            && |at| == |group| > 0 && forall k :: 0 <= k < |at| ==> at[k] < |rows| && rows[at[k]] == group[k]
    ensures forall i, k :: 0 <= i < k < |at| ==> at[i] < at[k]
    ensures forall i: nat :: Top(rows, i) <==> i in at
  {
    var m := MaxSeq(rows);
    GroupNotEmpty(rows);
    at := FilterPlaces(OfSeq(m), rows);
    forall i: nat ensures Top(rows, i) <==> i in at {
      if i in at {
        var k :| 0 <= k < |at| && at[k] == i;
        assert Filter(OfSeq(m), rows)[k] in Filter(OfSeq(m), rows);
      }
      if Top(rows, i) {
        var k :| 0 <= k < |rows| && rows[k].body.baselineSeq == m;
        assert OfSeq(m)(rows[i]);
      }
    }
  }

  lemma LastAtPlace(rows: seq<Snap>, at: seq<nat>, quotes: seq<Quote>, side: Side, p: Price)
    requires |quotes| == |at| && forall k :: 0 <= k < |at| ==> at[k] < |rows| && quotes[k] == SnapQuote(rows[at[k]])
    requires forall i, k :: 0 <= i < k < |at| ==> at[i] < at[k]
    requires forall i: nat :: Top(rows, i) <==> i in at
    ensures var k := LastSet(quotes, side, p);
            if k < 0 then forall i: nat :: !TopQuotes(rows, i, side, p) else LastQuotes(rows, at[k], side, p)
  {
    var last := LastSet(quotes, side, p);
    forall i: nat | TopQuotes(rows, i, side, p) ensures last >= 0 && i <= at[last] {
      var k :| 0 <= k < |at| && at[k] == i;
      assert Sets(quotes[k], side, p);
      if k < last { assert at[k] < at[last]; }
    }
    if last >= 0 { assert Top(rows, at[last]); }
  }

  /** A stored level is what the last row that quotes it says. */
  lemma StoredLevel(rows: seq<Snap>, side: Side, p: Price, n: int)
    requires rows != []
    ensures var levels := Levels(D14Baseline(rows).value.book, side);
            p in levels && levels[p] == n <==>
            exists i: nat :: LastQuotes(rows, i, side, p) && rows[i].body.quantity == n
  {
    var at := TopPlaces(rows);
    var quotes := Map(SnapQuote, Filter(OfSeq(MaxSeq(rows)), rows));
    LevelOfLast(quotes, side, p);
    LastAtPlace(rows, at, quotes, side, p);
    var k := LastSet(quotes, side, p);
    if k >= 0 {
      forall i: nat | LastQuotes(rows, i, side, p) ensures i == at[k] { assert LastQuotes(rows, at[k], side, p); }
    }
  }

  /** The stored baseline: none without rows; else the time of the first row of the highest sequence,
      and for each side and price the quantity of that sequence's last row that quotes it. */
  lemma StoredBaseline(rows: seq<Snap>, p: Price, n: int)
    ensures D14Baseline(rows).None? <==> rows == []
    ensures rows != [] ==>
              var b := D14Baseline(rows).value;
              && (exists i: nat :: Top(rows, i) && b.ts == rows[i].ts && forall j :: 0 <= j < i ==> !Top(rows, j))
              && (p in b.book.bids && b.book.bids[p] == n <==>
                  exists i: nat :: LastQuotes(rows, i, Bid, p) && rows[i].body.quantity == n)
              && (p in b.book.asks && b.book.asks[p] == n <==>
                  exists i: nat :: LastQuotes(rows, i, Ask, p) && rows[i].body.quantity == n)
  {
    if rows != [] {
      StoredLevel(rows, Bid, p, n);
      StoredLevel(rows, Ask, p, n);
      var at := TopPlaces(rows);
      forall j: nat | j < at[0] ensures !Top(rows, j) {
        if j in at { assert false; }
      }
      assert Top(rows, at[0]);
    }
  }

  // ---------------------------------------------------------------- which rows, in which order

  function RowOf(e: Entry<SnapBody>): Snap { e.row }

  /** Earlier first, at one time lower sequences first, and the rest by date, file and row. */
  predicate ReadBefore(a: Entry<SnapBody>, b: Entry<SnapBody>) {
    || a.row.ts < b.row.ts
    || (a.row.ts == b.row.ts && a.row.body.baselineSeq < b.row.body.baselineSeq)
    || (a.row.ts == b.row.ts && a.row.body.baselineSeq == b.row.body.baselineSeq && Before(a, b))
  }

  predicate BySnapEntry(a: Entry<SnapBody>, b: Entry<SnapBody>) { BySnapKey(ToSeen(a), ToSeen(b)) }

  lemma SnapOrder(all: seq<Entry<SnapBody>>)
    requires SortedBy(Before, all)
    ensures SortedBy(ReadBefore, StableSort(BySnapEntry, all))
  {
    SortPairs(BySnapEntry, ReadBefore, all);
    forall i, j | 0 <= i < j < |all| ensures InSortOrder(BySnapEntry, ReadBefore, all[i], all[j]) {
      assert Before(all[i], all[j]);
    }
  }

  lemma SnapsAsEntries(all: seq<Entry<SnapBody>>)
    ensures Map(Bare, StableSort(BySnapKey, Map(ToSeen, all))) == Map(RowOf, StableSort(BySnapEntry, all))
  {
    SortProject(ToSeen, BySnapEntry, BySnapKey, all);
  }

  /** The snapshot rows of the day are the collected ones in that order. */
  lemma StoredRows(s: Store<SnapBody>, q: Query) returns (es: seq<Entry<SnapBody>>)
    ensures multiset(es) == multiset(AllEntries(s, q)) && SnapRows(s, q) == Map(RowOf, es)
    ensures SortedBy(ReadBefore, es)
  {
    InOrder(s, q.start / DAY, q.end / DAY, q);
    SnapOrder(AllEntries(s, q));
    SnapsAsEntries(AllEntries(s, q));
    es := StableSort(BySnapEntry, AllEntries(s, q));
  }

  // ---------------------------------------------------------------- where the fold starts

  /** With a stored baseline: the events from the first delta after its time on. */
  lemma StartsAfterStored(b: Baseline, events: seq<Event>) returns (k: nat)
    ensures k <= |events| && FindStart(Some(b), events) == Found(Start(b, events[k..]))
    ensures forall i :: 0 <= i < k ==> !(events[i].body.kind.Delta? && events[i].ts > b.ts)
    ensures k < |events| ==> events[k].body.kind.Delta? && events[k].ts > b.ts
  {
    k := FirstIndex(DeltaAfter(b.ts), events);
    forall i | 0 <= i < k ensures !(events[i].body.kind.Delta? && events[i].ts > b.ts) {
      assert !DeltaAfter(b.ts)(events[i]);
    }
  }

  /** The longest run of snapshot events at one time that starts at the first snapshot event. */
  ghost predicate FirstGroup(events: seq<Event>, k: nat, end: nat) {
    && k < end <= |events|
    && (forall i :: 0 <= i < k ==> !events[i].body.kind.Snapshot?)
    && (forall i :: k <= i < end ==> events[i].body.kind.Snapshot? && events[i].ts == events[k].ts)
    && (end < |events| ==> !events[end].body.kind.Snapshot? || events[end].ts != events[k].ts)
  }

  predicate EventQuotes(e: Event, side: Side, p: Price) {
    e.body.side == side && e.body.price == p && e.body.quantity > 0
  }

  /** The last event of a group that quotes a level. */
  ghost predicate LastEvent(group: seq<Event>, i: nat, side: Side, p: Price) {
    i < |group| && EventQuotes(group[i], side, p) && forall j :: i < j < |group| ==> !EventQuotes(group[j], side, p)
  }

  lemma {:induction false} GroupEndsMaximal(events: seq<Event>, i: nat, ts: int)
    requires i <= |events|
    ensures var end := GroupEnd(events, i, ts);
            end < |events| ==> !events[end].body.kind.Snapshot? || events[end].ts != ts
    decreases |events| - i
  {
    if i < |events| && events[i].ts == ts && events[i].body.kind.Snapshot? { GroupEndsMaximal(events, i + 1, ts); }
  }

  lemma GroupLevel(group: seq<Event>, side: Side, p: Price, n: int)
    ensures var levels := Levels(Positive(Map(EventQuote, group)), side);
            p in levels && levels[p] == n <==>
            exists i: nat :: LastEvent(group, i, side, p) && group[i].body.quantity == n
  {
    var quotes := Map(EventQuote, group);
    LevelOfLast(quotes, side, p);
    var last := LastSet(quotes, side, p);
    forall i | 0 <= i < |group| ensures EventQuotes(group[i], side, p) == Sets(quotes[i], side, p) { }
    if last >= 0 { assert LastEvent(group, last, side, p); }
    forall i: nat | LastEvent(group, i, side, p) ensures i == last { assert Sets(quotes[i], side, p); }
  }

  /** Without one: an error when there are no events or no snapshot among them; else the first whole
      snapshot group, its time, the last quantity it quotes for each side and price, and the events
      behind it. */
  lemma StartsAtGroup(events: seq<Event>, p: Price, n: int) returns (k: nat, end: nat)
    ensures var r := FindStart(None, events);
            && (r == Missing(NoEvents) <==> events == [])
            && (r == Missing(MissingBaseline) <==> events != [] && forall e :: e in events ==> !e.body.kind.Snapshot?)
            && (r.Found? ==>
                  && FirstGroup(events, k, end) && r.start.baseline.ts == events[k].ts && r.start.rest == events[end..]
                  && (p in r.start.baseline.book.bids && r.start.baseline.book.bids[p] == n <==>
                      exists i: nat :: LastEvent(events[k..end], i, Bid, p) && events[k..end][i].body.quantity == n)
                  && (p in r.start.baseline.book.asks && r.start.baseline.book.asks[p] == n <==>
                      exists i: nat :: LastEvent(events[k..end], i, Ask, p) && events[k..end][i].body.quantity == n))
  {
    k := FirstIndex(IsSnapshot(), events);
    end := k;
    assert forall i :: 0 <= i < k ==> !events[i].body.kind.Snapshot?;
    if k < |events| {
      assert events[k] in events;
      end := GroupEnd(events, k, events[k].ts);
      GroupEndsMaximal(events, k, events[k].ts);
      GroupLevel(events[k..end], Bid, p, n);
      GroupLevel(events[k..end], Ask, p, n);
    }
  }
}
