/** Point-in-time reconstruction of an L2 order book: `get_orderbook_at`, with its baseline from
    the snapshot partition (D14) or from the first snapshot group of the event stream (D11). */
module Replay {
  import opened Basics
  import opened Sorting
  import opened Dedup
  import opened Scan
  import opened Ascents

  type Event = Row<EventBody>

  /** A level of a stored baseline snapshot. */
  datatype SnapBody = SnapBody(baselineSeq: int, side: Side, level: int, price: Price, quantity: int)
  type Snap = Row<SnapBody>

  datatype Book = Book(bids: map<Price, int>, asks: map<Price, int>)
  datatype Level = Level(price: Price, quantity: int)
  datatype Quote = Quote(side: Side, price: Price, quantity: int)

  datatype Error =
    | NoEvents
    | MissingBaseline
    | Gap(after: int, before: int)
    | NonMonotonic(ts: int, lastTs: int)

  datatype Outcome = Reconstructed(bids: seq<Level>, asks: seq<Level>) | Failed(error: Error)

  function Levels(b: Book, side: Side): map<Price, int> { if side.Bid? then b.bids else b.asks }

  function WithLevels(b: Book, side: Side, levels: map<Price, int>): Book {
    if side.Bid? then b.(bids := levels) else b.(asks := levels)
  }

  function EventQuote(e: Event): Quote { Quote(e.body.side, e.body.price, e.body.quantity) }
  function SnapQuote(r: Snap): Quote { Quote(r.body.side, r.body.price, r.body.quantity) }

  // ---------------------------------------------------------------- baselines

  /** A snapshot group's levels: the last positive quantity per side and price. */
  function Positive(quotes: seq<Quote>): Book {
    if quotes == [] then Book(map[], map[])
    else Overlay(Positive(quotes[..|quotes| - 1]), quotes[|quotes| - 1])
  }

  function Overlay(b: Book, q: Quote): Book {
    if q.quantity > 0 then WithLevels(b, q.side, Levels(b, q.side)[q.price := q.quantity]) else b
  }

  datatype Baseline = Baseline(ts: int, book: Book)

  predicate BySnapKey(a: Seen<SnapBody>, b: Seen<SnapBody>) {
    a.row.ts < b.row.ts || (a.row.ts == b.row.ts && a.row.body.baselineSeq <= b.row.body.baselineSeq)
  }

  function Bare(e: Seen<SnapBody>): Snap { e.row }

  /** `scan_orderbook_snapshots`: filtered like the events, stably sorted on time and sequence. */
  function SnapRows(s: Store<SnapBody>, q: Query): seq<Snap> {
    Map(Bare, StableSort(BySnapKey, Map(ToSeen, AllEntries(s, q))))
  }

  function MaxSeq(rows: seq<Snap>): (m: int)
    requires rows != []
    ensures exists i :: 0 <= i < |rows| && rows[i].body.baselineSeq == m
    ensures forall i :: 0 <= i < |rows| ==> rows[i].body.baselineSeq <= m
  {
    var last := rows[|rows| - 1].body.baselineSeq;
    if |rows| == 1 then last
    else
      var m := MaxSeq(rows[..|rows| - 1]);
      if last > m then last else m
  }

  function OfSeq(m: int): Snap -> bool { (r: Snap) => r.body.baselineSeq == m }

  lemma GroupNotEmpty(rows: seq<Snap>)
    requires rows != []
    ensures Filter(OfSeq(MaxSeq(rows)), rows) != []
  {
    var i :| 0 <= i < |rows| && rows[i].body.baselineSeq == MaxSeq(rows);
    assert rows[i] in Filter(OfSeq(MaxSeq(rows)), rows);
  }

  /** `_load_baseline_from_d14`: the group with the highest sequence of the day. */
  function D14Baseline(rows: seq<Snap>): Option<Baseline> {
    if rows == [] then None
    else
      var group := Filter(OfSeq(MaxSeq(rows)), rows);
      GroupNotEmpty(rows);
      Some(Baseline(group[0].ts, Positive(Map(SnapQuote, group))))
  }

  /** Where the fold starts: the baseline and the events after it. */
  datatype Start = Start(baseline: Baseline, rest: seq<Event>)
  datatype StartResult = Found(start: Start) | Missing(error: Error)

  function FirstIndex(p: Event -> bool, events: seq<Event>): (k: nat)
    ensures k <= |events|
    ensures k < |events| ==> p(events[k])
    ensures forall i :: 0 <= i < k ==> !p(events[i])
  {
    if events == [] || p(events[0]) then 0 else 1 + FirstIndex(p, events[1..])
  }

  function DeltaAfter(ts: int): Event -> bool { (e: Event) => e.ts > ts && e.body.kind.Delta? }
  function IsSnapshot(): Event -> bool { (e: Event) => e.body.kind.Snapshot? }

  function GroupEnd(events: seq<Event>, i: nat, ts: int): (k: nat)
    requires i <= |events|
    ensures i <= k <= |events|
    ensures forall j :: i <= j < k ==> events[j].ts == ts && events[j].body.kind.Snapshot?
    decreases |events| - i
  {
    if i < |events| && events[i].ts == ts && events[i].body.kind.Snapshot? then GroupEnd(events, i + 1, ts) else i
  }

  function FindStart(d14: Option<Baseline>, events: seq<Event>): StartResult {
    if d14.Some? then
      Found(Start(d14.value, events[FirstIndex(DeltaAfter(d14.value.ts), events)..]))
    else if events == [] then Missing(NoEvents)
    else
      var k := FirstIndex(IsSnapshot(), events);
      if k == |events| then Missing(MissingBaseline)
      else
        var end := GroupEnd(events, k, events[k].ts);
        Found(Start(Baseline(events[k].ts, Positive(Map(EventQuote, events[k..end]))), events[end..]))
  }

  // ---------------------------------------------------------------- fold

  datatype Acc = Acc(book: Book, lastTs: int)
  datatype Folded = Ok(acc: Acc) | Err(error: Error)

  /** A snapshot row after the baseline's own group re-baselines: it clears its side unless the
      previous event had the same time. */
  function ApplyEvent(b: Book, e: Event, lastTs: int, baselineTs: int): Book {
    match e.body.kind
    case Delta =>
      var levels := Levels(b, e.body.side);
      WithLevels(b, e.body.side,
                 if e.body.quantity == 0 then levels - {e.body.price} else levels[e.body.price := e.body.quantity])
    case Snapshot =>
      if e.ts == baselineTs then b
      else Overlay(if lastTs != e.ts then WithLevels(b, e.body.side, map[]) else b, EventQuote(e))
    case Other(_) => b
  }

  function FoldStep(a: Acc, e: Event, baselineTs: int, threshold: int): Folded {
    if e.ts - a.lastTs > threshold then Err(Gap(a.lastTs, e.ts))
    else if e.ts < a.lastTs then Err(NonMonotonic(e.ts, a.lastTs))
    else Ok(Acc(ApplyEvent(a.book, e, a.lastTs, baselineTs), e.ts))
  }

  /** The fold over the events at or before `t`. */
  function Fold(a: Acc, events: seq<Event>, t: int, baselineTs: int, threshold: int): Folded
    decreases |events|
  {
    if events == [] || events[0].ts > t then Ok(a)
    else
      var next := FoldStep(a, events[0], baselineTs, threshold);
      if next.Err? then next else Fold(next.acc, events[1..], t, baselineTs, threshold)
  }

  // ---------------------------------------------------------------- result

  /** `sorted(asks.items())`. */
  function AskLevels(m: map<Price, int>): (ls: seq<Level>)
    ensures forall p, q :: Level(p, q) in ls <==> p in m && m[p] == q
    ensures forall i, j :: 0 <= i < j < |ls| ==> ls[i].price.scaled < ls[j].price.scaled
  {
    var ps := Ascending(m.Keys);
    assert forall i :: 0 <= i < |ps| ==> ps[i] in ps;
    var ls := seq(|ps|, i requires 0 <= i < |ps| => Level(ps[i], m[ps[i]]));
    ListsAll(m, ps, ls);
    ls
  }

  lemma ListsAll(m: map<Price, int>, ps: seq<Price>, ls: seq<Level>)
    requires forall p :: p in ps <==> p in m
    requires |ls| == |ps| && forall i :: 0 <= i < |ls| ==> ps[i] in m && ls[i] == Level(ps[i], m[ps[i]])
    ensures forall p, q :: Level(p, q) in ls <==> p in m && m[p] == q
  {
    forall p, q | p in m && m[p] == q ensures Level(p, q) in ls {
      var i :| 0 <= i < |ps| && ps[i] == p;
      assert ls[i] == Level(p, q);
    }
  }

  function Reversed(ls: seq<Level>): (r: seq<Level>)
    ensures |r| == |ls|
    ensures forall i :: 0 <= i < |ls| ==> r[i] == ls[|ls| - 1 - i]
    ensures forall l :: l in r <==> l in ls
  {
    if ls == [] then [] else [ls[|ls| - 1]] + Reversed(ls[..|ls| - 1])
  }

  /** `sorted(bids.items(), key=-price)`. */
  function BidLevels(m: map<Price, int>): (ls: seq<Level>)
    ensures forall p, q :: Level(p, q) in ls <==> p in m && m[p] == q
    ensures forall i, j :: 0 <= i < j < |ls| ==> ls[i].price.scaled > ls[j].price.scaled
  {
    Reversed(AskLevels(m))
  }

  function ToOutcome(f: Folded): Outcome {
    match f
    case Ok(a) => Reconstructed(BidLevels(a.book.bids), AskLevels(a.book.asks))
    case Err(e) => Failed(e)
  }

  function DayQuery(t: int, clock: Option<int>): Query {
    Query(t / DAY * DAY, t / DAY * DAY + DAY, clock)
  }

  function FoldFrom(r: StartResult, t: int, threshold: int): Folded {
    match r
    case Missing(e) => Err(e)
    case Found(s) => Fold(Acc(s.baseline.book, s.baseline.ts), s.rest, t, s.baseline.ts, threshold)
  }

  /** The day's baseline and events, which do not depend on the time within the day. */
  function DayStart(events: Store<EventBody>, snaps: Store<SnapBody>, q: Query): StartResult {
    FindStart(D14Baseline(SnapRows(snaps, q)), ScanRows(events, q))
  }

  function OrderbookAt(events: Store<EventBody>, snaps: Store<SnapBody>, t: int, clock: Option<int>,
                       threshold: int): Outcome {
    ToOutcome(FoldFrom(DayStart(events, snaps, DayQuery(t, clock)), t, threshold))
  }

  // ---------------------------------------------------------------- code

  /** `max(groups.keys())`. */
  method HighestSeq(rows: seq<Snap>) returns (best: int)
    requires rows != []
    ensures best == MaxSeq(rows)
  {
    best := rows[0].body.baselineSeq;
    for i := 1 to |rows|
      invariant best == MaxSeq(rows[..i])
    {
      assert rows[..i + 1][..i] == rows[..i];
      if rows[i].body.baselineSeq > best { best := rows[i].body.baselineSeq; }
    }
    assert rows[..|rows|] == rows;
  }

  /** The loop that fills the two dicts from a snapshot group. */
  method Fill(quotes: seq<Quote>) returns (book: Book)
    ensures book == Positive(quotes)
  {
    var bids: map<Price, int>, asks: map<Price, int> := map[], map[];
    for i := 0 to |quotes|
      invariant Book(bids, asks) == Positive(quotes[..i])
    {
      assert quotes[..i + 1][..i] == quotes[..i];
      if quotes[i].quantity > 0 {
        if quotes[i].side.Bid? { bids := bids[quotes[i].price := quotes[i].quantity]; }
        else { asks := asks[quotes[i].price := quotes[i].quantity]; }
      }
    }
    assert quotes[..|quotes|] == quotes;
    book := Book(bids, asks);
  }

  method LoadBaselineFromD14(snaps: Store<SnapBody>, q: Query) returns (r: Option<Baseline>)
    ensures r == D14Baseline(SnapRows(snaps, q))
  {
    var rows := SnapRows(snaps, q);
    if rows == [] { return None; }
    var best := HighestSeq(rows);
    var group := Filter(OfSeq(best), rows);
    var book := Fill(Map(SnapQuote, group));
    GroupNotEmpty(rows);
    return Some(Baseline(group[0].ts, book));
  }

  /** The baseline group of the event stream: `i` stops behind it. */
  method LoadBaselineFromEvents(events: seq<Event>, first: nat) returns (book: Book, i: nat)
    requires first < |events|
    ensures i == GroupEnd(events, first, events[first].ts)
    ensures book == Positive(Map(EventQuote, events[first..i]))
  {
    var ts := events[first].ts;
    var quotes: seq<Quote> := [];
    i := first;
    while i < |events| && events[i].ts == ts && events[i].body.kind.Snapshot?
      invariant first <= i <= |events|
      invariant GroupEnd(events, first, ts) == GroupEnd(events, i, ts)
      invariant |quotes| == i - first && forall j :: first <= j < i ==> quotes[j - first] == EventQuote(events[j])
    {
      quotes := quotes + [EventQuote(events[i])];
      i := i + 1;
    }
    assert quotes == Map(EventQuote, events[first..i]);
    book := Fill(quotes);
  }

  /** `get_orderbook_at`. */
  method GetOrderbookAt(events: Store<EventBody>, snaps: Store<SnapBody>, t: int, clock: Option<int>,
                        threshold: int, monotonic: nat -> int) returns (r: Outcome)
    ensures r == OrderbookAt(events, snaps, t, clock, threshold)
  {
    var q := DayQuery(t, clock);
    var d14 := LoadBaselineFromD14(snaps, q);
    var evs := ScanStore(events, q, monotonic);
    var baselineTs: int;
    var book: Book;
    var rest: seq<Event>;
    if d14.Some? {
      baselineTs, book := d14.value.ts, d14.value.book;
      rest := evs[FirstIndex(DeltaAfter(baselineTs), evs)..];
    } else {
      if evs == [] { return Failed(NoEvents); }
      var k := FirstIndex(IsSnapshot(), evs);
      if k == |evs| { return Failed(MissingBaseline); }
      baselineTs := evs[k].ts;
      var i: nat;
      book, i := LoadBaselineFromEvents(evs, k);
      rest := evs[i..];
    }
    assert FindStart(d14, evs) == Found(Start(Baseline(baselineTs, book), rest));
    var folded := FoldForward(book, baselineTs, rest, t, threshold);
    return ToOutcome(folded);
  }

  /** The fold loop, on the two dicts and `last_ts`. */
  method FoldForward(start: Book, baselineTs: int, events: seq<Event>, t: int, threshold: int) returns (r: Folded)
    ensures r == Fold(Acc(start, baselineTs), events, t, baselineTs, threshold)
  {
    var bids, asks, lastTs := start.bids, start.asks, baselineTs;
    var i := 0;
    while i < |events|
      invariant 0 <= i <= |events|
      invariant Fold(Acc(start, baselineTs), events, t, baselineTs, threshold)
             == Fold(Acc(Book(bids, asks), lastTs), events[i..], t, baselineTs, threshold)
    {
      var e := events[i];
      assert events[i..][1..] == events[i + 1..];
      if e.ts > t { break; }
      if e.ts - lastTs > threshold { return Err(Gap(lastTs, e.ts)); }
      if e.ts < lastTs { return Err(NonMonotonic(e.ts, lastTs)); }
      if e.body.kind.Delta? {
        if e.body.side.Bid? {
          bids := if e.body.quantity == 0 then bids - {e.body.price} else bids[e.body.price := e.body.quantity];
        } else {
          asks := if e.body.quantity == 0 then asks - {e.body.price} else asks[e.body.price := e.body.quantity];
        }
      } else if e.body.kind.Snapshot? && e.ts != baselineTs {
        if e.body.side.Bid? {
          if lastTs != e.ts { bids := map[]; }
          if e.body.quantity > 0 { bids := bids[e.body.price := e.body.quantity]; }
        } else {
          if lastTs != e.ts { asks := map[]; }
          if e.body.quantity > 0 { asks := asks[e.body.price := e.body.quantity]; }
        }
      }
      lastTs := e.ts;
      i := i + 1;
    }
    return Ok(Acc(Book(bids, asks), lastTs));
  }
}
