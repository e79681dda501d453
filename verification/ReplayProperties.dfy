/** What `get_orderbook_at` promises: no lookahead, last writer wins, fail closed, composition. */
module ReplayProperties {
  import opened Basics
  import opened Sorting
  import opened Dedup
  import opened Scan
  import opened Replay

  // ---------------------------------------------------------------- no lookahead

  /** Rows received after the clock, snapshots or events, never change the outcome, book or
      error, as long as no visible events of different date partitions tie. */
  lemma NoLookahead(ev: Store<EventBody>, ev': Store<EventBody>, sn: Store<SnapBody>, sn': Store<SnapBody>,
                    t: int, clock: Option<int>, threshold: int)
    requires Indistinguishable(ev, ev', clock) && Indistinguishable(sn, sn', clock)
    requires NoCrossTie(ev, DayQuery(t, clock))
    ensures OrderbookAt(ev, sn, t, clock, threshold) == OrderbookAt(ev', sn', t, clock, threshold)
  {
    var q := DayQuery(t, clock);
    ScanNoLookahead(ev, ev', q);
    SameEntries(sn, sn', q.start / DAY, q.end / DAY, q);
  }

  /** When no event is filed under a later date than its own, nothing received after the clock
      has any effect. */
  lemma NoLookaheadWhenFiled(ev: Store<EventBody>, ev': Store<EventBody>, sn: Store<SnapBody>, sn': Store<SnapBody>,
                             t: int, clock: Option<int>, threshold: int)
    requires Indistinguishable(ev, ev', clock) && Indistinguishable(sn, sn', clock) && NotFiledLate(ev)
    ensures OrderbookAt(ev, sn, t, clock, threshold) == OrderbookAt(ev', sn', t, clock, threshold)
  {
    DayRowsDoNotTie(ev, DayQuery(t, clock));
    NoLookahead(ev, ev', sn, sn', t, clock, threshold);
  }

  // ---------------------------------------------------------------- time order

  ghost predicate InTimeOrder(from: int, events: seq<Event>) {
    && (forall i :: 0 <= i < |events| ==> from <= events[i].ts)
    && (forall i, j :: 0 <= i < j < |events| ==> events[i].ts <= events[j].ts)
  }

  lemma StartInOrder(d14: Option<Baseline>, events: seq<Event>)
    requires forall i, j :: 0 <= i < j < |events| ==> events[i].ts <= events[j].ts
    ensures FindStart(d14, events).Found? ==>
              var s := FindStart(d14, events).start; InTimeOrder(s.baseline.ts, s.rest)
  {
    if d14.Some? {
      SuffixInOrder(events, FirstIndex(DeltaAfter(d14.value.ts), events), d14.value.ts);
    } else {
      var k := FirstIndex(IsSnapshot(), events);
      if k < |events| {
        assert forall i :: k <= i < |events| ==> events[k].ts <= events[i].ts;
        SuffixInOrder(events, GroupEnd(events, k, events[k].ts), events[k].ts);
      }
    }
  }

  lemma SuffixInOrder(events: seq<Event>, k: nat, from: int)
    requires forall i, j :: 0 <= i < j < |events| ==> events[i].ts <= events[j].ts
    requires k <= |events| && (k < |events| ==> from <= events[k].ts)
    ensures InTimeOrder(from, events[k..])
  {
    forall i | k <= i < |events| ensures from <= events[i].ts { assert i > k ==> events[k].ts <= events[i].ts; }
  }

  lemma DayInOrder(ev: Store<EventBody>, sn: Store<SnapBody>, q: Query)
    ensures DayStart(ev, sn, q).Found? ==>
              var s := DayStart(ev, sn, q).start; InTimeOrder(s.baseline.ts, s.rest)
  {
    ScanSorted(ev, q);
    StartInOrder(D14Baseline(SnapRows(sn, q)), ScanRows(ev, q));
  }

  // ---------------------------------------------------------------- gaps

  /** The events the fold takes in. */
  function UpTo(events: seq<Event>, t: int): (xs: seq<Event>)
    ensures xs <= events && forall x :: x in xs ==> x.ts <= t
    ensures |xs| < |events| ==> events[|xs|].ts > t
  {
    if events == [] || events[0].ts > t then [] else [events[0]] + UpTo(events[1..], t)
  }

  ghost predicate GapsWithin(from: int, xs: seq<Event>, threshold: int) {
    && (xs != [] ==> xs[0].ts - from <= threshold)
    && (forall i :: 0 < i < |xs| ==> xs[i].ts - xs[i - 1].ts <= threshold)
  }

  lemma {:induction false} FoldSucceedsExactly(a: Acc, events: seq<Event>, t: int, base: int, threshold: int)
    requires InTimeOrder(a.lastTs, events)
    ensures Fold(a, events, t, base, threshold).Ok? <==> GapsWithin(a.lastTs, UpTo(events, t), threshold)
    ensures Fold(a, events, t, base, threshold).Err? ==> Fold(a, events, t, base, threshold).error.Gap?
    decreases |events|
  {
    if events != [] && events[0].ts <= t {
      var next := FoldStep(a, events[0], base, threshold);
      var xs := UpTo(events, t);
      assert xs[0] == events[0] && xs[1..] == UpTo(events[1..], t);
      if next.Ok? {
        TailInOrder(a.lastTs, events);
        FoldSucceedsExactly(next.acc, events[1..], t, base, threshold);
        GapsTail(a.lastTs, xs, threshold);
      }
    }
  }

  lemma TailInOrder(from: int, events: seq<Event>)
    requires InTimeOrder(from, events) && events != []
    ensures InTimeOrder(events[0].ts, events[1..])
  {
  }

  lemma GapsTail(from: int, xs: seq<Event>, threshold: int)
    requires xs != [] && xs[0].ts - from <= threshold
    ensures GapsWithin(from, xs, threshold) <==> GapsWithin(xs[0].ts, xs[1..], threshold)
  {
    var tail := xs[1..];
    if GapsWithin(xs[0].ts, tail, threshold) {
      forall i | 0 < i < |xs| ensures xs[i].ts - xs[i - 1].ts <= threshold {
        assert xs[i] == tail[i - 1];
        if i > 1 { assert xs[i - 1] == tail[i - 2]; }
      }
    }
    if GapsWithin(from, xs, threshold) {
      forall i | 0 < i < |tail| ensures tail[i].ts - tail[i - 1].ts <= threshold {
        assert tail[i] == xs[i + 1] && tail[i - 1] == xs[i];
      }
    }
  }

  /** The time of the event before, or of the baseline. */
  function Prev(from: int, xs: seq<Event>, i: nat): int
    requires i < |xs|
  {
    if i == 0 then from else xs[i - 1].ts
  }

  ghost predicate FirstGap(from: int, xs: seq<Event>, threshold: int, i: nat) {
    && i < |xs| && xs[i].ts - Prev(from, xs, i) > threshold
    && forall j :: 0 <= j < i ==> xs[j].ts - Prev(from, xs, j) <= threshold
  }

  lemma FirstGapTail(from: int, xs: seq<Event>, threshold: int, i: nat)
    requires xs != [] && xs[0].ts - from <= threshold && FirstGap(xs[0].ts, xs[1..], threshold, i)
    ensures FirstGap(from, xs, threshold, i + 1) && Prev(from, xs, i + 1) == Prev(xs[0].ts, xs[1..], i)
  {
    forall j | 0 <= j < i + 1 ensures xs[j].ts - Prev(from, xs, j) <= threshold {
      if j > 0 { assert Prev(from, xs, j) == Prev(xs[0].ts, xs[1..], j - 1); }
    }
  }

  /** A fold that halts on a gap names the first one. */
  lemma {:induction false} FoldNamesGap(a: Acc, events: seq<Event>, t: int, base: int, threshold: int) returns (i: nat)
    requires Fold(a, events, t, base, threshold).Err? && Fold(a, events, t, base, threshold).error.Gap?
    ensures var xs := UpTo(events, t);
            && FirstGap(a.lastTs, xs, threshold, i)
            && Fold(a, events, t, base, threshold).error == Gap(Prev(a.lastTs, xs, i), xs[i].ts)
    decreases |events|
  {
    var next := FoldStep(a, events[0], base, threshold);
    var xs := UpTo(events, t);
    assert xs[0] == events[0] && xs[1..] == UpTo(events[1..], t);
    i := 0;
    if next.Ok? {
      i := FoldNamesGap(next.acc, events[1..], t, base, threshold);
      FirstGapTail(a.lastTs, xs, threshold, i);
      i := i + 1;
    }
  }

  /** The error names the first gap between the baseline and `t` that exceeds the threshold. */
  lemma GapNamed(ev: Store<EventBody>, sn: Store<SnapBody>, t: int, clock: Option<int>, threshold: int, s: Start)
    returns (i: nat)
    requires DayStart(ev, sn, DayQuery(t, clock)) == Found(s) && OrderbookAt(ev, sn, t, clock, threshold).Failed?
    ensures var xs := UpTo(s.rest, t);
            && FirstGap(s.baseline.ts, xs, threshold, i)
            && OrderbookAt(ev, sn, t, clock, threshold) == Failed(Gap(Prev(s.baseline.ts, xs, i), xs[i].ts))
  {
    FailsExactlyOnGap(ev, sn, t, clock, threshold);
    i := FoldNamesGap(Acc(s.baseline.book, s.baseline.ts), s.rest, t, s.baseline.ts, threshold);
  }

  /** Gap policy, both ways: with a baseline, reconstruction succeeds exactly when no gap from
      the baseline through the events up to `t` exceeds the threshold, and otherwise halts with
      the gap.  The non-monotonic error is unreachable: scan and dedup always sort. */
  lemma FailsExactlyOnGap(ev: Store<EventBody>, sn: Store<SnapBody>, t: int, clock: Option<int>, threshold: int)
    ensures var r := OrderbookAt(ev, sn, t, clock, threshold);
            var d := DayStart(ev, sn, DayQuery(t, clock));
            && (d.Missing? ==> r == Failed(d.error) && (d.error.NoEvents? || d.error.MissingBaseline?))
            && (d.Found? ==>
                  && (r.Reconstructed? <==> GapsWithin(d.start.baseline.ts, UpTo(d.start.rest, t), threshold))
                  && (r.Failed? ==> r.error.Gap?))
  {
    var q := DayQuery(t, clock);
    DayInOrder(ev, sn, q);
    if DayStart(ev, sn, q).Found? {
      var s := DayStart(ev, sn, q).start;
      FoldSucceedsExactly(Acc(s.baseline.book, s.baseline.ts), s.rest, t, s.baseline.ts, threshold);
    }
  }

  // ---------------------------------------------------------------- composition

  /** The events left once the fold has stopped at `t`. */
  function After(events: seq<Event>, t: int): seq<Event> { events[|UpTo(events, t)|..] }

  lemma AfterIsLater(from: int, events: seq<Event>, t: int)
    requires InTimeOrder(from, events)
    ensures forall i :: 0 <= i < |After(events, t)| ==> After(events, t)[i].ts > t
  {
    var n := |UpTo(events, t)|;
    forall i | n <= i < |events| ensures events[i].ts > t { assert events[n].ts <= events[i].ts; }
  }

  lemma {:induction false} FoldComposes(a: Acc, events: seq<Event>, t1: int, t2: int, base: int, threshold: int)
    requires t1 <= t2
    ensures var f1 := Fold(a, events, t1, base, threshold);
            Fold(a, events, t2, base, threshold) ==
            if f1.Err? then f1 else Fold(f1.acc, After(events, t1), t2, base, threshold)
    decreases |events|
  {
    if events == [] || events[0].ts > t1 {
      assert After(events, t1) == events;
    } else {
      var next := FoldStep(a, events[0], base, threshold);
      assert After(events, t1) == After(events[1..], t1);
      if next.Ok? { FoldComposes(next.acc, events[1..], t1, t2, base, threshold); }
    }
  }

  /** Within a UTC day, the state at `t2` is the state at `t1` folded over the events in
      `(t1, t2]`; a failure at `t1` is the same failure at every later time. */
  lemma Composes(ev: Store<EventBody>, sn: Store<SnapBody>, t1: int, t2: int, clock: Option<int>, threshold: int)
    requires t1 <= t2 && t1 / DAY == t2 / DAY
    ensures var d := DayStart(ev, sn, DayQuery(t1, clock));
            var f1 := FoldFrom(d, t1, threshold);
            && OrderbookAt(ev, sn, t1, clock, threshold) == ToOutcome(f1)
            && (f1.Err? ==> OrderbookAt(ev, sn, t2, clock, threshold) == Failed(f1.error))
            && (f1.Ok? ==>
                  var later := After(d.start.rest, t1);
                  && (forall i :: 0 <= i < |later| ==> later[i].ts > t1)
                  && OrderbookAt(ev, sn, t2, clock, threshold) ==
                     ToOutcome(Fold(f1.acc, later, t2, d.start.baseline.ts, threshold)))
  {
    var q := DayQuery(t1, clock);
    assert DayQuery(t2, clock) == q;
    var d := DayStart(ev, sn, q);
    DayInOrder(ev, sn, q);
    if d.Found? {
      var s := d.start;
      FoldComposes(Acc(s.baseline.book, s.baseline.ts), s.rest, t1, t2, s.baseline.ts, threshold);
      AfterIsLater(s.baseline.ts, s.rest, t1);
    }
  }

  // ---------------------------------------------------------------- last writer wins

  function At(m: map<Price, int>, p: Price): Option<int> { if p in m then Some(m[p]) else None }

  /** The quantity of the last event for a side and price. */
  function LastQuantity(xs: seq<Event>, side: Side, p: Price): Option<int> {
    if xs == [] then None
    else
      var last := xs[|xs| - 1];
      if last.body.side == side && last.body.price == p then Some(last.body.quantity)
      else LastQuantity(xs[..|xs| - 1], side, p)
  }

  /** Absent when the last delta is zero, that delta's quantity otherwise, the baseline's
      quantity when there is none. */
  function Wanted(before: Option<int>, last: Option<int>): Option<int> {
    if last.None? then before else if last.value == 0 then None else last
  }

  lemma {:induction false} LastOfConcat(x: Event, xs: seq<Event>, side: Side, p: Price)
    ensures LastQuantity([x] + xs, side, p) ==
            if LastQuantity(xs, side, p).Some? then LastQuantity(xs, side, p) else LastQuantity([x], side, p)
  {
    if xs != [] {
      LastOfConcat(x, xs[..|xs| - 1], side, p);
      assert ([x] + xs)[..|xs|] == [x] + xs[..|xs| - 1];
    } else {
      assert [x] + xs == [x];
    }
  }

  lemma {:induction false} FoldLastWriter(a: Acc, events: seq<Event>, t: int, base: int, threshold: int,
                                          side: Side, p: Price)
    requires forall e :: e in UpTo(events, t) ==> e.body.kind.Delta?
    requires Fold(a, events, t, base, threshold).Ok?
    ensures At(Levels(Fold(a, events, t, base, threshold).acc.book, side), p) ==
            Wanted(At(Levels(a.book, side), p), LastQuantity(UpTo(events, t), side, p))
    decreases |events|
  {
    if events != [] && events[0].ts <= t {
      var e := events[0];
      var next := FoldStep(a, e, base, threshold);
      var xs := UpTo(events[1..], t);
      assert UpTo(events, t) == [e] + xs;
      assert e in UpTo(events, t);
      FoldLastWriter(next.acc, events[1..], t, base, threshold, side, p);
      LastOfConcat(e, xs, side, p);
      assert [e][..0] == [];
      assert LastQuantity([e], side, p) ==
             if e.body.side == side && e.body.price == p then Some(e.body.quantity) else None;
    }
  }

  function StartAcc(s: Start): Acc { Acc(s.baseline.book, s.baseline.ts) }

  lemma LastWriterBook(s: Start, t: int, threshold: int, p: Price)
    requires forall e :: e in UpTo(s.rest, t) ==> e.body.kind.Delta?
    requires Fold(StartAcc(s), s.rest, t, s.baseline.ts, threshold).Ok?
    ensures var book := Fold(StartAcc(s), s.rest, t, s.baseline.ts, threshold).acc.book;
            && At(book.bids, p) == Wanted(At(s.baseline.book.bids, p), LastQuantity(UpTo(s.rest, t), Bid, p))
            && At(book.asks, p) == Wanted(At(s.baseline.book.asks, p), LastQuantity(UpTo(s.rest, t), Ask, p))
  {
    FoldLastWriter(StartAcc(s), s.rest, t, s.baseline.ts, threshold, Bid, p);
    FoldLastWriter(StartAcc(s), s.rest, t, s.baseline.ts, threshold, Ask, p);
  }

  /** Reconstruction means last writer wins: when only deltas follow the baseline up to `t`, a
      price is in the book exactly when its last delta, or else the baseline, gives it one. */
  lemma LastWriterWins(ev: Store<EventBody>, sn: Store<SnapBody>, t: int, clock: Option<int>, threshold: int,
                       s: Start, p: Price, n: int)
    requires DayStart(ev, sn, DayQuery(t, clock)) == Found(s)
    requires forall e :: e in UpTo(s.rest, t) ==> e.body.kind.Delta?
    requires OrderbookAt(ev, sn, t, clock, threshold).Reconstructed?
    ensures var r := OrderbookAt(ev, sn, t, clock, threshold);
            && (Level(p, n) in r.bids <==>
                  Wanted(At(s.baseline.book.bids, p), LastQuantity(UpTo(s.rest, t), Bid, p)) == Some(n))
            && (Level(p, n) in r.asks <==>
                  Wanted(At(s.baseline.book.asks, p), LastQuantity(UpTo(s.rest, t), Ask, p)) == Some(n))
  {
    LastWriterBook(s, t, threshold, p);
  }

  // ---------------------------------------------------------------- every level

  /** What an event makes of one level, if it touches it. */
  datatype Touch = Untouched | Becomes(level: Option<int>)

  /** A delta sets or removes its own level.  A snapshot event, unless of the baseline's time, sets
      its own level, and the first event of a new instant empties the rest of its side. */
  function Effect(e: Event, prev: int, base: int, side: Side, p: Price): Touch {
    if e.body.side != side then Untouched
    else match e.body.kind
      case Delta =>
        if e.body.price != p then Untouched
        else Becomes(if e.body.quantity == 0 then None else Some(e.body.quantity))
      case Snapshot =>
        if e.ts == base then Untouched
        else if e.body.price == p && e.body.quantity > 0 then Becomes(Some(e.body.quantity))
        else if prev != e.ts then Becomes(None)
        else Untouched
      case Other(_) => Untouched
  }

  function Touched(before: Option<int>, touch: Touch): Option<int> { if touch.Becomes? then touch.level else before }

  /** The level after a list of events: what the last one that touches it makes of it. */
  function LevelAfter(before: Option<int>, from: int, xs: seq<Event>, base: int, side: Side, p: Price): Option<int> {
    if xs == [] then before
    else
      var n := |xs| - 1;
      Touched(LevelAfter(before, from, xs[..n], base, side, p), Effect(xs[n], Prev(from, xs, n), base, side, p))
  }

  lemma {:induction false} LevelAfterFirst(before: Option<int>, from: int, x: Event, xs: seq<Event>, base: int,
                                           side: Side, p: Price)
    ensures LevelAfter(before, from, [x] + xs, base, side, p) ==
            LevelAfter(Touched(before, Effect(x, from, base, side, p)), x.ts, xs, base, side, p)
    decreases |xs|
  {
    var all, n := [x] + xs, |xs|;
    if xs == [] {
      assert all == [x] && all[..0] == [];
    } else {
      LevelAfterFirst(before, from, x, xs[..n - 1], base, side, p);
      assert all[..n] == [x] + xs[..n - 1] && all[n] == xs[n - 1];
      assert Prev(from, all, n) == Prev(x.ts, xs, n - 1);
    }
  }

  lemma StepLevel(a: Acc, e: Event, base: int, side: Side, p: Price)
    ensures At(Levels(ApplyEvent(a.book, e, a.lastTs, base), side), p) ==
            Touched(At(Levels(a.book, side), p), Effect(e, a.lastTs, base, side, p))
  {
  }

  lemma {:induction false} FoldLevel(a: Acc, events: seq<Event>, t: int, base: int, threshold: int,
                                     side: Side, p: Price)
    requires Fold(a, events, t, base, threshold).Ok?
    ensures At(Levels(Fold(a, events, t, base, threshold).acc.book, side), p) ==
            LevelAfter(At(Levels(a.book, side), p), a.lastTs, UpTo(events, t), base, side, p)
    decreases |events|
  {
    if events != [] && events[0].ts <= t {
      var e, xs := events[0], UpTo(events[1..], t);
      FoldLevel(FoldStep(a, e, base, threshold).acc, events[1..], t, base, threshold, side, p);
      StepLevel(a, e, base, side, p);
      LevelAfterFirst(At(Levels(a.book, side), p), a.lastTs, e, xs, base, side, p);
      assert UpTo(events, t) == [e] + xs;
    }
  }

  /** What the event at a place makes of a level. */
  function TouchAt(from: int, xs: seq<Event>, base: int, side: Side, p: Price, i: nat): Touch
    requires i < |xs|
  {
    Effect(xs[i], Prev(from, xs, i), base, side, p)
  }

  /** The event at `i` is the last that touches the level and leaves `level`; with `i` negative none
      touches it. */
  ghost predicate Decides(from: int, xs: seq<Event>, base: int, side: Side, p: Price, i: int, level: Option<int>) {
    && i < |xs| && (i >= 0 ==> TouchAt(from, xs, base, side, p, i) == Becomes(level))
    && forall j :: i < j < |xs| && j >= 0 ==> TouchAt(from, xs, base, side, p, j).Untouched?
  }

  lemma DecidesNext(from: int, xs: seq<Event>, base: int, side: Side, p: Price, i: int, level: Option<int>)
    requires xs != [] && Decides(from, xs[..|xs| - 1], base, side, p, i, level)
    requires TouchAt(from, xs, base, side, p, |xs| - 1).Untouched?
    ensures Decides(from, xs, base, side, p, i, level)
  {
    var most := xs[..|xs| - 1];
    forall j | 0 <= j < |most| ensures TouchAt(from, xs, base, side, p, j) == TouchAt(from, most, base, side, p, j) { }
  }

  lemma {:induction false} LastTouchDecides(before: Option<int>, from: int, xs: seq<Event>, base: int, side: Side,
                                            p: Price) returns (i: int)
    ensures i >= -1 && Decides(from, xs, base, side, p, i, LevelAfter(before, from, xs, base, side, p))
    ensures i < 0 ==> LevelAfter(before, from, xs, base, side, p) == before
    decreases |xs|
  {
    i := -1;
    if xs != [] {
      var n := |xs| - 1;
      if TouchAt(from, xs, base, side, p, n).Becomes? {
        i := n;
      } else {
        i := LastTouchDecides(before, from, xs[..n], base, side, p);
        DecidesNext(from, xs, base, side, p, i, LevelAfter(before, from, xs[..n], base, side, p));
      }
    }
  }

  /** One side of a folded book. */
  lemma SideDecided(s: Start, t: int, threshold: int, side: Side, p: Price) returns (i: int)
    requires Fold(StartAcc(s), s.rest, t, s.baseline.ts, threshold).Ok?
    ensures var book, xs := Fold(StartAcc(s), s.rest, t, s.baseline.ts, threshold).acc.book, UpTo(s.rest, t);
            var level := At(Levels(book, side), p);
            && i >= -1 && Decides(s.baseline.ts, xs, s.baseline.ts, side, p, i, level)
            && (i < 0 ==> level == At(Levels(s.baseline.book, side), p))
  {
    FoldLevel(StartAcc(s), s.rest, t, s.baseline.ts, threshold, side, p);
    i := LastTouchDecides(At(Levels(s.baseline.book, side), p), s.baseline.ts, UpTo(s.rest, t), s.baseline.ts, side, p);
  }

  lemma Shown(book: Book, p: Price)
    ensures forall n :: Level(p, n) in BidLevels(book.bids) <==> At(book.bids, p) == Some(n)
    ensures forall n :: Level(p, n) in AskLevels(book.asks) <==> At(book.asks, p) == Some(n)
  {
  }

  lemma OutcomeFrom(ev: Store<EventBody>, sn: Store<SnapBody>, t: int, clock: Option<int>, threshold: int, s: Start)
    requires DayStart(ev, sn, DayQuery(t, clock)) == Found(s)
    ensures OrderbookAt(ev, sn, t, clock, threshold) ==
            ToOutcome(Fold(StartAcc(s), s.rest, t, s.baseline.ts, threshold))
  {
  }

  /** One price of a book that was folded from `s`. */
  ghost predicate Explained(s: Start, t: int, r: Outcome, p: Price, b: int, bid: Option<int>, a: int, ask: Option<int>)
    requires r.Reconstructed?
  {
    var xs, from := UpTo(s.rest, t), s.baseline.ts;
    && (forall n :: Level(p, n) in r.bids <==> bid == Some(n))
    && (forall n :: Level(p, n) in r.asks <==> ask == Some(n))
    && Decides(from, xs, from, Bid, p, b, bid) && (b < 0 ==> bid == At(s.baseline.book.bids, p))
    && Decides(from, xs, from, Ask, p, a, ask) && (a < 0 ==> ask == At(s.baseline.book.asks, p))
  }

  lemma FoldExplained(s: Start, t: int, threshold: int, p: Price)
    returns (b: int, bid: Option<int>, a: int, ask: Option<int>)
    requires Fold(StartAcc(s), s.rest, t, s.baseline.ts, threshold).Ok?
    ensures Explained(s, t, ToOutcome(Fold(StartAcc(s), s.rest, t, s.baseline.ts, threshold)), p, b, bid, a, ask)
  {
    var book := Fold(StartAcc(s), s.rest, t, s.baseline.ts, threshold).acc.book;
    bid, ask := At(book.bids, p), At(book.asks, p);
    Shown(book, p);
    b := SideDecided(s, t, threshold, Bid, p);
    a := SideDecided(s, t, threshold, Ask, p);
  }

  /** The whole reconstruction, level by level and for every mix of events: a level holds what the
      last event that touches it up to `t` made of it, or else what the baseline has. */
  lemma EveryLevel(ev: Store<EventBody>, sn: Store<SnapBody>, t: int, clock: Option<int>, threshold: int,
                   s: Start, p: Price) returns (b: int, bid: Option<int>, a: int, ask: Option<int>)
    requires DayStart(ev, sn, DayQuery(t, clock)) == Found(s)
    requires OrderbookAt(ev, sn, t, clock, threshold).Reconstructed?
    ensures Explained(s, t, OrderbookAt(ev, sn, t, clock, threshold), p, b, bid, a, ask)
  {
    OutcomeFrom(ev, sn, t, clock, threshold, s);
    b, bid, a, ask := FoldExplained(s, t, threshold, p);
  }

  // ---------------------------------------------------------------- shape of the book

  ghost predicate NoZero(b: Book) {
    (forall p :: p in b.bids ==> b.bids[p] != 0) && (forall p :: p in b.asks ==> b.asks[p] != 0)
  }

  ghost predicate AllPositive(b: Book) {
    (forall p :: p in b.bids ==> b.bids[p] > 0) && (forall p :: p in b.asks ==> b.asks[p] > 0)
  }

  lemma {:induction false} PositiveIsPositive(quotes: seq<Quote>)
    ensures AllPositive(Positive(quotes))
  {
    if quotes != [] { PositiveIsPositive(quotes[..|quotes| - 1]); }
  }

  lemma {:induction false} FoldShape(a: Acc, events: seq<Event>, t: int, base: int, threshold: int)
    requires NoZero(a.book) && Fold(a, events, t, base, threshold).Ok?
    ensures NoZero(Fold(a, events, t, base, threshold).acc.book)
    ensures AllPositive(a.book) && (forall e :: e in events ==> e.body.quantity >= 0) ==>
              AllPositive(Fold(a, events, t, base, threshold).acc.book)
    decreases |events|
  {
    if events != [] && events[0].ts <= t {
      assert events[0] in events;
      assert forall e :: e in events[1..] ==> e in events;
      FoldShape(FoldStep(a, events[0], base, threshold).acc, events[1..], t, base, threshold);
    }
  }

  lemma LevelsNotZero(book: Book, l: Level)
    requires l in BidLevels(book.bids) + AskLevels(book.asks)
    ensures NoZero(book) ==> l.quantity != 0
    ensures AllPositive(book) ==> l.quantity > 0
  {
    assert l == Level(l.price, l.quantity);
  }

  /** Every book: bids strictly descending, asks strictly ascending, no level of quantity zero,
      and, given non-negative input quantities, every level positive. */
  lemma BookShape(ev: Store<EventBody>, sn: Store<SnapBody>, t: int, clock: Option<int>, threshold: int, s: Start)
    requires DayStart(ev, sn, DayQuery(t, clock)) == Found(s)
    requires OrderbookAt(ev, sn, t, clock, threshold).Reconstructed?
    ensures var r := OrderbookAt(ev, sn, t, clock, threshold);
            && (forall i, j :: 0 <= i < j < |r.bids| ==> r.bids[i].price.scaled > r.bids[j].price.scaled)
            && (forall i, j :: 0 <= i < j < |r.asks| ==> r.asks[i].price.scaled < r.asks[j].price.scaled)
            && (forall l :: l in r.bids + r.asks ==> l.quantity != 0)
            && ((forall e :: e in s.rest ==> e.body.quantity >= 0) ==>
                  forall l :: l in r.bids + r.asks ==> l.quantity > 0)
  {
    var q := DayQuery(t, clock);
    BaselinePositive(D14Baseline(SnapRows(sn, q)), SnapRows(sn, q), ScanRows(ev, q));
    FoldShape(StartAcc(s), s.rest, t, s.baseline.ts, threshold);
    var book := Fold(StartAcc(s), s.rest, t, s.baseline.ts, threshold).acc.book;
    forall l | l in BidLevels(book.bids) + AskLevels(book.asks)
      ensures l.quantity != 0 && (AllPositive(book) ==> l.quantity > 0)
    {
      LevelsNotZero(book, l);
    }
  }

  lemma BaselinePositive(d14: Option<Baseline>, rows: seq<Snap>, events: seq<Event>)
    requires d14 == D14Baseline(rows) && FindStart(d14, events).Found?
    ensures AllPositive(FindStart(d14, events).start.baseline.book)
  {
    if d14.Some? {
      PositiveIsPositive(Map(SnapQuote, Filter(OfSeq(MaxSeq(rows)), rows)));
    } else {
      var k := FirstIndex(IsSnapshot(), events);
      PositiveIsPositive(Map(EventQuote, events[k..GroupEnd(events, k, events[k].ts)]));
    }
  }

  // ---------------------------------------------------------------- re-baselining

  function OverlayAll(b: Book, quotes: seq<Quote>): Book
    decreases |quotes|
  {
    if quotes == [] then b else OverlayAll(Overlay(b, quotes[0]), quotes[1..])
  }

  /** A whole snapshot group at one instant after the baseline. */
  ghost predicate Group(g: seq<Event>, ts: int) {
    g != [] && forall i :: 0 <= i < |g| ==> g[i].ts == ts && g[i].body.kind.Snapshot?
  }

  /** The book a group starts from: only the side of its first row is cleared, and not even that
      when the event before it had the same time. */
  function Cleared(a: Acc, g: seq<Event>): Book
    requires g != []
  {
    if a.lastTs != g[0].ts then WithLevels(a.book, g[0].body.side, map[]) else a.book
  }

  lemma {:induction false} SameInstant(b: Book, g: seq<Event>, ts: int, base: int, threshold: int)
    requires forall i :: 0 <= i < |g| ==> g[i].ts == ts && g[i].body.kind.Snapshot?
    requires ts != base && threshold >= 0
    ensures Fold(Acc(b, ts), g, ts, base, threshold) == Ok(Acc(OverlayAll(b, Map(EventQuote, g)), ts))
    decreases |g|
  {
    if g != [] {
      var e := g[0];
      SameInstant(Overlay(b, EventQuote(e)), g[1..], ts, base, threshold);
      assert Map(EventQuote, g)[1..] == Map(EventQuote, g[1..]);
    }
  }

  /** What a mid-day snapshot group does to the book. */
  lemma GroupEffect(a: Acc, g: seq<Event>, ts: int, base: int, threshold: int)
    requires Group(g, ts) && ts != base && a.lastTs <= ts && ts - a.lastTs <= threshold
    ensures Fold(a, g, ts, base, threshold) == Ok(Acc(OverlayAll(Cleared(a, g), Map(EventQuote, g)), ts))
  {
    var e := g[0];
    var b := ApplyEvent(a.book, e, a.lastTs, base);
    SameInstant(b, g[1..], ts, base, threshold);
    assert Map(EventQuote, g)[1..] == Map(EventQuote, g[1..]);
  }

  lemma {:induction false} OverlayAllMerges(b: Book, quotes: seq<Quote>)
    ensures OverlayAll(b, quotes).bids == b.bids + Positive(quotes).bids
    ensures OverlayAll(b, quotes).asks == b.asks + Positive(quotes).asks
    decreases |quotes|
  {
    if quotes != [] {
      var init, last := quotes[..|quotes| - 1], quotes[|quotes| - 1];
      OverlayAllMerges(b, init);
      OverlayAllSnoc(b, init, last);
      assert quotes == init + [last];
    }
  }

  lemma {:induction false} OverlayAllSnoc(b: Book, quotes: seq<Quote>, q: Quote)
    ensures OverlayAll(b, quotes + [q]) == Overlay(OverlayAll(b, quotes), q)
    decreases |quotes|
  {
    if quotes == [] {
      assert quotes + [q] == [q] && [q][1..] == [];
    } else {
      OverlayAllSnoc(Overlay(b, quotes[0]), quotes[1..], q);
      assert (quotes + [q])[1..] == quotes[1..] + [q];
    }
  }

  /** The documented re-baselining, exactly when it happens: after a mid-day snapshot group the
      book is the group's levels if and only if the group quotes every price that survived the
      one-sided clearing. */
  lemma RebaselinesExactly(a: Acc, g: seq<Event>, ts: int, base: int, threshold: int)
    requires Group(g, ts) && ts != base && a.lastTs <= ts && ts - a.lastTs <= threshold
    ensures var quoted := Positive(Map(EventQuote, g));
            var stale := Cleared(a, g);
            Fold(a, g, ts, base, threshold) == Ok(Acc(quoted, ts))
            <==> stale.bids.Keys <= quoted.bids.Keys && stale.asks.Keys <= quoted.asks.Keys
  {
    var quotes := Map(EventQuote, g);
    var quoted, stale := Positive(quotes), Cleared(a, g);
    GroupEffect(a, g, ts, base, threshold);
    OverlayAllMerges(stale, quotes);
    MergeIsRight(stale.bids, quoted.bids);
    MergeIsRight(stale.asks, quoted.asks);
  }

  lemma MergeIsRight(a: map<Price, int>, b: map<Price, int>)
    ensures a + b == b <==> a.Keys <= b.Keys
  {
    if a + b == b {
      assert (a + b).Keys == a.Keys + b.Keys;
    }
  }
}
