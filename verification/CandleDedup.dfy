/** `deduplicate_candles`: late correction.  Per logical key the row received last wins, and
    among those received together the node that sorts first. */
module CandleDedup {
  import opened Basics
  import opened Sorting
  import Lex
  import D = Dedup

  datatype Key = Key(exchange: string, symbol: string, timeframe: string, ts: int)
  datatype Candle = Candle(key: Key, receivedAt: Option<int>, nodeId: Option<string>, ohlcv: string)

  function KeyOf(): Candle -> Key { (c: Candle) => c.key }

  predicate ByTs(a: Candle, b: Candle) { a.key.ts <= b.key.ts }

  /** `received_at or ts_utc`. */
  function Received(c: Candle): int { if c.receivedAt.Some? then c.receivedAt.value else c.key.ts }
  function Priority(c: Candle): string { D.NodePriority(c.nodeId) }

  predicate Beats(a: Candle, b: Candle) {
    Received(a) > Received(b) || (Received(a) == Received(b) && Lex.Lt(Priority(a), Priority(b)))
  }

  /** What decides between two candles of a key. */
  function Rank(c: Candle): (int, string) { (Received(c), Priority(c)) }

  /** Two candles neither of which beats the other tie on everything that is compared. */
  lemma TieMeansSameRank(a: Candle, b: Candle)
    requires !Beats(a, b) && !Beats(b, a)
    ensures Rank(a) == Rank(b)
  {
    Lex.LeAntisymmetric(Priority(a), Priority(b));
  }

  lemma BeatsTransitive(a: Candle, b: Candle, c: Candle)
    requires !Beats(a, b) && !Beats(b, c)
    ensures !Beats(a, c)
  {
    if Received(a) == Received(b) == Received(c) {
      Lex.LeTransitive(Priority(c), Priority(b), Priority(a));
    }
  }

  lemma BeatsAsymmetric(a: Candle, b: Candle)
    ensures !(Beats(a, b) && Beats(b, a))
  {
    Lex.LeTotal(Priority(a), Priority(b));
  }

  /** The dict after the loop, with its insertion order. */
  datatype Pass = Pass(order: seq<Key>, live: map<Key, Candle>, dupSkip: nat)

  function Absorb(p: Pass, c: Candle): Pass {
    if c.key !in p.live then p.(order := p.order + [c.key], live := p.live[c.key := c])
    else p.(live := if Beats(c, p.live[c.key]) then p.live[c.key := c] else p.live, dupSkip := p.dupSkip + 1)
  }

  function Absorbed(rows: seq<Candle>): Pass {
    if rows == [] then Pass([], map[], 0) else Absorb(Absorbed(rows[..|rows| - 1]), rows[|rows| - 1])
  }

  /** Late correction: `c` was received, or failing that opened, no earlier than `r`, and when at
      the same time comes from a node that does not sort behind. */
  predicate NotEarlier(c: Candle, r: Candle) {
    var mine := if c.receivedAt.Some? then c.receivedAt.value else c.key.ts;
    var other := if r.receivedAt.Some? then r.receivedAt.value else r.key.ts;
    other <= mine && (other == mine ==> Lex.Le(D.NodePriority(c.nodeId), D.NodePriority(r.nodeId)))
  }

  lemma UnbeatenIsNotEarlier(c: Candle, r: Candle)
    ensures !Beats(r, c) <==> NotEarlier(c, r)
  {
  }

  /** A winner is one of its key's rows, and none of them is later. */
  ghost predicate Best(rows: seq<Candle>, key: Key, c: Candle) {
    c in rows && c.key == key && forall r :: r in rows && r.key == key ==> NotEarlier(c, r)
  }

  ghost predicate PassInv(p: Pass, rows: seq<Candle>) {
    && Distinct(p.order)
    && (forall k :: k in p.live <==> k in p.order)
    && (forall k :: k in p.live ==> Best(rows, k, p.live[k]))
    && (forall r :: r in rows ==> r.key in p.live)
    && |rows| == |p.order| + p.dupSkip
  }

  lemma WinnerStaysBest(p: Pass, rest: seq<Candle>, c: Candle)
    requires c.key in p.live ==> Best(rest, c.key, p.live[c.key])
    requires c.key !in p.live ==> forall r :: r in rest ==> r.key != c.key
    ensures Best(rest + [c], c.key, Absorb(p, c).live[c.key])
  {
    var w := Absorb(p, c).live[c.key];
    forall r | r in rest + [c] && r.key == c.key ensures NotEarlier(w, r) {
      UnbeatenIsNotEarlier(w, r);
      BeatsAsymmetric(c, c);
      if r in rest {
        UnbeatenIsNotEarlier(p.live[c.key], r);
        BeatsAsymmetric(c, p.live[c.key]);
        BeatsAsymmetric(w, w);
        BeatsTransitive(r, p.live[c.key], w);
      }
    }
  }

  /** The loop picks a best row for every key that occurs, and counts the rest as skipped. */
  lemma {:induction false} AbsorbedBest(rows: seq<Candle>)
    ensures PassInv(Absorbed(rows), rows)
  {
    if rows != [] {
      var rest, c := rows[..|rows| - 1], rows[|rows| - 1];
      AbsorbedBest(rest);
      var p, q := Absorbed(rest), Absorbed(rows);
      assert rows == rest + [c];
      forall k | k in q.live ensures Best(rows, k, q.live[k]) {
        if k == c.key { WinnerStaysBest(p, rest, c); } else { assert Best(rest, k, p.live[k]); }
      }
    }
  }

  function Emitted(rows: seq<Candle>): (out: seq<Candle>) {
    AbsorbedBest(rows);
    StableSort(ByTs, Values(Absorbed(rows).order, Absorbed(rows).live))
  }

  lemma {:induction false} ListedAsFirst(rows: seq<Candle>)
    ensures AsFirst(KeyOf(), Absorbed(rows).order, rows)
  {
    if rows != [] {
      var rest, c := rows[..|rows| - 1], rows[|rows| - 1];
      ListedAsFirst(rest);
      assert rows == rest + [c];
      AsFirstNext(KeyOf(), Absorbed(rest).order, rest, c);
      FirstIsLive(rest, c.key);
    }
  }

  lemma {:induction false} FirstIsLive(rows: seq<Candle>, key: Key)
    ensures FirstAt(KeyOf(), rows, key) == |rows| || key in Absorbed(rows).live
  {
    AbsorbedBest(rows);
    var f := FirstAt(KeyOf(), rows, key);
    if f < |rows| { assert rows[f] in rows && rows[f].key == key; }
  }

  /** Candles are emitted by time, and those of one time as their keys first occur. */
  lemma {:induction false} EmittedInOrder(rows: seq<Candle>)
    ensures var out := Emitted(rows);
            forall i, j :: 0 <= i < j < |out| ==>
              || out[i].key.ts < out[j].key.ts
              || (out[i].key.ts == out[j].key.ts
                  && FirstAt(KeyOf(), rows, out[i].key) < FirstAt(KeyOf(), rows, out[j].key))
  {
    AbsorbedBest(rows);
    ListedAsFirst(rows);
    var p, out := Absorbed(rows), Emitted(rows);
    var vs := Values(p.order, p.live);
    forall i | 0 <= i < |vs| ensures KeyOf()(vs[i]) == p.order[i] { assert p.order[i] in p.order; }
    SortedByFirst(ByTs, KeyOf(), rows, p.order, vs);
    forall i, j | 0 <= i < j < |out|
      ensures out[i].key.ts < out[j].key.ts || (out[i].key.ts == out[j].key.ts
              && FirstAt(KeyOf(), rows, out[i].key) < FirstAt(KeyOf(), rows, out[j].key))
    {
      assert ByFirst(ByTs, KeyOf(), rows)(out[i], out[j]);
    }
  }

  lemma SameWinner(a: seq<Candle>, b: seq<Candle>, k: Key)
    requires multiset(a) == multiset(b) && k in Absorbed(a).live
    ensures k in Absorbed(b).live && Rank(Absorbed(a).live[k]) == Rank(Absorbed(b).live[k])
    ensures Absorbed(a).live[k] in a && Absorbed(b).live[k] in a && Absorbed(b).live[k].key == Absorbed(a).live[k].key
  {
    AbsorbedBest(a);
    AbsorbedBest(b);
    var x := Absorbed(a).live[k];
    SameElements(a, b, x);
    var y := Absorbed(b).live[k];
    SameElements(a, b, y);
    UnbeatenIsNotEarlier(x, y);
    UnbeatenIsNotEarlier(y, x);
    TieMeansSameRank(x, y);
  }

  lemma SameKeys(a: seq<Candle>, b: seq<Candle>)
    requires multiset(a) == multiset(b)
    ensures forall k :: k in Absorbed(a).live <==> k in Absorbed(b).live
    ensures Absorbed(a).dupSkip == Absorbed(b).dupSkip
  {
    forall k ensures k in Absorbed(a).live <==> k in Absorbed(b).live {
      if k in Absorbed(a).live { SameWinner(a, b, k); }
      if k in Absorbed(b).live { SameWinner(b, a, k); }
    }
    AbsorbedBest(a);
    AbsorbedBest(b);
    DistinctSame(Absorbed(a).order, Absorbed(b).order);
    assert |multiset(a)| == |multiset(b)|;
  }

  /** Late correction does not depend on the order the rows come in: any permutation gives the
      same keys and winners of the same rank, the same winners unless two rows tie fully. */
  lemma OrderDoesNotMatter(a: seq<Candle>, b: seq<Candle>)
    requires multiset(a) == multiset(b)
    ensures Absorbed(a).live.Keys == Absorbed(b).live.Keys
    ensures forall k :: k in Absorbed(a).live ==> Rank(Absorbed(a).live[k]) == Rank(Absorbed(b).live[k])
    ensures Absorbed(a).dupSkip == Absorbed(b).dupSkip
    ensures (forall x, y :: x in a && y in a && x.key == y.key && Rank(x) == Rank(y) ==> x == y)
            ==> Absorbed(a).live == Absorbed(b).live
  {
    SameKeys(a, b);
    forall k | k in Absorbed(a).live
      ensures Rank(Absorbed(a).live[k]) == Rank(Absorbed(b).live[k])
      ensures Absorbed(a).live[k] in a && Absorbed(b).live[k] in a && Absorbed(b).live[k].key == Absorbed(a).live[k].key
    {
      SameWinner(a, b, k);
    }
  }

  /** `deduplicate_candles`. */
  method DeduplicateCandles(rows: seq<Candle>, multiNode: bool) returns (emitted: seq<Candle>, dupSkip: nat)
    ensures |rows| == |emitted| + dupSkip
    ensures forall i, j :: 0 <= i < j < |emitted| ==> emitted[i].key.ts <= emitted[j].key.ts
    ensures !multiNode ==> emitted == StableSort(ByTs, rows)
    ensures multiNode ==> emitted == Emitted(rows)
    ensures multiNode ==> forall i, j :: 0 <= i < j < |emitted| ==> emitted[i].key != emitted[j].key
    ensures multiNode ==> forall r :: r in rows ==> exists c :: c in emitted && c.key == r.key
    ensures multiNode ==> forall c, r :: c in emitted && r in rows && r.key == c.key ==>
              var mine := if c.receivedAt.Some? then c.receivedAt.value else c.key.ts;
              var other := if r.receivedAt.Some? then r.receivedAt.value else r.key.ts;
              other <= mine && (other == mine ==> Lex.Le(D.NodePriority(c.nodeId), D.NodePriority(r.nodeId)))
  {
    dupSkip := 0;
    if !multiNode {
      SortSorts(ByTs, rows);
      emitted := StableSort(ByTs, rows);
      return;
    }
    var order: seq<Key>, byKey: map<Key, Candle> := [], map[];
    for i := 0 to |rows|
      invariant Pass(order, byKey, dupSkip) == Absorbed(rows[..i])
    {
      assert rows[..i + 1][..i] == rows[..i];
      var row := rows[i];
      if row.key !in byKey {
        order, byKey := order + [row.key], byKey[row.key := row];
      } else {
        var existing := byKey[row.key];
        if Received(row) > Received(existing) {
          byKey := byKey[row.key := row];
        } else if Received(row) < Received(existing) {
        } else if Lex.Lt(Priority(row), Priority(existing)) {
          byKey := byKey[row.key := row];
        }
        dupSkip := dupSkip + 1;
      }
    }
    assert rows[..|rows|] == rows;
    AbsorbedBest(rows);
    emitted := InTimeOrder(order, byKey);
    forall r | r in rows ensures exists c :: c in emitted && c.key == r.key { assert byKey[r.key] in emitted; }
    forall c, r | c in emitted && r in rows && r.key == c.key ensures NotEarlier(c, r) {
      assert Best(rows, c.key, byKey[c.key]);
    }
  }

  /** `sorted(by_key.values(), key=ts_utc)`. */
  method InTimeOrder(order: seq<Key>, byKey: map<Key, Candle>) returns (emitted: seq<Candle>)
    requires Distinct(order) && forall k :: k in order <==> k in byKey
    requires forall k :: k in byKey ==> byKey[k].key == k
    ensures emitted == StableSort(ByTs, Values(order, byKey)) && SortedBy(ByTs, emitted)
    ensures forall c :: c in emitted <==> c.key in byKey && c == byKey[c.key]
    ensures forall i, j :: 0 <= i < j < |emitted| ==> emitted[i].key != emitted[j].key
  {
    var vs := Values(order, byKey);
    SortSorts(ByTs, vs);
    emitted := StableSort(ByTs, vs);
    forall c: Candle ensures c in emitted <==> c.key in byKey && c == byKey[c.key] {
      SameElements(emitted, vs, c);
      InValues(KeyOf(), order, byKey, c);
    }
    forall i | 0 <= i < |vs| ensures vs[i].key == order[i] { assert order[i] in order; }
    SortDistinct(ByTs, vs);
    forall i | 0 <= i < |emitted| ensures emitted[i] == byKey[emitted[i].key] { assert emitted[i] in emitted; }
  }
}
