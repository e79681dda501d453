/** Read-side dedup of two active nodes' streams by logical key: `deduplicate_ticks` (6-tuple)
    and `deduplicate_orderbook_events` (8-tuple), which run the same loop over their own key. */
module Dedup {
  import opened Basics
  import opened Sorting
  import Lex
  import L = Limiter

  /** A row: `ts` and `body` are the columns of its logical key. */
  datatype Row<K> = Row(ts: int, body: K, receivedAt: int, nodeId: Option<string>, raw: Option<string>)

  /** `(exchange, symbol, price, quantity, side)`: with `ts_utc` the 6-tuple. */
  datatype TickBody = TickBody(exchange: string, symbol: string, price: Price, quantity: int, side: string)

  datatype Kind = Snapshot | Delta | Other(name: string)
  datatype Side = Bid | Ask
  /** `(exchange, symbol, event_type, side, level, price, quantity)`: with `ts_utc` the 8-tuple. */
  datatype EventBody = EventBody(exchange: string, symbol: string, kind: Kind, side: Side,
                                 level: int, price: Price, quantity: int)

  datatype Mismatch<K> = Mismatch(key: (K, int), existing: Row<K>, row: Row<K>)

  const DEFAULT_SENTINEL := "zzz_DEFAULT"
  const QUARANTINE_RATE_LIMIT_PER_SEC := 100

  function KeyOf<K>(r: Row<K>): (K, int) { (r.body, r.ts) }

  predicate ByTs<K>(a: Row<K>, b: Row<K>) { a.ts <= b.ts }

  /** `node_priority`: a missing or empty node ranks as the default partition. */
  function NodePriority(nodeId: Option<string>): string {
    if nodeId.None? || nodeId.value == "" then DEFAULT_SENTINEL else nodeId.value
  }

  /** A row of no named node ranks behind every node whose name starts below `z`. */
  lemma DefaultRanksLast(name: string)
    requires name != "" && name[0] < 'z'
    ensures forall nodeId: Option<string> :: nodeId == None || nodeId == Some("") ==>
              Lex.Lt(NodePriority(Some(name)), NodePriority(nodeId))
  {
    assert DEFAULT_SENTINEL[0] == 'z';
  }

  /** Same key, both raw payloads known, and they differ. */
  predicate Conflicts<K>(existing: Row<K>, row: Row<K>) {
    existing.raw.Some? && row.raw.Some? && existing.raw != row.raw
  }

  /** Whether a later row takes the place of the one kept so far. */
  predicate Replaces<K>(existing: Row<K>, row: Row<K>) {
    Conflicts(existing, row) && Lex.Lt(NodePriority(row.nodeId), NodePriority(existing.nodeId))
  }

  /** The dict with its insertion order, and the counts. */
  datatype Pass<K(==)> = Pass(order: seq<(K, int)>, live: map<(K, int), Row<K>>,
                          dupSkip: nat, mismatches: seq<Mismatch<K>>)

  function Absorb<K(==)>(p: Pass<K>, row: Row<K>): Pass<K> {
    var key := KeyOf(row);
    if key !in p.live then p.(order := p.order + [key], live := p.live[key := row])
    else if Conflicts(p.live[key], row) then
      p.(mismatches := p.mismatches + [Mismatch(key, p.live[key], row)],
         live := if Replaces(p.live[key], row) then p.live[key := row] else p.live)
    else p.(dupSkip := p.dupSkip + 1)
  }

  function Absorbed<K(==)>(rows: seq<Row<K>>): Pass<K> {
    if rows == [] then Pass([], map[], 0, [])
    else Absorb(Absorbed(rows[..|rows| - 1]), rows[|rows| - 1])
  }

  /** The pass keeps one live row per key seen, and accounts for every row. */
  ghost predicate PassInv<K(!new)>(p: Pass<K>, rows: seq<Row<K>>) {
    && Distinct(p.order)
    && (forall k :: k in p.live <==> k in p.order)
    && (forall k :: k in p.live ==> p.live[k] in rows && KeyOf(p.live[k]) == k)
    && (forall r :: r in rows ==> KeyOf(r) in p.live)
    && |rows| == |p.order| + p.dupSkip + |p.mismatches|
  }

  lemma NewKeyKeeps<K(!new)>(p: Pass<K>, rows: seq<Row<K>>, row: Row<K>)
    requires PassInv(p, rows) && KeyOf(row) !in p.live
    ensures PassInv(Absorb(p, row), rows + [row])
  {
    assert KeyOf(row) !in p.order;
  }

  lemma OldKeyKeeps<K(!new)>(p: Pass<K>, rows: seq<Row<K>>, row: Row<K>)
    requires PassInv(p, rows) && KeyOf(row) in p.live
    ensures PassInv(Absorb(p, row), rows + [row])
  {
    assert Absorb(p, row).order == p.order;
  }

  lemma {:induction false} AbsorbedInv<K(!new)>(rows: seq<Row<K>>)
    ensures PassInv(Absorbed(rows), rows)
  {
    if rows != [] {
      var rest, row := rows[..|rows| - 1], rows[|rows| - 1];
      AbsorbedInv(rest);
      assert rows == rest + [row];
      if KeyOf(row) in Absorbed(rest).live {
        OldKeyKeeps(Absorbed(rest), rest, row);
      } else {
        NewKeyKeeps(Absorbed(rest), rest, row);
      }
    }
  }

  function Emitted<K(==,!new)>(rows: seq<Row<K>>): (out: seq<Row<K>>) {
    AbsorbedInv(rows);
    StableSort(ByTs, Values(Absorbed(rows).order, Absorbed(rows).live))
  }

  lemma LiveIsEmitted<K(!new)>(rows: seq<Row<K>>, key: (K, int))
    requires key in Absorbed(rows).live
    ensures Absorbed(rows).live[key] in Emitted(rows)
  {
    AbsorbedInv(rows);
    var p := Absorbed(rows);
    var vs := Values(p.order, p.live);
    var i :| 0 <= i < |p.order| && p.order[i] == key;
    assert vs[i] in vs;
    SameElements(Emitted(rows), vs, vs[i]);
  }

  lemma ByTsIsPreorder<K(!new)>()
    ensures TotalPreorder<Row<K>>(ByTs)
  {
  }

  /** The emitted rows in time order are one for each key. */
  lemma EmittedOnce<K(!new)>(rows: seq<Row<K>>)
    ensures forall i, j :: 0 <= i < j < |Emitted(rows)| ==> Emitted(rows)[i].ts <= Emitted(rows)[j].ts
    ensures forall i, j :: 0 <= i < j < |Emitted(rows)| ==>
              (Emitted(rows)[i].body, Emitted(rows)[i].ts) != (Emitted(rows)[j].body, Emitted(rows)[j].ts)
  {
    AbsorbedInv(rows);
    ByTsIsPreorder<K>();
    var p := Absorbed(rows);
    var vs := Values(p.order, p.live);
    SortSorts(ByTs, vs);
    forall i | 0 <= i < |vs| ensures KeyOf(vs[i]) == p.order[i] { assert p.order[i] in p.order; }
    DistinctKeys(vs, Emitted(rows));
  }

  lemma EmittedIsInput<K(!new)>(rows: seq<Row<K>>, r: Row<K>)
    requires r in Emitted(rows)
    ensures r in rows
  {
    AbsorbedInv(rows);
    var p := Absorbed(rows);
    var vs := Values(p.order, p.live);
    SameElements(Emitted(rows), vs, r);
    var i :| 0 <= i < |vs| && vs[i] == r;
    assert p.order[i] in p.order;
  }

  /** The survivor of a row's key. */
  lemma KeyEmitted<K(!new)>(rows: seq<Row<K>>, r: Row<K>) returns (e: Row<K>)
    requires r in rows
    ensures e in Emitted(rows) && e.body == r.body && e.ts == r.ts
  {
    AbsorbedInv(rows);
    LiveIsEmitted(rows, KeyOf(r));
    e := Absorbed(rows).live[KeyOf(r)];
  }

  /** Conservation, and what is emitted: every input row is emitted, skipped or quarantined;
      the emitted rows are input rows in time order, one for each logical key that occurs. */
  lemma DedupConserves<K(!new)>(rows: seq<Row<K>>)
    ensures |rows| == |Emitted(rows)| + Absorbed(rows).dupSkip + |Absorbed(rows).mismatches|
    ensures forall i, j :: 0 <= i < j < |Emitted(rows)| ==> Emitted(rows)[i].ts <= Emitted(rows)[j].ts
    ensures forall i, j :: 0 <= i < j < |Emitted(rows)| ==>
              (Emitted(rows)[i].body, Emitted(rows)[i].ts) != (Emitted(rows)[j].body, Emitted(rows)[j].ts)
    ensures forall r :: r in Emitted(rows) ==> r in rows
    ensures forall r :: r in rows ==> exists e :: e in Emitted(rows) && e.body == r.body && e.ts == r.ts
  {
    AbsorbedInv(rows);
    EmittedOnce(rows);
    forall r | r in Emitted(rows) ensures r in rows { EmittedIsInput(rows, r); }
    forall r | r in rows ensures exists e :: e in Emitted(rows) && e.body == r.body && e.ts == r.ts {
      var e := KeyEmitted(rows, r);
    }
  }

  /** Distinct keys survive any reordering. */
  lemma DistinctKeys<K(!new)>(vs: seq<Row<K>>, out: seq<Row<K>>)
    requires multiset(vs) == multiset(out)
    requires forall i, j :: 0 <= i < j < |vs| ==> KeyOf(vs[i]) != KeyOf(vs[j])
    ensures forall i, j :: 0 <= i < j < |out| ==> KeyOf(out[i]) != KeyOf(out[j])
  {
    forall i, j | 0 <= i < j < |out| ensures KeyOf(out[i]) != KeyOf(out[j]) {
      if KeyOf(out[i]) == KeyOf(out[j]) {
        SameElements(vs, out, out[i]);
        SameElements(vs, out, out[j]);
        var x :| 0 <= x < |vs| && vs[x] == out[i];
        var y :| 0 <= y < |vs| && vs[y] == out[j];
        assert x == y;
        AtMostOnce(vs, x);
        TwiceCounts(out, i, j);
      }
    }
  }

  lemma AtMostOnce<K(!new)>(vs: seq<Row<K>>, x: nat)
    requires x < |vs| && forall i, j :: 0 <= i < j < |vs| ==> KeyOf(vs[i]) != KeyOf(vs[j])
    ensures multiset(vs)[vs[x]] == 1
  {
    assert vs == vs[..x] + [vs[x]] + vs[x + 1..];
    assert vs[x] !in vs[..x] && vs[x] !in vs[x + 1..];
  }

  lemma TwiceCounts<T>(xs: seq<T>, i: nat, j: nat)
    requires i < j < |xs| && xs[i] == xs[j]
    ensures multiset(xs)[xs[i]] >= 2
  {
    assert xs == xs[..j] + [xs[j]] + xs[j + 1..];
    assert xs[i] in xs[..j];
  }

  // ---------------------------------------------------------------- order of what is emitted

  /** The dictionary lists its keys as they first occur. */
  lemma {:induction false} ListedAsFirst<K(!new)>(rows: seq<Row<K>>)
    ensures AsFirst(KeyOf<K>, Absorbed(rows).order, rows)
  {
    if rows != [] {
      var rest, row := rows[..|rows| - 1], rows[|rows| - 1];
      ListedAsFirst(rest);
      assert rows == rest + [row];
      AsFirstNext(KeyOf<K>, Absorbed(rest).order, rest, row);
      FirstIsLive(rest, KeyOf(row));
    }
  }

  lemma {:induction false} FirstIsLive<K(!new)>(rows: seq<Row<K>>, key: (K, int))
    ensures FirstAt(KeyOf<K>, rows, key) == |rows| || key in Absorbed(rows).live
  {
    AbsorbedInv(rows);
    var f := FirstAt(KeyOf<K>, rows, key);
    if f < |rows| { assert rows[f] in rows && KeyOf(rows[f]) == key; }
  }

  /** Rows are emitted by time, and those of one time as their keys first occur, whichever row of
      the key survives. */
  lemma {:induction false} EmittedInOrder<K(!new)>(rows: seq<Row<K>>)
    ensures var out := Emitted(rows);
            forall i, j :: 0 <= i < j < |out| ==>
              || out[i].ts < out[j].ts
              || (out[i].ts == out[j].ts
                  && FirstAt(KeyOf<K>, rows, KeyOf(out[i])) < FirstAt(KeyOf<K>, rows, KeyOf(out[j])))
  {
    AbsorbedInv(rows);
    ListedAsFirst(rows);
    ByTsIsPreorder<K>();
    var p, out := Absorbed(rows), Emitted(rows);
    var vs := Values(p.order, p.live);
    forall i | 0 <= i < |vs| ensures KeyOf(vs[i]) == p.order[i] { assert p.order[i] in p.order; }
    SortedByFirst(ByTs, KeyOf<K>, rows, p.order, vs);
    forall i, j | 0 <= i < j < |out|
      ensures out[i].ts < out[j].ts || (out[i].ts == out[j].ts
              && FirstAt(KeyOf<K>, rows, KeyOf(out[i])) < FirstAt(KeyOf<K>, rows, KeyOf(out[j])))
    {
      assert ByFirst(ByTs, KeyOf<K>, rows)(out[i], out[j]);
    }
  }

  // ---------------------------------------------------------------- who survives

  /** Every quarantined pair is a conflict between two input rows of one key. */
  ghost predicate RealMismatch<K(!new)>(m: Mismatch<K>, rows: seq<Row<K>>) {
    && m.existing in rows && m.row in rows
    && KeyOf(m.existing) == KeyOf(m.row) == m.key
    && m.existing.raw.Some? && m.row.raw.Some? && m.existing.raw.value != m.row.raw.value
  }

  lemma {:induction false} MismatchesReal<K(!new)>(rows: seq<Row<K>>)
    ensures forall m :: m in Absorbed(rows).mismatches ==> RealMismatch(m, rows)
  {
    if rows != [] {
      var rest, row := rows[..|rows| - 1], rows[|rows| - 1];
      MismatchesReal(rest);
      AbsorbedInv(rest);
      assert rows == rest + [row];
    }
  }

  /** Row `j` meets an earlier row of its key that is still live and has another payload. */
  ghost predicate ConflictAt<K(!new)>(rows: seq<Row<K>>, j: nat) {
    && j < |rows| && KeyOf(rows[j]) in Absorbed(rows[..j]).live
    && var prior := Absorbed(rows[..j]).live[KeyOf(rows[j])];
    && prior.raw.Some? && rows[j].raw.Some? && prior.raw.value != rows[j].raw.value
  }

  ghost predicate RecordOf<K(!new)>(rows: seq<Row<K>>, j: nat, m: Mismatch<K>) {
    && ConflictAt(rows, j)
    && m == Mismatch(KeyOf(rows[j]), Absorbed(rows[..j]).live[KeyOf(rows[j])], rows[j])
  }

  /** Each row that conflicts with the one live before it makes one record, of the two in that
      order, and nothing else does. */
  lemma {:induction false} RecordsExactly<K(!new)>(rows: seq<Row<K>>) returns (at: seq<nat>)
    ensures |at| == |Absorbed(rows).mismatches|
    ensures forall i, k :: 0 <= i < k < |at| ==> at[i] < at[k]
    ensures forall i :: 0 <= i < |at| ==> RecordOf(rows, at[i], Absorbed(rows).mismatches[i])
    ensures forall j: nat :: ConflictAt(rows, j) ==> j in at
  {
    at := [];
    if rows != [] {
      var n := |rows| - 1;
      var rest := rows[..n];
      at := RecordsExactly(rest);
      assert forall j: nat :: j <= n ==> rest[..j] == rows[..j];
      forall i | 0 <= i < |at| ensures RecordOf(rows, at[i], Absorbed(rows).mismatches[i]) {
        assert RecordOf(rest, at[i], Absorbed(rest).mismatches[i]);
      }
      forall j: nat | j < n && ConflictAt(rows, j) ensures j in at { assert ConflictAt(rest, j); }
      assert rest[..n] == rest;
      if ConflictAt(rows, n) { at := at + [n]; }
    }
  }

  ghost predicate FirstOf<K(!new)>(rows: seq<Row<K>>, key: (K, int), f: nat) {
    f < |rows| && KeyOf(rows[f]) == key && forall j :: 0 <= j < f ==> KeyOf(rows[j]) != key
  }

  ghost predicate Quarantined<K(!new)>(rows: seq<Row<K>>, key: (K, int)) {
    exists m :: m in Absorbed(rows).mismatches && m.key == key
  }

  ghost predicate ConflictsLater<K(!new)>(rows: seq<Row<K>>, key: (K, int), f: nat)
    requires f < |rows|
  {
    exists j :: f < j < |rows| && KeyOf(rows[j]) == key
                && rows[f].raw.Some? && rows[j].raw.Some? && rows[f].raw.value != rows[j].raw.value
  }

  lemma UnseenKey<K(!new)>(rows: seq<Row<K>>, key: (K, int))
    requires forall j :: 0 <= j < |rows| ==> KeyOf(rows[j]) != key
    ensures key !in Absorbed(rows).live && !Quarantined(rows, key)
  {
    AbsorbedInv(rows);
    MismatchesReal(rows);
  }

  lemma QuarantinedNext<K(!new)>(rows: seq<Row<K>>, key: (K, int))
    requires rows != []
    ensures var rest, row := rows[..|rows| - 1], rows[|rows| - 1];
            Quarantined(rows, key) <==>
            (Quarantined(rest, key) ||
             (KeyOf(row) == key && key in Absorbed(rest).live && Conflicts(Absorbed(rest).live[key], row)))
  {
    var rest, row := rows[..|rows| - 1], rows[|rows| - 1];
    var p := Absorbed(rest);
    if KeyOf(row) in p.live && Conflicts(p.live[KeyOf(row)], row) {
      assert Mismatch(KeyOf(row), p.live[KeyOf(row)], row) in Absorbed(rows).mismatches;
    }
    assert forall m :: m in p.mismatches ==> m in Absorbed(rows).mismatches;
  }

  /** A key is quarantined exactly when a later row conflicts with its first, and one that is
      not keeps its first row. */
  lemma {:induction false} QuarantineExactly<K(!new)>(rows: seq<Row<K>>, key: (K, int), f: nat)
    requires FirstOf(rows, key, f)
    ensures key in Absorbed(rows).live
    ensures Quarantined(rows, key) <==> ConflictsLater(rows, key, f)
    ensures !Quarantined(rows, key) ==> Absorbed(rows).live[key] == rows[f]
  {
    var rest, row := rows[..|rows| - 1], rows[|rows| - 1];
    QuarantinedNext(rows, key);
    if f == |rest| {
      UnseenKey(rest, key);
    } else {
      QuarantineExactly(rest, key, f);
      assert forall j :: 0 <= j < |rest| ==> rest[j] == rows[j];
    }
  }

  /** A survivor is the first row of its key or of a higher-ranking node than the first, and no
      later row of the key has another payload and a higher-ranking node. */
  ghost predicate Stands<K(!new)>(rows: seq<Row<K>>, key: (K, int), f: nat, i: nat) {
    && f <= i < |rows| && KeyOf(rows[i]) == key
    && (i == f || Lex.Lt(NodePriority(rows[i].nodeId), NodePriority(rows[f].nodeId)))
    && forall j :: i < j < |rows| && KeyOf(rows[j]) == key
                   && rows[i].raw.Some? && rows[j].raw.Some? && rows[i].raw.value != rows[j].raw.value ==>
         !Lex.Lt(NodePriority(rows[j].nodeId), NodePriority(rows[i].nodeId))
  }

  lemma {:induction false} SurvivorStands<K(!new)>(rows: seq<Row<K>>, key: (K, int), f: nat) returns (i: nat)
    requires FirstOf(rows, key, f)
    ensures key in Absorbed(rows).live && Stands(rows, key, f, i) && Absorbed(rows).live[key] == rows[i]
  {
    var rest, row := rows[..|rows| - 1], rows[|rows| - 1];
    if f == |rest| {
      UnseenKey(rest, key);
      i := f;
    } else {
      i := SurvivorStands(rest, key, f);
      assert forall j :: 0 <= j < |rest| ==> rest[j] == rows[j];
      if KeyOf(row) == key && Replaces(rows[i], row) {
        RanksHigher(row.nodeId, rows[i].nodeId, rows[f].nodeId);
        i := |rest|;
      }
    }
  }

  lemma RanksHigher(a: Option<string>, b: Option<string>, c: Option<string>)
    requires Lex.Lt(NodePriority(a), NodePriority(b))
    requires b == c || Lex.Lt(NodePriority(b), NodePriority(c))
    ensures Lex.Lt(NodePriority(a), NodePriority(c))
  {
    var x, y, z := NodePriority(a), NodePriority(b), NodePriority(c);
    Lex.LeTotal(x, y);
    Lex.LeTotal(y, z);
    if Lex.Le(z, x) {
      Lex.LeTransitive(z, x, y);
      if b != c { assert false; }
    }
  }

  function WithKey<K(==)>(key: (K, int)): Row<K> -> bool { (r: Row<K>) => KeyOf(r) == key }

  /** Keys do not interfere: the survivor of a key is decided by that key's rows alone. */
  lemma {:induction false} KeyIsolation<K(!new)>(rows: seq<Row<K>>, key: (K, int))
    ensures var alone := Absorbed(Filter(WithKey(key), rows));
            && (key in Absorbed(rows).live <==> key in alone.live)
            && (key in alone.live ==> Absorbed(rows).live[key] == alone.live[key])
  {
    if rows != [] {
      var rest, row := rows[..|rows| - 1], rows[|rows| - 1];
      KeyIsolation(rest, key);
      assert rows == rows[..|rows|];
      FilterNext(WithKey(key), rows, |rows| - 1);
      var mine := Filter(WithKey(key), rest);
      assert (mine + [row])[..|mine|] == mine;
    }
  }

  /** Admits one mismatch and extends the records by whatever the limiter hands out. */
  method Quarantine<R>(limiter: L.BackpressureLimiter<R>, record: R, now: int, records: seq<R>, ghost seen: seq<R>)
    returns (r: seq<R>)
    requires multiset(records) + multiset(limiter.batch) == multiset(seen)
    modifies limiter
    ensures multiset(r) + multiset(limiter.batch) == multiset(seen + [record])
  {
    ghost var before := limiter.batch;
    L.AdmitConserves(limiter.Abs(), record, now);
    var batch := limiter.AdmitRecord(record, now);
    ghost var out := if batch.Some? then batch.value else [];
    r := if batch.Some? then records + batch.value else records;
    assert r == records + out;
    calc {
      multiset(r) + multiset(limiter.batch);
      multiset(records) + (multiset(out) + multiset(limiter.batch));
      multiset(records) + multiset(before) + multiset{record};
      multiset(seen + [record]);
    }
  }

  /** `deduplicate_ticks` / `deduplicate_orderbook_events`, under any clock: the counts and the
      emitted rows are those of the pass, and every mismatch is in `records` exactly once,
      whatever the limiter batched. */
  method DeduplicateByKey<K(==,!new)>(rows: seq<Row<K>>, multiNode: bool, clock: nat -> int)
    returns (emitted: seq<Row<K>>, dupSkip: nat, quarantineCount: nat, records: seq<Mismatch<K>>)
    ensures !multiNode ==> emitted == StableSort(ByTs, rows) && dupSkip == quarantineCount == |records| == 0
    ensures multiNode ==> emitted == Emitted(rows) && dupSkip == Absorbed(rows).dupSkip
    ensures multiNode ==> multiset(records) == multiset(Absorbed(rows).mismatches)
                          && quarantineCount == |Absorbed(rows).mismatches|
  {
    dupSkip, quarantineCount, records := 0, 0, [];
    if !multiNode {
      emitted := StableSort(ByTs, rows);
      return;
    }
    var order: seq<(K, int)>, byKey: map<(K, int), Row<K>> := [], map[];
    ghost var seen: seq<Mismatch<K>> := [];
    var limiter := new L.BackpressureLimiter<Mismatch<K>>(QUARANTINE_RATE_LIMIT_PER_SEC, clock(0));
    for i := 0 to |rows|
      invariant Pass(order, byKey, dupSkip, seen) == Absorbed(rows[..i])
      invariant quarantineCount == |seen|
      invariant multiset(records) + multiset(limiter.batch) == multiset(seen)
      invariant fresh(limiter)
    {
      assert rows[..i + 1][..i] == rows[..i];
      var row := rows[i];
      var key := KeyOf(row);
      if key !in byKey {
        order, byKey := order + [key], byKey[key := row];
      } else if Conflicts(byKey[key], row) {
        var record := Mismatch(key, byKey[key], row);
        quarantineCount := quarantineCount + 1;
        records := Quarantine(limiter, record, clock(quarantineCount), records, seen);
        seen := seen + [record];
        if Replaces(byKey[key], row) { byKey := byKey[key := row]; }
      } else {
        dupSkip := dupSkip + 1;
      }
    }
    assert rows[..|rows|] == rows;
    var rest := limiter.Flush();
    records := records + rest;
    AbsorbedInv(rows);
    emitted := StableSort(ByTs, Values(order, byKey));
  }
}
