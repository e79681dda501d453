/** `deduplicate_ticks_v1_1`: dedup on the 8-tuple with a second index by 6-tuple body, which
    finds rows that agree on the trade but not on its payload hash. */
module TickDedupV11 {
  import opened Basics
  import opened Sorting
  import Lex
  import D = Dedup
  import L = Limiter

  datatype Body = Body(exchange: string, symbol: string, ts: int, price: Price, quantity: int, side: string)
  datatype FullKey = FullKey(body: Body, payloadHash: Option<string>, ingestSeq: Option<int>)
  datatype Tick = Tick(full: FullKey, nodeId: Option<string>, receivedAt: int)
  datatype Mismatch = Mismatch(body: Body, prior: Tick, row: Tick)

  function FullOf(): Tick -> FullKey { (t: Tick) => t.full }

  predicate ByTs(a: Tick, b: Tick) { a.full.body.ts <= b.full.body.ts }

  predicate HashesDiffer(a: FullKey, b: FullKey) {
    a.payloadHash.Some? && b.payloadHash.Some? && a.payloadHash != b.payloadHash
  }

  /** `by_full_key` with its insertion order, `by_body`, and the counts. */
  datatype Pass = Pass(order: seq<FullKey>, byFull: map<FullKey, Tick>, byBody: map<Body, seq<Tick>>,
                       dupSkip: nat, mismatches: seq<Mismatch>)

  function Priors(byBody: map<Body, seq<Tick>>, body: Body): seq<Tick> {
    if body in byBody then byBody[body] else []
  }

  /** The first prior row whose hash disagrees, if any. */
  function FirstConflict(priors: seq<Tick>, row: Tick): (k: nat)
    ensures k <= |priors|
    ensures k < |priors| ==> HashesDiffer(row.full, priors[k].full)
    ensures forall i :: 0 <= i < k ==> !HashesDiffer(row.full, priors[i].full)
  {
    if priors == [] || HashesDiffer(row.full, priors[0].full) then 0
    else 1 + FirstConflict(priors[1..], row)
  }

  function Without(order: seq<FullKey>, key: FullKey): seq<FullKey> {
    Filter(k => k != key, order)
  }

  predicate Outranks(row: Tick, prior: Tick) {
    Lex.Lt(D.NodePriority(row.nodeId), D.NodePriority(prior.nodeId))
  }

  function Absorb(p: Pass, row: Tick): Pass {
    var full, body := row.full, row.full.body;
    if full in p.byFull then p.(dupSkip := p.dupSkip + 1)
    else
      var priors := Priors(p.byBody, body);
      var k := FirstConflict(priors, row);
      if k == |priors| then
        p.(order := p.order + [full], byFull := p.byFull[full := row], byBody := p.byBody[body := priors + [row]])
      else if Outranks(row, priors[k]) then
        p.(order := Without(p.order, priors[k].full) + [full],
           byFull := (p.byFull - {priors[k].full})[full := row],
           byBody := p.byBody[body := [row]],
           mismatches := p.mismatches + [Mismatch(body, priors[k], row)])
      else
        p.(byBody := p.byBody[body := priors], mismatches := p.mismatches + [Mismatch(body, priors[k], row)])
  }

  function Absorbed(rows: seq<Tick>): Pass {
    if rows == [] then Pass([], map[], map[], 0, [])
    else Absorb(Absorbed(rows[..|rows| - 1]), rows[|rows| - 1])
  }

  /** The two indexes are in step: everything listed under a body is live under its own full key,
      so the delete of a replaced row always finds it. */
  ghost predicate InStep(p: Pass) {
    && (forall k :: k in p.byFull ==> p.byFull[k].full == k)
    && (forall b, t :: b in p.byBody && t in p.byBody[b] ==>
          t.full in p.byFull && p.byFull[t.full] == t && t.full.body == b)
  }

  ghost predicate OrderInv(p: Pass) {
    Distinct(p.order) && forall k :: k in p.byFull <==> k in p.order
  }

  lemma ListedStaysLive(p: Pass, row: Tick, b: Body, t: Tick)
    requires InStep(p) && b in Absorb(p, row).byBody && t in Absorb(p, row).byBody[b]
    ensures var q := Absorb(p, row); t.full in q.byFull && q.byFull[t.full] == t && t.full.body == b
  {
    var q := Absorb(p, row);
    var priors := Priors(p.byBody, row.full.body);
    var k := FirstConflict(priors, row);
    if b != row.full.body {
      assert b in p.byBody && t in p.byBody[b];
      if k < |priors| { assert priors[k] in p.byBody[row.full.body]; }
    } else if row.full in p.byFull {
    } else if k == |priors| {
      assert t in priors || t == row;
    } else if Outranks(row, priors[k]) {
      assert t == row;
    } else {
      assert t in priors;
    }
  }

  lemma AbsorbInStep(p: Pass, row: Tick)
    requires InStep(p)
    ensures InStep(Absorb(p, row))
  {
    var q := Absorb(p, row);
    forall b, t | b in q.byBody && t in q.byBody[b]
      ensures t.full in q.byFull && q.byFull[t.full] == t && t.full.body == b
    {
      ListedStaysLive(p, row, b, t);
    }
  }

  lemma {:induction false} WithoutKey(order: seq<FullKey>, key: FullKey)
    requires Distinct(order)
    ensures Distinct(Without(order, key))
    ensures |Without(order, key)| == |order| - (if key in order then 1 else 0)
  {
    if order != [] {
      WithoutKey(order[1..], key);
      var rest := Without(order[1..], key);
      assert order == [order[0]] + order[1..];
      assert order[0] !in order[1..];
      assert forall x | x in rest :: x in order[1..];
    }
  }

  lemma AbsorbOrder(p: Pass, row: Tick)
    requires InStep(p) && OrderInv(p)
    ensures var q := Absorb(p, row);
            && OrderInv(q)
            && |q.order| + q.dupSkip + |q.mismatches| == |p.order| + p.dupSkip + |p.mismatches| + 1
  {
    var q := Absorb(p, row);
    var priors := Priors(p.byBody, row.full.body);
    var k := FirstConflict(priors, row);
    if row.full !in p.byFull && k < |priors| && Outranks(row, priors[k]) {
      assert row.full.body in p.byBody && priors[k] in p.byBody[row.full.body];
      WithoutKey(p.order, priors[k].full);
    }
  }

  /** Over every input: the indexes stay in step, full keys are listed once, and every row is
      emitted, skipped or quarantined. */
  lemma {:induction false} AbsorbedInv(rows: seq<Tick>)
    ensures var p := Absorbed(rows);
            && InStep(p) && OrderInv(p)
            && |rows| == |p.order| + p.dupSkip + |p.mismatches|
            && forall k :: k in p.byFull ==> p.byFull[k] in rows
  {
    if rows != [] {
      var rest, row := rows[..|rows| - 1], rows[|rows| - 1];
      AbsorbedInv(rest);
      AbsorbInStep(Absorbed(rest), row);
      AbsorbOrder(Absorbed(rest), row);
      assert rows == rest + [row];
    }
  }

  /** Every record pairs two input rows of one trade with different payload hashes. */
  ghost predicate RealMismatch(m: Mismatch, rows: seq<Tick>) {
    && m.prior in rows && m.row in rows
    && m.prior.full.body == m.row.full.body == m.body
    && m.prior.full.payloadHash.Some? && m.row.full.payloadHash.Some?
    && m.prior.full.payloadHash.value != m.row.full.payloadHash.value
  }

  lemma {:induction false} MismatchesReal(rows: seq<Tick>)
    ensures forall m :: m in Absorbed(rows).mismatches ==> RealMismatch(m, rows)
  {
    if rows != [] {
      var rest, row := rows[..|rows| - 1], rows[|rows| - 1];
      MismatchesReal(rest);
      AbsorbedInv(rest);
      assert rows == rest + [row];
      forall m | m in Absorbed(rows).mismatches ensures RealMismatch(m, rows) {
        if m in Absorbed(rest).mismatches {
          assert RealMismatch(m, rest);
        } else {
          NewMismatch(Absorbed(rest), rest, row, m);
        }
      }
    }
  }

  lemma NewMismatch(p: Pass, rest: seq<Tick>, row: Tick, m: Mismatch)
    requires InStep(p) && forall k :: k in p.byFull ==> p.byFull[k] in rest
    requires m in Absorb(p, row).mismatches && m !in p.mismatches
    ensures RealMismatch(m, rest + [row])
  {
    var priors := Priors(p.byBody, row.full.body);
    var k := FirstConflict(priors, row);
    assert k < |priors| && m == Mismatch(row.full.body, priors[k], row);
    assert priors[k] in p.byBody[row.full.body];
    assert priors[k] in rest && row in rest + [row];
  }

  /** A conflict is settled by node priority alone: the row of the node that sorts first is live
      afterwards and the other one is not. */
  lemma ConflictSettled(p: Pass, row: Tick, k: nat)
    requires InStep(p) && row.full !in p.byFull
    requires k == FirstConflict(Priors(p.byBody, row.full.body), row) < |Priors(p.byBody, row.full.body)|
    ensures var prior, live := Priors(p.byBody, row.full.body)[k], Absorb(p, row).byFull;
            if Lex.Lt(D.NodePriority(row.nodeId), D.NodePriority(prior.nodeId))
            then row.full in live && live[row.full] == row && prior.full !in live
            else row.full !in live && prior.full in live && live[prior.full] == prior
  {
    var priors := Priors(p.byBody, row.full.body);
    assert row.full.body in p.byBody && priors[k] in p.byBody[row.full.body];
  }

  /** A record that explains why a full key is not emitted: it was replaced by a row of a node that
      sorts before its own, or it came second and its node does not. */
  ghost predicate Lost(m: Mismatch, full: FullKey) {
    var second := Lex.Lt(D.NodePriority(m.row.nodeId), D.NodePriority(m.prior.nodeId));
    m.body == full.body && if second then m.prior.full == full else m.row.full == full
  }

  ghost predicate Explained(p: Pass, full: FullKey) { exists m :: m in p.mismatches && Lost(m, full) }

  lemma AbsorbExplains(p: Pass, row: Tick, full: FullKey)
    requires InStep(p) && (full in p.byFull || Explained(p, full) || full == row.full)
    ensures full in Absorb(p, row).byFull || Explained(Absorb(p, row), full)
  {
    var q := Absorb(p, row);
    var priors := Priors(p.byBody, row.full.body);
    var k := FirstConflict(priors, row);
    if Explained(p, full) {
      var m :| m in p.mismatches && Lost(m, full);
      assert m in q.mismatches;
    }
    if row.full !in p.byFull && k < |priors| {
      assert priors[k] in p.byBody[row.full.body];
      var m := Mismatch(row.full.body, priors[k], row);
      assert m in q.mismatches;
      if full !in q.byFull { assert Explained(p, full) || Lost(m, full); }
    }
  }

  /** Who loses: an input row whose full key is not emitted is named in a record, as the one of
      the two whose node does not sort first. */
  lemma {:induction false} LosersExplained(rows: seq<Tick>)
    ensures forall r :: r in rows ==> r.full in Absorbed(rows).byFull || Explained(Absorbed(rows), r.full)
  {
    if rows != [] {
      var rest, row := rows[..|rows| - 1], rows[|rows| - 1];
      LosersExplained(rest);
      AbsorbedInv(rest);
      assert rows == rest + [row];
      forall r | r in rows ensures r.full in Absorbed(rows).byFull || Explained(Absorbed(rows), r.full) {
        AbsorbExplains(Absorbed(rest), row, r.full);
      }
    }
  }

  ghost predicate Recorded(p: Pass, body: Body) { exists m :: m in p.mismatches && m.body == body }

  /** Nothing vanishes without a record: every input row's full key is emitted, or its trade is
      in quarantine. */
  lemma EmittedOrRecorded(rows: seq<Tick>)
    ensures forall r :: r in rows ==> r.full in Absorbed(rows).byFull || Recorded(Absorbed(rows), r.full.body)
  {
    LosersExplained(rows);
  }

  const TRADE := Body("x", "s", 0, Price(1), 1, "buy")

  function Sent(hash: string, seqNo: int, node: string): Tick {
    Tick(FullKey(TRADE, Some(hash), Some(seqNo)), Some(node), 0)
  }

  lemma AbsorbedNext(rows: seq<Tick>, row: Tick)
    ensures Absorbed(rows + [row]) == Absorb(Absorbed(rows), row)
  {
    assert (rows + [row])[..|rows|] == rows;
  }

  lemma SameHashListed(a: Tick, b: Tick)
    requires a == Sent("h", 1, "B") && b == Sent("h", 2, "B")
    ensures Absorbed([a, b]).byBody == map[TRADE := [a, b]] && Absorbed([a, b]).byFull == map[a.full := a, b.full := b]
  {
    AbsorbedNext([], a);
    AbsorbedNext([a], b);
    assert [] + [a] == [a] && [a] + [b] == [a, b];
  }

  lemma FirstReplaced(p: Pass, a: Tick, b: Tick, c: Tick)
    requires a == Sent("h", 1, "B") && b == Sent("h", 2, "B") && c == Sent("k", 1, "A")
    requires p.byBody == map[TRADE := [a, b]] && p.byFull == map[a.full := a, b.full := b]
    ensures Absorb(p, c).byBody == map[TRADE := [c]] && Absorb(p, c).byFull == map[b.full := b, c.full := c]
  {
    Lex.FirstDifference([], "A", "B");
    assert [] + "A" == "A" && [] + "B" == "B";
  }

  /** Two hashes of one trade can come out: of two rows with the losing hash only the first is
      replaced, and later rows are compared with the new one only. */
  lemma TwoHashesEmitted()
    ensures var a, b, c, d := Sent("h", 1, "B"), Sent("h", 2, "B"), Sent("k", 1, "A"), Sent("k", 2, "A");
            Absorbed([a, b, c, d]).byFull.Keys == {b.full, c.full, d.full}
  {
    var a, b, c, d := Sent("h", 1, "B"), Sent("h", 2, "B"), Sent("k", 1, "A"), Sent("k", 2, "A");
    SameHashListed(a, b);
    AbsorbedNext([a, b], c);
    AbsorbedNext([a, b, c], d);
    assert [a, b] + [c] == [a, b, c] && [a, b, c] + [d] == [a, b, c, d];
    FirstReplaced(Absorbed([a, b]), a, b, c);
  }

  // ---------------------------------------------------------------- order of what is emitted

  function Emitted(rows: seq<Tick>): (out: seq<Tick>) {
    AbsorbedInv(rows);
    StableSort(ByTs, Values(Absorbed(rows).order, Absorbed(rows).byFull))
  }

  /** The live rows as the dictionary lists them stand in the input in that order, at `at`. */
  ghost predicate LiveAt(p: Pass, rows: seq<Tick>, at: seq<nat>) {
    && |at| == |p.order| && (forall i, j :: 0 <= i < j < |at| ==> at[i] < at[j])
    && (forall i :: 0 <= i < |at| ==> at[i] < |rows| && p.order[i] in p.byFull && rows[at[i]] == p.byFull[p.order[i]])
  }

  lemma {:induction false} WithoutRemoves(order: seq<FullKey>, key: FullKey) returns (g: nat)
    requires Distinct(order) && key in order
    ensures g < |order| && order[g] == key && Without(order, key) == RemoveAt(order, g)
  {
    var rest := order[1..];
    if order[0] == key {
      g := 0;
      FilterAll(k => k != key, rest);
      assert Without(order, key) == rest;
    } else {
      g := WithoutRemoves(rest, key);
      g := g + 1;
      assert [order[0]] + RemoveAt(rest, g - 1) == RemoveAt(order, g);
    }
  }

  lemma LaterStays(p: Pass, rows: seq<Tick>, row: Tick, at: seq<nat>)
    requires LiveAt(p, rows, at)
    ensures LiveAt(p, rows + [row], at)
  {
  }

  lemma ListedLast(p: Pass, q: Pass, rows: seq<Tick>, row: Tick, at: seq<nat>)
    requires LiveAt(p, rows, at) && row.full !in p.order
    requires q.order == p.order + [row.full] && q.byFull == p.byFull[row.full := row]
    ensures LiveAt(q, rows + [row], at + [|rows|])
  {
    var next := at + [|rows|];
    forall i | 0 <= i < |next| ensures next[i] == if i < |at| then at[i] else |rows| { }
    forall i | 0 <= i < |at| ensures q.order[i] == p.order[i] && p.order[i] != row.full {
      assert p.order[i] in p.order;
    }
  }

  lemma OneRemoved(p: Pass, q: Pass, rows: seq<Tick>, at: seq<nat>, g: nat)
    requires LiveAt(p, rows, at) && Distinct(p.order) && g < |p.order|
    requires q.order == RemoveAt(p.order, g) && q.byFull == p.byFull - {p.order[g]}
    ensures LiveAt(q, rows, RemoveAt(at, g))
  {
    var next := RemoveAt(at, g);
    forall i | 0 <= i < |next|
      ensures next[i] == at[if i < g then i else i + 1] && q.order[i] == p.order[if i < g then i else i + 1]
    {
    }
  }

  lemma ReplacedLast(p: Pass, q: Pass, rows: seq<Tick>, row: Tick, gone: FullKey, at: seq<nat>) returns (next: seq<nat>)
    requires OrderInv(p) && LiveAt(p, rows, at) && gone in p.byFull && row.full !in p.byFull
    requires q.order == Without(p.order, gone) + [row.full] && q.byFull == (p.byFull - {gone})[row.full := row]
    ensures LiveAt(q, rows + [row], next)
  {
    var g := WithoutRemoves(p.order, gone);
    var mid := p.(order := RemoveAt(p.order, g), byFull := p.byFull - {gone});
    OneRemoved(p, mid, rows, at, g);
    ListedLast(mid, q, rows, row, RemoveAt(at, g));
    next := RemoveAt(at, g) + [|rows|];
  }

  lemma AbsorbLive(p: Pass, rows: seq<Tick>, row: Tick, at: seq<nat>) returns (next: seq<nat>)
    requires InStep(p) && OrderInv(p) && LiveAt(p, rows, at)
    ensures LiveAt(Absorb(p, row), rows + [row], next)
  {
    var q, priors := Absorb(p, row), Priors(p.byBody, row.full.body);
    var k := FirstConflict(priors, row);
    LaterStays(p, rows, row, at);
    next := at;
    if row.full !in p.byFull && k == |priors| {
      ListedLast(p, q, rows, row, at);
      next := at + [|rows|];
    } else if row.full !in p.byFull && Outranks(row, priors[k]) {
      assert row.full.body in p.byBody && priors[k] in p.byBody[row.full.body];
      next := ReplacedLast(p, q, rows, row, priors[k].full, at);
    }
  }

  lemma {:induction false} LiveInOrder(rows: seq<Tick>) returns (at: seq<nat>)
    ensures LiveAt(Absorbed(rows), rows, at)
  {
    at := [];
    if rows != [] {
      var rest, row := rows[..|rows| - 1], rows[|rows| - 1];
      at := LiveInOrder(rest);
      AbsorbedInv(rest);
      assert rows == rest + [row];
      at := AbsorbLive(Absorbed(rest), rest, row, at);
    }
  }

  predicate CameBefore(pos: map<FullKey, nat>, a: Tick, b: Tick) {
    || a.full.body.ts < b.full.body.ts
    || (a.full.body.ts == b.full.body.ts && a.full in pos && b.full in pos && pos[a.full] < pos[b.full])
  }

  function ByPosition(pos: map<FullKey, nat>): (Tick, Tick) -> bool { (a, b) => CameBefore(pos, a, b) }

  lemma Positions(order: seq<FullKey>, at: seq<nat>) returns (pos: map<FullKey, nat>)
    requires Distinct(order) && |at| == |order|
    ensures forall i :: 0 <= i < |order| ==> order[i] in pos && pos[order[i]] == at[i]
  {
    pos := map i | 0 <= i < |at| :: order[i] := at[i];
  }

  lemma {:induction false} SortedByPosition(vs: seq<Tick>, at: seq<nat>, pos: map<FullKey, nat>)
    requires |at| == |vs| && forall i, j :: 0 <= i < j < |at| ==> at[i] < at[j]
    requires forall i :: 0 <= i < |vs| ==> vs[i].full in pos && pos[vs[i].full] == at[i]
    ensures SortedBy(ByPosition(pos), StableSort(ByTs, vs))
  {
    SortPairs(ByTs, ByPosition(pos), vs);
    forall i, j | 0 <= i < j < |vs| ensures InSortOrder(ByTs, ByPosition(pos), vs[i], vs[j]) {
      assert at[i] < at[j];
    }
  }

  lemma LivePositions(rows: seq<Tick>, vs: seq<Tick>) returns (pos: map<FullKey, nat>)
    requires Distinct(Absorbed(rows).order) && (forall k :: k in Absorbed(rows).order ==> k in Absorbed(rows).byFull)
    requires vs == Values(Absorbed(rows).order, Absorbed(rows).byFull)
    requires forall i :: 0 <= i < |vs| ==> vs[i].full == Absorbed(rows).order[i]
    ensures forall i :: 0 <= i < |vs| ==>
              vs[i].full in pos && pos[vs[i].full] < |rows| && rows[pos[vs[i].full]] == vs[i]
    ensures SortedBy(ByPosition(pos), StableSort(ByTs, vs))
  {
    var at := LiveInOrder(rows);
    pos := Positions(Absorbed(rows).order, at);
    SortedByPosition(vs, at, pos);
  }

  /** Rows are emitted by time, and those of one time in the order they came in. */
  lemma {:induction false} EmittedInOrder(rows: seq<Tick>) returns (pos: map<FullKey, nat>)
    ensures forall t :: t in Emitted(rows) ==> t.full in pos && pos[t.full] < |rows| && rows[pos[t.full]] == t
    ensures forall i, j :: 0 <= i < j < |Emitted(rows)| ==> CameBefore(pos, Emitted(rows)[i], Emitted(rows)[j])
  {
    AbsorbedInv(rows);
    var p, out := Absorbed(rows), Emitted(rows);
    var vs := Values(p.order, p.byFull);
    forall i | 0 <= i < |vs| ensures vs[i].full == p.order[i] { assert p.order[i] in p.order; }
    pos := LivePositions(rows, vs);
    forall t | t in out ensures t.full in pos && pos[t.full] < |rows| && rows[pos[t.full]] == t {
      SameElements(out, vs, t);
    }
    forall i, j | 0 <= i < j < |out| ensures CameBefore(pos, out[i], out[j]) {
      assert ByPosition(pos)(out[i], out[j]);
    }
  }

  // ---------------------------------------------------------------- one hash for a trade

  /** No two emitted rows of a trade carry different hashes. */
  ghost predicate OneHash(p: Pass) {
    forall x, y :: x in p.byFull && y in p.byFull && x.body == y.body ==>
      x.payloadHash.Some? && y.payloadHash.Some? ==> x.payloadHash == y.payloadHash
  }

  /** Two rows of a trade with one hash, and a third with another whose node sorts before the
      first one's. */
  predicate Clash(a: Tick, b: Tick, c: Tick) {
    && a.full.body == b.full.body == c.full.body && a.full != b.full
    && a.full.payloadHash.Some? && b.full.payloadHash == a.full.payloadHash
    && c.full.payloadHash.Some? && c.full.payloadHash != a.full.payloadHash
    && Lex.Lt(D.NodePriority(c.nodeId), D.NodePriority(a.nodeId))
  }

  ghost predicate NoClash(may: Tick -> bool) { forall a, b, c :: may(a) && may(b) && may(c) ==> !Clash(a, b, c) }

  /** Live rows with a hash are those later rows are compared with. */
  ghost predicate HashedListed(p: Pass) {
    forall x :: x in p.byFull && x.payloadHash.Some? ==> x.body in p.byBody && p.byFull[x] in p.byBody[x.body]
  }

  ghost predicate Tidy(p: Pass, may: Tick -> bool) {
    InStep(p) && OneHash(p) && HashedListed(p) && forall x :: x in p.byFull ==> may(p.byFull[x])
  }

  lemma AcceptedAgrees(p: Pass, row: Tick, x: FullKey)
    requires HashedListed(p) && x in p.byFull && p.byFull[x].full == x
    requires FirstConflict(Priors(p.byBody, row.full.body), row) == |Priors(p.byBody, row.full.body)|
    requires x.body == row.full.body && x.payloadHash.Some? && row.full.payloadHash.Some?
    ensures x.payloadHash == row.full.payloadHash
  {
    assert p.byFull[x] in Priors(p.byBody, row.full.body);
  }

  lemma AcceptKeepsTidy(p: Pass, row: Tick, may: Tick -> bool)
    requires Tidy(p, may) && may(row) && row.full !in p.byFull
    requires FirstConflict(Priors(p.byBody, row.full.body), row) == |Priors(p.byBody, row.full.body)|
    ensures Tidy(Absorb(p, row), may)
  {
    var q, body, priors := Absorb(p, row), row.full.body, Priors(p.byBody, row.full.body);
    AbsorbInStep(p, row);
    assert q.byBody[body] == priors + [row] && q.byBody[body][|priors|] == row;
    forall x | x in p.byFull && x.body == body && x.payloadHash.Some? && row.full.payloadHash.Some?
      ensures x.payloadHash == row.full.payloadHash
    {
      AcceptedAgrees(p, row, x);
    }
  }

  /** A replaced row was the only one of its trade with a hash, or there was a clash. */
  lemma ReplacedAlone(p: Pass, row: Tick, may: Tick -> bool, prior: Tick, x: FullKey)
    requires Tidy(p, may) && may(row) && NoClash(may)
    requires prior.full in p.byFull && p.byFull[prior.full] == prior && prior.full.body == row.full.body
    requires HashesDiffer(row.full, prior.full) && Outranks(row, prior)
    requires x in p.byFull && x.body == row.full.body && x.payloadHash.Some?
    ensures x == prior.full
  {
    assert !Clash(prior, p.byFull[x], row);
  }

  lemma ReplaceKeepsTidy(p: Pass, row: Tick, may: Tick -> bool, k: nat)
    requires Tidy(p, may) && may(row) && row.full !in p.byFull && NoClash(may)
    requires k == FirstConflict(Priors(p.byBody, row.full.body), row) < |Priors(p.byBody, row.full.body)|
    requires Outranks(row, Priors(p.byBody, row.full.body)[k])
    ensures Tidy(Absorb(p, row), may)
  {
    var q, body, prior := Absorb(p, row), row.full.body, Priors(p.byBody, row.full.body)[k];
    AbsorbInStep(p, row);
    assert prior in p.byBody[body];
    forall x | x in p.byFull && x.body == body && x.payloadHash.Some? ensures x == prior.full {
      ReplacedAlone(p, row, may, prior, x);
    }
    TidyAfterwards(p, q, row, prior.full, may);
  }

  lemma TidyAfterwards(p: Pass, q: Pass, row: Tick, gone: FullKey, may: Tick -> bool)
    requires Tidy(p, may) && may(row) && InStep(q) && gone.body == row.full.body
    requires q.byFull == (p.byFull - {gone})[row.full := row] && q.byBody == p.byBody[row.full.body := [row]]
    requires forall x :: x in p.byFull && x.body == row.full.body && x.payloadHash.Some? ==> x == gone
    ensures Tidy(q, may)
  {
    assert q.byBody[row.full.body][0] == row;
  }

  lemma AbsorbKeepsTidy(p: Pass, row: Tick, may: Tick -> bool)
    requires Tidy(p, may) && may(row) && NoClash(may)
    ensures Tidy(Absorb(p, row), may)
  {
    var priors := Priors(p.byBody, row.full.body);
    var k := FirstConflict(priors, row);
    if row.full in p.byFull {
    } else if k == |priors| {
      AcceptKeepsTidy(p, row, may);
    } else if Outranks(row, priors[k]) {
      ReplaceKeepsTidy(p, row, may, k);
    } else {
      AbsorbInStep(p, row);
      assert row.full.body in p.byBody && Absorb(p, row).byBody == p.byBody;
    }
  }

  lemma {:induction false} NoClashTidy(may: Tick -> bool, rows: seq<Tick>)
    requires NoClash(may) && forall r :: r in rows ==> may(r)
    ensures Tidy(Absorbed(rows), may)
  {
    if rows != [] {
      NoClashTidy(may, rows[..|rows| - 1]);
      AbsorbKeepsTidy(Absorbed(rows[..|rows| - 1]), rows[|rows| - 1], may);
    }
  }

  lemma ClashListed(a: Tick, b: Tick, c: Tick)
    requires Clash(a, b, c)
    ensures var p := Absorbed([a, b]);
            && p.byFull == map[a.full := a, b.full := b] && p.byBody == map[a.full.body := [a, b]]
            && FirstConflict([a, b], c) == 0
  {
    AbsorbedNext([], a);
    AbsorbedNext([a], b);
    assert [] + [a] == [a] && [a] + [b] == [a, b];
  }

  lemma ClashEmitsTwo(a: Tick, b: Tick, c: Tick)
    requires Clash(a, b, c)
    ensures !OneHash(Absorbed([a, b, c]))
  {
    ClashListed(a, b, c);
    AbsorbedNext([a, b], c);
    assert [a, b] + [c] == [a, b, c];
    var q := Absorbed([a, b, c]);
    assert b.full in q.byFull && c.full in q.byFull;
  }

  /** The exact condition: whatever rows are sent, in whatever order, no trade is emitted with two
      hashes, if and only if no two rows that may be sent share a trade and a hash while a third
      has another hash and a node that sorts before. */
  lemma OneHashExactly(may: Tick -> bool)
    ensures (forall rows :: (forall r :: r in rows ==> may(r)) ==> OneHash(Absorbed(rows))) <==> NoClash(may)
  {
    if NoClash(may) {
      forall rows: seq<Tick> | forall r :: r in rows ==> may(r) ensures OneHash(Absorbed(rows)) {
        NoClashTidy(may, rows);
      }
    } else {
      var a, b, c :| may(a) && may(b) && may(c) && Clash(a, b, c);
      ClashEmitsTwo(a, b, c);
      assert forall r :: r in [a, b, c] ==> may(r);
    }
  }

  lemma ListedIsLive(rows: seq<Tick>, body: Body, k: nat)
    requires k < |Priors(Absorbed(rows).byBody, body)|
    ensures Priors(Absorbed(rows).byBody, body)[k].full in Absorbed(rows).byFull
  {
    AbsorbedInv(rows);
    assert Priors(Absorbed(rows).byBody, body)[k] in Absorbed(rows).byBody[body];
  }

  /** `deduplicate_ticks_v1_1`. */
  method DeduplicateTicksV11(rows: seq<Tick>, multiNode: bool, clock: nat -> int)
    returns (emitted: seq<Tick>, dupSkip: nat, quarantineCount: nat, records: seq<Mismatch>)
    ensures |rows| == |emitted| + dupSkip + quarantineCount
    ensures forall i, j :: 0 <= i < j < |emitted| ==> emitted[i].full.body.ts <= emitted[j].full.body.ts
    ensures forall t :: t in emitted ==> t in rows
    ensures !multiNode ==> emitted == StableSort(ByTs, rows)
    ensures multiNode ==> emitted == Emitted(rows)
    ensures multiNode ==> forall t :: t in emitted <==>
              t.full in Absorbed(rows).byFull && t == Absorbed(rows).byFull[t.full]
    ensures multiNode ==> forall i, j :: 0 <= i < j < |emitted| ==> emitted[i].full != emitted[j].full
    ensures multiNode ==> multiset(records) == multiset(Absorbed(rows).mismatches)
                          && quarantineCount == |Absorbed(rows).mismatches|
  {
    dupSkip, quarantineCount, records := 0, 0, [];
    if !multiNode {
      emitted := StableSort(ByTs, rows);
      SortSorts(ByTs, rows);
      forall t | t in emitted ensures t in rows { SameElements(emitted, rows, t); }
      return;
    }
    var order: seq<FullKey>, byFull: map<FullKey, Tick>, byBody: map<Body, seq<Tick>> := [], map[], map[];
    ghost var seen: seq<Mismatch> := [];
    var limiter := new L.BackpressureLimiter<Mismatch>(D.QUARANTINE_RATE_LIMIT_PER_SEC, clock(0));
    for i := 0 to |rows|
      invariant Pass(order, byFull, byBody, dupSkip, seen) == Absorbed(rows[..i])
      invariant quarantineCount == |seen|
      invariant multiset(records) + multiset(limiter.batch) == multiset(seen)
      invariant fresh(limiter)
    {
      assert rows[..i + 1][..i] == rows[..i];
      var row := rows[i];
      var full, body := row.full, row.full.body;
      if full in byFull {
        dupSkip := dupSkip + 1;
      } else {
        var priors := Priors(byBody, body);
        var k := FindConflict(priors, row);
        if k == |priors| {
          order, byFull := order + [full], byFull[full := row];
          byBody := byBody[body := priors + [row]];
        } else {
          var record := Mismatch(body, priors[k], row);
          quarantineCount := quarantineCount + 1;
          records := D.Quarantine(limiter, record, clock(quarantineCount), records, seen);
          seen := seen + [record];
          if Outranks(row, priors[k]) {
            ListedIsLive(rows[..i], body, k);
            assert priors[k].full in byFull;  // the delete never misses
            order, byFull := Without(order, priors[k].full) + [full], (byFull - {priors[k].full})[full := row];
            byBody := byBody[body := [row]];
          } else {
            byBody := byBody[body := priors];
          }
        }
      }
    }
    assert rows[..|rows|] == rows;
    var rest := limiter.Flush();
    records := records + rest;
    AbsorbedInv(rows);
    emitted := InTimeOrder(order, byFull);
  }

  /** `sorted(by_full_key.values(), key=ts_utc)`. */
  method InTimeOrder(order: seq<FullKey>, byFull: map<FullKey, Tick>) returns (emitted: seq<Tick>)
    requires Distinct(order) && forall k :: k in order <==> k in byFull
    requires forall k :: k in byFull ==> byFull[k].full == k
    ensures emitted == StableSort(ByTs, Values(order, byFull))
    ensures forall i, j :: 0 <= i < j < |emitted| ==> emitted[i].full.body.ts <= emitted[j].full.body.ts
    ensures forall i, j :: 0 <= i < j < |emitted| ==> emitted[i].full != emitted[j].full
    ensures forall t :: t in emitted <==> t.full in byFull && t == byFull[t.full]
  {
    var vs := Values(order, byFull);
    emitted := StableSort(ByTs, vs);
    SortSorts(ByTs, vs);
    forall t: Tick ensures t in emitted <==> t.full in byFull && t == byFull[t.full] {
      SameElements(emitted, vs, t);
      InValues(FullOf(), order, byFull, t);
    }
    forall i | 0 <= i < |vs| ensures vs[i].full == order[i] { assert order[i] in order; }
    SortDistinct(ByTs, vs);
    forall i | 0 <= i < |emitted| ensures emitted[i] == byFull[emitted[i].full] { assert emitted[i] in emitted; }
  }

  /** The loop over the prior rows, left at the first conflict. */
  method FindConflict(priors: seq<Tick>, row: Tick) returns (k: nat)
    ensures k == FirstConflict(priors, row)
  {
    k := 0;
    while k < |priors|
      invariant 0 <= k <= |priors|
      invariant FirstConflict(priors, row) == k + FirstConflict(priors[k..], row)
    {
      if HashesDiffer(row.full, priors[k].full) { return; }
      k := k + 1;
    }
  }
}
