/** The tier merge of `l2.py` and `l3.py`: order the files by their content's least timestamp,
    stream them batch by batch through a monotonic check, then publish or quarantine. */
module Merge {
  import opened Basics
  import opened Sorting

  datatype Row = Row(ts: int, data: string)
  /** A Parquet row group; `stats` says whether its footer carries column statistics. */
  datatype RowGroup = RowGroup(rows: seq<Row>, stats: bool)
  type File = seq<RowGroup>
  type Batches = seq<seq<Row>>

  datatype Outcome = Nothing | Published(rows: seq<Row>) | Quarantined(written: seq<Row>)

  function Flat(batches: Batches): seq<Row> {
    if batches == [] then [] else batches[0] + Flat(batches[1..])
  }

  function RowsIn(file: File): seq<Row> {
    if file == [] then [] else file[0].rows + RowsIn(file[1..])
  }

  function AllRows(files: seq<File>): seq<Row> {
    if files == [] then [] else RowsIn(files[0]) + AllRows(files[1..])
  }

  predicate InOrder(rows: seq<Row>) {
    forall i, j :: 0 <= i < j < |rows| ==> rows[i].ts <= rows[j].ts
  }

  // ---------------------------------------------------------------- sort key

  function LeastTs(rows: seq<Row>): (m: int)
    requires rows != []
    ensures (exists i :: 0 <= i < |rows| && rows[i].ts == m) && forall i :: 0 <= i < |rows| ==> m <= rows[i].ts
  {
    if |rows| == 1 then rows[0].ts
    else
      var m := LeastTs(rows[1..]);
      assert forall i :: 1 <= i < |rows| ==> rows[i] == rows[1..][i - 1];
      if rows[0].ts < m then rows[0].ts else assert exists i :: 0 <= i < |rows[1..]| && rows[1..][i].ts == m; m
  }

  predicate HasMinMax(g: RowGroup) { g.stats && g.rows != [] }

  /** The first `n` row groups all have statistics. */
  predicate AllStats(file: File, n: nat)
    requires n <= |file|
  {
    forall k :: 0 <= k < n ==> HasMinMax(file[k])
  }

  /** What a file is sorted by: its least timestamp when every row group has statistics, else
      its first row's. */
  function MinTs(file: File): (m: Option<int>)
    ensures m.None? <==> RowsIn(file) == []
  {
    var rows := RowsIn(file);
    if rows == [] then None
    else if AllStats(file, |file|) then Some(LeastTs(rows))
    else Some(rows[0].ts)
  }

  /** The least of a concatenation is the lesser of the two. */
  lemma {:induction false} LeastOfBoth(a: seq<Row>, b: seq<Row>)
    requires a != [] && b != []
    ensures LeastTs(a + b) == if LeastTs(a) < LeastTs(b) then LeastTs(a) else LeastTs(b)
  {
    var m := LeastTs(a + b);
    var i :| 0 <= i < |a + b| && (a + b)[i].ts == m;
    var x :| 0 <= x < |a| && a[x].ts == LeastTs(a);
    var y :| 0 <= y < |b| && b[y].ts == LeastTs(b);
    assert (a + b)[x] == a[x] && (a + b)[|a| + y] == b[y];
    assert i < |a| ==> (a + b)[i] == a[i];
    assert i >= |a| ==> (a + b)[i] == b[i - |a|];
  }

  lemma {:induction false} RowsInConcat(a: File, b: File)
    ensures RowsIn(a + b) == RowsIn(a) + RowsIn(b)
  {
    if a == [] {
      assert a + b == b;
    } else {
      assert (a + b)[1..] == a[1..] + b;
      RowsInConcat(a[1..], b);
    }
  }

  /** The least timestamp of the rows so far. */
  ghost predicate IsLeast(rows: seq<Row>, least: Option<int>) {
    if rows == [] then least.None? else least == Some(LeastTs(rows))
  }

  lemma RowsNext(file: File, i: nat)
    requires i < |file|
    ensures RowsIn(file[..i + 1]) == RowsIn(file[..i]) + file[i].rows
  {
    assert file[..i + 1] == file[..i] + [file[i]];
    RowsInConcat(file[..i], [file[i]]);
    assert RowsIn([file[i]]) == file[i].rows;
  }

  /** One turn of the row-group loop. */
  lemma {:induction false} LeastNext(rows: seq<Row>, more: seq<Row>, least: Option<int>)
    requires IsLeast(rows, least) && more != []
    ensures var low := LeastTs(more);
            IsLeast(rows + more, if least.None? || low < least.value then Some(low) else least)
  {
    if rows == [] {
      assert rows + more == more;
    } else {
      LeastOfBoth(rows, more);
    }
  }

  /** `_extract_min_ts`. */
  method ExtractMinTs(file: File) returns (m: Option<int>)
    ensures m == MinTs(file)
    ensures m.None? <==> RowsIn(file) == []
    ensures m.Some? && (forall k :: 0 <= k < |file| ==> file[k].stats && file[k].rows != []) ==>
              && (exists i :: 0 <= i < |RowsIn(file)| && RowsIn(file)[i].ts == m.value)
              && (forall i :: 0 <= i < |RowsIn(file)| ==> m.value <= RowsIn(file)[i].ts)
    ensures m.Some? && (exists k :: 0 <= k < |file| && (!file[k].stats || file[k].rows == [])) ==>
              m.value == RowsIn(file)[0].ts
  {
    if RowsIn(file) == [] { return None; }
    var least: Option<int> := None;
    for i := 0 to |file|
      invariant AllStats(file, i) && IsLeast(RowsIn(file[..i]), least)
    {
      if !HasMinMax(file[i]) { return Some(RowsIn(file)[0].ts); }
      var low := LeastTs(file[i].rows);
      RowsNext(file, i);
      LeastNext(RowsIn(file[..i]), file[i].rows, least);
      least := if least.None? || low < least.value then Some(low) else least;
    }
    assert file[..|file|] == file;
    return least;
  }

  // ---------------------------------------------------------------- specification

  predicate NonEmpty(file: File) { RowsIn(file) != [] }
  function MinOf(file: File): int { if NonEmpty(file) then MinTs(file).value else 0 }
  predicate ByMin(f: File, g: File) { MinOf(f) <= MinOf(g) }

  /** The files that are read, and the order they are read in. */
  function Filled(listing: seq<File>): seq<File> { Filter(NonEmpty, listing) }
  function Ordered(listing: seq<File>): seq<File> { StableSort(ByMin, Filled(listing)) }

  function Cut(split: File -> Batches, file: File): Batches { split(file) }

  /** `iter_batches`: any way of cutting each file's rows into batches. */
  ghost predicate Splits(split: File -> Batches, files: seq<File>) {
    forall f :: f in files ==> Flat(Cut(split, f)) == RowsIn(f)
  }

  function BatchesOf(split: File -> Batches, files: seq<File>): Batches {
    if files == [] then [] else Cut(split, files[0]) + BatchesOf(split, files[1..])
  }

  /** What is written, and whether the check stopped the copy. */
  function Copy(written: seq<Row>, batches: Batches): (seq<Row>, bool)
    decreases |batches|
  {
    if batches == [] then (written, false)
    else if InOrder(written + batches[0]) then Copy(written + batches[0], batches[1..])
    else (written, true)
  }

  function Verdict(copied: (seq<Row>, bool)): Outcome {
    if copied.1 then Quarantined(copied.0) else Published(copied.0)
  }

  function Merged(split: File -> Batches, listing: seq<File>): Outcome {
    if Ordered(listing) == [] then Nothing else Verdict(Copy([], BatchesOf(split, Ordered(listing))))
  }

  // ---------------------------------------------------------------- code

  function LastTs(rows: seq<Row>): Option<int> {
    if rows == [] then None else Some(rows[|rows| - 1].ts)
  }

  lemma InOrderNext(rows: seq<Row>, row: Row)
    requires InOrder(rows)
    ensures InOrder(rows + [row]) <==> LastTs(rows).None? || LastTs(rows).value <= row.ts
  {
    var more := rows + [row];
    assert more[|rows|] == row && forall i :: 0 <= i < |rows| ==> more[i] == rows[i];
  }

  /** The row loop over one batch, after `written` rows. */
  method CheckBatch(ghost written: seq<Row>, batch: seq<Row>, lastTs: Option<int>)
    returns (violation: bool, last: Option<int>)
    requires InOrder(written) && lastTs == LastTs(written)
    ensures violation <==> !InOrder(written + batch)
    ensures !violation ==> last == LastTs(written + batch)
  {
    violation, last := false, lastTs;
    for i := 0 to |batch|
      invariant !violation && InOrder(written + batch[..i]) && last == LastTs(written + batch[..i])
    {
      ghost var before := written + batch[..i];
      assert written + batch[..i + 1] == before + [batch[i]];
      InOrderNext(before, batch[i]);
      if last.Some? && batch[i].ts < last.value {
        assert written + batch == before + [batch[i]] + batch[i + 1..];
        PrefixInOrder(before + [batch[i]], batch[i + 1..]);
        return true, last;
      }
      last := Some(batch[i].ts);
    }
    assert batch[..|batch|] == batch;
  }

  /** The batch loop over one file. */
  method CopyFile(batches: Batches, soFar: seq<Row>, lastTs: Option<int>)
    returns (written: seq<Row>, last: Option<int>, violation: bool)
    requires InOrder(soFar) && lastTs == LastTs(soFar)
    ensures (written, violation) == Copy(soFar, batches)
    ensures !violation ==> InOrder(written) && last == LastTs(written)
  {
    written, last, violation := soFar, lastTs, false;
    var i := 0;
    while i < |batches|
      invariant 0 <= i <= |batches| && !violation
      invariant InOrder(written) && last == LastTs(written)
      invariant Copy(soFar, batches) == Copy(written, batches[i..])
    {
      var bad, next := CheckBatch(written, batches[i], last);
      if bad {
        return written, last, true;
      }
      last := next;
      written := written + batches[i];
      i := i + 1;
    }
  }

  lemma {:induction false} CopyConcat(written: seq<Row>, a: Batches, b: Batches)
    ensures Copy(written, a + b) ==
            if Copy(written, a).1 then Copy(written, a) else Copy(Copy(written, a).0, b)
    decreases |a|
  {
    if a == [] {
      assert a + b == b;
    } else {
      assert (a + b)[1..] == a[1..] + b;
      if InOrder(written + a[0]) { CopyConcat(written + a[0], a[1..], b); }
    }
  }

  /** One turn of the file loop. */
  lemma CopyNext(split: File -> Batches, files: seq<File>, i: nat, written: seq<Row>)
    requires i < |files|
    ensures Copy(written, BatchesOf(split, files[i..])) ==
            var next := Copy(written, Cut(split, files[i]));
            if next.1 then next else Copy(next.0, BatchesOf(split, files[i + 1..]))
  {
    assert files[i..][1..] == files[i + 1..];
    CopyConcat(written, Cut(split, files[i]), BatchesOf(split, files[i + 1..]));
  }

  /** The local path of `compact_hour` and `compact_day` over the files a directory lists. */
  method CompactLocal(listing: seq<File>, split: File -> Batches) returns (out: Outcome)
    ensures out == Merged(split, listing)
  {
    var keyed: seq<File> := [];
    for i := 0 to |listing|
      invariant keyed == Filled(listing[..i])
    {
      FilterNext(NonEmpty, listing, i);
      var ts := ExtractMinTs(listing[i]);
      if ts.Some? { keyed := keyed + [listing[i]]; }
    }
    assert listing[..|listing|] == listing;
    var files := StableSort(ByMin, keyed);
    if files == [] { return Nothing; }

    var written, last, violation := [], None, false;
    for i := 0 to |files|
      invariant !violation && InOrder(written) && last == LastTs(written)
      invariant Copy([], BatchesOf(split, files)) == Copy(written, BatchesOf(split, files[i..]))
    {
      CopyNext(split, files, i, written);
      written, last, violation := CopyFile(Cut(split, files[i]), written, last);
      if violation { return Quarantined(written); }
    }
    return Published(written);
  }

  // ---------------------------------------------------------------- what is published

  lemma {:induction false} FlatConcat(a: Batches, b: Batches)
    ensures Flat(a + b) == Flat(a) + Flat(b)
  {
    if a == [] {
      assert a + b == b;
    } else {
      assert (a + b)[1..] == a[1..] + b;
      FlatConcat(a[1..], b);
    }
  }

  lemma {:induction false} BatchesHoldRows(split: File -> Batches, files: seq<File>)
    requires Splits(split, files)
    ensures Flat(BatchesOf(split, files)) == AllRows(files)
  {
    if files != [] {
      BatchesHoldRows(split, files[1..]);
      FlatConcat(Cut(split, files[0]), BatchesOf(split, files[1..]));
    }
  }

  lemma PrefixInOrder(a: seq<Row>, b: seq<Row>)
    ensures InOrder(a + b) ==> InOrder(a)
  {
    assert forall i :: 0 <= i < |a| ==> a[i] == (a + b)[i];
  }

  /** The copy goes through exactly on sorted input, and then loses and adds nothing. */
  lemma {:induction false} CopySpec(written: seq<Row>, batches: Batches)
    requires InOrder(written)
    ensures Copy(written, batches).1 <==> !InOrder(written + Flat(batches))
    ensures !Copy(written, batches).1 ==> Copy(written, batches).0 == written + Flat(batches)
    ensures InOrder(Copy(written, batches).0)
    decreases |batches|
  {
    if batches == [] {
      assert written + Flat(batches) == written;
    } else {
      var next := written + batches[0];
      assert next + Flat(batches[1..]) == written + Flat(batches);
      PrefixInOrder(next, Flat(batches[1..]));
      if InOrder(next) { CopySpec(next, batches[1..]); }
    }
  }

  ghost predicate StopsAt(written: seq<Row>, batches: Batches, result: seq<Row>, k: nat) {
    && k < |batches| && result == written + Flat(batches[..k])
    && !InOrder(written + Flat(batches[..k + 1]))
  }

  /** A stopped copy has written every batch before the first one that breaks the order. */
  lemma {:induction false} CopyStops(written: seq<Row>, batches: Batches)
    requires InOrder(written) && Copy(written, batches).1
    ensures exists k: nat :: StopsAt(written, batches, Copy(written, batches).0, k)
    decreases |batches|
  {
    var next := written + batches[0];
    if InOrder(next) {
      CopyStops(next, batches[1..]);
      var k: nat :| StopsAt(next, batches[1..], Copy(next, batches[1..]).0, k);
      FlatPrefix(written, batches, k);
      FlatPrefix(written, batches, k + 1);
      assert StopsAt(written, batches, Copy(written, batches).0, k + 1);
    } else {
      assert batches[..1] == [batches[0]] && Flat(batches[..1]) == batches[0];
      assert StopsAt(written, batches, written, 0);
    }
  }

  lemma FlatPrefix(written: seq<Row>, batches: Batches, k: nat)
    requires k < |batches|
    ensures written + batches[0] + Flat(batches[1..][..k]) == written + Flat(batches[..k + 1])
  {
    assert batches[..k + 1][1..] == batches[1..][..k];
  }

  /** Every batching publishes exactly when the files, in the order they are read, hold sorted
      rows, and publishes just those rows: every row of every file and no other.  What is
      quarantined is a sorted run of whole batches. */
  lemma MergeSpec(split: File -> Batches, listing: seq<File>)
    requires Splits(split, listing)
    ensures var rows := AllRows(Ordered(listing));
            var batches := BatchesOf(split, Ordered(listing));
            match Merged(split, listing)
            case Nothing => AllRows(listing) == []
            case Published(r) => r == rows && InOrder(rows) && r != []
            case Quarantined(w) => !InOrder(rows) && InOrder(w) && exists k: nat :: StopsAt([], batches, w, k)
    ensures multiset(AllRows(Ordered(listing))) == multiset(AllRows(listing))
  {
    var files := Ordered(listing);
    assert Splits(split, files) by {
      forall f | f in files ensures f in listing { SameElements(files, Filled(listing), f); }
    }
    BatchesHoldRows(split, files);
    var batches := BatchesOf(split, files);
    assert [] + Flat(batches) == Flat(batches);
    CopySpec([], batches);
    if files != [] && Copy([], batches).1 { CopyStops([], batches); }
    FilledRows(listing);
    AllRowsPermute(files, Filled(listing));
    if files != [] {
      SameElements(files, Filled(listing), files[0]);
      assert RowsIn(files[0]) != [];
    }
  }

  lemma {:induction false} FilledRows(listing: seq<File>)
    ensures AllRows(Filled(listing)) == AllRows(listing)
  {
    if listing != [] { FilledRows(listing[1..]); }
  }

  lemma {:induction false} AllRowsConcat(a: seq<File>, b: seq<File>)
    ensures AllRows(a + b) == AllRows(a) + AllRows(b)
  {
    if a == [] {
      assert a + b == b;
    } else {
      assert (a + b)[1..] == a[1..] + b;
      AllRowsConcat(a[1..], b);
    }
  }

  lemma AllRowsWithout(files: seq<File>, i: nat)
    requires i < |files|
    ensures multiset(AllRows(files)) == multiset(RowsIn(files[i])) + multiset(AllRows(RemoveAt(files, i)))
  {
    assert files == files[..i] + files[i..];
    AllRowsConcat(files[..i], files[i..]);
    AllRowsConcat(files[..i], files[i + 1..]);
  }

  lemma {:induction false} AllRowsPermute(a: seq<File>, b: seq<File>)
    requires multiset(a) == multiset(b)
    ensures multiset(AllRows(a)) == multiset(AllRows(b))
  {
    if a == [] {
      assert |multiset(b)| == 0;
    } else {
      SameElements(a, b, a[0]);
      var i: nat :| i < |b| && b[i] == a[0];
      AllRowsWithout(a, 0);
      AllRowsWithout(b, i);
      AllRowsPermute(RemoveAt(a, 0), RemoveAt(b, i));
    }
  }

  // ---------------------------------------------------------------- when it is published

  predicate Fits(f: File, g: File) {
    forall i, j :: 0 <= i < |RowsIn(f)| && 0 <= j < |RowsIn(g)| ==> RowsIn(f)[i].ts <= RowsIn(g)[j].ts
  }

  /** Some order of the files gives sorted rows. */
  ghost predicate Mergeable(files: seq<File>) {
    exists order :: multiset(order) == multiset(files) && InOrder(AllRows(order))
  }

  predicate Constant(f: File) {
    forall i :: 0 <= i < |RowsIn(f)| ==> RowsIn(f)[i].ts == MinOf(f)
  }

  /** Of two listed files with one minimum, the first holds that timestamp only. */
  predicate TiesSafe(files: seq<File>) {
    forall i, j :: 0 <= i < j < |files| && MinOf(files[i]) == MinOf(files[j]) ==> Constant(files[i])
  }

  lemma InOrderConcat(a: seq<Row>, b: seq<Row>)
    ensures InOrder(a + b) <==>
            InOrder(a) && InOrder(b) && forall x, y :: x in a && y in b ==> x.ts <= y.ts
  {
    var c := a + b;
    assert forall i :: 0 <= i < |a| ==> c[i] == a[i];
    assert forall j :: 0 <= j < |b| ==> c[|a| + j] == b[j];
    if InOrder(c) {
      forall x, y | x in a && y in b ensures x.ts <= y.ts {
        var i :| 0 <= i < |a| && a[i] == x;
        var j :| 0 <= j < |b| && b[j] == y;
        assert c[i].ts <= c[|a| + j].ts;
      }
    }
  }

  lemma {:induction false} RowOfFile(files: seq<File>, y: Row)
    ensures y in AllRows(files) <==> exists g :: g in files && y in RowsIn(g)
  {
    if files != [] {
      RowOfFile(files[1..], y);
      assert files == [files[0]] + files[1..];
      assert files[0] in files;
      assert forall g :: g in files <==> g == files[0] || g in files[1..];
    }
  }

  /** Rows are sorted across files when each file is sorted and each fits before the later. */
  lemma {:induction false} AllRowsInOrder(files: seq<File>)
    ensures InOrder(AllRows(files)) <==>
            SortedBy(Fits, files) && forall f :: f in files ==> InOrder(RowsIn(f))
  {
    if files != [] {
      var f, rest := files[0], files[1..];
      AllRowsInOrder(rest);
      InOrderConcat(RowsIn(f), AllRows(rest));
      assert files == [f] + rest;
      SortedCons(Fits, f, rest);
      BeforeAll(f, rest);
    }
  }

  lemma BeforeAll(f: File, rest: seq<File>)
    ensures (forall x, y :: x in RowsIn(f) && y in AllRows(rest) ==> x.ts <= y.ts)
            <==> (forall g :: g in rest ==> Fits(f, g))
  {
    forall y ensures y in AllRows(rest) <==> exists g :: g in rest && y in RowsIn(g) { RowOfFile(rest, y); }
    if forall g :: g in rest ==> Fits(f, g) {
      forall x, y | x in RowsIn(f) && y in AllRows(rest) ensures x.ts <= y.ts {
        var g :| g in rest && y in RowsIn(g);
        assert Fits(f, g);
      }
    }
    if forall x, y :: x in RowsIn(f) && y in AllRows(rest) ==> x.ts <= y.ts {
      forall g | g in rest ensures Fits(f, g) {
        forall i, j | 0 <= i < |RowsIn(f)| && 0 <= j < |RowsIn(g)| ensures RowsIn(f)[i].ts <= RowsIn(g)[j].ts {
          assert RowsIn(f)[i] in RowsIn(f) && RowsIn(g)[j] in AllRows(rest);
        }
      }
    }
  }

  lemma SortedFileMin(f: File)
    requires NonEmpty(f) && InOrder(RowsIn(f))
    ensures MinOf(f) == RowsIn(f)[0].ts
    ensures forall i :: 0 <= i < |RowsIn(f)| ==> MinOf(f) <= RowsIn(f)[i].ts
  {
  }

  /** Two sorted files that fit one way are put that way by the sort, unless a tie is unsafe. */
  lemma PairPlaced(f: File, g: File)
    requires NonEmpty(f) && NonEmpty(g) && InOrder(RowsIn(f)) && InOrder(RowsIn(g))
    ensures InSortOrder(ByMin, Fits, f, g) <==>
            (Fits(f, g) || Fits(g, f)) && (MinOf(f) == MinOf(g) ==> Constant(f))
  {
    SortedFileMin(f);
    SortedFileMin(g);
    var a, b := RowsIn(f), RowsIn(g);
    if Fits(f, g) { assert forall i :: 0 <= i < |a| ==> a[i].ts <= b[0].ts; }
    if Fits(g, f) { assert forall j :: 0 <= j < |b| ==> b[j].ts <= a[0].ts; }
  }

  lemma MergeablePairs(files: seq<File>, order: seq<File>)
    requires forall f :: f in files ==> NonEmpty(f)
    requires multiset(order) == multiset(files) && InOrder(AllRows(order))
    ensures PairsInSortOrder(ByMin, Fits, files) <==> TiesSafe(files)
    ensures forall f :: f in files ==> InOrder(RowsIn(f))
  {
    AllRowsInOrder(order);
    forall f | f in files ensures InOrder(RowsIn(f)) { SameElements(files, order, f); }
    forall i, j | 0 <= i < j < |files|
      ensures InSortOrder(ByMin, Fits, files[i], files[j]) <==>
              (MinOf(files[i]) == MinOf(files[j]) ==> Constant(files[i]))
    {
      PermutationMeets(Fits, order, files, i, j);
      PairPlaced(files[i], files[j]);
    }
  }

  lemma ByMinIsOrder()
    ensures TotalPreorder(ByMin)
  {
  }

  lemma OrderedInOrder(listing: seq<File>)
    ensures InOrder(AllRows(Ordered(listing))) <==>
            PairsInSortOrder(ByMin, Fits, Filled(listing)) && forall f :: f in Filled(listing) ==> InOrder(RowsIn(f))
  {
    ByMinIsOrder();
    SortPairs(ByMin, Fits, Filled(listing));
    AllRowsInOrder(Ordered(listing));
    forall f ensures f in Filled(listing) <==> f in Ordered(listing) {
      SameElements(Filled(listing), Ordered(listing), f);
    }
  }

  lemma OrderedExactly(listing: seq<File>)
    ensures InOrder(AllRows(Ordered(listing))) <==> Mergeable(Filled(listing)) && TiesSafe(Filled(listing))
  {
    var files := Filled(listing);
    OrderedInOrder(listing);
    if InOrder(AllRows(Ordered(listing))) {
      MergeablePairs(files, Ordered(listing));
    } else if Mergeable(files) {
      var order :| multiset(order) == multiset(files) && InOrder(AllRows(order));
      MergeablePairs(files, order);
    }
  }

  /** The merge publishes exactly when there are rows, the files can be merged at all by
      concatenation, and no tie between minimum timestamps puts a longer file first. */
  lemma PublishesExactly(split: File -> Batches, listing: seq<File>)
    requires Splits(split, listing)
    ensures Merged(split, listing).Published? <==>
            AllRows(listing) != [] && Mergeable(Filled(listing)) && TiesSafe(Filled(listing))
  {
    MergeSpec(split, listing);
    OrderedExactly(listing);
    FilledRows(listing);
  }

  predicate DistinctMins(files: seq<File>) {
    forall i, j :: 0 <= i < j < |files| ==> MinOf(files[i]) != MinOf(files[j])
  }

  /** With distinct minimum timestamps a non-empty input is quarantined only if no order of its
      files would do. */
  lemma DistinctMinsPublish(split: File -> Batches, listing: seq<File>)
    requires Splits(split, listing) && DistinctMins(Filled(listing)) && AllRows(listing) != []
    ensures Merged(split, listing).Published? <==> Mergeable(Filled(listing))
  {
    PublishesExactly(split, listing);
  }

  /** With distinct minimum timestamps the order files are listed in does not matter. */
  lemma ListingOrderIrrelevant(split: File -> Batches, a: seq<File>, b: seq<File>)
    requires multiset(a) == multiset(b) && DistinctMins(Filled(a))
    ensures Merged(split, a) == Merged(split, b)
  {
    ByMinIsOrder();
    SortSorts(ByMin, Filled(a));
    SortSorts(ByMin, Filled(b));
    FilterPermutes(NonEmpty, a, b);
    forall f, g | f in Ordered(a) && g in Ordered(a) && ByMin(f, g) && ByMin(g, f) ensures f == g {
      SameElements(Ordered(a), Filled(a), f);
      SameElements(Ordered(a), Filled(a), g);
    }
    SortedUnique(ByMin, Ordered(a), Ordered(b));
  }

  lemma TieUnsafe(long: File, short: File)
    requires NonEmpty(long) && NonEmpty(short) && MinOf(long) == MinOf(short) && !Constant(long)
    ensures !InOrder(AllRows(Ordered([long, short])))
  {
    BothFilled(long, short);
    OrderedExactly([long, short]);
    assert [long, short][0] == long && [long, short][1] == short;
  }

  lemma ShortFits(short: File, long: File)
    requires NonEmpty(long) && NonEmpty(short) && MinOf(long) == MinOf(short)
    requires InOrder(RowsIn(long)) && Constant(short)
    ensures InSortOrder(ByMin, Fits, short, long)
  {
    SortedFileMin(long);
  }

  lemma TieSafe(short: File, long: File)
    requires NonEmpty(long) && NonEmpty(short) && MinOf(long) == MinOf(short)
    requires InOrder(RowsIn(long)) && InOrder(RowsIn(short)) && Constant(short)
    ensures InOrder(AllRows(Ordered([short, long])))
  {
    ShortFits(short, long);
    BothFilled(short, long);
    assert PairsInSortOrder(ByMin, Fits, [short, long]);
    OrderedInOrder([short, long]);
  }

  lemma TwoRows(split: File -> Batches, f: File, g: File)
    requires NonEmpty(f) && NonEmpty(g) && Splits(split, [f, g])
    ensures Merged(split, [f, g]) != Nothing
    ensures Merged(split, [f, g]).Published? <==> InOrder(AllRows(Ordered([f, g])))
  {
    MergeSpec(split, [f, g]);
    assert [f, g][1..] == [g];
  }

  /** A tie can quarantine what another listing order publishes. */
  lemma TieDecides(split: File -> Batches, long: File, short: File)
    requires NonEmpty(long) && NonEmpty(short) && MinOf(long) == MinOf(short)
    requires InOrder(RowsIn(long)) && InOrder(RowsIn(short)) && Constant(short) && !Constant(long)
    requires Splits(split, [long, short])
    ensures Merged(split, [long, short]).Quarantined? && Merged(split, [short, long]).Published?
  {
    TieUnsafe(long, short);
    TieSafe(short, long);
    TwoRows(split, long, short);
    TwoRows(split, short, long);
  }

  /** Two such files, whatever the batches. */
  lemma TieQuarantines(split: File -> Batches)
    requires Splits(split, [LONG, SHORT])
    ensures Merged(split, [LONG, SHORT]).Quarantined? && Merged(split, [SHORT, LONG]).Published?
  {
    assert RowsIn(LONG) == [Row(1, "a"), Row(2, "b")] && RowsIn(SHORT) == [Row(1, "c")];
    SortedFileMin(LONG);
    SortedFileMin(SHORT);
    assert !Constant(LONG) by { assert RowsIn(LONG)[1].ts == 2; }
    TieDecides(split, LONG, SHORT);
  }

  const LONG: File := [RowGroup([Row(1, "a"), Row(2, "b")], true)]
  const SHORT: File := [RowGroup([Row(1, "c")], true)]

  lemma BothFilled(f: File, g: File)
    requires NonEmpty(f) && NonEmpty(g)
    ensures Filled([f, g]) == [f, g]
  {
    assert [f, g][1..] == [g] && Filled([g]) == [g];
  }
}
