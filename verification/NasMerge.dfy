/** The NAS paths of the tier merge: which objects are read while they move from the legacy
    `l1/` keys to the flat ones, and the size-gated cache they are read through. */
module NasMerge {
  import opened Basics
  import opened Sorting
  import opened Lex
  import opened Merge

  const LEGACY := "l1/"
  const SUFFIX := ".parquet"

  predicate IsParquet(key: string) { |key| >= |SUFFIX| && key[|key| - |SUFFIX|..] == SUFFIX }

  /** `_legacy_key_to_canonical`. */
  function Canonical(key: string): string { if LEGACY <= key then key[|LEGACY|..] else key }

  /** A flat partition prefix, as `build_l1_prefix` makes them. */
  predicate Partition(prefix: string) { "market/" <= prefix && |prefix| >= |SUFFIX| }

  /** The answer of `_list_objects`. */
  ghost predicate Lists(nas: map<string, File>, prefix: string, keys: seq<string>) {
    Distinct(keys) && forall k :: k in keys <==> k in nas && prefix <= k
  }

  // ---------------------------------------------------------------- cache

  /** The size of each object, and the bytes that may be kept. */
  datatype Gate = Gate(size: string -> nat, threshold: nat)
  /** The cached keys, oldest first, their total, and every GET issued. */
  datatype Shelf = Shelf(order: seq<string>, total: nat, fetched: seq<string>)

  const EMPTY := Shelf([], 0, [])

  function Bytes(g: Gate, keys: seq<string>): nat {
    if keys == [] then 0 else Bytes(g, keys[..|keys| - 1]) + g.size(keys[|keys| - 1])
  }

  function Times(keys: seq<string>, key: string): (n: nat)
    ensures n == 0 <==> key !in keys
  {
    if keys == [] then 0
    else Times(keys[..|keys| - 1], key) + if keys[|keys| - 1] == key then 1 else 0
  }

  function Get(g: Gate, s: Shelf, key: string): Shelf {
    if key in s.order then s
    else if s.total + g.size(key) <= g.threshold then
      Shelf(s.order + [key], s.total + g.size(key), s.fetched + [key])
    else s.(fetched := s.fetched + [key])
  }

  function GetAll(g: Gate, s: Shelf, keys: seq<string>): Shelf {
    if keys == [] then s else Get(g, GetAll(g, s, keys[..|keys| - 1]), keys[|keys| - 1])
  }

  /** The gate holds, a cached object was fetched once, and an object fetched without being
      cached does not fit. */
  ghost predicate Gated(g: Gate, s: Shelf) {
    && s.total == Bytes(g, s.order) && s.total <= g.threshold
    && (forall k :: k in s.order ==> Times(s.fetched, k) == 1)
    && (forall k :: k in s.fetched ==> k in s.order || s.total + g.size(k) > g.threshold)
  }

  lemma GetAllNext(g: Gate, keys: seq<string>, key: string)
    ensures GetAll(g, EMPTY, keys + [key]) == Get(g, GetAll(g, EMPTY, keys), key)
  {
    assert (keys + [key])[..|keys|] == keys;
  }

  lemma Appended(g: Gate, keys: seq<string>, key: string)
    ensures Bytes(g, keys + [key]) == Bytes(g, keys) + g.size(key)
    ensures forall k :: Times(keys + [key], k) == Times(keys, k) + if k == key then 1 else 0
  {
    assert (keys + [key])[..|keys|] == keys;
  }

  /** A miss that fits was not fetched before. */
  lemma MissIsFirst(g: Gate, s: Shelf, key: string)
    requires Gated(g, s) && key !in s.order && s.total + g.size(key) <= g.threshold
    ensures key !in s.fetched && Times(s.fetched, key) == 0
  {
  }

  lemma MissKept(g: Gate, s: Shelf, key: string)
    requires Gated(g, s) && key !in s.order && s.total + g.size(key) <= g.threshold
    ensures Gated(g, Shelf(s.order + [key], s.total + g.size(key), s.fetched + [key]))
  {
    var order, fetched := s.order + [key], s.fetched + [key];
    MissIsFirst(g, s, key);
    Appended(g, s.order, key);
    Appended(g, s.fetched, key);
    forall k | k in order ensures Times(fetched, k) == 1 {
      if k != key { assert k in s.order; }
    }
    forall k | k in fetched ensures k in order || s.total + g.size(key) + g.size(k) > g.threshold {
      if k == key { assert order[|s.order|] == key; } else { assert k in s.fetched; }
    }
  }

  lemma MissSkipped(g: Gate, s: Shelf, key: string)
    requires Gated(g, s) && key !in s.order && s.total + g.size(key) > g.threshold
    ensures Gated(g, s.(fetched := s.fetched + [key]))
  {
    var t := s.(fetched := s.fetched + [key]);
    Appended(g, s.fetched, key);
    forall k | k in t.order ensures Times(t.fetched, k) == 1 { assert k != key; }
    forall k | k in t.fetched ensures k in t.order || t.total + g.size(k) > g.threshold {
      assert k in s.fetched || k == key;
    }
  }

  lemma GetKeepsGate(g: Gate, s: Shelf, key: string)
    requires Gated(g, s)
    ensures Gated(g, Get(g, s, key))
  {
    if key in s.order {
    } else if s.total + g.size(key) <= g.threshold {
      MissKept(g, s, key);
    } else {
      MissSkipped(g, s, key);
    }
  }

  lemma {:induction false} GateKept(g: Gate, keys: seq<string>)
    ensures Gated(g, GetAll(g, EMPTY, keys))
  {
    if keys != [] {
      GateKept(g, keys[..|keys| - 1]);
      GetKeepsGate(g, GetAll(g, EMPTY, keys[..|keys| - 1]), keys[|keys| - 1]);
    }
  }

  /** When all objects fit, the first pass fetches each once and no later read fetches again. */
  lemma {:induction false} FetchedOnce(g: Gate, keys: seq<string>, later: seq<string>)
    requires Distinct(keys) && Bytes(g, keys) <= g.threshold
    requires forall k :: k in later ==> k in keys
    ensures GetAll(g, EMPTY, keys + later) == Shelf(keys, Bytes(g, keys), keys)
    decreases |keys| + |later|
  {
    if later != [] {
      var most := later[..|later| - 1];
      FetchedOnce(g, keys, most);
      assert (keys + later)[..|keys + later| - 1] == keys + most;
    } else {
      assert keys + later == keys;
      if keys != [] {
        var most := keys[..|keys| - 1];
        assert most + [] == most && most + [keys[|keys| - 1]] == keys;
        FetchedOnce(g, most, []);
      }
    }
  }

  class StreamCache {
    const nas: map<string, File>
    const gate: Gate
    var cache: map<string, File>
    var total: nat
    ghost var shelf: Shelf

    ghost predicate Valid()
      reads this
    {
      && total == shelf.total
      && (forall k :: k in shelf.order <==> k in cache)
      && (forall k :: k in cache ==> k in nas && cache[k] == nas[k])
    }

    constructor (nas: map<string, File>, gate: Gate)
      ensures Valid() && shelf == EMPTY && this.nas == nas && this.gate == gate
    {
      this.nas, this.gate := nas, gate;
      cache, total, shelf := map[], 0, EMPTY;
    }

    method GetOrFetch(key: string) returns (data: File)
      requires Valid() && key in nas
      modifies this
      ensures Valid() && data == nas[key] && shelf == Get(gate, old(shelf), key)
      ensures shelf.fetched == old(shelf.fetched) + if key in old(cache) then [] else [key]
      ensures key in cache <==> key in old(cache) || old(total) + gate.size(key) <= gate.threshold
      ensures total == old(total) + if key in cache && key !in old(cache) then gate.size(key) else 0
    {
      shelf := Get(gate, shelf, key);
      if key in cache {
        return cache[key];
      }
      data := nas[key];
      if total + gate.size(key) <= gate.threshold {
        cache := cache[key := data];
        total := total + gate.size(key);
      }
    }
  }

  // ---------------------------------------------------------------- reading through the cache

  function Content(nas: map<string, File>, key: string): File { if key in nas then nas[key] else [] }
  function ContentOf(nas: map<string, File>): string -> File { key => Content(nas, key) }

  function KeyFilled(nas: map<string, File>): string -> bool { k => NonEmpty(Content(nas, k)) }
  function FilledKeys(nas: map<string, File>, keys: seq<string>): seq<string> { Filter(KeyFilled(nas), keys) }
  function SortedKeys(nas: map<string, File>, keys: seq<string>): seq<string> { StableSort(KeyByMin(nas), keys) }
  function KeyByMin(nas: map<string, File>): (string, string) -> bool {
    (a, b) => ByMin(Content(nas, a), Content(nas, b))
  }

  /** The keys that are merged, in the order they are read. */
  function OrderedKeys(nas: map<string, File>, keys: seq<string>): seq<string> {
    SortedKeys(nas, FilledKeys(nas, keys))
  }

  function Contents(nas: map<string, File>, keys: seq<string>): seq<File> { Map(ContentOf(nas), keys) }

  lemma OrderedContents(nas: map<string, File>, keys: seq<string>)
    ensures Contents(nas, OrderedKeys(nas, keys)) == Ordered(Contents(nas, keys))
  {
    FilterMap(NonEmpty, ContentOf(nas), KeyFilled(nas), keys);
    SortProject(ContentOf(nas), KeyByMin(nas), ByMin, Filter(KeyFilled(nas), keys));
  }

  lemma FilledNext(nas: map<string, File>, keys: seq<string>, i: nat)
    requires i < |keys| && keys[i] in nas
    ensures FilledKeys(nas, keys[..i + 1]) ==
            if NonEmpty(nas[keys[i]]) then FilledKeys(nas, keys[..i]) + [keys[i]] else FilledKeys(nas, keys[..i])
  {
    FilterNext(KeyFilled(nas), keys, i);
    assert KeyFilled(nas)(keys[i]) == NonEmpty(nas[keys[i]]);
  }

  lemma OrderedAmong(nas: map<string, File>, keys: seq<string>)
    ensures forall k :: k in OrderedKeys(nas, keys) ==> k in keys
  {
    forall k | k in OrderedKeys(nas, keys) ensures k in keys {
      SameElements(OrderedKeys(nas, keys), FilledKeys(nas, keys), k);
    }
  }

  /** One turn of the sort phase. */
  lemma SortPhaseNext(nas: map<string, File>, g: Gate, keys: seq<string>, i: nat)
    requires i < |keys| && keys[i] in nas
    ensures GetAll(g, EMPTY, keys[..i + 1]) == Get(g, GetAll(g, EMPTY, keys[..i]), keys[i])
    ensures FilledKeys(nas, keys[..i + 1]) ==
            if NonEmpty(nas[keys[i]]) then FilledKeys(nas, keys[..i]) + [keys[i]] else FilledKeys(nas, keys[..i])
  {
    assert keys[..i + 1] == keys[..i] + [keys[i]];
    GetAllNext(g, keys[..i], keys[i]);
    FilledNext(nas, keys, i);
  }

  /** Sort phase: every candidate is fetched for its minimum timestamp. */
  method SortPhase(cache: StreamCache, keys: seq<string>) returns (nasKeys: seq<string>)
    requires cache.Valid() && cache.shelf == EMPTY && forall k :: k in keys ==> k in cache.nas
    modifies cache
    ensures cache.Valid() && nasKeys == OrderedKeys(cache.nas, keys)
    ensures cache.shelf == GetAll(cache.gate, EMPTY, keys)
  {
    var keyed: seq<string> := [];
    for i := 0 to |keys|
      invariant cache.Valid() && cache.shelf == GetAll(cache.gate, EMPTY, keys[..i])
      invariant keyed == FilledKeys(cache.nas, keys[..i])
    {
      SortPhaseNext(cache.nas, cache.gate, keys, i);
      var data := cache.GetOrFetch(keys[i]);
      var ts := ExtractMinTs(data);
      if ts.Some? { keyed := keyed + [keys[i]]; }
    }
    assert keys[..|keys|] == keys;
    return SortedKeys(cache.nas, keyed);
  }

  lemma ContentsAt(nas: map<string, File>, keys: seq<string>, i: nat)
    requires i < |keys| && keys[i] in nas
    ensures |Contents(nas, keys)| == |keys| && Contents(nas, keys)[i] == nas[keys[i]]
  {
  }

  /** Schema read and write phase, after the GETs `earlier`. */
  method WritePhase(cache: StreamCache, nasKeys: seq<string>, split: File -> Batches, ghost earlier: seq<string>)
    returns (out: Outcome, ghost later: seq<string>)
    requires cache.Valid() && cache.shelf == GetAll(cache.gate, EMPTY, earlier)
    requires nasKeys != [] && forall k :: k in nasKeys ==> k in cache.nas
    modifies cache
    ensures out == Verdict(Copy([], BatchesOf(split, Contents(cache.nas, nasKeys))))
    ensures cache.Valid() && cache.shelf == GetAll(cache.gate, EMPTY, earlier + later)
    ensures forall k :: k in later ==> k in nasKeys
  {
    ghost var files := Contents(cache.nas, nasKeys);
    GetAllNext(cache.gate, earlier, nasKeys[0]);
    var schema := cache.GetOrFetch(nasKeys[0]);
    later := [nasKeys[0]];

    var written, last, violation := [], None, false;
    for i := 0 to |nasKeys|
      invariant |files| == |nasKeys|
      invariant cache.Valid() && cache.shelf == GetAll(cache.gate, EMPTY, earlier + later)
      invariant forall k :: k in later ==> k in nasKeys
      invariant !violation && InOrder(written) && last == LastTs(written)
      invariant Copy([], BatchesOf(split, files)) == Copy(written, BatchesOf(split, files[i..]))
    {
      ContentsAt(cache.nas, nasKeys, i);
      CopyNext(split, files, i, written);
      GetAllNext(cache.gate, earlier + later, nasKeys[i]);
      assert earlier + later + [nasKeys[i]] == earlier + (later + [nasKeys[i]]);
      later := later + [nasKeys[i]];
      var data := cache.GetOrFetch(nasKeys[i]);
      written, last, violation := CopyFile(Cut(split, data), written, last);
      if violation { return Quarantined(written), later; }
    }
    return Published(written), later;
  }

  /** The NAS merge over a list of keys ends as the local merge of the same contents does;
      `later` are the reads after the sort phase. */
  method MergeKeys(cache: StreamCache, keys: seq<string>, split: File -> Batches)
    returns (out: Outcome, nasKeys: seq<string>, ghost later: seq<string>)
    requires cache.Valid() && cache.shelf == EMPTY && forall k :: k in keys ==> k in cache.nas
    modifies cache
    ensures out == Merged(split, Contents(cache.nas, keys))
    ensures nasKeys == OrderedKeys(cache.nas, keys)
    ensures cache.Valid() && cache.shelf == GetAll(cache.gate, EMPTY, keys + later)
    ensures forall k :: k in later ==> k in keys
  {
    nasKeys := SortPhase(cache, keys);
    OrderedContents(cache.nas, keys);
    OrderedAmong(cache.nas, keys);
    if nasKeys == [] {
      assert keys + [] == keys;
      return Nothing, nasKeys, [];
    }
    out, later := WritePhase(cache, nasKeys, split, keys);
  }

  // ---------------------------------------------------------------- which keys are read

  /** A logical object of the partition, by its canonical name, and the key it is read from. */
  predicate IsObject(nas: map<string, File>, partition: string, name: string) {
    partition <= name && IsParquet(name) && (name in nas || LEGACY + name in nas)
  }

  function RawKey(nas: map<string, File>, name: string): string {
    if name in nas then name else LEGACY + name
  }

  /** One raw key for each object, the flat one when it is there, and nothing else. */
  ghost predicate Sources(nas: map<string, File>, partition: string, keys: seq<string>) {
    && Distinct(keys)
    && forall k :: k in keys <==> IsObject(nas, partition, Canonical(k)) && k == RawKey(nas, Canonical(k))
  }

  lemma LegacyKey(partition: string, k: string)
    requires Partition(partition)
    ensures LEGACY + partition <= k ==> LEGACY <= k && partition <= Canonical(k) && LEGACY + Canonical(k) == k
    ensures partition <= k ==> Canonical(k) == k
  {
    if LEGACY + partition <= k {
      assert k[..|LEGACY|] == (LEGACY + partition)[..|LEGACY|] == LEGACY;
      assert k[|LEGACY|..][..|partition|] == k[..|LEGACY + partition|][|LEGACY|..] == partition;
    }
    if partition <= k {
      assert k[0] == partition[0] == "market/"[0];
    }
  }

  lemma LegacyParquet(name: string)
    requires |name| >= |SUFFIX|
    ensures IsParquet(LEGACY + name) <==> IsParquet(name)
  {
    assert (LEGACY + name)[|LEGACY + name| - |SUFFIX|..] == name[|name| - |SUFFIX|..];
  }

  /** Membership in the canonical map, key by key. */
  lemma SourceExactly(nas: map<string, File>, partition: string, k: string)
    requires Partition(partition)
    ensures (IsParquet(k) && k in nas && (partition <= k || (LEGACY + partition <= k && Canonical(k) !in nas)))
            <==> IsObject(nas, partition, Canonical(k)) && k == RawKey(nas, Canonical(k))
  {
    LegacyKey(partition, k);
    var name := Canonical(k);
    if partition <= name {
      LegacyParquet(name);
      if k == LEGACY + name { assert LEGACY + partition <= k; }
    }
  }

  function AbsentFrom(names: seq<string>): string -> bool { k => Canonical(k) !in names }

  function Parquets(keys: seq<string>): seq<string> { StableSort(Le, Filter(IsParquet, keys)) }

  lemma ParquetsListed(nas: map<string, File>, prefix: string, keys: seq<string>)
    requires Lists(nas, prefix, keys)
    ensures Distinct(Parquets(keys))
    ensures forall k :: k in Parquets(keys) <==> k in nas && prefix <= k && IsParquet(k)
  {
    FilterDistinct(IsParquet, keys);
    SortDistinct(Le, Filter(IsParquet, keys));
    forall k ensures k in Parquets(keys) <==> k in nas && prefix <= k && IsParquet(k) {
      SameElements(Parquets(keys), Filter(IsParquet, keys), k);
    }
  }

  /** What the canonical map holds once the flat and then the legacy keys went in. */
  function Candidates(flat: seq<string>, legacy: seq<string>): seq<string> {
    flat + Filter(AbsentFrom(flat), legacy)
  }

  /** What is known of the two lists the canonical map is built from. */
  ghost predicate Partitioned(nas: map<string, File>, partition: string, flat: seq<string>, legacy: seq<string>) {
    && Partition(partition) && Distinct(flat) && Distinct(legacy)
    && (forall k :: k in flat <==> k in nas && partition <= k && IsParquet(k))
    && (forall k :: k in legacy <==> k in nas && LEGACY + partition <= k && IsParquet(k))
  }

  lemma CandidateExactly(nas: map<string, File>, partition: string, flat: seq<string>, legacy: seq<string>, k: string)
    requires Partitioned(nas, partition, flat, legacy)
    ensures k in legacy ==> k !in flat
    ensures k in Candidates(flat, legacy) <==>
            IsObject(nas, partition, Canonical(k)) && k == RawKey(nas, Canonical(k))
  {
    SourceExactly(nas, partition, k);
    LegacyKey(partition, k);
    assert k in Candidates(flat, legacy) <==> k in flat || k in Filter(AbsentFrom(flat), legacy);
    assert AbsentFrom(flat)(k) <==> Canonical(k) !in flat;
    if LEGACY + partition <= k { LegacyParquet(Canonical(k)); }
  }

  lemma CandidatesAreSources(nas: map<string, File>, partition: string, flat: seq<string>, legacy: seq<string>)
    requires Partitioned(nas, partition, flat, legacy)
    ensures Sources(nas, partition, Candidates(flat, legacy))
  {
    FilterDistinct(AbsentFrom(flat), legacy);
    forall k
      ensures k in legacy ==> k !in flat
      ensures k in Candidates(flat, legacy) <==>
              IsObject(nas, partition, Canonical(k)) && k == RawKey(nas, Canonical(k))
    {
      CandidateExactly(nas, partition, flat, legacy, k);
    }
    DistinctConcat(flat, Filter(AbsentFrom(flat), legacy));
  }

  lemma DistinctConcat(a: seq<string>, b: seq<string>)
    requires Distinct(a) && Distinct(b) && forall k :: k in b ==> k !in a
    ensures Distinct(a + b)
  {
    forall i, j | 0 <= i < j < |a + b| ensures (a + b)[i] != (a + b)[j] {
      if i < |a| <= j { assert (a + b)[j] in b && (a + b)[i] in a; }
    }
  }

  lemma SortedSources(nas: map<string, File>, partition: string, keys: seq<string>)
    requires Sources(nas, partition, keys)
    ensures Sources(nas, partition, StableSort(Le, keys)) && SortedBy(Le, StableSort(Le, keys))
  {
    LeIsOrder();
    SortSorts(Le, keys);
    SortDistinct(Le, keys);
    forall k ensures k in StableSort(Le, keys) <==> k in keys { SameElements(StableSort(Le, keys), keys, k); }
  }

  lemma CandidatesNext(partition: string, flat: seq<string>, legacy: seq<string>, i: nat)
    requires Partition(partition) && i < |legacy| && LEGACY + partition <= legacy[i]
    ensures Candidates(flat, legacy[..i + 1]) ==
            if Canonical(legacy[i]) in flat then Candidates(flat, legacy[..i])
            else Candidates(flat, legacy[..i]) + [legacy[i]]
    ensures LEGACY + Canonical(legacy[i]) == legacy[i]
  {
    LegacyKey(partition, legacy[i]);
    FilterNext(AbsentFrom(flat), legacy, i);
    assert AbsentFrom(flat)(legacy[i]) <==> Canonical(legacy[i]) !in flat;
  }

  /** The dictionary after the legacy keys `done`. */
  ghost predicate Mapped(canonical: map<string, string>, flat: seq<string>, done: seq<string>) {
    forall c :: c in canonical <==> c in flat || LEGACY + c in done
  }

  /** One legacy key: it is new to the dictionary unless its object has a flat key. */
  lemma MappedNext(canonical: map<string, string>, flat: seq<string>, legacy: seq<string>, i: nat, c: string)
    requires i < |legacy| && Distinct(legacy) && legacy[i] == LEGACY + c && Mapped(canonical, flat, legacy[..i])
    ensures c in canonical <==> c in flat
    ensures Mapped(if c in canonical then canonical else canonical[c := legacy[i]], flat, legacy[..i + 1])
  {
    assert legacy[i] !in legacy[..i];
    assert legacy[..i + 1] == legacy[..i] + [legacy[i]];
    forall d ensures LEGACY + d == legacy[i] <==> d == c { SameRest(LEGACY, d, c); }
  }

  lemma SameRest(front: string, a: string, b: string)
    ensures front + a == front + b <==> a == b
  {
    assert (front + a)[|front|..] == a && (front + b)[|front|..] == b;
  }

  /** `canonical_map` and the two loops that fill it. */
  method FillCanonical(ghost nas: map<string, File>, ghost partition: string, flat: seq<string>, legacy: seq<string>)
    returns (values: seq<string>)
    requires Partitioned(nas, partition, flat, legacy)
    ensures values == Candidates(flat, legacy)
  {
    var canonical: map<string, string> := map[];
    values := [];
    for i := 0 to |flat|
      invariant values == flat[..i] && forall c :: c in canonical <==> c in flat[..i]
    {
      canonical := canonical[flat[i] := flat[i]];
      values := values + [flat[i]];
    }
    for i := 0 to |legacy|
      invariant values == Candidates(flat, legacy[..i]) && Mapped(canonical, flat, legacy[..i])
    {
      var c := Canonical(legacy[i]);
      assert legacy[i] in legacy;
      CandidatesNext(partition, flat, legacy, i);
      MappedNext(canonical, flat, legacy, i, c);
      if c !in canonical {
        canonical := canonical[c := legacy[i]];
        values := values + [legacy[i]];
      }
    }
    assert legacy[..|legacy|] == legacy;
  }

  /** The dedup of listed keys: exactly one raw key per object, in raw key order. */
  method SourceKeys(ghost nas: map<string, File>, ghost partition: string,
                    flatListed: seq<string>, legacyListed: seq<string>)
    returns (candidates: seq<string>)
    requires Partition(partition)
    requires Lists(nas, partition, flatListed) && Lists(nas, LEGACY + partition, legacyListed)
    ensures Sources(nas, partition, candidates) && SortedBy(Le, candidates)
  {
    var flat, legacy := Parquets(flatListed), Parquets(legacyListed);
    ParquetsListed(nas, partition, flatListed);
    ParquetsListed(nas, LEGACY + partition, legacyListed);
    var values := FillCanonical(nas, partition, flat, legacy);
    CandidatesAreSources(nas, partition, flat, legacy);
    SortedSources(nas, partition, values);
    return StableSort(Le, values);
  }

  // ---------------------------------------------------------------- objects by name

  /** Two states of the NAS hold the same objects, under whichever keys. */
  ghost predicate SameObjects(nas: map<string, File>, other: map<string, File>, partition: string) {
    forall name ::
      && (IsObject(nas, partition, name) <==> IsObject(other, partition, name))
      && (IsObject(nas, partition, name) ==> nas[RawKey(nas, name)] == other[RawKey(other, name)])
  }

  function Names(keys: seq<string>): seq<string> { Map(Canonical, keys) }

  /** What the `run_id` of an L2 file is hashed from. */
  function RunIdInput(nasKeys: seq<string>): seq<string> { StableSort(Le, Names(nasKeys)) }

  /** The names of the sources are the objects, each once. */
  lemma NamesExactly(nas: map<string, File>, partition: string, keys: seq<string>, name: string)
    requires Partition(partition) && Sources(nas, partition, keys)
    ensures Distinct(Names(keys))
    ensures name in Names(keys) <==> IsObject(nas, partition, name)
  {
    NamesDistinct(nas, partition, keys);
    if name in Names(keys) {
      var i :| 0 <= i < |keys| && Names(keys)[i] == name;
      assert keys[i] in keys;
    }
    if IsObject(nas, partition, name) { NamedOnce(nas, partition, keys, name); }
  }

  lemma NamesDistinct(nas: map<string, File>, partition: string, keys: seq<string>)
    requires Sources(nas, partition, keys)
    ensures Distinct(Names(keys))
  {
    forall i, j | 0 <= i < j < |keys| ensures Canonical(keys[i]) != Canonical(keys[j]) {
      assert keys[i] in keys && keys[j] in keys;
    }
  }

  lemma NamedOnce(nas: map<string, File>, partition: string, keys: seq<string>, name: string)
    requires Partition(partition) && Sources(nas, partition, keys) && IsObject(nas, partition, name)
    ensures name in Names(keys)
  {
    var raw := RawKey(nas, name);
    LegacyKey(partition, raw);
    assert Canonical(raw) == name;
    var i :| 0 <= i < |keys| && keys[i] == raw;
    assert Names(keys)[i] == name;
  }

  /** The content of an object, by name. */
  function ReadName(nas: map<string, File>, name: string): File { Content(nas, RawKey(nas, name)) }
  function Read(nas: map<string, File>): string -> File { name => ReadName(nas, name) }
  predicate ReadFilled(nas: map<string, File>, name: string) { NonEmpty(ReadName(nas, name)) }
  function NameFilled(nas: map<string, File>): string -> bool { name => ReadFilled(nas, name) }
  function ReadAll(nas: map<string, File>, names: seq<string>): seq<File> { Map(Read(nas), names) }
  function FilledNames(nas: map<string, File>, names: seq<string>): seq<string> { Filter(NameFilled(nas), names) }

  lemma ReadByName(nas: map<string, File>, partition: string, keys: seq<string>)
    requires Sources(nas, partition, keys)
    ensures Contents(nas, keys) == ReadAll(nas, Names(keys))
    ensures Names(FilledKeys(nas, keys)) == FilledNames(nas, Names(keys))
  {
    forall k | k in keys ensures KeyFilled(nas)(k) == NameFilled(nas)(Canonical(k)) {
      assert k == RawKey(nas, Canonical(k));
    }
    FilterMap(NameFilled(nas), Canonical, KeyFilled(nas), keys);
    forall i | 0 <= i < |keys| ensures Contents(nas, keys)[i] == ReadAll(nas, Names(keys))[i] {
      assert keys[i] in keys;
    }
  }

  ghost predicate NamesObjects(nas: map<string, File>, partition: string, names: seq<string>) {
    Distinct(names) && forall name :: name in names <==> IsObject(nas, partition, name)
  }

  lemma SourcesNameObjects(nas: map<string, File>, partition: string, keys: seq<string>)
    requires Partition(partition) && Sources(nas, partition, keys)
    ensures NamesObjects(nas, partition, Names(keys))
  {
    NamesExactly(nas, partition, keys, "");
    forall name ensures name in Names(keys) <==> IsObject(nas, partition, name) {
      NamesExactly(nas, partition, keys, name);
    }
  }

  /** The objects named read the same in both states. */
  ghost predicate Agree(nas: map<string, File>, other: map<string, File>, names: seq<string>) {
    forall i :: 0 <= i < |names| ==> ReadName(nas, names[i]) == ReadName(other, names[i])
  }

  lemma SameNames(nas: map<string, File>, other: map<string, File>, partition: string,
                  names: seq<string>, otherNames: seq<string>)
    requires SameObjects(nas, other, partition)
    requires NamesObjects(nas, partition, names) && NamesObjects(other, partition, otherNames)
    ensures multiset(names) == multiset(otherNames) && Agree(nas, other, otherNames)
  {
    DistinctSame(names, otherNames);
    forall i | 0 <= i < |otherNames| ensures ReadName(nas, otherNames[i]) == ReadName(other, otherNames[i]) {
      assert IsObject(other, partition, otherNames[i]);
    }
  }

  lemma OneSort(a: seq<string>, b: seq<string>)
    requires multiset(a) == multiset(b)
    ensures StableSort(Le, a) == StableSort(Le, b)
  {
    LeIsOrder();
    SortSorts(Le, a);
    SortSorts(Le, b);
    SortedUnique(Le, StableSort(Le, a), StableSort(Le, b));
  }

  // ---------------------------------------------------------------- what is hashed, and cutover

  /** An object of the partition that has rows, under whichever key. */
  predicate HasRows(nas: map<string, File>, partition: string, name: string) {
    && IsObject(nas, partition, name)
    && RowsIn(if name in nas then nas[name] else nas[LEGACY + name]) != []
  }

  lemma RunIdSorts(nas: map<string, File>, partition: string, keys: seq<string>)
    requires Sources(nas, partition, keys)
    ensures RunIdInput(OrderedKeys(nas, keys)) == StableSort(Le, FilledNames(nas, Names(keys)))
  {
    ReadByName(nas, partition, keys);
    MapPermutes(Canonical, OrderedKeys(nas, keys), FilledKeys(nas, keys));
    OneSort(Names(OrderedKeys(nas, keys)), FilledNames(nas, Names(keys)));
  }

  /** The `run_id` is hashed from the names of the objects with rows: all of them, each once, in
      order. */
  lemma RunIdExactly(nas: map<string, File>, partition: string, keys: seq<string>)
    requires Partition(partition) && Sources(nas, partition, keys)
    ensures var id := RunIdInput(OrderedKeys(nas, keys));
            SortedBy(Le, id) && Distinct(id) && forall name :: name in id <==> HasRows(nas, partition, name)
  {
    var names := FilledNames(nas, Names(keys));
    RunIdSorts(nas, partition, keys);
    SourcesNameObjects(nas, partition, keys);
    FilterDistinct(NameFilled(nas), Names(keys));
    SortDistinct(Le, names);
    LeIsOrder();
    SortSorts(Le, names);
    forall name ensures name in StableSort(Le, names) <==> HasRows(nas, partition, name) {
      SameElements(StableSort(Le, names), names, name);
      assert NameFilled(nas)(name) == ReadFilled(nas, name);
    }
  }

  /** Two hours get the same input exactly when their objects with rows have the same names. */
  lemma RunIdTellsSources(nas: map<string, File>, other: map<string, File>, partition: string, otherPartition: string,
                          keys: seq<string>, otherKeys: seq<string>)
    requires Partition(partition) && Sources(nas, partition, keys)
    requires Partition(otherPartition) && Sources(other, otherPartition, otherKeys)
    ensures RunIdInput(OrderedKeys(nas, keys)) == RunIdInput(OrderedKeys(other, otherKeys)) <==>
            forall name :: HasRows(nas, partition, name) <==> HasRows(other, otherPartition, name)
  {
    var id, otherId := RunIdInput(OrderedKeys(nas, keys)), RunIdInput(OrderedKeys(other, otherKeys));
    RunIdExactly(nas, partition, keys);
    RunIdExactly(other, otherPartition, otherKeys);
    if forall name :: HasRows(nas, partition, name) <==> HasRows(other, otherPartition, name) {
      DistinctSame(id, otherId);
      LeIsOrder();
      SortedUnique(Le, id, otherId);
    }
  }

  lemma SameContents(nas: map<string, File>, other: map<string, File>, names: seq<string>, otherNames: seq<string>)
    requires multiset(names) == multiset(otherNames) && Agree(nas, other, otherNames)
    ensures multiset(ReadAll(nas, names)) == multiset(ReadAll(other, otherNames))
  {
    MapPermutes(Read(nas), names, otherNames);
    assert Map(Read(nas), otherNames) == Map(Read(other), otherNames);
  }

  /** Cutover stability: however the objects are spread over flat and legacy keys, the same
      list is hashed for the `run_id` of the L2 file, and with distinct minimum timestamps the
      merge ends the same. */
  lemma CutoverStable(nas: map<string, File>, other: map<string, File>, partition: string,
                      keys: seq<string>, otherKeys: seq<string>, split: File -> Batches)
    requires Partition(partition) && SameObjects(nas, other, partition)
    requires Sources(nas, partition, keys) && Sources(other, partition, otherKeys)
    ensures RunIdInput(OrderedKeys(nas, keys)) == RunIdInput(OrderedKeys(other, otherKeys))
    ensures DistinctMins(Filled(Contents(nas, keys))) ==>
            Merged(split, Contents(nas, keys)) == Merged(split, Contents(other, otherKeys))
  {
    RunIdTellsSources(nas, other, partition, partition, keys, otherKeys);
    SourcesNameObjects(nas, partition, keys);
    SourcesNameObjects(other, partition, otherKeys);
    SameNames(nas, other, partition, Names(keys), Names(otherKeys));
    ReadByName(nas, partition, keys);
    ReadByName(other, partition, otherKeys);
    SameContents(nas, other, Names(keys), Names(otherKeys));
    if DistinctMins(Filled(Contents(nas, keys))) {
      ListingOrderIrrelevant(split, Contents(nas, keys), Contents(other, otherKeys));
    }
  }

  /** The place of a key in a list. */
  function Place(keys: seq<string>, key: string): (i: nat)
    ensures i <= |keys| && (i < |keys| ==> keys[i] == key) && forall j :: 0 <= j < i ==> keys[j] != key
  {
    if keys == [] || keys[0] == key then 0 else 1 + Place(keys[1..], key)
  }

  /** Lesser minimum timestamp first, and on a tie the one listed first. */
  predicate ReadBefore(nas: map<string, File>, keys: seq<string>, a: string, b: string) {
    var x, y := MinOf(Content(nas, a)), MinOf(Content(nas, b));
    x < y || (x == y && Place(keys, a) < Place(keys, b))
  }

  function ReadsBefore(nas: map<string, File>, keys: seq<string>): (string, string) -> bool {
    (a, b) => ReadBefore(nas, keys, a, b)
  }

  lemma KeyByMinIsOrder(nas: map<string, File>)
    ensures TotalPreorder(KeyByMin(nas))
  {
  }

  lemma PlaceOf(keys: seq<string>, i: nat)
    requires Distinct(keys) && i < |keys|
    ensures Place(keys, keys[i]) == i
  {
  }

  lemma ReadInOrder(nas: map<string, File>, filled: seq<string>)
    requires Distinct(filled)
    ensures var order := SortedKeys(nas, filled);
            forall i, j :: 0 <= i < j < |order| ==> ReadBefore(nas, filled, order[i], order[j])
  {
    var order, before := SortedKeys(nas, filled), ReadsBefore(nas, filled);
    KeyByMinIsOrder(nas);
    SortPairs(KeyByMin(nas), before, filled);
    forall i, j | 0 <= i < j < |filled| ensures InSortOrder(KeyByMin(nas), before, filled[i], filled[j]) {
      PlaceOf(filled, i);
      PlaceOf(filled, j);
    }
    assert SortedBy(before, order);
    forall i, j | 0 <= i < j < |order| ensures ReadBefore(nas, filled, order[i], order[j]) {
      assert before(order[i], order[j]);
    }
  }

  /** The reading order: every listed key with rows once, by minimum timestamp and then as listed. */
  lemma ReadingOrder(nas: map<string, File>, keys: seq<string>)
    requires Distinct(keys)
    ensures var order, filled := OrderedKeys(nas, keys), FilledKeys(nas, keys);
            && Distinct(order) && (forall k :: k in order <==> k in keys && RowsIn(Content(nas, k)) != [])
            && forall i, j :: 0 <= i < j < |order| ==> ReadBefore(nas, filled, order[i], order[j])
  {
    var order, filled := OrderedKeys(nas, keys), FilledKeys(nas, keys);
    FilterDistinct(KeyFilled(nas), keys);
    SortDistinct(KeyByMin(nas), filled);
    forall k ensures k in order <==> k in keys && RowsIn(Content(nas, k)) != [] {
      SameElements(order, filled, k);
      assert KeyFilled(nas)(k) == NonEmpty(Content(nas, k));
    }
    ReadInOrder(nas, filled);
  }

  // ---------------------------------------------------------------- the two NAS compactions

  const THRESHOLD: nat := 128 * 1024 * 1024

  /** `_compact_hour_nas`, with what its `run_id` is hashed from: a failed listing reads nothing. */
  method CompactHourNas(nas: map<string, File>, size: string -> nat, ghost partition: string,
                        listed: Option<(seq<string>, seq<string>)>, split: File -> Batches)
    returns (out: Outcome, runId: seq<string>, ghost keys: seq<string>, ghost shelf: Shelf)
    requires Partition(partition)
    requires listed.Some? ==> Lists(nas, partition, listed.value.0) && Lists(nas, LEGACY + partition, listed.value.1)
    ensures listed.None? ==> out == Nothing
    ensures listed.Some? ==> Sources(nas, partition, keys) && SortedBy(Le, keys)
    ensures listed.Some? ==> out == Merged(split, Contents(nas, keys))
    ensures listed.Some? ==> runId == RunIdInput(OrderedKeys(nas, keys))
    ensures listed.Some? ==> SortedBy(Le, runId) && Distinct(runId) && forall name :: name in runId <==>
              && IsObject(nas, partition, name)
              && RowsIn(if name in nas then nas[name] else nas[LEGACY + name]) != []
    ensures Gated(Gate(size, THRESHOLD), shelf)
    ensures listed.Some? && Bytes(Gate(size, THRESHOLD), keys) <= THRESHOLD ==> shelf.fetched == keys
  {
    var gate := Gate(size, THRESHOLD);
    keys, shelf := [], EMPTY;
    if listed.None? { return Nothing, [], keys, shelf; }
    var candidates := SourceKeys(nas, partition, listed.value.0, listed.value.1);
    forall k | k in candidates ensures k in nas { assert IsObject(nas, partition, Canonical(k)); }
    var cache := new StreamCache(nas, gate);
    var result, nasKeys, later := MergeKeys(cache, candidates, split);
    RunIdExactly(nas, partition, candidates);
    GateKept(gate, candidates + later);
    if Bytes(gate, candidates) <= THRESHOLD { FetchedOnce(gate, candidates, later); }
    return result, RunIdInput(nasKeys), candidates, cache.shelf;
  }

  /** `_compact_day_nas`: the listed keys as they come, hashed in the order they are read. */
  method CompactDayNas(nas: map<string, File>, size: string -> nat, ghost prefix: string,
                       listed: Option<seq<string>>, split: File -> Batches)
    returns (out: Outcome, runId: seq<string>, ghost shelf: Shelf)
    requires listed.Some? ==> Lists(nas, prefix, listed.value)
    ensures listed.None? ==> out == Nothing
    ensures listed.Some? ==> var keys := Filter(IsParquet, listed.value);
              && out == Merged(split, Contents(nas, keys))
              && Distinct(runId) && (forall k :: k in runId <==> k in keys && RowsIn(Content(nas, k)) != [])
              && forall i, j :: 0 <= i < j < |runId| ==> ReadBefore(nas, FilledKeys(nas, keys), runId[i], runId[j])
    ensures Gated(Gate(size, THRESHOLD), shelf)
    ensures listed.Some? && Bytes(Gate(size, THRESHOLD), Filter(IsParquet, listed.value)) <= THRESHOLD
            ==> shelf.fetched == Filter(IsParquet, listed.value)
  {
    var gate := Gate(size, THRESHOLD);
    if listed.None? { return Nothing, [], EMPTY; }
    var keys := Filter(IsParquet, listed.value);
    FilterDistinct(IsParquet, listed.value);
    var cache := new StreamCache(nas, gate);
    var result, nasKeys, later := MergeKeys(cache, keys, split);
    ReadingOrder(nas, keys);
    GateKept(gate, keys + later);
    if Bytes(gate, keys) <= THRESHOLD { FetchedOnce(gate, keys, later); }
    return result, nasKeys, cache.shelf;
  }
}
