/** The byte-budget LRU cache of `reader_cache.py`. */
module ReaderCache {
  import opened Basics
  import opened Sorting

  type Data = seq<bv8>
  datatype Entry = Entry(key: string, data: Data)
  /** An ordered dictionary, oldest entry first. */
  type Entries = seq<Entry>

  predicate Has(es: Entries, key: string) { exists i :: 0 <= i < |es| && es[i].key == key }

  function Find(es: Entries, key: string): (d: Option<Data>)
    ensures d.Some? <==> Has(es, key)
    ensures d.Some? ==> Entry(key, d.value) in es
  {
    if es == [] then None
    else if es[0].key == key then Some(es[0].data)
    else
      assert Has(es[1..], key) ==> Has(es, key) by {
        if i :| 0 <= i < |es| - 1 && es[1..][i].key == key { assert es[i + 1].key == key; }
      }
      assert Has(es, key) ==> Has(es[1..], key) by {
        if i :| 0 <= i < |es| && es[i].key == key { assert es[1..][i - 1].key == key; }
      }
      Find(es[1..], key)
  }

  function Drop(es: Entries, key: string): Entries {
    if es == [] then [] else if es[0].key == key then es[1..] else [es[0]] + Drop(es[1..], key)
  }

  function Total(es: Entries): nat { if es == [] then 0 else |es[0].data| + Total(es[1..]) }

  function Evict(es: Entries, need: nat, budget: int): Entries {
    if es != [] && Total(es) + need > budget then Evict(es[1..], need, budget) else es
  }

  datatype Event = Get(key: string) | Put(key: string, data: Data) | Invalidate(key: string)

  function Next(budget: int, es: Entries, e: Event): Entries {
    match e
    case Get(k) => if Find(es, k).Some? then Drop(es, k) + [Entry(k, Find(es, k).value)] else es
    case Put(k, d) => Evict(Drop(es, k), |d|, budget) + [Entry(k, d)]
    case Invalidate(k) => Drop(es, k)
  }

  function Run(budget: int, events: seq<Event>): Entries {
    if events == [] then [] else Next(budget, Run(budget, events[..|events| - 1]), events[|events| - 1])
  }

  // ---------------------------------------------------------------- what the history says

  /** The value last put under a key, unless it was invalidated since. */
  function Held(events: seq<Event>, key: string): Option<Data> {
    if events == [] then None
    else
      var e := events[|events| - 1];
      if e.key != key || e.Get? then Held(events[..|events| - 1], key)
      else if e.Put? then Some(e.data) else None
  }

  /** When a key was last put or hit. */
  function LastUse(budget: int, events: seq<Event>, key: string): int {
    if events == [] then -1
    else
      var most, e := events[..|events| - 1], events[|events| - 1];
      if e.key == key && (e.Put? || (e.Get? && Has(Run(budget, most), key))) then |most|
      else LastUse(budget, most, key)
  }

  type Uses = string -> int
  type Holds = string -> Option<Data>

  function UsesAfter(budget: int, events: seq<Event>): Uses { k => LastUse(budget, events, k) }
  function HoldsAfter(events: seq<Event>): Holds { k => Held(events, k) }
  function Use(use: Uses, key: string, now: int): Uses { k => if k == key then now else use(k) }
  function Hold(held: Holds, key: string, d: Option<Data>): Holds { k => if k == key then d else held(k) }

  /** Entries stand in the order of their last use and hold the value last put, and every key
      that is held by history but no longer cached was used before all of them. */
  ghost predicate Ranked(es: Entries, use: Uses, held: Holds) {
    && (forall i, j :: 0 <= i < j < |es| ==> use(es[i].key) < use(es[j].key))
    && (forall i :: 0 <= i < |es| ==> held(es[i].key) == Some(es[i].data))
    && (forall k, i :: held(k).Some? && !Has(es, k) && 0 <= i < |es| ==> use(k) < use(es[i].key))
  }

  // ---------------------------------------------------------------- steps

  lemma RemoveFurther(es: Entries, i: nat)
    requires 0 < i < |es|
    ensures RemoveAt(es, i) == [es[0]] + RemoveAt(es[1..], i - 1)
  {
    var r, t := RemoveAt(es, i), [es[0]] + RemoveAt(es[1..], i - 1);
    assert |r| == |t|;
    forall j | 0 <= j < |r| ensures r[j] == t[j] { }
  }

  lemma {:induction false} DropIs(es: Entries, key: string) returns (i: nat)
    ensures Find(es, key).Some? ==> i < |es| && es[i].key == key && Drop(es, key) == RemoveAt(es, i)
    ensures Find(es, key).None? ==> Drop(es, key) == es
  {
    i := 0;
    if es != [] && es[0].key != key {
      i := DropIs(es[1..], key);
      if Find(es[1..], key).Some? {
        i := i + 1;
        RemoveFurther(es, i);
      }
    }
  }

  lemma RemovedAt(es: Entries, i: nat, k: string)
    requires i < |es|
    ensures Has(RemoveAt(es, i), k) ==> Has(es, k)
    ensures Has(es, k) && es[i].key != k ==> Has(RemoveAt(es, i), k)
  {
    var r := RemoveAt(es, i);
    if j :| 0 <= j < |r| && r[j].key == k { assert es[if j < i then j else j + 1].key == k; }
    if j :| 0 <= j < |es| && es[j].key == k && j != i { assert r[if j < i then j else j - 1].key == k; }
  }

  lemma RemoveKeeps(es: Entries, use: Uses, held: Holds, i: nat)
    requires Ranked(es, use, held) && i < |es|
    ensures Ranked(RemoveAt(es, i), use, Hold(held, es[i].key, None)) && !Has(RemoveAt(es, i), es[i].key)
  {
    var key, r := es[i].key, RemoveAt(es, i);
    var h := Hold(held, key, None);
    assert forall j :: 0 <= j < |r| ==> r[j] == es[if j < i then j else j + 1];
    forall j | 0 <= j < |r| ensures r[j].key != key {
      var at := if j < i then j else j + 1;
      assert use(es[at].key) != use(es[i].key);
    }
    forall k, j | h(k).Some? && !Has(r, k) && 0 <= j < |r| ensures use(k) < use(r[j].key) {
      RemovedAt(es, i, k);
      assert r[j] == es[if j < i then j else j + 1];
    }
  }

  lemma DropKeeps(es: Entries, use: Uses, held: Holds, key: string)
    requires Ranked(es, use, held)
    ensures Ranked(Drop(es, key), use, Hold(held, key, None)) && !Has(Drop(es, key), key)
  {
    var i := DropIs(es, key);
    if Has(es, key) { RemoveKeeps(es, use, held, i); }
  }

  lemma SuffixKeeps(es: Entries, use: Uses, held: Holds, n: nat)
    requires Ranked(es, use, held) && n <= |es|
    ensures Ranked(es[n..], use, held)
  {
    assert forall m :: n <= m < |es| ==> es[m] == es[n..][m - n];
    forall k, j | held(k).Some? && !Has(es[n..], k) && 0 <= j < |es| - n ensures use(k) < use(es[n..][j].key) {
      if Has(es, k) {
        var i :| 0 <= i < |es| && es[i].key == k;
        assert use(es[i].key) < use(es[n + j].key);
      }
    }
  }

  lemma HasAppended(es: Entries, e: Entry, k: string)
    ensures Has(es + [e], k) <==> Has(es, k) || k == e.key
  {
    var r := es + [e];
    assert r[|es|] == e;
    if i :| 0 <= i < |es| && es[i].key == k { assert r[i].key == k; }
    if i :| 0 <= i < |r| && r[i].key == k { assert i == |es| || es[i].key == k; }
  }

  lemma AppendKeeps(es: Entries, use: Uses, held: Holds, key: string, d: Data, now: int)
    requires Ranked(es, use, held) && !Has(es, key) && forall k :: use(k) < now
    ensures Ranked(es + [Entry(key, d)], Use(use, key, now), Hold(held, key, Some(d)))
  {
    var r, u, h := es + [Entry(key, d)], Use(use, key, now), Hold(held, key, Some(d));
    forall i | 0 <= i < |r|
      ensures r[i] == if i < |es| then es[i] else Entry(key, d)
      ensures u(r[i].key) == if i < |es| then use(es[i].key) else now
      ensures h(r[i].key) == Some(r[i].data)
    {
      if i < |es| { assert es[i].key != key; }
    }
    forall k, i | h(k).Some? && !Has(r, k) && 0 <= i < |r| ensures u(k) < u(r[i].key) {
      HasAppended(es, Entry(key, d), k);
      assert u(k) == use(k) && h(k) == held(k);
    }
  }

  lemma RankedAlike(es: Entries, use: Uses, held: Holds, use2: Uses, held2: Holds)
    requires Ranked(es, use, held) && forall k :: use(k) == use2(k) && held(k) == held2(k)
    ensures Ranked(es, use2, held2)
  {
  }

  /** Put evicts the shortest oldest prefix that makes room, or everything. */
  lemma {:induction false} EvictsShortest(es: Entries, need: nat, budget: int) returns (n: nat)
    ensures n <= |es| && Evict(es, need, budget) == es[n..]
    ensures n < |es| ==> Total(es[n..]) + need <= budget
    ensures forall m :: 0 <= m < n ==> Total(es[m..]) + need > budget
  {
    if es != [] && Total(es) + need > budget {
      var rest := EvictsShortest(es[1..], need, budget);
      n := rest + 1;
      assert es[1..][rest..] == es[n..];
      forall m | 0 <= m < n ensures Total(es[m..]) + need > budget {
        if m == 0 { assert es[0..] == es; } else { assert es[m..] == es[1..][m - 1..]; }
      }
    } else {
      n := 0;
      assert es[0..] == es;
    }
  }

  // ---------------------------------------------------------------- over every run

  lemma {:induction false} UsedBefore(budget: int, events: seq<Event>, key: string)
    ensures LastUse(budget, events, key) < |events|
  {
    if events != [] { UsedBefore(budget, events[..|events| - 1], key); }
  }

  lemma PutKeeps(budget: int, es: Entries, use: Uses, held: Holds, key: string, d: Data, now: int)
    requires Ranked(es, use, held) && forall k :: use(k) < now
    ensures Ranked(Next(budget, es, Put(key, d)), Use(use, key, now), Hold(held, key, Some(d)))
  {
    var rest, h := Drop(es, key), Hold(held, key, None);
    DropKeeps(es, use, held, key);
    var n := EvictsShortest(rest, |d|, budget);
    SuffixKeeps(rest, use, h, n);
    assert !Has(rest[n..], key) by { assert forall i :: 0 <= i < |rest| - n ==> rest[n..][i] == rest[n + i]; }
    AppendKeeps(rest[n..], use, h, key, d, now);
    RankedAlike(rest[n..] + [Entry(key, d)], Use(use, key, now), Hold(h, key, Some(d)),
                Use(use, key, now), Hold(held, key, Some(d)));
  }

  lemma HitKeeps(es: Entries, use: Uses, held: Holds, key: string, d: Data, now: int)
    requires Ranked(es, use, held) && (forall k :: use(k) < now) && Find(es, key) == Some(d)
    ensures Ranked(Drop(es, key) + [Entry(key, d)], Use(use, key, now), held)
  {
    var rest, h := Drop(es, key), Hold(held, key, None);
    DropKeeps(es, use, held, key);
    AppendKeeps(rest, use, h, key, d, now);
    assert held(key) == Some(d);
    RankedAlike(rest + [Entry(key, d)], Use(use, key, now), Hold(h, key, Some(d)), Use(use, key, now), held);
  }

  /** What one event does to the ranking. */
  lemma StepKeeps(budget: int, es: Entries, use: Uses, held: Holds, e: Event, now: int)
    requires Ranked(es, use, held) && forall k :: use(k) < now
    ensures Ranked(Next(budget, es, e),
                   if e.Put? || (e.Get? && Has(es, e.key)) then Use(use, e.key, now) else use,
                   if e.Get? then held else Hold(held, e.key, if e.Put? then Some(e.data) else None))
  {
    match e
    case Put(k, d) => PutKeeps(budget, es, use, held, k, d, now);
    case Get(k) => if Has(es, k) { HitKeeps(es, use, held, k, Find(es, k).value, now); }
    case Invalidate(k) => DropKeeps(es, use, held, k);
  }

  /** Over every run: a hit gives the value last put, entries are in order of use, and a key
      that was evicted and not put again was used before every key still cached. */
  lemma {:induction false} LruOverRuns(budget: int, events: seq<Event>)
    ensures Ranked(Run(budget, events), UsesAfter(budget, events), HoldsAfter(events))
  {
    if events != [] {
      var most, e := events[..|events| - 1], events[|events| - 1];
      LruOverRuns(budget, most);
      var use, held := UsesAfter(budget, most), HoldsAfter(most);
      forall k ensures use(k) < |most| { UsedBefore(budget, most, k); }
      var es := Run(budget, most);
      StepKeeps(budget, es, use, held, e, |most|);
      RankedAlike(Run(budget, events),
                  if e.Put? || (e.Get? && Has(es, e.key)) then Use(use, e.key, |most|) else use,
                  if e.Get? then held else Hold(held, e.key, if e.Put? then Some(e.data) else None),
                  UsesAfter(budget, events), HoldsAfter(events));
    }
  }

  function Other(key: string): Entry -> bool { (e: Entry) => e.key != key }
  /** The entries of the other keys, in their order. */
  function Others(es: Entries, key: string): Entries { Filter(Other(key), es) }

  lemma {:induction false} DropIsOthers(es: Entries, key: string)
    requires forall i, j :: 0 <= i < j < |es| ==> es[i].key != es[j].key
    ensures Drop(es, key) == Others(es, key)
  {
    if es != [] {
      if es[0].key == key {
        FilterAll(Other(key), es[1..]);
      } else {
        DropIsOthers(es[1..], key);
      }
    }
  }

  /** After any run, dropping a key leaves exactly the other entries. */
  lemma DropLeaves(budget: int, events: seq<Event>, key: string)
    ensures Drop(Run(budget, events), key) == Others(Run(budget, events), key)
    ensures !Has(Drop(Run(budget, events), key), key)
  {
    var es, use := Run(budget, events), UsesAfter(budget, events);
    LruOverRuns(budget, events);
    forall i, j | 0 <= i < j < |es| ensures es[i].key != es[j].key { assert use(es[i].key) < use(es[j].key); }
    DropIsOthers(es, key);
    DropKeeps(es, use, HoldsAfter(events), key);
  }

  /** What each call makes of the entries: a hit moves its entry to the end, a put keeps the others
      but for the shortest oldest part that makes room and adds its entry at the end, and an
      invalidation removes its entry; the other entries keep their order. */
  lemma CallsLeave(budget: int, events: seq<Event>, e: Event) returns (n: nat)
    ensures e.Get? ==>
              var es := Run(budget, events);
              Run(budget, events + [e]) ==
              if Has(es, e.key) then Others(es, e.key) + [Entry(e.key, Find(es, e.key).value)] else es
    ensures e.Invalidate? ==> Run(budget, events + [e]) == Others(Run(budget, events), e.key)
    ensures e.Put? ==>
              var others := Others(Run(budget, events), e.key);
              && n <= |others| && Run(budget, events + [e]) == others[n..] + [Entry(e.key, e.data)]
              && (n < |others| ==> Total(others[n..]) + |e.data| <= budget)
              && forall m :: 0 <= m < n ==> Total(others[m..]) + |e.data| > budget
  {
    assert (events + [e])[..|events|] == events;
    DropLeaves(budget, events, e.key);
    n := 0;
    if e.Put? { n := EvictsShortest(Others(Run(budget, events), e.key), |e.data|, budget); }
  }

  lemma HitIsLastPut(budget: int, events: seq<Event>, key: string)
    ensures Find(Run(budget, events), key).Some? ==> Find(Run(budget, events), key) == Held(events, key)
  {
    LruOverRuns(budget, events);
    assert HoldsAfter(events)(key) == Held(events, key);
  }

  // ---------------------------------------------------------------- budget

  lemma {:induction false} TotalConcat(a: Entries, b: Entries)
    ensures Total(a + b) == Total(a) + Total(b)
  {
    if a == [] {
      assert a + b == b;
    } else {
      assert (a + b)[1..] == a[1..] + b;
      TotalConcat(a[1..], b);
    }
  }

  lemma {:induction false} DropTotal(es: Entries, key: string)
    ensures Total(Drop(es, key)) == Total(es) - (if Find(es, key).Some? then |Find(es, key).value| else 0)
    ensures |Drop(es, key)| == |es| - (if Find(es, key).Some? then 1 else 0)
  {
    if es != [] && es[0].key != key {
      DropTotal(es[1..], key);
      assert ([es[0]] + Drop(es[1..], key))[1..] == Drop(es[1..], key);
    }
  }

  /** The budget holds unless a single entry is larger than it. */
  lemma {:induction false} WithinBudget(budget: int, events: seq<Event>)
    ensures Total(Run(budget, events)) <= budget || |Run(budget, events)| <= 1
  {
    if events != [] {
      var most, e := events[..|events| - 1], events[|events| - 1];
      WithinBudget(budget, most);
      var es := Run(budget, most);
      DropTotal(es, e.key);
      if e.Put? {
        var rest := Drop(es, e.key);
        var n := EvictsShortest(rest, |e.data|, budget);
        TotalConcat(rest[n..], [Entry(e.key, e.data)]);
      } else if e.Get? && Find(es, e.key).Some? {
        TotalConcat(Drop(es, e.key), [Entry(e.key, Find(es, e.key).value)]);
      }
    }
  }

  // ---------------------------------------------------------------- code

  class LRUReaderCache {
    const maxBytes: int
    var cache: Entries
    var currentBytes: int
    ghost var events: seq<Event>

    ghost predicate Valid()
      reads this
    {
      cache == Run(maxBytes, events) && currentBytes == Total(cache)
    }

    constructor (maxBytes: int)
      ensures Valid() && events == [] && this.maxBytes == maxBytes
    {
      this.maxBytes, cache, currentBytes, events := maxBytes, [], 0, [];
    }

    /** A hit is the value last put under the key, and moves to the end. */
    method Get(key: string) returns (data: Option<Data>)
      requires Valid()
      modifies this
      ensures Valid() && events == old(events) + [Event.Get(key)]
      ensures data.Some? <==> Has(old(cache), key)
      ensures data.Some? ==> data == Held(old(events), key)
      ensures cache == if data.Some? then Others(old(cache), key) + [Entry(key, data.value)] else old(cache)
    {
      HitIsLastPut(maxBytes, events, key);
      DropLeaves(maxBytes, events, key);
      events := events + [Event.Get(key)];
      assert events[..|events| - 1] == old(events);
      data := Find(cache, key);
      if data.Some? {
        DropTotal(cache, key);
        TotalConcat(Drop(cache, key), [Entry(key, data.value)]);
        cache := Drop(cache, key) + [Entry(key, data.value)];
      }
    }

    /** The `gone` oldest of the other entries are evicted, as few as make room. */
    method Put(key: string, data: Data) returns (ghost gone: nat)
      requires Valid()
      modifies this
      ensures Valid() && events == old(events) + [Event.Put(key, data)]
      ensures var others := Others(old(cache), key);
              && gone <= |others| && cache == others[gone..] + [Entry(key, data)]
              && (gone < |others| ==> Total(others[gone..]) + |data| <= maxBytes)
              && forall m :: 0 <= m < gone ==> Total(others[m..]) + |data| > maxBytes
    {
      gone := CallsLeave(maxBytes, events, Event.Put(key, data));
      events := events + [Event.Put(key, data)];
      assert events[..|events| - 1] == old(events);
      DropTotal(cache, key);
      if Find(cache, key).Some? {
        currentBytes := currentBytes - |Find(cache, key).value|;
      }
      cache := Drop(cache, key);
      while currentBytes + |data| > maxBytes && cache != []
        invariant currentBytes == Total(cache)
        invariant Evict(cache, |data|, maxBytes) == Evict(Drop(old(cache), key), |data|, maxBytes)
        invariant events == old(events) + [Event.Put(key, data)]
        decreases |cache|
      {
        currentBytes := currentBytes - |cache[0].data|;
        cache := cache[1..];
      }
      TotalConcat(cache, [Entry(key, data)]);
      cache := cache + [Entry(key, data)];
      currentBytes := currentBytes + |data|;
    }

    method Invalidate(key: string)
      requires Valid()
      modifies this
      ensures Valid() && events == old(events) + [Event.Invalidate(key)]
      ensures !Has(cache, key) && cache == Others(old(cache), key)
    {
      DropLeaves(maxBytes, events, key);
      DropTotal(cache, key);
      events := events + [Event.Invalidate(key)];
      assert events[..|events| - 1] == old(events);
      if Find(cache, key).Some? {
        currentBytes := currentBytes - |Find(cache, key).value|;
      }
      cache := Drop(cache, key);
    }

    method CurrentBytes() returns (n: int)
      requires Valid()
      ensures n == Total(cache) && (n <= maxBytes || |cache| <= 1)
    {
      WithinBudget(maxBytes, events);
      return currentBytes;
    }
  }
}
