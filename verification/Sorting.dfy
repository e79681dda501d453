/** Python's `sorted` and `list.sort`: a stable sort under a total preorder, and the
    facts about it that the scans, the dedup passes and the tier merge rely on. */
module Sorting {

  ghost predicate TotalPreorder<T(!new)>(le: (T, T) -> bool) {
    && (forall x, y :: le(x, y) || le(y, x))
    && (forall x, y, z :: le(x, y) && le(y, z) ==> le(x, z))
  }

  ghost predicate Antisymmetric<T(!new)>(le: (T, T) -> bool) {
    forall x, y :: le(x, y) && le(y, x) ==> x == y
  }

  ghost predicate SortedBy<T>(le: (T, T) -> bool, xs: seq<T>) {
    forall i, j :: 0 <= i < j < |xs| ==> le(xs[i], xs[j])
  }

  function Insert<T>(le: (T, T) -> bool, x: T, s: seq<T>): (r: seq<T>)
    ensures multiset(r) == multiset{x} + multiset(s)
  {
    if s == [] || le(x, s[0]) then
      [x] + s
    else
      assert s == [s[0]] + s[1..];
      [s[0]] + Insert(le, x, s[1..])
  }

  /** The stable sort: an element goes in front of the later elements it ties with. */
  function StableSort<T>(le: (T, T) -> bool, xs: seq<T>): (r: seq<T>)
    ensures multiset(r) == multiset(xs)
    ensures |r| == |xs|
  {
    if xs == [] then
      []
    else
      assert xs == [xs[0]] + xs[1..];
      var r := Insert(le, xs[0], StableSort(le, xs[1..]));
      assert |multiset(r)| == |multiset(xs)|;
      r
  }

  lemma {:induction false} InsertSorted<T(!new)>(le: (T, T) -> bool, x: T, s: seq<T>)
    requires TotalPreorder(le) && SortedBy(le, s)
    ensures SortedBy(le, Insert(le, x, s))
  {
    var r := Insert(le, x, s);
    if s == [] {
    } else if le(x, s[0]) {
      assert forall j :: 0 <= j < |s| ==> le(x, s[j]);
    } else {
      InsertSorted(le, x, s[1..]);
      var t := Insert(le, x, s[1..]);
      forall j | 0 <= j < |t| ensures le(s[0], t[j]) {
        assert t[j] in multiset(t);
        assert t[j] == x || t[j] in s[1..];
      }
    }
  }

  lemma {:induction false} SortSorts<T(!new)>(le: (T, T) -> bool, xs: seq<T>)
    requires TotalPreorder(le)
    ensures SortedBy(le, StableSort(le, xs))
  {
    if xs != [] {
      SortSorts(le, xs[1..]);
      InsertSorted(le, xs[0], StableSort(le, xs[1..]));
    }
  }

  lemma SameElements<T>(a: seq<T>, b: seq<T>, x: T)
    requires multiset(a) == multiset(b)
    ensures x in a <==> x in b
  {
    assert x in a <==> x in multiset(a);
    assert x in b <==> x in multiset(b);
  }

  lemma SortedPlaces<T>(le: (T, T) -> bool, xs: seq<T>, i: nat, j: nat)
    requires SortedBy(le, xs) && i < |xs| && j < |xs| && i != j && !le(xs[j], xs[i])
    ensures i < j
  {
  }

  function RemoveAt<T>(xs: seq<T>, i: nat): (r: seq<T>)
    requires i < |xs|
    ensures multiset(r) == multiset(xs) - multiset{xs[i]}
  {
    assert xs == xs[..i] + [xs[i]] + xs[i + 1..];
    xs[..i] + xs[i + 1..]
  }

  ghost predicate Distinct<T>(xs: seq<T>) {
    forall i, j :: 0 <= i < j < |xs| ==> xs[i] != xs[j]
  }

  lemma {:induction false} DistinctCounts<T>(xs: seq<T>, x: T)
    requires Distinct(xs)
    ensures multiset(xs)[x] == if x in xs then 1 else 0
  {
    if xs != [] {
      DistinctCounts(xs[1..], x);
      assert xs == [xs[0]] + xs[1..];
      assert xs[0] !in xs[1..];
    }
  }

  /** Two duplicate-free lists of the same elements are permutations of each other. */
  lemma DistinctSame<T(!new)>(xs: seq<T>, ys: seq<T>)
    requires Distinct(xs) && Distinct(ys)
    requires forall x :: x in xs <==> x in ys
    ensures multiset(xs) == multiset(ys) && |xs| == |ys|
  {
    forall x ensures multiset(xs)[x] == multiset(ys)[x] {
      DistinctCounts(xs, x);
      DistinctCounts(ys, x);
    }
    assert |multiset(xs)| == |xs| && |multiset(ys)| == |ys|;
  }

  /** A relation that holds along some order of the elements holds one way or the other between
      any two of them. */
  lemma PermutationMeets<T>(fits: (T, T) -> bool, order: seq<T>, xs: seq<T>, i: nat, j: nat)
    requires multiset(order) == multiset(xs) && SortedBy(fits, order) && i < j < |xs|
    ensures fits(xs[i], xs[j]) || fits(xs[j], xs[i])
  {
    SameElements(order, xs, xs[i]);
    var a: nat :| a < |order| && order[a] == xs[i];
    assert RemoveAt(xs, i)[j - 1] == xs[j];
    SameElements(RemoveAt(order, a), RemoveAt(xs, i), xs[j]);
    var b :| 0 <= b < |order| - 1 && RemoveAt(order, a)[b] == xs[j];
    assert order[if b < a then b else b + 1] == xs[j];
  }

  lemma SortDistinct<T>(le: (T, T) -> bool, xs: seq<T>)
    requires Distinct(xs)
    ensures Distinct(StableSort(le, xs))
  {
    var r := StableSort(le, xs);
    forall i, j | 0 <= i < j < |r| ensures r[i] != r[j] {
      if r[i] == r[j] {
        assert RemoveAt(r, i)[j - 1] == r[i];
        assert r[i] in multiset(RemoveAt(r, i));
        DistinctCounts(xs, r[i]);
        assert false;
      }
    }
  }

  /** An order that is strict on the elements leaves only one way to sort them. */
  lemma {:induction false} SortedUnique<T>(le: (T, T) -> bool, a: seq<T>, b: seq<T>)
    requires forall x, y :: x in a && y in a && le(x, y) && le(y, x) ==> x == y
    requires SortedBy(le, a) && SortedBy(le, b)
    requires multiset(a) == multiset(b)
    ensures a == b
  {
    assert |multiset(a)| == |a| && |multiset(b)| == |b|;
    if a != [] {
      SameElements(a, b, a[0]);
      SameElements(a, b, b[0]);
      assert a[0] == b[0];
      assert a == [a[0]] + a[1..] && b == [b[0]] + b[1..];
      assert multiset(a[1..]) == multiset(a) - multiset{a[0]};
      assert multiset(b[1..]) == multiset(b) - multiset{b[0]};
      SortedUnique(le, a[1..], b[1..]);
    }
  }

  /** Which of two elements a stable sort puts first: the earlier one unless it is greater. */
  predicate InSortOrder<T>(le: (T, T) -> bool, fits: (T, T) -> bool, x: T, y: T) {
    if le(x, y) then fits(x, y) else fits(y, x)
  }

  ghost predicate PairsInSortOrder<T>(le: (T, T) -> bool, fits: (T, T) -> bool, xs: seq<T>) {
    forall i, j :: 0 <= i < j < |xs| ==> InSortOrder(le, fits, xs[i], xs[j])
  }

  /** A relation holds along the sorted list exactly when it holds of every pair, taken in
      the order the stable sort gives the pair. */
  lemma {:induction false} SortPairs<T(!new)>(le: (T, T) -> bool, fits: (T, T) -> bool, xs: seq<T>)
    requires TotalPreorder(le)
    ensures SortedBy(fits, StableSort(le, xs)) <==> PairsInSortOrder(le, fits, xs)
  {
    if xs != [] {
      var x, rest := xs[0], xs[1..];
      var t := StableSort(le, rest);
      SortPairs(le, fits, rest);
      SortSorts(le, rest);
      InsertPairs(le, fits, x, t);
      assert xs == [x] + rest;
      PairsCons(le, fits, x, rest);
      forall y ensures y in t <==> y in rest { SameElements(t, rest, y); }
    }
  }

  lemma PairsCons<T>(le: (T, T) -> bool, fits: (T, T) -> bool, x: T, rest: seq<T>)
    ensures PairsInSortOrder(le, fits, [x] + rest) <==>
            PairsInSortOrder(le, fits, rest) && forall y :: y in rest ==> InSortOrder(le, fits, x, y)
  {
    var xs := [x] + rest;
    assert forall j :: 0 <= j < |rest| ==> xs[j + 1] == rest[j];
    if PairsInSortOrder(le, fits, xs) {
      forall y | y in rest ensures InSortOrder(le, fits, x, y) {
        var j :| 0 <= j < |rest| && rest[j] == y;
        assert InSortOrder(le, fits, xs[0], xs[j + 1]);
      }
      forall i, j | 0 <= i < j < |rest| ensures InSortOrder(le, fits, rest[i], rest[j]) {
        assert InSortOrder(le, fits, xs[i + 1], xs[j + 1]);
      }
    }
  }

  lemma {:induction false} InsertPairs<T(!new)>(le: (T, T) -> bool, fits: (T, T) -> bool, x: T, s: seq<T>)
    requires TotalPreorder(le) && SortedBy(le, s)
    ensures SortedBy(fits, Insert(le, x, s)) <==>
            SortedBy(fits, s) && forall y :: y in s ==> InSortOrder(le, fits, x, y)
  {
    if s == [] {
    } else if le(x, s[0]) {
      assert forall j :: 0 <= j < |s| ==> le(x, s[j]);
      SortedCons(fits, x, s);
    } else {
      var t := Insert(le, x, s[1..]);
      InsertPairs(le, fits, x, s[1..]);
      SortedCons(fits, s[0], t);
      SortedCons(fits, s[0], s[1..]);
      assert s == [s[0]] + s[1..];
      forall y ensures y in t <==> y == x || y in s[1..] {
        assert y in t <==> y in multiset(t);
        assert y in s[1..] <==> y in multiset(s[1..]);
      }
      assert x in t && s[0] in s;
      assert forall y :: y in s <==> y == s[0] || y in s[1..];
    }
  }

  lemma SortedCons<T>(fits: (T, T) -> bool, x: T, s: seq<T>)
    ensures SortedBy(fits, [x] + s) <==> SortedBy(fits, s) && forall y :: y in s ==> fits(x, y)
  {
    var r := [x] + s;
    assert forall i :: 0 <= i < |s| ==> r[i + 1] == s[i];
    if SortedBy(fits, r) {
      forall y | y in s ensures fits(x, y) {
        var i :| 0 <= i < |s| && s[i] == y;
        assert fits(r[0], r[i + 1]);
      }
      forall i, j | 0 <= i < j < |s| ensures fits(s[i], s[j]) {
        assert fits(r[i + 1], r[j + 1]);
      }
    }
  }

  function Map<T, U>(f: T -> U, xs: seq<T>): (r: seq<U>)
    ensures |r| == |xs|
    ensures forall i :: 0 <= i < |xs| ==> r[i] == f(xs[i])
  {
    if xs == [] then [] else [f(xs[0])] + Map(f, xs[1..])
  }

  lemma {:induction false} MapConcat<T, U>(f: T -> U, a: seq<T>, b: seq<T>)
    ensures Map(f, a + b) == Map(f, a) + Map(f, b)
  {
  }

  /** Sorting commutes with a projection that agrees with the order on every pair the sort
      compares: an earlier element against a later one. */
  lemma {:induction false} SortProject<T, U>(f: T -> U, le: (T, T) -> bool, le2: (U, U) -> bool, xs: seq<T>)
    requires forall i, j :: 0 <= i < j < |xs| ==> le(xs[i], xs[j]) == le2(f(xs[i]), f(xs[j]))
    ensures Map(f, StableSort(le, xs)) == StableSort(le2, Map(f, xs))
  {
    if xs != [] {
      var t := StableSort(le, xs[1..]);
      SortProject(f, le, le2, xs[1..]);
      forall k | 0 <= k < |t| ensures le(xs[0], t[k]) == le2(f(xs[0]), f(t[k])) {
        SameElements(t, xs[1..], t[k]);
      }
      InsertProject(f, le, le2, xs[0], t);
      assert Map(f, xs)[1..] == Map(f, xs[1..]);
    }
  }

  /** It also does where the two orders differ only on elements with equal projections. */
  lemma {:induction false} SortProjectTies<T, U(!new)>(f: T -> U, le: (T, T) -> bool, le2: (U, U) -> bool,
                                                       xs: seq<T>)
    requires TotalPreorder(le2)
    requires forall i, j :: 0 <= i < j < |xs| ==> AgreeOrTie(f, le, le2, xs[i], xs[j])
    ensures Map(f, StableSort(le, xs)) == StableSort(le2, Map(f, xs))
  {
    if xs != [] {
      var t := StableSort(le, xs[1..]);
      SortProjectTies(f, le, le2, xs[1..]);
      SortSorts(le2, Map(f, xs[1..]));
      forall k | 0 <= k < |t| ensures AgreeOrTie(f, le, le2, xs[0], t[k]) {
        SameElements(t, xs[1..], t[k]);
      }
      InsertProjectTies(f, le, le2, xs[0], t);
      assert Map(f, xs)[1..] == Map(f, xs[1..]);
    }
  }

  predicate AgreeOrTie<T, U(==)>(f: T -> U, le: (T, T) -> bool, le2: (U, U) -> bool, x: T, y: T) {
    le(x, y) == le2(f(x), f(y)) || (le2(f(x), f(y)) && f(x) == f(y))
  }

  lemma {:induction false} InsertProjectTies<T, U>(f: T -> U, le: (T, T) -> bool, le2: (U, U) -> bool,
                                                   x: T, s: seq<T>)
    requires SortedBy(le2, Map(f, s))
    requires forall k :: 0 <= k < |s| ==> AgreeOrTie(f, le, le2, x, s[k])
    ensures Map(f, Insert(le, x, s)) == Insert(le2, f(x), Map(f, s))
  {
    if s != [] {
      var y, rest := s[0], s[1..];
      assert Map(f, s) == [f(y)] + Map(f, rest);
      if le(x, y) {
        assert Map(f, [x] + s) == [f(x)] + Map(f, s);
      } else {
        SortedCons(le2, f(y), Map(f, rest));
        InsertProjectTies(f, le, le2, x, rest);
        MapConcat(f, [y], Insert(le, x, rest));
        if le2(f(x), f(y)) { LeastGoesFirst(le2, f(y), Map(f, rest)); }
      }
    }
  }

  /** An element no greater than any goes first. */
  lemma LeastGoesFirst<T>(le: (T, T) -> bool, x: T, s: seq<T>)
    requires forall y :: y in s ==> le(x, y)
    ensures Insert(le, x, s) == [x] + s
  {
  }

  lemma {:induction false} InsertProject<T, U>(f: T -> U, le: (T, T) -> bool, le2: (U, U) -> bool, x: T, s: seq<T>)
    requires forall k :: 0 <= k < |s| ==> le(x, s[k]) == le2(f(x), f(s[k]))
    ensures Map(f, Insert(le, x, s)) == Insert(le2, f(x), Map(f, s))
  {
    if s != [] && !le(x, s[0]) {
      InsertProject(f, le, le2, x, s[1..]);
      assert Map(f, s)[1..] == Map(f, s[1..]);
    }
  }

  /** `dict.values()` of a dictionary with its insertion order. */
  function Values<K(==), V>(order: seq<K>, live: map<K, V>): (vs: seq<V>)
    requires forall k :: k in order ==> k in live
    ensures |vs| == |order|
    ensures forall i :: 0 <= i < |vs| ==> vs[i] == live[order[i]]
  {
    seq(|order|, i requires 0 <= i < |order| => live[order[i]])
  }

  /** The values of a dictionary whose keys are its values' own. */
  lemma InValues<K(!new), V>(key: V -> K, order: seq<K>, live: map<K, V>, v: V)
    requires forall k :: k in order <==> k in live
    requires forall k :: k in live ==> key(live[k]) == k
    ensures v in Values(order, live) <==> key(v) in live && v == live[key(v)]
  {
    var vs := Values(order, live);
    if v in vs {
      var i :| 0 <= i < |vs| && vs[i] == v;
      assert order[i] in order;
    }
    if key(v) in live && v == live[key(v)] {
      var i :| 0 <= i < |order| && order[i] == key(v);
      assert vs[i] == v;
    }
  }

  /** Where a key first occurs. */
  function FirstAt<T, K(==)>(key: T -> K, xs: seq<T>, k: K): (f: nat)
    ensures f <= |xs| && (f < |xs| ==> key(xs[f]) == k)
    ensures forall j :: 0 <= j < f ==> key(xs[j]) != k
  {
    if xs == [] || key(xs[0]) == k then 0 else 1 + FirstAt(key, xs[1..], k)
  }

  /** More elements do not move the first of a key that has occurred. */
  lemma {:induction false} FirstStays<T, K>(key: T -> K, xs: seq<T>, x: T, k: K)
    ensures FirstAt(key, xs, k) < |xs| ==> FirstAt(key, xs + [x], k) == FirstAt(key, xs, k)
    ensures FirstAt(key, xs, k) == |xs| && key(x) == k ==> FirstAt(key, xs + [x], k) == |xs|
  {
    var more := xs + [x];
    assert more[|xs|] == x && forall j :: 0 <= j < |xs| ==> more[j] == xs[j];
  }

  /** Keys that have occurred, listed as they first did: the insertion order of a dictionary. */
  ghost predicate AsFirst<T, K>(key: T -> K, order: seq<K>, xs: seq<T>) {
    && (forall i :: 0 <= i < |order| ==> FirstAt(key, xs, order[i]) < |xs|)
    && (forall i, j :: 0 <= i < j < |order| ==> FirstAt(key, xs, order[i]) < FirstAt(key, xs, order[j]))
  }

  lemma {:induction false} AsFirstNext<T, K>(key: T -> K, order: seq<K>, xs: seq<T>, x: T)
    requires AsFirst(key, order, xs)
    ensures AsFirst(key, order, xs + [x])
    ensures FirstAt(key, xs, key(x)) == |xs| ==> AsFirst(key, order + [key(x)], xs + [x])
  {
    forall i | 0 <= i < |order| ensures FirstAt(key, xs + [x], order[i]) == FirstAt(key, xs, order[i]) {
      FirstStays(key, xs, x, order[i]);
    }
    FirstStays(key, xs, x, key(x));
  }

  /** Less, or tied and of a key that occurs earlier. */
  predicate BeforeByFirst<T, K(==)>(le: (T, T) -> bool, key: T -> K, xs: seq<T>, a: T, b: T) {
    !le(b, a) || (le(a, b) && FirstAt(key, xs, key(a)) < FirstAt(key, xs, key(b)))
  }

  function ByFirst<T, K(==)>(le: (T, T) -> bool, key: T -> K, xs: seq<T>): (T, T) -> bool {
    (a, b) => BeforeByFirst(le, key, xs, a, b)
  }

  /** Sorting a dictionary's values keeps ties in the order their keys first occurred. */
  lemma {:induction false} SortedByFirst<T(!new), K>(le: (T, T) -> bool, key: T -> K, xs: seq<T>, order: seq<K>,
                                                     vs: seq<T>)
    requires TotalPreorder(le) && AsFirst(key, order, xs) && |vs| == |order|
    requires forall i :: 0 <= i < |vs| ==> key(vs[i]) == order[i]
    ensures SortedBy(ByFirst(le, key, xs), StableSort(le, vs))
  {
    var before := ByFirst(le, key, xs);
    SortPairs(le, before, vs);
    forall i, j | 0 <= i < j < |vs| ensures InSortOrder(le, before, vs[i], vs[j]) {
      assert FirstAt(key, xs, order[i]) < FirstAt(key, xs, order[j]);
    }
  }

  function Filter<T>(p: T -> bool, xs: seq<T>): (r: seq<T>)
    ensures forall x | x in r :: x in xs && p(x)
    ensures forall x | x in xs && p(x) :: x in r
    ensures |r| <= |xs|
  {
    if xs == [] then []
    else if p(xs[0]) then [xs[0]] + Filter(p, xs[1..])
    else Filter(p, xs[1..])
  }

  lemma {:induction false} FilterConcat<T>(p: T -> bool, a: seq<T>, b: seq<T>)
    ensures Filter(p, a + b) == Filter(p, a) + Filter(p, b)
  {
    if a == [] {
      assert a + b == b;
    } else {
      assert (a + b)[1..] == a[1..] + b;
      FilterConcat(p, a[1..], b);
    }
  }

  lemma {:induction false} FilterAll<T>(p: T -> bool, xs: seq<T>)
    requires forall x :: x in xs ==> p(x)
    ensures Filter(p, xs) == xs
  {
    if xs != [] { FilterAll(p, xs[1..]); }
  }

  lemma {:induction false} FilterNone<T>(p: T -> bool, xs: seq<T>)
    requires forall x :: x in xs ==> !p(x)
    ensures Filter(p, xs) == []
  {
    if xs != [] { FilterNone(p, xs[1..]); }
  }

  lemma FilterSnoc<T>(p: T -> bool, xs: seq<T>, x: T)
    ensures Filter(p, xs + [x]) == if p(x) then Filter(p, xs) + [x] else Filter(p, xs)
  {
    FilterConcat(p, xs, [x]);
  }

  lemma FilterNext<T>(p: T -> bool, xs: seq<T>, i: nat)
    requires i < |xs|
    ensures Filter(p, xs[..i + 1]) == if p(xs[i]) then Filter(p, xs[..i]) + [xs[i]] else Filter(p, xs[..i])
  {
    assert xs[..i + 1] == xs[..i] + [xs[i]];
    FilterSnoc(p, xs[..i], xs[i]);
  }

  lemma {:induction false} FilterCounts<T>(p: T -> bool, xs: seq<T>, x: T)
    ensures multiset(Filter(p, xs))[x] == if p(x) then multiset(xs)[x] else 0
  {
    if xs != [] {
      FilterCounts(p, xs[1..], x);
      assert xs == [xs[0]] + xs[1..];
    }
  }

  /** Where the elements that pass stood. */
  ghost predicate PlacesOf<T>(p: T -> bool, xs: seq<T>, at: seq<nat>, passed: seq<T>) {
    && |at| == |passed| && (forall k :: 0 <= k < |at| ==> at[k] < |xs| && xs[at[k]] == passed[k])
    && (forall i, k :: 0 <= i < k < |at| ==> at[i] < at[k])
    && (forall i :: 0 <= i < |xs| && p(xs[i]) ==> i in at)
  }

  lemma PlacesNext<T>(p: T -> bool, xs: seq<T>, x: T, at: seq<nat>, passed: seq<T>)
    requires PlacesOf(p, xs, at, passed)
    ensures if p(x) then PlacesOf(p, xs + [x], at + [|xs|], passed + [x]) else PlacesOf(p, xs + [x], at, passed)
  {
    var more, next := xs + [x], at + [|xs|];
    assert forall i :: 0 <= i < |xs| ==> more[i] == xs[i];
    assert next[|at|] == |xs| && forall k :: 0 <= k < |at| ==> next[k] == at[k];
    forall i | 0 <= i < |xs| && i in at ensures i in next {
      var k :| 0 <= k < |at| && at[k] == i;
      assert next[k] == i;
    }
  }

  lemma {:induction false} FilterPlaces<T>(p: T -> bool, xs: seq<T>) returns (at: seq<nat>)
    ensures PlacesOf(p, xs, at, Filter(p, xs))
    decreases |xs|
  {
    at := [];
    if xs != [] {
      var most, x := xs[..|xs| - 1], xs[|xs| - 1];
      assert xs == most + [x];
      at := FilterPlaces(p, most);
      FilterSnoc(p, most, x);
      PlacesNext(p, most, x, at, Filter(p, most));
      at := if p(x) then at + [|most|] else at;
      assert PlacesOf(p, most + [x], at, Filter(p, most + [x]));
    }
  }

  function Both<T>(p: T -> bool, q: T -> bool): T -> bool { x => p(x) && q(x) }

  lemma {:induction false} FilterTwice<T>(p: T -> bool, q: T -> bool, xs: seq<T>)
    ensures Filter(q, Filter(p, xs)) == Filter(Both(p, q), xs)
  {
    if xs != [] {
      FilterTwice(p, q, xs[1..]);
      if p(xs[0]) { assert ([xs[0]] + Filter(p, xs[1..]))[1..] == Filter(p, xs[1..]); }
    }
  }

  /** The places of the elements that pass. */
  ghost function Passing<T>(p: T -> bool, xs: seq<T>): set<nat> { set i: nat | i < |xs| && p(xs[i]) }

  lemma PassingNext<T>(p: T -> bool, xs: seq<T>, x: T)
    ensures |Passing(p, xs + [x])| == |Passing(p, xs)| + if p(x) then 1 else 0
  {
    var more := xs + [x];
    assert more[|xs|] == x && forall i :: 0 <= i < |xs| ==> more[i] == xs[i];
    assert Passing(p, more) == if p(x) then Passing(p, xs) + {|xs|} else Passing(p, xs);
  }

  lemma {:induction false} FilterSize<T>(p: T -> bool, xs: seq<T>)
    ensures |Filter(p, xs)| == |Passing(p, xs)|
    decreases |xs|
  {
    if xs != [] {
      var most, x := xs[..|xs| - 1], xs[|xs| - 1];
      FilterSize(p, most);
      assert xs == most + [x];
      PassingNext(p, most, x);
      FilterSnoc(p, most, x);
    }
  }

  lemma {:induction false} FilterDistinct<T>(p: T -> bool, xs: seq<T>)
    requires Distinct(xs)
    ensures Distinct(Filter(p, xs))
  {
    if xs != [] {
      FilterDistinct(p, xs[1..]);
      assert xs[0] !in xs[1..];
    }
  }

  lemma {:induction false} MapPermutes<T, U>(f: T -> U, a: seq<T>, b: seq<T>)
    requires multiset(a) == multiset(b)
    ensures multiset(Map(f, a)) == multiset(Map(f, b))
  {
    if a == [] {
      assert |multiset(b)| == 0;
    } else {
      var x, rest := a[0], a[1..];
      assert a == [] + ([x] + rest) && a[0] in a;
      SameElements(a, b, x);
      var front, back := Located(b, x);
      assert [] + rest == rest && a == [x] + rest;
      assert multiset(rest) == multiset(a) - multiset{x};
      MapPermutes(f, rest, front + back);
      MapAround(f, [], x, rest);
      MapAround(f, front, x, back);
    }
  }

  lemma Located<T>(xs: seq<T>, x: T) returns (front: seq<T>, back: seq<T>)
    requires x in xs
    ensures xs == front + ([x] + back) && multiset(front + back) == multiset(xs) - multiset{x}
  {
    var i :| 0 <= i < |xs| && xs[i] == x;
    front, back := xs[..i], xs[i + 1..];
    assert xs == front + ([x] + back);
  }

  lemma MapAround<T, U>(f: T -> U, a: seq<T>, x: T, b: seq<T>)
    ensures multiset(Map(f, a + ([x] + b))) == multiset{f(x)} + multiset(Map(f, a + b))
  {
    MapConcat(f, a, [x] + b);
    MapConcat(f, [x], b);
    MapConcat(f, a, b);
    assert Map(f, [x]) == [f(x)];
  }

  lemma FilterPermutes<T(!new)>(p: T -> bool, a: seq<T>, b: seq<T>)
    requires multiset(a) == multiset(b)
    ensures multiset(Filter(p, a)) == multiset(Filter(p, b))
  {
    forall x ensures multiset(Filter(p, a))[x] == multiset(Filter(p, b))[x] {
      FilterCounts(p, a, x);
      FilterCounts(p, b, x);
    }
  }

  lemma {:induction false} FilterMap<T, U>(p: U -> bool, f: T -> U, q: T -> bool, xs: seq<T>)
    requires forall x :: x in xs ==> q(x) == p(f(x))
    ensures Filter(p, Map(f, xs)) == Map(f, Filter(q, xs))
  {
    if xs != [] {
      FilterMap(p, f, q, xs[1..]);
      assert Map(f, xs)[1..] == Map(f, xs[1..]);
      if q(xs[0]) { MapConcat(f, [xs[0]], Filter(q, xs[1..])); }
    }
  }
}

/** Python's `<` on strings: lexicographic by code point. */
module Lex {
  import opened Sorting

  predicate Le(a: string, b: string) {
    if a == [] then true
    else if b == [] then false
    else a[0] < b[0] || (a[0] == b[0] && Le(a[1..], b[1..]))
  }

  predicate Lt(a: string, b: string) { !Le(b, a) }

  lemma {:induction false} LeTotal(a: string, b: string)
    ensures Le(a, b) || Le(b, a)
  {
    if a != [] && b != [] && a[0] == b[0] { LeTotal(a[1..], b[1..]); }
  }

  lemma {:induction false} LeTransitive(a: string, b: string, c: string)
    requires Le(a, b) && Le(b, c)
    ensures Le(a, c)
  {
    if a != [] && a[0] == b[0] == c[0] { LeTransitive(a[1..], b[1..], c[1..]); }
  }

  lemma {:induction false} LeAntisymmetric(a: string, b: string)
    requires Le(a, b) && Le(b, a)
    ensures a == b
  {
    if a != [] { LeAntisymmetric(a[1..], b[1..]); }
  }

  /** A common front does not matter. */
  lemma {:induction false} LtBelow(front: string, x: string, y: string)
    ensures Lt(front + x, front + y) <==> Lt(x, y)
  {
    if front == [] {
      assert front + x == x && front + y == y;
    } else {
      LtBelow(front[1..], x, y);
      assert (front + x)[1..] == front[1..] + x && (front + y)[1..] == front[1..] + y;
    }
  }

  /** Strings are compared at the first character they differ in; a proper prefix comes first. */
  lemma FirstDifference(front: string, a: string, b: string)
    requires a != [] || b != []
    requires a != [] && b != [] ==> a[0] != b[0]
    ensures Lt(front + a, front + b) <==> b != [] && (a == [] || a[0] < b[0])
  {
    LtBelow(front, a, b);
  }

  lemma LeIsOrder()
    ensures TotalPreorder(Le) && Antisymmetric(Le)
  {
    forall a, b ensures Le(a, b) || Le(b, a) { LeTotal(a, b); }
    forall a, b, c | Le(a, b) && Le(b, c) ensures Le(a, c) { LeTransitive(a, b, c); }
    forall a, b | Le(a, b) && Le(b, a) ensures a == b { LeAntisymmetric(a, b); }
  }
}

/** A set of prices as its ascending list. */
module Ascents {
  import opened Basics

  function Least(s: set<Price>): (m: Price)
    requires |s| > 0
    ensures m in s && forall x :: x in s ==> m.scaled <= x.scaled
  {
    LeastExists(s);
    var m :| m in s && forall x :: x in s ==> m.scaled <= x.scaled;
    m
  }

  lemma {:induction false} LeastExists(s: set<Price>)
    requires |s| > 0
    ensures exists m :: m in s && forall x :: x in s ==> m.scaled <= x.scaled
  {
    var y :| y in s;
    var others := s - {y};
    if |others| == 0 {
      assert s == {y};
    } else {
      LeastExists(others);
      var m :| m in others && forall x :: x in others ==> m.scaled <= x.scaled;
      var least := if y.scaled < m.scaled then y else m;
      assert forall x :: x in s ==> x == y || x in others;
      assert least in s && forall x :: x in s ==> least.scaled <= x.scaled;
    }
  }

  function Ascending(s: set<Price>): (xs: seq<Price>)
    ensures forall x :: x in xs <==> x in s
    ensures forall i, j :: 0 <= i < j < |xs| ==> xs[i].scaled < xs[j].scaled
  {
    if |s| == 0 then []
    else
      var m := Least(s);
      var rest := Ascending(s - {m});
      assert forall i :: 0 <= i < |rest| ==> rest[i] in rest;
      [m] + rest
  }
}
