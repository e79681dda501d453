/** `_BackpressureLimiter`: at most `cap` quarantine artifacts at once, the rest batched until
    the next window or the final flush. */
module Limiter {
  import opened Basics

  /** One second, in microseconds of the monotonic clock. */
  const WINDOW := 1_000_000

  /** `inWindow` counts the artifacts `admit` handed out since the window opened, `flushed`
      says whether it opened by flushing a batch: both are history, not fields of the source. */
  datatype State<R> = State(cap: nat, windowStart: int, windowCount: nat, batch: seq<R>, artifacts: nat,
                            inWindow: nat, flushed: bool)

  function Fresh<R>(cap: nat, now: int): State<R> { State(cap, now, 0, [], 0, 0, false) }

  /** One call of `admit` at time `now`: the next state and what is emitted (nothing if batched). */
  function Admit<R>(l: State<R>, record: R, now: int): (State<R>, seq<R>) {
    var rolled := now - l.windowStart >= WINDOW;
    var w := if rolled then l.(windowStart := now, windowCount := 0, inWindow := 0, flushed := false) else l;
    if rolled && w.batch != [] then
      (w.(batch := [record], artifacts := w.artifacts + 1, inWindow := 1, flushed := true), w.batch)
    else if w.windowCount + 1 <= w.cap then
      (w.(windowCount := w.windowCount + 1, artifacts := w.artifacts + 1, inWindow := w.inWindow + 1), [record])
    else
      (w.(windowCount := w.windowCount + 1, batch := w.batch + [record]), [])
  }

  /** A whole trace of calls: the final state and everything emitted, in order. */
  function AdmitAll<R>(l: State<R>, calls: seq<(R, int)>): (State<R>, seq<R>) {
    if calls == [] then (l, [])
    else
      var (m, out) := AdmitAll(l, calls[..|calls| - 1]);
      var last := calls[|calls| - 1];
      var (n, more) := Admit(m, last.0, last.1);
      (n, out + more)
  }

  function Records<R>(calls: seq<(R, int)>): (records: seq<R>)
    ensures |records| == |calls|
  {
    seq(|calls|, i requires 0 <= i < |calls| => calls[i].0)
  }

  /** Nothing is lost and nothing doubled, under every clock: what was emitted and what is still
      batched are together exactly what was admitted. */
  lemma {:induction false} AdmitAllConserves<R>(l: State<R>, calls: seq<(R, int)>)
    ensures var (m, out) := AdmitAll(l, calls);
            multiset(out) + multiset(m.batch) == multiset(l.batch) + multiset(Records(calls))
  {
    if calls != [] {
      var rest := calls[..|calls| - 1];
      var last := calls[|calls| - 1];
      AdmitAllConserves(l, rest);
      assert Records(calls) == Records(rest) + [last.0];
      var (m, out) := AdmitAll(l, rest);
      AdmitConserves(m, last.0, last.1);
      var (n, more) := Admit(m, last.0, last.1);
      calc {
        multiset(out + more) + multiset(n.batch);
        multiset(out) + (multiset(more) + multiset(n.batch));
        multiset(out) + multiset(m.batch) + multiset{last.0};
        multiset(l.batch) + (multiset(Records(rest)) + multiset{last.0});
        multiset(l.batch) + multiset(Records(calls));
      }
    }
  }

  lemma AdmitConserves<R>(l: State<R>, record: R, now: int)
    ensures var (m, out) := Admit(l, record, now);
            multiset(out) + multiset(m.batch) == multiset(l.batch) + multiset{record}
  {
    var (m, out) := Admit(l, record, now);
    assert m.batch == l.batch + [record] || m.batch == [record] || m.batch == l.batch;
  }

  // ---------------------------------------------------------------- the cap, by the calls alone

  /** When the window that the last call falls in was opened, and how many calls fell in it. */
  function Opened<R>(start: int, calls: seq<(R, int)>): int {
    if calls == [] then start
    else
      var before, now := Opened(start, calls[..|calls| - 1]), calls[|calls| - 1].1;
      if now - before >= WINDOW then now else before
  }

  function CallsInWindow<R>(start: int, calls: seq<(R, int)>): nat {
    if calls == [] then 0
    else
      var rest, now := calls[..|calls| - 1], calls[|calls| - 1].1;
      if now - Opened(start, rest) >= WINDOW then 1 else CallsInWindow(start, rest) + 1
  }

  predicate Opens<R>(start: int, calls: seq<(R, int)>, i: nat)
    requires i < |calls|
  {
    calls[i].1 - Opened(start, calls[..i]) >= WINDOW
  }

  predicate OverAt<R>(start: int, cap: nat, calls: seq<(R, int)>, j: nat)
    requires j <= |calls|
  {
    CallsInWindow(start, calls[..j]) > cap
  }

  /** Some window so far had more than `cap` calls. */
  ghost predicate Overflowed<R>(start: int, cap: nat, calls: seq<(R, int)>) {
    exists j :: 0 <= j <= |calls| && OverAt(start, cap, calls, j)
  }

  /** Some window before the one of the last call did. */
  ghost predicate OverflowedEarlier<R>(start: int, cap: nat, calls: seq<(R, int)>) {
    exists i, j :: 0 <= j <= i < |calls| && Opens(start, calls, i) && OverAt(start, cap, calls, j)
  }

  lemma OverflowNext<R>(start: int, cap: nat, calls: seq<(R, int)>)
    requires calls != []
    ensures var rest := calls[..|calls| - 1];
            && (Overflowed(start, cap, calls) <==> (Overflowed(start, cap, rest) || CallsInWindow(start, calls) > cap))
            && (OverflowedEarlier(start, cap, calls) <==>
                if Opens(start, calls, |calls| - 1) then Overflowed(start, cap, rest)
                else OverflowedEarlier(start, cap, rest))
  {
    var n := |calls| - 1;
    var rest := calls[..n];
    assert forall j :: 0 <= j <= n ==> calls[..j] == rest[..j];
    assert forall j :: 0 <= j <= n ==> OverAt(start, cap, calls, j) == OverAt(start, cap, rest, j);
    assert forall i :: 0 <= i < n ==> Opens(start, calls, i) == Opens(start, rest, i);
    assert calls[..n + 1] == calls;
    assert OverAt(start, cap, calls, n + 1) == (CallsInWindow(start, calls) > cap);
    if Overflowed(start, cap, rest) {
      var j :| 0 <= j <= |rest| && OverAt(start, cap, rest, j);
      assert OverAt(start, cap, calls, j);
    }
    if OverflowedEarlier(start, cap, rest) {
      var i, j :| 0 <= j <= i < |rest| && Opens(start, rest, i) && OverAt(start, cap, rest, j);
      assert Opens(start, calls, i) && OverAt(start, cap, calls, j) && OverAt(start, cap, rest, j);
    }
  }

  /** What the limiter holds after a trace, by its calls: a batch is pending once a window had
      more than `cap` calls, and from then on every window opens on a pending batch. */
  ghost predicate Reflects<R>(l: State<R>, start: int, cap: nat, calls: seq<(R, int)>) {
    && l.cap == cap && l.windowStart == Opened(start, calls)
    && (l.batch != [] <==> Overflowed(start, cap, calls))
    && (l.flushed <==> OverflowedEarlier(start, cap, calls))
    && l.windowCount + (if l.flushed then 1 else 0) == CallsInWindow(start, calls)
    && l.inWindow == (if l.windowCount <= cap then l.windowCount else cap) + (if l.flushed then 1 else 0)
  }

  lemma {:induction false} TraceReflected<R>(cap: nat, start: int, calls: seq<(R, int)>)
    ensures Reflects(AdmitAll(Fresh<R>(cap, start), calls).0, start, cap, calls)
  {
    if calls == [] {
      assert !Overflowed(start, cap, calls) by { assert calls[..0] == []; }
    } else {
      var rest := calls[..|calls| - 1];
      TraceReflected(cap, start, rest);
      OverflowNext(start, cap, calls);
    }
  }

  /** The records admitted since the window of the last call opened. */
  function Current<R>(start: int, calls: seq<(R, int)>): (records: seq<R>)
    ensures |records| == CallsInWindow(start, calls)
  {
    if calls == [] then []
    else
      var rest, last := calls[..|calls| - 1], calls[|calls| - 1];
      if last.1 - Opened(start, rest) >= WINDOW then [last.0] else Current(start, rest) + [last.0]
  }

  function From<R>(records: seq<R>, n: nat): seq<R> { if n < |records| then records[n..] else [] }

  /** Which records wait: those of the current window past the cap, and its first one if an earlier
      window overflowed, since the window then opened by handing out the batch before it. */
  function Waiting<R>(cap: nat, records: seq<R>, earlier: bool): seq<R> {
    if earlier && records != [] then [records[0]] + From(records, cap + 1) else From(records, cap)
  }

  lemma WaitingNext<R>(cap: nat, records: seq<R>, earlier: bool, r: R)
    requires earlier ==> records != []
    ensures Waiting(cap, records + [r], earlier) ==
            if |records| < cap + (if earlier then 1 else 0) then Waiting(cap, records, earlier)
            else Waiting(cap, records, earlier) + [r]
  {
    var more, n := records + [r], cap + (if earlier then 1 else 0);
    if n <= |records| { assert more[n..] == records[n..] + [r]; }
  }

  lemma EarlierMeansCurrent<R>(start: int, cap: nat, calls: seq<(R, int)>)
    requires OverflowedEarlier(start, cap, calls)
    ensures Current(start, calls) != []
  {
  }

  /** What is batched and what the last call handed out, after any trace: a window that opens on a
      pending batch hands out all of it and batches the call's own record; any other call hands
      out its record while the window is within the cap. */
  lemma {:induction false} HandsOutExactly<R>(cap: nat, start: int, calls: seq<(R, int)>)
    ensures AdmitAll(Fresh<R>(cap, start), calls).0.batch
            == Waiting(cap, Current(start, calls), OverflowedEarlier(start, cap, calls))
    ensures calls != [] ==>
              var rest, record := calls[..|calls| - 1], calls[|calls| - 1].0;
              var before, n := AdmitAll(Fresh<R>(cap, start), rest), CallsInWindow(start, calls);
              AdmitAll(Fresh<R>(cap, start), calls).1 == before.1 + (
                if Opens(start, calls, |calls| - 1) && Overflowed(start, cap, rest) then before.0.batch
                else if n <= cap + (if OverflowedEarlier(start, cap, calls) then 1 else 0) then [record] else [])
  {
    if calls != [] {
      var rest, last := calls[..|calls| - 1], calls[|calls| - 1];
      HandsOutExactly(cap, start, rest);
      TraceReflected(cap, start, rest);
      OverflowNext(start, cap, calls);
      if !Opens(start, calls, |calls| - 1) {
        if OverflowedEarlier(start, cap, rest) { EarlierMeansCurrent(start, cap, rest); }
        WaitingNext(cap, Current(start, rest), OverflowedEarlier(start, cap, rest), last.0);
      }
    }
  }

  /** No window hands out more than `cap + 1` artifacts, and one hands out more than `cap`
      exactly when it and an earlier window both had more than `cap` calls. */
  lemma ExceedsExactly<R>(cap: nat, start: int, calls: seq<(R, int)>)
    ensures var m := AdmitAll(Fresh<R>(cap, start), calls).0;
            && m.inWindow <= cap + 1
            && (m.inWindow > cap <==>
                CallsInWindow(start, calls) > cap && OverflowedEarlier(start, cap, calls))
  {
    TraceReflected(cap, start, calls);
  }

  /** `k` calls at one instant, well within the cap, are all emitted at once. */
  lemma {:induction false} Burst<R>(l: State<R>, r: R, now: int, k: nat)
    requires now - l.windowStart < WINDOW && l.windowCount + k <= l.cap
    ensures AdmitAll(l, seq(k, _ => (r, now))).0 ==
            l.(windowCount := l.windowCount + k, artifacts := l.artifacts + k, inWindow := l.inWindow + k)
  {
    if k > 0 {
      Burst(l, r, now, k - 1);
      var calls := seq(k, _ => (r, now));
      assert calls[..k - 1] == seq(k - 1, _ => (r, now));
    }
  }

  lemma {:induction false} AdmitAllConcat<R>(l: State<R>, a: seq<(R, int)>, b: seq<(R, int)>)
    ensures AdmitAll(l, a + b).0 == AdmitAll(AdmitAll(l, a).0, b).0
  {
    if b == [] {
      assert a + b == a;
    } else {
      AdmitAllConcat(l, a, b[..|b| - 1]);
      assert (a + b)[..|a + b| - 1] == a + b[..|b| - 1];
    }
  }

  /** The bound is tight: for every cap a trace drives one window to `cap + 1` artifacts. */
  lemma CapPlusOne<R>(cap: nat, r: R) returns (calls: seq<(R, int)>)
    ensures AdmitAll(Fresh<R>(cap, 0), calls).0.inWindow == cap + 1
  {
    var l := Fresh<R>(cap, 0);
    var first := seq(cap, _ => (r, 0));
    Burst(l, r, 0, cap);
    var l1 := AdmitAll(l, first).0;
    var over := [(r, 0)];
    assert over[..0] == [];
    AdmitAllConcat(l, first, over);
    var l2 := AdmitAll(l, first + over).0;
    assert l2 == Admit(l1, r, 0).0 && l2.batch == [r];
    var next := [(r, WINDOW)];
    assert next[..0] == [];
    AdmitAllConcat(l, first + over, next);
    var l3 := AdmitAll(l, first + over + next).0;
    assert l3 == Admit(l2, r, WINDOW).0;
    Burst(l3, r, WINDOW, cap);
    var last := seq(cap, _ => (r, WINDOW));
    AdmitAllConcat(l, first + over + next, last);
    calls := first + over + next + last;
  }

  class BackpressureLimiter<R> {
    const cap: nat
    var windowStart: int
    var windowCount: nat
    var batch: seq<R>
    var artifactCount: nat
    ghost var inWindow: nat
    ghost var flushed: bool

    ghost function Abs(): State<R>
      reads this
    {
      State(cap, windowStart, windowCount, batch, artifactCount, inWindow, flushed)
    }

    constructor (cap: nat, now: int)
      ensures Abs() == Fresh(cap, now)
    {
      this.cap := cap;
      windowStart, windowCount, batch, artifactCount := now, 0, [], 0;
      inWindow, flushed := 0, false;
    }

    /** `admit`: `None` means batched. */
    method AdmitRecord(record: R, now: int) returns (emit: Option<seq<R>>)
      modifies this
      ensures Abs() == Admit(old(Abs()), record, now).0
      ensures Admit(old(Abs()), record, now).1 == if emit.Some? then emit.value else []
      ensures emit.Some? ==> emit.value != []
      ensures artifactCount == old(artifactCount) + if emit.Some? then 1 else 0
    {
      if now - windowStart >= WINDOW {
        windowStart, windowCount, inWindow, flushed := now, 0, 0, false;
        if batch != [] {
          var out := batch;
          batch := [];
          artifactCount, inWindow, flushed := artifactCount + 1, 1, true;
          batch := batch + [record];
          return Some(out);
        }
      }
      windowCount := windowCount + 1;
      if windowCount <= cap {
        artifactCount, inWindow := artifactCount + 1, inWindow + 1;
        return Some([record]);
      }
      batch := batch + [record];
      return None;
    }

    /** `flush`: hands over the whole batch. */
    method Flush() returns (out: seq<R>)
      modifies this
      ensures out == old(batch) && batch == []
      ensures artifactCount == old(artifactCount) + (if out != [] then 1 else 0)
      ensures windowStart == old(windowStart) && windowCount == old(windowCount)
    {
      out := batch;
      if batch != [] {
        batch := [];
        artifactCount := artifactCount + 1;
      }
    }
  }
}
