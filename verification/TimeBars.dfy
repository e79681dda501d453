/** A stream cut where its key rises above every earlier one. */
module Grouping {
  import opened Sorting
  import opened Bars
  import opened BarRuns

  predicate IsGroup(key: Tick -> int, group: seq<Tick>) {
    group != [] && forall i :: 0 <= i < |group| ==> key(group[i]) <= key(group[0])
  }

  function HeadKey(key: Tick -> int, group: seq<Tick>): int { if group == [] then 0 else key(group[0]) }

  /** No key in a group is above its first, and each group's first key is above the earlier
      groups'. */
  ghost predicate IsGrouping(key: Tick -> int, ticks: seq<Tick>, groups: Runs) {
    && Joined(groups) == ticks
    && (forall k :: 0 <= k < |groups| ==> IsGroup(key, groups[k]))
    && (forall j, k :: 0 <= j < k < |groups| ==> HeadKey(key, groups[j]) < HeadKey(key, groups[k]))
  }

  ghost predicate AllBelow(key: Tick -> int, groups: Runs, v: int) {
    forall j :: 0 <= j < |groups| ==> HeadKey(key, groups[j]) < v
  }

  lemma GroupingLast(key: Tick -> int, ticks: seq<Tick>, most: Runs, last: seq<Tick>)
    ensures IsGrouping(key, ticks, most + [last]) <==>
            && ticks == Joined(most) + last && IsGrouping(key, Joined(most), most)
            && IsGroup(key, last) && AllBelow(key, most, HeadKey(key, last))
  {
    var groups := most + [last];
    JoinedNext(most, last);
    assert groups[|most|] == last;
    assert forall k :: 0 <= k < |most| ==> groups[k] == most[k];
    if IsGrouping(key, ticks, groups) {
      forall k | 0 <= k < |most| ensures IsGroup(key, most[k]) { assert groups[k] == most[k]; }
      forall j, k | 0 <= j < k < |most| ensures HeadKey(key, most[j]) < HeadKey(key, most[k]) {
        assert HeadKey(key, groups[j]) < HeadKey(key, groups[k]);
      }
    }
  }

  lemma GroupGrows(key: Tick -> int, group: seq<Tick>, t: Tick)
    requires group != []
    ensures IsGroup(key, group + [t]) <==> IsGroup(key, group) && key(t) <= key(group[0])
    ensures HeadKey(key, group + [t]) == HeadKey(key, group)
  {
    var more := group + [t];
    assert more[|group|] == t && forall i :: 0 <= i < |group| ==> more[i] == group[i];
  }

  /** The tick that comes next joins the last group or starts one. */
  lemma GroupingNext(key: Tick -> int, ticks: seq<Tick>, most: Runs, last: seq<Tick>, t: Tick)
    requires IsGrouping(key, ticks, most + [last])
    ensures last != []
    ensures if key(t) <= key(last[0]) then IsGrouping(key, ticks + [t], most + [last + [t]])
            else IsGrouping(key, ticks + [t], most + [last] + [[t]])
  {
    GroupingLast(key, ticks, most, last);
    if key(t) <= key(last[0]) {
      GroupGrows(key, last, t);
      assert ticks + [t] == Joined(most) + (last + [t]);
      GroupingLast(key, ticks + [t], most, last + [t]);
    } else {
      JoinedNext(most, last);
      BelowNewest(key, most, last, key(t));
      GroupingLast(key, ticks + [t], most + [last], [t]);
    }
  }

  lemma BelowNewest(key: Tick -> int, most: Runs, last: seq<Tick>, v: int)
    requires AllBelow(key, most, HeadKey(key, last)) && HeadKey(key, last) < v
    ensures AllBelow(key, most + [last], v)
  {
    forall j | 0 <= j < |most + [last]| ensures HeadKey(key, (most + [last])[j]) < v {
      assert (most + [last])[j] == if j < |most| then most[j] else last;
    }
  }

  lemma GroupingOne(key: Tick -> int, t: Tick)
    ensures IsGrouping(key, [t], [[t]])
  {
    assert Joined([]) == [] && [] + [[t]] == [[t]];
    GroupingLast(key, [t], [], [t]);
  }

  /** Every stream can be cut so. */
  lemma {:induction false} GroupingExists(key: Tick -> int, ticks: seq<Tick>)
    ensures exists groups :: IsGrouping(key, ticks, groups)
    decreases |ticks|
  {
    if ticks == [] {
      assert Joined([]) == [] && IsGrouping(key, ticks, []);
    } else {
      GroupingExists(key, Init(ticks));
      var groups :| IsGrouping(key, Init(ticks), groups);
      var t := Last(ticks);
      assert Init(ticks) + [t] == ticks;
      if groups == [] {
        GroupingOne(key, t);
        assert ticks == [t];
      } else {
        assert groups == groups[..|groups| - 1] + [groups[|groups| - 1]];
        GroupingNext(key, Init(ticks), groups[..|groups| - 1], groups[|groups| - 1], t);
      }
    }
  }

  /** The groups without the last tick. */
  function Peeled(most: Runs, last: seq<Tick>): Runs
    requires last != []
  {
    if |last| == 1 then most else most + [Init(last)]
  }

  lemma Peel(key: Tick -> int, ticks: seq<Tick>, most: Runs, last: seq<Tick>)
    requires IsGrouping(key, ticks, most + [last])
    ensures last != [] && ticks != [] && last == Init(last) + [Last(ticks)]
    ensures IsGrouping(key, Init(ticks), Peeled(most, last))
    ensures if |last| == 1 then AllBelow(key, most, key(Last(ticks))) else key(Last(ticks)) <= key(last[0])
  {
    GroupingLast(key, ticks, most, last);
    InitOfJoined(Joined(most), last);
    if |last| > 1 {
      GroupGrows(key, Init(last), Last(last));
      GroupingLast(key, Init(ticks), most, Init(last));
    } else {
      assert Joined(most) + [] == Joined(most);
    }
  }

  lemma InitOfJoined(front: seq<Tick>, last: seq<Tick>)
    requires last != []
    ensures Init(front + last) == front + Init(last) && Last(front + last) == Last(last)
    ensures last == Init(last) + [Last(last)]
  {
  }

  // ---------------------------------------------------------------- group-by

  predicate KeysInOrder(key: Tick -> int, ticks: seq<Tick>) {
    forall i, j :: 0 <= i < j < |ticks| ==> key(ticks[i]) <= key(ticks[j])
  }

  function HasKey(key: Tick -> int, k: int): Tick -> bool { t => key(t) == k }

  predicate OneKey(key: Tick -> int, group: seq<Tick>) {
    forall i :: 0 <= i < |group| ==> key(group[i]) == key(group[0])
  }

  /** Every tick of a group has its group's key. */
  ghost predicate Homogeneous(key: Tick -> int, groups: Runs) {
    forall k :: 0 <= k < |groups| ==> OneKey(key, groups[k])
  }

  /** The ticks of one key, picked out of joined groups that are each of one key. */
  lemma {:induction false} PickedOut(key: Tick -> int, ticks: seq<Tick>, groups: Runs, v: int)
    requires IsGrouping(key, ticks, groups) && Homogeneous(key, groups)
    ensures forall k :: 0 <= k < |groups| && HeadKey(key, groups[k]) == v ==> Filter(HasKey(key, v), ticks) == groups[k]
    ensures (forall k :: 0 <= k < |groups| ==> HeadKey(key, groups[k]) != v) ==> Filter(HasKey(key, v), ticks) == []
    decreases |groups|
  {
    if groups != [] {
      var most, last := groups[..|groups| - 1], groups[|groups| - 1];
      assert groups == most + [last];
      GroupingLast(key, ticks, most, last);
      PickedOut(key, Joined(most), most, v);
      FilterConcat(HasKey(key, v), Joined(most), last);
      if HeadKey(key, last) == v {
        FilterAll(HasKey(key, v), last);
      } else {
        FilterNone(HasKey(key, v), last);
      }
    }
  }

  lemma {:induction false} GroupedInOrder(key: Tick -> int, ticks: seq<Tick>, groups: Runs)
    requires IsGrouping(key, ticks, groups) && Homogeneous(key, groups)
    ensures KeysInOrder(key, ticks)
    ensures forall i :: 0 <= i < |ticks| ==> groups != [] && key(ticks[i]) <= HeadKey(key, groups[|groups| - 1])
    decreases |groups|
  {
    if groups != [] {
      var most, last := groups[..|groups| - 1], groups[|groups| - 1];
      assert groups == most + [last];
      GroupingLast(key, ticks, most, last);
      GroupedInOrder(key, Joined(most), most);
      GroupAfter(key, Joined(most), last);
    }
  }

  /** A group of one key goes on an ordered stream of lower keys. */
  lemma GroupAfter(key: Tick -> int, front: seq<Tick>, last: seq<Tick>)
    requires KeysInOrder(key, front) && last != [] && OneKey(key, last)
    requires forall i :: 0 <= i < |front| ==> key(front[i]) < key(last[0])
    ensures KeysInOrder(key, front + last)
    ensures forall i :: 0 <= i < |front + last| ==> key((front + last)[i]) <= key(last[0])
  {
    var all := front + last;
    forall i | 0 <= i < |all| ensures key(all[i]) <= key(last[0]) {
      assert all[i] == if i < |front| then front[i] else last[i - |front|];
    }
    forall i, j | 0 <= i < j < |all| ensures key(all[i]) <= key(all[j]) {
      assert all[i] == if i < |front| then front[i] else last[i - |front|];
      assert all[j] == if j < |front| then front[j] else last[j - |front|];
    }
  }

  /** Keys in order keep every group to one key. */
  lemma {:induction false} OrderedGroups(key: Tick -> int, ticks: seq<Tick>, groups: Runs)
    requires IsGrouping(key, ticks, groups) && KeysInOrder(key, ticks)
    ensures Homogeneous(key, groups)
    decreases |groups|
  {
    if groups != [] {
      var most, last := groups[..|groups| - 1], groups[|groups| - 1];
      assert groups == most + [last];
      GroupingLast(key, ticks, most, last);
      OrderOfParts(key, Joined(most), last);
      OrderedGroups(key, Joined(most), most);
    }
  }

  lemma OrderOfParts(key: Tick -> int, a: seq<Tick>, b: seq<Tick>)
    requires KeysInOrder(key, a + b)
    ensures KeysInOrder(key, a) && KeysInOrder(key, b)
  {
    var ticks := a + b;
    forall i, j | 0 <= i < j < |a| ensures key(a[i]) <= key(a[j]) { assert ticks[i] == a[i] && ticks[j] == a[j]; }
    forall i, j | 0 <= i < j < |b| ensures key(b[i]) <= key(b[j]) {
      assert ticks[|a| + i] == b[i] && ticks[|a| + j] == b[j];
    }
  }

  /** A group mixes no keys exactly when the keys come in order. */
  lemma HomogeneousExactly(key: Tick -> int, ticks: seq<Tick>, groups: Runs)
    requires IsGrouping(key, ticks, groups)
    ensures Homogeneous(key, groups) <==> KeysInOrder(key, ticks)
  {
    if Homogeneous(key, groups) {
      GroupedInOrder(key, ticks, groups);
    } else if KeysInOrder(key, ticks) {
      OrderedGroups(key, ticks, groups);
    }
  }
}

/** What the time bars mean.  On any tick order a bar gathers the ticks from one whose window
    is later than every earlier one's up to the next such tick; on time-ordered ticks that is
    the group-by on the window. */
module TimeBars {
  import opened Basics
  import opened Sorting
  import opened Bars
  import opened BarRuns
  import opened Grouping

  function WindowOf(frame: int): Tick -> int
    requires frame > 0
  {
    (t: Tick) => Window(frame, t.ts)
  }

  lemma Scaled(frame: int, a: int, b: int)
    requires frame > 0 && a <= b
    ensures a * frame <= b * frame
  {
    var d: nat := b - a;
    assert b * frame == a * frame + d * frame;
  }

  /** A timestamp is before the end of another's window exactly when its window is no later. */
  lemma WindowEdge(frame: int, ts: int, other: int)
    requires frame > 0
    ensures ts < WindowStart(frame, other) + frame <==> Window(frame, ts) <= Window(frame, other)
    ensures WindowStart(frame, ts) <= ts
  {
    var w, g := Window(frame, ts), Window(frame, other);
    assert w * frame <= ts < w * frame + frame;
    if w <= g { Scaled(frame, w, g); } else { Scaled(frame, g + 1, w); }
  }

  lemma WindowsSpaced(frame: int, a: int, b: int)
    requires frame > 0 && Window(frame, a) < Window(frame, b)
    ensures WindowStart(frame, a) + frame <= WindowStart(frame, b)
  {
    Scaled(frame, Window(frame, a) + 1, Window(frame, b));
  }

  lemma WindowAligned(frame: int, ts: int)
    requires frame > 0
    ensures WindowStart(frame, ts) % frame == 0
  {
    Divided(WindowStart(frame, ts), frame, Window(frame, ts), 0);
  }

  /** A time bar spans the window of its group's first tick; its exchange is that of the tick
      that flushed it. */
  ghost predicate IsTimeBar(frame: int, b: Bar, group: seq<Tick>, flush: seq<Tick>)
    requires frame > 0
  {
    && group != [] && BarOfRun(b, group)
    && b.genesis == WindowStart(frame, group[0].ts) && b.tsClose == b.genesis + frame
    && flush != [] && b.symbol == flush[0].symbol && b.exchange == flush[0].exchange
  }

  ghost predicate IsOpenGroup(frame: int, s: Option<BarState>, group: seq<Tick>)
    requires frame > 0
  {
    s.Some? && Summarizes(s.value, group) && s.value.genesis == WindowStart(frame, group[0].ts)
  }

  function Next(groups: Runs, k: nat): seq<Tick>
    requires k + 1 < |groups|
  {
    groups[k + 1]
  }

  /** One bar for each group but the last, which is open. */
  ghost predicate ShowsGroups(frame: int, r: (Option<BarState>, seq<Bar>), groups: Runs)
    requires frame > 0
  {
    if groups == [] then r.0.None? && r.1 == []
    else
      && |r.1| == |groups| - 1 && IsOpenGroup(frame, r.0, groups[|groups| - 1])
      && forall k :: 0 <= k < |r.1| ==> IsTimeBar(frame, r.1[k], groups[k], Next(groups, k))
  }

  lemma TimeStep(frame: int, s: Option<BarState>, group: seq<Tick>, t: Tick)
    requires Legal(Time(frame)) && IsOpenGroup(frame, s, group)
    ensures var (next, bar) := Step(Time(frame), s, t);
            if Window(frame, t.ts) <= Window(frame, group[0].ts) then bar.None? && IsOpenGroup(frame, next, group + [t])
            else bar.Some? && IsTimeBar(frame, bar.value, group, [t]) && IsOpenGroup(frame, next, [t])
  {
    WindowEdge(frame, t.ts, group[0].ts);
    SummarizesMore(s.value, group, t);
    SummarizesOne(t, WindowStart(frame, t.ts));
    assert Shows(BarFrom(s.value, t, s.value.genesis + frame), s.value);
  }

  /** On every tick order the bars are those of the groups. */
  lemma {:induction false} TimeBarsOfGroups(frame: int, ticks: seq<Tick>, groups: Runs)
    requires Legal(Time(frame)) && IsGrouping(WindowOf(frame), ticks, groups)
    ensures ShowsGroups(frame, RunOne(Time(frame), ticks), groups)
    decreases |ticks|
  {
    if groups != [] {
      var most, last := groups[..|groups| - 1], groups[|groups| - 1];
      assert groups == most + [last];
      Peel(WindowOf(frame), ticks, most, last);
      TimeBarsOfGroups(frame, Init(ticks), Peeled(most, last));
      GroupAdded(frame, RunOne(Time(frame), Init(ticks)), most, last, Last(ticks));
    }
  }

  /** A tick of the open group's window or an earlier one. */
  lemma GroupExtended(frame: int, before: (Option<BarState>, seq<Bar>), most: Runs, last: seq<Tick>, t: Tick)
    requires Legal(Time(frame)) && last != [] && ShowsGroups(frame, before, most + [last])
    requires Window(frame, t.ts) <= Window(frame, last[0].ts)
    ensures var (s, bar) := Step(Time(frame), before.0, t);
            ShowsGroups(frame, (s, before.1 + Listed(bar)), most + [last + [t]])
  {
    var prev, groups := most + [last], most + [last + [t]];
    TimeStep(frame, before.0, last, t);
    assert before.1 + [] == before.1;
    forall k | 0 <= k < |most| ensures IsTimeBar(frame, before.1[k], groups[k], Next(groups, k)) {
      assert IsTimeBar(frame, before.1[k], prev[k], Next(prev, k));
      assert Next(groups, k) != [] && Next(groups, k)[0] == Next(prev, k)[0];
    }
  }

  /** The first tick of all. */
  lemma GroupFirst(frame: int, before: (Option<BarState>, seq<Bar>), t: Tick)
    requires Legal(Time(frame)) && ShowsGroups(frame, before, [])
    ensures var (s, bar) := Step(Time(frame), before.0, t);
            ShowsGroups(frame, (s, before.1 + Listed(bar)), [[t]])
  {
    SummarizesOne(t, WindowStart(frame, t.ts));
  }

  /** A tick of a later window. */
  lemma GroupFlushed(frame: int, before: (Option<BarState>, seq<Bar>), groups: Runs, t: Tick)
    requires Legal(Time(frame)) && groups != [] && ShowsGroups(frame, before, groups)
    requires HeadKey(WindowOf(frame), groups[|groups| - 1]) < Window(frame, t.ts)
    ensures var (s, bar) := Step(Time(frame), before.0, t);
            ShowsGroups(frame, (s, before.1 + Listed(bar)), groups + [[t]])
  {
    var prior, all := groups[|groups| - 1], groups + [[t]];
    TimeStep(frame, before.0, prior, t);
    var bars := before.1 + Listed(Step(Time(frame), before.0, t).1);
    forall k | 0 <= k < |bars| ensures IsTimeBar(frame, bars[k], all[k], Next(all, k)) {
      if k < |before.1| {
        assert IsTimeBar(frame, before.1[k], groups[k], Next(groups, k)) && Next(all, k) == Next(groups, k);
      } else {
        assert all[k] == prior && Next(all, k) == [t];
      }
    }
  }

  /** The tick taken off last, put back. */
  lemma GroupAdded(frame: int, before: (Option<BarState>, seq<Bar>), most: Runs, last: seq<Tick>, t: Tick)
    requires Legal(Time(frame)) && last != [] && last == Init(last) + [t]
    requires ShowsGroups(frame, before, Peeled(most, last))
    requires if |last| == 1 then AllBelow(WindowOf(frame), most, Window(frame, t.ts))
             else Window(frame, t.ts) <= Window(frame, last[0].ts)
    ensures var (s, bar) := Step(Time(frame), before.0, t);
            ShowsGroups(frame, (s, before.1 + Listed(bar)), most + [last])
  {
    if |last| > 1 {
      GroupExtended(frame, before, most, Init(last), t);
    } else if most == [] {
      GroupFirst(frame, before, t);
      assert most + [last] == [[t]];
    } else {
      GroupFlushed(frame, before, most, t);
      assert last == [t];
    }
  }

  lemma StartsSpaced(frame: int, ticks: seq<Tick>, groups: Runs, j: nat, k: nat)
    requires frame > 0 && IsGrouping(WindowOf(frame), ticks, groups) && j < k < |groups|
    ensures groups[j] != [] && groups[k] != []
    ensures WindowStart(frame, groups[j][0].ts) + frame <= WindowStart(frame, groups[k][0].ts)
  {
    assert IsGroup(WindowOf(frame), groups[j]) && IsGroup(WindowOf(frame), groups[k]);
    assert HeadKey(WindowOf(frame), groups[j]) < HeadKey(WindowOf(frame), groups[k]);
    WindowsSpaced(frame, groups[j][0].ts, groups[k][0].ts);
  }

  /** On every tick order: aligned, strictly increasing windows that do not overlap. */
  lemma TimeWindows(frame: int, ticks: seq<Tick>)
    requires Legal(Time(frame))
    ensures var (s, bars) := RunOne(Time(frame), ticks);
            && (forall k :: 0 <= k < |bars| ==>
                  bars[k].genesis % frame == 0 && bars[k].tsClose == bars[k].genesis + frame)
            && (forall j, k :: 0 <= j < k < |bars| ==> bars[j].tsClose <= bars[k].genesis)
            && (forall k :: 0 <= k < |bars| ==> s.Some? && bars[k].tsClose <= s.value.genesis)
  {
    GroupingExists(WindowOf(frame), ticks);
    var groups: Runs :| IsGrouping(WindowOf(frame), ticks, groups);
    TimeBarsOfGroups(frame, ticks, groups);
    var (s, bars) := RunOne(Time(frame), ticks);
    forall k | 0 <= k < |bars|
      ensures bars[k].genesis % frame == 0 && bars[k].tsClose == bars[k].genesis + frame
      ensures bars[k].tsClose <= s.value.genesis
    {
      WindowAligned(frame, groups[k][0].ts);
      StartsSpaced(frame, ticks, groups, k, |groups| - 1);
    }
    forall j, k | 0 <= j < k < |bars| ensures bars[j].tsClose <= bars[k].genesis {
      StartsSpaced(frame, ticks, groups, j, k);
    }
  }

  predicate TimeOrdered(ticks: seq<Tick>) {
    forall i, j :: 0 <= i < j < |ticks| ==> ticks[i].ts <= ticks[j].ts
  }

  lemma TimeOrderIsWindowOrder(frame: int, ticks: seq<Tick>)
    requires frame > 0 && TimeOrdered(ticks)
    ensures KeysInOrder(WindowOf(frame), ticks)
  {
    forall i, j | 0 <= i < j < |ticks| ensures WindowOf(frame)(ticks[i]) <= WindowOf(frame)(ticks[j]) {
      WindowEdge(frame, ticks[j].ts, ticks[j].ts);
      WindowEdge(frame, ticks[i].ts, ticks[j].ts);
    }
  }

  /** On time-ordered ticks the bars are the group-by on the window: one for every window that
      has ticks except the last, over exactly that window's ticks. */
  lemma GroupBy(frame: int, ticks: seq<Tick>, groups: Runs)
    requires Legal(Time(frame)) && IsGrouping(WindowOf(frame), ticks, groups) && TimeOrdered(ticks)
    ensures ShowsGroups(frame, RunOne(Time(frame), ticks), groups)
    ensures forall k :: 0 <= k < |groups| ==>
              groups[k] != [] && groups[k] == Filter(HasKey(WindowOf(frame), Window(frame, groups[k][0].ts)), ticks)
    ensures forall t :: t in ticks ==>
              exists k :: 0 <= k < |groups| && HeadKey(WindowOf(frame), groups[k]) == Window(frame, t.ts)
  {
    var key := WindowOf(frame);
    TimeBarsOfGroups(frame, ticks, groups);
    TimeOrderIsWindowOrder(frame, ticks);
    HomogeneousExactly(key, ticks, groups);
    forall k | 0 <= k < |groups|
      ensures groups[k] != [] && groups[k] == Filter(HasKey(key, Window(frame, groups[k][0].ts)), ticks)
    {
      assert IsGroup(key, groups[k]);
      PickedOut(key, ticks, groups, HeadKey(key, groups[k]));
    }
    forall t | t in ticks
      ensures exists k :: 0 <= k < |groups| && HeadKey(key, groups[k]) == Window(frame, t.ts)
    {
      PickedOut(key, ticks, groups, key(t));
      assert t in Filter(HasKey(key, key(t)), ticks);
    }
  }
}
