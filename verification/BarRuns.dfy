/** What the aggregators mean: each symbol's stream is cut into contiguous runs and one open
    run, and each bar is the first, greatest, least, last and sum of its run. */
module BarRuns {
  import opened Basics
  import opened Bars

  type Runs = seq<seq<Tick>>

  function Quantity(ticks: seq<Tick>): int
    decreases |ticks|
  {
    if ticks == [] then 0 else Quantity(Init(ticks)) + Last(ticks).quantity
  }

  function Value(ticks: seq<Tick>): int
    decreases |ticks|
  {
    if ticks == [] then 0 else Value(Init(ticks)) + Last(ticks).price * Last(ticks).quantity
  }

  function Joined(runs: Runs): seq<Tick> {
    if runs == [] then [] else Joined(runs[..|runs| - 1]) + runs[|runs| - 1]
  }

  lemma JoinedNext(runs: Runs, run: seq<Tick>)
    ensures Joined(runs + [run]) == Joined(runs) + run
  {
    assert (runs + [run])[..|runs|] == runs;
  }

  // ---------------------------------------------------------------- what a bar is of its run

  /** First, greatest, least, last and sums. */
  ghost predicate Summarizes(s: BarState, run: seq<Tick>) {
    && run != []
    && s.open == run[0].price && s.close == Last(run).price && s.lastTs == Last(run).ts
    && (forall i :: 0 <= i < |run| ==> s.low <= run[i].price <= s.high)
    && (exists i :: 0 <= i < |run| && run[i].price == s.high)
    && (exists i :: 0 <= i < |run| && run[i].price == s.low)
    && s.volume == Quantity(run) && s.value == Value(run) && s.count == |run|
  }

  lemma SummarizesOne(t: Tick, genesis: int)
    ensures Summarizes(NewState(t).(genesis := genesis), [t])
  {
    var s, run := NewState(t).(genesis := genesis), [t];
    assert run[0].price == s.high && run[0].price == s.low;
    assert Init(run) == [];
  }

  lemma SummarizesMore(s: BarState, run: seq<Tick>, t: Tick)
    requires Summarizes(s, run)
    ensures Summarizes(Merge(s, t), run + [t])
  {
    var next, more := Merge(s, t), run + [t];
    assert Init(more) == run && Last(more) == t;
    var h :| 0 <= h < |run| && run[h].price == s.high;
    var l :| 0 <= l < |run| && run[l].price == s.low;
    assert more[if t.price > s.high then |run| else h].price == next.high;
    assert more[if t.price < s.low then |run| else l].price == next.low;
    assert forall i :: 0 <= i < |more| ==> more[i] == if i < |run| then run[i] else t;
  }

  /** A bar that shows a summary. */
  predicate Shows(b: Bar, s: BarState) {
    && b.open == s.open && b.high == s.high && b.low == s.low && b.close == s.close
    && b.volume == s.volume && b.value == s.value
  }

  ghost predicate BarOfRun(b: Bar, run: seq<Tick>) {
    exists s :: Summarizes(s, run) && Shows(b, s)
  }

  // ---------------------------------------------------------------- volume, tick and dollar bars

  function Metric(rule: Rule, run: seq<Tick>): int {
    match rule
    case Volume(_) => Quantity(run)
    case Ticks(_) => |run|
    case Dollar(_) => Value(run)
    case Time(_) => 0
  }

  predicate Reached(rule: Rule, run: seq<Tick>)
    requires !rule.Time?
  {
    Metric(rule, run) >= rule.threshold
  }

  /** No non-empty prefix shorter than `n` reaches the threshold. */
  predicate Below(rule: Rule, run: seq<Tick>, n: nat)
    requires !rule.Time? && n <= |run| + 1
  {
    forall i :: 0 < i < n ==> !Reached(rule, run[..i])
  }

  predicate Closed(rule: Rule, run: seq<Tick>)
    requires !rule.Time?
  {
    run != [] && Reached(rule, run) && Below(rule, run, |run|)
  }

  ghost predicate IsSplit(rule: Rule, ticks: seq<Tick>, runs: Runs, open: seq<Tick>)
    requires !rule.Time?
  {
    && Joined(runs) + open == ticks
    && (forall k :: 0 <= k < |runs| ==> Closed(rule, runs[k]))
    && Below(rule, open, |open| + 1)
  }

  ghost predicate IsOpen(s: Option<BarState>, open: seq<Tick>) {
    if open == [] then s.None? else s.Some? && Summarizes(s.value, open) && s.value.genesis == open[0].ts
  }

  /** A threshold bar closes on the last tick of its run. */
  ghost predicate IsThresholdBar(b: Bar, run: seq<Tick>) {
    && run != [] && BarOfRun(b, run)
    && b.genesis == run[0].ts && b.tsClose == (if Last(run).ts <= run[0].ts then run[0].ts + 1 else Last(run).ts)
    && b.symbol == Last(run).symbol && b.exchange == Last(run).exchange
  }

  ghost predicate ShowsSplit(r: (Option<BarState>, seq<Bar>), runs: Runs, open: seq<Tick>) {
    && IsOpen(r.0, open) && |r.1| == |runs|
    && forall k :: 0 <= k < |runs| ==> IsThresholdBar(r.1[k], runs[k])
  }

  /** One tick more: it extends the open run, and closes it when that reaches the threshold. */
  lemma ThresholdStep(rule: Rule, s: Option<BarState>, open: seq<Tick>, t: Tick)
    requires Legal(rule) && !rule.Time? && IsOpen(s, open)
    ensures var (next, bar) := Step(rule, s, t);
            if Reached(rule, open + [t]) then next.None? && bar.Some? && IsThresholdBar(bar.value, open + [t])
            else bar.None? && IsOpen(next, open + [t])
  {
    var now := open + [t];
    var state := if s.None? then NewState(t) else Merge(s.value, t);
    if s.None? {
      SummarizesOne(t, t.ts);
      assert now == [t];
    } else {
      SummarizesMore(s.value, open, t);
    }
    assert Summarizes(state, now) && state.genesis == now[0].ts && Last(now) == t;
    assert Closes(rule, state) <==> Reached(rule, now);
    assert Shows(Emit(state, t), state);
  }

  /** The prefix before the last tick of a split stream is split by the same runs. */
  lemma OpenRun(rule: Rule, ticks: seq<Tick>, runs: Runs, open: seq<Tick>)
    requires !rule.Time? && IsSplit(rule, ticks, runs, open) && open != []
    ensures IsSplit(rule, Init(ticks), runs, Init(open)) && Last(ticks) == Last(open)
    ensures Init(open) + [Last(open)] == open && !Reached(rule, open)
  {
    assert open[..|open|] == open;
    assert Joined(runs) + Init(open) == Init(ticks);
    assert forall i :: 0 < i <= |Init(open)| ==> Init(open)[..i] == open[..i];
  }

  lemma ClosedRun(rule: Rule, ticks: seq<Tick>, runs: Runs)
    requires !rule.Time? && IsSplit(rule, ticks, runs, []) && runs != []
    ensures var most, run := runs[..|runs| - 1], runs[|runs| - 1];
            && IsSplit(rule, Init(ticks), most, Init(run)) && Last(ticks) == Last(run)
            && Init(run) + [Last(run)] == run && Reached(rule, run)
  {
    var most, run := runs[..|runs| - 1], runs[|runs| - 1];
    assert ticks == Joined(most) + run;
    assert Joined(most) + Init(run) == Init(ticks);
    assert forall i :: 0 < i <= |Init(run)| ==> Init(run)[..i] == run[..i];
  }

  /** What the next tick does to bars that show a split. */
  lemma ShownNext(rule: Rule, before: (Option<BarState>, seq<Bar>), runs: Runs, open: seq<Tick>, t: Tick)
    requires Legal(rule) && !rule.Time? && ShowsSplit(before, runs, open)
    ensures var (next, bar) := Step(rule, before.0, t);
            if Reached(rule, open + [t]) then ShowsSplit((next, before.1 + Listed(bar)), runs + [open + [t]], [])
            else ShowsSplit((next, before.1 + Listed(bar)), runs, open + [t])
  {
    ThresholdStep(rule, before.0, open, t);
    var (next, bar) := Step(rule, before.0, t);
    assert bar.None? ==> before.1 + Listed(bar) == before.1;
  }

  lemma RunOneLast(rule: Rule, ticks: seq<Tick>)
    requires Legal(rule) && ticks != []
    ensures var (next, bar) := Step(rule, RunOne(rule, Init(ticks)).0, Last(ticks));
            RunOne(rule, ticks) == (next, RunOne(rule, Init(ticks)).1 + Listed(bar))
  {
  }

  /** Bars and open state are those of any split into runs of which no proper prefix reaches
      the threshold. */
  lemma {:induction false} ThresholdBars(rule: Rule, ticks: seq<Tick>, runs: Runs, open: seq<Tick>)
    requires Legal(rule) && !rule.Time? && IsSplit(rule, ticks, runs, open)
    ensures ShowsSplit(RunOne(rule, ticks), runs, open)
    decreases |ticks|
  {
    if open != [] {
      OpenRun(rule, ticks, runs, open);
      ThresholdBars(rule, Init(ticks), runs, Init(open));
      ShownNext(rule, RunOne(rule, Init(ticks)), runs, Init(open), Last(ticks));
      RunOneLast(rule, ticks);
    } else if runs != [] {
      ClosedRun(rule, ticks, runs);
      var most, run := runs[..|runs| - 1], runs[|runs| - 1];
      ThresholdBars(rule, Init(ticks), most, Init(run));
      ShownNext(rule, RunOne(rule, Init(ticks)), most, Init(run), Last(ticks));
      RunOneLast(rule, ticks);
      assert runs == most + [run];
    }
  }

  /** Every stream has such a split. */
  lemma {:induction false} SplitExists(rule: Rule, ticks: seq<Tick>)
    requires !rule.Time?
    ensures exists runs, open :: IsSplit(rule, ticks, runs, open)
    decreases |ticks|
  {
    if ticks == [] {
      assert Joined([]) == [] && IsSplit(rule, ticks, [], []);
    } else {
      SplitExists(rule, Init(ticks));
      var runs, open :| IsSplit(rule, Init(ticks), runs, open);
      SplitNext(rule, Init(ticks), runs, open, Last(ticks));
      assert Init(ticks) + [Last(ticks)] == ticks;
    }
  }

  lemma BelowNext(rule: Rule, open: seq<Tick>, t: Tick)
    requires !rule.Time? && Below(rule, open, |open| + 1)
    ensures Below(rule, open + [t], |open| + 1)
    ensures !Reached(rule, open + [t]) ==> Below(rule, open + [t], |open| + 2)
  {
    var now := open + [t];
    assert now[..|now|] == now;
    forall i | 0 < i <= |open| ensures now[..i] == open[..i] { }
  }

  lemma SplitNext(rule: Rule, ticks: seq<Tick>, runs: Runs, open: seq<Tick>, t: Tick)
    requires !rule.Time? && IsSplit(rule, ticks, runs, open)
    ensures if Reached(rule, open + [t]) then IsSplit(rule, ticks + [t], runs + [open + [t]], [])
            else IsSplit(rule, ticks + [t], runs, open + [t])
  {
    BelowNext(rule, open, t);
    assert Joined(runs) + (open + [t]) == ticks + [t];
    if Reached(rule, open + [t]) {
      JoinedNext(runs, open + [t]);
      assert ticks + [t] + [] == ticks + [t];
    }
  }

  /** And only one. */
  lemma {:induction false} SplitUnique(rule: Rule, ticks: seq<Tick>, runs: Runs, open: seq<Tick>,
                                       runs2: Runs, open2: seq<Tick>)
    requires !rule.Time? && IsSplit(rule, ticks, runs, open) && IsSplit(rule, ticks, runs2, open2)
    ensures runs == runs2 && open == open2
    decreases |ticks|
  {
    if open != [] {
      OpenRun(rule, ticks, runs, open);
      if open2 != [] {
        OpenRun(rule, ticks, runs2, open2);
        SplitUnique(rule, Init(ticks), runs, Init(open), runs2, Init(open2));
      } else {
        ClosedRun(rule, ticks, runs2);
        SplitUnique(rule, Init(ticks), runs, Init(open), runs2[..|runs2| - 1], Init(runs2[|runs2| - 1]));
        assert false;
      }
    } else if runs != [] {
      ClosedRun(rule, ticks, runs);
      var run := runs[|runs| - 1];
      if open2 != [] {
        OpenRun(rule, ticks, runs2, open2);
        SplitUnique(rule, Init(ticks), runs[..|runs| - 1], Init(run), runs2, Init(open2));
        assert false;
      } else {
        ClosedRun(rule, ticks, runs2);
        SplitUnique(rule, Init(ticks), runs[..|runs| - 1], Init(run), runs2[..|runs2| - 1], Init(runs2[|runs2| - 1]));
        assert runs == runs[..|runs| - 1] + [run];
        assert runs2 == runs2[..|runs2| - 1] + [runs2[|runs2| - 1]];
      }
    } else {
      assert ticks == [];
      if open2 != [] { OpenRun(rule, ticks, runs2, open2); }
      else if runs2 != [] { ClosedRun(rule, ticks, runs2); }
    }
  }

  // ---------------------------------------------------------------- conservation

  function BarVolume(bars: seq<Bar>): int {
    if bars == [] then 0 else BarVolume(bars[..|bars| - 1]) + bars[|bars| - 1].volume
  }

  function BarValue(bars: seq<Bar>): int {
    if bars == [] then 0 else BarValue(bars[..|bars| - 1]) + bars[|bars| - 1].value
  }

  function OpenVolume(s: Option<BarState>): int { if s.None? then 0 else s.value.volume }
  function OpenValue(s: Option<BarState>): int { if s.None? then 0 else s.value.value }
  function OpenCount(s: Option<BarState>): nat { if s.None? then 0 else s.value.count }

  lemma BarsNext(bars: seq<Bar>, bar: Option<Bar>)
    ensures BarVolume(bars + Listed(bar)) == BarVolume(bars) + if bar.Some? then bar.value.volume else 0
    ensures BarValue(bars + Listed(bar)) == BarValue(bars) + if bar.Some? then bar.value.value else 0
  {
    if bar.Some? {
      assert (bars + [bar.value])[..|bars|] == bars;
    } else {
      assert bars + [] == bars;
    }
  }

  /** All four aggregators conserve quantity and notional at every point of the stream. */
  lemma {:induction false} Conserved(rule: Rule, ticks: seq<Tick>)
    requires Legal(rule)
    ensures var (s, bars) := RunOne(rule, ticks);
            BarVolume(bars) + OpenVolume(s) == Quantity(ticks) && BarValue(bars) + OpenValue(s) == Value(ticks)
    decreases |ticks|
  {
    if ticks != [] {
      Conserved(rule, Init(ticks));
      var (s, bars) := RunOne(rule, Init(ticks));
      BarsNext(bars, Step(rule, s, Last(ticks)).1);
    }
  }

  /** Tick bars: n ticks make n div N bars and leave n mod N open. */
  lemma {:induction false} TickBarCount(n: int, ticks: seq<Tick>)
    requires n > 0
    ensures var (s, bars) := RunOne(Ticks(n), ticks);
            |bars| == |ticks| / n && OpenCount(s) == |ticks| % n
    decreases |ticks|
  {
    if ticks != [] {
      TickBarCount(n, Init(ticks));
      NextDivision(|ticks| - 1, n);
    }
  }

  lemma NextDivision(k: nat, n: int)
    requires n > 0
    ensures if k % n + 1 == n then (k + 1) / n == k / n + 1 && (k + 1) % n == 0
            else (k + 1) / n == k / n && (k + 1) % n == k % n + 1
  {
    var q, r := k / n, k % n;
    assert k == q * n + r;
    if r + 1 == n {
      assert k + 1 == (q + 1) * n;
      Divided(k + 1, n, q + 1, 0);
    } else {
      Divided(k + 1, n, q, r + 1);
    }
  }

  lemma Divided(x: int, n: int, q: int, r: int)
    requires n > 0 && x == q * n + r && 0 <= r < n
    ensures x / n == q && x % n == r
  {
    var d := x / n - q;
    assert d * n == r - x % n;
    assert d >= 1 ==> d * n >= n;
    assert d <= -1 ==> d * n <= -n;
  }
}
