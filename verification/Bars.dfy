/** The streaming bar aggregators of `aggregation/core.py`: per-symbol state machines over a
    stream of ticks.  Decimals are exact scaled integers and times are microseconds. */
module Bars {
  import opened Basics
  import opened Sorting

  datatype Tick = Tick(symbol: string, exchange: string, ts: int, price: int, quantity: int)
  datatype BarState = BarState(genesis: int, open: int, high: int, low: int, close: int,
                               volume: int, value: int, lastTs: int, count: nat)
  datatype Bar = Bar(symbol: string, exchange: string, genesis: int, tsClose: int,
                     open: int, high: int, low: int, close: int, volume: int, value: int)

  /** Which aggregator, with its threshold; `Time` carries its timeframe in microseconds. */
  datatype Rule = Volume(threshold: int) | Ticks(threshold: int) | Dollar(threshold: int) | Time(frame: int)

  predicate Legal(rule: Rule) {
    if rule.Time? then rule.frame > 0 && rule.frame % 1_000_000 == 0 else rule.threshold > 0
  }

  function Notional(t: Tick): int { t.price * t.quantity }

  function NewState(t: Tick): BarState {
    BarState(t.ts, t.price, t.price, t.price, t.price, t.quantity, Notional(t), t.ts, 1)
  }

  function Merge(s: BarState, t: Tick): BarState {
    s.(high := if t.price > s.high then t.price else s.high,
       low := if t.price < s.low then t.price else s.low,
       close := t.price, volume := s.volume + t.quantity, value := s.value + Notional(t),
       lastTs := t.ts, count := s.count + 1)
  }

  function BarFrom(s: BarState, t: Tick, tsClose: int): Bar {
    Bar(t.symbol, t.exchange, s.genesis, tsClose, s.open, s.high, s.low, s.close, s.volume, s.value)
  }

  /** `_emit`. */
  function Emit(s: BarState, t: Tick): Bar {
    BarFrom(s, t, if t.ts <= s.genesis then s.genesis + 1 else t.ts)
  }

  /** `_should_close`. */
  predicate Closes(rule: Rule, s: BarState)
    requires !rule.Time?
  {
    match rule
    case Volume(n) => s.volume >= n
    case Ticks(n) => s.count >= n
    case Dollar(n) => s.value >= n
  }

  /** Euclidean division by a positive timeframe is Python's floor division. */
  function Window(frame: int, ts: int): int
    requires frame > 0
  {
    ts / frame
  }

  /** `_window_start`. */
  function WindowStart(frame: int, ts: int): int
    requires frame > 0
  {
    Window(frame, ts) * frame
  }

  function Seed(frame: int, t: Tick): BarState
    requires frame > 0
  {
    NewState(t).(genesis := WindowStart(frame, t.ts))
  }

  /** One symbol's state machine. */
  function Step(rule: Rule, s: Option<BarState>, t: Tick): (Option<BarState>, Option<Bar>)
    requires Legal(rule)
  {
    if rule.Time? then
      if s.None? then (Some(Seed(rule.frame, t)), None)
      else if t.ts < s.value.genesis + rule.frame then (Some(Merge(s.value, t)), None)
      else (Some(Seed(rule.frame, t)), Some(BarFrom(s.value, t, s.value.genesis + rule.frame)))
    else
      var next := if s.None? then NewState(t) else Merge(s.value, t);
      if Closes(rule, next) then (None, Some(Emit(next, t))) else (Some(next), None)
  }

  function Lookup(states: map<string, BarState>, symbol: string): Option<BarState> {
    if symbol in states then Some(states[symbol]) else None
  }

  function Store(states: map<string, BarState>, symbol: string, s: Option<BarState>): map<string, BarState> {
    if s.Some? then states[symbol := s.value] else states - {symbol}
  }

  function Listed(bar: Option<Bar>): seq<Bar> { if bar.Some? then [bar.value] else [] }

  function Init(ticks: seq<Tick>): seq<Tick>
    requires ticks != []
  {
    ticks[..|ticks| - 1]
  }

  function Last(ticks: seq<Tick>): Tick
    requires ticks != []
  {
    ticks[|ticks| - 1]
  }

  /** A new aggregator fed a whole stream: the states it ends in and the bars it emits. */
  function Run(rule: Rule, ticks: seq<Tick>): (map<string, BarState>, seq<Bar>)
    requires Legal(rule)
    decreases |ticks|
  {
    if ticks == [] then (map[], [])
    else
      var (states, bars) := Run(rule, Init(ticks));
      var t := Last(ticks);
      var (s, bar) := Step(rule, Lookup(states, t.symbol), t);
      (Store(states, t.symbol, s), bars + Listed(bar))
  }

  /** The same for a stream of one symbol. */
  function RunOne(rule: Rule, ticks: seq<Tick>): (Option<BarState>, seq<Bar>)
    requires Legal(rule)
    decreases |ticks|
  {
    if ticks == [] then (None, [])
    else
      var (s, bars) := RunOne(rule, Init(ticks));
      var (next, bar) := Step(rule, s, Last(ticks));
      (next, bars + Listed(bar))
  }

  lemma RunNext(rule: Rule, ticks: seq<Tick>, t: Tick)
    requires Legal(rule)
    ensures var (states, bars) := Run(rule, ticks);
            var (s, bar) := Step(rule, Lookup(states, t.symbol), t);
            Run(rule, ticks + [t]) == (Store(states, t.symbol, s), bars + Listed(bar))
  {
    assert Init(ticks + [t]) == ticks;
  }

  lemma ClosedStore(states: map<string, BarState>, symbol: string, s: BarState)
    ensures states[symbol := s] - {symbol} == states - {symbol}
  {
  }

  // ---------------------------------------------------------------- code

  class Aggregator {
    const rule: Rule
    var states: map<string, BarState>
    ghost var seen: seq<Tick>
    ghost var emitted: seq<Bar>

    ghost predicate Valid()
      reads this
    {
      Legal(rule) && (states, emitted) == Run(rule, seen)
    }

    constructor (rule: Rule)
      requires Legal(rule)
      ensures Valid() && this.rule == rule && seen == [] && emitted == []
    {
      this.rule, states, seen, emitted := rule, map[], [], [];
    }

    ghost predicate Advanced(t: Tick, bar: Option<Bar>, before: seq<Tick>, bars: seq<Bar>)
      reads this
    {
      Valid() && seen == before + [t] && emitted == bars + Listed(bar)
    }

    /** `_default_process`, for the volume, tick and dollar bars. */
    method DefaultProcess(t: Tick) returns (bar: Option<Bar>)
      requires Valid() && !rule.Time?
      modifies this
      ensures Advanced(t, bar, old(seen), old(emitted))
    {
      var s := NewState(t);
      if t.symbol in states { s := Merge(states[t.symbol], t); }
      states := states[t.symbol := s];
      bar := None;
      if Closes(rule, s) {
        bar := Some(Emit(s, t));
        states := states - {t.symbol};
        ClosedStore(old(states), t.symbol, s);
      }
      RunNext(rule, seen, t);
      seen, emitted := seen + [t], emitted + Listed(bar);
    }

    /** The time bar's `process_tick`: the tick of a later window flushes the bar first. */
    method ProcessTime(t: Tick) returns (bar: Option<Bar>)
      requires Valid() && rule.Time?
      modifies this
      ensures Advanced(t, bar, old(seen), old(emitted))
    {
      var windowStart := WindowStart(rule.frame, t.ts);
      bar := None;
      if t.symbol !in states {
        states := states[t.symbol := NewState(t).(genesis := windowStart)];
      } else {
        var s := states[t.symbol];
        if t.ts < s.genesis + rule.frame {
          states := states[t.symbol := Merge(s, t)];
        } else {
          bar := Some(BarFrom(s, t, s.genesis + rule.frame));
          states := states[t.symbol := NewState(t).(genesis := windowStart)];
        }
      }
      RunNext(rule, seen, t);
      seen, emitted := seen + [t], emitted + Listed(bar);
    }
  }

  /** The constructors' `ValueError`: no aggregator for a threshold that is not positive, or a
      timeframe that is not a positive number of whole seconds. */
  method Create(rule: Rule) returns (a: Aggregator?)
    ensures a != null <==> if rule.Time? then rule.frame > 0 && rule.frame % 1_000_000 == 0 else rule.threshold > 0
    ensures a != null ==> a.Valid() && a.rule == rule && a.seen == [] && a.emitted == [] && fresh(a)
  {
    if !Legal(rule) { return null; }
    a := new Aggregator(rule);
  }

  // ---------------------------------------------------------------- symbol isolation

  function OfSymbol(symbol: string): Tick -> bool { (t: Tick) => t.symbol == symbol }
  function BarOfSymbol(symbol: string): Bar -> bool { (b: Bar) => b.symbol == symbol }
  function Only(symbol: string, ticks: seq<Tick>): seq<Tick> { Filter(OfSymbol(symbol), ticks) }
  function BarsOf(symbol: string, bars: seq<Bar>): seq<Bar> { Filter(BarOfSymbol(symbol), bars) }

  lemma OnlyNext(symbol: string, ticks: seq<Tick>)
    requires ticks != []
    ensures Only(symbol, ticks) ==
            if Last(ticks).symbol == symbol then Only(symbol, Init(ticks)) + [Last(ticks)]
            else Only(symbol, Init(ticks))
  {
    assert ticks[..|ticks|] == ticks;
    FilterNext(OfSymbol(symbol), ticks, |ticks| - 1);
  }

  lemma BarsOfNext(symbol: string, bars: seq<Bar>, bar: Option<Bar>)
    ensures BarsOf(symbol, bars + Listed(bar)) ==
            if bar.Some? && bar.value.symbol == symbol then BarsOf(symbol, bars) + [bar.value] else BarsOf(symbol, bars)
  {
    FilterConcat(BarOfSymbol(symbol), bars, Listed(bar));
    assert bar.Some? ==> Listed(bar)[1..] == [];
  }

  /** One tick moves its own symbol's state machine and no other. */
  lemma IsolatedStep(rule: Rule, symbol: string, states: map<string, BarState>, bars: seq<Bar>, t: Tick)
    requires Legal(rule)
    ensures var (s, bar) := Step(rule, Lookup(states, t.symbol), t);
            var (next, own) := Step(rule, Lookup(states, symbol), t);
            if t.symbol == symbol then
              && Lookup(Store(states, t.symbol, s), symbol) == next
              && BarsOf(symbol, bars + Listed(bar)) == BarsOf(symbol, bars) + Listed(own)
            else
              && Lookup(Store(states, t.symbol, s), symbol) == Lookup(states, symbol)
              && BarsOf(symbol, bars + Listed(bar)) == BarsOf(symbol, bars)
  {
    var (s, bar) := Step(rule, Lookup(states, t.symbol), t);
    BarsOfNext(symbol, bars, bar);
    assert bar.None? ==> BarsOf(symbol, bars) + [] == BarsOf(symbol, bars);
  }

  lemma RunOneNext(rule: Rule, ticks: seq<Tick>, t: Tick)
    requires Legal(rule)
    ensures var (s, bars) := RunOne(rule, ticks);
            var (next, bar) := Step(rule, s, t);
            RunOne(rule, ticks + [t]) == (next, bars + Listed(bar))
  {
    assert Init(ticks + [t]) == ticks;
  }

  /** In every interleaving, one symbol's state and bars are those of that symbol alone. */
  lemma {:induction false} Isolated(rule: Rule, symbol: string, ticks: seq<Tick>)
    requires Legal(rule)
    ensures Lookup(Run(rule, ticks).0, symbol) == RunOne(rule, Only(symbol, ticks)).0
    ensures BarsOf(symbol, Run(rule, ticks).1) == RunOne(rule, Only(symbol, ticks)).1
    decreases |ticks|
  {
    if ticks != [] {
      var before, t := Init(ticks), Last(ticks);
      assert ticks == before + [t];
      Isolated(rule, symbol, before);
      OnlyNext(symbol, ticks);
      RunNext(rule, before, t);
      IsolatedStep(rule, symbol, Run(rule, before).0, Run(rule, before).1, t);
      if t.symbol == symbol { RunOneNext(rule, Only(symbol, before), t); }
    }
  }

  lemma {:induction false} OnlyOnce(symbol: string, ticks: seq<Tick>)
    ensures Only(symbol, Only(symbol, ticks)) == Only(symbol, ticks)
  {
    if ticks != [] {
      OnlyOnce(symbol, ticks[1..]);
    }
  }

  lemma {:induction false} BarsOwnSymbol(rule: Rule, symbol: string, ticks: seq<Tick>)
    requires Legal(rule) && forall t :: t in ticks ==> t.symbol == symbol
    ensures forall b :: b in Run(rule, ticks).1 ==> b.symbol == symbol
    decreases |ticks|
  {
    if ticks != [] { BarsOwnSymbol(rule, symbol, Init(ticks)); }
  }

  lemma {:induction false} AllOf(symbol: string, bars: seq<Bar>)
    requires forall b :: b in bars ==> b.symbol == symbol
    ensures BarsOf(symbol, bars) == bars
  {
    if bars != [] { AllOf(symbol, bars[1..]); }
  }

  /** A new aggregator that only sees one symbol's ticks emits exactly that symbol's bars. */
  lemma SymbolIsolation(rule: Rule, symbol: string, ticks: seq<Tick>)
    requires Legal(rule)
    ensures Run(rule, Only(symbol, ticks)).1 == BarsOf(symbol, Run(rule, ticks).1)
  {
    var own := Only(symbol, ticks);
    Isolated(rule, symbol, ticks);
    Isolated(rule, symbol, own);
    OnlyOnce(symbol, ticks);
    BarsOwnSymbol(rule, symbol, own);
    AllOf(symbol, Run(rule, own).1);
  }
}
