/** The disaster-recovery breaker of `dr_mode.py`.  Its clock readings are parameters. */
module DrMode {
  import opened Basics
  import opened Sorting

  /** `Other` is any further name an operator may set. */
  datatype Mode = Closed | Open | HalfOpen | UnknownTier | Other(name: string)
  datatype Entry = Entry(ts: real, ok: bool, status: int, latency: real)
  datatype Config = Config(consecutive: int, window: real, errors: int, latency: real, slow: int, delay: real)
  datatype Breaker = Breaker(mode: Mode, failures: nat, window: seq<Entry>, openedAt: Option<real>, overridden: bool)

  /** One call, with the clock readings it takes in order. */
  datatype Event =
    | Success(now: real)
    | Failure(status: int, latency: real, now: real, checked: real, tripped: real)
    | Look(now: real)
    | Override(mode: Mode, now: real)

  const FRESH := Breaker(Closed, 0, [], None, false)

  function IsError(): Entry -> bool { (e: Entry) => !e.ok && 500 <= e.status < 600 }
  function IsSlow(limit: real): Entry -> bool { (e: Entry) => e.latency > limit }
  function Since(cutoff: real): Entry -> bool { (e: Entry) => e.ts >= cutoff }
  function Errors(w: seq<Entry>): seq<Entry> { Filter(IsError(), w) }
  function Slow(c: Config, w: seq<Entry>): seq<Entry> { Filter(IsSlow(c.latency), w) }
  function Recent(h: seq<Entry>, cutoff: real): seq<Entry> { Filter(Since(cutoff), h) }

  function Popped(w: seq<Entry>, cutoff: real): seq<Entry> {
    if w != [] && w[0].ts < cutoff then Popped(w[1..], cutoff) else w
  }

  predicate Trips(c: Config, w: seq<Entry>) { |Errors(w)| >= c.errors || |Slow(c, w)| >= c.slow }

  /** The transition to OPEN, which does nothing to a breaker that is open. */
  function Opened(b: Breaker, at: real): Breaker {
    if b.mode.Open? then b else b.(mode := Open, openedAt := Some(at))
  }

  /** `_check_thresholds_locked`. */
  function Checked(c: Config, b: Breaker, checked: real, tripped: real): Breaker {
    if b.failures >= c.consecutive then Opened(b, tripped)
    else
      var w := Popped(b.window, checked - c.window);
      if Trips(c, w) then Opened(b.(window := w), tripped) else b.(window := w)
  }

  function EntryOf(e: Event): Entry
    requires e.Success? || e.Failure?
  {
    if e.Success? then Entry(e.now, true, 200, 0.0) else Entry(e.now, false, e.status, e.latency)
  }

  /** A failure once it is recorded, before any check. */
  function Noted(b: Breaker, e: Event): Breaker
    requires e.Failure?
  {
    b.(window := b.window + [EntryOf(e)], failures := b.failures + 1)
  }

  function Next(c: Config, b: Breaker, e: Event): Breaker {
    match e
    case Success(now) =>
      var s := b.(window := b.window + [EntryOf(e)], failures := 0);
      if b.mode.HalfOpen? then s.(mode := Closed, openedAt := None) else s
    case Failure(_, _, now, checked, tripped) =>
      var s := Noted(b, e);
      if b.mode.HalfOpen? then Opened(s, tripped)
      else if b.mode.Closed? then Checked(c, s, checked, tripped)
      else s
    case Look(now) =>
      if b.mode.Open? && b.openedAt.Some? && now - b.openedAt.value >= c.delay then b.(mode := HalfOpen) else b
    case Override(mode, now) =>
      b.(mode := mode, overridden := true, openedAt := if mode.Open? then Some(now) else b.openedAt)
  }

  // ---------------------------------------------------------------- code

  class DRMode {
    const config: Config
    var state: Mode
    var consecutiveFailure: nat
    var slidingWindow: seq<Entry>
    var openStartedAt: Option<real>
    var overrideActive: bool

    function Abs(): Breaker
      reads this
    {
      Breaker(state, consecutiveFailure, slidingWindow, openStartedAt, overrideActive)
    }

    constructor (config: Config)
      ensures Abs() == FRESH && this.config == config
    {
      this.config := config;
      state, consecutiveFailure, slidingWindow, openStartedAt, overrideActive := Closed, 0, [], None, false;
    }

    method CurrentState(now: real) returns (mode: Mode)
      modifies this
      ensures Abs() == Next(config, old(Abs()), Look(now)) && mode == state
    {
      if state == Open && openStartedAt.Some? {
        if now - openStartedAt.value >= config.delay { Transition(HalfOpen, now); }
      }
      return state;
    }

    method RecordSuccess(now: real)
      modifies this
      ensures Abs() == Next(config, old(Abs()), Success(now))
    {
      slidingWindow := slidingWindow + [Entry(now, true, 200, 0.0)];
      consecutiveFailure := 0;
      if state == HalfOpen { Transition(Closed, now); }
    }

    method RecordFailure(status: int, latency: real, now: real, checked: real, tripped: real)
      modifies this
      ensures Abs() == Next(config, old(Abs()), Failure(status, latency, now, checked, tripped))
    {
      slidingWindow := slidingWindow + [Entry(now, false, status, latency)];
      consecutiveFailure := consecutiveFailure + 1;
      if state == HalfOpen {
        Transition(Open, tripped);
      } else if state == Closed {
        CheckThresholds(checked, tripped);
      }
    }

    method SetMode(mode: Mode, now: real)
      modifies this
      ensures Abs() == Next(config, old(Abs()), Override(mode, now))
    {
      state := mode;
      overrideActive := true;
      if mode == Open { openStartedAt := Some(now); }
    }

    method CheckThresholds(checked: real, tripped: real)
      modifies this
      ensures Abs() == Checked(config, old(Abs()), checked, tripped)
    {
      if consecutiveFailure >= config.consecutive {
        Transition(Open, tripped);
        return;
      }
      var cutoff := checked - config.window;
      while slidingWindow != [] && slidingWindow[0].ts < cutoff
        invariant Abs() == old(Abs()).(window := slidingWindow)
        invariant Popped(slidingWindow, cutoff) == Popped(old(slidingWindow), cutoff)
        decreases |slidingWindow|
      {
        slidingWindow := slidingWindow[1..];
      }
      var errors := CountErrors(slidingWindow);
      if errors >= config.errors {
        Transition(Open, tripped);
        return;
      }
      var slow := CountSlow(config, slidingWindow);
      if slow >= config.slow { Transition(Open, tripped); }
    }

    method Transition(mode: Mode, now: real)
      modifies this
      ensures Abs() == if old(state) == mode then old(Abs())
                       else old(Abs()).(
                         mode := mode,
                         openedAt := if mode.Open? then Some(now)
                                     else if mode.Closed? then None else old(openStartedAt),
                         failures := if mode.Closed? then 0 else old(consecutiveFailure))
    {
      if state == mode { return; }
      state := mode;
      if mode == Open {
        openStartedAt := Some(now);
      } else if mode == Closed {
        openStartedAt := None;
        consecutiveFailure := 0;
      }
    }
  }

  method CountErrors(w: seq<Entry>) returns (n: nat)
    ensures n == |Errors(w)|
  {
    n := 0;
    for i := 0 to |w|
      invariant n == |Errors(w[..i])|
    {
      FilterNext(IsError(), w, i);
      if !w[i].ok && 500 <= w[i].status < 600 { n := n + 1; }
    }
    assert w[..|w|] == w;
  }

  method CountSlow(c: Config, w: seq<Entry>) returns (n: nat)
    ensures n == |Slow(c, w)|
  {
    n := 0;
    for i := 0 to |w|
      invariant n == |Slow(c, w[..i])|
    {
      FilterNext(IsSlow(c.latency), w, i);
      if w[i].latency > c.latency { n := n + 1; }
    }
    assert w[..|w|] == w;
  }

  // ---------------------------------------------------------------- runs

  function Run(c: Config, events: seq<Event>): Breaker {
    if events == [] then FRESH else Next(c, Run(c, events[..|events| - 1]), events[|events| - 1])
  }

  /** Everything ever recorded. */
  function History(events: seq<Event>): seq<Entry> {
    if events == [] then []
    else
      var h := History(events[..|events| - 1]);
      match events[|events| - 1]
      case Success(now) => h + [Entry(now, true, 200, 0.0)]
      case Failure(status, latency, now, _, _) => h + [Entry(now, false, status, latency)]
      case Look(_) => h
      case Override(_, _) => h
  }

  function Finish(e: Event): real { if e.Failure? then e.tripped else e.now }

  /** A monotonic clock: within a call and from one call to the next. */
  ghost predicate Clocked(events: seq<Event>) {
    && (forall i :: 0 <= i < |events| && events[i].Failure? ==> events[i].now <= events[i].checked <= events[i].tripped)
    && (forall i, j :: 0 <= i < j < |events| ==> Finish(events[i]) <= events[j].now)
  }

  function Trailing(h: seq<Entry>): nat {
    if h == [] || h[|h| - 1].ok then 0 else Trailing(h[..|h| - 1]) + 1
  }

  ghost predicate InTime(h: seq<Entry>) {
    forall i, j :: 0 <= i < j < |h| ==> h[i].ts <= h[j].ts
  }

  /** The deque is what is left of the history once entries before some past cutoff are gone. */
  ghost predicate Suffix(w: seq<Entry>, h: seq<Entry>, horizon: real) {
    |w| <= |h| && w == h[|h| - |w|..] && forall i :: 0 <= i < |h| - |w| ==> h[i].ts < horizon
  }

  ghost predicate WindowInv(c: Config, b: Breaker, h: seq<Entry>, clock: real) {
    && InTime(h) && (forall i :: 0 <= i < |h| ==> h[i].ts <= clock)
    && b.failures == Trailing(h)
    && Suffix(b.window, h, clock - c.window)
  }

  lemma {:induction false} PoppedSuffix(h: seq<Entry>, n: nat, cutoff: real)
    requires n <= |h| && InTime(h) && forall i :: 0 <= i < n ==> h[i].ts < cutoff
    ensures Suffix(Popped(h[n..], cutoff), h, cutoff)
    ensures Popped(h[n..], cutoff) == Recent(h, cutoff)
    decreases |h| - n
  {
    if n < |h| && h[n].ts < cutoff {
      PoppedSuffix(h, n + 1, cutoff);
      assert h[n..][1..] == h[n + 1..];
    } else {
      RecentSuffix(h, n, cutoff);
    }
  }

  /** What is left after popping is what the whole history holds since the cutoff. */
  lemma PoppedIsRecent(w: seq<Entry>, h: seq<Entry>, cutoff: real)
    requires InTime(h) && Suffix(w, h, cutoff)
    ensures Popped(w, cutoff) == Recent(h, cutoff) && Suffix(Popped(w, cutoff), h, cutoff)
  {
    PoppedSuffix(h, |h| - |w|, cutoff);
  }

  lemma RecentSuffix(h: seq<Entry>, n: nat, cutoff: real)
    requires n <= |h| && InTime(h) && (forall i :: 0 <= i < n ==> h[i].ts < cutoff) && (n < |h| ==> h[n].ts >= cutoff)
    ensures Recent(h, cutoff) == h[n..]
  {
    assert h == h[..n] + h[n..];
    FilterConcat(Since(cutoff), h[..n], h[n..]);
    FilterNone(Since(cutoff), h[..n]);
    FilterAll(Since(cutoff), h[n..]);
  }

  /** The failed calls with a server error, and the slow calls, since a cutoff. */
  ghost function ErrorsSince(h: seq<Entry>, cutoff: real): set<nat> {
    set i: nat | i < |h| && h[i].ts >= cutoff && !h[i].ok && 500 <= h[i].status < 600
  }

  ghost function SlowSince(h: seq<Entry>, cutoff: real, limit: real): set<nat> {
    set i: nat | i < |h| && h[i].ts >= cutoff && h[i].latency > limit
  }

  lemma ErrorsCounted(h: seq<Entry>, cutoff: real)
    ensures |Errors(Recent(h, cutoff))| == |ErrorsSince(h, cutoff)|
  {
    FilterTwice(Since(cutoff), IsError(), h);
    FilterSize(Both(Since(cutoff), IsError()), h);
    assert ErrorsSince(h, cutoff) == Passing(Both(Since(cutoff), IsError()), h);
  }

  lemma SlowCounted(c: Config, h: seq<Entry>, cutoff: real)
    ensures |Slow(c, Recent(h, cutoff))| == |SlowSince(h, cutoff, c.latency)|
  {
    FilterTwice(Since(cutoff), IsSlow(c.latency), h);
    FilterSize(Both(Since(cutoff), IsSlow(c.latency)), h);
    assert SlowSince(h, cutoff, c.latency) == Passing(Both(Since(cutoff), IsSlow(c.latency)), h);
  }

  /** The rule over the whole history, at a check. */
  ghost predicate Rule(c: Config, h: seq<Entry>, checked: real) {
    || Trailing(h) >= c.consecutive
    || |ErrorsSince(h, checked - c.window)| >= c.errors
    || |SlowSince(h, checked - c.window, c.latency)| >= c.slow
  }

  ghost predicate Ticks(clock: real, e: Event) {
    clock <= e.now && (e.Failure? ==> e.now <= e.checked <= e.tripped)
  }

  function Recorded(h: seq<Entry>, e: Event): seq<Entry> {
    if e.Success? || e.Failure? then h + [EntryOf(e)] else h
  }

  lemma SuffixGrows(w: seq<Entry>, h: seq<Entry>, horizon: real, later: real, entry: Entry)
    requires Suffix(w, h, horizon) && horizon <= later
    ensures Suffix(w, h, later) && Suffix(w + [entry], h + [entry], later)
  {
    var n := |h| - |w|;
    assert (h + [entry])[n..] == h[n..] + [entry];
  }

  lemma RuleByWindow(c: Config, h: seq<Entry>, checked: real)
    ensures Rule(c, h, checked) <==> Trailing(h) >= c.consecutive || Trips(c, Recent(h, checked - c.window))
  {
    ErrorsCounted(h, checked - c.window);
    SlowCounted(c, h, checked - c.window);
  }

  /** A check decides by the failures in a row and what popping leaves. */
  lemma CheckedByWindow(c: Config, s: Breaker, w: seq<Entry>, checked: real, tripped: real)
    requires Popped(s.window, checked - c.window) == w
    ensures var t := Checked(c, s, checked, tripped);
            && t.failures == s.failures && (t.window == s.window || t.window == w)
            && t == (if s.failures >= c.consecutive || Trips(c, w) then Opened(s.(window := t.window), tripped)
                     else s.(window := t.window))
  {
    assert s.(window := s.window) == s;
  }

  lemma CheckRefines(c: Config, s: Breaker, h: seq<Entry>, checked: real, tripped: real)
    requires InTime(h) && s.failures == Trailing(h) && Suffix(s.window, h, checked - c.window)
    ensures CheckedBy(c, s, h, checked, tripped, Rule(c, h, checked), Checked(c, s, checked, tripped))
  {
    PoppedIsRecent(s.window, h, checked - c.window);
    CheckedByWindow(c, s, Recent(h, checked - c.window), checked, tripped);
    RuleByWindow(c, h, checked);
  }

  lemma HistoryGrows(h: seq<Entry>, clock: real, entry: Entry)
    requires InTime(h) && (forall i :: 0 <= i < |h| ==> h[i].ts <= clock) && clock <= entry.ts
    ensures InTime(h + [entry]) && forall i :: 0 <= i < |h + [entry]| ==> (h + [entry])[i].ts <= entry.ts
    ensures Trailing(h + [entry]) == if entry.ok then 0 else Trailing(h) + 1
  {
    var more := h + [entry];
    assert more[..|h|] == h;
    assert forall i :: 0 <= i < |more| ==> more[i] == if i < |h| then h[i] else entry;
  }

  lemma NotedKeeps(c: Config, b: Breaker, h: seq<Entry>, clock: real, e: Event)
    requires WindowInv(c, b, h, clock) && Ticks(clock, e) && e.Failure?
    ensures WindowInv(c, Noted(b, e), Recorded(h, e), e.checked)
  {
    var entry := EntryOf(e);
    HistoryGrows(h, clock, entry);
    SuffixGrows(b.window, h, clock - c.window, e.now - c.window, entry);
    LaterKeeps(c, Noted(b, e), h + [entry], e.now, e.checked);
  }

  lemma LaterKeeps(c: Config, b: Breaker, h: seq<Entry>, clock: real, later: real)
    requires WindowInv(c, b, h, clock) && clock <= later
    ensures WindowInv(c, b, h, later)
  {
  }

  /** A breaker as a check leaves it, open if a rule held. */
  ghost predicate CheckedBy(c: Config, s: Breaker, h: seq<Entry>, checked: real, tripped: real, rule: bool,
                            t: Breaker)
  {
    && Suffix(t.window, h, checked - c.window) && t.failures == s.failures
    && t == (if rule then Opened(s.(window := t.window), tripped) else s.(window := t.window))
  }

  /** It keeps the invariant and opens by the rule. */
  lemma CheckKeeps(c: Config, s: Breaker, h: seq<Entry>, checked: real, tripped: real, rule: bool, t: Breaker)
    requires WindowInv(c, s, h, checked) && checked <= tripped && s.mode.Closed?
    requires CheckedBy(c, s, h, checked, tripped, rule, t)
    ensures WindowInv(c, t, h, tripped) && t.mode == if rule then Open else Closed
  {
    LaterKeeps(c, t, h, checked, tripped);
  }

  lemma ClosedFailure(c: Config, b: Breaker, h: seq<Entry>, e: Event)
    requires e.Failure? && b.mode.Closed? && e.checked <= e.tripped && WindowInv(c, Noted(b, e), h, e.checked)
    ensures WindowInv(c, Next(c, b, e), h, e.tripped)
    ensures Next(c, b, e).mode == if Rule(c, h, e.checked) then Open else Closed
  {
    var s, t := Noted(b, e), Next(c, b, e);
    assert t == Checked(c, s, e.checked, e.tripped);
    CheckRefines(c, s, h, e.checked, e.tripped);
    CheckKeeps(c, s, h, e.checked, e.tripped, Rule(c, h, e.checked), t);
  }

  lemma OtherFailure(c: Config, b: Breaker, h: seq<Entry>, e: Event)
    requires e.Failure? && !b.mode.Closed? && e.checked <= e.tripped && WindowInv(c, Noted(b, e), h, e.checked)
    ensures WindowInv(c, Next(c, b, e), h, e.tripped)
  {
    LaterKeeps(c, Next(c, b, e), h, e.checked, e.tripped);
  }

  lemma FailureKeeps(c: Config, b: Breaker, h: seq<Entry>, clock: real, e: Event)
    requires WindowInv(c, b, h, clock) && Ticks(clock, e) && e.Failure?
    ensures WindowInv(c, Next(c, b, e), Recorded(h, e), e.tripped)
    ensures b.mode.Closed? ==> Next(c, b, e).mode == if Rule(c, Recorded(h, e), e.checked) then Open else Closed
  {
    NotedKeeps(c, b, h, clock, e);
    if b.mode.Closed? {
      ClosedFailure(c, b, Recorded(h, e), e);
    } else {
      OtherFailure(c, b, Recorded(h, e), e);
    }
  }

  lemma SuccessKeeps(c: Config, b: Breaker, h: seq<Entry>, clock: real, now: real)
    requires WindowInv(c, b, h, clock) && clock <= now
    ensures WindowInv(c, Next(c, b, Success(now)), Recorded(h, Success(now)), now)
  {
    var entry := EntryOf(Success(now));
    HistoryGrows(h, clock, entry);
    SuffixGrows(b.window, h, clock - c.window, now - c.window, entry);
  }

  ghost function Clock(events: seq<Event>, start: real): real {
    if events == [] then start else Finish(events[|events| - 1])
  }

  lemma ClockedInit(events: seq<Event>)
    requires Clocked(events) && events != []
    ensures var most, e := events[..|events| - 1], events[|events| - 1];
            Clocked(most) && Ticks(Clock(most, e.now), e)
  {
    var most := events[..|events| - 1];
    assert forall i :: 0 <= i < |most| ==> most[i] == events[i];
  }

  lemma EventKeeps(c: Config, b: Breaker, h: seq<Entry>, clock: real, e: Event)
    requires WindowInv(c, b, h, clock) && Ticks(clock, e)
    ensures WindowInv(c, Next(c, b, e), Recorded(h, e), Finish(e))
  {
    match e
    case Failure(_, _, _, _, _) => FailureKeeps(c, b, h, clock, e);
    case Success(now) => SuccessKeeps(c, b, h, clock, now);
    case Look(now) => LaterKeeps(c, Next(c, b, e), h, clock, now);
    case Override(_, now) => LaterKeeps(c, Next(c, b, e), h, clock, now);
  }

  /** Over every run, overrides included, the deque is a time-sorted suffix of all that was
      recorded, and the failure counter is the length of the trailing run of failures. */
  lemma {:induction false} WindowRefinesHistory(c: Config, events: seq<Event>, start: real)
    requires Clocked(events) && (events != [] ==> start <= events[0].now)
    ensures WindowInv(c, Run(c, events), History(events), Clock(events, start))
  {
    if events != [] {
      var most, e := events[..|events| - 1], events[|events| - 1];
      ClockedInit(events);
      WindowRefinesHistory(c, most, start);
      assert most == [] ==> e == events[0];
      assert Ticks(Clock(most, start), e);
      EventKeeps(c, Run(c, most), History(most), Clock(most, start), e);
    }
  }

  /** A failure recorded in CLOSED opens the breaker exactly when a rule holds over the whole
      history: the trailing failures, or the 5xx or slow entries of the last window. */
  lemma OpensExactly(c: Config, events: seq<Event>, e: Event)
    requires e.Failure? && Clocked(events + [e]) && Run(c, events).mode.Closed?
    ensures Run(c, events + [e]).mode == if Rule(c, History(events + [e]), e.checked) then Open else Closed
  {
    var all := events + [e];
    assert all[..|events|] == events;
    ClockedInit(all);
    var start := if events == [] then e.now else events[0].now;
    WindowRefinesHistory(c, events, start);
    FailureKeeps(c, Run(c, events), History(events), Clock(events, start), e);
  }

  // ---------------------------------------------------------------- without override

  ghost predicate NoOverride(events: seq<Event>) {
    forall i :: 0 <= i < |events| ==> !events[i].Override?
  }

  /** CLOSED keeps the consecutive failures below the threshold. */
  lemma {:induction false} ClosedStaysBelow(c: Config, events: seq<Event>)
    requires c.consecutive >= 1 && NoOverride(events)
    ensures Run(c, events).mode.Closed? ==> Run(c, events).failures < c.consecutive
  {
    if events != [] { ClosedStaysBelow(c, events[..|events| - 1]); }
  }

  /** The breaker opened at step `i`, by a failure, and has been open since. */
  ghost predicate OpenSince(c: Config, events: seq<Event>, i: nat) {
    && i < |events| && events[i].Failure?
    && !Run(c, events[..i]).mode.Open?
    && (forall k :: i < k <= |events| ==> Run(c, events[..k]).mode.Open?)
    && Run(c, events).openedAt == Some(events[i].tripped)
  }

  lemma StaysOpenSince(c: Config, events: seq<Event>, e: Event, i: nat)
    requires OpenSince(c, events, i) && !e.Override? && Run(c, events + [e]).mode.Open?
    ensures OpenSince(c, events + [e], i)
  {
    var all := events + [e];
    assert all[..|events|] == events && all[..|all|] == all && all[..i] == events[..i];
    forall k | i < k <= |all| ensures Run(c, all[..k]).mode.Open? {
      if k <= |events| { assert all[..k] == events[..k]; }
    }
  }

  lemma {:induction false} OpenSinceFailure(c: Config, events: seq<Event>)
    requires NoOverride(events) && Run(c, events).mode.Open?
    ensures exists i: nat :: OpenSince(c, events, i)
  {
    var most, e := events[..|events| - 1], events[|events| - 1];
    assert events == most + [e] && events[..|most|] == most && events[..|events|] == events;
    if Run(c, most).mode.Open? {
      OpenSinceFailure(c, most);
      var i: nat :| OpenSince(c, most, i);
      StaysOpenSince(c, most, e, i);
    } else {
      assert OpenSince(c, events, |most|);
    }
  }

  /** HALF_OPEN is entered exactly by a look at a breaker that has been open for the full delay
      since the failure that opened it. */
  lemma HalfOpenExactly(c: Config, events: seq<Event>, e: Event)
    requires NoOverride(events + [e]) && !Run(c, events).mode.HalfOpen?
    ensures Run(c, events + [e]).mode.HalfOpen? <==>
            e.Look? && exists i: nat :: OpenSince(c, events, i) && e.now - events[i].tripped >= c.delay
  {
    var all := events + [e];
    assert all[..|events|] == events && all[|events|] == e && events[..|events|] == events;
    forall i | 0 <= i < |events| ensures !events[i].Override? { assert all[i] == events[i]; }
    HalfOpenByLook(c, Run(c, events), e);
    if Run(c, events).mode.Open? { OpenSinceFailure(c, events); }
  }

  lemma HalfOpenByLook(c: Config, b: Breaker, e: Event)
    requires !e.Override? && !b.mode.HalfOpen?
    ensures Next(c, b, e).mode.HalfOpen? <==>
            e.Look? && b.mode.Open? && b.openedAt.Some? && e.now - b.openedAt.value >= c.delay
  {
  }

  /** A probe decides: CLOSED is entered exactly by a success in HALF_OPEN, which also clears the
      failures, or by an operator; a failure in HALF_OPEN opens again, from its own time on. */
  lemma ProbeDecides(c: Config, events: seq<Event>, e: Event)
    ensures var b, t := Run(c, events), Run(c, events + [e]);
            && (t.mode.Closed? && !b.mode.Closed? <==>
                (e.Success? && b.mode.HalfOpen?) || (e.Override? && e.mode.Closed? && !b.mode.Closed?))
            && (e.Success? && b.mode.HalfOpen? ==> t.failures == 0 && t.openedAt.None?)
            && (e.Failure? && b.mode.HalfOpen? ==> t.mode.Open? && t.openedAt == Some(e.tripped))
  {
    assert (events + [e])[..|events|] == events;
  }

  /** An operator's mode holds until the next transition, and OPEN counts from when it was set; a
      call that finds the breaker open, or in any further mode, leaves it there. */
  lemma OverrideHolds(c: Config, events: seq<Event>, e: Event)
    ensures var b, t := Run(c, events), Run(c, events + [e]);
            && (e.Override? ==> t.mode == e.mode && t.overridden && (e.mode.Open? ==> t.openedAt == Some(e.now)))
            && ((e.Success? || e.Failure?) && !b.mode.Closed? && !b.mode.HalfOpen? ==>
                t.mode == b.mode && t.openedAt == b.openedAt)
            && (!e.Override? ==> t.overridden == b.overridden)
  {
    assert (events + [e])[..|events|] == events;
  }
}
