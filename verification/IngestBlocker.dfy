/** The ingest blocker of `ingest_blocker.py`: hysteresis over capacity reports, and a forced
    block that nothing releases.  Ratios are reals. */
module IngestBlocker {
  datatype Layers = Layers(wal: real, l1: real, nas: real, host: real)
  datatype Level = Normal | WarnDrain | Blocked
  datatype Config = Config(critical: real, warn: real, gap: real)
  datatype Blocker = Blocker(level: Level, forced: bool)
  datatype Call = Report(layers: Layers) | CapacityWarn | CapacityCritical

  const FRESH := Blocker(Normal, false)

  function Larger(a: real, b: real): real { if a < b then b else a }
  function Peak(r: Layers): real { Larger(Larger(r.wal, r.l1), Larger(r.nas, r.host)) }
  function Unblock(c: Config): real { c.critical - c.gap }

  function Next(c: Config, b: Blocker, call: Call): Blocker {
    match call
    case CapacityWarn => if b.level.Normal? then b.(level := WarnDrain) else b
    case CapacityCritical => Blocker(Blocked, true)
    case Report(r) =>
      if b.forced then b
      else if Peak(r) >= c.critical then b.(level := Blocked)
      else if b.level.Blocked? then (if Peak(r) >= Unblock(c) then b else b.(level := Normal))
      else if Peak(r) >= c.warn then b.(level := WarnDrain)
      else b.(level := Normal)
  }

  function IsBlocked(b: Blocker): bool { b.level.Blocked? || b.forced }

  // ---------------------------------------------------------------- history

  function Run(c: Config, calls: seq<Call>): Blocker {
    if calls == [] then FRESH else Next(c, Run(c, calls[..|calls| - 1]), calls[|calls| - 1])
  }

  /** Some layer is at or above a ratio. */
  predicate SomeAt(r: Layers, ratio: real) { r.wal >= ratio || r.l1 >= ratio || r.nas >= ratio || r.host >= ratio }

  predicate Climbs(c: Config, call: Call) { call.Report? && SomeAt(call.layers, c.critical) }
  predicate Falls(c: Config, call: Call) { call.Report? && !SomeAt(call.layers, c.critical - c.gap) }

  predicate Forced(calls: seq<Call>) { exists i :: 0 <= i < |calls| && calls[i].CapacityCritical? }

  /** A report reached critical and none since has fallen below the unblock level. */
  predicate Latched(c: Config, calls: seq<Call>, i: nat) {
    i < |calls| && Climbs(c, calls[i]) && forall j :: i < j < |calls| ==> !Falls(c, calls[j])
  }

  predicate BlockedByHistory(c: Config, calls: seq<Call>) {
    Forced(calls) || exists i :: 0 <= i < |calls| && Latched(c, calls, i)
  }

  lemma HistoryNext(c: Config, calls: seq<Call>, call: Call)
    ensures Forced(calls + [call]) <==> Forced(calls) || call.CapacityCritical?
    ensures (exists i :: 0 <= i < |calls| + 1 && Latched(c, calls + [call], i)) <==>
            Climbs(c, call) || (!Falls(c, call) && exists i :: 0 <= i < |calls| && Latched(c, calls, i))
  {
    var all := calls + [call];
    assert all[|calls|] == call && forall i :: 0 <= i < |calls| ==> all[i] == calls[i];
    if Climbs(c, call) { assert Latched(c, all, |calls|); }
    if i :| 0 <= i < |calls| && Latched(c, calls, i) {
      if !Falls(c, call) { assert Latched(c, all, i); }
    }
    if i :| 0 <= i < |calls| + 1 && Latched(c, all, i) {
      if i < |calls| { assert Latched(c, calls, i); }
    }
  }

  /** After any calls, ingest is blocked exactly when the history says so. */
  lemma {:induction false} BlocksExactly(c: Config, calls: seq<Call>)
    ensures IsBlocked(Run(c, calls)) <==> BlockedByHistory(c, calls)
    ensures Run(c, calls).forced <==> Forced(calls)
    ensures Forced(calls) ==> Run(c, calls).level.Blocked?
  {
    if calls != [] {
      var most, call := calls[..|calls| - 1], calls[|calls| - 1];
      BlocksExactly(c, most);
      HistoryNext(c, most, call);
      assert calls == most + [call];
    }
  }

  /** The last thing that happened to an open gate: a warning, or a report with a layer at the
      warning level. */
  predicate Warns(c: Config, calls: seq<Call>, i: nat) {
    && i < |calls| && !BlockedByHistory(c, calls[..i])
    && (calls[i].CapacityWarn? || (calls[i].Report? && SomeAt(calls[i].layers, c.warn)))
    && forall j :: i < j < |calls| ==> !calls[j].Report?
  }

  predicate WarnedByHistory(c: Config, calls: seq<Call>) {
    !BlockedByHistory(c, calls) && exists i :: 0 <= i < |calls| && Warns(c, calls, i)
  }

  lemma WarnsNext(c: Config, calls: seq<Call>, call: Call)
    ensures (exists i :: 0 <= i < |calls| + 1 && Warns(c, calls + [call], i)) <==>
            || (!BlockedByHistory(c, calls)
                && (call.CapacityWarn? || (call.Report? && SomeAt(call.layers, c.warn))))
            || (!call.Report? && exists i :: 0 <= i < |calls| && Warns(c, calls, i))
  {
    var all := calls + [call];
    assert all[..|calls|] == calls && all[|calls|] == call;
    assert forall i :: 0 <= i < |calls| ==> all[i] == calls[i] && all[..i] == calls[..i];
    if i :| 0 <= i < |calls| && Warns(c, calls, i) {
      if !call.Report? { assert Warns(c, all, i); }
    }
    if i :| 0 <= i < |all| && Warns(c, all, i) {
      if i < |calls| { assert Warns(c, calls, i) && all[|calls|] == call; }
    }
    if !BlockedByHistory(c, calls) && (call.CapacityWarn? || (call.Report? && SomeAt(call.layers, c.warn))) {
      assert Warns(c, all, |calls|);
    }
  }

  /** One call's effect on the level of a blocker that is blocked whenever it is forced. */
  lemma NextLevel(c: Config, b: Blocker, call: Call)
    requires b.forced ==> b.level.Blocked?
    ensures Next(c, b, call).level ==
            match call
            case CapacityWarn => if b.level.Normal? then WarnDrain else b.level
            case CapacityCritical => Blocked
            case Report(r) =>
              if b.forced || SomeAt(r, c.critical) then Blocked
              else if b.level.Blocked? then (if SomeAt(r, c.critical - c.gap) then Blocked else Normal)
              else if SomeAt(r, c.warn) then WarnDrain else Normal
  {
  }

  /** The level in full: blocked by the history, draining exactly when the history warns, and
      otherwise normal. */
  lemma {:induction false} LevelExactly(c: Config, calls: seq<Call>)
    ensures Run(c, calls).level == if BlockedByHistory(c, calls) then Blocked
                                   else if WarnedByHistory(c, calls) then WarnDrain else Normal
  {
    BlocksExactly(c, calls);
    if calls != [] {
      var most, call := calls[..|calls| - 1], calls[|calls| - 1];
      LevelExactly(c, most);
      BlocksExactly(c, most);
      WarnsNext(c, most, call);
      NextLevel(c, Run(c, most), call);
      assert calls == most + [call];
    }
  }

  /** The next state, and what it answers. */
  lemma AnsweredByHistory(c: Config, calls: seq<Call>, call: Call)
    ensures Run(c, calls + [call]) == Next(c, Run(c, calls), call)
    ensures IsBlocked(Next(c, Run(c, calls), call)) <==> BlockedByHistory(c, calls + [call])
  {
    assert (calls + [call])[..|calls|] == calls;
    BlocksExactly(c, calls + [call]);
  }

  /** Once released, blocking again needs a new report at critical or a forced block. */
  lemma FreshClimb(c: Config, before: seq<Call>, after: seq<Call>)
    requires !IsBlocked(Run(c, before)) && IsBlocked(Run(c, before + after))
    ensures exists i :: 0 <= i < |after| && (Climbs(c, after[i]) || after[i].CapacityCritical?)
  {
    var all, n := before + after, |before|;
    BlocksExactly(c, before);
    BlocksExactly(c, all);
    assert forall i :: 0 <= i < n ==> all[i] == before[i];
    assert forall i :: n <= i < |all| ==> all[i] == after[i - n];
    if Forced(all) {
      var i :| 0 <= i < |all| && all[i].CapacityCritical?;
      assert i >= n && after[i - n].CapacityCritical?;
    } else {
      var i :| 0 <= i < |all| && Latched(c, all, i);
      if i < n { assert Latched(c, before, i); }
      assert Climbs(c, after[i - n]);
    }
  }

  // ---------------------------------------------------------------- code

  class Gatekeeper {
    const config: Config
    var level: Level
    var forced: bool
    ghost var calls: seq<Call>

    ghost predicate Valid()
      reads this
    {
      Blocker(level, forced) == Run(config, calls)
    }

    constructor (config: Config)
      ensures Valid() && calls == [] && this.config == config
    {
      this.config, level, forced, calls := config, Normal, false, [];
    }

    /** The answer is that of the whole history, this report included. */
    method ShouldBlock(report: Layers) returns (block: bool)
      requires Valid()
      modifies this
      ensures Valid() && calls == old(calls) + [Report(report)]
      ensures block <==> BlockedByHistory(config, calls)
    {
      AnsweredByHistory(config, calls, Report(report));
      calls := calls + [Report(report)];
      if forced { return true; }
      var ratios := [report.wal, report.l1, report.nas, report.host];
      var peak := MaxRatio(ratios);
      assert ratios[0] <= peak && ratios[1] <= peak && ratios[2] <= peak && ratios[3] <= peak;
      if peak >= config.critical {
        level := Blocked;
        return true;
      } else if level == Blocked {
        if peak >= Unblock(config) { return true; }
        level := Normal;
        return false;
      } else {
        level := if peak >= config.warn then WarnDrain else Normal;
        return false;
      }
    }

    method OnCapacityWarn()
      requires Valid()
      modifies this
      ensures Valid() && calls == old(calls) + [CapacityWarn]
    {
      calls := calls + [CapacityWarn];
      assert calls[..|calls| - 1] == old(calls);
      if level == Normal { level := WarnDrain; }
    }

    method OnCapacityCritical()
      requires Valid()
      modifies this
      ensures Valid() && calls == old(calls) + [CapacityCritical]
    {
      calls := calls + [CapacityCritical];
      assert calls[..|calls| - 1] == old(calls);
      forced, level := true, Blocked;
    }

    method ReadBlocked() returns (block: bool)
      requires Valid()
      ensures block <==> BlockedByHistory(config, calls)
    {
      BlocksExactly(config, calls);
      return level == Blocked || forced;
    }

    method ReadState() returns (state: Level)
      requires Valid()
      ensures state == if BlockedByHistory(config, calls) then Blocked
                       else if WarnedByHistory(config, calls) then WarnDrain else Normal
    {
      LevelExactly(config, calls);
      return level;
    }
  }

  /** `max` of the layer ratios. */
  method MaxRatio(ratios: seq<real>) returns (m: real)
    requires ratios != []
    ensures m in ratios && forall i :: 0 <= i < |ratios| ==> ratios[i] <= m
  {
    m := ratios[0];
    for i := 1 to |ratios|
      invariant m in ratios && forall k :: 0 <= k < i ==> ratios[k] <= m
    {
      if ratios[i] > m { m := ratios[i]; }
    }
  }
}
