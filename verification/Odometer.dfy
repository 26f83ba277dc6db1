/** Run-hours accounting, the linear fuel model and the low-fuel alert (genpi/state.py, genpi/fuel.py).
    Times are seconds, levels percent, rates percent per hour; arithmetic is over the reals. */
module Odometer {
  import opened Prelude

  const MAX_TOTAL_HOURS := 1000000.0
  const REARM_MARGIN := 5.0
  const MIN_RUN_SINCE_FILL := 0.05
  const MIN_RATE := 0.1

  // ------------------------------------------------------------- rounding

  /** Python's round() on an exact value: ties go to the even neighbour. */
  function RoundHalfEven(x: real): (n: int)
    ensures -0.5 <= n as real - x <= 0.5
    ensures n as real - x == 0.5 || n as real - x == -0.5 ==> n % 2 == 0
  {
    var f := x.Floor;
    var part := x - f as real;
    if part < 0.5 then f else if part > 0.5 then f + 1 else if f % 2 == 0 then f else f + 1
  }

  function Round1(x: real): real {
    RoundHalfEven(x * 10.0) as real / 10.0
  }

  function Round3(x: real): real {
    RoundHalfEven(x * 1000.0) as real / 1000.0
  }

  /** int(): truncation toward zero. */
  function Trunc(x: real): int {
    if x >= 0.0 then x.Floor else -((-x).Floor)
  }

  function Clamp(x: real, lo: real, hi: real): real {
    MaxReal(lo, MinReal(hi, x))
  }

  // ------------------------------------------------------------- specification

  datatype State = State(
    running: bool, startedAt: Option<real>, totalHours: real,
    fillLevel: real, fillRunHours: real, drainRate: real, defaultRate: real,
    alertsOn: bool, threshold: int, fuelEnabled: bool, alerted: bool)

  datatype Action = Push | Rearm | Skip

  function Hours(from: real, to: real): real {
    MaxReal(0.0, (to - from) / 3600.0)
  }

  function Live(s: State, now: real): real {
    if s.running && s.startedAt.Some? then s.totalHours + Hours(s.startedAt.value, now) else s.totalHours
  }

  function RunSinceFill(s: State, now: real): real {
    MaxReal(0.0, Live(s, now) - s.fillRunHours)
  }

  /** The plain linear drain. */
  function Linear(level: real, rate: real, run: real): (left: real)
    ensures level - rate * run < 0.0 ==> left == 0.0
    ensures 0.0 <= level - rate * run <= 100.0 ==> left == level - rate * run
    ensures level - rate * run > 100.0 ==> left == 100.0
  {
    Clamp(level - rate * run, 0.0, 100.0)
  }

  function Projected(s: State, now: real): real {
    Linear(s.fillLevel, s.drainRate, RunSinceFill(s, now))
  }

  function Marked(s: State, on: bool, now: real): State {
    if on && !s.running then s.(running := true, startedAt := Some(now))
    else if !on && s.running then
      s.(running := false, startedAt := None,
         totalHours := s.totalHours + (if s.startedAt.Some? then Hours(s.startedAt.value, now) else 0.0))
    else s
  }

  /** The value an operator's entry is stored as. */
  function Entered(hours: real): real {
    Round3(Clamp(hours, 0.0, MAX_TOTAL_HOURS))
  }

  /** The clock is read at t1 for the old total and, while running, again at t2 for the new start. */
  function Corrected(s: State, hours: real, t1: real, t2: real): State {
    var h := Entered(hours);
    s.(totalHours := h,
       startedAt := if s.running then Some(t2) else s.startedAt,
       fillRunHours := MaxReal(0.0, h - RunSinceFill(s, t1)))
  }

  function Filled(s: State, level: real, now: real): State {
    s.(fillLevel := Clamp(level, 0.0, 100.0), fillRunHours := Live(s, now), alerted := false)
  }

  function Reading(s: State, level: real, now: real): State {
    var run := RunSinceFill(s, now);
    if run < MIN_RUN_SINCE_FILL then s
    else
      var rate := MaxReal(MIN_RATE, (s.fillLevel - Clamp(level, 0.0, 100.0)) / run);
      s.(drainRate := Round1(0.5 * s.drainRate + 0.5 * rate))
  }

  function RateSet(s: State, rate: real): State {
    s.(drainRate := MaxReal(MIN_RATE, Round1(rate)))
  }

  function RateReset(s: State): State {
    s.(drainRate := Round1(s.defaultRate))
  }

  function Alerting(s: State, on: Option<bool>, threshold: Option<real>, fuel: Option<bool>): State {
    s.(alertsOn := if on.Some? then on.value else s.alertsOn,
       threshold := if threshold.Some? then Max(5, Min(40, Trunc(threshold.value))) else s.threshold,
       fuelEnabled := if fuel.Some? then fuel.value else s.fuelEnabled)
  }

  function Evaluated(s: State, now: real): (State, Action) {
    if !s.fuelEnabled || !s.alertsOn then (s, Skip)
    else if !s.running then (s.(alerted := false), Skip)
    else
      var level := Projected(s, now);
      if level <= s.threshold as real && !s.alerted then (s.(alerted := true), Push)
      else if level > s.threshold as real + REARM_MARGIN && s.alerted then (s.(alerted := false), Rearm)
      else (s, Skip)
  }

  // ------------------------------------------------------------- the mutable state

  class Controller {
    // generator_state
    var running: bool
    var startedAt: Option<real>
    var totalHours: real
    // fuel_state
    var fillLevel: real
    var fillRunHours: real
    var drainRate: real
    const defaultRate: real
    // alerts_state and the edge flag
    var alertsOn: bool
    var threshold: int
    var fuelEnabled: bool
    var alerted: bool

    ghost function Abs(): State
      reads this
    {
      State(running, startedAt, totalHours, fillLevel, fillRunHours, drainRate, defaultRate,
            alertsOn, threshold, fuelEnabled, alerted)
    }

    constructor (total: real, level: real, fillMark: real, rate: real, defaultRate: real)
      ensures Abs() == State(false, None, total, level, fillMark, rate, defaultRate, true, 20, true, false)
    {
      running, startedAt, totalHours := false, None, total;
      fillLevel, fillRunHours, drainRate, this.defaultRate := level, fillMark, rate, defaultRate;
      alertsOn, threshold, fuelEnabled, alerted := true, 20, true, false;
    }

    method LiveTotal(now: real) returns (hours: real)
      ensures hours == Live(Abs(), now)
    {
      hours := totalHours;
      if running && startedAt.Some? {
        hours := hours + MaxReal(0.0, (now - startedAt.value) / 3600.0);
      }
    }

    method ProjectedLevel(now: real) returns (level: real)
      ensures level == Projected(Abs(), now)
    {
      var live := LiveTotal(now);
      var run := MaxReal(0.0, live - fillRunHours);
      level := MaxReal(0.0, MinReal(100.0, fillLevel - drainRate * run));
      assert level == Linear(fillLevel, drainRate, run);
    }

    method ApplyRunningTransition(newRunning: bool, now: real)
      modifies this
      ensures Abs() == Marked(old(Abs()), newRunning, now)
    {
      if newRunning && !running {
        startedAt := Some(now);
      } else if !newRunning && running {
        if startedAt.Some? {
          totalHours := totalHours + MaxReal(0.0, (now - startedAt.value) / 3600.0);
        }
        startedAt := None;
      }
      running := newRunning;
    }

    method SetTotalRunHours(requested: real, t1: real, t2: real) returns (oldLive: real, hours: real)
      modifies this
      ensures Abs() == Corrected(old(Abs()), requested, t1, t2)
      ensures oldLive == Live(old(Abs()), t1) && hours == Entered(requested)
    {
      hours := Round3(MaxReal(0.0, MinReal(MAX_TOTAL_HOURS, requested)));
      oldLive := LiveTotal(t1);
      var runSinceFill := MaxReal(0.0, oldLive - fillRunHours);
      totalHours := hours;
      if running {
        startedAt := Some(t2);
      }
      fillRunHours := MaxReal(0.0, hours - runSinceFill);
    }

    method SetFuelFill(level: real, now: real)
      modifies this
      ensures Abs() == Filled(old(Abs()), level, now) && !alerted
      ensures fillLevel == if level < 0.0 then 0.0 else if level > 100.0 then 100.0 else level
    {
      fillLevel := Clamp(level, 0.0, 100.0);
      fillRunHours := LiveTotal(now);
      alerted := false;
    }

    method RecordFuelReading(observed: real, now: real) returns (rate: real)
      modifies this
      ensures Abs() == Reading(old(Abs()), observed, now) && rate == drainRate
    {
      var level := Clamp(observed, 0.0, 100.0);
      var live := LiveTotal(now);
      var runSinceFill := MaxReal(0.0, live - fillRunHours);
      if runSinceFill < MIN_RUN_SINCE_FILL {
        return drainRate;
      }
      var newRate := MaxReal(MIN_RATE, (fillLevel - level) / runSinceFill);
      drainRate := Round1(0.5 * drainRate + 0.5 * newRate);
      rate := drainRate;
    }

    method SetFuelRate(rate: real)
      modifies this
      ensures Abs() == RateSet(old(Abs()), rate)
      ensures Abs() == old(Abs()).(drainRate := drainRate)
      ensures drainRate >= 0.1 && (rate < 0.05 ==> drainRate == 0.1)
      ensures rate >= 0.1 ==> -0.05 <= drainRate - rate <= 0.05
    {
      drainRate := MaxReal(MIN_RATE, Round1(rate));
    }

    method ResetFuelRate()
      modifies this
      ensures Abs() == RateReset(old(Abs())) && Abs() == old(Abs()).(drainRate := drainRate)
      ensures -0.05 <= drainRate - defaultRate <= 0.05
    {
      drainRate := Round1(defaultRate);
    }

    method SetAlerts(on: Option<bool>, level: Option<real>, fuel: Option<bool>)
      modifies this
      ensures Abs() == Alerting(old(Abs()), on, level, fuel)
      ensures alertsOn == on.GetOr(old(alertsOn)) && fuelEnabled == fuel.GetOr(old(fuelEnabled))
      ensures level.None? ==> threshold == old(threshold)
      ensures level.Some? ==>
                5 <= threshold <= 40 && (5.0 <= level.value < 41.0 ==> 0.0 <= level.value - threshold as real < 1.0)
    {
      if on.Some? { alertsOn := on.value; }
      if level.Some? { threshold := Max(5, Min(40, Trunc(level.value))); }
      if fuel.Some? { fuelEnabled := fuel.value; }
    }

    method EvaluateLowFuel(now: real) returns (action: Action)
      modifies this
      ensures (Abs(), action) == Evaluated(old(Abs()), now)
    {
      if !fuelEnabled || !alertsOn {
        return Skip;
      }
      if !running {
        alerted := false;
        return Skip;
      }
      var level := ProjectedLevel(now);
      if level <= threshold as real && !alerted {
        alerted := true;
        return Push;
      } else if level > threshold as real + REARM_MARGIN && alerted {
        alerted := false;
        return Rearm;
      }
      return Skip;
    }
  }

  // ------------------------------------------------------------- histories

  datatype Event =
    | Mark(on: bool, now: real)
    | Correct(hours: real, now: real, later: real)
    | Fill(level: real, now: real)
    | Observe(level: real, now: real)
    | SetRate(rate: real, now: real)
    | ResetRate(now: real)
    | SetAlerts(enabled: Option<bool>, limit: Option<real>, fuel: Option<bool>, now: real)
    | Evaluate(now: real)

  function End(e: Event): real {
    if e.Correct? then e.later else e.now
  }

  function Next(s: State, e: Event): State {
    match e
    case Mark(on, now) => Marked(s, on, now)
    case Correct(hours, now, later) => Corrected(s, hours, now, later)
    case Fill(level, now) => Filled(s, level, now)
    case Observe(level, now) => Reading(s, level, now)
    case SetRate(rate, _) => RateSet(s, rate)
    case ResetRate(_) => RateReset(s)
    case SetAlerts(enabled, limit, fuel, _) => Alerting(s, enabled, limit, fuel)
    case Evaluate(now) => Evaluated(s, now).0
  }

  predicate Ordered(es: seq<Event>, clock: real)
    decreases |es|
  {
    es != [] ==> clock <= es[0].now <= End(es[0]) && Ordered(es[1..], End(es[0]))
  }

  function Run(s: State, es: seq<Event>): State
    decreases |es|
  {
    if es == [] then s else Run(Next(s, es[0]), es[1..])
  }

  function EndClock(es: seq<Event>, clock: real): real
    decreases |es|
  {
    if es == [] then clock else EndClock(es[1..], End(es[0]))
  }

  /** Independent bookkeeping of what really happened: whether the engine is marked running, the last
      odometer base, the time run since that base and since the last fill, and how much of the latter
      the corrections have hidden. The instants inside a correction count for neither. */
  datatype Truth = Truth(running: bool, clock: real, base: real, sinceBase: real,
                         sinceFill: real, hidden: real, covered: bool, level: real)

  function Passed(w: Truth, now: real): Truth {
    var ran := if w.running then (now - w.clock) / 3600.0 else 0.0;
    w.(clock := now, sinceBase := w.sinceBase + ran, sinceFill := w.sinceFill + ran)
  }

  function Witness(w: Truth, e: Event): Truth {
    var p := Passed(w, e.now);
    match e
    case Mark(on, _) => p.(running := on)
    case Correct(hours, _, later) =>
      var seen := p.sinceFill - p.hidden;
      p.(clock := later, base := Entered(hours), sinceBase := 0.0,
         hidden := p.hidden + MaxReal(0.0, seen - Entered(hours)),
         covered := p.covered && Entered(hours) >= seen)
    case Fill(level, _) =>
      p.(sinceFill := 0.0, hidden := 0.0, covered := true,
         level := if level < 0.0 then 0.0 else if level > 100.0 then 100.0 else level)
    case _ => p
  }

  function Story(w: Truth, es: seq<Event>): Truth
    decreases |es|
  {
    if es == [] then w else Story(Witness(w, es[0]), es[1..])
  }

  /** The stored state agrees with what happened. */
  ghost predicate Agrees(s: State, w: Truth) {
    && s.running == w.running && (s.running <==> s.startedAt.Some?)
    && (s.startedAt.Some? ==> s.startedAt.value <= w.clock)
    && s.totalHours >= 0.0
    && Live(s, w.clock) == w.base + w.sinceBase
    && Live(s, w.clock) - s.fillRunHours == w.sinceFill - w.hidden >= 0.0
    && w.hidden >= 0.0 && (w.covered <==> w.hidden == 0.0) && s.fillLevel == w.level
  }

  lemma LivePasses(s: State, w: Truth, now: real)
    requires Agrees(s, w) && w.clock <= now
    ensures Agrees(s, Passed(w, now))
  {
  }

  lemma EnteredInRange(hours: real)
    ensures 0.0 <= Entered(hours) <= MAX_TOTAL_HOURS
  {
    var x := Clamp(hours, 0.0, MAX_TOTAL_HOURS) * 1000.0;
    assert 0.0 <= x <= 1000000000.0;
    var n := RoundHalfEven(x);
    assert -0.5 <= n as real <= 1000000000.5;
    assert 0 <= n <= 1000000000;
  }

  predicate Whole(x: real) {
    x == x.Floor as real
  }

  lemma IntIsWhole(n: int)
    ensures Whole(n as real)
  {
  }

  lemma RoundOfWhole(n: int)
    ensures RoundHalfEven(n as real) == n
  {
  }

  /** Round3 is the nearest multiple of a thousandth, Round1 of a tenth. */
  lemma RoundedExactly(x: real)
    ensures -0.0005 <= Round3(x) - x <= 0.0005 && Round3(x) * 1000.0 == RoundHalfEven(x * 1000.0) as real
    ensures -0.05 <= Round1(x) - x <= 0.05 && Round1(x) * 10.0 == RoundHalfEven(x * 10.0) as real
  {
  }

  /** An entry is stored to the nearest thousandth of an hour, between 0 and a million hours. */
  lemma EnteredExactly(hours: real)
    ensures hours <= 0.0 ==> Entered(hours) == 0.0
    ensures hours >= 1000000.0 ==> Entered(hours) == 1000000.0
    ensures 0.0 <= hours <= 1000000.0 ==> -0.0005 <= Entered(hours) - hours <= 0.0005
    ensures Whole(Entered(hours) * 1000.0)
  {
    hide RoundHalfEven;
    var c := Clamp(hours, 0.0, MAX_TOTAL_HOURS);
    RoundedExactly(c);
    IntIsWhole(RoundHalfEven(c * 1000.0));
    RoundOfWhole(0);
    RoundOfWhole(1000000000);
    assert c == 0.0 ==> c * 1000.0 == 0.0;
    assert c == 1000000.0 ==> c * 1000.0 == 1000000000.0;
    hide Round3, Round1;
  }

  lemma StepAgrees(s: State, w: Truth, e: Event)
    requires Agrees(s, w) && w.clock <= e.now <= End(e)
    ensures Agrees(Next(s, e), Witness(w, e))
  {
    LivePasses(s, w, e.now);
    if e.Correct? {
      EnteredInRange(e.hours);
    }
  }

  lemma {:induction false} RunAgrees(s: State, w: Truth, es: seq<Event>)
    requires Agrees(s, w) && Ordered(es, w.clock)
    ensures Agrees(Run(s, es), Story(w, es)) && Story(w, es).clock == EndClock(es, w.clock)
    decreases |es|
  {
    if es != [] {
      StepAgrees(s, w, es[0]);
      RunAgrees(Next(s, es[0]), Witness(w, es[0]), es[1..]);
    }
  }

  ghost predicate Sane(s: State, clock: real) {
    && (s.running <==> s.startedAt.Some?) && (s.startedAt.Some? ==> s.startedAt.value <= clock)
    && s.totalHours >= 0.0 && Live(s, clock) >= s.fillRunHours
  }

  ghost function Begin(s: State, clock: real): Truth {
    Truth(s.running, clock, Live(s, clock), 0.0, Live(s, clock) - s.fillRunHours, 0.0, true, s.fillLevel)
  }

  /** For every history and any later moment, the live odometer is the last entered value (or the
      initial total) plus all time spent running since, and the stored base is never negative. */
  lemma OdometerIsExact(s: State, es: seq<Event>, clock: real, now: real)
    requires Sane(s, clock) && Ordered(es, clock) && EndClock(es, clock) <= now
    ensures var w := Passed(Story(Begin(s, clock), es), now);
            Live(Run(s, es), now) == w.base + w.sinceBase && Run(s, es).totalHours >= 0.0
  {
    RunAgrees(s, Begin(s, clock), es);
    LivePasses(Run(s, es), Story(Begin(s, clock), es), now);
  }

  /** For every history, the modelled run since the fill is the time really run since the fill if and
      only if every correction since that fill was at least the modelled run it found; the projected
      level is then that of the plain linear model. */
  lemma FuelModelIsExact(s: State, es: seq<Event>, clock: real, now: real)
    requires Sane(s, clock) && Ordered(es, clock) && EndClock(es, clock) <= now
    ensures var w, r := Passed(Story(Begin(s, clock), es), now), Run(s, es);
            && (RunSinceFill(r, now) == w.sinceFill <==> w.covered)
            && r.fillLevel == w.level
            && (w.covered ==> Projected(r, now) == Linear(w.level, r.drainRate, w.sinceFill))
  {
    hide Linear;
    RunAgrees(s, Begin(s, clock), es);
    LivePasses(Run(s, es), Story(Begin(s, clock), es), now);
    AgreeingRun(Run(s, es), Passed(Story(Begin(s, clock), es), now));
  }

  lemma AgreeingRun(s: State, w: Truth)
    requires Agrees(s, w)
    ensures RunSinceFill(s, w.clock) == w.sinceFill - w.hidden
    ensures RunSinceFill(s, w.clock) == w.sinceFill <==> w.covered
  {
  }

  /** One correction: the odometer reads the entered value at once, and the run since the fill is kept
      exactly when the entry is at least that long. */
  lemma CorrectionExactly(s: State, hours: real, t1: real, t2: real)
    requires Sane(s, t1) && t1 <= t2
    ensures var c := Corrected(s, hours, t1, t2);
            && Live(c, t2) == Entered(hours)
            && (RunSinceFill(c, t2) == RunSinceFill(s, t1) <==> Entered(hours) >= RunSinceFill(s, t1))
  {
    EnteredInRange(hours);
  }

  /** An entry below the run since the fill makes the gauge jump: 10 hours run, 1 hour entered. */
  lemma LowEntryMovesGauge()
    ensures var s := State(false, None, 10.0, 100.0, 0.0, 5.0, 6.4, true, 20, true, false);
            Projected(s, 0.0) == 50.0 && Projected(Corrected(s, 1.0, 0.0, 0.0), 0.0) == 95.0
  {
    var x := Clamp(1.0, 0.0, MAX_TOTAL_HOURS) * 1000.0;
    assert x == 1000.0 && x.Floor == 1000;
  }

  /** Marking the state it already has changes nothing: no run is counted twice or restarted. */
  lemma RepeatedMarkIsIdle(s: State, on: bool, now: real, later: real)
    requires now <= later
    ensures Marked(Marked(s, on, now), on, later) == Marked(s, on, now)
  {
  }

  // ------------------------------------------------------------- alerts

  function Pushes(s: State, es: seq<Event>): nat
    decreases |es|
  {
    if es == [] then 0
    else (if es[0].Evaluate? && Evaluated(s, es[0].now).1 == Push then 1 else 0) + Pushes(Next(s, es[0]), es[1..])
  }

  /** How often the edge flag goes from set to clear. */
  function Clears(s: State, es: seq<Event>): nat
    decreases |es|
  {
    if es == [] then 0
    else (if s.alerted && !Next(s, es[0]).alerted then 1 else 0) + Clears(Next(s, es[0]), es[1..])
  }

  /** Over any history, pushes and clearings of the flag alternate. */
  lemma {:induction false} PushesBoundedByClears(s: State, es: seq<Event>)
    ensures Pushes(s, es) + (if s.alerted then 1 else 0) == Clears(s, es) + (if Run(s, es).alerted then 1 else 0)
    decreases |es|
  {
    if es != [] {
      PushesBoundedByClears(Next(s, es[0]), es[1..]);
    }
  }

  lemma LinearFalls(level: real, rate: real, a: real, b: real)
    requires a <= b && rate >= 0.0
    ensures Linear(level, rate, b) <= Linear(level, rate, a)
  {
    assert rate * a <= rate * b;
  }

  /** With nothing but time passing, the projected level never rises. */
  lemma LevelNeverRises(s: State, now: real, later: real)
    requires now <= later && s.drainRate >= 0.0
    ensures Projected(s, later) <= Projected(s, now)
  {
    assert Live(s, now) <= Live(s, later);
    LinearFalls(s.fillLevel, s.drainRate, RunSinceFill(s, now), RunSinceFill(s, later));
  }

  /** An uninterrupted run: the monitor's evaluations, alerting switched off and on, and repeated
      "running" marks, but no stop, fill, correction, rate or threshold change. */
  predicate Uninterrupted(es: seq<Event>) {
    forall i :: 0 <= i < |es| ==>
      es[i].Evaluate? || (es[i].Mark? && es[i].on) || (es[i].SetAlerts? && es[i].limit.None?)
  }

  lemma QuietStep(s: State, e: Event)
    requires s.running && Uninterrupted([e])
    requires s.alerted && Projected(s, e.now) <= s.threshold as real
    ensures Next(s, e) == s.(alertsOn := Next(s, e).alertsOn, fuelEnabled := Next(s, e).fuelEnabled)
    ensures e.Evaluate? ==> Evaluated(s, e.now).1 != Push
  {
    assert [e][0] == e;
  }

  lemma {:induction false} NoSecondPush(s: State, es: seq<Event>, clock: real)
    requires s.running && s.drainRate >= 0.0 && Uninterrupted(es) && Ordered(es, clock)
    requires s.alerted && Projected(s, clock) <= s.threshold as real
    ensures Pushes(s, es) == 0
    decreases |es|
  {
    if es != [] {
      var e, s' := es[0], Next(s, es[0]);
      LevelNeverRises(s, clock, e.now);
      QuietStep(s, e);
      assert Projected(s', e.now) == Projected(s, e.now);
      NoSecondPush(s', es[1..], End(e));
    }
  }

  /** During an uninterrupted run, however often the monitor looks, at most one alert is pushed. */
  lemma {:induction false} OnePushPerRun(s: State, es: seq<Event>, clock: real)
    requires s.running && s.drainRate >= 0.0 && Uninterrupted(es) && Ordered(es, clock)
    ensures Pushes(s, es) <= 1
    decreases |es|
  {
    if es != [] {
      var e, s' := es[0], Next(s, es[0]);
      if e.Evaluate? && Evaluated(s, e.now).1 == Push {
        assert Projected(s', e.now) == Projected(s, e.now);
        NoSecondPush(s', es[1..], End(e));
      } else {
        OnePushPerRun(s', es[1..], End(e));
      }
    }
  }

  /** No step but an evaluation sets the edge flag, and only below the threshold with everything on and the
      engine running; each setting is a push. A fill clears it, and so does an evaluation that finds the
      engine stopped or the level more than 5 above the threshold. */
  lemma FlagMovesExactly(s: State, e: Event)
    ensures var t := Next(s, e);
            var looks := e.Evaluate? && s.fuelEnabled && s.alertsOn;
            var level := Linear(s.fillLevel, s.drainRate, RunSinceFill(s, e.now));
            && (!s.alerted && t.alerted <==> !s.alerted && looks && s.running && level <= s.threshold as real)
            && (s.alerted && !t.alerted <==>
                  s.alerted && (e.Fill? || (looks && (!s.running || level > s.threshold as real + 5.0))))
            && Pushes(s, [e]) == if !s.alerted && t.alerted then 1 else 0
  {
    assert [e][1..] == [];
  }

  /** What the other events of a history do: each moves its own setting and nothing else. */
  lemma SettingsMoveExactly(s: State, e: Event)
    ensures var t := Next(s, e);
            && (e.SetRate? ==>
                  t == s.(drainRate := t.drainRate) && (e.rate >= 0.1 ==> -0.05 <= t.drainRate - e.rate <= 0.05))
            && (e.ResetRate? ==> t == s.(drainRate := t.drainRate) && -0.05 <= t.drainRate - s.defaultRate <= 0.05)
            && (e.Observe? ==> t == Reading(s, e.level, e.now))
            && (e.SetAlerts? ==>
                  && t == s.(alertsOn := e.enabled.GetOr(s.alertsOn), fuelEnabled := e.fuel.GetOr(s.fuelEnabled),
                             threshold := t.threshold)
                  && (e.limit.None? ==> t.threshold == s.threshold)
                  && (e.limit.Some? ==> 5 <= t.threshold <= 40)
                  && (e.limit.Some? && 5.0 <= e.limit.value <= 40.0 ==>
                        0.0 <= e.limit.value - t.threshold as real < 1.0))
  {
  }

  /** An uninterrupted run on which alerting stays on. */
  predicate Watched(es: seq<Event>) {
    && Uninterrupted(es)
    && forall i :: 0 <= i < |es| && es[i].SetAlerts? ==> es[i].enabled != Some(false) && es[i].fuel != Some(false)
  }

  lemma WatchedStep(s: State, e: Event)
    requires Watched([e]) && s.running && s.alertsOn && s.fuelEnabled
    ensures Next(s, e) == s.(alerted := Next(s, e).alerted)
    ensures !s.alerted ==>
              (Next(s, e).alerted <==> e.Evaluate? && Projected(s, e.now) <= s.threshold as real)
              && (e.Evaluate? && Evaluated(s, e.now).1 == Push <==> Next(s, e).alerted)
  {
    assert [e][0] == e;
  }

  lemma {:induction false} WatchedPushes(s: State, es: seq<Event>, clock: real)
    requires s.running && s.drainRate >= 0.0 && !s.alerted && s.alertsOn && s.fuelEnabled
    requires Watched(es) && Ordered(es, clock)
    ensures Pushes(s, es) == if exists i :: LowAt(s, es, i) then 1 else 0
    decreases |es|
  {
    if es != [] {
      var e, rest := es[0], es[1..];
      assert Watched([e]) && Watched(rest) by { assert [e][0] == es[0]; }
      WatchedStep(s, e);
      var t := Next(s, e);
      if t.alerted {
        assert LowAt(s, es, 0);
        assert Projected(t, e.now) == Projected(s, e.now);
        NoSecondPush(t, rest, End(e));
      } else {
        assert t == s;
        WatchedPushes(s, rest, End(e));
        assert !LowAt(s, es, 0);
        forall i: nat
          ensures LowAt(s, es, i + 1) <==> LowAt(s, rest, i)
        {
        }
        if i :| LowAt(s, es, i) {
          assert LowAt(s, rest, i - 1);
        }
      }
    }
  }

  predicate LowAt(s: State, es: seq<Event>, i: int) {
    0 <= i < |es| && es[i].Evaluate? && Projected(s, es[i].now) <= s.threshold as real
  }

  lemma {:induction false} WatchedRun(s: State, es: seq<Event>)
    requires Watched(es) && s.running && s.alertsOn && s.fuelEnabled
    ensures Run(s, es) == s.(alerted := Run(s, es).alerted)
    decreases |es|
  {
    if es != [] {
      assert Watched([es[0]]) && Watched(es[1..]) by { assert [es[0]][0] == es[0]; }
      WatchedStep(s, es[0]);
      WatchedRun(Next(s, es[0]), es[1..]);
    }
  }

  lemma {:induction false} NothingHidden(w: Truth, es: seq<Event>)
    requires Uninterrupted(es)
    ensures Story(w, es).hidden == w.hidden && Story(w, es).level == w.level
    decreases |es|
  {
    if es != [] { NothingHidden(Witness(w, es[0]), es[1..]); }
  }

  lemma {:induction false} OrderedPrefix(es: seq<Event>, clock: real, i: nat)
    requires Ordered(es, clock) && i < |es|
    ensures Ordered(es[..i], clock) && EndClock(es[..i], clock) <= es[i].now
    decreases |es|
  {
    if i > 0 {
      assert es[..i][1..] == es[1..][..i - 1];
      OrderedPrefix(es[1..], End(es[0]), i - 1);
    }
  }

  /** The time really run since the fill, at the i-th event. */
  ghost function ReallyRun(s: State, es: seq<Event>, clock: real, i: nat): real
    requires i < |es|
  {
    Passed(Story(Begin(s, clock), es[..i]), es[i].now).sinceFill
  }

  lemma RunIsReal(s: State, es: seq<Event>, clock: real, i: nat)
    requires Sane(s, clock) && s.running && s.alertsOn && s.fuelEnabled
    requires Watched(es) && Ordered(es, clock) && i < |es|
    ensures RunSinceFill(s, es[i].now) == ReallyRun(s, es, clock, i)
  {
    var first, now := es[..i], es[i].now;
    OrderedPrefix(es, clock, i);
    assert Watched(first);
    RunAgrees(s, Begin(s, clock), first);
    LivePasses(Run(s, first), Story(Begin(s, clock), first), now);
    AgreeingRun(Run(s, first), Passed(Story(Begin(s, clock), first), now));
    WatchedRun(s, first);
    NothingHidden(Begin(s, clock), first);
  }

  /** During an uninterrupted run with alerting on throughout, an alert is pushed, and then once, if and only
      if some evaluation comes when the linear model, on the time really run since the fill, is at or
      below the threshold. */
  lemma PushedExactly(s: State, es: seq<Event>, clock: real)
    requires Sane(s, clock) && s.running && s.drainRate >= 0.0 && !s.alerted && s.alertsOn && s.fuelEnabled
    requires Watched(es) && Ordered(es, clock)
    ensures Pushes(s, es) <= 1
    ensures Pushes(s, es) == 1 <==>
              exists i :: 0 <= i < |es| && es[i].Evaluate?
                          && Linear(s.fillLevel, s.drainRate, ReallyRun(s, es, clock, i)) <= s.threshold as real
  {
    hide Watched, Ordered, Linear, RunSinceFill, ReallyRun, Pushes, Sane;
    WatchedPushes(s, es, clock);
    forall i | 0 <= i < |es|
      ensures LowAt(s, es, i) <==>
                es[i].Evaluate? && Linear(s.fillLevel, s.drainRate, ReallyRun(s, es, clock, i)) <= s.threshold as real
    {
      RunIsReal(s, es, clock, i);
    }
    if i :| LowAt(s, es, i) {
      assert 0 <= i < |es|;
    }
  }

  // ------------------------------------------------------------- the rate estimate

  lemma RoundAbove(x: real)
    requires x >= MIN_RATE
    ensures Round1(x) >= MIN_RATE
  {
    var n := RoundHalfEven(x * 10.0);
    assert n as real >= 0.5;
    assert n >= 1;
  }

  /** No history brings the rate below its floor. */
  lemma {:induction false} RateKeepsFloor(s: State, es: seq<Event>)
    requires s.drainRate >= MIN_RATE && s.defaultRate >= MIN_RATE
    ensures Run(s, es).drainRate >= MIN_RATE
    decreases |es|
  {
    if es != [] {
      var e := es[0];
      if e.Observe? && RunSinceFill(s, e.now) >= MIN_RUN_SINCE_FILL {
        var run := RunSinceFill(s, e.now);
        RoundAbove(0.5 * s.drainRate + 0.5 * MaxReal(MIN_RATE, (s.fillLevel - Clamp(e.level, 0.0, 100.0)) / run));
      } else if e.ResetRate? {
        RoundAbove(s.defaultRate);
      }
      RateKeepsFloor(Next(s, e), es[1..]);
    }
  }

  function Magnitude(x: real): real {
    if x >= 0.0 then x else -x
  }

  /** A trusted reading (three minutes of engine time after the fill or later) moves the rate half-way to the
      one it implies, to the nearest tenth, and so at least halves the distance up to the rounding; a
      reading taken too soon changes nothing. */
  lemma ReadingHalvesError(s: State, level: real, now: real)
    ensures var run := RunSinceFill(s, now);
            if run < 0.05 then Reading(s, level, now) == s
            else
              var seen := if level < 0.0 then 0.0 else if level > 100.0 then 100.0 else level;
              var implied := if (s.fillLevel - seen) / run < 0.1 then 0.1 else (s.fillLevel - seen) / run;
              var rate := Reading(s, level, now).drainRate;
              && Reading(s, level, now) == s.(drainRate := rate)
              && Magnitude(rate - (s.drainRate + implied) / 2.0) <= 0.05
              && Whole(rate * 10.0)
              && Magnitude(rate - implied) <= Magnitude(s.drainRate - implied) / 2.0 + 0.05
  {
    hide RoundHalfEven;
    var run := RunSinceFill(s, now);
    if run >= MIN_RUN_SINCE_FILL {
      var implied := MaxReal(MIN_RATE, (s.fillLevel - Clamp(level, 0.0, 100.0)) / run);
      var mid := 0.5 * s.drainRate + 0.5 * implied;
      RoundedExactly(mid);
      IntIsWhole(RoundHalfEven(mid * 10.0));
      BlendHalves(s.drainRate, implied, Round1(0.5 * s.drainRate + 0.5 * implied));
    }
  }

  lemma BlendHalves(rate: real, implied: real, next: real)
    requires -0.05 <= next - (0.5 * rate + 0.5 * implied) <= 0.05
    ensures Magnitude(next - (rate + implied) / 2.0) <= 0.05
    ensures Magnitude(next - implied) <= Magnitude(rate - implied) / 2.0 + 0.05
  {
  }
}
