/** The updater's start endpoint and decision gate (genpi/updater.py, genpi/routes/update.py) as
    interleaved atomic steps: each lock section, event.clear, event.set and event.wait is one step. */
module UpdateGate {
  import opened Prelude

  datatype Phase = Idle | Done | Failed | Working | Awaiting | Restarting
  datatype Choice = Proceed | Revert

  /** The shared progress state; `decide` is the parked step's allow_proceed. */
  datatype Shared = Shared(phase: Phase, decide: Option<bool>, choice: Option<Choice>, event: bool)

  predicate Terminal(p: Phase) {
    p == Idle || p == Done || p == Failed
  }

  // ------------------------------------------------------------- the lock sections

  function ParkSection(s: Shared, allow: bool): Shared {
    s.(phase := Awaiting, decide := Some(allow), choice := None)
  }

  /** What a park returns: the default is to revert. */
  function Verdict(s: Shared, got: bool): Choice {
    if got && s.choice.Some? then s.choice.value else Revert
  }

  function StartSection(s: Shared): Shared {
    if Terminal(s.phase) then s.(phase := Working, decide := None) else s
  }

  predicate DecisionPending(s: Shared) {
    s.phase == Awaiting && s.decide.Some?
  }

  /** "proceed" is honoured only where the parked step allows it. */
  function Honoured(s: Shared, asked: Choice): Choice
    requires DecisionPending(s)
  {
    if asked == Proceed && !s.decide.value then Revert else asked
  }

  function DecideSection(s: Shared, asked: Choice): Shared {
    if DecisionPending(s) then s.(choice := Some(Honoured(s, asked))) else s
  }

  class Gate {
    var phase: Phase
    var decide: Option<bool>
    var choice: Option<Choice>
    var event: bool

    ghost function Abs(): Shared
      reads this
    {
      Shared(phase, decide, choice, event)
    }

    constructor ()
      ensures Abs() == Shared(Idle, None, None, false)
    {
      phase, decide, choice, event := Idle, None, None, false;
    }

    method Park(allow: bool)
      modifies this
      ensures Abs() == ParkSection(old(Abs()), allow)
    {
      phase, decide := Awaiting, Some(allow);
      choice := None;
    }

    method ReadDecision(got: bool) returns (c: Choice)
      modifies this
      ensures c == Verdict(old(Abs()), got) && Abs() == old(Abs()).(decide := None)
    {
      c := Revert;
      if got && choice.Some? {
        c := choice.value;
      }
      decide := None;
    }

    method Start() returns (accepted: bool)
      modifies this
      ensures accepted == Terminal(old(phase)) && Abs() == StartSection(old(Abs()))
    {
      if !(phase == Idle || phase == Done || phase == Failed) {
        return false;
      }
      phase, decide := Working, None;
      accepted := true;
    }

    /** None: nothing is pending (409). Otherwise the choice recorded; the caller then sets the event. */
    method Decide(asked: Choice) returns (recorded: Option<Choice>)
      modifies this
      ensures Abs() == DecideSection(old(Abs()), asked)
      ensures recorded == if DecisionPending(old(Abs())) then Some(Honoured(old(Abs()), asked)) else None
    {
      if phase != Awaiting || decide.None? {
        return None;
      }
      var c := asked;
      if c == Proceed && !decide.value {
        c := Revert;
      }
      choice := Some(c);
      recorded := Some(c);
    }
  }

  // ------------------------------------------------------------- worker and handlers

  /** Why a worker parks: a gated release, the go/no-go before the swap, or a failure. Only the
      go/no-go allows "proceed". */
  datatype Why = Blocked | Staged | Error

  predicate Allows(why: Why) {
    why == Staged
  }

  datatype Pc =
    | Preparing                                   // everything before the first park
    | ToClear(why: Why, park: nat)                // parked; event.clear is next
    | Waiting(why: Why, park: nat)                // in event.wait
    | Woken(why: Why, park: nat, got: bool)       // the final lock section is next
    | Applying(park: nat)                         // past the go/no-go: swap, verify, schedule the restart
    | Concluding                                  // clean-up, then phase "failed"
    | Finished

  /** What is observed. */
  datatype Event =
    | Parked(park: nat, allow: bool)
    | Wrote(choice: Choice)
    | Returned(park: nat, choice: Choice)
    | Applied(park: nat)

  datatype Sys = Sys(shared: Shared, workers: seq<Pc>, starting: nat, setting: nat, parks: nat, log: seq<Event>)

  datatype Action =
    | RequestStart | Spawn | SpawnFails
    | RequestDecide(asked: Choice) | SetEvent     // a handler's lock section, and its event.set, any time later
    | Progress(w: nat, restarting: bool)          // a phase update while working
    | Park(w: nat, why: Why)
    | Clear(w: nat) | Wake(w: nat) | TimeOut(w: nat) | Read(w: nat)
    | Complete(w: nat)                            // the restart is scheduled
    | Conclude(w: nat)

  predicate Enabled(s: Sys, a: Action) {
    match a
    case RequestStart => true
    case Spawn => s.starting > 0
    case SpawnFails => s.starting > 0
    case RequestDecide(_) => true
    case SetEvent => s.setting > 0
    case Progress(w, restarting) =>
      w < |s.workers| && (s.workers[w].Applying? || (s.workers[w] == Preparing && !restarting))
    case Park(w, why) => w < |s.workers| && (s.workers[w] == Preparing || (s.workers[w].Applying? && why == Error))
    case Clear(w) => w < |s.workers| && s.workers[w].ToClear?
    case Wake(w) => w < |s.workers| && s.workers[w].Waiting? && s.shared.event
    case TimeOut(w) => w < |s.workers| && s.workers[w].Waiting?
    case Read(w) => w < |s.workers| && s.workers[w].Woken?
    case Complete(w) => w < |s.workers| && s.workers[w].Applying? && s.shared.phase == Restarting
    case Conclude(w) => w < |s.workers| && s.workers[w] == Concluding
  }

  function Step(s: Sys, a: Action): Sys
    requires Enabled(s, a)
  {
    match a
    case RequestStart =>
      s.(shared := StartSection(s.shared), starting := if Terminal(s.shared.phase) then s.starting + 1 else s.starting)
    case Spawn => s.(starting := s.starting - 1, workers := s.workers + [Preparing])
    case SpawnFails => s.(starting := s.starting - 1)
    case RequestDecide(asked) =>
      if DecisionPending(s.shared) then
        s.(shared := DecideSection(s.shared, asked), setting := s.setting + 1,
           log := s.log + [Wrote(Honoured(s.shared, asked))])
      else s
    case SetEvent => s.(shared := s.shared.(event := true), setting := s.setting - 1)
    case Progress(w, restarting) => s.(shared := s.shared.(phase := if restarting then Restarting else Working))
    case Park(w, why) =>
      s.(shared := ParkSection(s.shared, Allows(why)), workers := s.workers[w := ToClear(why, s.parks)],
         parks := s.parks + 1, log := s.log + [Parked(s.parks, Allows(why))])
    case Clear(w) =>
      s.(shared := s.shared.(event := false), workers := s.workers[w := Waiting(s.workers[w].why, s.workers[w].park)])
    case Wake(w) => s.(workers := s.workers[w := Woken(s.workers[w].why, s.workers[w].park, true)])
    case TimeOut(w) => s.(workers := s.workers[w := Woken(s.workers[w].why, s.workers[w].park, false)])
    case Read(w) =>
      var pc := s.workers[w];
      var verdict := Verdict(s.shared, pc.got);
      var go := pc.why == Staged && verdict == Proceed;
      s.(shared := s.shared.(decide := None),
         workers := s.workers[w := if go then Applying(pc.park) else Concluding],
         log := s.log + [Returned(pc.park, verdict)] + (if go then [Applied(pc.park)] else []))
    case Complete(w) => s.(workers := s.workers[w := Finished])
    case Conclude(w) => s.(shared := s.shared.(phase := Failed), workers := s.workers[w := Finished])
  }

  // ------------------------------------------------------------- invariants

  predicate InPark(pc: Pc) {
    pc.ToClear? || pc.Waiting? || pc.Woken?
  }

  /** Further work lies ahead of this worker. */
  predicate Alive(pc: Pc) {
    pc != Finished
  }

  predicate NoParkIn(log: seq<Event>, from: nat, to: nat) {
    to <= |log| && forall i :: from <= i < to ==> !log[i].Parked?
  }

  /** A "proceed" returned at position n was written by a handler during that same park, which allowed it. */
  ghost predicate Justified(log: seq<Event>, n: nat)
    requires n < |log| && log[n].Returned?
  {
    exists k: nat, m: nat :: k < m < n && log[k] == Parked(log[n].park, true) && log[m] == Wrote(Proceed)
                             && NoParkIn(log, k + 1, n)
  }

  ghost predicate SafeLog(log: seq<Event>) {
    && (forall n: nat :: n < |log| && log[n].Returned? && log[n].choice == Proceed ==> Justified(log, n))
    && (forall n: nat :: n < |log| && log[n].Applied? ==> n > 0 && log[n - 1] == Returned(log[n].park, Proceed))
  }

  /** The park in progress began at log position k, and a recorded "proceed" was written since. */
  ghost predicate ParkInProgress(s: Sys, pc: Pc, k: nat)
    requires InPark(pc)
  {
    && k < |s.log| && s.log[k] == Parked(pc.park, Allows(pc.why)) && NoParkIn(s.log, k + 1, |s.log|)
    && (s.shared.choice == Some(Proceed) ==>
        Allows(pc.why) && exists m: nat :: k < m < |s.log| && s.log[m] == Wrote(Proceed))
  }

  /** One worker, or one about to be spawned, and only under a non-terminal phase. */
  predicate Solo(s: Sys) {
    && (forall i, j :: 0 <= i < j < |s.workers| ==> !(Alive(s.workers[i]) && Alive(s.workers[j])))
    && s.starting <= 1
    && (s.starting == 1 || Terminal(s.shared.phase) ==> forall i :: 0 <= i < |s.workers| ==> !Alive(s.workers[i]))
    && (Terminal(s.shared.phase) ==> s.starting == 0)
  }

  /** A decision can be recorded only while a worker is parked, and on that park's terms. */
  ghost predicate ParkInv(s: Sys) {
    && (s.shared.decide.Some? ==> exists i :: 0 <= i < |s.workers| && InPark(s.workers[i]))
    && (forall i :: 0 <= i < |s.workers| && InPark(s.workers[i]) ==>
          s.shared.decide == Some(Allows(s.workers[i].why)) && exists k: nat :: ParkInProgress(s, s.workers[i], k))
  }

  ghost predicate Inv(s: Sys) {
    Solo(s) && ParkInv(s) && SafeLog(s.log)
  }

  lemma AppendKeepsSafe(log: seq<Event>, e: Event)
    requires SafeLog(log) && (e.Returned? && e.choice == Proceed ==> Justified(log + [e], |log|))
    requires e.Applied? ==> |log| > 0 && log[|log| - 1] == Returned(e.park, Proceed)
    ensures SafeLog(log + [e])
  {
    var g := log + [e];
    forall n: nat | n < |log| && log[n].Returned? && log[n].choice == Proceed
      ensures Justified(g, n)
    {
      var k: nat, m: nat :| k < m < n && log[k] == Parked(log[n].park, true) && log[m] == Wrote(Proceed)
        && NoParkIn(log, k + 1, n);
      assert g[k] == log[k] && g[m] == log[m] && NoParkIn(g, k + 1, n);
    }
  }

  lemma ParkSurvives(s: Sys, t: Sys, pc: Pc, e: Event, k: nat)
    requires InPark(pc) && ParkInProgress(s, pc, k)
    requires t.log == s.log + [e] && e.Wrote?
    requires t.shared.choice == Some(e.choice) && (e.choice == Proceed ==> Allows(pc.why))
    ensures ParkInProgress(t, pc, k)
  {
    assert t.log[|s.log|] == e;
  }

  lemma DecideKeepsInv(s: Sys, asked: Choice)
    requires Inv(s)
    ensures Inv(Step(s, RequestDecide(asked)))
  {
    if DecisionPending(s.shared) {
      var t := Step(s, RequestDecide(asked));
      var e := Wrote(Honoured(s.shared, asked));
      AppendKeepsSafe(s.log, e);
      forall i | 0 <= i < |s.workers| && InPark(s.workers[i])
        ensures exists k: nat :: ParkInProgress(t, s.workers[i], k)
      {
        var k: nat :| ParkInProgress(s, s.workers[i], k);
        ParkSurvives(s, t, s.workers[i], e, k);
      }
    }
  }

  lemma ParkKeepsInv(s: Sys, w: nat, why: Why)
    requires Inv(s) && Enabled(s, Park(w, why))
    ensures Inv(Step(s, Park(w, why)))
  {
    var t := Step(s, Park(w, why));
    AppendKeepsSafe(s.log, Parked(s.parks, Allows(why)));
    assert ParkInProgress(t, t.workers[w], |s.log|);
    assert forall i :: 0 <= i < |s.workers| && i != w ==> t.workers[i] == s.workers[i] && !Alive(s.workers[i]);
  }

  lemma ReadKeepsSafe(s: Sys, w: nat)
    requires Inv(s) && Enabled(s, Read(w))
    ensures SafeLog(Step(s, Read(w)).log)
  {
    var pc := s.workers[w];
    var verdict := Verdict(s.shared, pc.got);
    var e := Returned(pc.park, verdict);
    var k: nat :| ParkInProgress(s, pc, k);
    var g := s.log + [e];
    if verdict == Proceed {
      var m: nat :| k < m < |s.log| && s.log[m] == Wrote(Proceed);
      assert g[k] == Parked(pc.park, true) && g[m] == Wrote(Proceed) && NoParkIn(g, k + 1, |s.log|);
    }
    AppendKeepsSafe(s.log, e);
    if pc.why == Staged && verdict == Proceed {
      AppendKeepsSafe(g, Applied(pc.park));
    } else {
      assert g + [] == g;
    }
  }

  lemma ReadKeepsInv(s: Sys, w: nat)
    requires Inv(s) && Enabled(s, Read(w))
    ensures Inv(Step(s, Read(w)))
  {
    ReadKeepsSafe(s, w);
    hide SafeLog, ParkInProgress, Verdict;
    var t := Step(s, Read(w));
    assert forall i :: 0 <= i < |s.workers| && i != w ==> t.workers[i] == s.workers[i] && !Alive(s.workers[i]);
  }

  lemma StepKeepsInv(s: Sys, a: Action)
    requires Inv(s) && Enabled(s, a)
    ensures Inv(Step(s, a))
  {
    var t := Step(s, a);
    match a {
      case RequestDecide(asked) => DecideKeepsInv(s, asked);
      case Park(w, why) => ParkKeepsInv(s, w, why);
      case Read(w) => ReadKeepsInv(s, w);
      case Clear(w) => ParkStays(s, t, w, Waiting(s.workers[w].why, s.workers[w].park));
      case Wake(w) => ParkStays(s, t, w, Woken(s.workers[w].why, s.workers[w].park, true));
      case TimeOut(w) => ParkStays(s, t, w, Woken(s.workers[w].why, s.workers[w].park, false));
      case _ => OthersKeepInv(s, a);
    }
  }

  lemma ParkStays(s: Sys, t: Sys, w: nat, pc: Pc)
    requires Inv(s) && w < |s.workers| && InPark(s.workers[w])
    requires InPark(pc) && pc.why == s.workers[w].why && pc.park == s.workers[w].park
    requires t == s.(workers := s.workers[w := pc], shared := s.shared.(event := t.shared.event))
    ensures Inv(t)
  {
    hide SafeLog, StartSection;
    var k: nat :| ParkInProgress(s, s.workers[w], k);
    assert ParkInProgress(t, t.workers[w], k);
    assert forall i :: 0 <= i < |s.workers| && i != w ==> t.workers[i] == s.workers[i] && !Alive(s.workers[i]);
  }

  /** Every action that leaves parked workers and the recorded decision alone. */
  predicate Other(a: Action) {
    !a.RequestDecide? && !a.Park? && !a.Read? && !a.Clear? && !a.Wake? && !a.TimeOut?
  }

  lemma OthersKeepInv(s: Sys, a: Action)
    requires Inv(s) && Enabled(s, a) && Other(a)
    ensures Inv(Step(s, a))
  {
    OthersKeepSolo(s, a);
    OthersKeepParks(s, a);
  }

  lemma OthersKeepSolo(s: Sys, a: Action)
    requires Solo(s) && Enabled(s, a) && Other(a)
    ensures Solo(Step(s, a))
  {
  }

  lemma OthersKeepParks(s: Sys, a: Action)
    requires Solo(s) && ParkInv(s) && Enabled(s, a) && Other(a)
    ensures ParkInv(Step(s, a)) && Step(s, a).log == s.log
  {
    hide SafeLog;
    var t := Step(s, a);
    forall i | 0 <= i < |t.workers| && InPark(t.workers[i])
      ensures i < |s.workers| && t.workers[i] == s.workers[i] && exists k: nat :: ParkInProgress(t, t.workers[i], k)
    {
      var k: nat :| ParkInProgress(s, s.workers[i], k);
      assert ParkInProgress(t, t.workers[i], k);
    }
    if s.shared.decide.Some? {
      var i :| 0 <= i < |s.workers| && InPark(s.workers[i]);
      assert t.shared.decide.Some? ==> InPark(t.workers[i]);
    }
  }

  // ------------------------------------------------------------- every interleaving

  ghost predicate LegalRun(s: Sys, acts: seq<Action>)
    decreases |acts|
  {
    acts != [] ==> Enabled(s, acts[0]) && LegalRun(Step(s, acts[0]), acts[1..])
  }

  ghost function Run(s: Sys, acts: seq<Action>): Sys
    requires LegalRun(s, acts)
    decreases |acts|
  {
    if acts == [] then s else Run(Step(s, acts[0]), acts[1..])
  }

  const INITIAL := Sys(Shared(Idle, None, None, false), [], 0, 0, 0, [])

  lemma {:induction false} RunKeepsInv(s: Sys, acts: seq<Action>)
    requires Inv(s) && LegalRun(s, acts)
    ensures Inv(Run(s, acts))
    decreases |acts|
  {
    if acts != [] {
      StepKeepsInv(s, acts[0]);
      RunKeepsInv(Step(s, acts[0]), acts[1..]);
    }
  }

  /** For any number of concurrent start requests at most one worker is alive, and a terminal phase is
      visible only when no worker has further work to do and none is about to start. */
  lemma AtMostOneWorker(acts: seq<Action>, i: nat, j: nat)
    requires LegalRun(INITIAL, acts)
    ensures var s := Run(INITIAL, acts);
            && (i < j < |s.workers| ==> s.workers[i] == Finished || s.workers[j] == Finished)
            && (Terminal(s.shared.phase) ==>
                  s.starting == 0 && forall k :: 0 <= k < |s.workers| ==> s.workers[k] == Finished)
  {
    RunKeepsInv(INITIAL, acts);
  }

  /** In every interleaving, stale event.set calls included, a park returns "proceed" only if a handler
      wrote it during that same park and the park allowed it; and a worker goes on to the swap only
      straight after such a return. */
  lemma ProceedIsDeliberate(acts: seq<Action>, n: nat)
    requires LegalRun(INITIAL, acts) && n < |Run(INITIAL, acts).log|
    ensures var log := Run(INITIAL, acts).log;
            && (log[n].Returned? && log[n].choice == Proceed ==> Justified(log, n))
            && (log[n].Applied? ==> n > 0 && log[n - 1] == Returned(log[n].park, Proceed) && Justified(log, n - 1))
  {
    RunKeepsInv(INITIAL, acts);
  }

  /** Every applying worker's park is on record as having led to the swap. */
  ghost predicate AppliersLogged(s: Sys) {
    forall i :: 0 <= i < |s.workers| && s.workers[i].Applying? ==> Logged(s.log, Applied(s.workers[i].park))
  }

  ghost predicate Logged(log: seq<Event>, e: Event) {
    exists n: nat :: n < |log| && log[n] == e
  }

  lemma StepKeepsAppliers(s: Sys, a: Action)
    requires AppliersLogged(s) && Enabled(s, a)
    ensures AppliersLogged(Step(s, a))
  {
    var t := Step(s, a);
    assert forall n :: 0 <= n < |s.log| ==> t.log[n] == s.log[n];
    forall i | 0 <= i < |t.workers| && t.workers[i].Applying?
      ensures Logged(t.log, Applied(t.workers[i].park))
    {
      if i < |s.workers| && t.workers[i] == s.workers[i] {
        var n: nat :| n < |s.log| && s.log[n] == Applied(s.workers[i].park);
        assert t.log[n] == s.log[n];
      } else {
        assert t.log[|t.log| - 1] == Applied(t.workers[i].park);
      }
    }
  }

  lemma {:induction false} RunKeepsAppliers(s: Sys, acts: seq<Action>)
    requires AppliersLogged(s) && LegalRun(s, acts)
    ensures AppliersLogged(Run(s, acts))
    decreases |acts|
  {
    if acts != [] {
      StepKeepsAppliers(s, acts[0]);
      RunKeepsAppliers(Step(s, acts[0]), acts[1..]);
    }
  }

  /** A worker that is swapping files got there straight from a park that allowed it and in which a
      handler wrote "proceed". */
  lemma ApplyingWasAllowed(acts: seq<Action>, w: nat)
    requires LegalRun(INITIAL, acts) && w < |Run(INITIAL, acts).workers| && Run(INITIAL, acts).workers[w].Applying?
    ensures var s := Run(INITIAL, acts);
            exists n: nat :: 0 < n < |s.log| && s.log[n] == Applied(s.workers[w].park)
                             && s.log[n - 1] == Returned(s.workers[w].park, Proceed) && Justified(s.log, n - 1)
  {
    RunKeepsAppliers(INITIAL, acts);
    var s := Run(INITIAL, acts);
    var n: nat :| n < |s.log| && s.log[n] == Applied(s.workers[w].park);
    ProceedIsDeliberate(acts, n);
  }

  /** A park number is given once, and returns once. */
  ghost predicate Numbered(s: Sys) {
    && (forall n :: 0 <= n < |s.log| && s.log[n].Returned? ==> s.log[n].park < s.parks)
    && (forall m, n :: 0 <= m < n < |s.log| && s.log[m].Returned? && s.log[n].Returned? ==>
        s.log[m].park != s.log[n].park)
    && (forall i :: 0 <= i < |s.workers| && InPark(s.workers[i]) ==> s.workers[i].park < s.parks)
    && (forall i, n :: 0 <= i < |s.workers| && InPark(s.workers[i]) && 0 <= n < |s.log| && s.log[n].Returned? ==>
          s.log[n].park != s.workers[i].park)
  }

  lemma StepKeepsNumbered(s: Sys, a: Action)
    requires Solo(s) && Numbered(s) && Enabled(s, a)
    ensures Numbered(Step(s, a))
  {
    if a.Read? {
      ReadKeepsNumbered(s, a.w);
    } else {
      QuietLog(s, a);
      QuietParks(s, a);
      hide Step, Enabled, Solo, InPark;
    }
  }

  lemma QuietLog(s: Sys, a: Action)
    requires Enabled(s, a) && !a.Read?
    ensures var t := Step(s, a);
            forall n :: 0 <= n < |t.log| && t.log[n].Returned? ==> n < |s.log| && t.log[n] == s.log[n]
  {
  }

  lemma QuietParks(s: Sys, a: Action)
    requires Enabled(s, a) && !a.Read?
    ensures var t := Step(s, a);
            && t.parks >= s.parks
            && forall i :: 0 <= i < |t.workers| && InPark(t.workers[i]) ==>
                 t.workers[i].park == s.parks < t.parks
                 || (i < |s.workers| && InPark(s.workers[i]) && t.workers[i].park == s.workers[i].park)
  {
  }

  lemma ReadKeepsNumbered(s: Sys, w: nat)
    requires Solo(s) && Numbered(s) && Enabled(s, Read(w))
    ensures Numbered(Step(s, Read(w)))
  {
    var t := Step(s, Read(w));
    assert forall i :: 0 <= i < |t.workers| ==> !InPark(t.workers[i]);
    assert forall n :: 0 <= n < |s.log| ==> t.log[n] == s.log[n];
    assert t.log[|s.log|].park == s.workers[w].park;
    assert forall n :: |s.log| < n < |t.log| ==> t.log[n].Applied?;
  }

  lemma {:induction false} RunKeepsNumbered(s: Sys, acts: seq<Action>)
    requires Inv(s) && Numbered(s) && LegalRun(s, acts)
    ensures Numbered(Run(s, acts))
    decreases |acts|
  {
    if acts != [] {
      StepKeepsInv(s, acts[0]);
      StepKeepsNumbered(s, acts[0]);
      hide Numbered, Inv, Step, Enabled;
      RunKeepsNumbered(Step(s, acts[0]), acts[1..]);
    }
  }

  /** Each park returns at most once. */
  lemma ReturnsOnce(acts: seq<Action>, m: nat, n: nat)
    requires LegalRun(INITIAL, acts)
    requires var log := Run(INITIAL, acts).log;
             m < |log| && n < |log| && log[m].Returned? && log[n].Returned? && log[m].park == log[n].park
    ensures m == n
  {
    RunKeepsNumbered(INITIAL, acts);
  }

  /** The price of clearing the event after releasing the lock: a "proceed" recorded and signalled in
      between is lost. With no further signal the wait can only time out, and the park reverts. */
  lemma DecisionCanBeLost(s: Sys, w: nat)
    requires w < |s.workers| && s.workers[w].ToClear? && s.shared.choice == Some(Proceed) && s.setting == 0
    ensures Enabled(s, Clear(w))
    ensures var t := Step(s, Clear(w));
            && !Enabled(t, Wake(w)) && !Enabled(t, SetEvent) && Enabled(t, TimeOut(w))
            && var u := Step(t, TimeOut(w));
               Enabled(u, Read(w)) && Step(u, Read(w)).log == s.log + [Returned(s.workers[w].park, Revert)]
               && Step(u, Read(w)).workers[w] == Concluding
  {
    assert s.log + [Returned(s.workers[w].park, Revert)] + [] == s.log + [Returned(s.workers[w].park, Revert)];
  }

  // ------------------------------------------------------------- when a decision is delivered

  /** The step is one of worker w's own. */
  predicate ByWorker(a: Action, w: nat) {
    match a
    case Progress(v, _) => v == w
    case Park(v, _) => v == w
    case Clear(v) => v == w
    case Wake(v) => v == w
    case TimeOut(v) => v == w
    case Read(v) => v == w
    case Complete(v) => v == w
    case Conclude(v) => v == w
    case _ => false
  }

  predicate Elsewhere(acts: seq<Action>, w: nat) {
    forall i :: 0 <= i < |acts| ==> !ByWorker(acts[i], w)
  }

  /** The last decision asked for. */
  function LastAsked(acts: seq<Action>): Option<Choice> {
    if acts == [] then None
    else if acts[|acts| - 1].RequestDecide? then Some(acts[|acts| - 1].asked)
    else LastAsked(acts[..|acts| - 1])
  }

  /** What is on record when the park began without a decision and these steps followed. */
  function Recorded(why: Why, acts: seq<Action>): Option<Choice> {
    match LastAsked(acts)
    case None => None
    case Some(asked) => Some(if asked == Proceed && !Allows(why) then Revert else asked)
  }

  /** Worker w is parked, and `since` are the steps others took meanwhile. */
  predicate StillParked(s: Sys, w: nat, pc: Pc, since: seq<Action>) {
    && w < |s.workers| && s.workers[w] == pc && InPark(pc)
    && s.shared.phase == Awaiting && s.shared.decide == Some(Allows(pc.why))
    && s.shared.choice == Recorded(pc.why, since)
  }

  lemma ParkedStep(s: Sys, a: Action, w: nat, pc: Pc, since: seq<Action>)
    requires Solo(s) && Enabled(s, a) && !ByWorker(a, w) && StillParked(s, w, pc, since)
    ensures StillParked(Step(s, a), w, pc, since + [a])
    ensures Step(s, a).shared.event == (s.shared.event || a.SetEvent?) && Step(s, a).parks == s.parks
  {
    assert (since + [a])[..|since|] == since;
    assert Alive(s.workers[w]);
  }

  lemma {:induction false} ParkedRun(s: Sys, acts: seq<Action>, w: nat, pc: Pc, since: seq<Action>)
    requires Inv(s) && LegalRun(s, acts) && Elsewhere(acts, w) && StillParked(s, w, pc, since)
    ensures Inv(Run(s, acts)) && StillParked(Run(s, acts), w, pc, since + acts)
    ensures Run(s, acts).shared.event <==> s.shared.event || SetEvent in acts
    decreases |acts|
  {
    hide *;
    if acts == [] {
      RunNone(s);
      assert since + acts == since;
    } else {
      var a, rest := acts[0], acts[1..];
      assert acts == [a] + rest;
      RunFirst(s, a, rest);
      ElsewhereRest(acts, w);
      StepKeepsInv(s, a);
      InvIsSolo(s);
      ParkedStep(s, a, w, pc, since);
      ParkedRun(Step(s, a), rest, w, pc, since + [a]);
      assert since + [a] + rest == since + acts;
    }
  }

  lemma ElsewhereRest(acts: seq<Action>, w: nat)
    requires acts != [] && Elsewhere(acts, w)
    ensures !ByWorker(acts[0], w) && Elsewhere(acts[1..], w)
  {
  }

  lemma InvIsSolo(s: Sys)
    requires Inv(s)
    ensures Solo(s)
  {
  }

  lemma {:induction false} RunConcat(s: Sys, p: seq<Action>, q: seq<Action>)
    ensures LegalRun(s, p + q) <==> LegalRun(s, p) && LegalRun(Run(s, p), q)
    ensures LegalRun(s, p + q) ==> Run(s, p + q) == Run(Run(s, p), q)
    decreases |p|
  {
    hide Step, Enabled;
    if p == [] {
      assert p + q == q;
    } else {
      assert (p + q)[0] == p[0] && (p + q)[1..] == p[1..] + q;
      if Enabled(s, p[0]) {
        RunConcat(Step(s, p[0]), p[1..], q);
      }
    }
  }

  lemma RunFirst(s: Sys, a: Action, rest: seq<Action>)
    ensures LegalRun(s, [a] + rest) <==> Enabled(s, a) && LegalRun(Step(s, a), rest)
    ensures LegalRun(s, [a] + rest) ==> Run(s, [a] + rest) == Run(Step(s, a), rest)
  {
    assert ([a] + rest)[1..] == rest;
  }

  lemma RunNone(s: Sys)
    ensures LegalRun(s, []) && Run(s, []) == s
  {
  }

  /** Worker w's park up to event.clear, and on to the end of event.wait, with what others do meanwhile. */
  function UpToClear(w: nat, why: Why, a1: seq<Action>): seq<Action> {
    [Park(w, why)] + a1 + [Clear(w)]
  }

  /** Just after event.clear the event is clear, whatever was signalled before. */
  lemma AtClear(s: Sys, w: nat, why: Why, a1: seq<Action>)
    requires Inv(s) && Elsewhere(a1, w) && LegalRun(s, UpToClear(w, why, a1))
    ensures var t := Run(s, UpToClear(w, why, a1));
            Inv(t) && StillParked(t, w, Waiting(why, s.parks), a1) && !t.shared.event
  {
    hide Inv, LegalRun, Run, Elsewhere;
    var park := Park(w, why);
    assert UpToClear(w, why, a1) == [park] + (a1 + [Clear(w)]);
    RunFirst(s, park, a1 + [Clear(w)]);
    StepKeepsInv(s, park);
    var t := Step(s, park);
    RunConcat(t, a1, [Clear(w)]);
    assert StillParked(t, w, ToClear(why, s.parks), []);
    ParkedRun(t, a1, w, ToClear(why, s.parks), []);
    assert [] + a1 == a1;
    var u := Run(t, a1);
    RunFirst(u, Clear(w), []);
    assert [Clear(w)] + [] == [Clear(w)];
    RunNone(Step(u, Clear(w)));
    StepKeepsInv(u, Clear(w));
  }

  /** A recorded decision can wake the park exactly when a handler's event.set follows event.clear;
      a time-out is always possible. */
  lemma WakesExactly(s: Sys, w: nat, why: Why, a1: seq<Action>, a2: seq<Action>)
    requires Inv(s) && Elsewhere(a1, w) && Elsewhere(a2, w)
    requires LegalRun(s, UpToClear(w, why, a1) + a2)
    ensures var t := Run(s, UpToClear(w, why, a1) + a2);
            && (Enabled(t, Wake(w)) <==> SetEvent in a2) && Enabled(t, TimeOut(w))
            && Inv(t) && StillParked(t, w, Waiting(why, s.parks), a1 + a2)
  {
    hide Inv, LegalRun, Run, Elsewhere, UpToClear;
    RunConcat(s, UpToClear(w, why, a1), a2);
    AtClear(s, w, why, a1);
    ParkedRun(Run(s, UpToClear(w, why, a1)), a2, w, Waiting(why, s.parks), a1);
  }

  /** The whole park: what others do before event.clear (a1), during event.wait (a2) and after it (a3). */
  function Episode(w: nat, why: Why, a1: seq<Action>, a2: seq<Action>, woke: bool, a3: seq<Action>): seq<Action> {
    UpToClear(w, why, a1) + a2 + ([if woke then Wake(w) else TimeOut(w)] + (a3 + [Read(w)]))
  }

  /** A park returns the last decision asked for, downgraded to "revert" where "proceed" is not allowed,
      if it ends by a wake; otherwise "revert". It can end by a wake only if some handler's event.set
      falls within the wait: one that was called before event.clear is lost. */
  lemma DeliveredExactly(s: Sys, w: nat, why: Why, a1: seq<Action>, a2: seq<Action>, woke: bool, a3: seq<Action>)
    requires Inv(s) && Elsewhere(a1, w) && Elsewhere(a2, w) && Elsewhere(a3, w)
    requires LegalRun(s, Episode(w, why, a1, a2, woke, a3))
    ensures var t := Run(s, Episode(w, why, a1, a2, woke, a3));
            var asked := a1 + a2 + a3;
            && w < |t.workers|
            && Logged(t.log, Returned(s.parks, if woke then Recorded(why, asked).GetOr(Revert) else Revert))
            && (t.workers[w].Applying? <==> woke && why == Staged && LastAsked(asked) == Some(Proceed))
            && (t.workers[w] == Concluding <==> !t.workers[w].Applying?)
            && (woke ==> SetEvent in a2)
  {
    hide Inv, LegalRun, Run, Elsewhere, UpToClear;
    var end := if woke then Wake(w) else TimeOut(w);
    var first := UpToClear(w, why, a1) + a2;
    RunConcat(s, first, [end] + (a3 + [Read(w)]));
    WakesExactly(s, w, why, a1, a2);
    var t := Run(s, first);
    RunFirst(t, end, a3 + [Read(w)]);
    StepKeepsInv(t, end);
    var u := Step(t, end);
    assert StillParked(u, w, Woken(why, s.parks, woke), a1 + a2);
    RunConcat(u, a3, [Read(w)]);
    ParkedRun(u, a3, w, Woken(why, s.parks, woke), a1 + a2);
    var x := Run(u, a3);
    assert [Read(w)] + [] == [Read(w)];
    RunFirst(x, Read(w), []);
    RunNone(Step(x, Read(w)));
    var result := if woke then Recorded(why, a1 + a2 + a3).GetOr(Revert) else Revert;
    assert Step(x, Read(w)).log[|x.log|] == Returned(s.parks, result);
  }

  /** A park that is not the staged go/no-go reads as "revert", whoever asks for what and however it ends. */
  lemma OnlyStagedProceeds(s: Sys, w: nat, why: Why, a1: seq<Action>, a2: seq<Action>, woke: bool, a3: seq<Action>)
    requires Inv(s) && Elsewhere(a1, w) && Elsewhere(a2, w) && Elsewhere(a3, w)
    requires LegalRun(s, Episode(w, why, a1, a2, woke, a3)) && (why.Blocked? || why.Error?)
    ensures var t := Run(s, Episode(w, why, a1, a2, woke, a3));
            w < |t.workers| && Logged(t.log, Returned(s.parks, Revert)) && t.workers[w] == Concluding
  {
    hide LegalRun, Run, Elsewhere, Episode, Inv;
    DeliveredExactly(s, w, why, a1, a2, woke, a3);
  }

  lemma StartStep(s: Sys)
    requires Solo(s)
    ensures var t := Step(s, RequestStart);
            && (t != s <==> s.shared.phase == Idle || s.shared.phase == Done || s.shared.phase == Failed)
            && (t != s ==> t.starting == 1 && t.shared.phase == Working && Step(t, RequestStart) == t)
  {
  }

  /** After every run a start is accepted if and only if the phase is "idle", "done" or "failed". Accepted, it
      leaves that phase, one worker is to be spawned for it, and a second start is refused. */
  lemma StartsExactly(acts: seq<Action>)
    requires LegalRun(INITIAL, acts)
    ensures var s := Run(INITIAL, acts);
            var t := Step(s, RequestStart);
            && (t != s <==> s.shared.phase == Idle || s.shared.phase == Done || s.shared.phase == Failed)
            && (t != s ==> t.starting == 1 && t.shared.phase == Working && Step(t, RequestStart) == t)
  {
    InitialInv();
    hide *;
    RunKeepsInv(INITIAL, acts);
    InvIsSolo(Run(INITIAL, acts));
    StartStep(Run(INITIAL, acts));
  }

  /** A run that ended in failure leaves the phase "failed", every worker done, and the updater ready to start. */
  lemma ConcludedCanRestart(acts: seq<Action>, w: nat)
    requires LegalRun(INITIAL, acts) && Enabled(Run(INITIAL, acts), Conclude(w))
    ensures var t := Step(Run(INITIAL, acts), Conclude(w));
            && t.shared.phase == Failed && (forall i :: 0 <= i < |t.workers| ==> t.workers[i] == Finished)
            && Step(t, RequestStart).starting == 1
  {
    InitialInv();
    RunKeepsInv(INITIAL, acts);
    var s := Run(INITIAL, acts);
    hide LegalRun, Run, ParkInv, SafeLog;
    StepKeepsInv(s, Conclude(w));
    InvIsSolo(Step(s, Conclude(w)));
  }

  lemma InitialInv()
    ensures Inv(INITIAL)
  {
  }

  /** Up to event.clear in the smallest run that loses a decision: an operator answers a staged update
      at once, the handler signals, and only then does the worker clear the event. */
  const EARLY := [RequestStart, Spawn, Park(0, Staged)] + [RequestDecide(Proceed), SetEvent]

  const STAGED := Sys(Shared(Awaiting, Some(true), None, false), [ToClear(Staged, 0)], 0, 0, 1, [Parked(0, true)])

  lemma StagedRun()
    ensures LegalRun(INITIAL, [RequestStart, Spawn, Park(0, Staged)])
    ensures Run(INITIAL, [RequestStart, Spawn, Park(0, Staged)]) == STAGED
  {
    hide LegalRun, Run;
    var r1 := [Park(0, Staged)] + [];
    var r2 := [Spawn] + r1;
    assert [RequestStart, Spawn, Park(0, Staged)] == [RequestStart] + r2;
    var s1 := Sys(Shared(Working, None, None, false), [], 1, 0, 0, []);
    var s2 := Sys(Shared(Working, None, None, false), [Preparing], 0, 0, 0, []);
    assert Step(INITIAL, RequestStart) == s1;
    assert Step(s1, Spawn) == s2;
    assert Step(s2, Park(0, Staged)) == STAGED;
    RunFirst(INITIAL, RequestStart, r2);
    RunFirst(s1, Spawn, r1);
    RunFirst(s2, Park(0, Staged), []);
    RunNone(STAGED);
  }

  /** The operator has answered; the event is or is not set yet. */
  function Answered(signalled: bool): Sys {
    Sys(Shared(Awaiting, Some(true), Some(Proceed), signalled), [ToClear(Staged, 0)], 0, if signalled then 0 else 1, 1,
        [Parked(0, true), Wrote(Proceed)])
  }

  lemma AnswerSteps()
    ensures Enabled(STAGED, RequestDecide(Proceed)) && Step(STAGED, RequestDecide(Proceed)) == Answered(false)
    ensures Enabled(Answered(false), SetEvent) && Step(Answered(false), SetEvent) == Answered(true)
  {
  }

  lemma EarlyRun()
    ensures LegalRun(INITIAL, EARLY) && Run(INITIAL, EARLY) == Answered(true)
  {
    hide LegalRun, Run, Step, Enabled, Answered, STAGED, INITIAL;
    StagedRun();
    AnswerSteps();
    var r := [SetEvent] + [];
    assert [RequestDecide(Proceed), SetEvent] == [RequestDecide(Proceed)] + r;
    RunConcat(INITIAL, [RequestStart, Spawn, Park(0, Staged)], [RequestDecide(Proceed), SetEvent]);
    RunFirst(STAGED, RequestDecide(Proceed), r);
    RunFirst(Answered(false), SetEvent, []);
    RunNone(Answered(true));
  }

  /** From there nothing but a time-out ends the wait, and the park reverts. */
  lemma LostDecision()
    ensures var acts := EARLY + [Clear(0), TimeOut(0), Read(0)];
            && LegalRun(INITIAL, EARLY + [Clear(0)])
            && !Enabled(Run(INITIAL, EARLY + [Clear(0)]), Wake(0))
            && !Enabled(Run(INITIAL, EARLY + [Clear(0)]), SetEvent)
            && LegalRun(INITIAL, acts)
            && Run(INITIAL, acts).log == [Parked(0, true), Wrote(Proceed), Returned(0, Revert)]
            && Run(INITIAL, acts).workers == [Concluding]
  {
    hide LegalRun, Run, EARLY;
    EarlyRun();
    var s := Run(INITIAL, EARLY);
    var s1 := s.(shared := s.shared.(event := false), workers := [Waiting(Staged, 0)]);
    var s2 := s1.(workers := [Woken(Staged, 0, false)]);
    var s3 := s2.(shared := s2.shared.(decide := None), workers := [Concluding], log := s2.log + [Returned(0, Revert)]);
    assert Step(s, Clear(0)) == s1 && Step(s1, TimeOut(0)) == s2 && Step(s2, Read(0)) == s3;
    var r1 := [Read(0)] + [];
    var r2 := [TimeOut(0)] + r1;
    assert [Clear(0), TimeOut(0), Read(0)] == [Clear(0)] + r2 && [Clear(0)] == [Clear(0)] + [];
    RunConcat(INITIAL, EARLY, [Clear(0)]);
    RunConcat(INITIAL, EARLY, [Clear(0)] + r2);
    RunFirst(s, Clear(0), []);
    RunFirst(s, Clear(0), r2);
    RunNone(s1);
    RunFirst(s1, TimeOut(0), r1);
    RunFirst(s2, Read(0), []);
    RunNone(s3);
  }
}
