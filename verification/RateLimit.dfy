/** Per-IP lockout after repeated authentication failures (genpi/ratelimit.py), and the order in
    which auth_required consults it (genpi/auth.py). */
module RateLimit {
  import opened Prelude

  datatype Entry = Entry(count: int, lockedUntil: Option<real>, lastAttempt: real)
  datatype Config = Config(maxFailures: int, lockout: real, cleanup: real, maxIps: int)
  datatype Tracker = Tracker(entries: map<string, Entry>, lastCleanup: real)

  // ------------------------------------------------------------- specification

  predicate Stale(e: Entry, now: real, cleanup: real) {
    (e.lockedUntil.Some? && e.lockedUntil.value <= now) || now - e.lastAttempt > cleanup
  }

  function Cleaned(t: Tracker, cfg: Config, now: real): Tracker {
    if now - t.lastCleanup < cfg.cleanup then t
    else Tracker(map ip | ip in t.entries && !Stale(t.entries[ip], now, cfg.cleanup) :: t.entries[ip], now)
  }

  /** The tracker after is_rate_limited, and the seconds remaining; the clock is read twice. */
  function Checked(t: Tracker, cfg: Config, ip: string, now1: real, now2: real): (Tracker, real) {
    var c := Cleaned(t, cfg, now1);
    if ip !in c.entries || c.entries[ip].lockedUntil.None? then (c, 0.0)
    else
      var remaining := c.entries[ip].lockedUntil.value - now2;
      if remaining <= 0.0 then (c.(entries := c.entries - {ip}), 0.0) else (c, remaining)
  }

  predicate MustEvict(t: Tracker, cfg: Config, ip: string) {
    ip !in t.entries && |t.entries| >= cfg.maxIps
  }

  predicate IsOldest(entries: map<string, Entry>, ip: string) {
    ip in entries && forall k :: k in entries ==> entries[ip].lastAttempt <= entries[k].lastAttempt
  }

  function Failed(t: Tracker, cfg: Config, ip: string, victim: string, now1: real, now2: real): Tracker {
    var kept := if MustEvict(t, cfg, ip) then t.entries - {victim} else t.entries;
    var was := if ip in kept then kept[ip] else Entry(0, None, 0.0);
    var count := was.count + 1;
    var locked := if count >= cfg.maxFailures then Some(now2 + cfg.lockout) else was.lockedUntil;
    t.(entries := kept[ip := Entry(count, locked, now1)])
  }

  function Cleared(t: Tracker, ip: string): Tracker {
    t.(entries := t.entries - {ip})
  }

  // ------------------------------------------------------------- the tracker

  datatype Outcome = Limited(remaining: real) | Granted | Denied(locked: bool, count: int)

  class Limiter {
    const cfg: Config
    var tracker: map<string, Entry>
    var lastCleanup: real

    ghost function Abs(): Tracker
      reads this
    {
      Tracker(tracker, lastCleanup)
    }

    constructor (cfg: Config, now: real)
      ensures this.cfg == cfg && Abs() == Tracker(map[], now)
    {
      this.cfg, tracker, lastCleanup := cfg, map[], now;
    }

    method CleanupTracker(now: real)
      modifies this
      ensures Abs() == Cleaned(old(Abs()), cfg, now)
    {
      if now - lastCleanup < cfg.cleanup {
        return;
      }
      lastCleanup := now;
      var was := tracker;
      var todo := tracker.Keys;
      while todo != {}
        invariant todo <= was.Keys && lastCleanup == now
        invariant tracker == map ip | ip in was && (ip in todo || !Stale(was[ip], now, cfg.cleanup)) :: was[ip]
        decreases todo
      {
        var ip :| ip in todo;
        if Stale(was[ip], now, cfg.cleanup) {
          tracker := tracker - {ip};
        }
        todo := todo - {ip};
      }
    }

    method IsRateLimited(ip: string, now1: real, now2: real) returns (remaining: real)
      modifies this
      ensures (Abs(), remaining) == Checked(old(Abs()), cfg, ip, now1, now2)
    {
      CleanupTracker(now1);
      if ip !in tracker || tracker[ip].lockedUntil.None? {
        return 0.0;
      }
      remaining := tracker[ip].lockedUntil.value - now2;
      if remaining <= 0.0 {
        tracker := tracker - {ip};
        return 0.0;
      }
    }

    method Oldest() returns (oldest: string)
      requires |tracker| > 0
      ensures IsOldest(tracker, oldest)
    {
      var todo := tracker.Keys;
      assert tracker.Keys != {};
      oldest :| oldest in todo;
      while todo != {}
        invariant todo <= tracker.Keys && oldest in tracker
        invariant forall k :: k in tracker && k !in todo ==> tracker[oldest].lastAttempt <= tracker[k].lastAttempt
        decreases todo
      {
        var k :| k in todo;
        if tracker[k].lastAttempt < tracker[oldest].lastAttempt {
          oldest := k;
        }
        todo := todo - {k};
      }
    }

    /** None when min() of an empty tracker raises, which only a cap below one can cause. */
    method RecordFailure(ip: string, now1: real, now2: real) returns (r: Option<(bool, int)>, ghost victim: string)
      modifies this
      ensures r.None? <==> old(MustEvict(Abs(), cfg, ip)) && old(|tracker|) == 0
      ensures r.None? ==> Abs() == old(Abs())
      ensures r.Some? ==> Abs() == Failed(old(Abs()), cfg, ip, victim, now1, now2)
      ensures r.Some? && old(MustEvict(Abs(), cfg, ip)) ==> IsOldest(old(tracker), victim)
      ensures r.Some? ==> ip in tracker && r.value == (tracker[ip].count >= cfg.maxFailures, tracker[ip].count)
    {
      victim := ip;
      if ip !in tracker && |tracker| >= cfg.maxIps {
        if |tracker| == 0 {
          return None, victim;
        }
        var oldest := Oldest();
        victim := oldest;
        tracker := tracker - {oldest};
      }
      var entry := if ip in tracker then tracker[ip] else Entry(0, None, 0.0);
      entry := entry.(count := entry.count + 1, lastAttempt := now1);
      if entry.count >= cfg.maxFailures {
        entry := entry.(lockedUntil := Some(now2 + cfg.lockout));
        tracker := tracker[ip := entry];
        return Some((true, entry.count)), victim;
      }
      tracker := tracker[ip := entry];
      return Some((false, entry.count)), victim;
    }

    method RecordSuccess(ip: string)
      modifies this
      ensures Abs() == Cleared(old(Abs()), ip)
    {
      if ip in tracker {
        tracker := tracker - {ip};
      }
    }

    /** One whole request: the limiter first, then the API key, then the password. A locked-out
        address is turned away even with a valid key; only a failed check of both is recorded. */
    method AuthRequired(ip: string, keyValid: bool, passwordValid: bool, now1: real, now2: real, now3: real, now4: real)
      returns (r: Option<Outcome>, ghost victim: string)
      modifies this
      ensures var (t, remaining) := Checked(old(Abs()), cfg, ip, now1, now2);
              && (remaining > 0.0 ==> r == Some(Limited(remaining)) && Abs() == t)
              && (remaining <= 0.0 && (keyValid || passwordValid) ==> r == Some(Granted) && Abs() == Cleared(t, ip))
              && (remaining <= 0.0 && !keyValid && !passwordValid && r.Some? ==>
                    && ip in tracker && r.value == Denied(tracker[ip].count >= cfg.maxFailures, tracker[ip].count)
                    && Abs() == Failed(t, cfg, ip, victim, now3, now4)
                    && (MustEvict(t, cfg, ip) ==> IsOldest(t.entries, victim)))
              && (r.None? ==> cfg.maxIps <= 0)
    {
      victim := ip;
      var remaining := IsRateLimited(ip, now1, now2);
      if remaining > 0.0 {
        return Some(Limited(remaining)), victim;
      }
      if keyValid || passwordValid {
        RecordSuccess(ip);
        return Some(Granted), victim;
      }
      var failure;
      failure, victim := RecordFailure(ip, now3, now4);
      r := if failure.Some? then Some(Denied(failure.value.0, failure.value.1)) else None;
    }
  }

  // ------------------------------------------------------------- runs

  /** The lock sections of any number of requests, interleaved. */
  datatype Op =
    | Enter(ip: string, now1: real, now2: real)
    | Fail(ip: string, victim: string, now1: real, now2: real)
    | Succeed(ip: string, now1: real, now2: real)

  /** `pending`: how many requests of the observed address have passed the limiter and are being verified. */
  datatype Sys = Sys(t: Tracker, pending: nat)

  /** The clock never goes back; at most `width` requests of the observed address are verified at once,
      none of them succeeds, and its entry is not evicted for lack of room. Others do as they like. */
  ghost predicate Legal(s: Sys, cfg: Config, me: string, width: nat, op: Op, clock: real) {
    && clock <= op.now1 <= op.now2
    && (op.Fail? && MustEvict(s.t, cfg, op.ip) ==> IsOldest(s.t.entries, op.victim) && op.victim != me)
    && (op.ip == me ==> if op.Enter? then s.pending < width else op.Fail? && s.pending > 0)
  }

  ghost function Step(s: Sys, cfg: Config, me: string, op: Op): Sys
    requires op.Fail? && op.ip == me ==> s.pending > 0
  {
    match op
    case Enter(ip, now1, now2) =>
      var (t, remaining) := Checked(s.t, cfg, ip, now1, now2);
      Sys(t, if ip == me && remaining <= 0.0 then s.pending + 1 else s.pending)
    case Fail(ip, victim, now1, now2) =>
      Sys(Failed(s.t, cfg, ip, victim, now1, now2), if ip == me then s.pending - 1 else s.pending)
    case Succeed(ip, _, _) => s.(t := Cleared(s.t, ip))
  }

  ghost predicate LegalRun(s: Sys, cfg: Config, me: string, width: nat, ops: seq<Op>, clock: real)
    decreases |ops|
  {
    ops != [] ==> Legal(s, cfg, me, width, ops[0], clock)
                  && LegalRun(Step(s, cfg, me, ops[0]), cfg, me, width, ops[1..], ops[0].now2)
  }

  /** When the observed address failed. */
  ghost function Failures(ops: seq<Op>, me: string): seq<real> {
    if ops == [] then []
    else (if ops[0].Fail? && ops[0].ip == me then [ops[0].now1] else []) + Failures(ops[1..], me)
  }

  ghost function InWindow(times: seq<real>, start: real, length: real): nat {
    if times == [] then 0
    else (if start <= times[0] < start + length then 1 else 0) + InWindow(times[1..], start, length)
  }

  // ------------------------------------------------------------- the window bound

  ghost predicate Ascending(f: seq<real>) {
    forall i, j :: 0 <= i < j < |f| ==> f[i] <= f[j]
  }

  /** Any m + 1 consecutive failures span at least a lockout. */
  ghost predicate Spaced(f: seq<real>, m: nat, lockout: real) {
    forall i, j :: 0 <= i && j == i + m && j < |f| ==> f[j] >= f[i] + lockout
  }

  lemma {:induction false} NoneInWindow(f: seq<real>, start: real, length: real)
    requires forall i :: 0 <= i < |f| ==> f[i] >= start + length
    ensures InWindow(f, start, length) == 0
  {
    if f != [] {
      NoneInWindow(f[1..], start, length);
    }
  }

  lemma {:induction false} WindowSplit(f: seq<real>, g: seq<real>, start: real, length: real)
    ensures InWindow(f + g, start, length) == InWindow(f, start, length) + InWindow(g, start, length)
    ensures InWindow(f, start, length) <= |f|
  {
    if f == [] {
      assert f + g == g;
    } else {
      assert (f + g)[0] == f[0] && (f + g)[1..] == f[1..] + g;
      WindowSplit(f[1..], g, start, length);
    }
  }

  lemma {:induction false} SpacedBoundsWindow(f: seq<real>, m: nat, start: real, length: real)
    requires Ascending(f) && Spaced(f, m, length) && m >= 1
    ensures InWindow(f, start, length) <= m
  {
    if |f| <= m {
      WindowSplit(f, [], start, length);
    } else if f[0] < start {
      SpacedBoundsWindow(f[1..], m, start, length);
    } else {
      assert f == f[..m] + f[m..];
      WindowSplit(f[..m], f[m..], start, length);
      assert f[m] >= f[0] + length;
      NoneInWindow(f[m..], start, length);
    }
  }

  /** How many failures a window of the lockout's length can hold. */
  function Bound(cfg: Config, width: nat): nat
    requires cfg.maxFailures >= 1 && width >= 1
  {
    cfg.maxFailures + width - 1
  }

  /** The failures f of the observed address, as far as the tracker remembers them. */
  ghost predicate Remembers(s: Sys, cfg: Config, me: string, width: nat, f: seq<real>, clock: real)
    requires cfg.maxFailures >= 1 && width >= 1
  {
    var e := s.t.entries;
    var count := if me in e then e[me].count else 0;
    && 0 <= count <= |f|
    && (me in e ==> count >= 1 && e[me].lastAttempt == f[|f| - 1])
    && (me in e && e[me].lockedUntil.None? ==> count < cfg.maxFailures)
    && (me in e && e[me].lockedUntil.Some? ==>
          count >= cfg.maxFailures && e[me].lockedUntil.value >= f[|f| - 1] + cfg.lockout)
    // whoever passed while it was unlocked can still fail
    && s.pending <= width && count + s.pending <= Bound(cfg, width)
    // whatever it has forgotten lies a lockout back
    && (forall i :: 0 <= i < |f| - count ==> f[i] + cfg.lockout <= clock)
    && Ascending(f) && (forall i :: 0 <= i < |f| ==> f[i] <= clock)
    && Spaced(f, Bound(cfg, width), cfg.lockout)
  }

  lemma EnterKeeps(s: Sys, cfg: Config, me: string, width: nat, op: Op, f: seq<real>, clock: real)
    requires cfg.maxFailures >= 1 && width >= 1 && cfg.lockout <= cfg.cleanup
    requires Remembers(s, cfg, me, width, f, clock) && Legal(s, cfg, me, width, op, clock) && op.Enter?
    ensures Remembers(Step(s, cfg, me, op), cfg, me, width, f, op.now2)
  {
    hide Spaced, Ascending;
    var c := Cleaned(s.t, cfg, op.now1);
    assert me in s.t.entries && me !in c.entries ==> f[|f| - 1] + cfg.lockout <= op.now1;
    LastIsLatest(f);
  }

  lemma LastIsLatest(f: seq<real>)
    requires Ascending(f)
    ensures forall i :: 0 <= i < |f| ==> f[i] <= f[|f| - 1]
  {
  }

  lemma SpacedAppend(f: seq<real>, m: nat, lockout: real, now: real)
    requires Spaced(f, m, lockout) && m >= 1
    requires |f| >= m ==> now >= f[|f| - m] + lockout
    ensures Spaced(f + [now], m, lockout)
  {
  }

  lemma AscendingAppend(f: seq<real>, now: real)
    requires Ascending(f) && forall i :: 0 <= i < |f| ==> f[i] <= now
    ensures Ascending(f + [now])
  {
  }

  lemma FailKeeps(s: Sys, cfg: Config, me: string, width: nat, op: Op, f: seq<real>, clock: real)
    requires cfg.maxFailures >= 1 && width >= 1
    requires Remembers(s, cfg, me, width, f, clock) && Legal(s, cfg, me, width, op, clock) && op.Fail?
    ensures Remembers(Step(s, cfg, me, op), cfg, me, width, if op.ip == me then f + [op.now1] else f, op.now2)
  {
    hide Spaced, Ascending;
    if op.ip == me {
      assert |f| >= Bound(cfg, width) ==> op.now1 >= f[|f| - Bound(cfg, width)] + cfg.lockout;
      SpacedAppend(f, Bound(cfg, width), cfg.lockout, op.now1);
      AscendingAppend(f, op.now1);
    }
  }

  lemma StepKeeps(s: Sys, cfg: Config, me: string, width: nat, op: Op, f: seq<real>, clock: real)
    requires cfg.maxFailures >= 1 && width >= 1 && cfg.lockout <= cfg.cleanup
    requires Remembers(s, cfg, me, width, f, clock) && Legal(s, cfg, me, width, op, clock)
    ensures Remembers(Step(s, cfg, me, op), cfg, me, width, f + Failures([op], me), op.now2)
  {
    assert Failures([op], me) == if op.Fail? && op.ip == me then [op.now1] else [];
    assert f + [] == f;
    match op {
      case Enter(_, _, _) => EnterKeeps(s, cfg, me, width, op, f, clock);
      case Fail(_, _, _, _) => FailKeeps(s, cfg, me, width, op, f, clock);
      case Succeed(_, _, _) =>
    }
  }

  lemma FailuresCons(ops: seq<Op>, me: string)
    requires ops != []
    ensures Failures(ops, me) == Failures([ops[0]], me) + Failures(ops[1..], me)
  {
    assert [ops[0]][1..] == [];
    assert Failures([], me) == [];
  }

  lemma {:induction false} RunIsSpaced(s: Sys, cfg: Config, me: string, width: nat, ops: seq<Op>, f: seq<real>,
                                       clock: real)
    requires cfg.maxFailures >= 1 && width >= 1 && cfg.lockout <= cfg.cleanup
    requires Remembers(s, cfg, me, width, f, clock) && LegalRun(s, cfg, me, width, ops, clock)
    ensures var g := f + Failures(ops, me); Ascending(g) && Spaced(g, Bound(cfg, width), cfg.lockout)
    decreases |ops|
  {
    if ops == [] {
      assert f + Failures(ops, me) == f;
    } else {
      StepKeeps(s, cfg, me, width, ops[0], f, clock);
      hide Step, Ascending, Spaced;
      var g := f + Failures([ops[0]], me);
      RunIsSpaced(Step(s, cfg, me, ops[0]), cfg, me, width, ops[1..], g, ops[0].now2);
      FailuresCons(ops, me);
      assert f + Failures(ops, me) == g + Failures(ops[1..], me);
    }
  }

  ghost function Start(now: real): Sys {
    Sys(Tracker(map[], now), 0)
  }

  /** However clean-ups and other addresses interleave, in any window as long as the lockout fall at
      most maxFailures failures of one address, plus one for each further request verified at once. */
  lemma WindowBound(cfg: Config, me: string, width: nat, ops: seq<Op>, now: real, start: real)
    requires cfg.maxFailures >= 1 && width >= 1 && cfg.lockout <= cfg.cleanup
    requires LegalRun(Start(now), cfg, me, width, ops, now)
    ensures InWindow(Failures(ops, me), start, cfg.lockout) <= Bound(cfg, width)
  {
    RunIsSpaced(Start(now), cfg, me, width, ops, [], now);
    assert [] + Failures(ops, me) == Failures(ops, me);
    SpacedBoundsWindow(Failures(ops, me), Bound(cfg, width), start, cfg.lockout);
  }

  // --------------------------------- the bound is reached, and a short clean-up interval breaks it

  /** After c failures at time 0, with p more requests past the limiter. */
  ghost function Burst(cfg: Config, me: string, c: nat, p: nat): Sys {
    var locked := if c >= cfg.maxFailures then Some(cfg.lockout) else None;
    Sys(Tracker(if c == 0 then map[] else map[me := Entry(c, locked, 0.0)], 0.0), p)
  }

  ghost predicate InBurst(cfg: Config, width: nat, c: nat, p: nat) {
    && cfg.maxFailures >= 1 && width >= 1 && cfg.maxIps >= 1 && cfg.cleanup >= 0.0
    && p <= width && c + p <= Bound(cfg, width)
    && (c < cfg.maxFailures - 1 ==> p <= 1) && (c >= cfg.maxFailures ==> c + p == Bound(cfg, width))
  }

  /** One request at a time up to the last free failure, then all that may enter at once. */
  predicate EnterNext(cfg: Config, width: nat, c: nat, p: nat) {
    (c < cfg.maxFailures - 1 && p == 0) || (c == cfg.maxFailures - 1 && p < width)
  }

  /** The rest of the burst, and one more request at time `later` if there is to be one. */
  ghost function Script(cfg: Config, me: string, width: nat, c: nat, p: nat, later: Option<real>): seq<Op>
    requires InBurst(cfg, width, c, p)
    decreases Bound(cfg, width) + 1 - c, width + 1 - p
  {
    if EnterNext(cfg, width, c, p) then [Enter(me, 0.0, 0.0)] + Script(cfg, me, width, c, p + 1, later)
    else if p > 0 then [Fail(me, me, 0.0, 0.0)] + Script(cfg, me, width, c + 1, p - 1, later)
    else if later.Some? then [Enter(me, later.value, later.value), Fail(me, me, later.value, later.value)]
    else []
  }

  lemma OneOp(s: Sys, cfg: Config, me: string, width: nat, op: Op, rest: seq<Op>, clock: real)
    requires Legal(s, cfg, me, width, op, clock) && LegalRun(Step(s, cfg, me, op), cfg, me, width, rest, op.now2)
    ensures LegalRun(s, cfg, me, width, [op] + rest, clock)
    ensures Failures([op] + rest, me) == (if op.Fail? && op.ip == me then [op.now1] else []) + Failures(rest, me)
  {
    assert ([op] + rest)[1..] == rest;
  }

  lemma EnterInBurst(cfg: Config, me: string, width: nat, c: nat, p: nat)
    requires InBurst(cfg, width, c, p) && EnterNext(cfg, width, c, p)
    ensures var s, op := Burst(cfg, me, c, p), Enter(me, 0.0, 0.0);
            Legal(s, cfg, me, width, op, 0.0) && Step(s, cfg, me, op) == Burst(cfg, me, c, p + 1)
  {
    var s := Burst(cfg, me, c, p);
    assert Cleaned(s.t, cfg, 0.0).entries == s.t.entries;
  }

  lemma FailInBurst(cfg: Config, me: string, width: nat, c: nat, p: nat)
    requires InBurst(cfg, width, c, p) && p > 0
    ensures var s, op := Burst(cfg, me, c, p), Fail(me, me, 0.0, 0.0);
            Legal(s, cfg, me, width, op, 0.0) && Step(s, cfg, me, op) == Burst(cfg, me, c + 1, p - 1)
  {
  }

  lemma AfterCleanup(cfg: Config, me: string, width: nat, c: nat, later: real)
    requires InBurst(cfg, width, c, 0) && cfg.cleanup < later < cfg.lockout
    ensures var s, enter, fail := Burst(cfg, me, c, 0), Enter(me, later, later), Fail(me, me, later, later);
            && LegalRun(s, cfg, me, width, [enter, fail], 0.0)
            && Failures([enter, fail], me) == [later]
  {
    var s, enter, fail := Burst(cfg, me, c, 0), Enter(me, later, later), Fail(me, me, later, later);
    assert Cleaned(s.t, cfg, later).entries == map[];
    assert [fail][1..] == [] && [enter, fail][1..] == [fail];
    assert Failures([], me) == [];
  }

  /** The script is legal, and all its failures fall within one lockout. */
  lemma {:induction false} ScriptIsLegal(cfg: Config, me: string, width: nat, c: nat, p: nat, later: Option<real>)
    requires InBurst(cfg, width, c, p) && cfg.lockout > 0.0
    requires later.Some? ==> cfg.cleanup < later.value < cfg.lockout
    ensures var ops := Script(cfg, me, width, c, p, later);
            && LegalRun(Burst(cfg, me, c, p), cfg, me, width, ops, 0.0)
            && InWindow(Failures(ops, me), 0.0, cfg.lockout) == Bound(cfg, width) - c + (if later.Some? then 1 else 0)
    decreases Bound(cfg, width) + 1 - c, width + 1 - p
  {
    hide Step, Legal, Burst;
    if EnterNext(cfg, width, c, p) {
      EnterInBurst(cfg, me, width, c, p);
      ScriptIsLegal(cfg, me, width, c, p + 1, later);
      var rest := Script(cfg, me, width, c, p + 1, later);
      OneOp(Burst(cfg, me, c, p), cfg, me, width, Enter(me, 0.0, 0.0), rest, 0.0);
      assert [] + Failures(rest, me) == Failures(rest, me);
    } else if p > 0 {
      FailInBurst(cfg, me, width, c, p);
      ScriptIsLegal(cfg, me, width, c + 1, p - 1, later);
      var rest := Script(cfg, me, width, c + 1, p - 1, later);
      OneOp(Burst(cfg, me, c, p), cfg, me, width, Fail(me, me, 0.0, 0.0), rest, 0.0);
      assert ([0.0] + Failures(rest, me))[1..] == Failures(rest, me);
    } else if later.Some? {
      AfterCleanup(cfg, me, width, c, later.value);
      assert [later.value][1..] == [];
    }
  }

  /** The bound is reached, whatever the clean-up interval: each request verified at once counts. */
  lemma BoundIsReached(cfg: Config, me: string, width: nat)
    requires cfg.maxFailures >= 1 && width >= 1 && cfg.maxIps >= 1 && cfg.cleanup >= 0.0 && cfg.lockout > 0.0
    ensures exists ops: seq<Op> :: LegalRun(Start(0.0), cfg, me, width, ops, 0.0)
                                   && InWindow(Failures(ops, me), 0.0, cfg.lockout) == Bound(cfg, width)
  {
    ScriptIsLegal(cfg, me, width, 0, 0, None);
    assert Burst(cfg, me, 0, 0) == Start(0.0);
    var ops := Script(cfg, me, width, 0, 0, None);
    assert LegalRun(Start(0.0), cfg, me, width, ops, 0.0);
  }

  /** The bound holds for every run if and only if the lockout is no longer than the clean-up interval. */
  lemma WindowBoundExactly(cfg: Config, me: string, width: nat)
    requires cfg.maxFailures >= 1 && width >= 1 && cfg.maxIps >= 1 && cfg.cleanup >= 0.0
    ensures (forall ops: seq<Op> :: LegalRun(Start(0.0), cfg, me, width, ops, 0.0) ==>
               forall start: real :: InWindow(Failures(ops, me), start, cfg.lockout) <= Bound(cfg, width))
            <==> cfg.lockout <= cfg.cleanup
  {
    if cfg.lockout <= cfg.cleanup {
      forall ops: seq<Op>, start: real | LegalRun(Start(0.0), cfg, me, width, ops, 0.0)
        ensures InWindow(Failures(ops, me), start, cfg.lockout) <= Bound(cfg, width)
      {
        WindowBound(cfg, me, width, ops, 0.0, start);
      }
    } else {
      var later := (cfg.cleanup + cfg.lockout) / 2.0;
      ScriptIsLegal(cfg, me, width, 0, 0, Some(later));
      assert Burst(cfg, me, 0, 0) == Start(0.0);
      var ops := Script(cfg, me, width, 0, 0, Some(later));
      assert InWindow(Failures(ops, me), 0.0, cfg.lockout) > Bound(cfg, width);
    }
  }

  // ------------------------------------------------------------- who is locked out, and for how long

  /** A due clean-up drops exactly the entries whose lock has run out or whose last attempt lies more than a
      clean-up interval back; otherwise nothing happens. */
  lemma CleanupExactly(t: Tracker, cfg: Config, now: real, ip: string)
    ensures var c := Cleaned(t, cfg, now);
            if now < t.lastCleanup + cfg.cleanup then c == t
            else
              && c.lastCleanup == now
              && (ip in c.entries <==>
                    ip in t.entries && t.entries[ip].lastAttempt >= now - cfg.cleanup
                    && (t.entries[ip].lockedUntil.Some? ==> t.entries[ip].lockedUntil.value > now))
              && (ip in c.entries ==> c.entries[ip] == t.entries[ip])
  {
  }

  /** Failures of one address, one after the other, each with the two clock readings it makes. */
  function AllFailed(t: Tracker, cfg: Config, ip: string, times: seq<(real, real)>): Tracker
    decreases |times|
  {
    if times == [] then t
    else
      var n := |times| - 1;
      Failed(AllFailed(t, cfg, ip, times[..n]), cfg, ip, ip, times[n].0, times[n].1)
  }

  /** They are counted from one, the lock is set from the limit on and renewed by each, and nobody else's
      entry is touched. */
  lemma {:induction false} FailuresCount(t: Tracker, cfg: Config, ip: string, times: seq<(real, real)>)
    requires ip !in t.entries && |t.entries| < cfg.maxIps && times != []
    ensures var last, r := times[|times| - 1], AllFailed(t, cfg, ip, times);
            var locked := if |times| >= cfg.maxFailures then Some(last.1 + cfg.lockout) else None;
            r == Tracker(t.entries[ip := Entry(|times|, locked, last.0)], t.lastCleanup)
    decreases |times|
  {
    var n := |times| - 1;
    if n > 0 {
      FailuresCount(t, cfg, ip, times[..n]);
    } else {
      assert AllFailed(t, cfg, ip, times[..0]) == t;
    }
  }

  /** After that many failures a request of the address is turned away if and only if they reach the limit,
      the lockout counted from the last one has not run out, and no clean-up has dropped the entry; it is
      told the time that is left. */
  lemma LockedExactly(t: Tracker, cfg: Config, ip: string, times: seq<(real, real)>, now1: real, now2: real)
    requires ip !in t.entries && |t.entries| < cfg.maxIps && times != []
    ensures var last := times[|times| - 1];
            var remaining := Checked(AllFailed(t, cfg, ip, times), cfg, ip, now1, now2).1;
            var dropped := now1 >= t.lastCleanup + cfg.cleanup
                           && (last.1 + cfg.lockout <= now1 || last.0 < now1 - cfg.cleanup);
            && (remaining > 0.0 <==> |times| >= cfg.maxFailures && now2 < last.1 + cfg.lockout && !dropped)
            && (remaining > 0.0 ==> remaining == last.1 + cfg.lockout - now2)
  {
    FailuresCount(t, cfg, ip, times);
    var r := AllFailed(t, cfg, ip, times);
    hide AllFailed;
    CleanupExactly(r, cfg, now1, ip);
  }

  /** A success makes the next failures count from one again, and leaves every other address as it was. */
  lemma SuccessStartsAfresh(t: Tracker, cfg: Config, ip: string, times: seq<(real, real)>, other: string)
    requires |t.entries| <= cfg.maxIps && (ip in t.entries || |t.entries| < cfg.maxIps) && times != []
    ensures var r := AllFailed(Cleared(t, ip), cfg, ip, times).entries;
            && ip in r && r[ip].count == |times|
            && (other != ip ==> (other in r <==> other in t.entries) && (other in r ==> r[other] == t.entries[other]))
  {
    var c := Cleared(t, ip);
    assert c.entries.Keys == t.entries.Keys - {ip};
    assert |c.entries| == |c.entries.Keys| && |t.entries| == |t.entries.Keys|;
    if ip in t.entries { assert t.entries.Keys == c.entries.Keys + {ip}; }
    else { assert c.entries == t.entries; }
    FailuresCount(c, cfg, ip, times);
  }

  /** Only an address that is not tracked yet, and finds the tracker full, costs another one its entry. */
  lemma FailureSparesOthers(t: Tracker, cfg: Config, ip: string, victim: string, now1: real, now2: real, other: string)
    requires other != ip && other in t.entries
    requires ip in t.entries || |t.entries| < cfg.maxIps || other != victim
    ensures var r := Failed(t, cfg, ip, victim, now1, now2).entries; other in r && r[other] == t.entries[other]
  {
  }

  // ------------------------------------------------------------- the cap

  /** No operation lets the tracker outgrow its cap. */
  lemma TrackerIsCapped(s: Sys, cfg: Config, me: string, op: Op)
    requires |s.t.entries| <= cfg.maxIps
    requires op.Fail? && MustEvict(s.t, cfg, op.ip) ==> op.victim in s.t.entries
    requires op.Fail? && op.ip == me ==> s.pending > 0
    ensures |Step(s, cfg, me, op).t.entries| <= cfg.maxIps
  {
    var e := s.t.entries;
    match op {
      case Enter(ip, now1, now2) =>
        SubmapSize(Checked(s.t, cfg, ip, now1, now2).0.entries, e);
      case Succeed(ip, _, _) =>
        SubmapSize(e - {ip}, e);
      case Fail(ip, victim, now1, now2) =>
        FailedSize(s.t, cfg, ip, victim, now1, now2);
    }
  }

  lemma FailedSize(t: Tracker, cfg: Config, ip: string, victim: string, now1: real, now2: real)
    requires MustEvict(t, cfg, ip) ==> victim in t.entries
    ensures |Failed(t, cfg, ip, victim, now1, now2).entries|
            == |t.entries| + (if ip in t.entries || MustEvict(t, cfg, ip) then 0 else 1)
  {
    var after := Failed(t, cfg, ip, victim, now1, now2).entries;
    var kept := if MustEvict(t, cfg, ip) then t.entries - {victim} else t.entries;
    assert after.Keys == kept.Keys + {ip};
    if MustEvict(t, cfg, ip) {
      assert t.entries.Keys == kept.Keys + {victim};
    } else {
      assert kept.Keys == t.entries.Keys;
    }
    assert |after| == |after.Keys| && |t.entries| == |t.entries.Keys|;
  }

  lemma SubmapSize(a: map<string, Entry>, b: map<string, Entry>)
    requires a.Keys <= b.Keys
    ensures |a| <= |b|
  {
    SubsetSize(a.Keys, b.Keys);
    assert |a| == |a.Keys| && |b| == |b.Keys|;
  }
}
