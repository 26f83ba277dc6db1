/** The browser's single-flight poll queue (genpi/frontend/app.js): one request at a time,
    at most one waiting job per key, and ageing so that no key starves. */
module PollQueue {
  import opened Prelude

  // `ticket` stands for the promise resolver the caller handed over.
  datatype Job = Job(key: string, path: string, ms: Option<nat>, ticket: nat, t: int)
  datatype Resolution = Resolution(ticket: nat, data: Option<string>)
  datatype State = State(queue: seq<Job>, inFlight: Option<Job>, resolved: seq<Resolution>)

  datatype Event =
    | Fetch(key: string, path: string, ms: Option<nat>, ticket: nat, paused: bool, t: int, now: int, age: int)
    | Respond(data: Option<string>, now: int, age: int)

  const MIN_AGE_MS := 1000

  function Base(key: string): nat {
    if key == "state" then 0
    else if key == "events" || key == "logs" then 1
    else if key == "sys" then 2
    else 9
  }

  function Stamp(job: Job, now: int): int {
    if job.t == 0 then now else job.t
  }

  function Effective(job: Job, now: int, age: int): int
    requires age > 0
  {
    Base(job.key) - (now - Stamp(job, now)) / age
  }

  /** a is strictly more urgent than b. */
  predicate Before(a: Job, b: Job, now: int, age: int)
    requires age > 0
  {
    var ea, eb := Effective(a, now, age), Effective(b, now, age);
    ea < eb || (ea == eb && Stamp(a, now) < Stamp(b, now))
  }

  /** The most urgent of the first n jobs; the leftmost one on a full tie. */
  function PickIndex(q: seq<Job>, n: nat, now: int, age: int): (b: nat)
    requires 1 <= n <= |q| && age > 0
    ensures b < n
  {
    if n == 1 then 0
    else
      var b := PickIndex(q, n - 1, now, age);
      if Before(q[n - 1], q[b], now, age) then n - 1 else b
  }

  /** The pick is minimal in (effective priority, enqueue time), and first among equals. */
  lemma {:induction false} PickIsMostUrgent(q: seq<Job>, n: nat, now: int, age: int)
    requires 1 <= n <= |q| && age > 0
    ensures var b := PickIndex(q, n, now, age);
            && (forall j :: 0 <= j < n ==> !Before(q[j], q[b], now, age))
            && (forall j :: 0 <= j < b ==> Before(q[b], q[j], now, age))
  {
    if n > 1 {
      PickIsMostUrgent(q, n - 1, now, age);
    }
  }

  function KeyIndex(q: seq<Job>, key: string): (i: nat)
    ensures i <= |q|
    ensures i < |q| ==> q[i].key == key
    ensures forall j :: 0 <= j < i ==> q[j].key != key
  {
    if q == [] then 0 else if q[0].key == key then 0 else 1 + KeyIndex(q[1..], key)
  }

  function Drain(s: State, now: int, age: int): State
    requires age > 0
  {
    if s.inFlight.Some? || s.queue == [] then s
    else
      var b := PickIndex(s.queue, |s.queue|, now, age);
      s.(queue := s.queue[..b] + s.queue[b + 1..], inFlight := Some(s.queue[b]))
  }

  function Answered(s: State, data: Option<string>): State
    requires s.inFlight.Some?
  {
    s.(inFlight := None, resolved := s.resolved + [Resolution(s.inFlight.value.ticket, data)])
  }

  function Next(s: State, e: Event): State
    requires e.age > 0
    requires e.Respond? ==> s.inFlight.Some?
  {
    match e
    case Respond(data, now, age) => Drain(Answered(s, data), now, age)
    case Fetch(key, path, ms, ticket, paused, t, now, age) =>
      if paused && key != "state" then
        s.(resolved := s.resolved + [Resolution(ticket, None)])
      else
        var i := KeyIndex(s.queue, key);
        if i < |s.queue| then
          s.(queue := s.queue[i := s.queue[i].(path := path, ms := ms, ticket := ticket)],
             resolved := s.resolved + [Resolution(s.queue[i].ticket, None)])
        else
          Drain(s.(queue := s.queue + [Job(key, path, ms, ticket, t)]), now, age)
  }

  /** The mutable queue itself. */
  class Poller {
    var pollQ: seq<Job>
    var pollActive: bool
    var inFlight: Option<Job>  // the job captured by the pending request's callbacks
    var resolved: seq<Resolution>

    ghost predicate Valid()
      reads this
    {
      pollActive == inFlight.Some?
    }

    ghost function Abs(): State
      reads this
    {
      State(pollQ, inFlight, resolved)
    }

    constructor ()
      ensures Valid() && Abs() == State([], None, [])
    {
      pollQ, pollActive, inFlight, resolved := [], false, None, [];
    }

    method PollFetch(key: string, path: string, ms: Option<nat>, ticket: nat, paused: bool, t: int, now: int,
                     refreshMs: int)
      requires Valid()
      modifies this
      ensures Valid()
      ensures Abs() == Next(old(Abs()), Fetch(key, path, ms, ticket, paused, t, now, Max(MIN_AGE_MS, refreshMs)))
    {
      if paused && key != "state" {
        resolved := resolved + [Resolution(ticket, None)];
        return;
      }
      var i := 0;
      while i < |pollQ|
        invariant 0 <= i <= |pollQ|
        invariant pollQ == old(pollQ) && pollActive == old(pollActive)
        invariant inFlight == old(inFlight) && resolved == old(resolved)
        invariant forall j :: 0 <= j < i ==> pollQ[j].key != key
      {
        if pollQ[i].key == key {
          assert KeyIndex(pollQ, key) == i;
          resolved := resolved + [Resolution(pollQ[i].ticket, None)];
          pollQ := pollQ[i := pollQ[i].(path := path, ms := ms, ticket := ticket)];
          return;
        }
        i := i + 1;
      }
      pollQ := pollQ + [Job(key, path, ms, ticket, t)];
      DrainPollQ(now, refreshMs);
    }

    method DrainPollQ(now: int, refreshMs: int)
      requires Valid()
      modifies this
      ensures Valid() && Abs() == Drain(old(Abs()), now, Max(MIN_AGE_MS, refreshMs))
    {
      if pollActive || |pollQ| == 0 {
        return;
      }
      pollActive := true;
      var age := Max(MIN_AGE_MS, refreshMs);
      var bi, beff, bt := 0, None, 0;
      var i := 0;
      while i < |pollQ|
        invariant 0 <= i <= |pollQ|
        invariant pollQ == old(pollQ) && inFlight == old(inFlight) && resolved == old(resolved) && pollActive
        invariant i == 0 ==> beff.None? && bi == 0
        invariant i > 0 ==> bi == PickIndex(pollQ, i, now, age)
                            && beff == Some(Effective(pollQ[bi], now, age)) && bt == Stamp(pollQ[bi], now)
      {
        var stamp := if pollQ[i].t == 0 then now else pollQ[i].t;
        var eff := Base(pollQ[i].key) - (now - stamp) / age;
        if beff.None? || eff < beff.value || (eff == beff.value && stamp < bt) {
          beff, bt, bi := Some(eff), stamp, i;
        }
        i := i + 1;
      }
      inFlight := Some(pollQ[bi]);
      pollQ := pollQ[..bi] + pollQ[bi + 1..];
    }

    /** The continuation that runs when the pending request ends, fails or is aborted. */
    method Finish(data: Option<string>, now: int, refreshMs: int)
      requires Valid() && pollActive
      modifies this
      ensures Valid() && Abs() == Next(old(Abs()), Respond(data, now, Max(MIN_AGE_MS, refreshMs)))
    {
      resolved := resolved + [Resolution(inFlight.value.ticket, data)];
      pollActive, inFlight := false, None;
      DrainPollQ(now, refreshMs);
    }
  }

  // ---------------------------------------------------------------- runs

  ghost predicate Legal(s: State, e: Event, clock: int, maxAge: int) {
    && MIN_AGE_MS <= e.age <= maxAge
    && 0 < clock <= e.now
    && (e.Respond? ==> s.inFlight.Some?)
    && (e.Fetch? ==> clock <= e.t <= e.now)
  }

  /** es is a run from s in which the clock never goes back and no ageing interval exceeds maxAge. */
  ghost predicate LegalRun(s: State, es: seq<Event>, clock: int, maxAge: int)
    decreases |es|
  {
    es != [] ==> Legal(s, es[0], clock, maxAge) && LegalRun(Next(s, es[0]), es[1..], es[0].now, maxAge)
  }

  ghost function Run(s: State, es: seq<Event>, clock: int, maxAge: int): State
    requires LegalRun(s, es, clock, maxAge)
    decreases |es|
  {
    if es == [] then s else Run(Next(s, es[0]), es[1..], es[0].now, maxAge)
  }

  /** At most one job per key waits, each stamped no later than the clock. */
  ghost predicate WellQueued(q: seq<Job>, clock: int) {
    && (forall i, j :: 0 <= i < j < |q| ==> q[i].key != q[j].key)
    && (forall i :: 0 <= i < |q| ==> 0 < q[i].t <= clock)
  }

  /** ... and nothing waits unless a request is in flight. */
  ghost predicate Inv(s: State, clock: int) {
    (s.queue != [] ==> s.inFlight.Some?) && WellQueued(s.queue, clock)
  }

  lemma TakeKeepsQueue(q: seq<Job>, b: nat, clock: int)
    requires b < |q| && WellQueued(q, clock)
    ensures WellQueued(q[..b] + q[b + 1..], clock)
  {
    var r := q[..b] + q[b + 1..];
    assert forall i :: 0 <= i < |r| ==> r[i] == q[if i < b then i else i + 1];
  }

  lemma PushKeepsInv(s: State, job: Job, now: int, age: int)
    requires (s.queue != [] ==> s.inFlight.Some?) && WellQueued(s.queue + [job], now) && age > 0
    ensures Inv(Drain(s.(queue := s.queue + [job]), now, age), now)
  {
    if s.inFlight.None? {
      var q := s.queue + [job];
      assert PickIndex(q, 1, now, age) == 0 && q[..0] + q[1..] == [];
    }
  }

  lemma StepKeepsInv(s: State, e: Event, clock: int, maxAge: int)
    requires Inv(s, clock) && Legal(s, e, clock, maxAge)
    ensures Inv(Next(s, e), e.now)
  {
    if e.Respond? {
      if s.queue != [] {
        TakeKeepsQueue(s.queue, PickIndex(s.queue, |s.queue|, e.now, e.age), e.now);
      }
    } else if !(e.paused && e.key != "state") && KeyIndex(s.queue, e.key) == |s.queue| {
      PushKeepsInv(s, Job(e.key, e.path, e.ms, e.ticket, e.t), e.now, e.age);
    }
  }

  lemma {:induction false} RunKeepsInv(s: State, es: seq<Event>, clock: int, maxAge: int)
    requires Inv(s, clock) && LegalRun(s, es, clock, maxAge)
    ensures Inv(Run(s, es, clock, maxAge), EndClock(es, clock))
    decreases |es|
  {
    if es != [] {
      StepKeepsInv(s, es[0], clock, maxAge);
      RunKeepsInv(Next(s, es[0]), es[1..], es[0].now, maxAge);
    }
  }

  ghost function EndClock(es: seq<Event>, clock: int): int {
    if es == [] then clock else EndClock(es[1..], es[0].now)
  }

  // ------------------------------------------- every call is answered exactly once

  ghost function QueuedTickets(q: seq<Job>): multiset<nat> {
    if q == [] then multiset{} else multiset{q[0].ticket} + QueuedTickets(q[1..])
  }

  ghost function ResolvedTickets(r: seq<Resolution>): multiset<nat> {
    if r == [] then multiset{} else ResolvedTickets(r[..|r| - 1]) + multiset{r[|r| - 1].ticket}
  }

  ghost function Tickets(s: State): multiset<nat> {
    ResolvedTickets(s.resolved) + QueuedTickets(s.queue)
    + (if s.inFlight.Some? then multiset{s.inFlight.value.ticket} else multiset{})
  }

  ghost function Issued(es: seq<Event>): multiset<nat> {
    if es == [] then multiset{}
    else (if es[0].Fetch? then multiset{es[0].ticket} else multiset{}) + Issued(es[1..])
  }

  lemma {:induction false} QueuedSplit(p: seq<Job>, q: seq<Job>)
    ensures QueuedTickets(p + q) == QueuedTickets(p) + QueuedTickets(q)
  {
    if p == [] {
      assert p + q == q;
    } else {
      assert (p + q)[0] == p[0] && (p + q)[1..] == p[1..] + q;
      QueuedSplit(p[1..], q);
    }
  }

  lemma QueuedAt(q: seq<Job>, i: nat, j: Job)
    requires i < |q|
    ensures QueuedTickets(q[i := j]) == QueuedTickets(q[..i] + q[i + 1..]) + multiset{j.ticket}
  {
    var tail := [j] + q[i + 1..];
    assert q[i := j] == q[..i] + tail;
    QueuedSplit(q[..i], q[i + 1..]);
    QueuedSplit(q[..i], tail);
    assert tail[1..] == q[i + 1..];
  }

  lemma DrainKeepsTickets(s: State, now: int, age: int)
    requires age > 0
    ensures Tickets(Drain(s, now, age)) == Tickets(s)
  {
    if s.inFlight.None? && s.queue != [] {
      var b := PickIndex(s.queue, |s.queue|, now, age);
      QueuedAt(s.queue, b, s.queue[b]);
      assert s.queue[b := s.queue[b]] == s.queue;
    }
  }

  lemma ResolveOne(r: seq<Resolution>, x: Resolution)
    ensures ResolvedTickets(r + [x]) == ResolvedTickets(r) + multiset{x.ticket}
  {
    assert (r + [x])[..|r|] == r;
  }

  lemma CoalesceTickets(s: State, i: nat, path: string, ms: Option<nat>, ticket: nat)
    requires i < |s.queue|
    ensures Tickets(s.(queue := s.queue[i := s.queue[i].(path := path, ms := ms, ticket := ticket)],
                       resolved := s.resolved + [Resolution(s.queue[i].ticket, None)]))
            == Tickets(s) + multiset{ticket}
  {
    hide QueuedTickets, ResolvedTickets;
    var q, job := s.queue, s.queue[i].(path := path, ms := ms, ticket := ticket);
    ResolveOne(s.resolved, Resolution(q[i].ticket, None));
    SwapTicket(q, i, job);
    var flying := if s.inFlight.Some? then multiset{s.inFlight.value.ticket} else multiset{};
    Rebalance(ResolvedTickets(s.resolved), QueuedTickets(q), QueuedTickets(q[i := job]), flying, q[i].ticket, ticket);
  }

  lemma Rebalance(r: multiset<nat>, q: multiset<nat>, p: multiset<nat>, f: multiset<nat>, x: nat, y: nat)
    requires p + multiset{x} == q + multiset{y}
    ensures r + multiset{x} + p + f == r + q + f + multiset{y}
  {
    assert r + multiset{x} + p + f == r + f + (p + multiset{x});
  }

  lemma SwapTicket(q: seq<Job>, i: nat, job: Job)
    requires i < |q|
    ensures QueuedTickets(q[i := job]) + multiset{q[i].ticket} == QueuedTickets(q) + multiset{job.ticket}
  {
    hide QueuedTickets;
    QueuedAt(q, i, job);
    QueuedAt(q, i, q[i]);
    assert q[i := q[i]] == q;
  }

  lemma PushTickets(s: State, job: Job)
    ensures Tickets(s.(queue := s.queue + [job])) == Tickets(s) + multiset{job.ticket}
  {
    QueuedSplit(s.queue, [job]);
    assert [job][1..] == [];
  }

  lemma AnsweredTickets(s: State, data: Option<string>)
    requires s.inFlight.Some?
    ensures Tickets(Answered(s, data)) == Tickets(s)
  {
    ResolveOne(s.resolved, Resolution(s.inFlight.value.ticket, data));
  }

  lemma TurnedAwayTickets(s: State, ticket: nat)
    ensures Tickets(s.(resolved := s.resolved + [Resolution(ticket, None)])) == Tickets(s) + multiset{ticket}
  {
    ResolveOne(s.resolved, Resolution(ticket, None));
  }

  lemma StepTickets(s: State, e: Event, clock: int, maxAge: int)
    requires Legal(s, e, clock, maxAge)
    ensures Tickets(Next(s, e)) == Tickets(s) + (if e.Fetch? then multiset{e.ticket} else multiset{})
  {
    hide Tickets, Drain, Answered;
    match e {
      case Respond(data, now, age) =>
        AnsweredTickets(s, data);
        DrainKeepsTickets(Answered(s, data), now, age);
      case Fetch(key, path, ms, ticket, paused, t, now, age) =>
        var i := KeyIndex(s.queue, key);
        if paused && key != "state" {
          TurnedAwayTickets(s, ticket);
        } else if i < |s.queue| {
          CoalesceTickets(s, i, path, ms, ticket);
        } else {
          var job := Job(key, path, ms, ticket, t);
          PushTickets(s, job);
          DrainKeepsTickets(s.(queue := s.queue + [job]), now, age);
        }
    }
  }

  /** Over any run, the tickets handed in are exactly those resolved, waiting or in flight: with
      distinct tickets, every call is resolved once or is still pending, never both or twice. */
  lemma {:induction false} EveryCallAccountedFor(s: State, es: seq<Event>, clock: int, maxAge: int)
    requires LegalRun(s, es, clock, maxAge)
    ensures Tickets(Run(s, es, clock, maxAge)) == Tickets(s) + Issued(es)
    decreases |es|
  {
    if es != [] {
      StepTickets(s, es[0], clock, maxAge);
      EveryCallAccountedFor(Next(s, es[0]), es[1..], es[0].now, maxAge);
    }
  }

  // ---------------------------------------------------------------- the newest call wins

  /** The path, time-out and ticket of the latest call per key that was not turned away. */
  type Wishes = map<string, (string, Option<nat>, nat)>

  function Wished(m: Wishes, e: Event): Wishes {
    if e.Fetch? && !(e.paused && e.key != "state") then m[e.key := (e.path, e.ms, e.ticket)] else m
  }

  function AllWished(m: Wishes, es: seq<Event>): Wishes
    decreases |es|
  {
    if es == [] then m else AllWished(Wished(m, es[0]), es[1..])
  }

  ghost predicate Current(q: seq<Job>, m: Wishes) {
    forall i :: 0 <= i < |q| ==> q[i].key in m && m[q[i].key] == (q[i].path, q[i].ms, q[i].ticket)
  }

  lemma StepStaysCurrent(s: State, e: Event, clock: int, maxAge: int, m: Wishes)
    requires Inv(s, clock) && Legal(s, e, clock, maxAge) && Current(s.queue, m)
    ensures Current(Next(s, e).queue, Wished(m, e))
  {
    hide PickIndex;
    if e.Fetch? && !(e.paused && e.key != "state") {
      var i, q, m' := KeyIndex(s.queue, e.key), s.queue, Wished(m, e);
      if i < |q| {
        var r := q[i := q[i].(path := e.path, ms := e.ms, ticket := e.ticket)];
        assert forall j :: 0 <= j < |q| && j != i ==> r[j] == q[j] && q[j].key != e.key;
        assert Current(r, m');
      } else {
        var r := q + [Job(e.key, e.path, e.ms, e.ticket, e.t)];
        assert forall j :: 0 <= j < |q| ==> r[j] == q[j] && q[j].key != e.key;
        assert Current(r, m');
        DrainStaysCurrent(s.(queue := r), e.now, e.age, m');
      }
    } else if e.Respond? {
      DrainStaysCurrent(Answered(s, e.data), e.now, e.age, m);
    }
  }

  lemma DrainStaysCurrent(s: State, now: int, age: int, m: Wishes)
    requires age > 0 && Current(s.queue, m)
    ensures Current(Drain(s, now, age).queue, m)
  {
    if s.inFlight.None? && s.queue != [] {
      var b := PickIndex(s.queue, |s.queue|, now, age);
      var r := s.queue[..b] + s.queue[b + 1..];
      assert forall i :: 0 <= i < |r| ==> r[i] == s.queue[if i < b then i else i + 1];
    }
  }

  /** After any run, what waits under a key is the latest call for it: a coalesced job is sent with the
      newest path and answers the newest caller. */
  lemma {:induction false} NewestCallWins(s: State, es: seq<Event>, clock: int, maxAge: int, m: Wishes)
    requires Inv(s, clock) && LegalRun(s, es, clock, maxAge) && Current(s.queue, m)
    ensures Current(Run(s, es, clock, maxAge).queue, AllWished(m, es))
    decreases |es|
  {
    if es != [] {
      StepKeepsInv(s, es[0], clock, maxAge);
      StepStaysCurrent(s, es[0], clock, maxAge, m);
      NewestCallWins(Next(s, es[0]), es[1..], es[0].now, maxAge, Wished(m, es[0]));
    }
  }

  // ---------------------------------------------------------------- the desk: what waits, what is sent, who is told

  /** Reference: the one job waiting under each key. */
  type Desk = map<string, Job>

  /** A call takes the place of the one waiting under its key, keeping only its time; or is put there. While
      polling is paused only "state" is let in. */
  function Accepted(w: Desk, e: Event): Desk {
    if e.Fetch? && (!e.paused || e.key == "state") then
      w[e.key := Job(e.key, e.path, e.ms, e.ticket, if e.key in w then w[e.key].t else e.t)]
    else w
  }

  /** Who is told what: the answer goes to the caller in flight; a call turned away, and one whose place is
      taken, get nothing. */
  function Told(hand: Option<Job>, w: Desk, e: Event): seq<Resolution> {
    match e
    case Respond(data, _, _) => if hand.Some? then [Resolution(hand.value.ticket, data)] else []
    case Fetch(key, _, _, ticket, paused, _, _, _) =>
      if paused && key != "state" then [Resolution(ticket, None)]
      else if key in w then [Resolution(w[key].ticket, None)] else []
  }

  /** The job a step puts in flight. */
  ghost function Sent(s: State, e: Event, clock: int, maxAge: int): Option<Job>
    requires Legal(s, e, clock, maxAge)
  {
    if s.inFlight.None? || e.Respond? then Next(s, e).inFlight else None
  }

  /** The queue holds exactly the jobs of the desk. */
  ghost predicate OnDesk(q: seq<Job>, w: Desk) {
    && (forall i :: 0 <= i < |q| ==> q[i].key in w && w[q[i].key] == q[i])
    && (forall k :: k in w ==> exists i :: 0 <= i < |q| && q[i].key == k)
  }

  function Without(w: Desk, sent: Option<Job>): Desk {
    if sent.Some? then w - {sent.value.key} else w
  }

  lemma TakeFromDesk(q: seq<Job>, b: nat, w: Desk, clock: int)
    requires b < |q| && WellQueued(q, clock) && OnDesk(q, w)
    ensures OnDesk(q[..b] + q[b + 1..], w - {q[b].key}) && q[b].key in w && w[q[b].key] == q[b]
  {
    var rest, left := q[..b] + q[b + 1..], w - {q[b].key};
    forall i | 0 <= i < |rest|
      ensures rest[i].key in left && left[rest[i].key] == rest[i]
    {
      var j := if i < b then i else i + 1;
      assert rest[i] == q[j] && q[j].key != q[b].key;
    }
    forall k | k in left
      ensures exists i :: 0 <= i < |rest| && rest[i].key == k
    {
      HeldElsewhere(q, b, rest, w, k);
    }
  }

  lemma HeldElsewhere(q: seq<Job>, b: nat, rest: seq<Job>, w: Desk, k: string)
    requires b < |q| && rest == q[..b] + q[b + 1..] && OnDesk(q, w) && k in w && k != q[b].key
    ensures exists i :: 0 <= i < |rest| && rest[i].key == k
  {
    var i :| 0 <= i < |q| && q[i].key == k;
    assert rest[if i < b then i else i - 1] == q[i];
  }

  lemma CoalesceOnDesk(q: seq<Job>, i: nat, w: Desk, job: Job, clock: int)
    requires i < |q| && WellQueued(q, clock) && OnDesk(q, w) && job.key == q[i].key
    ensures OnDesk(q[i := job], w[job.key := job])
  {
    var p, filled := q[i := job], w[job.key := job];
    forall k | k in filled
      ensures exists j :: 0 <= j < |p| && p[j].key == k
    {
      var j :| 0 <= j < |q| && q[j].key == k;
      assert p[j].key == k;
    }
  }

  lemma PushOnDesk(q: seq<Job>, w: Desk, job: Job)
    requires OnDesk(q, w) && KeyIndex(q, job.key) == |q|
    ensures OnDesk(q + [job], w[job.key := job]) && job.key !in w
  {
    var p, filled := q + [job], w[job.key := job];
    forall k | k in filled
      ensures exists j :: 0 <= j < |p| && p[j].key == k
    {
      if k == job.key {
        assert p[|q|].key == k;
      } else {
        var j :| 0 <= j < |q| && q[j].key == k;
        assert p[j].key == k;
      }
    }
  }

  /** What a drain sends comes off the desk unchanged. */
  lemma DrainFromDesk(s: State, now: int, age: int, w: Desk)
    requires age > 0 && WellQueued(s.queue, now) && OnDesk(s.queue, w)
    ensures var t := Drain(s, now, age);
            var sent := if s.inFlight.None? then t.inFlight else None;
            && t.resolved == s.resolved && OnDesk(t.queue, Without(w, sent))
            && (sent.Some? ==> sent.value.key in w && w[sent.value.key] == sent.value)
            && (sent.None? ==> t == s)
  {
    if s.inFlight.None? && s.queue != [] {
      TakeFromDesk(s.queue, PickIndex(s.queue, |s.queue|, now, age), w, now);
    }
  }

  lemma QueueStaysWell(s: State, e: Event, clock: int, maxAge: int)
    requires Inv(s, clock) && Legal(s, e, clock, maxAge)
    ensures WellQueued(s.queue, e.now)
    ensures e.Fetch? && KeyIndex(s.queue, e.key) == |s.queue| ==>
              WellQueued(s.queue + [Job(e.key, e.path, e.ms, e.ticket, e.t)], e.now)
  {
  }

  /** One step: the queue is the desk, what is sent is the desk's record, and the right callers are told. */
  lemma StepKeepsDesk(s: State, e: Event, clock: int, maxAge: int, w: Desk)
    requires Inv(s, clock) && Legal(s, e, clock, maxAge) && OnDesk(s.queue, w)
    ensures var t, sent, desk := Next(s, e), Sent(s, e, clock, maxAge), Accepted(w, e);
            && (sent.Some? ==> sent.value.key in desk && desk[sent.value.key] == sent.value)
            && OnDesk(t.queue, Without(desk, sent))
            && t.resolved == s.resolved + Told(s.inFlight, w, e)
            && (sent.None? && e.Fetch? ==> t.inFlight == s.inFlight)
  {
    hide WellQueued, OnDesk, Drain;
    QueueStaysWell(s, e, clock, maxAge);
    var q := s.queue;
    match e {
      case Respond(data, now, age) =>
        DrainFromDesk(Answered(s, data), now, age, w);
      case Fetch(key, path, ms, ticket, paused, t, now, age) =>
        if !(paused && key != "state") {
          var i := KeyIndex(q, key);
          KeyIsOnDesk(q, w, key);
          if i < |q| {
            CoalesceOnDesk(q, i, w, q[i].(path := path, ms := ms, ticket := ticket), now);
          } else {
            var job := Job(key, path, ms, ticket, t);
            PushOnDesk(q, w, job);
            DrainFromDesk(s.(queue := q + [job]), now, age, w[key := job]);
          }
          IdleStaysIdle(s, e, clock, maxAge);
        }
    }
  }

  lemma KeyIsOnDesk(q: seq<Job>, w: Desk, key: string)
    requires OnDesk(q, w)
    ensures KeyIndex(q, key) < |q| <==> key in w
    ensures KeyIndex(q, key) < |q| ==> w[key] == q[KeyIndex(q, key)]
  {
  }

  /** Nothing is sent while a request is in flight, and nothing waits while none is. */
  lemma IdleStaysIdle(s: State, e: Event, clock: int, maxAge: int)
    requires Inv(s, clock) && Legal(s, e, clock, maxAge)
    ensures e.Fetch? && s.inFlight.Some? ==> Next(s, e).inFlight == s.inFlight
    ensures s.inFlight.None? ==> s.queue == []
  {
  }

  ghost function SentJobs(s: State, es: seq<Event>, clock: int, maxAge: int): seq<Job>
    requires LegalRun(s, es, clock, maxAge)
    decreases |es|
  {
    if es == [] then []
    else
      var sent := Sent(s, es[0], clock, maxAge);
      (if sent.Some? then [sent.value] else []) + SentJobs(Next(s, es[0]), es[1..], es[0].now, maxAge)
  }

  /** Every job sent is, at that moment, the desk's record of its key, and everyone is told what they should. */
  ghost predicate FollowsDesk(s: State, es: seq<Event>, clock: int, maxAge: int, w: Desk)
    requires LegalRun(s, es, clock, maxAge)
    decreases |es|
  {
    && OnDesk(s.queue, w)
    && (es != [] ==>
          var sent, desk := Sent(s, es[0], clock, maxAge), Accepted(w, es[0]);
          && (sent.Some? ==> sent.value.key in desk && desk[sent.value.key] == sent.value)
          && Next(s, es[0]).resolved == s.resolved + Told(s.inFlight, w, es[0])
          && FollowsDesk(Next(s, es[0]), es[1..], es[0].now, maxAge, Without(desk, sent)))
  }

  /** Over any run the queue is the desk: a coalesced job keeps its place and carries the newest path,
      time-out and caller; it is sent as it stands there; only "state" passes a pause. */
  lemma {:induction false} RunFollowsDesk(s: State, es: seq<Event>, clock: int, maxAge: int, w: Desk)
    requires Inv(s, clock) && LegalRun(s, es, clock, maxAge) && OnDesk(s.queue, w)
    ensures FollowsDesk(s, es, clock, maxAge, w)
    decreases |es|
  {
    hide Next, Inv, OnDesk;
    if es != [] {
      StepKeepsInv(s, es[0], clock, maxAge);
      StepKeepsDesk(s, es[0], clock, maxAge, w);
      var sent := Sent(s, es[0], clock, maxAge);
      RunFollowsDesk(Next(s, es[0]), es[1..], es[0].now, maxAge, Without(Accepted(w, es[0]), sent));
    }
  }

  // ---------------------------------------------------------------- answers

  /** The data that arrived, in order. */
  function Arrived(es: seq<Event>): seq<Option<string>> {
    if es == [] then [] else (if es[0].Respond? then [es[0].data] else []) + Arrived(es[1..])
  }

  function Hand(job: Option<Job>): seq<Job> {
    if job.Some? then [job.value] else []
  }

  /** r is the list of answers to these jobs, in order, with nothing but empty resolutions in between. */
  ghost predicate Woven(r: seq<Resolution>, jobs: seq<Job>, data: seq<Option<string>>)
    decreases |r|
  {
    if r == [] then data == []
    else
      || (r[0].data.None? && Woven(r[1..], jobs, data))
      || (jobs != [] && data != [] && r[0] == Resolution(jobs[0].ticket, data[0])
          && Woven(r[1..], jobs[1..], data[1..]))
  }

  /** The resolutions a run adds. */
  ghost function Added(s: State, es: seq<Event>, clock: int, maxAge: int): seq<Resolution>
    requires LegalRun(s, es, clock, maxAge)
    decreases |es|
  {
    if es == [] then []
    else
      var t := Next(s, es[0]);
      (if |s.resolved| <= |t.resolved| then t.resolved[|s.resolved|..] else [])
      + Added(t, es[1..], es[0].now, maxAge)
  }

  lemma WeaveAnswer(j: Job, d: Option<string>, r: seq<Resolution>, jobs: seq<Job>, data: seq<Option<string>>)
    requires Woven(r, jobs, data)
    ensures Woven([Resolution(j.ticket, d)] + r, [j] + jobs, [d] + data)
  {
    assert ([Resolution(j.ticket, d)] + r)[1..] == r && ([j] + jobs)[1..] == jobs && ([d] + data)[1..] == data;
  }

  lemma WeaveNone(told: seq<Resolution>, r: seq<Resolution>, jobs: seq<Job>, data: seq<Option<string>>)
    requires Woven(r, jobs, data) && |told| <= 1 && (told != [] ==> told[0].data.None?)
    ensures Woven(told + r, jobs, data)
  {
    if told == [] {
      assert told + r == r;
    } else {
      assert (told + r)[1..] == r;
    }
  }

  lemma ToldByFetch(hand: Option<Job>, w: Desk, e: Event)
    requires e.Fetch?
    ensures |Told(hand, w, e)| <= 1 && (Told(hand, w, e) != [] ==> Told(hand, w, e)[0].data.None?)
  {
  }

  /** Over any run the data that arrive, in order, are exactly what the callers of the jobs sent get, in
      order; every other resolution is empty, and all are kept. */
  lemma {:induction false} AnswersReachCallers(s: State, es: seq<Event>, clock: int, maxAge: int, w: Desk)
    requires Inv(s, clock) && LegalRun(s, es, clock, maxAge) && OnDesk(s.queue, w)
    ensures Woven(Added(s, es, clock, maxAge), Hand(s.inFlight) + SentJobs(s, es, clock, maxAge), Arrived(es))
    ensures Run(s, es, clock, maxAge).resolved == s.resolved + Added(s, es, clock, maxAge)
    decreases |es|
  {
    hide Next, Inv, OnDesk, Woven, Told, Accepted, WellQueued, Run, Added, SentJobs, Arrived;
    if es == [] {
      NothingRuns(s, clock, maxAge);
      WovenNone(Hand(s.inFlight));
      assert s.resolved + [] == s.resolved && Hand(s.inFlight) + [] == Hand(s.inFlight);
    } else {
      var e, t := es[0], Next(s, es[0]);
      StepKeepsInv(s, e, clock, maxAge);
      StepKeepsDesk(s, e, clock, maxAge, w);
      var sent := Sent(s, e, clock, maxAge);
      AnswersReachCallers(t, es[1..], e.now, maxAge, Without(Accepted(w, e), sent));
      HandPassesOn(s, e, clock, maxAge);
      var told, more := Told(s.inFlight, w, e), Added(t, es[1..], e.now, maxAge);
      var later, data := SentJobs(t, es[1..], e.now, maxAge), Arrived(es[1..]);
      OneRuns(s, es, clock, maxAge);
      assert t.resolved[|s.resolved|..] == told;
      assert s.resolved + told + more == s.resolved + (told + more);
      OneStepWoven(s, e, clock, maxAge, told, w);
      if e.Respond? {
        WeaveAnswer(s.inFlight.value, e.data, more, Hand(t.inFlight) + later, data);
        assert [s.inFlight.value] + (Hand(t.inFlight) + later) == Hand(s.inFlight) + (Hand(sent) + later);
      } else {
        WeaveNone(told, more, Hand(t.inFlight) + later, data);
        assert Hand(t.inFlight) + later == Hand(s.inFlight) + (Hand(sent) + later);
        assert [] + data == data;
      }
    }
  }

  lemma NothingRuns(s: State, clock: int, maxAge: int)
    ensures Run(s, [], clock, maxAge) == s && Added(s, [], clock, maxAge) == []
    ensures SentJobs(s, [], clock, maxAge) == [] && Arrived([]) == []
  {
  }

  lemma OneRuns(s: State, es: seq<Event>, clock: int, maxAge: int)
    requires LegalRun(s, es, clock, maxAge) && es != []
    ensures var e, t := es[0], Next(s, es[0]);
            && Run(s, es, clock, maxAge) == Run(t, es[1..], e.now, maxAge)
            && (|s.resolved| <= |t.resolved| ==>
                  Added(s, es, clock, maxAge) == t.resolved[|s.resolved|..] + Added(t, es[1..], e.now, maxAge))
            && SentJobs(s, es, clock, maxAge) == Hand(Sent(s, e, clock, maxAge)) + SentJobs(t, es[1..], e.now, maxAge)
            && Arrived(es) == (if e.Respond? then [e.data] else []) + Arrived(es[1..])
  {
    hide Next;
  }

  lemma WovenNone(jobs: seq<Job>)
    ensures Woven([], jobs, [])
  {
  }

  lemma OneStepWoven(s: State, e: Event, clock: int, maxAge: int, told: seq<Resolution>, w: Desk)
    requires Legal(s, e, clock, maxAge) && told == Told(s.inFlight, w, e)
    ensures if e.Respond? then s.inFlight.Some? && told == [Resolution(s.inFlight.value.ticket, e.data)]
            else |told| <= 1 && (told != [] ==> told[0].data.None?)
  {
    if e.Fetch? { ToldByFetch(s.inFlight, w, e); }
  }

  lemma HandPassesOn(s: State, e: Event, clock: int, maxAge: int)
    requires Inv(s, clock) && Legal(s, e, clock, maxAge)
    ensures var sent := Sent(s, e, clock, maxAge);
            Hand(Next(s, e).inFlight) == if e.Respond? then Hand(sent) else Hand(s.inFlight) + Hand(sent)
  {
  }

  // ---------------------------------------------------------------- which key comes first

  function Class(key: string): nat {
    match key
    case "state" => 0
    case "events" => 1
    case "logs" => 1
    case "sys" => 2
    case _ => 3
  }

  // ---------------------------------------------------------------- ageing

  lemma MulMono(a: int, b: int, c: int)
    requires a <= b && c >= 0
    ensures a * c <= b * c
  {
  }

  lemma DivBound(y: int, q: int, age: int)
    requires age > 0
    ensures y >= q * age <==> y / age >= q
  {
    assert y == (y / age) * age + y % age;
    if y / age >= q {
      MulMono(q, y / age, age);
    } else {
      MulMono(y / age + 1, q, age);
    }
  }

  /** Waiting d longer gains at least k levels exactly when d is at least k whole intervals
      (counted from a moment at which a whole number of intervals has passed). */
  lemma FloorShift(x: int, d: int, k: int, age: int)
    requires age > 0
    ensures d >= k * age ==> (x + d) / age >= x / age + k
    ensures d < k * age && x == (x / age) * age ==> (x + d) / age < x / age + k
  {
    var q := x / age;
    DivBound(x, q, age);
    DivBound(x + d, q + k, age);
    assert (q + k) * age == q * age + k * age;
  }

  lemma MulDiv(n: int, age: int)
    requires age > 0
    ensures n * age / age == n
  {
    DivBound(n * age, n, age);
    DivBound(n * age, n + 1, age);
    assert (n + 1) * age == n * age + age;
  }

  lemma CanOvertake(a: Job, b: Job, age: int) returns (now: int)
    requires age > 0 && a.t > 0 && b.t > 0
    requires var k := Base(a.key) - Base(b.key); b.t - a.t < (if b.t >= a.t then k else k + 1) * age
    ensures now >= a.t && now >= b.t && Before(b, a, now, age)
  {
    var k, d := Base(a.key) - Base(b.key), b.t - a.t;
    var n := if d >= 0 then 0 else -d;
    now := b.t + n * age;
    MulDiv(n, age);
    MulMono(1, age, n);
    FloorShift(n * age, d, if d >= 0 then k else k + 1, age);
    assert now - a.t == n * age + d;
  }

  lemma CannotOvertake(a: Job, b: Job, now: int, age: int)
    requires age > 0 && a.t > 0 && b.t > 0 && now >= a.t && now >= b.t
    requires var k := Base(a.key) - Base(b.key); b.t - a.t >= (if b.t >= a.t then k else k + 1) * age
    ensures !Before(b, a, now, age)
  {
    var k, d := Base(a.key) - Base(b.key), b.t - a.t;
    FloorShift(now - b.t, d, if d >= 0 then k else k + 1, age);
    assert now - a.t == (now - b.t) + d;
  }

  /** b can be served ahead of a at some moment exactly when it was enqueued less than
      (baseA - baseB) ageing intervals after a (one interval more if it was enqueued first). */
  lemma OvertakesExactly(a: Job, b: Job, age: int)
    requires age > 0 && a.t > 0 && b.t > 0
    ensures (exists now :: now >= a.t && now >= b.t && Before(b, a, now, age))
            <==> (var k := Base(a.key) - Base(b.key);
                  b.t - a.t < (if b.t >= a.t then k else k + 1) * age)
  {
    var k, d := Base(a.key) - Base(b.key), b.t - a.t;
    if d < (if d >= 0 then k else k + 1) * age {
      var now := CanOvertake(a, b, age);
    } else {
      forall now | now >= a.t && now >= b.t
        ensures !Before(b, a, now, age)
      {
        CannotOvertake(a, b, now, age);
      }
    }
  }

  /** While nothing has waited a whole interval, the pick is by strict priority. */
  lemma FastLinkIsStrictPriority(q: seq<Job>, now: int, age: int, j: nat)
    requires age > 0 && j < |q|
    requires forall i :: 0 <= i < |q| ==> 0 < q[i].t && 0 <= now - q[i].t < age
    ensures var b := PickIndex(q, |q|, now, age);
            Base(q[b].key) < Base(q[j].key) || (Base(q[b].key) == Base(q[j].key) && q[b].t <= q[j].t)
  {
    var b := PickIndex(q, |q|, now, age);
    PickIsMostUrgent(q, |q|, now, age);
    assert !Before(q[j], q[b], now, age);
    SmallDiv(now - q[b].t, age);
    SmallDiv(now - q[j].t, age);
  }

  /** On a fast link, where nothing has waited a second, "state" goes before everything, "events" and "logs"
      before "sys", and all four before any other key; within a class, first come first served. */
  lemma ControlGoesFirst(q: seq<Job>, now: int, age: int, j: nat)
    requires age >= MIN_AGE_MS && j < |q|
    requires forall i :: 0 <= i < |q| ==> 0 < q[i].t && 0 <= now - q[i].t < 1000
    ensures var b := PickIndex(q, |q|, now, age);
            && Class(q[b].key) <= Class(q[j].key)
            && (Class(q[b].key) == Class(q[j].key) ==> q[b].t <= q[j].t)
  {
    FastLinkIsStrictPriority(q, now, age, j);
    hide PickIndex;
    BaseFollowsClass(q[PickIndex(q, |q|, now, age)].key, q[j].key);
  }

  lemma BaseFollowsClass(a: string, b: string)
    ensures Class(a) < Class(b) <==> Base(a) < Base(b)
  {
  }

  lemma SmallDiv(x: int, age: int)
    requires 0 <= x < age
    ensures x / age == 0
  {
  }

  // ---------------------------------------------------------------- no starvation

  /** From this moment on, nothing enqueued later can be served before the job. */
  ghost function Due(key: string, t: int, maxAge: int): int {
    t + Base(key) * maxAge
  }

  ghost predicate Waiting(s: State, key: string, t: int) {
    Holds(s.queue, key, t)
  }

  ghost predicate Holds(q: seq<Job>, key: string, t: int) {
    exists i :: 0 <= i < |q| && q[i].key == key && q[i].t == t
  }

  /** The job (key, t) is still waiting after every step of the run. */
  ghost predicate WaitsThrough(s: State, es: seq<Event>, clock: int, maxAge: int, key: string, t: int)
    requires LegalRun(s, es, clock, maxAge)
    decreases |es|
  {
    && Waiting(s, key, t)
    && (es != [] ==> WaitsThrough(Next(s, es[0]), es[1..], es[0].now, maxAge, key, t))
  }

  /** How many jobs with the given key are dispatched during the run. */
  ghost function Dispatches(s: State, es: seq<Event>, clock: int, maxAge: int, key: string): nat
    requires LegalRun(s, es, clock, maxAge)
    decreases |es|
  {
    if es == [] then 0
    else
      var s' := Next(s, es[0]);
      (if (s.inFlight.None? || es[0].Respond?) && s'.inFlight.Some? && s'.inFlight.value.key == key then 1 else 0)
      + Dispatches(s', es[1..], es[0].now, maxAge, key)
  }

  /** How many requests end during the run. */
  ghost function Responses(es: seq<Event>): nat {
    if es == [] then 0 else (if es[0].Respond? then 1 else 0) + Responses(es[1..])
  }

  /** The jobs of other keys that were enqueued before the due time. */
  ghost function Rivals(q: seq<Job>, key: string, due: int): nat {
    if q == [] then 0 else (if q[0].key != key && q[0].t < due then 1 else 0) + Rivals(q[1..], key, due)
  }

  ghost function EarlyOne(q: seq<Job>, other: string, due: int): nat {
    if exists i :: 0 <= i < |q| && q[i].key == other && q[i].t < due then 1 else 0
  }

  lemma {:induction false} RivalsSplit(p: seq<Job>, q: seq<Job>, key: string, due: int)
    ensures Rivals(p + q, key, due) == Rivals(p, key, due) + Rivals(q, key, due)
  {
    if p == [] {
      assert p + q == q;
    } else {
      assert (p + q)[0] == p[0] && (p + q)[1..] == p[1..] + q;
      RivalsSplit(p[1..], q, key, due);
    }
  }

  /** A job enqueued at or after the due time is never picked while the due job waits. */
  lemma PickIsARival(q: seq<Job>, a: nat, now: int, age: int, maxAge: int)
    requires a < |q| && 0 < age <= maxAge
    requires forall i :: 0 <= i < |q| ==> 0 < q[i].t <= now
    requires forall i, j :: 0 <= i < j < |q| ==> q[i].key != q[j].key
    ensures var b := PickIndex(q, |q|, now, age);
            b == a || (q[b].key != q[a].key && q[b].t < Due(q[a].key, q[a].t, maxAge))
  {
    var b := PickIndex(q, |q|, now, age);
    if b != a && q[b].t >= Due(q[a].key, q[a].t, maxAge) {
      var n := Base(q[a].key);
      MulMono(age, maxAge, n);
      FloorShift(now - q[b].t, q[b].t - q[a].t, n, age);
      assert now - q[a].t == (now - q[b].t) + (q[b].t - q[a].t);
      if n >= 1 { MulMono(1, n, age); }
      PickIsMostUrgent(q, |q|, now, age);
      assert Before(q[a], q[b], now, age);
    }
  }

  ghost predicate SameEarly(p: seq<Job>, q: seq<Job>, key: string, due: int) {
    && Rivals(p, key, due) == Rivals(q, key, due)
    && forall o: string :: EarlyOne(p, o, due) == EarlyOne(q, o, due)
  }

  lemma {:induction false} SameStampsSameRivals(p: seq<Job>, q: seq<Job>, key: string, due: int)
    requires |p| == |q| && forall i :: 0 <= i < |p| ==> p[i].key == q[i].key && p[i].t == q[i].t
    ensures Rivals(p, key, due) == Rivals(q, key, due)
  {
    if p != [] {
      SameStampsSameRivals(p[1..], q[1..], key, due);
    }
  }

  /** Nothing that joins the queue at or after the due time is a rival. */
  lemma FetchAddsNoRival(s: State, e: Event, clock: int, maxAge: int, key: string, due: int)
    requires Inv(s, clock) && Legal(s, e, clock, maxAge) && clock >= due
    requires e.Fetch? && s.inFlight.Some?
    ensures Next(s, e).inFlight == s.inFlight && SameEarly(s.queue, Next(s, e).queue, key, due)
  {
    var q, r := s.queue, Next(s, e).queue;
    var i := KeyIndex(q, e.key);
    if !(e.paused && e.key != "state") {
      if i < |q| {
        SameStampsSameRivals(q, r, key, due);
      } else {
        var job := Job(e.key, e.path, e.ms, e.ticket, e.t);
        RivalsSplit(q, [job], key, due);
        assert [job][1..] == [];
        assert r == q + [job];
        assert forall x :: 0 <= x < |q| ==> r[x] == q[x];
      }
    }
  }

  lemma RivalsHead(j: Job, rest: seq<Job>, key: string, due: int)
    requires j.key != key && j.t < due
    ensures Rivals([j] + rest, key, due) == 1 + Rivals(rest, key, due)
  {
    assert ([j] + rest)[1..] == rest;
  }

  lemma TakeRival(q: seq<Job>, b: nat, key: string, due: int)
    requires b < |q| && q[b].key != key && q[b].t < due
    ensures Rivals(q, key, due) == Rivals(q[..b] + q[b + 1..], key, due) + 1
  {
    var left, right := q[..b], q[b + 1..];
    var tail := [q[b]] + right;
    assert q == left + tail;
    RivalsSplit(left, right, key, due);
    RivalsSplit(left, tail, key, due);
    RivalsHead(q[b], right, key, due);
  }

  lemma TakeEarly(q: seq<Job>, b: nat, clock: int, due: int, o: string)
    requires b < |q| && WellQueued(q, clock) && q[b].t < due
    ensures EarlyOne(q, o, due) == EarlyOne(q[..b] + q[b + 1..], o, due) + (if o == q[b].key then 1 else 0)
  {
    var r := q[..b] + q[b + 1..];
    assert forall i :: 0 <= i < |r| ==> r[i] == q[if i < b then i else i + 1];
    assert forall i :: 0 <= i < b ==> r[i] == q[i];
    assert forall i :: b < i < |q| ==> r[i - 1] == q[i];
  }

  lemma WaitingJobNotPicked(q: seq<Job>, b: nat, clock: int, key: string, t: int)
    requires b < |q| && WellQueued(q, clock)
    requires Holds(q[..b] + q[b + 1..], key, t)
    ensures exists a :: 0 <= a < |q| && q[a].key == key && q[a].t == t && a != b
  {
    var r := q[..b] + q[b + 1..];
    var i :| 0 <= i < |r| && r[i].key == key && r[i].t == t;
    var a := if i < b then i else i + 1;
    assert q[a] == r[i];
  }

  /** While the due job waits, each answer dispatches one of its rivals. */
  lemma RespondTakesRival(s: State, e: Event, clock: int, maxAge: int, key: string, t: int)
    requires Inv(s, clock) && Legal(s, e, clock, maxAge) && e.Respond?
    requires Waiting(s, key, t) && Waiting(Next(s, e), key, t)
    requires clock >= Due(key, t, maxAge)
    ensures var s', due := Next(s, e), Due(key, t, maxAge);
            && s'.inFlight.Some? && s'.inFlight.value.key != key
            && Rivals(s.queue, key, due) == Rivals(s'.queue, key, due) + 1
            && forall o: string :: EarlyOne(s.queue, o, due)
                 == EarlyOne(s'.queue, o, due) + (if o == s'.inFlight.value.key then 1 else 0)
  {
    var q, due := s.queue, Due(key, t, maxAge);
    var b := PickIndex(q, |q|, e.now, e.age);
    var r := q[..b] + q[b + 1..];
    WaitingJobNotPicked(q, b, clock, key, t);
    var a :| 0 <= a < |q| && q[a].key == key && q[a].t == t && a != b;
    PickIsARival(q, a, e.now, e.age, maxAge);
    TakeRival(q, b, key, due);
    forall o: string
      ensures EarlyOne(q, o, due) == EarlyOne(r, o, due) + (if o == q[b].key then 1 else 0)
    {
      TakeEarly(q, b, clock, due, o);
    }
  }

  /** No starvation: once a job has waited its base priority times the ageing interval, the requests
      that end before it is dispatched are at most the jobs of other keys already queued by then. */
  lemma {:induction false} NoStarvation(s: State, es: seq<Event>, clock: int, maxAge: int, key: string, t: int)
    requires Inv(s, clock) && LegalRun(s, es, clock, maxAge)
    requires clock >= Due(key, t, maxAge)
    requires WaitsThrough(s, es, clock, maxAge, key, t)
    ensures Responses(es) <= Rivals(s.queue, key, Due(key, t, maxAge))
    decreases |es|
  {
    if es != [] {
      StepKeepsInv(s, es[0], clock, maxAge);
      if es[0].Respond? {
        RespondTakesRival(s, es[0], clock, maxAge, key, t);
      } else {
        FetchAddsNoRival(s, es[0], clock, maxAge, key, Due(key, t, maxAge));
      }
      NoStarvation(Next(s, es[0]), es[1..], es[0].now, maxAge, key, t);
    }
  }

  lemma {:induction false} BypassCount(s: State, es: seq<Event>, clock: int, maxAge: int, key: string, t: int,
                                       other: string)
    requires Inv(s, clock) && LegalRun(s, es, clock, maxAge)
    requires clock >= Due(key, t, maxAge)
    requires WaitsThrough(s, es, clock, maxAge, key, t)
    ensures Dispatches(s, es, clock, maxAge, other) <= EarlyOne(s.queue, other, Due(key, t, maxAge))
    ensures Dispatches(s, es, clock, maxAge, key) == 0
    decreases |es|
  {
    if es != [] {
      StepKeepsInv(s, es[0], clock, maxAge);
      if es[0].Respond? {
        RespondTakesRival(s, es[0], clock, maxAge, key, t);
      } else {
        FetchAddsNoRival(s, es[0], clock, maxAge, key, Due(key, t, maxAge));
      }
      BypassCount(Next(s, es[0]), es[1..], es[0].now, maxAge, key, t, other);
    }
  }

  /** Bounded bypass: after the due time at most one more job of each other key is dispatched first. */
  lemma BoundedBypass(s: State, es: seq<Event>, clock: int, maxAge: int, key: string, t: int, other: string)
    requires Inv(s, clock) && LegalRun(s, es, clock, maxAge)
    requires clock >= Due(key, t, maxAge)
    requires WaitsThrough(s, es, clock, maxAge, key, t)
    ensures Dispatches(s, es, clock, maxAge, other) <= 1
    ensures Dispatches(s, es, clock, maxAge, key) == 0
  {
    BypassCount(s, es, clock, maxAge, key, t, other);
  }
}
