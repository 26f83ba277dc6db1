/** The capped event store (genpi/store.py) and the browser's event pane, which pages it from both
    ends (genpi/frontend/app.js). */
module EventLog {
  import opened Prelude

  datatype Entry = Entry(ts: real, kind: string, message: string)
  datatype Event = Event(id: nat, entry: Entry)

  const PAGE: nat := 100
  const MAX_LIMIT := 1000

  /** Reference: the events numbered lo + 1 to hi of everything ever recorded, oldest first. */
  function Slice(h: seq<Entry>, lo: nat, hi: nat): (r: seq<Event>)
    requires lo <= hi <= |h|
    ensures |r| == hi - lo
    ensures forall i :: 0 <= i < hi - lo ==> r[i] == Event(lo + i + 1, h[lo + i])
  {
    seq(hi - lo, i requires 0 <= i < hi - lo => Event(lo + i + 1, h[lo + i]))
  }

  /** Newest first. */
  function Newest(h: seq<Entry>, lo: nat, hi: nat): (r: seq<Event>)
    requires lo <= hi <= |h|
    ensures |r| == hi - lo
    ensures forall i :: 0 <= i < hi - lo ==> r[i] == Event(hi - i, h[hi - i - 1])
  {
    Reverse(Slice(h, lo, hi))
  }

  // ------------------------------------------------------------- queries

  datatype Range = All | Before(cursor: int) | After(cursor: int)

  predicate Selected(e: Event, r: Range) {
    match r
    case All => true
    case Before(c) => e.id < c
    case After(c) => e.id > c
  }

  function Where(table: seq<Event>, r: Range): seq<Event> {
    if table == [] then []
    else (if Selected(table[0], r) then [table[0]] else []) + Where(table[1..], r)
  }

  /** `before` wins over `after`. */
  function RangeOf(before: Option<int>, after: Option<int>): Range {
    if before.Some? then Before(before.value) else if after.Some? then After(after.value) else All
  }

  /** SELECT ... ORDER BY seq DESC LIMIT limit, on a table kept in seq order. */
  function GetEvents(table: seq<Event>, limit: nat, r: Range): seq<Event> {
    var rows := Reverse(Where(table, r));
    rows[..Min(|rows|, limit)]
  }

  function GetLatestSeq(table: seq<Event>): nat {
    if table == [] then 0 else table[|table| - 1].id
  }

  /** The route's clamp. */
  function ClampLimit(n: int): (r: nat)
    ensures n < 1 ==> r == 1
    ensures 1 <= n <= 1000 ==> r == n
    ensures n > 1000 ==> r == 1000
  {
    Max(1, Min(n, MAX_LIMIT))
  }

  /** The bounds that a range leaves of the events lo + 1 to hi. */
  function From(r: Range, lo: nat, hi: nat): nat
    requires lo <= hi
  {
    if r.After? then Min(hi, Max(lo, r.cursor)) else lo
  }

  function To(r: Range, lo: nat, hi: nat): nat
    requires lo <= hi
  {
    if r.Before? then Max(lo, Min(hi, r.cursor - 1)) else hi
  }

  lemma SliceCons(h: seq<Entry>, lo: nat, hi: nat)
    requires lo < hi <= |h|
    ensures Slice(h, lo, hi) == [Event(lo + 1, h[lo])] + Slice(h, lo + 1, hi)
  {
  }

  lemma {:induction false} WhereOfSlice(h: seq<Entry>, lo: nat, hi: nat, r: Range)
    requires lo <= hi <= |h|
    ensures Where(Slice(h, lo, hi), r) == Slice(h, From(r, lo, hi), To(r, lo, hi))
    decreases hi - lo
  {
    if lo < hi {
      SliceCons(h, lo, hi);
      WhereOfSlice(h, lo + 1, hi, r);
      if Selected(Event(lo + 1, h[lo]), r) {
        SliceCons(h, lo, To(r, lo, hi));
      }
    }
  }

  lemma PageOf(h: seq<Entry>, lo: nat, limit: nat, r: Range)
    requires lo <= |h|
    ensures var from, to := From(r, lo, |h|), To(r, lo, |h|);
            GetEvents(Slice(h, lo, |h|), limit, r) == Newest(h, Max(from, to - limit), to)
  {
    hide Slice, Where;
    WhereOfSlice(h, lo, |h|, r);
  }

  /** A page after a cursor is the newest stored events beyond it, at most `limit` of them. */
  lemma PageAfter(h: seq<Entry>, lo: nat, limit: nat, after: nat)
    requires lo <= |h| && after <= |h|
    ensures GetEvents(Slice(h, lo, |h|), limit, After(after)) == Newest(h, Max(Max(lo, after), |h| - limit), |h|)
  {
    PageOf(h, lo, limit, After(after));
  }

  /** A page before a cursor is the stored events just below it; empty once they are all evicted. */
  lemma PageBefore(h: seq<Entry>, lo: nat, limit: nat, before: nat)
    requires lo <= |h| && 1 <= before <= |h| + 1
    ensures var top := Max(lo, before - 1);
            GetEvents(Slice(h, lo, |h|), limit, Before(before)) == Newest(h, Max(lo, top - limit), top)
  {
    PageOf(h, lo, limit, Before(before));
  }

  lemma PageLatest(h: seq<Entry>, lo: nat, limit: nat)
    requires lo <= |h|
    ensures GetEvents(Slice(h, lo, |h|), limit, All) == Newest(h, Max(lo, |h| - limit), |h|)
  {
    PageOf(h, lo, limit, All);
  }

  // ------------------------------------------------------------- the store

  /** INSERT, then DELETE WHERE seq <= MAX(seq) - maxRows. */
  function Recorded(table: seq<Event>, lastSeq: nat, entry: Entry, maxRows: int): seq<Event> {
    var grown := table + [Event(lastSeq + 1, entry)];
    Where(grown, After(GetLatestSeq(grown) - maxRows))
  }

  /** The table holds exactly the newest events ever recorded, without a gap. */
  ghost predicate Suffix(table: seq<Event>, h: seq<Entry>) {
    |table| <= |h| && table == Slice(h, |h| - |table|, |h|)
  }

  lemma RecordKeepsSuffix(table: seq<Event>, h: seq<Entry>, entry: Entry, maxRows: int)
    requires Suffix(table, h)
    ensures var t := Recorded(table, |h|, entry, maxRows);
            Suffix(t, h + [entry]) && |t| == Max(0, Min(|table| + 1, maxRows))
  {
    var h', lo := h + [entry], |h| - |table|;
    assert table + [Event(|h| + 1, entry)] == Slice(h', lo, |h'|);
    WhereOfSlice(h', lo, |h'|, After(|h'| - maxRows));
  }

  /** A page, whatever the request asks for: the newest stored events below `before`, or else above `after`,
      at least one and at most 1000 of them. */
  lemma PageIs(table: seq<Event>, h: seq<Entry>, limit: int, before: Option<int>, after: Option<int>)
    requires Suffix(table, h)
    ensures var size := if limit < 1 then 1 else if limit > 1000 then 1000 else limit;
            var stored := |h| - |table|;
            var top := if before.Some? then Min(|h|, before.value - 1) else |h|;
            var bottom := if before.None? && after.Some? then Max(stored, after.value) else stored;
            GetEvents(table, ClampLimit(limit), RangeOf(before, after))
            == if bottom < top then Newest(h, Max(bottom, top - size), top) else []
  {
    hide GetEvents, Newest, Slice;
    var range, lo := RangeOf(before, after), |h| - |table|;
    PageOf(h, lo, ClampLimit(limit), range);
    NoneIsEmpty(h, From(range, lo, |h|), To(range, lo, |h|), ClampLimit(limit));
  }

  lemma NoneIsEmpty(h: seq<Entry>, from: nat, to: nat, limit: nat)
    requires from <= |h| && to <= |h| && Max(from, to - limit) <= to
    ensures to <= from ==> Newest(h, Max(from, to - limit), to) == []
  {
  }

  lemma LatestIs(table: seq<Event>, h: seq<Entry>)
    requires Suffix(table, h)
    ensures GetLatestSeq(table) == if table == [] then 0 else |h|
  {
  }

  class Store {
    var table: seq<Event>
    var lastSeq: nat                // SQLite's AUTOINCREMENT counter
    ghost var history: seq<Entry>   // everything ever recorded

    ghost predicate Valid()
      reads this
    {
      lastSeq == |history| && Suffix(table, history)
    }

    constructor ()
      ensures Valid() && history == [] && table == []
    {
      table, lastSeq, history := [], 0, [];
    }

    method RecordEvent(entry: Entry, maxRows: int)
      requires Valid()
      modifies this
      ensures Valid() && history == old(history) + [entry]
      ensures |table| == Max(0, Min(|old(table)| + 1, maxRows))
    {
      RecordKeepsSuffix(table, history, entry, maxRows);
      history := history + [entry];
      lastSeq := lastSeq + 1;
      table := table + [Event(lastSeq, entry)];
      table := Where(table, After(GetLatestSeq(table) - maxRows));
    }

    method ReadEvents(limit: int, before: Option<int>, after: Option<int>) returns (events: seq<Event>, latest: nat)
      requires Valid()
      ensures var size := if limit < 1 then 1 else if limit > 1000 then 1000 else limit;
              var stored := |history| - |table|;
              var top := if before.Some? then Min(|history|, before.value - 1) else |history|;
              var bottom := if before.None? && after.Some? then Max(stored, after.value) else stored;
              events == if bottom < top then Newest(history, Max(bottom, top - size), top) else []
      ensures latest == if table == [] then 0 else |history|
    {
      hide GetEvents, GetLatestSeq, Newest, Slice, From, To;
      PageIs(table, history, limit, before, after);
      LatestIs(table, history);
      events := GetEvents(table, ClampLimit(limit), RangeOf(before, after));
      latest := GetLatestSeq(table);
    }
  }

  function RecordAll(table: seq<Event>, lastSeq: nat, entries: seq<Entry>, maxRows: int): seq<Event>
    decreases |entries|
  {
    if entries == [] then table
    else RecordAll(Recorded(table, lastSeq, entries[0], maxRows), lastSeq + 1, entries[1..], maxRows)
  }

  /** After any history the store holds exactly the newest min(all, cap) events, contiguously numbered. */
  lemma {:induction false} StoreIsNewest(table: seq<Event>, h: seq<Entry>, entries: seq<Entry>, maxRows: nat)
    requires Suffix(table, h) && |table| == Min(|h|, maxRows)
    ensures var t := RecordAll(table, |h|, entries, maxRows);
            Suffix(t, h + entries) && |t| == Min(|h + entries|, maxRows)
    decreases |entries|
  {
    if entries == [] {
      assert h + entries == h;
    } else {
      RecordKeepsSuffix(table, h, entries[0], maxRows);
      var h' := h + [entries[0]];
      StoreIsNewest(Recorded(table, |h|, entries[0], maxRows), h', entries[1..], maxRows);
      assert h' + entries[1..] == h + entries;
    }
  }

  // ------------------------------------------------------------- the pane

  datatype Pane = Pane(rows: seq<Event>, newestSeq: nat, oldestSeq: Option<nat>)

  function ApplyInitial(p: Pane, evs: seq<Event>): Pane {
    if evs == [] then p.(rows := [])
    else Pane(evs, evs[0].id, Some(evs[|evs| - 1].id))
  }

  function ApplyNewer(p: Pane, evs: seq<Event>): Pane {
    if evs == [] then p else p.(rows := evs + p.rows, newestSeq := evs[0].id)
  }

  function ApplyOlder(p: Pane, evs: seq<Event>): Pane {
    if evs == [] then p else p.(rows := p.rows + evs, oldestSeq := Some(evs[|evs| - 1].id))
  }

  function Switched(p: Pane, events: bool): Pane {
    if events then Pane([], 0, None) else p.(rows := [])
  }

  class EventPane {
    var shown: bool   // the panel shows events, not the application log
    var rows: seq<Event>
    var newestSeq: nat
    var oldestSeq: Option<nat>

    ghost function Abs(): Pane
      reads this
    {
      Pane(rows, newestSeq, oldestSeq)
    }

    constructor (shown: bool)
      ensures Abs() == Pane([], 0, None) && this.shown == shown
    {
      this.shown, rows, newestSeq, oldestSeq := shown, [], 0, None;
    }

    /** Clears the panel; a return to the events also forgets the cursors (a first page is then called). */
    method SetLogView(events: bool)
      modifies this
      ensures shown == events && Abs() == Switched(old(Abs()), events)
    {
      shown, rows := events, [];
      if events {
        newestSeq, oldestSeq := 0, None;
      }
    }

    method ReceiveInitial(evs: seq<Event>)
      modifies this
      ensures shown == old(shown) && Abs() == if shown then ApplyInitial(old(Abs()), evs) else old(Abs())
    {
      if !shown {
        return;
      }
      rows := [];
      for i := 0 to |evs|
        invariant shown && rows == evs[..i] && newestSeq == old(newestSeq) && oldestSeq == old(oldestSeq)
      {
        rows := rows + [evs[i]];
      }
      if |evs| > 0 {
        newestSeq, oldestSeq := evs[0].id, Some(evs[|evs| - 1].id);
      }
    }

    method ReceiveNewer(evs: seq<Event>)
      modifies this
      ensures shown == old(shown) && Abs() == if shown then ApplyNewer(old(Abs()), evs) else old(Abs())
    {
      if !shown {
        return;
      }
      for i := |evs| downto 0
        invariant shown && rows == evs[i..] + old(rows) && newestSeq == old(newestSeq) && oldestSeq == old(oldestSeq)
      {
        rows := [evs[i]] + rows;
      }
      if |evs| > 0 {
        newestSeq := evs[0].id;
      }
    }

    /** Without looking at the view. */
    method ReceiveOlder(evs: seq<Event>)
      modifies this
      ensures shown == old(shown) && Abs() == ApplyOlder(old(Abs()), evs)
    {
      for i := 0 to |evs|
        invariant shown == old(shown) && rows == old(rows) + evs[..i]
        invariant newestSeq == old(newestSeq) && oldestSeq == old(oldestSeq)
      {
        rows := rows + [evs[i]];
      }
      if |evs| > 0 {
        oldestSeq := Some(evs[|evs| - 1].id);
      }
    }
  }

  /** The rows are the events newestSeq, newestSeq - 1, ..., oldestSeq, each once, as recorded. */
  ghost predicate Faithful(p: Pane, h: seq<Entry>) {
    if p.newestSeq == 0 then p.rows == [] && p.oldestSeq.None?
    else
      && p.oldestSeq.Some? && 1 <= p.oldestSeq.value <= p.newestSeq <= |h|
      && p.rows == Newest(h, p.oldestSeq.value - 1, p.newestSeq)
  }

  // ------------------------------------------------------------- interleavings

  /** A reply on its way to the pane: computed by the server when it served the request. */
  datatype Reply = Nothing | Initial(evs: seq<Event>) | Newer(evs: seq<Event>)

  /** `shown`: the panel shows events, not the application log. `queued`: a newer-poll waits in the poll
      queue, with the cursor put into its path when it was called. */
  datatype Sys = Sys(table: seq<Event>, history: seq<Entry>, pane: Pane, shown: bool,
                     queued: Option<nat>, newer: Reply, older: Option<seq<Event>>)

  datatype Action =
    | Record(entry: Entry, maxRows: int)   // any recording, with eviction
    | CallNewer                            // loadNewEvents: queued, or coalesced with the newer cursor
    | SendNewer                            // it is dispatched and served, any time later
    | NewerArrives(lost: bool)
    | AskOlder                             // loadOlderEvents is sent and served
    | OlderArrives(lost: bool)
    | Switch(events: bool)                 // setLogView, which calls for a first page of events

  /** The number of the newest evicted event. */
  function Evicted(s: Sys): int {
    |s.history| - |s.table|
  }

  /** What the server answers the panel's requests, which ask for 100 events. */
  function Served(table: seq<Event>, before: Option<int>, after: Option<int>): seq<Event> {
    GetEvents(table, ClampLimit(PAGE), RangeOf(before, after))
  }

  /** That is: the newest 100 stored events, below or above the cursor. */
  lemma ServedIs(table: seq<Event>, h: seq<Entry>, before: Option<int>, after: Option<int>)
    requires Suffix(table, h)
    ensures var stored := |h| - |table|;
            var top := if before.Some? then Min(|h|, before.value - 1) else |h|;
            var bottom := if before.None? && after.Some? then Max(stored, after.value) else stored;
            Served(table, before, after) == if bottom < top then Newest(h, Max(bottom, top - 100), top) else []
  {
    PageIs(table, h, PAGE, before, after);
  }

  predicate Enabled(s: Sys, a: Action) {
    match a
    case Record(_, _) => true
    case CallNewer => s.shown
    case SendNewer => s.newer.Nothing? && s.queued.Some?
    case NewerArrives(_) => !s.newer.Nothing?
    case AskOlder => s.shown && s.older.None? && s.pane.oldestSeq.Some?
    case OlderArrives(_) => s.older.Some?
    case Switch(_) => true
  }

  function Step(s: Sys, a: Action): Sys
    requires Enabled(s, a)
  {
    match a
    case Record(entry, maxRows) =>
      s.(table := Recorded(s.table, |s.history|, entry, maxRows), history := s.history + [entry])
    case CallNewer => s.(queued := Some(s.pane.newestSeq))
    case SendNewer =>
      var cursor := s.queued.value;
      s.(queued := None,
         newer := if cursor == 0 then Initial(Served(s.table, None, None))
                  else Newer(Served(s.table, None, Some(cursor))))
    case NewerArrives(lost) =>
      s.(newer := Nothing,
         pane := if lost || !s.shown then s.pane
                 else if s.newer.Initial? then ApplyInitial(s.pane, s.newer.evs)
                 else ApplyNewer(s.pane, s.newer.evs))
    case AskOlder => s.(older := Some(Served(s.table, Some(s.pane.oldestSeq.value), None)))
    case OlderArrives(lost) =>
      s.(older := None, pane := if lost then s.pane else ApplyOlder(s.pane, s.older.value))
    case Switch(events) =>
      s.(shown := events, pane := Switched(s.pane, events), queued := if events then Some(0) else s.queued)
  }

  ghost predicate LegalRun(s: Sys, acts: seq<Action>)
    decreases |acts|
  {
    acts != [] ==> Enabled(s, acts[0]) && LegalRun(Step(s, acts[0]), acts[1..])
  }

  // ------------------------------------------------------------- careful runs

  /** At most a page of events is new, and none of the new ones is evicted already. */
  predicate InReach(s: Sys) {
    s.pane.newestSeq == 0 || (|s.history| - s.pane.newestSeq <= PAGE && Evicted(s) <= s.pane.newestSeq)
  }

  /** No newer-poll is called while one is in flight, each is served within reach, and the view is
      switched only with nothing under way. */
  predicate Careful(s: Sys, a: Action) {
    && (a.CallNewer? ==> s.newer.Nothing?)
    && (a.SendNewer? ==> InReach(s))
    && (a.Switch? ==> s.queued.None? && s.newer.Nothing? && s.older.None?)
  }

  /** What the panel should show: the events faithfully, or none of them. */
  ghost predicate Shows(s: Sys) {
    if s.shown then Faithful(s.pane, s.history) else s.pane.rows == []
  }

  ghost predicate CarefulRun(s: Sys, acts: seq<Action>)
    requires LegalRun(s, acts)
    decreases |acts|
  {
    acts != [] ==> Careful(s, acts[0]) && CarefulRun(Step(s, acts[0]), acts[1..])
  }

  /** evs are the recorded events top, top - 1, ..., newest first. */
  ghost predicate PageBelow(evs: seq<Event>, h: seq<Entry>, top: int) {
    evs != [] ==> |evs| <= top <= |h| && evs == Newest(h, top - |evs|, top)
  }

  /** evs are the recorded events ..., bottom + 2, bottom + 1, newest first. */
  ghost predicate PageAbove(evs: seq<Event>, h: seq<Entry>, bottom: nat) {
    bottom + |evs| <= |h| && evs == Newest(h, bottom, bottom + |evs|)
  }

  ghost predicate SysInv(s: Sys) {
    Suffix(s.table, s.history) && if s.shown then ShownInv(s) else HiddenInv(s)
  }

  ghost predicate HiddenInv(s: Sys) {
    s.pane.rows == [] && s.queued.None? && s.newer.Nothing? && s.older.None?
  }

  ghost predicate ShownInv(s: Sys) {
    && Faithful(s.pane, s.history)
    && (s.queued.Some? ==> s.newer.Nothing? && s.queued.value == s.pane.newestSeq)
    && (s.newer.Initial? ==> s.pane.newestSeq == 0
                             && (s.newer.evs != [] ==> PageBelow(s.newer.evs, s.history, s.newer.evs[0].id)))
    && (s.newer.Newer? ==> s.pane.newestSeq > 0 && PageAbove(s.newer.evs, s.history, s.pane.newestSeq))
    && (s.older.Some? ==> s.pane.oldestSeq.Some?
                          && PageBelow(s.older.value, s.history, s.pane.oldestSeq.value - 1))
  }

  lemma StepKeepsInv(s: Sys, a: Action)
    requires SysInv(s) && Enabled(s, a) && Careful(s, a)
    ensures SysInv(Step(s, a))
  {
    hide GetEvents, Recorded, Newest, Slice;
    var h := s.history;
    var lo := |h| - |s.table|;
    match a {
      case Record(entry, maxRows) =>
        RecordKeepsSuffix(s.table, h, entry, maxRows);
        if s.shown { PagesSurvive(s, entry); }
      case CallNewer =>
      case SendNewer =>
        if s.pane.newestSeq == 0 {
          PageLatest(h, lo, PAGE);
        } else {
          PageAfter(h, lo, PAGE, s.pane.newestSeq);
        }
      case NewerArrives(lost) =>
        if !lost { NewerKeepsFaithful(s); }
      case AskOlder =>
        PageBefore(h, lo, PAGE, s.pane.oldestSeq.value);
      case OlderArrives(lost) =>
        if !lost { OlderKeepsFaithful(s); }
      case Switch(_) =>
    }
  }

  lemma NewestSurvives(h: seq<Entry>, entry: Entry, lo: nat, hi: nat)
    requires lo <= hi <= |h|
    ensures Newest(h + [entry], lo, hi) == Newest(h, lo, hi)
  {
  }

  lemma NewestJoin(h: seq<Entry>, lo: nat, mid: nat, hi: nat)
    requires lo <= mid <= hi <= |h|
    ensures Newest(h, mid, hi) + Newest(h, lo, mid) == Newest(h, lo, hi)
  {
  }

  lemma PagesSurvive(s: Sys, entry: Entry)
    requires ShownInv(s)
    ensures var h' := s.history + [entry];
            && Faithful(s.pane, h')
            && (s.newer.Initial? && s.newer.evs != [] ==> PageBelow(s.newer.evs, h', s.newer.evs[0].id))
            && (s.newer.Newer? ==> PageAbove(s.newer.evs, h', s.pane.newestSeq))
            && (s.older.Some? ==> PageBelow(s.older.value, h', s.pane.oldestSeq.value - 1))
  {
    hide Newest;
    forall lo: nat, hi: nat | lo <= hi <= |s.history|
      ensures Newest(s.history + [entry], lo, hi) == Newest(s.history, lo, hi)
    {
      NewestSurvives(s.history, entry, lo, hi);
    }
  }

  lemma NewerKeepsFaithful(s: Sys)
    requires SysInv(s) && !s.newer.Nothing?
    ensures SysInv(Step(s, NewerArrives(false)))
  {
    hide Newest;
    var evs, h := s.newer.evs, s.history;
    if evs != [] && s.newer.Newer? {
      NewestJoin(h, s.pane.oldestSeq.value - 1, s.pane.newestSeq, s.pane.newestSeq + |evs|);
    }
  }

  lemma OlderKeepsFaithful(s: Sys)
    requires SysInv(s) && s.older.Some?
    ensures SysInv(Step(s, OlderArrives(false)))
  {
    hide Newest;
    var evs, oldest := s.older.value, s.pane.oldestSeq.value;
    if evs != [] {
      NewestJoin(s.history, oldest - 1 - |evs|, oldest - 1, s.pane.newestSeq);
    }
  }

  /** The panel shows what it should now and after every step. */
  ghost predicate AlwaysFaithful(s: Sys, acts: seq<Action>)
    requires LegalRun(s, acts)
    decreases |acts|
  {
    Shows(s) && (acts != [] ==> AlwaysFaithful(Step(s, acts[0]), acts[1..]))
  }

  /** Under any interleaving of recordings, evictions, careful newer-polls and older-page loads, lost
      replies included, the rows stay a gap-free, duplicate-free copy of what was recorded. */
  lemma {:induction false} PaneIsFaithful(s: Sys, acts: seq<Action>)
    requires SysInv(s) && LegalRun(s, acts) && CarefulRun(s, acts)
    ensures AlwaysFaithful(s, acts)
    decreases |acts|
  {
    hide Shows, Step;
    InvIsFaithful(s);
    if acts != [] {
      StepKeepsInv(s, acts[0]);
      PaneIsFaithful(Step(s, acts[0]), acts[1..]);
    }
  }

  lemma InvIsFaithful(s: Sys)
    requires SysInv(s)
    ensures Shows(s)
  {
  }

  // ------------------------------------------------------------- any run

  /** evs is some stretch of what was recorded, newest first. */
  ghost predicate Genuine(evs: seq<Event>, h: seq<Entry>) {
    evs != [] ==> 1 <= evs[|evs| - 1].id <= evs[0].id <= |h| && evs == Newest(h, evs[|evs| - 1].id - 1, evs[0].id)
  }

  /** The cursors and replies under way are numbers and stretches of the history, if perhaps old ones. */
  ghost predicate Replies(s: Sys) {
    && Suffix(s.table, s.history)
    && s.pane.newestSeq <= |s.history|
    && (s.pane.oldestSeq.Some? ==> 1 <= s.pane.oldestSeq.value <= |s.history|)
    && (s.queued.Some? ==> s.queued.value <= |s.history|)
    && (!s.newer.Nothing? ==> Genuine(s.newer.evs, s.history))
    && (s.older.Some? ==> Genuine(s.older.value, s.history))
  }

  /** The reply that arrives joins the panel: newer events just above the rows, older ones just below them
      (and none at all over the application log), a first page that is not empty (or an empty pane). */
  predicate Joins(s: Sys, a: Action)
    requires Enabled(s, a)
  {
    match a
    case NewerArrives(false) =>
      var evs, newest := s.newer.evs, s.pane.newestSeq;
      if !s.shown then true
      else if s.newer.Initial? then evs != [] || newest == 0
      else evs == [] || (newest > 0 && evs[|evs| - 1].id == newest + 1)
    case OlderArrives(false) =>
      var evs, oldest := s.older.value, s.pane.oldestSeq;
      evs == [] || (s.shown && oldest.Some? && evs[0].id == oldest.value - 1)
    case _ => true
  }

  ghost predicate AlwaysJoins(s: Sys, acts: seq<Action>)
    requires LegalRun(s, acts)
    decreases |acts|
  {
    acts != [] ==> Joins(s, acts[0]) && AlwaysJoins(Step(s, acts[0]), acts[1..])
  }

  lemma NewestIsGenuine(h: seq<Entry>, lo: nat, hi: nat)
    requires lo <= hi <= |h|
    ensures Genuine(Newest(h, lo, hi), h)
  {
  }

  lemma GenuineSurvives(evs: seq<Event>, h: seq<Entry>, entry: Entry)
    requires Genuine(evs, h)
    ensures Genuine(evs, h + [entry])
  {
    if evs != [] {
      NewestSurvives(h, entry, evs[|evs| - 1].id - 1, evs[0].id);
    }
  }

  lemma StepKeepsReplies(s: Sys, a: Action)
    requires Replies(s) && Enabled(s, a)
    ensures Replies(Step(s, a))
  {
    hide GetEvents, Recorded, Newest, Slice, Genuine;
    var h := s.history;
    var lo := |h| - |s.table|;
    match a {
      case Record(entry, maxRows) =>
        RecordKeepsSuffix(s.table, h, entry, maxRows);
        if !s.newer.Nothing? { GenuineSurvives(s.newer.evs, h, entry); }
        if s.older.Some? { GenuineSurvives(s.older.value, h, entry); }
      case CallNewer =>
      case SendNewer =>
        var cursor := s.queued.value;
        if cursor == 0 {
          PageLatest(h, lo, PAGE);
          NewestIsGenuine(h, Max(lo, |h| - PAGE), |h|);
        } else {
          PageAfter(h, lo, PAGE, cursor);
          NewestIsGenuine(h, Max(Max(lo, cursor), |h| - PAGE), |h|);
        }
      case NewerArrives(lost) =>
        GenuineIds(s.newer.evs, h);
      case AskOlder =>
        var top := Max(lo, s.pane.oldestSeq.value - 1);
        PageBefore(h, lo, PAGE, s.pane.oldestSeq.value);
        NewestIsGenuine(h, Max(lo, top - PAGE), top);
      case OlderArrives(lost) =>
        GenuineIds(s.older.value, h);
      case Switch(_) =>
    }
  }

  lemma GenuineIds(evs: seq<Event>, h: seq<Entry>)
    requires Genuine(evs, h)
    ensures evs != [] ==> 1 <= evs[|evs| - 1].id <= evs[0].id <= |h|
  {
  }

  lemma JoinsExactly(s: Sys, a: Action)
    requires Replies(s) && Enabled(s, a) && Shows(s)
    ensures Shows(Step(s, a)) <==> Joins(s, a)
  {
    hide GetEvents, Recorded, Newest, Genuine, Suffix;
    var h, p := s.history, s.pane;
    match a {
      case Record(entry, _) =>
        if s.shown && p.newestSeq > 0 { NewestSurvives(h, entry, p.oldestSeq.value - 1, p.newestSeq); }
      case NewerArrives(lost) =>
        if !lost && s.shown {
          if s.newer.Newer? { NewerJoins(p, s.newer.evs, h); } else { InitialJoins(p, s.newer.evs, h); }
        }
      case OlderArrives(lost) =>
        if !lost && s.shown { OlderJoins(p, s.older.value, h); }
      case _ =>
    }
  }

  lemma InitialJoins(p: Pane, evs: seq<Event>, h: seq<Entry>)
    requires Faithful(p, h) && Genuine(evs, h)
    ensures Faithful(ApplyInitial(p, evs), h) <==> evs != [] || p.newestSeq == 0
  {
  }

  lemma NewerJoins(p: Pane, evs: seq<Event>, h: seq<Entry>)
    requires Faithful(p, h) && Genuine(evs, h)
    ensures Faithful(ApplyNewer(p, evs), h) <==> evs == [] || (p.newestSeq > 0 && evs[|evs| - 1].id == p.newestSeq + 1)
  {
    if evs != [] && p.newestSeq > 0 {
      var k, rows := |evs| - 1, evs + p.rows;
      assert rows[k] == evs[k] && rows[k + 1] == p.rows[0];
      if evs[k].id == p.newestSeq + 1 {
        NewestJoin(h, p.oldestSeq.value - 1, p.newestSeq, evs[0].id);
      }
    }
  }

  lemma OlderJoins(p: Pane, evs: seq<Event>, h: seq<Entry>)
    requires Faithful(p, h) && Genuine(evs, h)
    ensures Faithful(ApplyOlder(p, evs), h) <==>
            evs == [] || (p.oldestSeq.Some? && evs[0].id == p.oldestSeq.value - 1)
  {
    if evs != [] && p.newestSeq > 0 {
      var k, rows := |p.rows| - 1, p.rows + evs;
      assert rows[k] == p.rows[k] && rows[k + 1] == evs[0];
      if evs[0].id == p.oldestSeq.value - 1 {
        NewestJoin(h, evs[|evs| - 1].id - 1, evs[0].id, p.newestSeq);
      }
    }
  }

  /** Under every interleaving, calls made with a request in flight, bursts, evictions and view switches
      with replies under way included, the panel shows what it should throughout if and only if every
      arriving reply joins it. */
  lemma {:induction false} PaneIsFaithfulExactly(s: Sys, acts: seq<Action>)
    requires Replies(s) && LegalRun(s, acts) && Shows(s)
    ensures AlwaysFaithful(s, acts) <==> AlwaysJoins(s, acts)
    decreases |acts|
  {
    hide Shows, Joins, Step, Replies;
    if acts != [] {
      var t := Step(s, acts[0]);
      JoinsExactly(s, acts[0]);
      StepKeepsReplies(s, acts[0]);
      if Shows(t) {
        PaneIsFaithfulExactly(t, acts[1..]);
      }
    }
  }

  // ------------------------------------------------------------- when a newer-poll breaks the pane

  ghost predicate Consecutive(rows: seq<Event>) {
    forall i :: 0 <= i < |rows| - 1 ==> rows[i].id == rows[i + 1].id + 1
  }

  /** A newer-poll sent with cursor `after` (which may be older than the pane's by the time its reply
      arrives) keeps the rows consecutive if and only if it brings nothing, or the newest event it
      does not bring (by its cursor, the page size or eviction) is the pane's newest. */
  lemma NewerKeepsConsecutiveExactly(p: Pane, table: seq<Event>, h: seq<Entry>, after: nat)
    requires Suffix(table, h) && Faithful(p, h) && p.newestSeq > 0 && after <= p.newestSeq
    ensures var cut := Max(Max(|h| - |table|, after), |h| - PAGE);
            Consecutive(ApplyNewer(p, GetEvents(table, PAGE, After(after))).rows)
            <==> cut == |h| || cut == p.newestSeq
  {
    var cut := Max(Max(|h| - |table|, after), |h| - PAGE);
    PageAfter(h, |h| - |table|, PAGE, after);
    var evs := GetEvents(table, PAGE, After(after));
    if evs != [] {
      var rows := evs + p.rows;
      var k := |evs| - 1;
      assert rows[k].id == cut + 1 && rows[k + 1].id == p.newestSeq;
    }
  }

  /** loadNewEvents called again while its request is in flight queues a poll with the old cursor: the
      same event is then shown twice. */
  lemma StaleCursorDuplicates(e: Entry)
    ensures var table := [Event(1, e), Event(2, e)];
            var p := Pane([Event(1, e)], 1, Some(1));
            var once := ApplyNewer(p, GetEvents(table, PAGE, After(1)));
            && once.rows == [Event(2, e), Event(1, e)]
            && ApplyNewer(once, GetEvents(table, PAGE, After(1))).rows == [Event(2, e), Event(2, e), Event(1, e)]
  {
    var h := [e, e];
    assert [Event(1, e), Event(2, e)] == Slice(h, 0, 2);
    PageAfter(h, 0, PAGE, 1);
    assert Newest(h, 1, 2) == [Event(2, e)];
  }

  /** A burst of 101 events between two polls leaves event 2 out: the page holds 3 to 102. */
  lemma BurstLeavesGap(e: Entry)
    ensures var h := seq(102, _ => e);
            var p := Pane([Event(1, e)], 1, Some(1));
            Faithful(p, h) && !Consecutive(ApplyNewer(p, GetEvents(Slice(h, 0, 102), PAGE, After(1))).rows)
  {
    var h := seq(102, _ => e);
    var p := Pane([Event(1, e)], 1, Some(1));
    assert Newest(h, 0, 1) == [Event(1, e)];
    assert Suffix(Slice(h, 0, 102), h);
    NewerKeepsConsecutiveExactly(p, Slice(h, 0, 102), h, 1);
  }

  /** So does an eviction: with room for one row, event 2 is gone before it is asked for. */
  lemma EvictionLeavesGap(e: Entry)
    ensures var h := [e, e, e];
            var p := Pane([Event(1, e)], 1, Some(1));
            Faithful(p, h) && !Consecutive(ApplyNewer(p, GetEvents([Event(3, e)], PAGE, After(1))).rows)
  {
    var h := [e, e, e];
    var p := Pane([Event(1, e)], 1, Some(1));
    assert Newest(h, 0, 1) == [Event(1, e)];
    assert [Event(3, e)] == Slice(h, 2, 3);
    NewerKeepsConsecutiveExactly(p, [Event(3, e)], h, 1);
  }

  // ------------------------------------------------------------- two runs that break the pane

  lemma RunFirst(s: Sys, a: Action, rest: seq<Action>)
    ensures LegalRun(s, [a] + rest) <==> Enabled(s, a) && LegalRun(Step(s, a), rest)
    ensures LegalRun(s, [a] + rest) ==>
              (AlwaysFaithful(s, [a] + rest) <==> Shows(s) && AlwaysFaithful(Step(s, a), rest))
  {
    assert ([a] + rest)[1..] == rest;
  }

  lemma RunNone(s: Sys)
    ensures LegalRun(s, []) && (AlwaysFaithful(s, []) <==> Shows(s))
  {
  }

  /** A panel opened on a store with this history, nothing evicted. */
  function Opened(h: seq<Entry>): Sys {
    Sys(Slice(h, 0, |h|), h, Pane([], 0, None), true, None, Nothing, None)
  }

  /** From an empty store: one event is recorded and shown; a second is recorded, and loadNewEvents is called
      again while its request for it is in flight. */
  function StaleRun(e: Entry): seq<Action> {
    [Record(e, 1000), CallNewer, SendNewer, NewerArrives(false)]
    + [Record(e, 1000), CallNewer, SendNewer, CallNewer, NewerArrives(false), SendNewer, NewerArrives(false)]
  }

  lemma StaleRunIs(e: Entry)
    ensures StaleRun(e) == [Record(e, 1000)] + ([CallNewer] + ([SendNewer] + ([NewerArrives(false)] + ([Record(e, 1000)]
              + [CallNewer, SendNewer, CallNewer, NewerArrives(false), SendNewer, NewerArrives(false)]))))
  {
  }

  lemma StaleTables(e: Entry)
    ensures Recorded([], 0, e, 1000) == [Event(1, e)] == Slice([e], 0, 1)
    ensures Recorded([Event(1, e)], 1, e, 1000) == [Event(1, e), Event(2, e)] == Slice([e, e], 0, 2)
  {
    hide Recorded;
    RecordKeepsSuffix([], [], e, 1000);
    assert [] + [e] == [e];
    RecordKeepsSuffix([Event(1, e)], [e], e, 1000);
    assert [e] + [e] == [e, e];
  }

  lemma StalePages(e: Entry)
    ensures var one, two := Event(1, e), Event(2, e);
            && Recorded([], 0, e, 1000) == [one] && Recorded([one], 1, e, 1000) == [one, two]
            && GetEvents([one], PAGE, All) == [one] && GetEvents([one, two], PAGE, After(1)) == [two]
  {
    hide GetEvents, Recorded, Slice;
    StaleTables(e);
    PageLatest([e], 0, PAGE);
    assert Newest([e], 0, 1) == [Event(1, e)];
    PageAfter([e, e], 0, PAGE, 1);
    assert Newest([e, e], 1, 2) == [Event(2, e)];
  }

  /** Both events on record, the first one shown. */
  function Midway(e: Entry, pane: Pane, queued: Option<nat>, newer: Reply): Sys {
    Sys([Event(1, e), Event(2, e)], [e, e], pane, true, queued, newer, None)
  }

  lemma StaleEnd(e: Entry)
    ensures var acts := [CallNewer, SendNewer, CallNewer, NewerArrives(false), SendNewer, NewerArrives(false)];
            var s := Midway(e, Pane([Event(1, e)], 1, Some(1)), None, Nothing);
            LegalRun(s, acts) && !AlwaysFaithful(s, acts)
  {
    var one, two := Event(1, e), Event(2, e);
    var p1, p2, p3 := Pane([one], 1, Some(1)), Pane([two, one], 2, Some(1)), Pane([two, two, one], 2, Some(1));
    StalePages(e);
    assert [two] + [one] == [two, one] && [two] + [two, one] == [two, two, one];
    var s0, s1, s2 := Midway(e, p1, None, Nothing), Midway(e, p1, Some(1), Nothing), Midway(e, p1, None, Newer([two]));
    var s3, s4 := Midway(e, p1, Some(1), Newer([two])), Midway(e, p2, Some(1), Nothing);
    var s5, s6 := Midway(e, p2, None, Newer([two])), Midway(e, p3, None, Nothing);
    hide GetEvents, LegalRun, AlwaysFaithful;
    assert Step(s0, CallNewer) == s1 && Step(s1, SendNewer) == s2 && Step(s2, CallNewer) == s3;
    assert Step(s3, NewerArrives(false)) == s4 && Step(s4, SendNewer) == s5 && Step(s5, NewerArrives(false)) == s6;
    assert !Shows(s6);
    hide Step, Shows, Midway;
    var r5 := [NewerArrives(false)] + [];
    var r4 := [SendNewer] + r5;
    var r3 := [NewerArrives(false)] + r4;
    var r2 := [CallNewer] + r3;
    var r1 := [SendNewer] + r2;
    assert [CallNewer, SendNewer, CallNewer, NewerArrives(false), SendNewer, NewerArrives(false)] == [CallNewer] + r1;
    RunNone(s6);
    RunFirst(s5, NewerArrives(false), []);
    RunFirst(s4, SendNewer, r5);
    RunFirst(s3, NewerArrives(false), r4);
    RunFirst(s2, CallNewer, r3);
    RunFirst(s1, SendNewer, r2);
    RunFirst(s0, CallNewer, r1);
  }

  /** The first event on record. */
  function Early(e: Entry, pane: Pane, queued: Option<nat>, newer: Reply): Sys {
    Sys([Event(1, e)], [e], pane, true, queued, newer, None)
  }

  lemma EarlySteps(e: Entry)
    ensures var one := Event(1, e);
            var p0, p1 := Pane([], 0, None), Pane([one], 1, Some(1));
            && Step(Opened([]), Record(e, 1000)) == Early(e, p0, None, Nothing)
            && Step(Early(e, p0, None, Nothing), CallNewer) == Early(e, p0, Some(0), Nothing)
            && Step(Early(e, p0, Some(0), Nothing), SendNewer) == Early(e, p0, None, Initial([one]))
            && Step(Early(e, p0, None, Initial([one])), NewerArrives(false)) == Early(e, p1, None, Nothing)
            && Step(Early(e, p1, None, Nothing), Record(e, 1000)) == Midway(e, p1, None, Nothing)
            && Shows(Opened([])) && Replies(Opened([]))
            && Enabled(Opened([]), Record(e, 1000)) && Enabled(Early(e, p1, None, Nothing), Record(e, 1000))
            && Enabled(Early(e, p0, None, Nothing), CallNewer) && Enabled(Early(e, p0, Some(0), Nothing), SendNewer)
            && Enabled(Early(e, p0, None, Initial([one])), NewerArrives(false))
  {
    StalePages(e);
    hide GetEvents, Recorded;
    assert [] + [e] == [e] && [e] + [e] == [e, e];
  }

  /** That run is possible, and shows the second event twice. */
  lemma StaleRunDuplicates(e: Entry)
    ensures Replies(Opened([])) && LegalRun(Opened([]), StaleRun(e)) && !AlwaysFaithful(Opened([]), StaleRun(e))
  {
    hide *;
    var one := Event(1, e);
    var p0, p1 := Pane([], 0, None), Pane([one], 1, Some(1));
    var s1, s2 := Early(e, p0, None, Nothing), Early(e, p0, Some(0), Nothing);
    var s3, s4 := Early(e, p0, None, Initial([one])), Early(e, p1, None, Nothing);
    EarlySteps(e);
    StaleEnd(e);
    var r4 := [CallNewer, SendNewer, CallNewer, NewerArrives(false), SendNewer, NewerArrives(false)];
    var r3 := [Record(e, 1000)] + r4;
    var r2 := [NewerArrives(false)] + r3;
    var r1 := [SendNewer] + r2;
    var r0 := [CallNewer] + r1;
    assert StaleRun(e) == [Record(e, 1000)] + r0 by { StaleRunIs(e); }
    RunFirst(s4, Record(e, 1000), r4);
    RunFirst(s3, NewerArrives(false), r3);
    RunFirst(s2, SendNewer, r2);
    RunFirst(s1, CallNewer, r1);
    RunFirst(Opened([]), Record(e, 1000), r0);
  }

  /** A store of 101 events. */
  function Stored(e: Entry): (h: seq<Entry>)
    ensures |h| == 101
  {
    seq(101, _ => e)
  }

  lemma StoredPages(e: Entry)
    ensures var h := Stored(e);
            && GetEvents(Slice(h, 0, 101), PAGE, All) == Newest(h, 1, 101)
            && GetEvents(Slice(h, 0, 101), PAGE, Before(2)) == Newest(h, 0, 1)
  {
    hide GetEvents, Newest, Slice;
    PageLatest(Stored(e), 0, PAGE);
    PageBefore(Stored(e), 0, PAGE, 2);
  }

  /** The panel on that store. */
  function Open(e: Entry, pane: Pane, shown: bool, queued: Option<nat>, newer: Reply, older: Option<seq<Event>>): Sys {
    Sys(Slice(Stored(e), 0, 101), Stored(e), pane, shown, queued, newer, older)
  }

  /** Its states, one after the other. */
  function SwitchState(e: Entry, n: nat): Sys
    requires n <= 6
  {
    var first, older := Newest(Stored(e), 1, 101), Newest(Stored(e), 0, 1);
    var shown := Pane(first, 101, Some(2));
    if n == 0 then Open(e, Pane([], 0, None), true, None, Nothing, None)
    else if n == 1 then Open(e, Pane([], 0, None), true, Some(0), Nothing, None)
    else if n == 2 then Open(e, Pane([], 0, None), true, None, Initial(first), None)
    else if n == 3 then Open(e, shown, true, None, Nothing, None)
    else if n == 4 then Open(e, shown, true, None, Nothing, Some(older))
    else if n == 5 then Open(e, Pane([], 101, Some(2)), false, None, Nothing, Some(older))
    else Open(e, Pane(older, 101, Some(1)), false, None, Nothing, None)
  }

  function SwitchRun(): seq<Action> {
    [CallNewer, SendNewer, NewerArrives(false), AskOlder, Switch(false), OlderArrives(false)]
  }

  lemma SwitchSteps(e: Entry, n: nat)
    requires n < 6
    ensures Enabled(SwitchState(e, n), SwitchRun()[n])
    ensures Step(SwitchState(e, n), SwitchRun()[n]) == SwitchState(e, n + 1)
  {
    StoredPages(e);
    hide GetEvents, Newest, Slice, Stored;
    var older := Newest(Stored(e), 0, 1);
    assert [] + older == older && older != [];
  }

  lemma SwitchEnds(e: Entry)
    ensures SwitchState(e, 0) == Opened(Stored(e)) && Replies(SwitchState(e, 0)) && !Shows(SwitchState(e, 6))
  {
    hide Newest, Slice, Stored;
  }

  lemma {:induction false} SwitchTail(e: Entry, n: nat)
    requires n <= 6
    ensures LegalRun(SwitchState(e, n), SwitchRun()[n..]) && !AlwaysFaithful(SwitchState(e, n), SwitchRun()[n..])
    decreases 6 - n
  {
    hide SwitchState, Step, Enabled, LegalRun, AlwaysFaithful, Shows, Opened;
    if n == 6 {
      assert SwitchRun()[6..] == [];
      RunNone(SwitchState(e, 6));
      SwitchEnds(e);
    } else {
      SwitchSteps(e, n);
      SwitchTail(e, n + 1);
      assert SwitchRun()[n..] == [SwitchRun()[n]] + SwitchRun()[n + 1..];
      RunFirst(SwitchState(e, n), SwitchRun()[n], SwitchRun()[n + 1..]);
    }
  }

  /** The view is switched to the application log while an older page is in flight: its event is appended
      to the log lines. */
  lemma SwitchRunStrays(e: Entry)
    ensures var s := Opened(Stored(e));
            Replies(s) && LegalRun(s, SwitchRun()) && !AlwaysFaithful(s, SwitchRun())
  {
    SwitchEnds(e);
    SwitchTail(e, 0);
    hide Opened, Stored, LegalRun, AlwaysFaithful, SwitchState, Replies;
    assert SwitchRun()[0..] == SwitchRun();
  }
}
