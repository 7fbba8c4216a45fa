/** Per-source rate limits in fixed windows of a second, with idle sources pruned now and then. */
module RateLimiter {
  import opened Bytes
  import opened Sessions
  import opened Sums

  const WINDOW: nat := SECOND
  const PRUNE_INTERVAL: nat := 30 * SECOND
  const IDLE_TTL: nat := 120 * SECOND
  const MAX_SOURCES := MAX_SESSIONS_TOTAL

  datatype Kind = Packet | NewSession | NewFlow

  function Limit(kind: Kind): nat {
    match kind
    case Packet => 50_000
    case NewSession => 256
    case NewFlow => 4096
  }

  datatype Rate = Rate(windowStart: nat, packets: nat, newSessions: nat, newFlows: nat)

  function NewRate(now: nat): Rate {
    Rate(now, 0, 0, 0)
  }

  function Used(r: Rate, kind: Kind): nat {
    match kind
    case Packet => r.packets
    case NewSession => r.newSessions
    case NewFlow => r.newFlows
  }

  function Counted(r: Rate, kind: Kind): Rate {
    match kind
    case Packet => r.(packets := r.packets + 1)
    case NewSession => r.(newSessions := r.newSessions + 1)
    case NewFlow => r.(newFlows := r.newFlows + 1)
  }

  function Rolled(r: Rate, now: nat): Rate {
    if Since(now, r.windowStart) >= WINDOW then NewRate(now) else r
  }

  /** The window after an event, and whether the event is admitted. */
  function Allowed(r: Rate, kind: Kind, now: nat): (Rate, bool) {
    var r' := Rolled(r, now);
    if Used(r', kind) >= Limit(kind) then (r', false) else (Counted(r', kind), true)
  }

  /** Whole milliseconds, capped. */
  function Millis(d: nat): u64 {
    if d / 1_000_000 > U64_MAX then U64_MAX else d / 1_000_000
  }

  datatype Table = Table(sources: map<Ip, Rate>, createdAt: nat, lastPruneMs: u64)

  function Pruned(t: Table, now: nat): Table {
    var nowMs := Millis(Since(now, t.createdAt));
    if SatSub(nowMs, t.lastPruneMs) < Millis(PRUNE_INTERVAL) then t
    else Table(map ip | ip in t.sources && Since(now, t.sources[ip].windowStart) < IDLE_TTL :: t.sources[ip],
               t.createdAt, nowMs)
  }

  function RateOf(sources: map<Ip, Rate>, ip: Ip, now: nat): Rate {
    if ip in sources then sources[ip] else NewRate(now)
  }

  /** The table is full and does not know the source. */
  predicate NoRoom(t: Table, ip: Ip, now: nat) {
    var p := Pruned(t, now);
    ip !in p.sources && |p.sources| >= MAX_SOURCES
  }

  function Taken(t: Table, ip: Ip, kind: Kind, now: nat): (Table, bool) {
    var p := Pruned(t, now);
    if NoRoom(t, ip, now) then (p, false)
    else
      var (r, ok) := Allowed(RateOf(p.sources, ip, now), kind, now);
      (p.(sources := p.sources[ip := r]), ok)
  }

  class SourceRateLimiter {
    var sources: map<Ip, Rate>
    const createdAt: nat
    var lastPruneMs: u64

    function Value(): Table
      reads this
    {
      Table(sources, createdAt, lastPruneMs)
    }

    constructor (now: nat)
      ensures Value() == Table(map[], now, 0)
    {
      sources, createdAt, lastPruneMs := map[], now, 0;
    }

    method PruneIdle(now: nat)
      modifies this
      ensures Value() == Pruned(old(Value()), now)
    {
      var nowMs := Millis(Since(now, createdAt));
      if SatSub(nowMs, lastPruneMs) < Millis(PRUNE_INTERVAL) {
        return;
      }
      lastPruneMs := nowMs;
      var todo := sources.Keys;
      while todo != {}
        invariant lastPruneMs == nowMs
        invariant todo <= sources.Keys <= old(sources).Keys
        invariant forall ip :: ip in sources ==> sources[ip] == old(sources)[ip]
        invariant forall ip :: ip in old(sources) && ip !in todo ==>
                    (ip in sources <==> Since(now, old(sources)[ip].windowStart) < IDLE_TTL)
        decreases |todo|
      {
        var ip :| ip in todo;
        if Since(now, sources[ip].windowStart) >= IDLE_TTL {
          sources := sources - {ip};
        }
        todo := todo - {ip};
      }
    }

    method Allow(ip: Ip, kind: Kind, now: nat) returns (ok: bool)
      modifies this
      ensures (Value(), ok) == Taken(old(Value()), ip, kind, now)
    {
      PruneIdle(now);
      if ip !in sources && |sources| >= MAX_SOURCES {
        return false;
      }
      var r := if ip in sources then sources[ip] else NewRate(now);
      if Since(now, r.windowStart) >= WINDOW {
        r := NewRate(now);
      }
      ok := Used(r, kind) < Limit(kind);
      if ok {
        r := Counted(r, kind);
      }
      sources := sources[ip := r];
    }
  }

  // --- Runs ---

  datatype Event = Event(ip: Ip, kind: Kind, now: nat)

  predicate Ordered(run: seq<Event>) {
    forall i, j :: 0 <= i < j < |run| ==> run[i].now <= run[j].now
  }

  function After(start: nat, run: seq<Event>): Table {
    if run == [] then Table(map[], start, 0)
    else
      var e := run[|run| - 1];
      Taken(After(start, run[..|run| - 1]), e.ip, e.kind, e.now).0
  }

  predicate RefusedForRoom(start: nat, run: seq<Event>, i: nat)
    requires i < |run|
  {
    NoRoom(After(start, run[..i]), run[i].ip, run[i].now)
  }

  predicate Answer(start: nat, run: seq<Event>, i: nat)
    requires i < |run|
  {
    Taken(After(start, run[..i]), run[i].ip, run[i].kind, run[i].now).1
  }

  /** A limiter that never prunes and has room for everyone, fed what was not refused for room. */
  function Reference(start: nat, run: seq<Event>): map<Ip, Rate> {
    if run == [] then map[]
    else
      var n := |run| - 1;
      var e, before := run[n], Reference(start, run[..n]);
      if RefusedForRoom(start, run, n) then before
      else before[e.ip := Allowed(RateOf(before, e.ip, e.now), e.kind, e.now).0]
  }

  /** The pruned table agrees with the reference, but for sources whose window is long over. */
  ghost predicate Agrees(sources: map<Ip, Rate>, reference: map<Ip, Rate>, now: nat) {
    && sources.Keys <= reference.Keys
    && (forall ip :: ip in sources ==> sources[ip] == reference[ip])
    && (forall ip :: ip in reference && ip !in sources ==> Since(now, reference[ip].windowStart) >= IDLE_TTL)
  }

  lemma PruningAgrees(t: Table, reference: map<Ip, Rate>, before: nat, now: nat)
    requires Agrees(t.sources, reference, before) && before <= now
    ensures Agrees(Pruned(t, now).sources, reference, now)
  {
  }

  /** A source pruned and met again starts over exactly as the reference rolls its window. */
  lemma SameAnswer(sources: map<Ip, Rate>, reference: map<Ip, Rate>, now: nat, ip: Ip, kind: Kind)
    requires Agrees(sources, reference, now)
    ensures Allowed(RateOf(sources, ip, now), kind, now) == Allowed(RateOf(reference, ip, now), kind, now)
  {
  }

  function LastTime(run: seq<Event>): nat {
    if run == [] then 0 else run[|run| - 1].now
  }

  lemma {:induction false} RunAgrees(start: nat, run: seq<Event>)
    requires Ordered(run)
    ensures Agrees(After(start, run).sources, Reference(start, run), LastTime(run))
  {
    hide Pruned, Allowed;
    if run != [] {
      var n := |run| - 1;
      var before, e := run[..n], run[n];
      RunAgrees(start, before);
      PruningAgrees(After(start, before), Reference(start, before), LastTime(before), e.now);
      SameAnswer(Pruned(After(start, before), e.now).sources, Reference(start, before), e.now, e.ip, e.kind);
    }
  }

  /** Pruning idle sources never changes an answer, refusals for lack of room aside. */
  lemma PruningChangesNoAnswer(start: nat, run: seq<Event>, i: nat)
    requires Ordered(run) && i < |run| && !RefusedForRoom(start, run, i)
    ensures Answer(start, run, i)
            == Allowed(RateOf(Reference(start, run[..i]), run[i].ip, run[i].now), run[i].kind, run[i].now).1
  {
    hide Pruned, Allowed;
    RunAgrees(start, run[..i]);
    var t, e := After(start, run[..i]), run[i];
    PruningAgrees(t, Reference(start, run[..i]), LastTime(run[..i]), e.now);
    SameAnswer(Pruned(t, e.now).sources, Reference(start, run[..i]), e.now, e.ip, e.kind);
  }

  // --- The bound ---

  /** Events of this source and kind admitted in the second from `a` on. */
  function Admitted(start: nat, run: seq<Event>, ip: Ip, kind: Kind, a: nat): nat {
    if run == [] then 0
    else
      var n := |run| - 1;
      Admitted(start, run[..n], ip, kind, a)
      + if Counts(run[n], ip, kind, a) && Answer(start, run, n) then 1 else 0
  }

  /** How many events of the second from `a` on can have been admitted, by the window the source is in:
      those of a window begun earlier, those of one that ended inside the second and one begun in it,
      or those of two windows. */
  function Cap(r: Rate, kind: Kind, a: nat): nat {
    if r.windowStart < a then Used(r, kind)
    else if r.windowStart < a + WINDOW then Limit(kind) + Used(r, kind)
    else 2 * Limit(kind)
  }

  predicate Within(r: Rate, kind: Kind, a: nat, c: nat, last: nat) {
    && r.windowStart <= last && Used(r, kind) <= Limit(kind)
    && c <= Cap(r, kind, a) && (last < a ==> c == 0)
  }

  predicate Counts(e: Event, ip: Ip, kind: Kind, a: nat) {
    e.ip == ip && e.kind == kind && a <= e.now < a + WINDOW
  }

  lemma WithinNext(r: Rate, kind: Kind, a: nat, c: nat, last: nat, e: Event)
    requires Within(r, kind, a, c, last) && last <= e.now
    ensures var (r', ok) := Allowed(r, e.kind, e.now);
            Within(r', kind, a, c + if Counts(e, e.ip, kind, a) && ok then 1 else 0, e.now)
  {
  }

  lemma WithinNew(kind: Kind, a: nat, e: Event)
    ensures Within(NewRate(e.now), kind, a, 0, e.now)
  {
  }

  ghost predicate Bounded(start: nat, run: seq<Event>, ip: Ip, kind: Kind, a: nat) {
    var reference := Reference(start, run);
    if ip !in reference then Admitted(start, run, ip, kind, a) == 0
    else Within(reference[ip], kind, a, Admitted(start, run, ip, kind, a), LastTime(run))
  }

  lemma {:induction false} RunBounded(start: nat, run: seq<Event>, ip: Ip, kind: Kind, a: nat)
    requires Ordered(run)
    ensures Bounded(start, run, ip, kind, a)
  {
    hide Allowed, Pruned, Taken, NoRoom;
    if run != [] {
      var n := |run| - 1;
      var before, e := run[..n], run[n];
      RunBounded(start, before, ip, kind, a);
      assert n > 0 ==> LastTime(before) == run[n - 1].now <= e.now;
      var reference := Reference(start, before);
      if RefusedForRoom(start, run, n) {
        RoomRefusalRefuses(start, run, n);
        WithinLater(reference, ip, kind, a, Admitted(start, before, ip, kind, a), LastTime(before), e.now);
      } else {
        PruningChangesNoAnswer(start, run, n);
        if e.ip == ip {
          var r := RateOf(reference, ip, e.now);
          WithinNew(kind, a, e);
          WithinNext(r, kind, a, Admitted(start, before, ip, kind, a),
                     if ip in reference then LastTime(before) else e.now, e);
        } else {
          WithinLater(reference, ip, kind, a, Admitted(start, before, ip, kind, a), LastTime(before), e.now);
        }
      }
    }
  }

  lemma RoomRefusalRefuses(start: nat, run: seq<Event>, i: nat)
    requires i < |run| && RefusedForRoom(start, run, i)
    ensures !Answer(start, run, i)
  {
  }

  lemma WithinLater(reference: map<Ip, Rate>, ip: Ip, kind: Kind, a: nat, c: nat, last: nat, now: nat)
    requires ip in reference ==> Within(reference[ip], kind, a, c, last)
    requires last <= now
    ensures ip in reference ==> Within(reference[ip], kind, a, c, now)
  {
  }

  /** For nondecreasing times, a source gets at most twice the limit of a kind admitted in any
      half-open second. */
  lemma RateBound(start: nat, run: seq<Event>, ip: Ip, kind: Kind, a: nat)
    requires Ordered(run)
    ensures Admitted(start, run, ip, kind, a) <= 2 * Limit(kind)
  {
    RunBounded(start, run, ip, kind, a);
  }

  // --- A refusal is earned ---

  /** The count of the current window is of admissions made since it began. */
  ghost predicate Earned(start: nat, run: seq<Event>, ip: Ip, kind: Kind) {
    var reference := Reference(start, run);
    ip in reference ==>
      && reference[ip].windowStart <= LastTime(run)
      && Used(reference[ip], kind) <= Admitted(start, run, ip, kind, reference[ip].windowStart)
  }

  lemma AllowedFacts(r: Rate, kind: Kind, e: Event)
    requires r.windowStart <= e.now
    ensures var (r', ok) := Allowed(r, e.kind, e.now);
            && r'.windowStart <= e.now < r'.windowStart + WINDOW
            && (r'.windowStart == r.windowStart || (r'.windowStart == e.now && Used(r', kind) <= 1))
            && Used(r', kind) <= (if r'.windowStart == r.windowStart then Used(r, kind) else 0)
                  + if ok && e.kind == kind then 1 else 0
  {
  }

  lemma {:induction false} RunEarned(start: nat, run: seq<Event>, ip: Ip, kind: Kind)
    requires Ordered(run)
    ensures Earned(start, run, ip, kind)
  {
    hide Allowed, Pruned, Taken, NoRoom, Used;
    if run != [] {
      var n := |run| - 1;
      var before, e := run[..n], run[n];
      RunEarned(start, before, ip, kind);
      assert n > 0 ==> LastTime(before) == run[n - 1].now <= e.now;
      if !RefusedForRoom(start, run, n) {
        PruningChangesNoAnswer(start, run, n);
        if e.ip == ip {
          AllowedFacts(RateOf(Reference(start, before), e.ip, e.now), kind, e);
        }
        assert Used(NewRate(e.now), kind) == 0 by { UnusedAtFirst(kind, e.now); }
      }
    }
  }

  lemma UnusedAtFirst(kind: Kind, now: nat)
    ensures Used(NewRate(now), kind) == 0
  {
  }

  /** A source is refused, other than for lack of room, only when it already got the full limit of
      that kind admitted within the last second. */
  lemma RefusalIsEarned(start: nat, run: seq<Event>, i: nat)
    requires Ordered(run) && i < |run| && !RefusedForRoom(start, run, i) && !Answer(start, run, i)
    ensures exists a: nat :: a <= run[i].now < a + WINDOW
                        && Admitted(start, run[..i], run[i].ip, run[i].kind, a) >= Limit(run[i].kind)
  {
    hide Pruned, Taken, NoRoom;
    var e := run[i];
    PruningChangesNoAnswer(start, run, i);
    RunEarned(start, run[..i], e.ip, e.kind);
    var r := RateOf(Reference(start, run[..i]), e.ip, e.now);
    assert i > 0 ==> LastTime(run[..i]) == run[i - 1].now <= e.now;
    assert Admitted(start, run[..i], e.ip, e.kind, r.windowStart) >= Limit(e.kind);
  }

  // --- Exactly when an event is refused ---

  ghost function Sources(run: seq<Event>): set<Ip> {
    set e | e in run :: e.ip
  }

  lemma {:induction false} TableFromRun(start: nat, run: seq<Event>)
    ensures After(start, run).sources.Keys <= Sources(run) && |After(start, run).sources| <= 65_536
  {
    if run != [] {
      var n := |run| - 1;
      var before, e := run[..n], run[n];
      TableFromRun(start, before);
      var t := Pruned(After(start, before), e.now);
      assert e in run && forall x :: x in before ==> x in run;
      SubsetSize(t.sources.Keys, After(start, before).sources.Keys);
      var r := Allowed(RateOf(t.sources, e.ip, e.now), e.kind, e.now).0;
      assert t.sources[e.ip := r].Keys == t.sources.Keys + {e.ip};
    }
  }

  /** An event is refused for lack of room only when 65536 other sources came before it. */
  lemma RoomRunsOutLate(start: nat, run: seq<Event>, i: nat)
    requires i < |run| && RefusedForRoom(start, run, i)
    ensures |Sources(run[..i])| >= 65_536
  {
    var t := After(start, run[..i]);
    TableFromRun(start, run[..i]);
    SubsetSize(Pruned(t, run[i].now).sources.Keys, t.sources.Keys);
    SubsetSize(t.sources.Keys, Sources(run[..i]));
  }

  /** The second a source is in: it begins with the source's first event, and anew with the first event
      that comes a full second after it began. */
  function Window(run: seq<Event>, ip: Ip): Option<nat> {
    if run == [] then None
    else
      var e, a := run[|run| - 1], Window(run[..|run| - 1], ip);
      if e.ip != ip then a
      else if a.None? || e.now >= a.value + 1_000_000_000 then Some(e.now)
      else a
  }

  predicate EndedBy(run: seq<Event>, ip: Ip, time: nat) {
    forall j :: 0 <= j < |run| && run[j].ip == ip ==> run[j].now < time
  }

  lemma {:induction false} NoneAdmittedLater(start: nat, run: seq<Event>, ip: Ip, kind: Kind, a: nat)
    requires EndedBy(run, ip, a)
    ensures Admitted(start, run, ip, kind, a) == 0
  {
    hide Answer;
    if run != [] {
      NoneAdmittedLater(start, run[..|run| - 1], ip, kind, a);
    }
  }

  predicate RoomForAll(start: nat, run: seq<Event>) {
    forall j :: 0 <= j < |run| ==> !RefusedForRoom(start, run, j)
  }

  /** The reference counts exactly what was admitted in the source's current second. */
  ghost predicate Exact(start: nat, run: seq<Event>, ip: Ip, kind: Kind) {
    var reference, a := Reference(start, run), Window(run, ip);
    if a.None? then ip !in reference && forall j :: 0 <= j < |run| ==> run[j].ip != ip
    else
      && ip in reference && reference[ip].windowStart == a.value <= LastTime(run)
      && Used(reference[ip], kind) == Admitted(start, run, ip, kind, a.value)
      && EndedBy(run, ip, a.value + 1_000_000_000)
  }

  lemma AllowedExactly(r: Rate, kind: Kind, e: Event)
    requires r.windowStart <= e.now
    ensures var (r', ok) := Allowed(r, e.kind, e.now);
            && r'.windowStart == (if e.now >= r.windowStart + 1_000_000_000 then e.now else r.windowStart)
            && Used(r', kind) == (if r'.windowStart == r.windowStart then Used(r, kind) else 0)
                                 + (if ok && e.kind == kind then 1 else 0)
            && (ok <==> (if r'.windowStart == r.windowStart then Used(r, e.kind) else 0) < Limit(e.kind))
  {
  }

  lemma PrefixHasRoom(start: nat, run: seq<Event>, n: nat)
    requires RoomForAll(start, run) && n <= |run|
    ensures RoomForAll(start, run[..n])
  {
    hide NoRoom, After;
    forall j | 0 <= j < n
      ensures !RefusedForRoom(start, run[..n], j)
    {
      assert run[..n][..j] == run[..j] && !RefusedForRoom(start, run, j);
    }
  }

  lemma EndedStep(run: seq<Event>, ip: Ip, before: nat, time: nat)
    requires |run| > 0 && EndedBy(run[..|run| - 1], ip, before) && before <= time
    requires run[|run| - 1].ip == ip ==> run[|run| - 1].now < time
    ensures EndedBy(run, ip, time)
  {
    forall j | 0 <= j < |run| && run[j].ip == ip
      ensures run[j].now < time
    {
      assert j < |run| - 1 ==> run[..|run| - 1][j] == run[j];
    }
  }

  /** An event of the source. */
  lemma OwnEventExact(start: nat, run: seq<Event>, ip: Ip, kind: Kind)
    requires Ordered(run) && |run| > 0 && run[|run| - 1].ip == ip && !RefusedForRoom(start, run, |run| - 1)
    requires Exact(start, run[..|run| - 1], ip, kind)
    ensures Exact(start, run, ip, kind)
  {
    hide Allowed, RefusedForRoom, Used, Answer, EndedBy;
    var n := |run| - 1;
    var before, e := run[..n], run[n];
    assert n > 0 ==> LastTime(before) == run[n - 1].now <= e.now;
    PruningChangesNoAnswer(start, run, n);
    UnusedAtFirst(kind, e.now);
    AllowedExactly(RateOf(Reference(start, before), ip, e.now), kind, e);
    NoneSoFar(start, before, ip, kind, e.now);
    var a := Window(before, ip);
    if a.Some? {
      EndedStep(run, ip, a.value + 1_000_000_000, Window(run, ip).value + 1_000_000_000);
    } else {
      NoEvents(before, ip);
      EndedStep(run, ip, 0, e.now + 1_000_000_000);
    }
  }

  lemma NoEvents(run: seq<Event>, ip: Ip)
    requires forall j :: 0 <= j < |run| ==> run[j].ip != ip
    ensures EndedBy(run, ip, 0)
  {
  }

  lemma {:induction false} RunExact(start: nat, run: seq<Event>, ip: Ip, kind: Kind)
    requires Ordered(run) && RoomForAll(start, run)
    ensures Exact(start, run, ip, kind)
  {
    hide Allowed, RefusedForRoom, Used, Answer;
    if run != [] {
      var n := |run| - 1;
      var before, e := run[..n], run[n];
      PrefixHasRoom(start, run, n);
      RunExact(start, before, ip, kind);
      if e.ip == ip {
        OwnEventExact(start, run, ip, kind);
      } else {
        assert n > 0 ==> LastTime(before) == run[n - 1].now <= e.now;
        if Window(before, ip).Some? {
          var end := Window(before, ip).value + 1_000_000_000;
          EndedStep(run, ip, end, end);
        }
      }
    }
  }

  /** What an event that begins a new second finds admitted in it. */
  lemma NoneSoFar(start: nat, before: seq<Event>, ip: Ip, kind: Kind, now: nat)
    requires Exact(start, before, ip, kind)
    ensures Window(before, ip).None? || now >= Window(before, ip).value + 1_000_000_000 ==>
              Admitted(start, before, ip, kind, now) == 0
  {
    if Window(before, ip).None? || now >= Window(before, ip).value + 1_000_000_000 {
      NoneAdmittedLater(start, before, ip, kind, now);
    }
  }

  lemma {:induction false} FewSourcesHaveRoom(start: nat, run: seq<Event>, i: nat)
    requires i <= |run| && |Sources(run[..i])| < 65_536
    ensures RoomForAll(start, run[..i]) && (i < |run| ==> !RefusedForRoom(start, run, i))
  {
    hide NoRoom, After;
    forall j | 0 <= j < i
      ensures !RefusedForRoom(start, run[..i], j)
    {
      if RefusedForRoom(start, run[..i], j) {
        RoomRunsOutLate(start, run[..i], j);
        assert forall x :: x in run[..i][..j] ==> x in run[..i];
        SubsetSize(Sources(run[..i][..j]), Sources(run[..i]));
      }
    }
    if i < |run| && RefusedForRoom(start, run, i) {
      RoomRunsOutLate(start, run, i);
    }
  }

  /** With fewer than 65536 sources before it, an event is refused if and only if the source got the full
      limit of its kind admitted in the second it is in. */
  lemma RefusedExactlyWhenFull(start: nat, run: seq<Event>, i: nat)
    requires Ordered(run) && i < |run| && |Sources(run[..i])| < 65_536
    ensures var e, a := run[i], Window(run[..i + 1], run[i].ip);
            && a.Some? && a.value <= e.now < a.value + 1_000_000_000
            && var limit := match e.kind case Packet => 50_000 case NewSession => 256 case NewFlow => 4096;
            !Answer(start, run, i) <==> Admitted(start, run[..i], e.ip, e.kind, a.value) >= limit
  {
    hide Pruned, Taken, NoRoom, Allowed, Used;
    var e, before := run[i], run[..i];
    FewSourcesHaveRoom(start, run, i);
    assert Ordered(before);
    RunExact(start, before, e.ip, e.kind);
    PruningChangesNoAnswer(start, run, i);
    assert run[..i + 1][..i] == before;
    assert i > 0 ==> LastTime(before) == run[i - 1].now <= e.now;
    UnusedAtFirst(e.kind, e.now);
    AllowedExactly(RateOf(Reference(start, before), e.ip, e.now), e.kind, e);
    NoneSoFar(start, before, e.ip, e.kind, e.now);
  }

  // --- Room comes back ---

  /** The sources that sent something after this time. */
  ghost function SourcesAfter(run: seq<Event>, time: int): set<Ip> {
    set e | e in run && e.now > time :: e.ip
  }

  predicate Begins(run: seq<Event>, ip: Ip, time: nat) {
    exists j :: 0 <= j < |run| && run[j].ip == ip && run[j].now == time
  }

  /** When the table was last pruned, to the millisecond. */
  function LastPrune(t: Table): nat {
    t.createdAt + t.lastPruneMs * 1_000_000
  }

  /** Every source in the table began its window with one of its events, less than 120 seconds before the
      table was last pruned. */
  ghost predicate Fresh(run: seq<Event>, t: Table, time: nat) {
    && LastPrune(t) <= time
    && forall ip :: ip in t.sources ==>
                      Begins(run, ip, t.sources[ip].windowStart) && LastPrune(t) < t.sources[ip].windowStart + IDLE_TTL
  }

  lemma PrunedFresh(run: seq<Event>, t: Table, before: nat, now: nat)
    requires Fresh(run, t, before) && before <= now
    ensures Fresh(run, Pruned(t, now), now) && Pruned(t, now).createdAt == t.createdAt
    ensures now <= t.createdAt + U64_MAX * 1_000_000 ==>
              forall ip :: ip in Pruned(t, now).sources ==> now < t.sources[ip].windowStart + 150_000_000_000
  {
    hide Begins;
    MillisFacts(Since(now, t.createdAt));
  }

  lemma MillisFacts(d: nat)
    ensures Millis(d) * 1_000_000 <= d
    ensures d <= U64_MAX * 1_000_000 ==> d < (Millis(d) + 1) * 1_000_000
    ensures Millis(PRUNE_INTERVAL) == 30_000
  {
  }

  lemma TakenFresh(run: seq<Event>, p: Table, e: Event, t: Table)
    requires Fresh(run, p, e.now)
    requires t == p || t == p.(sources := p.sources[e.ip := Allowed(RateOf(p.sources, e.ip, e.now), e.kind, e.now).0])
    ensures Fresh(run + [e], t, e.now)
  {
    var all := run + [e];
    forall ip | ip in t.sources
      ensures Begins(all, ip, t.sources[ip].windowStart) && LastPrune(t) < t.sources[ip].windowStart + IDLE_TTL
    {
      assert all[|run|] == e;
      if ip in p.sources {
        var j :| 0 <= j < |run| && run[j].ip == ip && run[j].now == p.sources[ip].windowStart;
        assert all[j] == run[j];
      }
    }
  }

  lemma {:induction false} RunFresh(start: nat, run: seq<Event>)
    requires Ordered(run) && (run != [] ==> start <= run[0].now)
    ensures Fresh(run, After(start, run), if run == [] then start else LastTime(run))
    ensures After(start, run).createdAt == start
  {
    hide Allowed, Pruned, Begins;
    if run != [] {
      var n := |run| - 1;
      var before, e := run[..n], run[n];
      RunFresh(start, before);
      var t := After(start, before);
      PrunedFresh(before, t, if before == [] then start else LastTime(before), e.now);
      assert run == before + [e];
      TakenFresh(before, Pruned(t, e.now), e, After(start, run));
    }
  }

  /** An event is refused for lack of room only when 65536 sources sent something within the last 150
      seconds: idle sources make room. */
  lemma RoomRunsOutUnderLoad(start: nat, run: seq<Event>, i: nat)
    requires Ordered(run) && i < |run| && start <= run[0].now && run[i].now <= start + U64_MAX * 1_000_000
    requires RefusedForRoom(start, run, i)
    ensures |SourcesAfter(run[..i], run[i].now - 150_000_000_000)| >= 65_536
  {
    hide Pruned, Allowed, After, Begins, SourcesAfter;
    var before, e := run[..i], run[i];
    assert Ordered(before);
    RunFresh(start, before);
    var t := After(start, before);
    assert i > 0 ==> LastTime(before) == run[i - 1].now <= e.now;
    PrunedFresh(before, t, if before == [] then start else LastTime(before), e.now);
    var p, recent := Pruned(t, e.now), SourcesAfter(before, e.now - 150_000_000_000);
    forall ip | ip in p.sources
      ensures ip in recent
    {
      PrunedKeeps(t, e.now, ip);
      BegunIsSource(before, ip, p.sources[ip].windowStart, e.now - 150_000_000_000);
    }
    SubsetSize(p.sources.Keys, recent);
  }

  lemma BegunIsSource(run: seq<Event>, ip: Ip, w: nat, time: int)
    requires Begins(run, ip, w) && w > time
    ensures ip in SourcesAfter(run, time)
  {
    var j :| 0 <= j < |run| && run[j].ip == ip && run[j].now == w;
    assert run[j] in run;
  }

  lemma PrunedKeeps(t: Table, now: nat, ip: Ip)
    requires ip in Pruned(t, now).sources
    ensures ip in t.sources && Pruned(t, now).sources[ip] == t.sources[ip]
  {
  }
}
