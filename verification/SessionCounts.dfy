/** The per-source counters over whole runs.  A decrement reads a counter and, if it was at most one,
    removes it in a second operation; what was counted in between is lost. */
module SessionCounts {
  import opened Bytes
  import opened Sums
  import opened Tickets
  import opened Sessions
  import opened SessionRuns
  import opened SessionLeases

  function One(a: Ip, b: Ip): nat {
    if a == b then 1 else 0
  }

  /** Sessions of this source that the receiving thread has not counted yet, less those counted ahead. */
  function RxOwes(s: State, ip: Ip): int
    requires Held(s)
  {
    match s.rx
    case Counting(f, _) => One(f.addr.ip, ip)
    case Joining(f, _, _) => One(s.books.sessions[f.sid].addr.ip, ip)
    case Writing(f, to, _) => One(s.books.sessions[f.sid].addr.ip, ip) - One(to.addr.ip, ip)
    case _ => 0
  }

  /** A session no longer counted that cleanup has not removed yet. */
  function CleanerOwes(s: State, ip: Ip): nat
    requires Held(s)
  {
    if s.cleaner.Subtracting? || s.cleaner.Freeing? then One(s.books.sessions[s.cleaner.sid].addr.ip, ip) else 0
  }

  ghost predicate LedgerAt(s: State, ip: Ip)
    requires Held(s)
  {
    CountOf(s.books.counts, ip) + RxOwes(s, ip) + CleanerOwes(s, ip) == |From(s.books.sessions, ip)|
  }

  /** Every counter is the number of the source's sessions but for what is in hand. */
  ghost predicate Ledger(s: State)
    requires Held(s)
  {
    forall ip :: LedgerAt(s, ip)
  }

  /** A removal of a counter finds it at one. */
  predicate Exact(s: State, step: Step) {
    step.Wipe? && Enabled(s, step) ==> CountOf(s.books.counts, s.books.sessions[s.cleaner.sid].addr.ip) == 1
  }

  /** The counter the receiving thread is about to remove was read as at most one. */
  predicate ErasingOk(s: State) {
    s.rx.Erasing? && s.rx.f.sid in s.books.sessions ==>
      CountOf(s.books.counts, s.books.sessions[s.rx.f.sid].addr.ip) <= 1
  }

  lemma HasSession(sessions: map<u64, Session>, a: u64)
    requires a in sessions
    ensures |From(sessions, sessions[a].addr.ip)| >= 1
  {
    assert a in From(sessions, sessions[a].addr.ip);
  }

  lemma HasTwoSessions(sessions: map<u64, Session>, a: u64, b: u64)
    requires a in sessions && b in sessions && a != b && sessions[a].addr.ip == sessions[b].addr.ip
    ensures |From(sessions, sessions[a].addr.ip)| >= 2
  {
    var from := From(sessions, sessions[a].addr.ip);
    assert a in from && b in from - {a};
    assert |from - {a}| >= 1;
  }

  /** Under the ledger the receiving thread only removes a counter that stands at one. */
  lemma EraseFindsOne(s: State)
    requires Held(s) && Ledger(s) && ErasingOk(s) && s.rx.Erasing?
    ensures CountOf(s.books.counts, s.books.sessions[s.rx.f.sid].addr.ip) == 1
  {
    hide From;
    var sessions, a := s.books.sessions, s.rx.f.sid;
    assert LedgerAt(s, sessions[a].addr.ip);
    HasSession(sessions, a);
    if !s.cleaner.Resting? && sessions[s.cleaner.sid].addr.ip == sessions[a].addr.ip {
      HasTwoSessions(sessions, a, s.cleaner.sid);
    }
  }

  predicate ChangesSessions(step: Step) {
    step.Upsert? || step.Write? || step.Name? || step.Carry?
  }

  predicate ChangesCounts(step: Step) {
    step.Count? || step.Leave? || step.Erase? || step.Join?
  }

  lemma SessionLedgerAt(cfg: Config, s: State, step: Step, ip: Ip)
    requires Held(s) && LedgerAt(s, ip) && Enabled(s, step) && ChangesSessions(step) && Held(RxStep(cfg, s, step))
    ensures LedgerAt(RxStep(cfg, s, step), ip)
  {
    hide From, GoesOn, DeriveUser, Refreshes;
    var sessions := s.books.sessions;
    match step {
      case Upsert =>
        if s.rx.f.sid !in sessions {
          FromWith(sessions, s.rx.f.sid, NewSession(s.rx.f), ip);
        }
      case Write => FromReplaced(sessions, s.rx.f.sid, s.rx.to, ip);
      case _ => InPlaceLedgerAt(cfg, s, step, ip);
    }
  }

  lemma InPlaceLedgerAt(cfg: Config, s: State, step: Step, ip: Ip)
    requires Held(s) && LedgerAt(s, ip) && Enabled(s, step) && (step.Name? || step.Carry?) && Held(RxStep(cfg, s, step))
    ensures LedgerAt(RxStep(cfg, s, step), ip)
  {
    hide From, GoesOn, DeriveUser;
    var sessions, sid := s.books.sessions, if step.Carry? then step.sid else s.rx.f.sid;
    if sid in sessions && (step.Carry? || s.rx.f.inner.Some?) {
      var to := if step.Carry? then sessions[sid].(lastActivity := step.now)
                else sessions[sid].(user := s.rx.f.inner.value);
      FromReplaced(sessions, sid, to, ip);
    }
  }

  lemma CountLedgerAt(cfg: Config, s: State, step: Step, ip: Ip)
    requires Held(s) && LedgerAt(s, ip) && Enabled(s, step) && ChangesCounts(step) && Held(RxStep(cfg, s, step))
    requires step.Erase? ==> CountOf(s.books.counts, s.books.sessions[s.rx.f.sid].addr.ip) == 1
    ensures LedgerAt(RxStep(cfg, s, step), ip)
  {
    hide From;
  }

  lemma QuietLedgerAt(cfg: Config, s: State, step: Step, ip: Ip)
    requires !ByCleaner(step) && !ChangesSessions(step) && !ChangesCounts(step)
    requires Held(s) && LedgerAt(s, ip) && Enabled(s, step) && Held(RxStep(cfg, s, step))
    ensures LedgerAt(RxStep(cfg, s, step), ip)
  {
    hide From, Received, OwnerConflict, BoundSession;
    if step.Receive? {
      ReceivedBooks(cfg, s, step.f);
    }
  }

  lemma RxLedgerAt(cfg: Config, s: State, step: Step, ip: Ip)
    requires Held(s) && Ledger(s) && ErasingOk(s) && Enabled(s, step) && !ByCleaner(step) && Held(RxStep(cfg, s, step))
    ensures LedgerAt(RxStep(cfg, s, step), ip)
  {
    hide LedgerAt, RxStep, Held, ErasingOk;
    assert LedgerAt(s, ip);
    if ChangesSessions(step) {
      SessionLedgerAt(cfg, s, step, ip);
    } else if ChangesCounts(step) {
      if step.Erase? {
        EraseFindsOne(s);
      }
      CountLedgerAt(cfg, s, step, ip);
    } else {
      QuietLedgerAt(cfg, s, step, ip);
    }
  }

  lemma RxKeepsErasing(cfg: Config, s: State, step: Step)
    requires Held(s) && ErasingOk(s) && Enabled(s, step) && !ByCleaner(step)
    ensures ErasingOk(RxStep(cfg, s, step))
  {
    hide Received, Incremented, OwnerConflict, GoesOn, DeriveUser;
    if step.Receive? {
      ReceivedBooks(cfg, s, step.f);
    }
  }

  /** Removing a counter keeps the ledger of that source exactly when the counter stands at one. */
  lemma WipeLedgerAt(s: State, ip: Ip)
    requires Held(s) && LedgerAt(s, ip) && Enabled(s, Wipe) && Held(CleanerStep(s, Wipe))
    ensures LedgerAt(CleanerStep(s, Wipe), ip) <==> ip != s.books.sessions[s.cleaner.sid].addr.ip || Exact(s, Wipe)
  {
    hide From;
  }

  lemma CleanerLedgerAt(s: State, step: Step, ip: Ip)
    requires Held(s) && LedgerAt(s, ip) && Enabled(s, step)
    requires ByCleaner(step) && !step.Wipe? && Held(CleanerStep(s, step))
    ensures LedgerAt(CleanerStep(s, step), ip)
  {
    hide From, IsOver;
    if step.Free? {
      FromWithout(s.books.sessions, s.cleaner.sid, ip);
    }
  }

  lemma CleanerKeepsErasing(s: State, step: Step)
    requires Held(s) && ErasingOk(s) && Enabled(s, step) && ByCleaner(step)
    ensures ErasingOk(CleanerStep(s, step))
  {
    hide IsOver;
  }

  /** A step keeps the ledger exactly when it removes no counter above or below one. */
  lemma LedgerStep(cfg: Config, s: State, step: Step)
    requires Held(s) && Ledger(s) && ErasingOk(s)
    ensures Held(Next(cfg, s, step)) && ErasingOk(Next(cfg, s, step))
    ensures Ledger(Next(cfg, s, step)) <==> Exact(s, step)
  {
    hide RxStep, CleanerStep, LedgerAt, Held, ErasingOk;
    NextKeepsHeld(cfg, s, step);
    var s' := Next(cfg, s, step);
    if Enabled(s, step) {
      if step.Wipe? {
        CleanerKeepsErasing(s, step);
        assert s.cleaner.sid in s.books.sessions;
        forall ip
          ensures LedgerAt(s', ip) <==> ip != s.books.sessions[s.cleaner.sid].addr.ip || Exact(s, step)
        {
          assert LedgerAt(s, ip);
          WipeLedgerAt(s, ip);
        }
        assert LedgerAt(s', s.books.sessions[s.cleaner.sid].addr.ip) <==> Exact(s, step);
      } else if ByCleaner(step) {
        CleanerKeepsErasing(s, step);
        forall ip
          ensures LedgerAt(s', ip)
        {
          assert LedgerAt(s, ip);
          CleanerLedgerAt(s, step, ip);
        }
      } else {
        RxKeepsErasing(cfg, s, step);
        forall ip
          ensures LedgerAt(s', ip)
        {
          RxLedgerAt(cfg, s, step, ip);
        }
      }
    }
  }

  // --- Every run ---

  ghost predicate ExactUpTo(cfg: Config, steps: seq<Step>, n: nat)
    requires n <= |steps|
  {
    forall k :: 0 <= k < n ==> Exact(Exec(cfg, INIT, steps[..k]), steps[k])
  }

  ghost predicate LedgerAlong(cfg: Config, steps: seq<Step>) {
    forall n :: 0 <= n <= |steps| ==> Held(Exec(cfg, INIT, steps[..n])) && Ledger(Exec(cfg, INIT, steps[..n]))
  }

  lemma {:induction false} LedgerUpTo(cfg: Config, steps: seq<Step>, n: nat)
    requires n <= |steps| && ExactUpTo(cfg, steps, n)
    ensures var s := Exec(cfg, INIT, steps[..n]); Held(s) && Ledger(s) && ErasingOk(s)
  {
    if n == 0 {
      assert steps[..0] == [];
      forall ip
        ensures LedgerAt(INIT, ip)
      {
        assert From(INIT.books.sessions, ip) == {};
      }
    } else {
      hide Next, Held, Ledger, ErasingOk, Exact;
      LedgerUpTo(cfg, steps, n - 1);
      var before := Exec(cfg, INIT, steps[..n - 1]);
      LedgerStep(cfg, before, steps[n - 1]);
      var after := ExecNext(cfg, INIT, steps, n - 1, before);
    }
  }

  lemma {:induction false} FirstInexact(cfg: Config, steps: seq<Step>, m: nat) returns (n: nat)
    requires m <= |steps| && !ExactUpTo(cfg, steps, m)
    ensures n < m && !Exact(Exec(cfg, INIT, steps[..n]), steps[n]) && ExactUpTo(cfg, steps, n)
  {
    hide Exact, Exec;
    if ExactUpTo(cfg, steps, m - 1) {
      n := m - 1;
    } else {
      n := FirstInexact(cfg, steps, m - 1);
    }
  }

  /** In every run and every mode, each source's counter is the number of its sessions, but for those
      in hand, in every state, if and only if every counter cleanup removed stood at one. */
  lemma CountsExactlyWhenWipesAre(cfg: Config, steps: seq<Step>)
    ensures LedgerAlong(cfg, steps) <==> ExactUpTo(cfg, steps, |steps|)
  {
    hide Next, Exec, Ledger, ErasingOk, Exact, Held;
    if ExactUpTo(cfg, steps, |steps|) {
      forall n | 0 <= n <= |steps|
        ensures Held(Exec(cfg, INIT, steps[..n])) && Ledger(Exec(cfg, INIT, steps[..n]))
      {
        LedgerUpTo(cfg, steps, n);
      }
    } else {
      var n := FirstInexact(cfg, steps, |steps|);
      LedgerUpTo(cfg, steps, n);
      var before := Exec(cfg, INIT, steps[..n]);
      LedgerStep(cfg, before, steps[n]);
      var after := ExecNext(cfg, INIT, steps, n, before);
      assert !(Held(Exec(cfg, INIT, steps[..n + 1])) && Ledger(Exec(cfg, INIT, steps[..n + 1])));
    }
  }

  // --- The active count, and the counters at rest ---

  function ActiveOwed(s: State): int {
    (if s.rx.Counting? || s.rx.Adding? then 1 else 0) + if s.cleaner.Freeing? then 1 else 0
  }

  predicate ActiveOk(s: State) {
    s.books.active + ActiveOwed(s) == |s.books.sessions|
  }

  predicate Positive(counts: map<Ip, nat>) {
    forall ip :: ip in counts ==> counts[ip] > 0
  }

  lemma RxKeepsPositive(cfg: Config, s: State, step: Step)
    requires Positive(s.books.counts) && Enabled(s, step) && !ByCleaner(step)
    ensures Positive(RxStep(cfg, s, step).books.counts)
  {
    hide Received, AfterUpsert, OwnerConflict, GoesOn, NewSession, Refreshes;
    if step.Receive? {
      ReceivedBooks(cfg, s, step.f);
    }
  }

  lemma RxKeepsActive(cfg: Config, s: State, step: Step)
    requires Held(s) && ActiveOk(s) && Enabled(s, step) && !ByCleaner(step)
    ensures ActiveOk(RxStep(cfg, s, step))
  {
    hide Received, OwnerConflict, GoesOn, NewSession, Refreshes, LoweredBooks, Incremented, BoundSession;
    var s', sessions := RxStep(cfg, s, step), s.books.sessions;
    if step.Receive? {
      ReceivedBooks(cfg, s, step.f);
    } else if step.Leave? {
      assert LoweredBooks(s.books, sessions[s.rx.f.sid].addr.ip).active == s.books.active
             && LoweredBooks(s.books, sessions[s.rx.f.sid].addr.ip).sessions == sessions by {
        OnlyCounts(s.books, sessions[s.rx.f.sid].addr.ip);
      }
    } else if step.Upsert? && s.rx.f.sid !in sessions {
      assert sessions[s.rx.f.sid := NewSession(s.rx.f)].Keys == sessions.Keys + {s.rx.f.sid};
    } else {
      assert s'.books.sessions.Keys == sessions.Keys;
    }
  }

  lemma OnlyCounts(b: Books, ip: Ip)
    ensures LoweredBooks(b, ip).active == b.active && LoweredBooks(b, ip).sessions == b.sessions
  {
  }

  lemma CleanerKeepsActive(s: State, step: Step)
    requires Held(s) && ActiveOk(s) && Positive(s.books.counts) && Enabled(s, step) && ByCleaner(step)
    ensures ActiveOk(CleanerStep(s, step)) && Positive(CleanerStep(s, step).books.counts)
  {
    hide IsOver;
    if step.Free? {
      assert (s.books.sessions - {s.cleaner.sid}).Keys == s.books.sessions.Keys - {s.cleaner.sid};
    }
  }

  lemma ActiveStep(cfg: Config, s: State, step: Step)
    requires Held(s) && ActiveOk(s) && Positive(s.books.counts)
    ensures ActiveOk(Next(cfg, s, step)) && Positive(Next(cfg, s, step).books.counts)
  {
    hide Enabled, RxStep, CleanerStep, Held, ActiveOk, Positive;
    if Enabled(s, step) {
      if ByCleaner(step) {
        CleanerKeepsActive(s, step);
      } else {
        RxKeepsActive(cfg, s, step);
        RxKeepsPositive(cfg, s, step);
      }
    }
  }

  lemma {:induction false} EveryRunKeepsActive(cfg: Config, steps: seq<Step>)
    ensures var s := Exec(cfg, INIT, steps); ActiveOk(s) && Positive(s.books.counts)
  {
    if steps != [] {
      hide Next, Held, ActiveOk, Positive;
      EveryRunKeepsActive(cfg, steps[..|steps| - 1]);
      EveryRunHolds(cfg, steps[..|steps| - 1]);
      ActiveStep(cfg, Exec(cfg, INIT, steps[..|steps| - 1]), steps[|steps| - 1]);
    }
  }

  /** No session is being inserted, moved or removed. */
  predicate AtRest(s: State) {
    s.cleaner.Resting? && !s.rx.Counting? && !s.rx.Adding? && !Moving(s.rx)
  }

  /** At rest, the active count is the number of sessions in every run; and unless cleanup removed a
      counter that did not stand at one, each counter is the number of the source's sessions, absent
      when zero, and they add up to the number of sessions. */
  lemma EveryRunConservesCounts(cfg: Config, steps: seq<Step>)
    requires AtRest(Exec(cfg, INIT, steps))
    ensures var b := Exec(cfg, INIT, steps).books;
            && b.active == |b.sessions|
            && (ExactUpTo(cfg, steps, |steps|) ==>
                  && (forall ip ::
                        CountOf(b.counts, ip) == |From(b.sessions, ip)| && (ip in b.counts ==> b.counts[ip] > 0))
                  && Total(b.counts) == |b.sessions|)
  {
    hide Exec, From, ExactUpTo;
    var s := Exec(cfg, INIT, steps);
    EveryRunKeepsActive(cfg, steps);
    if ExactUpTo(cfg, steps, |steps|) {
      assert steps[..|steps|] == steps;
      LedgerUpTo(cfg, steps, |steps|);
      forall ip
        ensures CountOf(s.books.counts, ip) == |From(s.books.sessions, ip)|
      {
        assert LedgerAt(s, ip);
      }
      CountersAddUp(s.books.sessions, s.books.counts);
    }
  }

  // --- When every wipe is exact ---

  /** While cleanup works on a source's counter, from reading it to removing it, nothing is counted for
      that source: no increment is outstanding at the read, and none falls before the removal. */
  predicate Calm(s: State, step: Step) {
    !s.cleaner.Resting? && s.cleaner.sid in s.books.sessions ==>
      var ip := s.books.sessions[s.cleaner.sid].addr.ip;
      && (step.Lower? && s.rx.Counting? ==> s.rx.f.addr.ip != ip)
      && (step.Count? && s.rx.Counting? && s.cleaner.Wiping? ==> s.rx.f.addr.ip != ip)
      && (step.Join? && s.rx.Joining? && s.cleaner.Wiping? ==> s.rx.to.addr.ip != ip)
  }

  predicate WipingOk(s: State) {
    s.cleaner.Wiping? && s.cleaner.sid in s.books.sessions ==>
      CountOf(s.books.counts, s.books.sessions[s.cleaner.sid].addr.ip) == 1
  }

  /** Unless an increment is outstanding, the source of a session in the map has a counter. */
  lemma ReadFindsOne(s: State)
    requires Held(s) && Ledger(s) && s.cleaner.Lowering?
    requires s.rx.Counting? ==> s.rx.f.addr.ip != s.books.sessions[s.cleaner.sid].addr.ip
    ensures CountOf(s.books.counts, s.books.sessions[s.cleaner.sid].addr.ip) >= 1
  {
    hide From;
    var sessions, b := s.books.sessions, s.cleaner.sid;
    assert LedgerAt(s, sessions[b].addr.ip);
    HasSession(sessions, b);
    if Moving(s.rx) && sessions[s.rx.f.sid].addr.ip == sessions[b].addr.ip {
      HasTwoSessions(sessions, b, s.rx.f.sid);
    }
  }

  /** While a counter of one waits to be removed, no other session of that source is being moved away. */
  lemma NobodyLeaves(s: State)
    requires Held(s) && Ledger(s) && WipingOk(s) && s.cleaner.Wiping? && (s.rx.Leaving? || s.rx.Erasing?)
    ensures s.books.sessions[s.rx.f.sid].addr.ip != s.books.sessions[s.cleaner.sid].addr.ip
  {
    hide From;
    var sessions, b := s.books.sessions, s.cleaner.sid;
    assert LedgerAt(s, sessions[b].addr.ip);
    if sessions[s.rx.f.sid].addr.ip == sessions[b].addr.ip {
      HasTwoSessions(sessions, b, s.rx.f.sid);
    }
  }

  lemma RxCalm(cfg: Config, s: State, step: Step)
    requires Held(s) && Ledger(s) && WipingOk(s) && Calm(s, step) && Enabled(s, step) && !ByCleaner(step)
    ensures WipingOk(RxStep(cfg, s, step))
  {
    hide Received, OwnerConflict, GoesOn, DeriveUser, Refreshes, LedgerAt, From, AfterUpsert;
    if step.Receive? {
      ReceivedBooks(cfg, s, step.f);
    }
    if s.cleaner.Wiping? && (s.rx.Leaving? || s.rx.Erasing?) {
      NobodyLeaves(s);
    }
  }

  lemma CleanerCalm(s: State, step: Step)
    requires Held(s) && Ledger(s) && WipingOk(s) && Calm(s, step) && Enabled(s, step) && ByCleaner(step)
    ensures WipingOk(CleanerStep(s, step)) && Exact(s, step)
  {
    hide IsOver, LedgerAt, From;
    if step.Lower? {
      ReadFindsOne(s);
    }
  }

  lemma CalmStep(cfg: Config, s: State, step: Step)
    requires Held(s) && Ledger(s) && WipingOk(s) && Calm(s, step)
    ensures Exact(s, step) && WipingOk(Next(cfg, s, step))
  {
    hide RxStep, CleanerStep, Held, Ledger, WipingOk, Calm;
    if Enabled(s, step) {
      if ByCleaner(step) {
        CleanerCalm(s, step);
      } else {
        RxCalm(cfg, s, step);
      }
    }
  }

  ghost predicate CalmAlong(cfg: Config, steps: seq<Step>) {
    forall k :: 0 <= k < |steps| ==> Calm(Exec(cfg, INIT, steps[..k]), steps[k])
  }

  lemma CalmStart(cfg: Config, steps: seq<Step>)
    ensures ExactUpTo(cfg, steps, 0) && WipingOk(Exec(cfg, INIT, steps[..0]))
  {
    assert steps[..0] == [];
  }

  lemma ExactOneMore(cfg: Config, steps: seq<Step>, n: nat)
    requires n < |steps| && ExactUpTo(cfg, steps, n) && Exact(Exec(cfg, INIT, steps[..n]), steps[n])
    ensures ExactUpTo(cfg, steps, n + 1)
  {
    hide Exec, Exact;
  }

  lemma {:induction false} CalmUpTo(cfg: Config, steps: seq<Step>, n: nat)
    requires n <= |steps| && CalmAlong(cfg, steps)
    ensures ExactUpTo(cfg, steps, n) && WipingOk(Exec(cfg, INIT, steps[..n]))
  {
    hide Exec, Next, Held, Ledger, ErasingOk, Exact, Calm, WipingOk, ExactUpTo;
    if n == 0 {
      CalmStart(cfg, steps);
    } else {
      CalmUpTo(cfg, steps, n - 1);
      LedgerUpTo(cfg, steps, n - 1);
      var before := Exec(cfg, INIT, steps[..n - 1]);
      CalmStep(cfg, before, steps[n - 1]);
      ExactOneMore(cfg, steps, n - 1);
      var after := ExecNext(cfg, INIT, steps, n - 1, before);
    }
  }

  /** Where nothing is counted for a source while cleanup works on its counter, every removal is exact,
      and the counters are conserved. */
  lemma CalmRunConserves(cfg: Config, steps: seq<Step>)
    requires CalmAlong(cfg, steps)
    ensures ExactUpTo(cfg, steps, |steps|) && LedgerAlong(cfg, steps)
  {
    hide CalmAlong, LedgerAlong, ExactUpTo;
    CalmUpTo(cfg, steps, |steps|);
    CountsExactlyWhenWipesAre(cfg, steps);
  }

  // --- A lost count ---

  const OPEN := Config(Off, Auth(false, None))

  function DataFrame(sid: u64, now: nat): Frame {
    Frame(sid, CLIENT, false, Undecodable, None, now, 0, true, true, true)
  }

  lemma FirstFrameHandled()
    ensures Handled(OPEN, INIT.books, INIT.cache, DataFrame(1, 0)).books
            == Books(map[1 := NewSession(DataFrame(1, 0))], map[CLIENT.ip := 1], 1)
  {
    hide DeriveUser;
  }

  /** The second session of the source is inserted. */
  lemma SecondInserted(s: State, f: Frame)
    requires s.rx.Waiting? && s.cleaner.Resting? && f == DataFrame(2, SESSION_IDLE_LIMIT) && 2 !in s.books.sessions
    ensures Next(OPEN, Next(OPEN, Next(OPEN, s, Receive(f)), Admit), Upsert) ==
            s.(books := s.books.(sessions := s.books.sessions[2 := NewSession(f)]), rx := Counting(f, Waiting))
  {
    hide DeriveUser, OwnerConflict, Identified, Carried, IsOver, Incremented, CleanerStep, LoweredBooks;
    var s2 := Next(OPEN, Next(OPEN, s, Receive(f)), Admit);
    assert s2 == s.(rx := AtMap(f, None));
  }

  /** The first is found to be over, and its counter read. */
  lemma CounterRead(s: State)
    requires s.rx.Counting? && s.cleaner.Resting?
    requires 1 in s.books.sessions && CountOf(s.books.counts, s.books.sessions[1].addr.ip) == 1
    requires IsOver(s.books.sessions[1], SESSION_IDLE_LIMIT, 0)
    ensures Next(OPEN, Next(OPEN, s, Condemn(1, SESSION_IDLE_LIMIT, 0)), Lower) == s.(cleaner := Wiping(1))
  {
    hide RxStep, IsOver;
  }

  /** The second session is counted, and the counter then removed with the first. */
  lemma CountWiped(s: State, f: Frame)
    requires s.rx == Counting(f, Waiting) && s.cleaner == Wiping(1) && f.addr.ip == CLIENT.ip
    requires 1 in s.books.sessions && s.books.sessions[1].addr.ip == CLIENT.ip && s.books.counts == map[CLIENT.ip := 1]
    ensures Next(OPEN, Next(OPEN, Next(OPEN, s, Count), Wipe), Subtract)
            == s.(books := Books(s.books.sessions, map[], s.books.active - 1),
                  rx := Adding(f, Waiting), cleaner := Freeing(1))
  {
    hide Received, AfterUpsert, OwnerConflict, Identified, Carried, IsOver, NewSession, LoweredBooks, Refreshes;
    var s1 := Next(OPEN, s, Count);
    assert s1 == s.(books := s.books.(counts := map[CLIENT.ip := 2]), rx := Adding(f, Waiting));
    var s2 := Next(OPEN, s1, Wipe);
    assert s2.books.counts == map[];
  }

  lemma FirstFreed(s: State, f: Frame)
    requires s.rx == Adding(f, Waiting) && s.cleaner == Freeing(1)
    ensures Next(OPEN, Next(OPEN, s, Free), Add)
            == s.(books := Books(s.books.sessions - {1}, s.books.counts, s.books.active + 1),
                  rx := Waiting, cleaner := Resting)
  {
    hide Received, AfterUpsert, OwnerConflict, Identified, Carried, IsOver, NewSession;
    hide LoweredBooks, Refreshes, Incremented;
  }

  /** Two sessions of one source, the first removed while the second is counted. */
  lemma SecondIsLost(s: State, f: Frame)
    requires s.rx.Waiting? && s.cleaner.Resting? && f == DataFrame(2, SESSION_IDLE_LIMIT)
    requires s.books == Books(map[1 := NewSession(DataFrame(1, 0))], map[CLIENT.ip := 1], 1)
    ensures var s3 := Exec(OPEN, s, [Receive(f), Admit, Upsert]);
            var s5 := Exec(OPEN, s3, [Condemn(1, SESSION_IDLE_LIMIT, 0), Lower]);
            var s8 := Exec(OPEN, s5, [Count, Wipe, Subtract]);
            Exec(OPEN, s8, [Free, Add]) == s.(books := Books(map[2 := NewSession(f)], map[], 1))
  {
    hide Exec, Next, DeriveUser;
    ExecThree(OPEN, s, Receive(f), Admit, Upsert);
    SecondInserted(s, f);
    var s3 := Exec(OPEN, s, [Receive(f), Admit, Upsert]);
    ExecTwo(OPEN, s3, Condemn(1, SESSION_IDLE_LIMIT, 0), Lower);
    CounterRead(s3);
    var s5 := Exec(OPEN, s3, [Condemn(1, SESSION_IDLE_LIMIT, 0), Lower]);
    ExecThree(OPEN, s5, Count, Wipe, Subtract);
    CountWiped(s5, f);
    var s8 := Exec(OPEN, s5, [Count, Wipe, Subtract]);
    ExecTwo(OPEN, s8, Free, Add);
    FirstFreed(s8, f);
    assert s8.books.sessions - {1} == map[2 := NewSession(f)];
  }

  function LostCountSteps(): seq<Step> {
    FrameSteps(INIT.books, DataFrame(1, 0))
    + [Receive(DataFrame(2, SESSION_IDLE_LIMIT)), Admit, Upsert] + [Condemn(1, SESSION_IDLE_LIMIT, 0), Lower]
    + [Count, Wipe, Subtract] + [Free, Add] + []
  }

  lemma LostCountRun(first: seq<Step>, f: Frame)
    ensures Exec(OPEN, INIT, first + [Receive(f), Admit, Upsert] + [Condemn(1, SESSION_IDLE_LIMIT, 0), Lower]
                             + [Count, Wipe, Subtract] + [Free, Add] + [])
            == Exec(OPEN, Exec(OPEN, Exec(OPEN, Exec(OPEN, Exec(OPEN, INIT, first), [Receive(f), Admit, Upsert]),
                                          [Condemn(1, SESSION_IDLE_LIMIT, 0), Lower]),
                               [Count, Wipe, Subtract]), [Free, Add])
  {
    hide Exec;
    ExecPieces(OPEN, INIT, first, [Receive(f), Admit, Upsert], [Condemn(1, SESSION_IDLE_LIMIT, 0), Lower],
               [Count, Wipe, Subtract], [Free, Add], []);
    ExecNone(OPEN, Exec(OPEN, Exec(OPEN, Exec(OPEN, Exec(OPEN, Exec(OPEN, INIT, first), [Receive(f), Admit, Upsert]),
                                              [Condemn(1, SESSION_IDLE_LIMIT, 0), Lower]),
                                   [Count, Wipe, Subtract]), [Free, Add]));
  }

  lemma ExecNone(cfg: Config, s: State)
    ensures Exec(cfg, s, []) == s
  {
  }

  /** From the start: the second session of the source remains, with no counter. */
  lemma CountIsLost()
    ensures var s := Exec(OPEN, INIT, LostCountSteps());
            && AtRest(s) && |From(s.books.sessions, CLIENT.ip)| == 1 && CountOf(s.books.counts, CLIENT.ip) == 0
  {
    hide Exec, Handled, FrameSteps, DeriveUser;
    var f, first := DataFrame(2, SESSION_IDLE_LIMIT), FrameSteps(INIT.books, DataFrame(1, 0));
    UninterruptedFrame(OPEN, INIT, DataFrame(1, 0));
    FirstFrameHandled();
    LostCountRun(first, f);
    SecondIsLost(Exec(OPEN, INIT, first), f);
    assert From(map[2 := NewSession(f)], CLIENT.ip) == {2};
  }
}
