/** Sessions over whole runs.  The receiving thread, the cleanup task, the shards and the senders
    share the session map, the per-source counters and the count of active sessions.  A step is one
    operation on one of them; where the relay keeps a session's map entry across operations, the
    other threads' access to that session waits.  The reads behind the limits (`contains_key`, `len`
    and a counter) can only refuse a frame, so their outcome is left open. */
module SessionRuns {
  import opened Bytes
  import opened Tickets
  import opened ReplayCache
  import opened Sessions

  /** Where the receiving thread is with its frame. */
  datatype Pc =
    | Waiting
    | AtLimits(f: Frame, ticket: Option<Ticket>)        // the ticket, or the lease, was checked
    | AtMap(f: Frame, ticket: Option<Ticket>)           // within the limits
    | Counting(f: Frame, next: Pc)                      // session inserted, its source not yet counted
    | Adding(f: Frame, next: Pc)                        // counted, the active count not yet raised
    | Leaving(f: Frame, to: Session, next: Pc)          // holds the session; its old source to be lowered
    | Erasing(f: Frame, to: Session, next: Pc)          // holds it; the old counter was read as at most one
    | Joining(f: Frame, to: Session, next: Pc)          // holds it; its new source to be raised
    | Writing(f: Frame, to: Session, next: Pc)          // holds it; its new value to be written
    | AtOwner(f: Frame, t: Ticket)                      // session created or found
    | AtBind(f: Frame, t: Ticket)                       // no other owner
    | AtName(f: Frame)                                  // a data frame that goes on

  /** Where cleanup is with the session it removes; it holds the session throughout. */
  datatype Cleaner =
    | Resting
    | Lowering(sid: u64)      // found to be over
    | Wiping(sid: u64)        // its source's counter was read as at most one
    | Subtracting(sid: u64)   // its source is lowered
    | Freeing(sid: u64)       // the active count is lowered

  /** A frame whose ticket was accepted: its `nth` use of the replay cache. */
  datatype Presented = Presented(f: Frame, ticket: Ticket, nth: nat)

  datatype State = State(
    books: Books, cache: Contents, rx: Pc, cleaner: Cleaner,
    attempts: seq<Attempt>,     // history: tickets offered to the replay cache
    log: seq<Presented>)        // history: tickets accepted

  datatype Step =
    | Receive(f: Frame)
    | Admit
    | Refuse
    | Upsert
    | Count
    | Add
    | Leave
    | Erase
    | Join
    | Write
    | CheckOwner
    | Bind
    | Name
    | Carry(sid: u64, now: nat)   // a shard carries a response
    | Condemn(sid: u64, now: nat, nowUnix: u64)
    | Lower
    | Wipe
    | Subtract
    | Free

  const INIT := State(Books(map[], map[], 0), Contents(map[], 0), Waiting, Resting, [], [])

  predicate Moving(pc: Pc) {
    pc.Leaving? || pc.Erasing? || pc.Joining? || pc.Writing?
  }

  predicate HeldByRx(s: State, sid: u64) {
    Moving(s.rx) && s.rx.f.sid == sid
  }

  predicate HeldByCleaner(s: State, sid: u64) {
    !s.cleaner.Resting? && s.cleaner.sid == sid
  }

  predicate ByCleaner(step: Step) {
    step.Condemn? || step.Lower? || step.Wipe? || step.Subtract? || step.Free?
  }

  predicate Enabled(s: State, step: Step) {
    match step
    case Receive(f) => s.rx.Waiting? && !HeldByCleaner(s, f.sid)
    case Admit => s.rx.AtLimits?
    case Refuse => s.rx.AtLimits?
    case Upsert => s.rx.AtMap? && !HeldByCleaner(s, s.rx.f.sid)
    case Count => s.rx.Counting?
    case Add => s.rx.Adding?
    case Leave => s.rx.Leaving? && s.rx.f.sid in s.books.sessions
    case Erase => s.rx.Erasing? && s.rx.f.sid in s.books.sessions
    case Join => s.rx.Joining?
    case Write => s.rx.Writing?
    case CheckOwner => s.rx.AtOwner? && !HeldByCleaner(s, s.rx.f.sid)
    case Bind => s.rx.AtBind? && !HeldByCleaner(s, s.rx.f.sid)
    case Name => s.rx.AtName? && !HeldByCleaner(s, s.rx.f.sid)
    case Carry(sid, _) => !HeldByRx(s, sid) && !HeldByCleaner(s, sid)
    case Condemn(sid, now, nowUnix) =>
      && s.cleaner.Resting? && sid in s.books.sessions && IsOver(s.books.sessions[sid], now, nowUnix)
      && !HeldByRx(s, sid)
    case Lower => s.cleaner.Lowering? && s.cleaner.sid in s.books.sessions
    case Wipe => s.cleaner.Wiping? && s.cleaner.sid in s.books.sessions
    case Subtract => s.cleaner.Subtracting?
    case Free => s.cleaner.Freeing?
  }

  function AfterUpsert(cfg: Config, b: Books, f: Frame, ticket: Option<Ticket>): Pc {
    if f.isHello then
      if cfg.mode == Off || ticket.None? then Waiting else AtOwner(f, ticket.value)
    else if GoesOn(cfg, b, f) && f.inner.Some? then AtName(f)
    else Waiting
  }

  /** Changing a held session: the counters are touched only if its source changes. */
  function Move(f: Frame, from: Session, to: Session, next: Pc): Pc {
    if from.addr.ip == to.addr.ip then Writing(f, to, next) else Leaving(f, to, next)
  }

  /** What a frame offers to the replay cache. */
  function Attempts(cfg: Config, f: Frame): seq<Attempt> {
    if RequiresAuth(cfg.mode) && f.isHello && f.pendingOk then
      match Verify(f.token, f.sid, cfg.auth, f.nowUnix)
      case Err(_) => []
      case Ok(t) => [Attempt(t.jti, t.exp, f.nowUnix)]
    else []
  }

  function Received(cfg: Config, s: State, f: Frame): State {
    var (k, gate) := Checked(cfg, s.books, s.cache, f);
    var offered := s.(cache := k, attempts := s.attempts + Attempts(cfg, f));
    match gate
    case Rejected(_) => offered
    case Passed(ticket) =>
      offered.(rx := AtLimits(f, ticket),
               log := if ticket.Some? then s.log + [Presented(f, ticket.value, |s.attempts|)] else s.log)
  }

  /** The first operation of a decrement: a counter above one is lowered under its guard. */
  function LoweredBooks(b: Books, ip: Ip): Books {
    if CountOf(b.counts, ip) > 1 then b.(counts := b.counts[ip := CountOf(b.counts, ip) - 1]) else b
  }

  function RxStep(cfg: Config, s: State, step: Step): State
    requires Enabled(s, step) && !ByCleaner(step)
  {
    var b := s.books;
    match step
    case Receive(f) => Received(cfg, s, f)
    case Admit => s.(rx := AtMap(s.rx.f, s.rx.ticket))
    case Refuse => s.(rx := Waiting)
    case Upsert =>
      var f := s.rx.f;
      var next := AfterUpsert(cfg, b, f, s.rx.ticket);
      if f.sid !in b.sessions then
        s.(books := b.(sessions := b.sessions[f.sid := NewSession(f)]), rx := Counting(f, next))
      else
        var found := b.sessions[f.sid];
        s.(rx := if Refreshes(cfg, found, f) then Move(f, found, found.(addr := f.addr, lastActivity := f.now), next)
                 else next)
    case Count => s.(books := b.(counts := Incremented(b.counts, s.rx.f.addr.ip)), rx := Adding(s.rx.f, s.rx.next))
    case Add => s.(books := b.(active := b.active + 1), rx := s.rx.next)
    case Leave =>
      var ip := b.sessions[s.rx.f.sid].addr.ip;
      s.(books := LoweredBooks(b, ip),
         rx := if CountOf(b.counts, ip) > 1 then Joining(s.rx.f, s.rx.to, s.rx.next)
               else Erasing(s.rx.f, s.rx.to, s.rx.next))
    case Erase =>
      s.(books := b.(counts := b.counts - {b.sessions[s.rx.f.sid].addr.ip}), rx := Joining(s.rx.f, s.rx.to, s.rx.next))
    case Join =>
      s.(books := b.(counts := Incremented(b.counts, s.rx.to.addr.ip)), rx := Writing(s.rx.f, s.rx.to, s.rx.next))
    case Write => s.(books := b.(sessions := b.sessions[s.rx.f.sid := s.rx.to]), rx := s.rx.next)
    case CheckOwner =>
      s.(rx := if OwnerConflict(b, s.rx.f.sid, s.rx.t) then Waiting else AtBind(s.rx.f, s.rx.t))
    case Bind =>
      var f := s.rx.f;
      s.(rx := if f.sid in b.sessions then Move(f, b.sessions[f.sid], BoundSession(f, s.rx.t), Waiting) else Waiting)
    case Name =>
      s.(books := if s.rx.f.inner.Some? then Identified(b, s.rx.f.sid, s.rx.f.inner.value) else b, rx := Waiting)
    case Carry(sid, now) => s.(books := Carried(b, sid, now))
  }

  function CleanerStep(s: State, step: Step): State
    requires Enabled(s, step) && ByCleaner(step)
  {
    var b := s.books;
    match step
    case Condemn(sid, _, _) => s.(cleaner := Lowering(sid))
    case Lower =>
      var sid := s.cleaner.sid;
      var ip := b.sessions[sid].addr.ip;
      s.(books := LoweredBooks(b, ip), cleaner := if CountOf(b.counts, ip) > 1 then Subtracting(sid) else Wiping(sid))
    case Wipe =>
      s.(books := b.(counts := b.counts - {b.sessions[s.cleaner.sid].addr.ip}), cleaner := Subtracting(s.cleaner.sid))
    case Subtract => s.(books := b.(active := b.active - 1), cleaner := Freeing(s.cleaner.sid))
    case Free => s.(books := b.(sessions := b.sessions - {s.cleaner.sid}), cleaner := Resting)
  }

  /** Take the step if it is enabled. */
  function Next(cfg: Config, s: State, step: Step): State {
    if !Enabled(s, step) then s else if ByCleaner(step) then CleanerStep(s, step) else RxStep(cfg, s, step)
  }

  /** Run the steps in turn; a step that is not enabled is not taken. */
  function Exec(cfg: Config, s: State, steps: seq<Step>): State {
    if steps == [] then s else Next(cfg, Exec(cfg, s, steps[..|steps| - 1]), steps[|steps| - 1])
  }

  lemma {:induction false} ExecConcat(cfg: Config, s: State, a: seq<Step>, b: seq<Step>)
    ensures Exec(cfg, s, a + b) == Exec(cfg, Exec(cfg, s, a), b)
  {
    hide Next;
    if b == [] {
      assert a + b == a;
    } else {
      assert (a + b)[..|a + b| - 1] == a + b[..|b| - 1];
      ExecConcat(cfg, s, a, b[..|b| - 1]);
    }
  }

  /** One more step of a run. */
  lemma ExecNext(cfg: Config, s: State, steps: seq<Step>, n: nat, before: State) returns (after: State)
    requires n < |steps| && before == Exec(cfg, s, steps[..n])
    ensures after == Exec(cfg, s, steps[..n + 1]) == Next(cfg, before, steps[n])
  {
    hide Next;
    assert steps[..n + 1][..n] == steps[..n];
    after := Exec(cfg, s, steps[..n + 1]);
  }

  /** A session is held by one thread at a time, and a held session is in the map. */
  predicate Held(s: State) {
    && (Moving(s.rx) ==> s.rx.f.sid in s.books.sessions && !HeldByCleaner(s, s.rx.f.sid))
    && (!s.cleaner.Resting? ==> s.cleaner.sid in s.books.sessions)
    && ((s.rx.Counting? || s.rx.Adding? || Moving(s.rx)) ==>
          s.rx.next.Waiting? || s.rx.next.AtOwner? || s.rx.next.AtName?)
  }

  lemma RxKeepsHeld(cfg: Config, s: State, step: Step)
    requires Held(s) && Enabled(s, step) && !ByCleaner(step)
    ensures Held(RxStep(cfg, s, step))
  {
    hide Received, IsOver, GoesOn, Refreshes, OwnerConflict, Incremented, NewSession, BoundSession;
    if step.Receive? {
      ReceivedBooks(cfg, s, step.f);
    }
  }

  lemma ReceivedBooks(cfg: Config, s: State, f: Frame)
    ensures Received(cfg, s, f).books == s.books && Received(cfg, s, f).cleaner == s.cleaner
    ensures Received(cfg, s, f).rx == s.rx || Received(cfg, s, f).rx.AtLimits?
  {
    hide Checked, Attempts;
  }

  lemma NextKeepsHeld(cfg: Config, s: State, step: Step)
    requires Held(s)
    ensures Held(Next(cfg, s, step))
  {
    hide RxStep, IsOver;
    if Enabled(s, step) && !ByCleaner(step) {
      RxKeepsHeld(cfg, s, step);
    }
  }

  lemma {:induction false} EveryRunHolds(cfg: Config, steps: seq<Step>)
    ensures Held(Exec(cfg, INIT, steps))
  {
    hide Next;
    if steps != [] {
      EveryRunHolds(cfg, steps[..|steps| - 1]);
      NextKeepsHeld(cfg, Exec(cfg, INIT, steps[..|steps| - 1]), steps[|steps| - 1]);
    }
  }

  // --- Owner and endpoint ---

  /** This presented ticket is the session's right to its endpoint. */
  predicate Backs(p: Presented, sid: u64, s: Session) {
    p.f.sid == sid && p.f.addr == s.addr && p.ticket.user == s.user && s.lease == Some(p.ticket.exp)
  }

  predicate Backed(log: seq<Presented>, sid: u64, s: Session) {
    s.auth == Authenticated ==> exists i :: 0 <= i < |log| && Backs(log[i], sid, s)
  }

  /** The frame's ticket is the one last presented. */
  predicate Vouched(log: seq<Presented>, f: Frame, t: Ticket) {
    |log| > 0 && log[|log| - 1].f == f && log[|log| - 1].ticket == t && t.lease && f.isHello
  }

  /** A held session's new value has its right to the endpoint and keeps an authenticated owner. */
  predicate MoveOk(s: State) {
    Moving(s.rx) && s.rx.f.sid in s.books.sessions ==>
      && Backed(s.log, s.rx.f.sid, s.rx.to)
      && KeepsOwner(s.books.sessions[s.rx.f.sid], s.rx.to)
  }

  predicate KeepsOwner(s: Session, s': Session) {
    s.auth == Authenticated ==> s'.auth == Authenticated && s'.user == s.user
  }

  predicate RxOk(s: State) {
    match s.rx
    case AtLimits(f, ticket) => ticket.Some? ==> Vouched(s.log, f, ticket.value)
    case AtMap(f, ticket) => ticket.Some? ==> Vouched(s.log, f, ticket.value)
    case Counting(f, next) => next.AtOwner? ==> next.f == f && Vouched(s.log, f, next.t)
    case Adding(f, next) => next.AtOwner? ==> next.f == f && Vouched(s.log, f, next.t)
    case AtOwner(f, t) => Vouched(s.log, f, t)
    case AtBind(f, t) => Vouched(s.log, f, t) && !OwnerConflict(s.books, f.sid, t)
    case Waiting => true
    case AtName(_) => true
    case _ => s.rx.next.AtOwner? ==> s.rx.next.f == s.rx.f && Vouched(s.log, s.rx.f, s.rx.next.t)
  }

  /** The ticket is what the frame's token verifies to. */
  predicate Genuine(cfg: Config, p: Presented) {
    Verify(p.f.token, p.f.sid, cfg.auth, p.f.nowUnix) == Ok(p.ticket)
  }

  ghost predicate Inv(cfg: Config, s: State) {
    && Held(s) && RxOk(s) && MoveOk(s)
    && (forall sid :: sid in s.books.sessions ==> Backed(s.log, sid, s.books.sessions[sid]))
    && (forall i :: 0 <= i < |s.log| ==> Genuine(cfg, s.log[i]))
  }

  lemma BackedAppend(log: seq<Presented>, p: Presented, sid: u64, s: Session)
    requires Backed(log, sid, s)
    ensures Backed(log + [p], sid, s)
  {
    if s.auth == Authenticated {
      var i :| 0 <= i < |log| && Backs(log[i], sid, s);
      assert Backs((log + [p])[i], sid, s);
    }
  }

  lemma ReceiveKeepsInv(cfg: Config, s: State, f: Frame)
    requires RequiresAuth(cfg.mode) && Inv(cfg, s) && Enabled(s, Receive(f))
    ensures Inv(cfg, Received(cfg, s, f))
  {
    hide Verify, Offered, Welcome;
    if Verify(f.token, f.sid, cfg.auth, f.nowUnix).Ok? {
      VerifiedTicket(f.token, f.sid, cfg.auth, f.nowUnix, f.sid);
    }
    var s' := Received(cfg, s, f);
    forall sid | sid in s'.books.sessions
      ensures Backed(s'.log, sid, s'.books.sessions[sid])
    {
      if s'.log != s.log {
        BackedAppend(s.log, s'.log[|s.log|], sid, s.books.sessions[sid]);
      }
    }
  }

  /** A refreshed session keeps its right to the endpoint. */
  lemma RefreshedBacked(log: seq<Presented>, sid: u64, s: Session, now: nat)
    requires Backed(log, sid, s)
    ensures Backed(log, sid, s.(lastActivity := now))
  {
    if s.auth == Authenticated {
      var i :| 0 <= i < |log| && Backs(log[i], sid, s);
      assert Backs(log[i], sid, s.(lastActivity := now));
    }
  }

  lemma RxKeepsInv(cfg: Config, s: State, step: Step)
    requires RequiresAuth(cfg.mode) && Inv(cfg, s) && Enabled(s, step) && !ByCleaner(step) && !step.Receive?
    ensures Inv(cfg, RxStep(cfg, s, step))
  {
    hide Checked, Incremented, IsOver, GoesOn, Genuine, Backed, DeriveUser;
    var s' := RxStep(cfg, s, step);
    assert Held(s') by { NextKeepsHeld(cfg, s, step); }
    if (step.Upsert? || step.Carry?) && (if step.Carry? then step.sid else s.rx.f.sid) in s.books.sessions {
      var sid := if step.Carry? then step.sid else s.rx.f.sid;
      RefreshedBacked(s.log, sid, s.books.sessions[sid], if step.Carry? then step.now else s.rx.f.now);
    }
    if step.Upsert? {
      LegacyBacked(s.log, s.rx.f);
    }
    if step.Bind? {
      BoundBacked(s.log, s.rx.f, s.rx.t);
    }
    if step.Name? && s.rx.f.inner.Some? && s.rx.f.sid in s.books.sessions {
      NamedBacked(s.log, s.rx.f.sid, s.books.sessions[s.rx.f.sid], s.rx.f.inner.value);
    }
  }

  lemma LegacyBacked(log: seq<Presented>, f: Frame)
    ensures Backed(log, f.sid, NewSession(f))
  {
  }

  lemma NamedBacked(log: seq<Presented>, sid: u64, s: Session, name: string)
    ensures s.auth != Authenticated ==> Backed(log, sid, s.(user := name))
  {
  }

  lemma BoundBacked(log: seq<Presented>, f: Frame, t: Ticket)
    requires Vouched(log, f, t)
    ensures Backed(log, f.sid, BoundSession(f, t))
  {
    assert Backs(log[|log| - 1], f.sid, BoundSession(f, t));
  }

  lemma CleanerKeepsInv(cfg: Config, s: State, step: Step)
    requires Inv(cfg, s) && Enabled(s, step) && ByCleaner(step)
    ensures Inv(cfg, CleanerStep(s, step))
  {
    hide IsOver, Genuine, Backed, KeepsOwner;
  }

  lemma NextKeepsInv(cfg: Config, s: State, step: Step)
    requires RequiresAuth(cfg.mode) && Inv(cfg, s)
    ensures Inv(cfg, Next(cfg, s, step))
  {
    hide Inv, Enabled, CleanerStep;
    if Enabled(s, step) {
      if ByCleaner(step) {
        CleanerKeepsInv(cfg, s, step);
      } else if step.Receive? {
        ReceiveKeepsInv(cfg, s, step.f);
      } else {
        RxKeepsInv(cfg, s, step);
      }
    }
  }

  lemma {:induction false} EveryRunKeepsInv(cfg: Config, steps: seq<Step>)
    requires RequiresAuth(cfg.mode)
    ensures Inv(cfg, Exec(cfg, INIT, steps))
  {
    if steps != [] {
      hide Next, Inv;
      EveryRunKeepsInv(cfg, steps[..|steps| - 1]);
      NextKeepsInv(cfg, Exec(cfg, INIT, steps[..|steps| - 1]), steps[|steps| - 1]);
    }
  }

  /** Whenever a data packet for a session is sent at time `t`, it goes to an endpoint that presented
      a ticket for this session and its owner that was accepted and expires after `t`. */
  lemma EveryRunSendsToPresenter(cfg: Config, steps: seq<Step>, sid: u64, t: u64)
    requires RequiresAuth(cfg.mode)
    ensures var s := Exec(cfg, INIT, steps);
            ForwardingAddr(cfg, s.books, sid, t).Some? ==>
              exists i :: 0 <= i < |s.log| &&
                var p := s.log[i];
                && Verify(p.f.token, sid, cfg.auth, p.f.nowUnix) == Ok(p.ticket) && t < p.ticket.exp
                && p.ticket.user == s.books.sessions[sid].user
                && ForwardingAddr(cfg, s.books, sid, t) == Some(p.f.addr)
  {
    hide Exec;
    EveryRunKeepsInv(cfg, steps);
    var s := Exec(cfg, INIT, steps);
    if ForwardingAddr(cfg, s.books, sid, t).Some? {
      assert Backed(s.log, sid, s.books.sessions[sid]);
      var i :| 0 <= i < |s.log| && Backs(s.log[i], sid, s.books.sessions[sid]);
      assert t < s.log[i].ticket.exp;
    }
  }

  // --- Single use ---

  ghost predicate UseInv(s: State) {
    && s.cache == After(s.attempts)
    && (forall i :: 0 <= i < |s.log| ==> Spent(s, i))
    && (forall i, k :: 0 <= i < k < |s.log| ==> s.log[i].nth < s.log[k].nth)
  }

  /** The i-th logged ticket is the accepted attempt it points to. */
  ghost predicate Spent(s: State, i: nat)
    requires i < |s.log|
  {
    var p := s.log[i];
    && p.nth < |s.attempts| && Accepted(s.attempts, p.nth)
    && s.attempts[p.nth] == Attempt(p.ticket.jti, p.ticket.exp, p.f.nowUnix)
  }

  /** What a frame adds to the histories. */
  lemma ReceiveOffers(cfg: Config, s: State, f: Frame)
    requires s.cache == After(s.attempts)
    ensures var s' := Received(cfg, s, f);
            && s'.cache == After(s'.attempts) && s.attempts <= s'.attempts && s.log <= s'.log
            && |s'.log| <= |s.log| + 1
            && (|s'.log| > |s.log| ==> s'.log[|s.log|].nth == |s.attempts| && Spent(s', |s.log|))
  {
    hide Verify, Offered, Welcome;
    var s', n := Received(cfg, s, f), |s.attempts|;
    if |s'.attempts| > n {
      VerifiedTicket(f.token, f.sid, cfg.auth, f.nowUnix, f.sid);
      assert s'.attempts[..n] == s.attempts;
    } else {
      assert s'.attempts == s.attempts;
    }
  }

  lemma ReceiveKeepsUse(cfg: Config, s: State, f: Frame)
    requires UseInv(s)
    ensures UseInv(Received(cfg, s, f))
  {
    hide Received, After, Taken;
    ReceiveOffers(cfg, s, f);
    var s' := Received(cfg, s, f);
    forall i | 0 <= i < |s.log|
      ensures Spent(s', i) && s.log[i].nth < |s.attempts|
    {
      assert Spent(s, i);
      assert s'.attempts[..s.log[i].nth] == s.attempts[..s.log[i].nth];
    }
  }

  /** Only receiving a frame touches the cache and the histories. */
  lemma OtherStepsOffer(cfg: Config, s: State, step: Step)
    ensures var s' := Next(cfg, s, step);
            !step.Receive? ==> s'.cache == s.cache && s'.attempts == s.attempts && s'.log == s.log
  {
    hide Received, Incremented, LoweredBooks, IsOver, AfterUpsert, Refreshes, OwnerConflict, Identified, Carried;
  }

  lemma {:induction false} EveryRunKeepsUse(cfg: Config, steps: seq<Step>)
    ensures UseInv(Exec(cfg, INIT, steps))
  {
    if steps != [] {
      hide RxStep, CleanerStep, After, Accepted;
      EveryRunKeepsUse(cfg, steps[..|steps| - 1]);
      var s, step := Exec(cfg, INIT, steps[..|steps| - 1]), steps[|steps| - 1];
      OtherStepsOffer(cfg, s, step);
      if step.Receive? && Enabled(s, step) {
        ReceiveKeepsUse(cfg, s, step.f);
        assert Next(cfg, s, step) == Received(cfg, s, step.f) by { ReceiveIsReceived(cfg, s, step.f); }
      } else {
        var s' := Next(cfg, s, step);
        forall i | 0 <= i < |s'.log|
          ensures Spent(s', i)
        {
          assert Spent(s, i);
        }
      }
    }
  }

  lemma ReceiveIsReceived(cfg: Config, s: State, f: Frame)
    requires Enabled(s, Receive(f))
    ensures Next(cfg, s, Receive(f)) == Received(cfg, s, f)
  {
  }

  /** No ticket is accepted twice, for any session or endpoint, as long as the clock never falls more
      than 31 seconds behind the latest time a ticket was offered at. */
  lemma EveryRunUsesTicketsOnce(cfg: Config, steps: seq<Step>)
    ensures var s := Exec(cfg, INIT, steps);
            KeepsUp(s.attempts, AUTH_CLOCK_SKEW_SECS + 1) ==>
              forall i, k :: 0 <= i < k < |s.log| ==> s.log[i].ticket != s.log[k].ticket
  {
    hide Exec, Accepted;
    EveryRunKeepsUse(cfg, steps);
    var s := Exec(cfg, INIT, steps);
    if KeepsUp(s.attempts, AUTH_CLOCK_SKEW_SECS + 1) {
      TicketUsedOnce(s.attempts);
      forall i, k | 0 <= i < k < |s.log|
        ensures s.log[i].ticket != s.log[k].ticket
      {
        assert Spent(s, i) && Spent(s, k) && s.log[i].nth < s.log[k].nth;
        assert !SameTicket(s.attempts[s.log[i].nth], s.attempts[s.log[k].nth]);
      }
    }
  }

  // --- Ownership does not transfer ---

  predicate OwnedBy(s: State, sid: u64, user: string) {
    sid in s.books.sessions && s.books.sessions[sid].auth == Authenticated && s.books.sessions[sid].user == user
  }

  /** An authenticated session keeps its owner through every step, or is removed. */
  lemma OwnerKept(cfg: Config, s: State, step: Step, sid: u64, user: string)
    requires RequiresAuth(cfg.mode) && Inv(cfg, s) && OwnedBy(s, sid, user)
    ensures var s' := Next(cfg, s, step);
            OwnedBy(s', sid, user) || (step.Free? && HeldByCleaner(s, sid) && sid !in s'.books.sessions)
  {
    hide RxStep, IsOver, Backed, Genuine;
    if Enabled(s, step) && !ByCleaner(step) {
      RxKeepsOwner(cfg, s, step, sid, user);
    }
  }

  lemma RxKeepsOwner(cfg: Config, s: State, step: Step, sid: u64, user: string)
    requires RequiresAuth(cfg.mode) && Inv(cfg, s) && OwnedBy(s, sid, user) && Enabled(s, step) && !ByCleaner(step)
    ensures OwnedBy(RxStep(cfg, s, step), sid, user)
  {
    hide Received, Incremented, IsOver, AfterUpsert, Backed, Genuine;
    if step.Receive? {
      ReceivedBooks(cfg, s, step.f);
    }
  }

  predicate PresentAlong(cfg: Config, s: State, steps: seq<Step>, sid: u64) {
    sid in Exec(cfg, s, steps).books.sessions && (steps == [] || PresentAlong(cfg, s, steps[..|steps| - 1], sid))
  }

  /** From any reachable state on, a session that is not removed keeps its authenticated owner. */
  lemma {:induction false} EveryRunKeepsOwner(cfg: Config, before: seq<Step>, steps: seq<Step>, sid: u64, user: string)
    requires RequiresAuth(cfg.mode) && OwnedBy(Exec(cfg, INIT, before), sid, user)
    requires PresentAlong(cfg, Exec(cfg, INIT, before), steps, sid)
    ensures OwnedBy(Exec(cfg, INIT, before + steps), sid, user)
  {
    hide Next, Inv;
    ExecConcat(cfg, INIT, before, steps);
    if steps != [] {
      var n := |steps| - 1;
      EveryRunKeepsOwner(cfg, before, steps[..n], sid, user);
      ExecConcat(cfg, INIT, before, steps[..n]);
      EveryRunKeepsInv(cfg, before + steps[..n]);
      OwnerKept(cfg, Exec(cfg, INIT, before + steps[..n]), steps[n], sid, user);
    }
  }
}
