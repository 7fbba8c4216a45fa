/** Sessions are authenticated under a lease, exactly as long as no frame loses its session between
    the check and the map; and the steps of a frame, undisturbed, are the frame handled at once. */
module SessionLeases {
  import opened Bytes
  import opened Tickets
  import opened ReplayCache
  import opened Sessions
  import opened SessionRuns

  // --- Sessions are authenticated under a lease ---

  predicate Leased(s: Session) {
    s.auth == Authenticated && s.lease.Some?
  }

  /** The frame in hand brings the session a ticket. */
  predicate Due(pc: Pc, sid: u64) {
    match pc
    case Counting(f, next) => f.sid == sid && next.AtOwner?
    case Adding(f, next) => f.sid == sid && next.AtOwner?
    case AtOwner(f, _) => f.sid == sid
    case AtBind(f, _) => f.sid == sid
    case _ => Moving(pc) && pc.f.sid == sid
  }

  /** Every session is under a lease, but for one whose frame in hand brings it a ticket. */
  predicate LeaseOk(s: State) {
    && (forall sid :: sid in s.books.sessions ==> Leased(s.books.sessions[sid]) || Due(s.rx, sid))
    && (Moving(s.rx) ==> Leased(s.rx.to))
  }

  /** A frame without a ticket finds its session gone, though it was there when the lease was checked. */
  predicate Orphans(s: State, step: Step) {
    step.Upsert? && Enabled(s, step) && s.rx.ticket.None? && s.rx.f.sid !in s.books.sessions
  }

  lemma BackedIsLeased(log: seq<Presented>, sid: u64, s: Session)
    requires Backed(log, sid, s) && s.auth == Authenticated
    ensures Leased(s)
  {
  }

  /** Frames without a ticket are not hellos, in every state. */
  predicate TicketOk(s: State) {
    (s.rx.AtLimits? || s.rx.AtMap?) && s.rx.f.isHello ==> s.rx.ticket.Some?
  }

  lemma UpsertLeases(cfg: Config, s: State)
    requires RequiresAuth(cfg.mode) && Inv(cfg, s) && TicketOk(s) && LeaseOk(s) && Enabled(s, Upsert)
    ensures LeaseOk(RxStep(cfg, s, Upsert)) <==> !Orphans(s, Upsert)
    ensures TicketOk(RxStep(cfg, s, Upsert))
  {
    hide GoesOn, Backed, Genuine, DeriveUser, Held, MoveOk;
    var s', f := RxStep(cfg, s, Upsert), s.rx.f;
    if f.sid !in s.books.sessions {
      assert !Leased(s'.books.sessions[f.sid]);
      assert Due(s'.rx, f.sid) <==> s.rx.ticket.Some?;
    } else {
      assert Leased(s.books.sessions[f.sid]);
    }
  }

  lemma OtherRxTickets(cfg: Config, s: State, step: Step)
    requires RequiresAuth(cfg.mode) && TicketOk(s) && Held(s) && Enabled(s, step) && !ByCleaner(step) && !step.Upsert?
    ensures TicketOk(RxStep(cfg, s, step))
  {
    hide Received, Incremented, LoweredBooks;
    if step.Receive? {
      ReceivedTicket(cfg, s, step.f);
    }
  }

  lemma OtherRxLeases(cfg: Config, s: State, step: Step)
    requires RequiresAuth(cfg.mode) && Inv(cfg, s) && TicketOk(s) && LeaseOk(s) && Enabled(s, step)
    requires !ByCleaner(step) && !step.Upsert?
    ensures LeaseOk(RxStep(cfg, s, step)) && TicketOk(RxStep(cfg, s, step))
  {
    hide Received, Incremented, Backed, Genuine, KeepsOwner, LoweredBooks, TicketOk;
    OtherRxTickets(cfg, s, step);
    var s' := RxStep(cfg, s, step);
    if step.Receive? {
      ReceivedTicket(cfg, s, step.f);
    }
    if step.CheckOwner? && OwnerConflict(s.books, s.rx.f.sid, s.rx.t) {
      BackedIsLeased(s.log, s.rx.f.sid, s.books.sessions[s.rx.f.sid]);
    }
    if step.Leave? {
      LoweredSessions(s);
    }
  }

  lemma LoweredSessions(s: State)
    ensures forall ip :: LoweredBooks(s.books, ip).sessions == s.books.sessions
  {
  }

  lemma CleanerLeases(cfg: Config, s: State, step: Step)
    requires LeaseOk(s) && TicketOk(s) && Held(s) && Enabled(s, step) && ByCleaner(step)
    ensures LeaseOk(CleanerStep(s, step)) && TicketOk(CleanerStep(s, step))
  {
    hide IsOver;
  }

  /** A step leaves only leases exactly when it orphans no frame. */
  lemma LeaseStep(cfg: Config, s: State, step: Step)
    requires RequiresAuth(cfg.mode) && Inv(cfg, s) && TicketOk(s) && LeaseOk(s)
    ensures LeaseOk(Next(cfg, s, step)) <==> !Orphans(s, step)
    ensures TicketOk(Next(cfg, s, step))
  {
    hide RxStep, CleanerStep, LeaseOk, TicketOk, RxOk, MoveOk, Held;
    if Enabled(s, step) {
      if ByCleaner(step) {
        CleanerLeases(cfg, s, step);
      } else if step.Upsert? {
        UpsertLeases(cfg, s);
      } else {
        OtherRxLeases(cfg, s, step);
      }
    }
  }

  lemma ReceivedTicket(cfg: Config, s: State, f: Frame)
    requires RequiresAuth(cfg.mode)
    ensures var s' := Received(cfg, s, f);
            && s'.books == s.books && (s'.rx == s.rx || (s'.rx.AtLimits? && s'.rx.f == f))
            && (s'.rx.AtLimits? && s'.rx != s.rx && f.isHello ==> s'.rx.ticket.Some?)
  {
    hide Verify, Offered, Welcome, Attempts;
  }

  ghost predicate NeverOrphans(cfg: Config, steps: seq<Step>) {
    forall n :: 0 <= n < |steps| ==> !Orphans(Exec(cfg, INIT, steps[..n]), steps[n])
  }

  ghost predicate AlwaysLeased(cfg: Config, steps: seq<Step>) {
    forall n :: 0 <= n <= |steps| ==> LeaseOk(Exec(cfg, INIT, steps[..n]))
  }

  lemma {:induction false} LeasedUpTo(cfg: Config, steps: seq<Step>, n: nat)
    requires RequiresAuth(cfg.mode) && n <= |steps|
    requires forall k :: 0 <= k < n ==> !Orphans(Exec(cfg, INIT, steps[..k]), steps[k])
    ensures LeaseOk(Exec(cfg, INIT, steps[..n])) && TicketOk(Exec(cfg, INIT, steps[..n]))
  {
    if n == 0 {
      assert steps[..0] == [];
    } else {
      hide Next, Inv, LeaseOk, TicketOk, Orphans;
      LeasedUpTo(cfg, steps, n - 1);
      EveryRunKeepsInv(cfg, steps[..n - 1]);
      var before := Exec(cfg, INIT, steps[..n - 1]);
      LeaseStep(cfg, before, steps[n - 1]);
      var after := ExecNext(cfg, INIT, steps, n - 1, before);
    }
  }

  /** In every run, every state has only sessions under a lease, but for one whose frame in hand brings
      a ticket, if and only if no frame without a ticket found its session gone at the map.  When no
      frame is in hand that is every session. */
  lemma EveryRunLeasedUnlessOrphaned(cfg: Config, steps: seq<Step>)
    requires RequiresAuth(cfg.mode)
    ensures AlwaysLeased(cfg, steps) <==> NeverOrphans(cfg, steps)
    ensures var s := Exec(cfg, INIT, steps);
            NeverOrphans(cfg, steps) && s.rx.Waiting? ==>
              forall sid :: sid in s.books.sessions ==> Leased(s.books.sessions[sid])
  {
    hide Next, Inv, Orphans, Exec;
    if NeverOrphans(cfg, steps) {
      forall n | 0 <= n <= |steps|
        ensures LeaseOk(Exec(cfg, INIT, steps[..n]))
      {
        LeasedUpTo(cfg, steps, n);
      }
      assert steps[..|steps|] == steps;
    } else {
      var n := FirstOrphan(cfg, steps, |steps|);
      LeasedUpTo(cfg, steps, n);
      EveryRunKeepsInv(cfg, steps[..n]);
      var before := Exec(cfg, INIT, steps[..n]);
      LeaseStep(cfg, before, steps[n]);
      var after := ExecNext(cfg, INIT, steps, n, before);
      assert !LeaseOk(Exec(cfg, INIT, steps[..n + 1]));
    }
  }

  /** The first step that orphans a frame. */
  lemma {:induction false} FirstOrphan(cfg: Config, steps: seq<Step>, m: nat) returns (n: nat)
    requires m <= |steps| && exists k :: 0 <= k < m && Orphans(Exec(cfg, INIT, steps[..k]), steps[k])
    ensures n < m && Orphans(Exec(cfg, INIT, steps[..n]), steps[n])
    ensures forall k :: 0 <= k < n ==> !Orphans(Exec(cfg, INIT, steps[..k]), steps[k])
  {
    hide Orphans, Exec;
    if exists k :: 0 <= k < m - 1 && Orphans(Exec(cfg, INIT, steps[..k]), steps[k]) {
      n := FirstOrphan(cfg, steps, m - 1);
    } else {
      n := m - 1;
    }
  }

  // --- A frame handled without interruption ---

  const MOVE := [Leave, Erase, Join, Write]

  /** A held session whose move has not begun. */
  predicate Poised(s: State) {
    && (Moving(s.rx) ==> s.rx.f.sid in s.books.sessions && !s.rx.Erasing? && !s.rx.Joining? && !Moving(s.rx.next))
    && (s.rx.Writing? ==> s.books.sessions[s.rx.f.sid].addr.ip == s.rx.to.addr.ip)
    && (s.rx.Leaving? ==> s.books.sessions[s.rx.f.sid].addr.ip != s.rx.to.addr.ip)
  }

  function Moved(s: State): State
    requires Moving(s.rx) ==> s.rx.f.sid in s.books.sessions
  {
    if !Moving(s.rx) then s
    else
      var b, f, to := s.books, s.rx.f, s.rx.to;
      s.(rx := s.rx.next,
         books := b.(sessions := b.sessions[f.sid := to],
                     counts := Rebound(b.counts, b.sessions[f.sid].addr.ip, to.addr.ip)))
  }

  /** The two halves of a decrement. */
  lemma UninterruptedLeave(cfg: Config, s: State)
    requires Poised(s) && s.rx.Leaving?
    ensures Next(cfg, Next(cfg, s, Leave), Erase) ==
            var b := s.books;
            s.(books := b.(counts := Decremented(b.counts, b.sessions[s.rx.f.sid].addr.ip)),
               rx := Joining(s.rx.f, s.rx.to, s.rx.next))
  {
    hide Incremented, Received, AfterUpsert, Refreshes, OwnerConflict, Identified, Carried, IsOver, GoesOn, CleanerStep;
  }

  /** Taking the steps of a move changes the session and moves its count, or does nothing. */
  lemma UninterruptedMove(cfg: Config, s: State)
    requires Poised(s)
    ensures Next(cfg, Next(cfg, Next(cfg, Next(cfg, s, Leave), Erase), Join), Write) == Moved(s)
  {
    hide Incremented, Decremented, Received, AfterUpsert, Refreshes, OwnerConflict, Identified, Carried, IsOver, GoesOn;
    hide CleanerStep;
    if s.rx.Leaving? {
      UninterruptedLeave(cfg, s);
    } else {
      assert Next(cfg, s, Leave) == s && Next(cfg, s, Erase) == s && Next(cfg, s, Join) == s;
    }
  }

  lemma MoveRun(cfg: Config, s: State)
    requires Poised(s)
    ensures Exec(cfg, s, MOVE) == Moved(s)
  {
    hide Next, Moved, Poised;
    UninterruptedMove(cfg, s);
    var s1 := ExecNext(cfg, s, MOVE, 0, s);
    var s2 := ExecNext(cfg, s, MOVE, 1, s1);
    var s3 := ExecNext(cfg, s, MOVE, 2, s2);
    var s4 := ExecNext(cfg, s, MOVE, 3, s3);
    assert MOVE[..4] == MOVE;
  }

  function LimitStep(b: Books, f: Frame): Step {
    if Limited(b, f) then Refuse else Admit
  }

  /** The check and the limits. */
  lemma GateRun(cfg: Config, s: State, f: Frame)
    requires s.rx.Waiting? && s.cleaner.Resting?
    ensures var s' := Next(cfg, Next(cfg, s, Receive(f)), LimitStep(s.books, f));
            var (k, gate) := AtGate(cfg, s.books, s.cache, f);
            && s'.books == s.books && s'.cache == k && s'.cleaner == Resting
            && s'.rx == if gate.Passed? then AtMap(f, gate.ticket) else Waiting
  {
    hide Checked, Attempts, Limited;
  }

  /** The map access, up to a move. */
  lemma UpsertRun(cfg: Config, s: State)
    requires s.cleaner.Resting? && (s.rx.AtMap? || s.rx.Waiting?)
    ensures var s' := Next(cfg, Next(cfg, Next(cfg, s, Upsert), Count), Add);
            && s'.cache == s.cache && s'.cleaner == Resting && Poised(s')
            && (s.rx.Waiting? ==> s' == s)
            && (s.rx.AtMap? ==>
                  && Moved(s').books == Upserted(cfg, s.books, s.rx.f)
                  && Moved(s').rx == AfterUpsert(cfg, s.books, s.rx.f, s.rx.ticket))
  {
    hide Received, Incremented, OwnerConflict, Identified, Carried, IsOver, GoesOn, CleanerStep, DeriveUser;
    var s1 := Next(cfg, s, Upsert);
    var s2 := Next(cfg, s1, Count);
    assert s.rx.AtMap? && s.rx.f.sid in s.books.sessions ==> s2 == s1;
  }

  /** The owner check and the bind, up to a move. */
  lemma BindRun(cfg: Config, s: State)
    requires s.cleaner.Resting? && (s.rx.AtOwner? || s.rx.Waiting? || s.rx.AtName?)
    ensures var s' := Next(cfg, Next(cfg, s, CheckOwner), Bind);
            && s'.cache == s.cache && s'.cleaner == Resting && Poised(s')
            && (!s.rx.AtOwner? ==> s' == s)
            && (s.rx.AtOwner? ==>
                  && Moved(s').rx.Waiting?
                  && Moved(s').books == if OwnerConflict(s.books, s.rx.f.sid, s.rx.t) then s.books
                                         else BoundTo(s.books, s.rx.f, s.rx.t))
  {
    hide Received, Incremented, AfterUpsert, Refreshes, OwnerConflict, Identified, Carried, IsOver, GoesOn, CleanerStep;
  }

  lemma NameRun(cfg: Config, s: State)
    requires s.cleaner.Resting? && (s.rx.Waiting? || (s.rx.AtName? && s.rx.f.inner.Some?))
    ensures var s' := Next(cfg, s, Name);
            && s'.cache == s.cache && s'.rx.Waiting? && s'.cleaner.Resting?
            && s'.books == if s.rx.Waiting? then s.books else Identified(s.books, s.rx.f.sid, s.rx.f.inner.value)
  {
    hide Received, AfterUpsert, Identified, CleanerStep;
  }

  function FrameSteps(b: Books, f: Frame): seq<Step> {
    [Receive(f), LimitStep(b, f)] + [Upsert, Count, Add] + MOVE + [CheckOwner, Bind] + MOVE + [Name]
  }

  lemma ExecTwo(cfg: Config, s: State, a: Step, b: Step)
    ensures Exec(cfg, s, [a, b]) == Next(cfg, Next(cfg, s, a), b)
  {
    hide Next;
    var s1 := ExecNext(cfg, s, [a, b], 0, s);
    var s2 := ExecNext(cfg, s, [a, b], 1, s1);
    assert [a, b][..2] == [a, b];
  }

  lemma ExecThree(cfg: Config, s: State, a: Step, b: Step, c: Step)
    ensures Exec(cfg, s, [a, b, c]) == Next(cfg, Next(cfg, Next(cfg, s, a), b), c)
  {
    hide Next;
    var s1 := ExecNext(cfg, s, [a, b, c], 0, s);
    var s2 := ExecNext(cfg, s, [a, b, c], 1, s1);
    var s3 := ExecNext(cfg, s, [a, b, c], 2, s2);
    assert [a, b, c][..3] == [a, b, c];
  }

  lemma ExecPieces(cfg: Config, s: State, a: seq<Step>, b: seq<Step>, c: seq<Step>,
                   d: seq<Step>, e: seq<Step>, g: seq<Step>)
    ensures Exec(cfg, s, a + b + c + d + e + g)
            == Exec(cfg, Exec(cfg, Exec(cfg, Exec(cfg, Exec(cfg, Exec(cfg, s, a), b), c), d), e), g)
  {
    hide Exec;
    ExecConcat(cfg, s, a, b);
    ExecConcat(cfg, s, a + b, c);
    ExecConcat(cfg, s, a + b + c, d);
    ExecConcat(cfg, s, a + b + c + d, e);
    ExecConcat(cfg, s, a + b + c + d + e, g);
  }

  /** The same steps, one after the other. */
  lemma FrameRun(cfg: Config, s: State, f: Frame, s2: State, s5: State, s9: State, s11: State, s15: State)
    requires s2 == Next(cfg, Next(cfg, s, Receive(f)), LimitStep(s.books, f))
    requires s5 == Next(cfg, Next(cfg, Next(cfg, s2, Upsert), Count), Add) && s9 == Exec(cfg, s5, MOVE)
    requires s11 == Next(cfg, Next(cfg, s9, CheckOwner), Bind) && s15 == Exec(cfg, s11, MOVE)
    ensures Exec(cfg, s, FrameSteps(s.books, f)) == Next(cfg, s15, Name)
  {
    hide Next, LimitStep, Exec;
    ExecTwo(cfg, s, Receive(f), LimitStep(s.books, f));
    ExecThree(cfg, s2, Upsert, Count, Add);
    ExecTwo(cfg, s9, CheckOwner, Bind);
    ExecOne(cfg, s15, Name);
    ExecPieces(cfg, s, [Receive(f), LimitStep(s.books, f)], [Upsert, Count, Add], MOVE,
               [CheckOwner, Bind], MOVE, [Name]);
  }

  lemma ExecOne(cfg: Config, s: State, a: Step)
    ensures Exec(cfg, s, [a]) == Next(cfg, s, a)
  {
    hide Next;
    var s1 := ExecNext(cfg, s, [a], 0, s);
    assert [a][..1] == [a];
  }

  /** The steps of one frame, run without interference, do what handling the frame at once does. */
  lemma UninterruptedFrame(cfg: Config, s: State, f: Frame)
    requires s.rx.Waiting? && s.cleaner.Resting?
    ensures var s', o := Exec(cfg, s, FrameSteps(s.books, f)), Handled(cfg, s.books, s.cache, f);
            s'.books == o.books && s'.cache == o.cache && s'.rx.Waiting? && s'.cleaner.Resting?
  {
    hide Next, AtGate, Upserted, GoesOn, Rebound, OwnerConflict, BoundTo, Identified, LimitStep, Poised;
    var s2 := Next(cfg, Next(cfg, s, Receive(f)), LimitStep(s.books, f));
    GateRun(cfg, s, f);
    var s5 := Next(cfg, Next(cfg, Next(cfg, s2, Upsert), Count), Add);
    UpsertRun(cfg, s2);
    MoveRun(cfg, s5);
    PoisedHeld(s5);
    var s9 := Moved(s5);
    var s11 := Next(cfg, Next(cfg, s9, CheckOwner), Bind);
    BindRun(cfg, s9);
    MoveRun(cfg, s11);
    PoisedHeld(s11);
    var s15 := Moved(s11);
    assert s9.rx.Waiting? || s9.rx.AtOwner? || (s9.rx.AtName? && s9.rx.f == f && f.inner.Some?);
    assert !s9.rx.AtOwner? ==> s15 == s9;
    NameRun(cfg, s15);
    FrameRun(cfg, s, f, s2, s5, s9, s11, s15);
    var (k, gate) := AtGate(cfg, s.books, s.cache, f);
    var o := Handled(cfg, s.books, s.cache, f);
    var s' := Next(cfg, s15, Name);
    assert gate.Rejected? ==> s'.books == o.books;
    assert gate.Passed? && f.isHello ==> s'.books == o.books;
    assert gate.Passed? && !f.isHello ==> s'.books == o.books;
  }

  lemma PoisedHeld(s: State)
    requires Poised(s)
    ensures Moving(s.rx) ==> s.rx.f.sid in s.books.sessions
  {
  }

  // --- A session removed behind the check ---

  const REQUIRED := Config(Required, Auth(true, Some("s")))
  const CLIENT := Addr(V4(0), 1)

  function HelloToken(): Token {
    Signed(Claims(1, "swifttunnel-web", "swifttunnel-relay", "u", SidText(1), "s", 0, 900, "j", true))
  }

  /** A hello at time 0, and a data frame 210 seconds later, under the same lease. */
  function Hello(): Frame {
    Frame(1, CLIENT, true, HelloToken(), None, 0, 0, true, true, true)
  }

  function LateFrame(): Frame {
    Frame(1, CLIENT, false, Undecodable, None, SESSION_IDLE_LIMIT, 210, true, true, true)
  }

  function RemovalSteps(sid: u64, now: nat, nowUnix: u64): seq<Step> {
    [Condemn(sid, now, nowUnix), Lower, Wipe] + [Subtract, Free]
  }

  /** The cleanup of one session, run without interference. */
  lemma RemovalRun(cfg: Config, s: State, sid: u64, now: nat, nowUnix: u64)
    requires Enabled(s, Condemn(sid, now, nowUnix))
    ensures Exec(cfg, s, RemovalSteps(sid, now, nowUnix)) == s.(books := Removed(s.books, sid))
  {
    hide IsOver, RxStep;
    ExecConcat(cfg, s, [Condemn(sid, now, nowUnix), Lower, Wipe], [Subtract, Free]);
    ExecThree(cfg, s, Condemn(sid, now, nowUnix), Lower, Wipe);
    var s3 := Next(cfg, Next(cfg, Next(cfg, s, Condemn(sid, now, nowUnix)), Lower), Wipe);
    assert s3.cleaner == Subtracting(sid) && s3.books.sessions == s.books.sessions;
    ExecTwo(cfg, s3, Subtract, Free);
  }

  function OrphanSteps(f: Frame, now: nat, nowUnix: u64): seq<Step> {
    [Receive(f), Admit] + RemovalSteps(f.sid, now, nowUnix) + [Upsert, Count, Add]
  }

  /** A session that was silent for long, but is still under its lease, is removed just after a frame
      from its endpoint passed the check: the frame creates it anew, unauthenticated and without a
      lease, though nothing is forwarded for it. */
  lemma RemovalBehindTheCheck(cfg: Config, s: State, f: Frame, now: nat, nowUnix: u64)
    requires RequiresAuth(cfg.mode) && s.rx.Waiting? && s.cleaner.Resting? && !f.isHello && f.inner.None?
    requires Welcome(s.books, f) && IsOver(s.books.sessions[f.sid], now, nowUnix)
    ensures var s' := Exec(cfg, s, OrphanSteps(f, now, nowUnix));
            && s'.rx.Waiting? && f.sid in s'.books.sessions && !Leased(s'.books.sessions[f.sid])
            && forall t :: ForwardingAddr(cfg, s'.books, f.sid, t) == None
  {
    hide IsOver, Incremented, Decremented, Exec, RemovalSteps, Attempts;
    var r := RemovalSteps(f.sid, now, nowUnix);
    ExecConcat(cfg, s, [Receive(f), Admit], r);
    ExecConcat(cfg, s, [Receive(f), Admit] + r, [Upsert, Count, Add]);
    ExecTwo(cfg, s, Receive(f), Admit);
    var s2 := Next(cfg, Next(cfg, s, Receive(f)), Admit);
    assert s2.rx == AtMap(f, None) && s2.books == s.books && s2.cleaner.Resting?;
    RemovalRun(cfg, s2, f.sid, now, nowUnix);
    var s7 := s2.(books := Removed(s2.books, f.sid));
    ExecThree(cfg, s7, Upsert, Count, Add);
  }

  lemma HelloVerifies()
    ensures Verify(HelloToken(), 1, REQUIRED.auth, 0) == Ok(Ticket("u", "j", 900, true))
  {
    hide SidText;
    assert NameOk("u") && JtiOk("j");
  }

  /** What the hello does to the books. */
  lemma HelloHandled()
    ensures Handled(REQUIRED, INIT.books, INIT.cache, Hello()).books
            == Books(map[1 := Session("u", Authenticated, Some(900), CLIENT, 0)], map[V4(0) := 1], 1)
  {
    hide Verify, SidText, HelloToken;
    HelloVerifies();
    assert Checked(REQUIRED, INIT.books, INIT.cache, Hello()).1 == Passed(Some(Ticket("u", "j", 900, true)));
  }

  /** From the start: a hello, 210 seconds of silence under its lease, a frame that passes the check,
      the removal of the session, and the frame's map access, which leaves it without a lease. */
  lemma OrphanedFromTheStart()
    ensures var steps := FrameSteps(INIT.books, Hello()) + OrphanSteps(LateFrame(), SESSION_IDLE_LIMIT, 210);
            var s := Exec(REQUIRED, INIT, steps);
            s.rx.Waiting? && 1 in s.books.sessions && !Leased(s.books.sessions[1])
  {
    hide Exec, Handled, FrameSteps, OrphanSteps;
    UninterruptedFrame(REQUIRED, INIT, Hello());
    HelloHandled();
    var s := Exec(REQUIRED, INIT, FrameSteps(INIT.books, Hello()));
    ExecConcat(REQUIRED, INIT, FrameSteps(INIT.books, Hello()), OrphanSteps(LateFrame(), SESSION_IDLE_LIMIT, 210));
    RemovalBehindTheCheck(REQUIRED, s, LateFrame(), SESSION_IDLE_LIMIT, 210);
  }
}
