/** What must happen in session admission, stated on the fields of frames, tickets and sessions: exactly
    when a hello binds, a frame goes on, a packet is sent and a session is removed. */
module SessionEffects {
  import opened Bytes
  import opened Tickets
  import opened ReplayCache
  import opened Sessions
  import opened SessionRuns
  import opened SessionLeases

  /** Where authentication is required, data for a session is sent exactly while the session is
      authenticated and under its lease; where it is off, while its lease, if any, is not over.  It goes to
      the session's endpoint. */
  lemma ForwardsExactly(cfg: Config, b: Books, sid: u64, t: u64, a: Addr)
    ensures ForwardingAddr(cfg, b, sid, t) == Some(a) <==>
              && sid in b.sessions && b.sessions[sid].addr == a
              && var lease := b.sessions[sid].lease;
              && if cfg.mode == Off then lease.None? || t < lease.value
                 else b.sessions[sid].auth == Authenticated && lease.Some? && t < lease.value
  {
  }

  /** The limits on a session a frame would create, and on packets. */
  predicate WithinLimits(b: Books, f: Frame) {
    && f.packetOk
    && (f.sid in b.sessions ||
        (|b.sessions| < 65_536 && (f.addr.ip in b.counts ==> b.counts[f.addr.ip] < 512) && f.newSessionOk))
  }

  /** The answer to a hello where authentication is required, case by case; the session is bound exactly
      when the answer says so. */
  lemma HelloAnsweredExactly(cfg: Config, b: Books, k: Contents, f: Frame)
    requires cfg.mode != Off && f.isHello
    ensures var o, v := Handled(cfg, b, k, f), Verify(f.token, f.sid, cfg.auth, f.nowUnix);
            && !o.goesOn
            && if !f.pendingOk then o == Outcome(b, k, None, false)
               else if v.Err? then o == Outcome(b, k, Some(Failed(v.error)), false)
               else
                 var t := v.ticket;
                 var (k', unused) := Offered(k, t.jti, t.exp, f.nowUnix);
                 && o.cache == k'
                 && if !unused then o.ack == Some(Failed(Replay)) && o.books == b
                    else if !WithinLimits(b, f) then o.ack == None && o.books == b
                    else if f.sid in b.sessions && b.sessions[f.sid].auth == Authenticated
                            && b.sessions[f.sid].user != t.user
                      then o.ack == Some(Failed(OwnerMismatch)) && o.books == b
                    else
                      && o.ack == Some(Bound)
                      && o.books.sessions ==
                           b.sessions[f.sid := Session(t.user, Authenticated, Some(t.exp), f.addr, f.now)]
  {
    hide Verify, Pruned, Decremented, Incremented;
    if Verify(f.token, f.sid, cfg.auth, f.nowUnix).Ok? {
      VerifiedTicket(f.token, f.sid, cfg.auth, f.nowUnix, f.sid);
    }
  }

  /** The frame comes from the endpoint of an authenticated session under its lease. */
  predicate FromHolder(b: Books, f: Frame) {
    && f.sid in b.sessions
    && var s := b.sessions[f.sid];
    && s.auth == Authenticated && s.lease.Some? && f.nowUnix < s.lease.value && s.addr == f.addr
  }

  /** Where authentication is required, any other frame goes on, and refreshes its session, exactly when
      it comes from the session's holder and is within the packet limit; a frame from another endpoint
      of a known session is asked to authenticate. */
  lemma FrameGoesOnExactly(cfg: Config, b: Books, k: Contents, f: Frame)
    requires cfg.mode != Off && !f.isHello
    ensures var o, ok := Handled(cfg, b, k, f), FromHolder(b, f) && f.packetOk;
            && (o.goesOn <==> ok) && o.cache == k
            && o.books == (if ok then b.(sessions := b.sessions[f.sid := b.sessions[f.sid].(lastActivity := f.now)])
                           else b)
            && o.ack == if !FromHolder(b, f) && f.sid in b.sessions && b.sessions[f.sid].addr != f.addr && f.pendingOk
                        then Some(Reauthenticate) else None
  {
  }

  /** A session after a frame where authentication is off: at the sender, just used, named after the
      source inside the frame unless it is authenticated. */
  function OpenSession(b: Books, f: Frame): Session {
    var s := if f.sid in b.sessions then b.sessions[f.sid]
             else Session("session-" + SidText(f.sid), Legacy, None, f.addr, f.now);
    Session(if !f.isHello && f.inner.Some? && s.auth == Legacy then f.inner.value else s.user,
            s.auth, s.lease, f.addr, f.now)
  }

  /** Where authentication is off, every frame within the limits goes on, unless it is a hello, which is
      told so; its session is created, or moved to the sender. */
  lemma OpenFrameExactly(cfg: Config, b: Books, k: Contents, f: Frame)
    requires cfg.mode == Off
    ensures var o, ok := Handled(cfg, b, k, f), WithinLimits(b, f);
            && o.cache == k && (o.goesOn <==> ok && !f.isHello)
            && o.ack == (if ok && f.isHello then Some(Disabled) else None)
            && (!ok ==> o.books == b)
            && (ok ==> o.books.sessions == b.sessions[f.sid := OpenSession(b, f)])
  {
    hide SidText, Decremented, Incremented;
  }

  /** Cleanup removes exactly the sessions that were silent for 210 seconds or whose lease ran out 60
      seconds ago. */
  lemma RemovedExactly(sessions: map<u64, Session>, now: nat, nowUnix: u64, sid: u64)
    requires sid in sessions
    ensures var s := sessions[sid];
            sid !in Surviving(sessions, now, nowUnix) <==>
              || now >= s.lastActivity + 210_000_000_000
              || (s.lease.Some? && var e: int := s.lease.value; nowUnix >= e + 60 || nowUnix == U64_MAX)
  {
  }

  // --- After a hello ---

  /** The same owner, lease and endpoint. */
  predicate Same(s: Session, x: Session) {
    s.user == x.user && s.auth == x.auth && s.lease == x.lease && s.addr == x.addr
  }

  predicate NoHello(pc: Pc, sid: u64) {
    pc.Waiting? || pc.f.sid != sid || !pc.f.isHello
  }

  predicate HasNext(pc: Pc) {
    pc.Counting? || pc.Adding? || Moving(pc)
  }

  /** The session is as it was bound, and neither a hello for it nor its removal is under way. */
  predicate Rests(s: State, sid: u64, x: Session) {
    && sid in s.books.sessions && Same(s.books.sessions[sid], x)
    && NoHello(s.rx, sid) && (HasNext(s.rx) ==> NoHello(s.rx.next, sid))
    && (Moving(s.rx) && s.rx.f.sid == sid ==> Same(s.rx.to, x))
    && !HeldByCleaner(s, sid)
  }

  /** Neither a hello for the session nor the start of its removal. */
  predicate Harmless(step: Step, sid: u64) {
    && (step.Receive? ==> step.f.sid != sid || !step.f.isHello)
    && (step.Condemn? ==> step.sid != sid)
  }

  lemma StepRests(cfg: Config, s: State, step: Step, sid: u64, x: Session)
    requires cfg.mode != Off && Inv(cfg, s) && Rests(s, sid, x) && x.auth == Authenticated && Harmless(step, sid)
    ensures Rests(Next(cfg, s, step), sid, x)
  {
    hide RxStep, IsOver, Backed, Genuine;
    if Enabled(s, step) && !ByCleaner(step) {
      RxRests(cfg, s, step, sid, x);
    }
  }

  lemma RxRests(cfg: Config, s: State, step: Step, sid: u64, x: Session)
    requires cfg.mode != Off && Inv(cfg, s) && Rests(s, sid, x) && x.auth == Authenticated && Harmless(step, sid)
    requires Enabled(s, step) && !ByCleaner(step)
    ensures Rests(RxStep(cfg, s, step), sid, x)
  {
    hide Received, Incremented, IsOver, GoesOn, Backed, Genuine, DeriveUser, BoundSession;
    if step.Receive? {
      ReceivedRests(cfg, s, step.f);
    }
  }

  lemma ReceivedRests(cfg: Config, s: State, f: Frame)
    ensures var s' := Received(cfg, s, f);
            && s'.books == s.books && s'.cleaner == s.cleaner
            && (s'.rx == s.rx || (s'.rx.AtLimits? && s'.rx.f == f))
  {
    hide Checked, Attempts;
  }

  predicate AllHarmless(steps: seq<Step>, sid: u64) {
    forall n :: 0 <= n < |steps| ==> Harmless(steps[n], sid)
  }

  lemma {:induction false} RunRests(cfg: Config, s: State, steps: seq<Step>, sid: u64, x: Session)
    requires cfg.mode != Off && Inv(cfg, s) && Rests(s, sid, x) && x.auth == Authenticated && AllHarmless(steps, sid)
    ensures Inv(cfg, Exec(cfg, s, steps)) && Rests(Exec(cfg, s, steps), sid, x)
  {
    hide Next, Inv, Rests, Harmless;
    if steps != [] {
      var before := steps[..|steps| - 1];
      RunRests(cfg, s, before, sid, x);
      NextKeepsInv(cfg, Exec(cfg, s, before), steps[|steps| - 1]);
      StepRests(cfg, Exec(cfg, s, before), steps[|steps| - 1], sid, x);
    }
  }

  /** From any reachable state with both threads at rest: once a hello is answered as bound, data for its
      session goes to the hello's endpoint at every time before its ticket expires, whatever happens until
      the next hello for that session or the start of its removal. */
  lemma BoundHelloIsServed(cfg: Config, steps: seq<Step>, f: Frame, later: seq<Step>, t: u64)
    requires cfg.mode != Off && f.isHello && AllHarmless(later, f.sid)
    requires var s := Exec(cfg, INIT, steps);
             && s.rx.Waiting? && s.cleaner.Resting?
             && Handled(cfg, s.books, s.cache, f).ack == Some(Bound)
    ensures var s := Exec(cfg, INIT, steps);
            var s' := Exec(cfg, INIT, steps + FrameSteps(s.books, f) + later);
            var v := Verify(f.token, f.sid, cfg.auth, f.nowUnix);
            v.Ok? && (t < v.ticket.exp ==> ForwardingAddr(cfg, s'.books, f.sid, t) == Some(f.addr))
  {
    hide Exec, Handled, FrameSteps, Verify, Inv;
    var s := Exec(cfg, INIT, steps);
    var frame := FrameSteps(s.books, f);
    HelloAnsweredExactly(cfg, s.books, s.cache, f);
    UninterruptedFrame(cfg, s, f);
    ExecConcat(cfg, INIT, steps, frame);
    ExecConcat(cfg, INIT, steps + frame, later);
    EveryRunKeepsInv(cfg, steps + frame);
    var bound := Exec(cfg, INIT, steps + frame);
    RunRests(cfg, bound, later, f.sid, bound.books.sessions[f.sid]);
  }

  // --- Cleanup and responses between the threads ---

  /** Cleanup may take hold of a session exactly when it holds none, the receiving thread is not changing
      that session, and the session is over. */
  lemma CleanupStartsExactly(s: State, sid: u64, now: nat, nowUnix: u64)
    requires nowUnix < U64_MAX
    ensures Enabled(s, Condemn(sid, now, nowUnix)) <==>
              && s.cleaner.Resting? && sid in s.books.sessions && !(Moving(s.rx) && s.rx.f.sid == sid)
              && var x := s.books.sessions[sid];
              || now >= x.lastActivity + 210_000_000_000
              || (x.lease.Some? && var e: int := x.lease.value; nowUnix >= e + 60)
  {
  }

  /** A response refreshes its session, and nothing else, unless a thread holds the session. */
  lemma ResponseRefreshes(cfg: Config, s: State, sid: u64, now: nat)
    requires sid in s.books.sessions && !HeldByRx(s, sid) && !HeldByCleaner(s, sid)
    ensures Next(cfg, s, Carry(sid, now)) ==
            s.(books := s.books.(sessions := s.books.sessions[sid := s.books.sessions[sid].(lastActivity := now)]))
  {
  }
}
