/** How long sessions last: what counts as a use, and when cleanup removes a session, over every run of
    frames, responses and cleanup passes handled one at a time. */
module SessionTimes {
  import opened Bytes
  import opened Tickets
  import opened ReplayCache
  import opened Sessions
  import opened SessionEffects

  datatype Op =
    | Received(f: Frame)
    | Response(sid: u64, now: nat, nowUnix: u64)
    | Pass(now: nat, nowUnix: u64)

  datatype State = State(books: Books, cache: Contents)

  function Step(cfg: Config, s: State, op: Op): State {
    match op
    case Received(f) => var o := Handled(cfg, s.books, s.cache, f); State(o.books, o.cache)
    case Response(sid, now, nowUnix) =>
      if sid in s.books.sessions && LeaseIsCurrent(s.books.sessions[sid], nowUnix)
      then s.(books := Carried(s.books, sid, now)) else s
    case Pass(now, nowUnix) => s.(books := s.books.(sessions := Surviving(s.books.sessions, now, nowUnix)))
  }

  function After(cfg: Config, ops: seq<Op>): State {
    if ops == [] then State(Books(map[], map[], 0), Contents(map[], 0))
    else Step(cfg, After(cfg, ops[..|ops| - 1]), ops[|ops| - 1])
  }

  /** A hello that binds, a frame that goes on, and with authentication off any frame within the limits. */
  predicate UsesSession(cfg: Config, s: State, f: Frame) {
    var o := Handled(cfg, s.books, s.cache, f);
    if cfg.mode == Off then WithinLimits(s.books, f) else o.goesOn || o.ack == Some(Bound)
  }

  /** The time of the session's latest use: a frame, or a response under a current lease. */
  function LastUse(cfg: Config, ops: seq<Op>, sid: u64): Option<nat> {
    if ops == [] || sid !in After(cfg, ops).books.sessions then None
    else
      var rest, op := ops[..|ops| - 1], ops[|ops| - 1];
      var before := After(cfg, rest);
      match op
      case Received(f) => if f.sid == sid && UsesSession(cfg, before, f) then Some(f.now) else LastUse(cfg, rest, sid)
      case Response(id, now, nowUnix) =>
        if id == sid && LeaseIsCurrent(before.books.sessions[sid], nowUnix) then Some(now)
        else LastUse(cfg, rest, sid)
      case Pass(_, _) => LastUse(cfg, rest, sid)
  }

  /** What a frame does to a session's last activity, and which sessions it can create. */
  lemma FrameTimes(cfg: Config, s: State, f: Frame, sid: u64)
    ensures var s' := Step(cfg, s, Received(f));
            && (sid in s'.books.sessions <==> sid in s.books.sessions || (f.sid == sid && UsesSession(cfg, s, f)))
            && (sid in s'.books.sessions ==>
                  s'.books.sessions[sid].lastActivity ==
                    if f.sid == sid && UsesSession(cfg, s, f) then f.now else s.books.sessions[sid].lastActivity)
  {
    hide Handled, Verify, WithinLimits, FromHolder, Offered;
    if cfg.mode == Off {
      OpenFrameExactly(cfg, s.books, s.cache, f);
    } else if f.isHello {
      HelloAnsweredExactly(cfg, s.books, s.cache, f);
    } else {
      FrameGoesOnExactly(cfg, s.books, s.cache, f);
      HolderIsKnown(s.books, f);
    }
  }

  lemma HolderIsKnown(b: Books, f: Frame)
    ensures FromHolder(b, f) ==> f.sid in b.sessions
  {
  }

  lemma {:induction false} LastActivityIsLastUse(cfg: Config, ops: seq<Op>, sid: u64)
    requires sid in After(cfg, ops).books.sessions
    ensures LastUse(cfg, ops, sid) == Some(After(cfg, ops).books.sessions[sid].lastActivity)
  {
    hide Handled, IsOver, UsesSession;
    var rest, op := ops[..|ops| - 1], ops[|ops| - 1];
    var before := After(cfg, rest);
    if sid in before.books.sessions {
      LastActivityIsLastUse(cfg, rest, sid);
    }
    if op.Received? {
      FrameTimes(cfg, before, op.f, sid);
    }
  }

  /** In every run, a cleanup pass keeps exactly the sessions used within the last 210 seconds whose lease,
      if any, did not run out 60 seconds ago. */
  lemma KeptExactlyWhileUsed(cfg: Config, ops: seq<Op>, now: nat, nowUnix: u64, sid: u64)
    requires sid in After(cfg, ops).books.sessions && nowUnix < U64_MAX
    ensures var s, last := After(cfg, ops).books.sessions[sid], LastUse(cfg, ops, sid);
            && last.Some?
            && (sid in After(cfg, ops + [Pass(now, nowUnix)]).books.sessions <==>
                  && now < last.value + 210_000_000_000
                  && (s.lease.Some? ==> var e: int := s.lease.value; nowUnix < e + 60))
  {
    hide Handled, IsOver;
    assert (ops + [Pass(now, nowUnix)])[..|ops|] == ops;
    LastActivityIsLastUse(cfg, ops, sid);
    RemovedExactly(After(cfg, ops).books.sessions, now, nowUnix, sid);
  }

  /** Nothing but a cleanup pass removes a session. */
  lemma OnlyCleanupRemoves(cfg: Config, ops: seq<Op>, op: Op, sid: u64)
    requires sid in After(cfg, ops).books.sessions && !op.Pass?
    ensures sid in After(cfg, ops + [op]).books.sessions
  {
    hide Handled;
    assert (ops + [op])[..|ops|] == ops;
    if op.Received? {
      FrameTimes(cfg, After(cfg, ops), op.f, sid);
    }
  }
}
