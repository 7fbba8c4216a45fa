/** Session admission in the v2 relay: tickets, leases, owners, endpoints and the per-source
    counters.  Answers of the rate limiters and of packet parsing come with the frame. */
module Sessions {
  import opened Bytes
  import opened Tickets
  import opened ReplayCache
  import opened Sums

  const SECOND: nat := 1_000_000_000                 // nanoseconds
  const SESSION_IDLE_LIMIT: nat := (180 + 30) * SECOND
  const LEASE_GRACE_SECS := 30 + AUTH_CLOCK_SKEW_SECS
  const MAX_SESSIONS_TOTAL := 65_536
  const MAX_SESSIONS_PER_SRC_IP := 512

  /** `Instant::duration_since`, which saturates at zero. */
  function Since(now: nat, earlier: nat): nat {
    if now < earlier then 0 else now - earlier
  }

  datatype Mode = Off | Optional | Required

  predicate RequiresAuth(m: Mode) { m != Off }

  datatype Config = Config(mode: Mode, auth: Auth)

  datatype Ip = V4(bits: u32) | V6(high: u64, low: u64)
  datatype Addr = Addr(ip: Ip, port: u16)

  datatype AuthState = Legacy | Authenticated

  datatype Session = Session(user: string, auth: AuthState, lease: Option<u64>, addr: Addr, lastActivity: nat)

  /** A received frame.  `token` is what its authentication token came to; `inner` the source address
      inside it if it carries an IP packet that parses and is within budget; the last three say
      whether the limiters for unauthenticated attempts, packets and new sessions let it pass. */
  datatype Frame = Frame(
    sid: u64, addr: Addr, isHello: bool, token: Token, inner: Option<string>,
    now: nat, nowUnix: u64, pendingOk: bool, packetOk: bool, newSessionOk: bool)

  datatype Ack = Disabled | Bound | Reauthenticate | Failed(error: Error)

  /** The session map, the per-source counters and the count of active sessions. */
  datatype Books = Books(sessions: map<u64, Session>, counts: map<Ip, nat>, active: int)

  // --- Predicates on a session ---

  predicate LeaseIsCurrent(s: Session, nowUnix: u64) {
    s.lease.None? || nowUnix < s.lease.value
  }

  predicate AuthIsCurrent(s: Session, nowUnix: u64) {
    s.auth == Authenticated && s.lease.Some? && nowUnix < s.lease.value
  }

  predicate SourceAllowed(s: Session, authRequired: bool, addr: Addr, isHello: bool) {
    !authRequired || s.auth != Authenticated || isHello || s.addr == addr
  }

  /** Where a data packet for this session goes at the final send, if anywhere. */
  function ForwardingAddr(cfg: Config, b: Books, sid: u64, nowUnix: u64): Option<Addr> {
    if sid !in b.sessions then None
    else
      var s := b.sessions[sid];
      var current := if RequiresAuth(cfg.mode) then AuthIsCurrent(s, nowUnix) else LeaseIsCurrent(s, nowUnix);
      if current then Some(s.addr) else None
  }

  // --- Counters ---

  function CountOf(counts: map<Ip, nat>, ip: Ip): nat {
    if ip in counts then counts[ip] else 0
  }

  function Incremented(counts: map<Ip, nat>, ip: Ip): map<Ip, nat> {
    counts[ip := CountOf(counts, ip) + 1]
  }

  function Decremented(counts: map<Ip, nat>, ip: Ip): map<Ip, nat> {
    if ip in counts && counts[ip] > 1 then counts[ip := counts[ip] - 1] else counts - {ip}
  }

  function Rebound(counts: map<Ip, nat>, before: Ip, after: Ip): map<Ip, nat> {
    if before == after then counts else Incremented(Decremented(counts, before), after)
  }

  /** The sessions whose endpoint has this address. */
  ghost function From(sessions: map<u64, Session>, ip: Ip): set<u64> {
    set sid | sid in sessions && sessions[sid].addr.ip == ip
  }

  ghost predicate CountsAgree(sessions: map<u64, Session>, counts: map<Ip, nat>) {
    && (forall ip :: CountOf(counts, ip) == |From(sessions, ip)|)
    && (forall ip :: ip in counts ==> counts[ip] > 0)
  }

  /** Each source's counter is the number of its sessions, absent when zero. */
  ghost predicate Balanced(b: Books) {
    CountsAgree(b.sessions, b.counts) && b.active == |b.sessions|
  }

  // --- What each stage of handling a frame does ---

  datatype Gate = Rejected(ack: Option<Ack>) | Passed(ticket: Option<Ticket>)

  /** Verify the ticket of a hello; without one, only the bound endpoint of a session under a current
      lease passes, and another endpoint is asked to authenticate. */
  function Checked(cfg: Config, b: Books, k: Contents, f: Frame): (Contents, Gate) {
    if RequiresAuth(cfg.mode) && f.isHello then
      if !f.pendingOk then (k, Rejected(None))
      else
        match Verify(f.token, f.sid, cfg.auth, f.nowUnix)
        case Err(e) => (k, Rejected(Some(Failed(e))))
        case Ok(ticket) =>
          var (k', unused) := Offered(k, ticket.jti, ticket.exp, f.nowUnix);
          (k', if unused then Passed(Some(ticket)) else Rejected(Some(Failed(Replay))))
    else if RequiresAuth(cfg.mode) && !Welcome(b, f) then
      (k, Rejected(if f.sid in b.sessions && b.sessions[f.sid].addr != f.addr && f.pendingOk
                   then Some(Reauthenticate) else None))
    else (k, Passed(None))
  }

  /** The same, then the limits. */
  function AtGate(cfg: Config, b: Books, k: Contents, f: Frame): (Contents, Gate) {
    var (k', gate) := Checked(cfg, b, k, f);
    (k', if gate.Passed? && Limited(b, f) then Rejected(None) else gate)
  }

  predicate Welcome(b: Books, f: Frame) {
    && f.sid in b.sessions
    && AuthIsCurrent(b.sessions[f.sid], f.nowUnix) && SourceAllowed(b.sessions[f.sid], true, f.addr, false)
  }

  predicate Limited(b: Books, f: Frame) {
    || !f.packetOk
    || (f.sid !in b.sessions &&
        (|b.sessions| >= MAX_SESSIONS_TOTAL || CountOf(b.counts, f.addr.ip) >= MAX_SESSIONS_PER_SRC_IP
         || !f.newSessionOk))
  }

  function DeriveUser(sid: u64): string {
    "session-" + SidText(sid)
  }

  function NewSession(f: Frame): Session {
    Session(DeriveUser(f.sid), Legacy, None, f.addr, f.now)
  }

  /** A frame refreshes the session it finds, and moves it if authentication is off. */
  predicate Refreshes(cfg: Config, s: Session, f: Frame) {
    !RequiresAuth(cfg.mode) || (!f.isHello && s.addr == f.addr)
  }

  /** The session of a ticket's holder. */
  function BoundSession(f: Frame, t: Ticket): Session {
    Session(t.user, Authenticated, if t.lease then Some(t.exp) else None, f.addr, f.now)
  }

  /** Create the session or refresh it; without authentication any frame moves the endpoint. */
  function Upserted(cfg: Config, b: Books, f: Frame): Books {
    if f.sid !in b.sessions then
      Books(b.sessions[f.sid := NewSession(f)], Incremented(b.counts, f.addr.ip), b.active + 1)
    else
      var s := b.sessions[f.sid];
      if Refreshes(cfg, s, f) then
        b.(sessions := b.sessions[f.sid := s.(addr := f.addr, lastActivity := f.now)],
           counts := Rebound(b.counts, s.addr.ip, f.addr.ip))
      else b
  }

  predicate OwnerConflict(b: Books, sid: u64, ticket: Ticket) {
    sid in b.sessions && b.sessions[sid].auth == Authenticated && b.sessions[sid].user != ticket.user
  }

  /** Give the session to the ticket's holder, if it is still there. */
  function BoundTo(b: Books, f: Frame, t: Ticket): Books {
    if f.sid !in b.sessions then b
    else
      b.(sessions := b.sessions[f.sid := BoundSession(f, t)],
         counts := Rebound(b.counts, b.sessions[f.sid].addr.ip, f.addr.ip))
  }

  /** An unauthenticated session is named after its packets' source address. */
  function Identified(b: Books, sid: u64, name: string): Books {
    if sid in b.sessions && b.sessions[sid].auth != Authenticated
    then b.(sessions := b.sessions[sid := b.sessions[sid].(user := name)])
    else b
  }

  /** Whether a frame other than a hello goes on, judged by the session as it was found. */
  predicate GoesOn(cfg: Config, b: Books, f: Frame) {
    if f.sid in b.sessions then
      && SourceAllowed(b.sessions[f.sid], RequiresAuth(cfg.mode), f.addr, f.isHello)
      && (RequiresAuth(cfg.mode) ==> AuthIsCurrent(b.sessions[f.sid], f.nowUnix))
    else !RequiresAuth(cfg.mode)
  }

  /** `goesOn`: the frame is answered or carried, by what it holds. */
  datatype Outcome = Outcome(books: Books, cache: Contents, ack: Option<Ack>, goesOn: bool)

  /** A whole frame. */
  function Handled(cfg: Config, b: Books, k: Contents, f: Frame): Outcome {
    var (k', gate) := AtGate(cfg, b, k, f);
    match gate
    case Rejected(ack) => Outcome(b, k', ack, false)
    case Passed(ticket) =>
      var b' := Upserted(cfg, b, f);
      if f.isHello then
        if cfg.mode == Off then Outcome(b', k', Some(Disabled), false)
        else if ticket.None? then Outcome(b', k', Some(Failed(BadFormat)), false)
        else if OwnerConflict(b', f.sid, ticket.value) then Outcome(b', k', Some(Failed(OwnerMismatch)), false)
        else Outcome(BoundTo(b', f, ticket.value), k', Some(Bound), false)
      else if GoesOn(cfg, b, f) then
        Outcome(if f.inner.Some? then Identified(b', f.sid, f.inner.value) else b', k', None, true)
      else Outcome(b', k', None, false)
  }

  /** A response carried for a session keeps it from falling silent. */
  function Carried(b: Books, sid: u64, now: nat): Books {
    if sid in b.sessions then b.(sessions := b.sessions[sid := b.sessions[sid].(lastActivity := now)]) else b
  }

  predicate IsOver(s: Session, now: nat, nowUnix: u64) {
    || (s.lease.Some? && nowUnix >= SatAdd(s.lease.value, LEASE_GRACE_SECS))
    || Since(now, s.lastActivity) >= SESSION_IDLE_LIMIT
  }

  function Removed(b: Books, sid: u64): Books
    requires sid in b.sessions
  {
    Books(b.sessions - {sid}, Decremented(b.counts, b.sessions[sid].addr.ip), b.active - 1)
  }

  function Surviving(sessions: map<u64, Session>, now: nat, nowUnix: u64): map<u64, Session> {
    map sid | sid in sessions && !IsOver(sessions[sid], now, nowUnix) :: sessions[sid]
  }

  // --- The counters through each change ---

  lemma FromWithout(sessions: map<u64, Session>, sid: u64, ip: Ip)
    requires sid in sessions
    ensures |From(sessions - {sid}, ip)| == |From(sessions, ip)| - if sessions[sid].addr.ip == ip then 1 else 0
  {
    assert From(sessions - {sid}, ip) == From(sessions, ip) - {sid};
  }

  lemma FromWith(sessions: map<u64, Session>, sid: u64, s: Session, ip: Ip)
    requires sid !in sessions
    ensures |From(sessions[sid := s], ip)| == |From(sessions, ip)| + if s.addr.ip == ip then 1 else 0
  {
    assert From(sessions[sid := s], ip) == From(sessions, ip) + if s.addr.ip == ip then {sid} else {};
  }

  lemma FromReplaced(sessions: map<u64, Session>, sid: u64, s: Session, ip: Ip)
    requires sid in sessions
    ensures |From(sessions[sid := s], ip)| + (if sessions[sid].addr.ip == ip then 1 else 0)
            == |From(sessions, ip)| + if s.addr.ip == ip then 1 else 0
  {
    hide From;
    FromWithout(sessions, sid, ip);
    FromWith(sessions - {sid}, sid, s, ip);
    assert (sessions - {sid})[sid := s] == sessions[sid := s];
  }

  lemma RemovedBalances(b: Books, sid: u64)
    requires Balanced(b) && sid in b.sessions
    ensures Balanced(Removed(b, sid))
  {
    hide From;
    var ip, counts := b.sessions[sid].addr.ip, Removed(b, sid).counts;
    assert (b.sessions - {sid}).Keys == b.sessions.Keys - {sid};
    forall other
      ensures CountOf(counts, other) == |From(b.sessions - {sid}, other)|
    {
      FromWithout(b.sessions, sid, other);
      assert CountOf(b.counts, other) == |From(b.sessions, other)|;
    }
  }

  lemma InsertedBalances(b: Books, sid: u64, s: Session)
    requires Balanced(b) && sid !in b.sessions
    ensures Balanced(Books(b.sessions[sid := s], Incremented(b.counts, s.addr.ip), b.active + 1))
  {
    hide From;
    var counts := Incremented(b.counts, s.addr.ip);
    assert b.sessions[sid := s].Keys == b.sessions.Keys + {sid};
    forall other
      ensures CountOf(counts, other) == |From(b.sessions[sid := s], other)|
    {
      FromWith(b.sessions, sid, s, other);
      assert CountOf(b.counts, other) == |From(b.sessions, other)|;
    }
  }

  /** Changing a session, and the counters with its endpoint, is removing and inserting it. */
  lemma ReplacedBalances(b: Books, sid: u64, s: Session)
    requires Balanced(b) && sid in b.sessions
    ensures Balanced(Books(b.sessions[sid := s], Rebound(b.counts, b.sessions[sid].addr.ip, s.addr.ip), b.active))
  {
    hide Balanced;
    var ip := b.sessions[sid].addr.ip;
    RemovedBalances(b, sid);
    InsertedBalances(Removed(b, sid), sid, s);
    assert (b.sessions - {sid})[sid := s] == b.sessions[sid := s];
    assert ip == s.addr.ip ==> Incremented(Decremented(b.counts, ip), ip) == b.counts by {
      DecrementIncrement(b, sid);
    }
  }

  lemma DecrementIncrement(b: Books, sid: u64)
    requires Balanced(b) && sid in b.sessions
    ensures var ip := b.sessions[sid].addr.ip; Incremented(Decremented(b.counts, ip), ip) == b.counts
  {
    var ip := b.sessions[sid].addr.ip;
    assert sid in From(b.sessions, ip);
  }

  /** The counters add up to the number of sessions. */
  lemma {:induction false} CountersAddUp(sessions: map<u64, Session>, counts: map<Ip, nat>)
    requires CountsAgree(sessions, counts)
    ensures Total(counts) == |sessions|
    decreases |counts|
  {
    if counts == map[] {
      assert forall ip :: CountOf(counts, ip) == 0;
      assert forall sid :: sid in sessions ==> sid in From(sessions, sessions[sid].addr.ip);
    } else {
      var ip :| ip in counts;
      TotalWithout(counts, ip);
      assert (counts - {ip}).Keys == counts.Keys - {ip};
      var rest := sessions - From(sessions, ip);
      assert rest.Keys == sessions.Keys - From(sessions, ip);
      forall other
        ensures CountOf(counts - {ip}, other) == |From(rest, other)|
      {
        assert From(rest, other) == if other == ip then {} else From(sessions, other);
        assert CountOf(counts, other) == |From(sessions, other)|;
      }
      CountersAddUp(rest, counts - {ip});
      assert CountOf(counts, ip) == |From(sessions, ip)|;
    }
  }

  lemma HandledBalances(cfg: Config, b: Books, k: Contents, f: Frame)
    requires Balanced(b)
    ensures Balanced(Handled(cfg, b, k, f).books)
  {
    hide Balanced, AtGate, Rebound, Incremented;
    UpsertedBalances(cfg, b, f);
    var b' := Upserted(cfg, b, f);
    match AtGate(cfg, b, k, f).1 {
      case Rejected(_) =>
      case Passed(ticket) =>
        if ticket.Some? {
          BoundBalances(b', f, ticket.value);
        }
        if f.inner.Some? {
          IdentifiedBalances(b', f.sid, f.inner.value);
        }
    }
  }

  /** What a frame can do where authentication is required: a hello either binds its session to the
      ticket's user and the sender's endpoint, and is told so, or changes no session at all; any
      other frame at most refreshes a session under a current lease, from that session's endpoint. */
  lemma AuthenticatedEffect(cfg: Config, b: Books, k: Contents, f: Frame)
    requires RequiresAuth(cfg.mode)
    ensures var o := Handled(cfg, b, k, f);
            && (f.isHello && o.ack != Some(Bound) ==> o.books == b)
            && (f.isHello && o.ack == Some(Bound) ==>
                  && Verify(f.token, f.sid, cfg.auth, f.nowUnix).Ok?
                  && var t := Verify(f.token, f.sid, cfg.auth, f.nowUnix).ticket;
                  && o.books.sessions == b.sessions[f.sid := Session(t.user, Authenticated, Some(t.exp), f.addr, f.now)]
                  && !OwnerConflict(b, f.sid, t) && t.jti in o.cache.seen)
            && (!f.isHello ==>
                  || o.books == b
                  || (Welcome(b, f) && b.sessions[f.sid].addr == f.addr
                      && o.books == b.(sessions := b.sessions[f.sid := b.sessions[f.sid].(lastActivity := f.now)])))
  {
    hide Verify, Limited, Pruned, Decremented, Incremented;
    if Verify(f.token, f.sid, cfg.auth, f.nowUnix).Ok? {
      VerifiedTicket(f.token, f.sid, cfg.auth, f.nowUnix, f.sid);
    }
  }

  lemma UpsertedBalances(cfg: Config, b: Books, f: Frame)
    requires Balanced(b)
    ensures Balanced(Upserted(cfg, b, f))
  {
    hide Balanced, Rebound, Incremented;
    if f.sid in b.sessions {
      ReplacedBalances(b, f.sid, b.sessions[f.sid].(addr := f.addr, lastActivity := f.now));
    } else {
      InsertedBalances(b, f.sid, NewSession(f));
    }
  }

  lemma BoundBalances(b: Books, f: Frame, t: Ticket)
    requires Balanced(b)
    ensures Balanced(BoundTo(b, f, t))
  {
    hide Balanced, Rebound;
    if f.sid in b.sessions {
      ReplacedBalances(b, f.sid, BoundTo(b, f, t).sessions[f.sid]);
    }
  }

  lemma IdentifiedBalances(b: Books, sid: u64, name: string)
    requires Balanced(b)
    ensures Balanced(Identified(b, sid, name))
  {
    hide Balanced;
    if sid in b.sessions {
      ReplacedBalances(b, sid, b.sessions[sid].(user := name));
    }
  }

  lemma CarriedBalances(b: Books, sid: u64, now: nat)
    requires Balanced(b)
    ensures Balanced(Carried(b, sid, now))
  {
    hide Balanced;
    if sid in b.sessions {
      ReplacedBalances(b, sid, b.sessions[sid].(lastActivity := now));
    }
  }

  // --- The relay's state, updated in place ---

  class Relay {
    const cfg: Config
    var sessions: map<u64, Session>
    var counts: map<Ip, nat>
    var active: int
    const cache: Cache

    function Value(): Books
      reads this
    {
      Books(sessions, counts, active)
    }

    ghost predicate Valid()
      reads this
    {
      Balanced(Value())
    }

    constructor (cfg: Config)
      ensures this.cfg == cfg && Value() == Books(map[], map[], 0) && Valid()
      ensures fresh(cache) && cache.Value() == Contents(map[], 0)
    {
      this.cfg := cfg;
      sessions, counts, active := map[], map[], 0;
      cache := new Cache();
      new;
      forall ip
        ensures From(sessions, ip) == {}
      {
      }
    }

    method Increment(ip: Ip)
      modifies this`counts
      ensures counts == Incremented(old(counts), ip)
    {
      if ip !in counts {
        counts := counts[ip := 0];
      }
      counts := counts[ip := counts[ip] + 1];
    }

    method Decrement(ip: Ip)
      modifies this`counts
      ensures counts == Decremented(old(counts), ip)
    {
      if ip in counts {
        if counts[ip] > 1 {
          counts := counts[ip := counts[ip] - 1];
          return;
        }
      }
      counts := counts - {ip};
    }

    method Rebind(before: Ip, after: Ip)
      modifies this`counts
      ensures counts == Rebound(old(counts), before, after)
    {
      if before == after {
        return;
      }
      Decrement(before);
      Increment(after);
    }

    /** The checks before the session map is touched. */
    method CheckFrame(f: Frame) returns (gate: Gate)
      modifies cache
      ensures (cache.Value(), gate) == AtGate(cfg, Value(), old(cache.Value()), f)
    {
      var ticket: Option<Ticket> := None;
      if RequiresAuth(cfg.mode) && f.isHello {
        if !f.pendingOk {
          return Rejected(None);
        }
        var verified := Verify(f.token, f.sid, cfg.auth, f.nowUnix);
        if verified.Err? {
          return Rejected(Some(Failed(verified.error)));
        }
        var unused := cache.AcceptOnce(verified.ticket.jti, verified.ticket.exp, f.nowUnix);
        if !unused {
          return Rejected(Some(Failed(Replay)));
        }
        ticket := Some(verified.ticket);
      }
      var ack: Option<Ack> := None;
      if RequiresAuth(cfg.mode) && ticket.None? && f.sid in sessions && sessions[f.sid].addr != f.addr && f.pendingOk {
        ack := Some(Reauthenticate);
      }
      if RequiresAuth(cfg.mode) && ticket.None? {
        if f.sid !in sessions || !AuthIsCurrent(sessions[f.sid], f.nowUnix)
           || !SourceAllowed(sessions[f.sid], true, f.addr, false) {
          return Rejected(ack);
        }
      }
      if !f.packetOk {
        return Rejected(ack);
      }
      if f.sid !in sessions {
        if |sessions| >= MAX_SESSIONS_TOTAL {
          return Rejected(ack);
        }
        if CountOf(counts, f.addr.ip) >= MAX_SESSIONS_PER_SRC_IP || !f.newSessionOk {
          return Rejected(ack);
        }
      }
      return Passed(ticket);
    }

    method Upsert(f: Frame)
      modifies this
      ensures Value() == Upserted(cfg, old(Value()), f)
    {
      if f.sid in sessions {
        var s := sessions[f.sid];
        if !RequiresAuth(cfg.mode) || (!f.isHello && s.addr == f.addr) {
          Rebind(s.addr.ip, f.addr.ip);
          sessions := sessions[f.sid := s.(addr := f.addr, lastActivity := f.now)];
        }
      } else {
        sessions := sessions[f.sid := NewSession(f)];
        Increment(f.addr.ip);
        active := active + 1;
      }
    }

    /** A received frame, from the ticket check to the session's new owner or name. */
    method Receive(f: Frame) returns (ack: Option<Ack>, goesOn: bool)
      requires Valid()
      modifies this, cache
      ensures Valid()
      ensures Outcome(Value(), cache.Value(), ack, goesOn) == Handled(cfg, old(Value()), old(cache.Value()), f)
    {
      hide Balanced, AtGate, Upserted, Rebound;
      HandledBalances(cfg, Value(), cache.Value(), f);
      ack, goesOn := None, false;
      var gate := CheckFrame(f);
      if gate.Rejected? {
        return gate.ack, false;
      }
      var allowed := GoesOn(cfg, Value(), f);
      Upsert(f);
      if f.isHello {
        if cfg.mode == Off {
          return Some(Disabled), false;
        }
        if gate.ticket.None? {
          return Some(Failed(BadFormat)), false;
        }
        var t := gate.ticket.value;
        if f.sid in sessions && sessions[f.sid].auth == Authenticated && sessions[f.sid].user != t.user {
          return Some(Failed(OwnerMismatch)), false;
        }
        if f.sid in sessions {
          Rebind(sessions[f.sid].addr.ip, f.addr.ip);
          sessions := sessions[f.sid := BoundSession(f, t)];
        }
        return Some(Bound), false;
      }
      goesOn := allowed;
      if goesOn && f.inner.Some? {
        if f.sid in sessions && sessions[f.sid].auth != Authenticated {
          sessions := sessions[f.sid := sessions[f.sid].(user := f.inner.value)];
        }
      }
    }

    /** A response under a current lease refreshes the session; a lapsed one carries nothing. */
    method Carry(sid: u64, now: nat, nowUnix: u64) returns (carried: bool)
      requires Valid()
      modifies this`sessions
      ensures Valid()
      ensures carried <==> sid in old(sessions) && LeaseIsCurrent(old(sessions)[sid], nowUnix)
      ensures Value() == if carried then Carried(old(Value()), sid, now) else old(Value())
    {
      hide Balanced;
      CarriedBalances(Value(), sid, now);
      carried := sid in sessions && LeaseIsCurrent(sessions[sid], nowUnix);
      if carried {
        sessions := sessions[sid := sessions[sid].(lastActivity := now)];
      }
    }

    /** Remove the sessions whose lease is long over or that fell silent. */
    method Cleanup(now: nat, nowUnix: u64)
      requires Valid()
      modifies this
      ensures Valid()
      ensures sessions == Surviving(old(sessions), now, nowUnix)
    {
      hide Balanced, IsOver;
      var todo := sessions.Keys;
      while todo != {}
        invariant Balanced(Value())
        invariant todo <= sessions.Keys <= old(sessions).Keys
        invariant forall sid :: sid in sessions ==> sessions[sid] == old(sessions)[sid]
        invariant forall sid :: sid in old(sessions) && sid !in todo ==>
                    (sid in sessions <==> !IsOver(old(sessions)[sid], now, nowUnix))
        decreases |todo|
      {
        var sid :| sid in todo;
        if IsOver(sessions[sid], now, nowUnix) {
          RemovedBalances(Value(), sid);
          Decrement(sessions[sid].addr.ip);
          active := active - 1;
          sessions := sessions - {sid};
        }
        todo := todo - {sid};
      }
    }
  }
}
