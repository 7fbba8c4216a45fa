/** The budget itself: in enforce mode no account is admitted more than its limits per window, in
    any interleaving and with timestamps in any order, across eviction and re-creation. */
module BudgetBounds {
  import opened Bytes
  import opened AccountBudget
  import opened BudgetThreads

  // --- What was admitted, per account and window ---

  predicate In(x: Charge, user: string, second: u64) {
    x.user == user && x.second == second
  }

  function Packets(log: seq<Charge>, user: string, second: u64): nat {
    if log == [] then 0
    else Packets(log[..|log| - 1], user, second) + if In(log[|log| - 1], user, second) then 1 else 0
  }

  function Octets(log: seq<Charge>, user: string, second: u64): nat {
    if log == [] then 0
    else Octets(log[..|log| - 1], user, second)
         + if In(log[|log| - 1], user, second) then log[|log| - 1].bytes else 0
  }

  predicate Opens(x: Charge, user: string, minute: u64) {
    x.user == user && x.minute == minute && x.newFlow
  }

  function NewFlows(log: seq<Charge>, user: string, minute: u64): nat {
    if log == [] then 0
    else NewFlows(log[..|log| - 1], user, minute) + if Opens(log[|log| - 1], user, minute) then 1 else 0
  }

  lemma LogAppend(log: seq<Charge>, x: Charge, user: string, second: u64, minute: u64)
    ensures Packets(log + [x], user, second) == Packets(log, user, second) + if In(x, user, second) then 1 else 0
    ensures Octets(log + [x], user, second) == Octets(log, user, second) + if In(x, user, second) then x.bytes else 0
    ensures NewFlows(log + [x], user, minute) == NewFlows(log, user, minute) + if Opens(x, user, minute) then 1 else 0
  {
    assert (log + [x])[..|log|] == log;
  }

  lemma {:induction false} NothingIn(log: seq<Charge>, user: string, second: u64, minute: u64)
    ensures (forall i :: 0 <= i < |log| ==> !In(log[i], user, second))
            ==> Packets(log, user, second) == 0 && Octets(log, user, second) == 0
    ensures (forall i :: 0 <= i < |log| ==> !Opens(log[i], user, minute)) ==> NewFlows(log, user, minute) == 0
  {
    if log != [] {
      NothingIn(log[..|log| - 1], user, second, minute);
    }
  }

  // --- The invariant ---

  predicate LimitsPackets(p: Policy) { p.enforce && 0 < p.packets < U64_MAX }
  predicate LimitsBytes(p: Policy) { p.enforce && 0 < p.bytes < U64_MAX }
  predicate LimitsFlows(p: Policy) { p.enforce && 0 < p.newFlows }
  predicate LimitsAny(p: Policy) { LimitsPackets(p) || LimitsBytes(p) || LimitsFlows(p) }

  /** Every charge stays within the limits. */
  ghost predicate WithinBudget(p: Policy, log: seq<Charge>) {
    && (LimitsPackets(p) ==> forall u, e :: Packets(log, u, e) <= p.packets)
    && (LimitsBytes(p) ==> forall u, e :: Octets(log, u, e) <= p.bytes)
    && (LimitsFlows(p) ==> forall u, m :: NewFlows(log, u, m) <= p.newFlows)
  }

  predicate Pending(pc: Pc) {
    pc.Reserving? || pc.Reserved?
  }

  /** The packet that is charged to account `id` but not yet admitted or given up, if any. */
  function PendingEvent(s: State, id: nat): Option<Event>
    requires id < |s.accounts|
  {
    var lock := s.accounts[id].lock;
    if lock.Packet? && lock.thread < |s.threads| && Pending(s.threads[lock.thread]) && s.threads[lock.thread].id == id
    then Some(s.threads[lock.thread].ev) else None
  }

  function PacketsPending(o: Option<Event>): nat {
    if o.Some? then 1 else 0
  }

  function OctetsPending(o: Option<Event>): nat {
    if o.Some? then o.value.bytes else 0
  }

  /** The windows cover the log: what was admitted in the current windows, and what is about to be,
      is in the counts, and a pending packet passed the limits. */
  predicate Covers(p: Policy, w: Windows, log: seq<Charge>, user: string, pending: Option<Event>) {
    && (LimitsPackets(p) ==>
          && Packets(log, user, w.second) + PacketsPending(pending) <= w.counts.packetsIn + w.counts.packetsOut
          && (pending.Some? ==> w.counts.packetsIn + w.counts.packetsOut <= p.packets))
    && (LimitsBytes(p) ==>
          && Octets(log, user, w.second) + OctetsPending(pending) <= w.counts.bytesIn + w.counts.bytesOut
          && (pending.Some? ==> w.counts.bytesIn + w.counts.bytesOut <= p.bytes))
    && (LimitsFlows(p) ==>
          && NewFlows(log, user, w.minute) <= w.newFlows
          && (pending.Some? ==> w.newFlows < p.newFlows))
  }

  /** No charge of this user is later than the account's current second. */
  predicate NoLater(log: seq<Charge>, user: string, second: u64) {
    forall i :: 0 <= i < |log| && log[i].user == user ==> log[i].second <= second
  }

  predicate AccountBound(p: Policy, s: State, id: nat)
    requires id < |s.accounts|
  {
    var a := s.accounts[id];
    a.alive ==>
      && a.w.minute == a.w.second / 60
      && a.w.second <= a.lastUsed
      && (LimitsAny(p) ==> NoLater(s.log, a.user, a.w.second))
      && Covers(p, a.w, s.log, a.user, PendingEvent(s, id))
  }

  predicate SeenInTime(s: State, pc: Pc) {
    !(pc.Idle? || pc.Got? || pc.Done?) && pc.id < |s.accounts| ==> pc.ev.now <= s.accounts[pc.id].lastUsed
  }

  ghost predicate BoundInv(c: Config, s: State) {
    && Structure(s)
    && (forall i :: 0 <= i < |s.log| ==> s.log[i].minute == s.log[i].second / 60)
    && (forall id :: 0 <= id < |s.accounts| ==> AccountBound(c.policy, s, id))
    && (forall t :: 0 <= t < |s.threads| ==> SeenInTime(s, s.threads[t]))
    && WithinBudget(c.policy, s.log)
  }

  /** A charge lies in windows that are over at `now`: its minute where new flows are limited, and
      otherwise its second. */
  predicate IsOver(p: Policy, x: Charge, now: u64) {
    if LimitsFlows(p) then x.minute < now / 60 else LimitsAny(p) ==> x.second < now
  }

  predicate AllOver(p: Policy, log: seq<Charge>, user: string, now: u64) {
    forall i :: 0 <= i < |log| && log[i].user == user ==> IsOver(p, log[i], now)
  }

  /** The step puts an account into the table. */
  ghost predicate Creates(c: Config, s: State, step: Step)
    requires Shape(s)
  {
    step.Start? && Enabled(c, s, step) && step.ev.user !in s.table && |s.table| < c.accountLimit
  }

  /** An account is created only when the windows of everything charged to its user before are over. */
  ghost predicate CreatedLater(c: Config, s: State, step: Step)
    requires Shape(s)
  {
    Creates(c, s, step) ==> AllOver(c.policy, s.log, step.ev.user, step.ev.now)
  }

  // --- One account under its lock ---

  lemma SatAddBelow(a: u64, b: u64, limit: u64)
    requires SatAdd(a, b) <= limit < U64_MAX
    ensures a + b <= limit
  {
  }

  /** Rolling to a later window starts from an empty log. */
  lemma RollCovers(p: Policy, w: Windows, log: seq<Charge>, user: string, now: u64)
    requires w.minute == w.second / 60 && (LimitsAny(p) ==> NoLater(log, user, w.second))
    requires forall i :: 0 <= i < |log| ==> log[i].minute == log[i].second / 60
    requires Covers(p, w, log, user, None)
    ensures var r := Rolled(w, now);
            && r.minute == r.second / 60 && Covers(p, r, log, user, None)
            && (LimitsAny(p) ==> NoLater(log, user, r.second))
  {
    var r := Rolled(w, now);
    RolledFacts(w, now);
    NothingIn(log, user, r.second, r.minute);
  }

  /** A packet that is not refused is covered together with all that went before. */
  lemma DecideCovers(p: Policy, w: Windows, log: seq<Charge>, user: string, ev: Event)
    requires Covers(p, w, log, user, None)
    ensures var (d, verdict) := Decide(p, w, ev);
            if verdict == Refuse then Covers(p, d, log, user, None)
            else
              && (LimitsPackets(p) ==>
                    Packets(log, user, d.second) + 1 <= d.counts.packetsIn + d.counts.packetsOut <= p.packets)
              && (LimitsBytes(p) ==>
                    Octets(log, user, d.second) + ev.bytes <= d.counts.bytesIn + d.counts.bytesOut <= p.bytes)
              && (LimitsFlows(p) ==>
                    NewFlows(log, user, d.minute) <= d.newFlows && (verdict == NeedSlot ==> d.newFlows < p.newFlows))
  {
    hide Packets, Octets, NewFlows;
    var (d, verdict) := Decide(p, w, ev);
    DecideFacts(p, w, ev);
    if verdict != Refuse && p.enforce {
      if LimitsPackets(p) {
        SatAddBelow(d.counts.packetsIn, d.counts.packetsOut, p.packets);
      }
      if LimitsBytes(p) {
        SatAddBelow(d.counts.bytesIn, d.counts.bytesOut, p.bytes);
      }
    }
  }

  // --- Steps of the acting account ---

  /** The log is unchanged or has one more charge, for this user's current windows. */
  predicate LogStep(log: seq<Charge>, log': seq<Charge>, user: string, w: Windows) {
    || log' == log
    || (&& |log'| == |log| + 1 && log' == log + [log'[|log|]]
        && log'[|log|].user == user && log'[|log|].second == w.second && log'[|log|].minute == w.minute)
  }

  /** Admitting a covered packet keeps the log within the limits. */
  lemma AdmitKeepsBudget(p: Policy, w: Windows, log: seq<Charge>, x: Charge)
    requires WithinBudget(p, log) && x.second == w.second && x.minute == w.minute
    requires LimitsPackets(p) ==>
               Packets(log, x.user, w.second) + 1 <= w.counts.packetsIn + w.counts.packetsOut <= p.packets
    requires LimitsBytes(p) ==>
               Octets(log, x.user, w.second) + x.bytes <= w.counts.bytesIn + w.counts.bytesOut <= p.bytes
    requires LimitsFlows(p) ==> NewFlows(log, x.user, w.minute) <= w.newFlows && (x.newFlow ==> w.newFlows < p.newFlows)
    ensures WithinBudget(p, log + [x])
    ensures Covers(p, if x.newFlow then w.(newFlows := w.newFlows + 1) else w, log + [x], x.user, None)
  {
    hide Packets, Octets, NewFlows;
    forall u, e
      ensures LimitsPackets(p) ==> Packets(log + [x], u, e) <= p.packets
    {
      LogAppend(log, x, u, e, 0);
    }
    forall u, e
      ensures LimitsBytes(p) ==> Octets(log + [x], u, e) <= p.bytes
    {
      LogAppend(log, x, u, e, 0);
    }
    forall u, m
      ensures LimitsFlows(p) ==> NewFlows(log + [x], u, m) <= p.newFlows
    {
      LogAppend(log, x, u, 0, m);
    }
    LogAppend(log, x, x.user, w.second, w.minute);
  }

  /** What a packet thread's step keeps for its own account. */
  ghost predicate ActingOk(c: Config, s: State, s': State, id: nat)
    requires id < |s.accounts| && id < |s'.accounts|
  {
    && AccountBound(c.policy, s', id)
    && WithinBudget(c.policy, s'.log)
    && LogStep(s.log, s'.log, s.accounts[id].user, s'.accounts[id].w)
  }

  lemma LockBound(c: Config, s: State, t: nat)
    requires BoundInv(c, s) && Shape(s) && Enabled(c, s, Lock(t))
    ensures ActingOk(c, s, Apply(c, s, Lock(t)), s.threads[t].id)
  {
    hide AccountInv, TableOk, KeeperInv, InUse;
    hide Rolled, Packets, Octets, NewFlows, WithinBudget;
    var id, ev := s.threads[t].id, s.threads[t].ev;
    assert ThreadInv(s, t) && AccountBound(c.policy, s, id) && SeenInTime(s, s.threads[t]);
    var a := s.accounts[id];
    RollCovers(c.policy, a.w, s.log, a.user, ev.now);
    RolledFacts(a.w, ev.now);
  }

  lemma JudgeBound(c: Config, s: State, t: nat)
    requires BoundInv(c, s) && Shape(s) && Enabled(c, s, Judge(t))
    ensures ActingOk(c, s, Apply(c, s, Judge(t)), s.threads[t].id)
  {
    hide Judged, BoundInv, ActingOk;
    assert Apply(c, s, Judge(t)) == Judged(c, s, t);
    JudgedBound(c, s, t);
  }

  lemma JudgedBound(c: Config, s: State, t: nat)
    requires BoundInv(c, s) && Shape(s) && t < |s.threads| && s.threads[t].Ready?
    ensures ActingOk(c, s, Judged(c, s, t), s.threads[t].id)
  {
    hide Decide, Packets, Octets, NewFlows, WithinBudget, AccountInv, KeeperInv, TableOk, InUse;
    var id, ev := s.threads[t].id, s.threads[t].ev;
    assert ThreadInv(s, t) && AccountBound(c.policy, s, id);
    var a := s.accounts[id];
    DecideCovers(c.policy, a.w, s.log, a.user, ev);
    DecideFacts(c.policy, a.w, ev);
    var (d, verdict) := Decide(c.policy, a.w, ev);
    if verdict == Admit {
      AdmitKeepsBudget(c.policy, d, s.log, ChargeFor(d, ev, false));
    }
  }

  lemma ReserveBound(c: Config, s: State, t: nat)
    requires BoundInv(c, s) && Shape(s) && Enabled(c, s, Reserve(t))
    ensures ActingOk(c, s, Apply(c, s, Reserve(t)), s.threads[t].id)
  {
    hide AccountInv, TableOk, KeeperInv, InUse;
    hide Packets, Octets, NewFlows;
    assert ThreadInv(s, t) && AccountBound(c.policy, s, s.threads[t].id);
  }

  lemma TrackBound(c: Config, s: State, t: nat)
    requires BoundInv(c, s) && Shape(s) && Enabled(c, s, Track(t))
    ensures ActingOk(c, s, Apply(c, s, Track(t)), s.threads[t].id)
  {
    hide AccountInv, TableOk, KeeperInv, InUse;
    hide Packets, Octets, NewFlows, WithinBudget;
    var id, ev := s.threads[t].id, s.threads[t].ev;
    assert ThreadInv(s, t) && AccountBound(c.policy, s, id);
    var w := s.accounts[id].w;
    assert PendingEvent(s, id) == Some(ev);
    AdmitKeepsBudget(c.policy, w, s.log, ChargeFor(w, ev, true));
    assert Covers(c.policy, Tracked(w, ev.flow.value), s.log + [ChargeFor(w, ev, true)], ev.user, None);
  }

  lemma QuietBound(c: Config, s: State, step: Step)
    requires BoundInv(c, s) && Shape(s) && Enabled(c, s, step) && (step.Touch? || step.PayStale? || step.Finish?)
    ensures ActingOk(c, s, Apply(c, s, step), s.threads[step.t].id)
  {
    hide AccountInv, TableOk, KeeperInv, InUse;
    hide Packets, Octets, NewFlows, WithinBudget, Covers;
    assert ThreadInv(s, step.t) && AccountBound(c.policy, s, s.threads[step.t].id);
  }

  // --- Steps and the other accounts ---

  /** A charge for one user is invisible to the windows of another. */
  lemma OtherUserCovers(p: Policy, w: Windows, log: seq<Charge>, log': seq<Charge>, user: string, other: string,
                        acting: Windows, pending: Option<Event>)
    requires LogStep(log, log', other, acting) && user != other
    requires Covers(p, w, log, user, pending)
    ensures Covers(p, w, log', user, pending)
    ensures NoLater(log, user, w.second) ==> NoLater(log', user, w.second)
  {
    hide Packets, Octets, NewFlows;
    if log' != log {
      LogAppend(log, log'[|log|], user, w.second, w.minute);
    }
  }

  lemma PacketKeepsBounds(c: Config, s: State, step: Step)
    requires BoundInv(c, s) && Shape(s) && Enabled(c, s, step) && !ByKeeper(step) && !step.Start?
    requires ActingOk(c, s, Apply(c, s, step), s.threads[step.t].id)
    ensures BoundInv(c, Apply(c, s, step))
  {
    hide Apply, Packets, Octets, NewFlows, WithinBudget, Covers, NoLater, InUse, TableOk, KeeperInv;
    var s', t := Apply(c, s, step), step.t;
    PacketFrame(c, s, step);
    PacketKeepsStructure(c, s, step);
    PacketSeenInTime(c, s, step);
    assert ThreadInv(s, t) && AccountBound(c.policy, s, s.threads[t].id);
    var id := s.threads[t].id;
    forall k | 0 <= k < |s'.accounts|
      ensures AccountBound(c.policy, s', k)
    {
      var a := s.accounts[k];
      if k != id && a.alive {
        assert AccountInv(s, k) && AccountInv(s, id) && AccountBound(c.policy, s, k);
        OtherUserCovers(c.policy, a.w, s.log, s'.log, a.user, s.accounts[id].user,
                        s'.accounts[id].w, PendingEvent(s, k));
        assert PendingEvent(s', k) == PendingEvent(s, k);
      }
    }
  }

  lemma PacketSeenInTime(c: Config, s: State, step: Step)
    requires BoundInv(c, s) && Shape(s) && Enabled(c, s, step) && !ByKeeper(step) && !step.Start?
    ensures var s' := Apply(c, s, step); forall u :: 0 <= u < |s'.threads| ==> SeenInTime(s', s'.threads[u])
  {
    hide Apply, WithinBudget, AccountBound, TableOk, KeeperInv, AccountInv, InUse;
    var s' := Apply(c, s, step);
    PacketFrame(c, s, step);
    assert SeenInTime(s, s.threads[step.t]);
    ActingSeenInTime(c, s, step);
    forall u | 0 <= u < |s'.threads|
      ensures SeenInTime(s', s'.threads[u])
    {
      assert SeenInTime(s, s.threads[u]);
    }
  }

  lemma ActingSeenInTime(c: Config, s: State, step: Step)
    requires Shape(s) && Enabled(c, s, step) && !ByKeeper(step) && !step.Start?
    requires SeenInTime(s, s.threads[step.t])
    ensures var s', t := Apply(c, s, step), step.t;
            && |s'.threads| == |s.threads| && |s'.accounts| == |s.accounts| && SeenInTime(s', s'.threads[t])
            && s.accounts[s.threads[t].id].lastUsed <= s'.accounts[s.threads[t].id].lastUsed
  {
    hide Rolled, Decide, NoSlot, Tracked, IsStale, ChargeFor, TableOk;
    assert ThreadOk(s, s.threads[step.t]);
  }

  /** A re-created account opens windows later than everything charged before its eviction. */
  lemma StartKeepsBounds(c: Config, s: State, step: Step)
    requires BoundInv(c, s) && Shape(s) && Enabled(c, s, step) && step.Start? && CreatedLater(c, s, step)
    ensures BoundInv(c, Apply(c, s, step))
  {
    hide Packets, Octets, NewFlows, WithinBudget, Covers;
    var s', ev := Apply(c, s, step), step.ev;
    StartKeepsStructure(c, s, step);
    forall k | 0 <= k < |s'.accounts|
      ensures AccountBound(c.policy, s', k)
    {
      if k < |s.accounts| {
        assert AccountBound(c.policy, s, k);
        assert PendingEvent(s', k) == PendingEvent(s, k);
      } else {
        NewAccountCovers(c.policy, s.log, ev.user, ev.now);
      }
    }
    forall u | 0 <= u < |s'.threads|
      ensures SeenInTime(s', s'.threads[u])
    {
      assert SeenInTime(s, s.threads[u]) && ThreadInv(s, u);
    }
  }

  lemma NewAccountCovers(p: Policy, log: seq<Charge>, user: string, now: u64)
    requires forall i :: 0 <= i < |log| ==> log[i].minute == log[i].second / 60
    requires AllOver(p, log, user, now)
    ensures Covers(p, NewWindows(now), log, user, None)
    ensures LimitsAny(p) ==> NoLater(log, user, now)
  {
    NothingIn(log, user, now, now / 60);
  }

  lemma EvictKeepsBounds(c: Config, s: State, step: Step)
    requires BoundInv(c, s) && Shape(s) && Enabled(c, s, step) && step.Evict?
    ensures BoundInv(c, Apply(c, s, step))
  {
    hide Packets, Octets, NewFlows, WithinBudget, Covers, InUse;
    var s' := Apply(c, s, step);
    EvictKeepsStructure(c, s, step);
    forall k | 0 <= k < |s'.accounts|
      ensures AccountBound(c.policy, s', k)
    {
      assert AccountBound(c.policy, s, k);
      assert PendingEvent(s', k) == PendingEvent(s, k);
    }
    forall u | 0 <= u < |s'.threads|
      ensures SeenInTime(s', s'.threads[u])
    {
      assert SeenInTime(s, s.threads[u]);
    }
  }

  lemma SweepKeepsBounds(c: Config, s: State, step: Step)
    requires BoundInv(c, s) && Shape(s) && Enabled(c, s, step) && ByKeeper(step) && !step.Evict?
    ensures BoundInv(c, Apply(c, s, step))
  {
    hide Packets, Octets, NewFlows, WithinBudget, LiveFlows, InUse;
    var s' := Apply(c, s, step);
    SweepKeepsStructure(c, s, step);
    forall k | 0 <= k < |s'.accounts|
      ensures AccountBound(c.policy, s', k)
    {
      assert AccountBound(c.policy, s, k);
      assert PendingEvent(s', k) == PendingEvent(s, k);
    }
    forall u | 0 <= u < |s'.threads|
      ensures SeenInTime(s', s'.threads[u])
    {
      assert SeenInTime(s, s.threads[u]);
    }
  }

  lemma ApplyKeepsBounds(c: Config, s: State, step: Step)
    requires BoundInv(c, s) && Shape(s) && Enabled(c, s, step) && CreatedLater(c, s, step)
    ensures BoundInv(c, Apply(c, s, step))
  {
    hide BoundInv, Apply, ActingOk, Shape;
    match step {
      case Start(_, _) => StartKeepsBounds(c, s, step);
      case Evict => EvictKeepsBounds(c, s, step);
      case Lock(t) => LockBound(c, s, t); PacketKeepsBounds(c, s, step);
      case Judge(t) => JudgeBound(c, s, t); PacketKeepsBounds(c, s, step);
      case Reserve(t) => ReserveBound(c, s, t); PacketKeepsBounds(c, s, step);
      case Track(t) => TrackBound(c, s, t); PacketKeepsBounds(c, s, step);
      case Touch(_) => QuietBound(c, s, step); PacketKeepsBounds(c, s, step);
      case PayStale(_) => QuietBound(c, s, step); PacketKeepsBounds(c, s, step);
      case Finish(_) => QuietBound(c, s, step); PacketKeepsBounds(c, s, step);
      case _ => SweepKeepsBounds(c, s, step);
    }
  }

  // --- Every interleaving ---

  /** The run creates accounts only when the windows of their users' earlier charges are over. */
  ghost predicate CreatedLaterAlong(c: Config, threads: nat, steps: seq<Step>) {
    forall n :: 0 <= n < |steps| ==> CreatedLater(c, Reach(c, threads, steps[..n]), steps[n])
  }

  lemma PrefixAlong(c: Config, threads: nat, steps: seq<Step>)
    requires steps != [] && CreatedLaterAlong(c, threads, steps)
    ensures CreatedLaterAlong(c, threads, steps[..|steps| - 1])
    ensures CreatedLater(c, Reach(c, threads, steps[..|steps| - 1]), steps[|steps| - 1])
  {
    hide Reach, CreatedLater;
    var before := steps[..|steps| - 1];
    forall n | 0 <= n < |before|
      ensures CreatedLater(c, Reach(c, threads, before[..n]), before[n])
    {
      assert before[..n] == steps[..n];
    }
  }

  lemma {:induction false} ReachKeepsBounds(c: Config, threads: nat, steps: seq<Step>)
    requires CreatedLaterAlong(c, threads, steps)
    ensures BoundInv(c, Reach(c, threads, steps))
  {
    if steps != [] {
      hide Structure, Apply, Enabled, BoundInv, Shape, CreatedLater, CreatedLaterAlong;
      PrefixAlong(c, threads, steps);
      ReachKeepsBounds(c, threads, steps[..|steps| - 1]);
      var s, step := Reach(c, threads, steps[..|steps| - 1]), steps[|steps| - 1];
      if Enabled(c, s, step) {
        ApplyKeepsBounds(c, s, step);
      }
    }
  }

  /** In enforce mode, whatever the interleaving and the order of timestamps, no account is admitted
      more than `packets` packets or `bytes` bytes in a second, nor more than `newFlows` new flows
      in a minute, as long as an evicted account is created again only when the windows of its
      earlier charges are over. */
  lemma EveryRunStaysWithinBudget(c: Config, threads: nat, steps: seq<Step>, user: string, second: u64, minute: u64)
    requires CreatedLaterAlong(c, threads, steps) && c.policy.enforce
    ensures var p, log := c.policy, Reach(c, threads, steps).log;
            && (0 < p.packets < U64_MAX ==> Packets(log, user, second) <= p.packets)
            && (0 < p.bytes < U64_MAX ==> Octets(log, user, second) <= p.bytes)
            && (0 < p.newFlows ==> NewFlows(log, user, minute) <= p.newFlows)
  {
    ReachKeepsBounds(c, threads, steps);
  }
}
