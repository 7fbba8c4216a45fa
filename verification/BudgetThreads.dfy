/** Account budgets under concurrency.  Packet threads run `event`, one maintenance thread runs
    `maintain`; a step below is one map operation, one lock operation with the work done under the
    lock, or one operation on the shared atomic slot counter. */
module BudgetThreads {
  import opened Bytes
  import opened AccountBudget

  datatype Config = Config(policy: Policy, accountLimit: nat, flowLimit: nat)

  datatype Holder = Nobody | Packet(thread: nat) | Maintenance

  /** A reference-counted account.  `alive` turns false when the last reference is dropped. */
  datatype Account = Account(user: string, alive: bool, lastUsed: u64, lock: Holder, w: Windows)

  /** Where a packet thread is in `event`.  Every state but Idle holds a reference to account `id`;
      the states after Touched also hold its lock, except Done. */
  datatype Pc =
    | Idle
    | Got(id: nat, ev: Event)        // account() returned
    | Touched(id: nat, ev: Event)    // last_used raised
    | Owing(id: nat, ev: Event)      // a stale flow was removed, its slot not yet given back
    | Ready(id: nat, ev: Event)      // windows rolled
    | Reserving(id: nat, ev: Event)  // charged and not refused, a new flow, no slot yet
    | Reserved(id: nat, ev: Event)   // slot taken, flow not yet inserted
    | Done(id: nat)

  /** Where maintenance is.  Eviction reads the account's `last_used` first and its reference count
      second, and holds the account's table entry in between: threads that have the account go on,
      others cannot get it.  `mark` is the length of the log at the first read. */
  datatype Keeper =
    | Resting
    | Suspecting(user: string, now: u64, mark: nat)
    | Dropping(n: nat)
    | Paying(id: nat, n: nat)

  /** One admitted packet: the account, the windows it was charged to, and whether it opened a flow. */
  datatype Charge = Charge(user: string, second: u64, minute: u64, bytes: u64, newFlow: bool)

  datatype State = State(
    table: map<string, nat>,
    accounts: seq<Account>,
    threads: seq<Pc>,
    keeper: Keeper,
    slots: int,
    evictedAt: map<string, u64>,   // history: the time of the pass that last evicted each user
    log: seq<Charge>)              // history: admitted packets

  datatype Step =
    | Start(t: nat, ev: Event)
    | Touch(t: nat)
    | Lock(t: nat)
    | PayStale(t: nat)
    | Judge(t: nat)
    | Reserve(t: nat)
    | Track(t: nat)
    | Finish(t: nat)
    | Suspect(user: string, now: u64)
    | Evict
    | PayDropped
    | Sweep(user: string, now: u64)
    | PaySwept

  function Init(threads: nat): State {
    State(map[], [], seq(threads, i => Idle), Resting, 0, map[], [])
  }

  predicate Refers(pc: Pc, id: nat) {
    pc != Idle && pc.id == id
  }

  /** `Arc::strong_count(account) > 1` */
  predicate InUse(s: State, id: nat) {
    exists t :: 0 <= t < |s.threads| && Refers(s.threads[t], id)
  }

  predicate TableOk(s: State) {
    forall u :: u in s.table ==> s.table[u] < |s.accounts|
  }

  predicate ThreadOk(s: State, pc: Pc) {
    pc == Idle || pc.id < |s.accounts|
  }

  predicate Shape(s: State) {
    && TableOk(s)
    && (forall t :: 0 <= t < |s.threads| ==> ThreadOk(s, s.threads[t]))
    && (s.keeper.Paying? ==> s.keeper.id < |s.accounts|)
  }

  predicate Suspects(k: Keeper, user: string) {
    k.Suspecting? && k.user == user
  }

  /** Whether the second read lets the eviction go through. */
  predicate Evicts(s: State) {
    s.keeper.Suspecting? && s.keeper.user in s.table && !InUse(s, s.table[s.keeper.user])
  }

  ghost predicate Enabled(c: Config, s: State, step: Step)
    requires Shape(s)
  {
    match step
    case Start(t, ev) => t < |s.threads| && s.threads[t].Idle? && !Suspects(s.keeper, ev.user)
    case Touch(t) => t < |s.threads| && s.threads[t].Got?
    case Lock(t) => t < |s.threads| && s.threads[t].Touched? && s.accounts[s.threads[t].id].lock == Nobody
    case PayStale(t) => t < |s.threads| && s.threads[t].Owing?
    case Judge(t) => t < |s.threads| && s.threads[t].Ready?
    case Reserve(t) => t < |s.threads| && s.threads[t].Reserving?
    case Track(t) => t < |s.threads| && s.threads[t].Reserved? && s.threads[t].ev.flow.Some?
    case Finish(t) => t < |s.threads| && s.threads[t].Done?
    case Suspect(user, now) =>
      && s.keeper == Resting && user in s.table
      && SatSub(now, s.accounts[s.table[user]].lastUsed) >= ACCOUNT_IDLE_SECONDS
    case Evict => s.keeper.Suspecting? && s.keeper.user in s.table
    case PayDropped => s.keeper.Dropping?
    case Sweep(user, now) =>
      s.keeper == Resting && user in s.table && s.accounts[s.table[user]].lock == Nobody
    case PaySwept => s.keeper.Paying?
  }

  function ChargeFor(w: Windows, ev: Event, newFlow: bool): Charge {
    Charge(ev.user, w.second, w.minute, ev.bytes, newFlow)
  }

  /** Charge and decide; refusing and admitting release the lock, a new flow keeps it. */
  function Judged(c: Config, s: State, t: nat): State
    requires Shape(s) && t < |s.threads| && s.threads[t].Ready?
  {
    var id, ev := s.threads[t].id, s.threads[t].ev;
    var (w, verdict) := Decide(c.policy, s.accounts[id].w, ev);
    var unlocked := s.accounts[id := s.accounts[id].(lock := Nobody, w := w)];
    match verdict
    case Refuse => s.(accounts := unlocked, threads := s.threads[t := Done(id)])
    case Admit => s.(accounts := unlocked, threads := s.threads[t := Done(id)],
                     log := s.log + [ChargeFor(w, ev, false)])
    case NeedSlot => s.(accounts := s.accounts[id := s.accounts[id].(w := w)],
                        threads := s.threads[t := Reserving(id, ev)])
  }

  function Apply(c: Config, s: State, step: Step): State
    requires Shape(s) && Enabled(c, s, step)
  {
    match step
    case Start(t, ev) =>
      if ev.user in s.table then s.(threads := s.threads[t := Got(s.table[ev.user], ev)])
      else if |s.table| >= c.accountLimit then s
      else
        s.(accounts := s.accounts + [Account(ev.user, true, ev.now, Nobody, NewWindows(ev.now))],
           table := s.table[ev.user := |s.accounts|],
           threads := s.threads[t := Got(|s.accounts|, ev)])
    case Touch(t) =>
      var id, ev := s.threads[t].id, s.threads[t].ev;
      var a := s.accounts[id];
      s.(accounts := s.accounts[id := a.(lastUsed := if a.lastUsed < ev.now then ev.now else a.lastUsed)],
         threads := s.threads[t := Touched(id, ev)])
    case Lock(t) =>
      var id, ev := s.threads[t].id, s.threads[t].ev;
      var w := Rolled(s.accounts[id].w, ev.now);
      if IsStale(w, ev.flow) then
        s.(accounts := s.accounts[id := s.accounts[id].(lock := Packet(t),
                                                        w := w.(flows := w.flows - {ev.flow.value}))],
           threads := s.threads[t := Owing(id, ev)])
      else
        s.(accounts := s.accounts[id := s.accounts[id].(lock := Packet(t), w := w)],
           threads := s.threads[t := Ready(id, ev)])
    case PayStale(t) =>
      s.(slots := s.slots - 1, threads := s.threads[t := Ready(s.threads[t].id, s.threads[t].ev)])
    case Judge(t) => Judged(c, s, t)
    case Reserve(t) =>
      var id, ev := s.threads[t].id, s.threads[t].ev;
      if s.slots < c.flowLimit then s.(slots := s.slots + 1, threads := s.threads[t := Reserved(id, ev)])
      else
        var w := s.accounts[id].w;
        s.(accounts := s.accounts[id := s.accounts[id].(lock := Nobody, w := NoSlot(c.policy, w))],
           threads := s.threads[t := Done(id)],
           log := if c.policy.enforce then s.log else s.log + [ChargeFor(w, ev, false)])
    case Track(t) =>
      var id, ev := s.threads[t].id, s.threads[t].ev;
      var w := s.accounts[id].w;
      s.(accounts := s.accounts[id := s.accounts[id].(lock := Nobody, w := Tracked(w, ev.flow.value))],
         threads := s.threads[t := Done(id)],
         log := s.log + [ChargeFor(w, ev, true)])
    case Finish(t) =>
      s.(threads := s.threads[t := Idle])
    case Suspect(user, now) =>
      s.(keeper := Suspecting(user, now, |s.log|))
    case Evict =>
      if !Evicts(s) then s.(keeper := Resting)
      else
        var user, id := s.keeper.user, s.table[s.keeper.user];
        s.(table := s.table - {user},
           accounts := s.accounts[id := s.accounts[id].(alive := false)],
           keeper := Dropping(|s.accounts[id].w.flows|),
           evictedAt := s.evictedAt[user := s.keeper.now])
    case PayDropped =>
      s.(slots := s.slots - s.keeper.n, keeper := Resting)
    case Sweep(user, now) =>
      var id := s.table[user];
      var a := s.accounts[id];
      var live := LiveFlows(a.w.flows, now);
      LiveFlowsFewer(a.w.flows, now);
      s.(accounts := s.accounts[id := a.(lock := Maintenance, w := a.w.(flows := live))],
         keeper := Paying(id, |a.w.flows| - |live|))
    case PaySwept =>
      var id := s.keeper.id;
      s.(accounts := s.accounts[id := s.accounts[id].(lock := Nobody)],
         slots := s.slots - s.keeper.n, keeper := Resting)
  }

  // --- Slot accounting ---

  function FlowsOf(a: Account): nat {
    if a.alive then |a.w.flows| else 0
  }

  /** Tracked flows over all accounts. */
  function TotalFlows(accounts: seq<Account>): nat {
    if accounts == [] then 0 else TotalFlows(accounts[..|accounts| - 1]) + FlowsOf(accounts[|accounts| - 1])
  }

  /** A slot counted but not backed by a tracked flow. */
  function Debt(pc: Pc): nat {
    if pc.Owing? || pc.Reserved? then 1 else 0
  }

  function ThreadDebt(threads: seq<Pc>): nat {
    if threads == [] then 0 else ThreadDebt(threads[..|threads| - 1]) + Debt(threads[|threads| - 1])
  }

  function KeeperDebt(k: Keeper): nat {
    if k.Dropping? || k.Paying? then k.n else 0
  }

  lemma {:induction false} TotalFlowsUpdate(accounts: seq<Account>, k: nat, a: Account)
    requires k < |accounts|
    ensures TotalFlows(accounts[k := a]) + FlowsOf(accounts[k]) == TotalFlows(accounts) + FlowsOf(a)
  {
    var n := |accounts| - 1;
    if k == n {
      assert accounts[k := a][..n] == accounts[..n];
    } else {
      assert accounts[k := a][..n] == accounts[..n][k := a];
      TotalFlowsUpdate(accounts[..n], k, a);
    }
  }

  lemma TotalFlowsAppend(accounts: seq<Account>, a: Account)
    ensures TotalFlows(accounts + [a]) == TotalFlows(accounts) + FlowsOf(a)
  {
    assert (accounts + [a])[..|accounts|] == accounts;
  }

  lemma {:induction false} ThreadDebtUpdate(threads: seq<Pc>, k: nat, pc: Pc)
    requires k < |threads|
    ensures ThreadDebt(threads[k := pc]) + Debt(threads[k]) == ThreadDebt(threads) + Debt(pc)
  {
    var n := |threads| - 1;
    if k == n {
      assert threads[k := pc][..n] == threads[..n];
    } else {
      assert threads[k := pc][..n] == threads[..n][k := pc];
      ThreadDebtUpdate(threads[..n], k, pc);
    }
  }

  /** Who is where: threads after Touched hold the lock of a live account, an account in the table is
      live and known under its user's name, and the flow of a reserving thread is not tracked yet. */
  predicate LockStage(pc: Pc) {
    pc.Owing? || pc.Ready? || pc.Reserving? || pc.Reserved?
  }

  predicate ThreadInv(s: State, t: nat)
    requires t < |s.threads|
  {
    var pc := s.threads[t];
    pc != Idle ==>
      && pc.id < |s.accounts|
      && s.accounts[pc.id].alive
      && (!pc.Done? ==> s.accounts[pc.id].user == pc.ev.user)
      && (LockStage(pc) ==> s.accounts[pc.id].lock == Packet(t))
      && (pc.Reserving? || pc.Reserved? ==> pc.ev.flow.Some? && pc.ev.flow.value !in s.accounts[pc.id].w.flows)
  }

  predicate KeeperInv(s: State) {
    && (s.keeper.Paying? ==>
          && s.keeper.id < |s.accounts|
          && s.accounts[s.keeper.id].lock == Maintenance)
    && (s.keeper.Suspecting? ==> s.keeper.user in s.table)
  }

  predicate AccountInv(s: State, id: nat)
    requires id < |s.accounts|
  {
    var a := s.accounts[id];
    && (a.alive <==> a.user in s.table && s.table[a.user] == id)
    && (a.lock == Maintenance ==> s.keeper == Paying(id, KeeperDebt(s.keeper)))
  }

  ghost predicate Structure(s: State) {
    && TableOk(s)
    && (forall u :: u in s.table ==> s.accounts[s.table[u]].user == u && s.accounts[s.table[u]].alive)
    && (forall t :: 0 <= t < |s.threads| ==> ThreadInv(s, t))
    && (forall id :: 0 <= id < |s.accounts| ==> AccountInv(s, id))
    && KeeperInv(s)
  }

  ghost predicate SlotsInv(c: Config, s: State) {
    && s.slots == TotalFlows(s.accounts) + ThreadDebt(s.threads) + KeeperDebt(s.keeper)
    && s.slots <= c.flowLimit
  }

  lemma StructureShape(s: State)
    requires Structure(s)
    ensures Shape(s)
  {
    forall t | 0 <= t < |s.threads|
      ensures ThreadOk(s, s.threads[t])
    {
      assert ThreadInv(s, t);
    }
  }

  predicate ByKeeper(step: Step) {
    step.Suspect? || step.Evict? || step.Sweep? || step.PayDropped? || step.PaySwept?
  }

  /** Everything but the acting thread and its account stays as it was, and so do the account's
      name, life and standing with maintenance. */
  lemma PacketFrame(c: Config, s: State, step: Step)
    requires Structure(s) && Shape(s) && Enabled(c, s, step) && !ByKeeper(step) && !step.Start?
    ensures var s', id := Apply(c, s, step), s.threads[step.t].id;
            && |s'.threads| == |s.threads| && |s'.accounts| == |s.accounts|
            && s'.threads == s.threads[step.t := s'.threads[step.t]]
            && (s'.threads[step.t] != Idle ==> s'.threads[step.t].id == id)
            && s'.accounts == s.accounts[id := s'.accounts[id]]
            && s'.keeper == s.keeper && s'.table == s.table && s'.evictedAt == s.evictedAt
            && s'.accounts[id].user == s.accounts[id].user && s'.accounts[id].alive == s.accounts[id].alive
            && (s'.accounts[id].lock == Maintenance <==> s.accounts[id].lock == Maintenance)
  {
    hide Apply, TableOk, AccountInv, KeeperInv, InUse;
    assert ThreadInv(s, step.t);
    OneThreadOneAccount(c, s, step);
    AccountKeepsName(c, s, step);
  }

  lemma OneThreadOneAccount(c: Config, s: State, step: Step)
    requires Shape(s) && Enabled(c, s, step) && !ByKeeper(step) && !step.Start?
    ensures var s', id := Apply(c, s, step), s.threads[step.t].id;
            && |s'.threads| == |s.threads| && |s'.accounts| == |s.accounts|
            && s'.threads == s.threads[step.t := s'.threads[step.t]]
            && (s'.threads[step.t] != Idle ==> s'.threads[step.t].id == id)
            && s'.accounts == s.accounts[id := s'.accounts[id]]
            && s'.keeper == s.keeper && s'.table == s.table && s'.evictedAt == s.evictedAt
  {
    hide Rolled, Decide, NoSlot, Tracked, IsStale, ChargeFor, TableOk;
    assert ThreadOk(s, s.threads[step.t]);
  }

  lemma AccountKeepsName(c: Config, s: State, step: Step)
    requires Shape(s) && Enabled(c, s, step) && !ByKeeper(step) && !step.Start? && ThreadInv(s, step.t)
    ensures var s', id := Apply(c, s, step), s.threads[step.t].id;
            && |s'.accounts| == |s.accounts|
            && s'.accounts[id].user == s.accounts[id].user && s'.accounts[id].alive == s.accounts[id].alive
            && (s'.accounts[id].lock == Maintenance <==> s.accounts[id].lock == Maintenance)
  {
    hide Rolled, Decide, NoSlot, Tracked, IsStale, ChargeFor, TableOk;
  }

  /** The acting thread's own invariant, and what the step may do to a lock. */
  lemma PacketStepOk(c: Config, s: State, step: Step)
    requires Structure(s) && Shape(s) && Enabled(c, s, step) && !ByKeeper(step) && !step.Start?
    ensures var s', id := Apply(c, s, step), s.threads[step.t].id;
            && ThreadInv(s', step.t)
            && (step.Touch? || step.Finish? ==>
                  s'.accounts[id].lock == s.accounts[id].lock && s'.accounts[id].w == s.accounts[id].w)
            && (!(step.Touch? || step.Finish?) ==>
                  s.accounts[id].lock == Nobody || s.accounts[id].lock == Packet(step.t))
  {
    hide AccountInv, TableOk, KeeperInv, InUse;
    hide Rolled, Decide;
    assert ThreadInv(s, step.t);
    if step.Judge? {
      DecideFacts(c.policy, s.accounts[s.threads[step.t].id].w, s.threads[step.t].ev);
    }
  }

  lemma PacketKeepsStructure(c: Config, s: State, step: Step)
    requires Structure(s) && Shape(s) && Enabled(c, s, step) && !ByKeeper(step) && !step.Start?
    ensures Structure(Apply(c, s, step))
  {
    hide Apply, InUse;
    var s' := Apply(c, s, step);
    PacketFrame(c, s, step);
    PacketStepOk(c, s, step);
    forall u | 0 <= u < |s'.threads|
      ensures ThreadInv(s', u)
    {
      assert ThreadInv(s, u);
    }
    forall k | 0 <= k < |s'.accounts|
      ensures AccountInv(s', k)
    {
      assert AccountInv(s, k);
    }
  }

  lemma StartKeepsStructure(c: Config, s: State, step: Step)
    requires Structure(s) && Shape(s) && Enabled(c, s, step) && step.Start?
    ensures Structure(Apply(c, s, step))
  {
    hide NewWindows, KeeperDebt;
    var s' := Apply(c, s, step);
    forall u | 0 <= u < |s'.threads|
      ensures ThreadInv(s', u)
    {
      assert ThreadInv(s, u);
    }
    forall k | 0 <= k < |s'.accounts|
      ensures AccountInv(s', k)
    {
      if k < |s.accounts| {
        assert AccountInv(s, k);
      }
    }
  }

  lemma EvictKeepsStructure(c: Config, s: State, step: Step)
    requires Structure(s) && Shape(s) && Enabled(c, s, step) && step.Evict?
    ensures Structure(Apply(c, s, step))
  {
    var s', id := Apply(c, s, step), s.table[s.keeper.user];
    forall u | 0 <= u < |s'.threads|
      ensures ThreadInv(s', u)
    {
      assert ThreadInv(s, u) && (Evicts(s) ==> !Refers(s.threads[u], id));
    }
    assert AccountInv(s, id);
    forall k | 0 <= k < |s'.accounts|
      ensures AccountInv(s', k)
    {
      assert AccountInv(s, k);
    }
  }

  lemma SweepKeepsStructure(c: Config, s: State, step: Step)
    requires Structure(s) && Shape(s) && Enabled(c, s, step) && ByKeeper(step) && !step.Evict?
    ensures Structure(Apply(c, s, step))
  {
    hide LiveFlows, SatSub, Evicts;
    var s' := Apply(c, s, step);
    var id := if step.Sweep? then s.table[step.user] else if step.PaySwept? then s.keeper.id else |s.accounts|;
    assert id < |s.accounts| ==> AccountInv(s, id);
    assert step.Sweep? ==> s'.accounts[id].w.flows.Keys <= s.accounts[id].w.flows.Keys by {
      LiveFlowsSubset(s, step);
    }
    forall u | 0 <= u < |s'.threads|
      ensures ThreadInv(s', u)
    {
      assert ThreadInv(s, u);
    }
    forall k | 0 <= k < |s'.accounts|
      ensures AccountInv(s', k)
    {
      assert AccountInv(s, k);
    }
  }

  lemma LiveFlowsSubset(s: State, step: Step)
    requires Shape(s)
    ensures step.Sweep? && step.user in s.table ==>
              var flows := s.accounts[s.table[step.user]].w.flows;
              LiveFlows(flows, step.now).Keys <= flows.Keys
  {
  }

  lemma ApplyKeepsStructure(c: Config, s: State, step: Step)
    requires Structure(s) && Shape(s) && Enabled(c, s, step)
    ensures Structure(Apply(c, s, step)) && Shape(Apply(c, s, step))
  {
    hide Apply, Enabled, ThreadInv, AccountInv;
    if step.Evict? {
      EvictKeepsStructure(c, s, step);
    } else if ByKeeper(step) {
      SweepKeepsStructure(c, s, step);
    } else if step.Start? {
      StartKeepsStructure(c, s, step);
    } else {
      PacketKeepsStructure(c, s, step);
    }
    StructureShape(Apply(c, s, step));
  }

  lemma JudgedFlows(c: Config, s: State, t: nat)
    requires Shape(s) && t < |s.threads| && s.threads[t].Ready?
    ensures var s', id := Judged(c, s, t), s.threads[t].id;
            && |s'.threads| == |s.threads| && |s'.accounts| == |s.accounts| && s'.slots == s.slots
            && s'.accounts[id].alive == s.accounts[id].alive
            && FlowsOf(s'.accounts[id]) == FlowsOf(s.accounts[id])
            && Debt(s'.threads[t]) == Debt(s.threads[t])
  {
    hide Decide;
    DecideFacts(c.policy, s.accounts[s.threads[t].id].w, s.threads[t].ev);
  }

  lemma LockFlows(c: Config, s: State, t: nat)
    requires Shape(s) && Enabled(c, s, Lock(t))
    ensures var s', id := Apply(c, s, Lock(t)), s.threads[t].id;
            && |s'.threads| == |s.threads| && |s'.accounts| == |s.accounts| && s'.slots == s.slots
            && s'.accounts[id].alive == s.accounts[id].alive
            && (s.accounts[id].alive ==>
                  FlowsOf(s'.accounts[id]) + Debt(s'.threads[t]) == FlowsOf(s.accounts[id]) + Debt(s.threads[t]))
  {
    hide TableOk, Rolled, IsStale;
    assert ThreadOk(s, s.threads[t]);
    SweptFlows(s.accounts[s.threads[t].id].w, s.threads[t].ev);
  }

  lemma SweptFlows(w: Windows, ev: Event)
    ensures var r := Rolled(w, ev.now);
            if IsStale(r, ev.flow) then ev.flow.Some? && |r.flows - {ev.flow.value}| + 1 == |w.flows|
            else |r.flows| == |w.flows|
  {
    hide Rolled;
    RolledFacts(w, ev.now);
    if IsStale(Rolled(w, ev.now), ev.flow) {
      RemoveOne(w.flows, ev.flow.value);
    }
  }

  /** How a packet thread's step changes the number of flows of its account. */
  lemma FlowsChange(c: Config, s: State, step: Step)
    requires Structure(s) && Shape(s) && Enabled(c, s, step) && !ByKeeper(step) && !step.Start?
    ensures var s', id := Apply(c, s, step), s.threads[step.t].id;
            && s'.accounts[id].alive == s.accounts[id].alive
            && FlowsOf(s'.accounts[id]) + Debt(s'.threads[step.t]) - s'.slots
               == FlowsOf(s.accounts[id]) + Debt(s.threads[step.t]) - s.slots
  {
    hide AccountInv, TableOk, KeeperInv, InUse;
    hide Rolled, Judged, ChargeFor;
    assert ThreadInv(s, step.t);
    var id := s.threads[step.t].id;
    var w := s.accounts[id].w;
    match step {
      case Lock(t) => LockFlows(c, s, t);
      case Judge(t) => JudgedFlows(c, s, t);
      case Track(t) => AddOne(w.flows, s.threads[t].ev.flow.value, w.second);
      case _ =>
    }
  }

  lemma PacketKeepsSlots(c: Config, s: State, step: Step)
    requires Structure(s) && Shape(s) && SlotsInv(c, s) && Enabled(c, s, step) && !ByKeeper(step)
    ensures SlotsInv(c, Apply(c, s, step))
  {
    hide TotalFlows, ThreadDebt, Rolled, Decide;
    var s', t := Apply(c, s, step), step.t;
    if step.Start? {
      var ev := step.ev;
      ThreadDebtUpdate(s.threads, t, s'.threads[t]);
      TotalFlowsAppend(s.accounts, Account(ev.user, true, ev.now, Nobody, NewWindows(ev.now)));
      assert s.threads[t := s.threads[t]] == s.threads;
    } else {
      var id := s.threads[t].id;
      PacketFrame(c, s, step);
      FlowsChange(c, s, step);
      ThreadDebtUpdate(s.threads, t, s'.threads[t]);
      TotalFlowsUpdate(s.accounts, id, s'.accounts[id]);
    }
  }

  lemma EvictKeepsSlots(c: Config, s: State)
    requires Structure(s) && Shape(s) && SlotsInv(c, s) && Enabled(c, s, Evict)
    ensures SlotsInv(c, Apply(c, s, Evict))
  {
    hide TotalFlows, ThreadDebt, ThreadInv, AccountInv, InUse;
    var id := s.table[s.keeper.user];
    TotalFlowsUpdate(s.accounts, id, s.accounts[id].(alive := false));
  }

  lemma SweepKeepsSlots(c: Config, s: State, step: Step)
    requires Structure(s) && Shape(s) && SlotsInv(c, s) && Enabled(c, s, step) && step.Sweep?
    ensures SlotsInv(c, Apply(c, s, step))
  {
    hide TotalFlows, ThreadDebt, LiveFlows, ThreadInv, AccountInv, InUse;
    var id, s' := s.table[step.user], Apply(c, s, step);
    LiveFlowsFewer(s.accounts[id].w.flows, step.now);
    TotalFlowsUpdate(s.accounts, id, s'.accounts[id]);
  }

  lemma KeeperKeepsSlots(c: Config, s: State, step: Step)
    requires Structure(s) && Shape(s) && SlotsInv(c, s) && Enabled(c, s, step) && ByKeeper(step)
    ensures SlotsInv(c, Apply(c, s, step))
  {
    hide TotalFlows, ThreadDebt, LiveFlows, ThreadInv, AccountInv, InUse;
    match step {
      case Evict => EvictKeepsSlots(c, s);
      case Sweep(_, _) => SweepKeepsSlots(c, s, step);
      case PaySwept =>
        var id := s.keeper.id;
        TotalFlowsUpdate(s.accounts, id, s.accounts[id].(lock := Nobody));
      case _ =>
    }
  }

  // --- Every interleaving ---

  /** Take the step if it is enabled. */
  ghost function Next(c: Config, s: State, step: Step): (s': State)
    requires Structure(s) && Shape(s)
    ensures Structure(s') && Shape(s')
  {
    if Enabled(c, s, step) then
      ApplyKeepsStructure(c, s, step);
      Apply(c, s, step)
    else s
  }

  /** Run the steps in turn; a step that is not enabled is not taken. */
  ghost function Exec(c: Config, s: State, steps: seq<Step>): (s': State)
    requires Structure(s) && Shape(s)
    ensures Structure(s') && Shape(s')
  {
    if steps == [] then s else Next(c, Exec(c, s, steps[..|steps| - 1]), steps[|steps| - 1])
  }

  /** The state after the steps, from the start. */
  ghost function Reach(c: Config, threads: nat, steps: seq<Step>): (s: State)
    ensures Structure(s) && Shape(s)
  {
    InitStructure(threads);
    Exec(c, Init(threads), steps)
  }

  lemma {:induction false} ExecConcat(c: Config, s: State, a: seq<Step>, b: seq<Step>)
    requires Structure(s) && Shape(s)
    ensures Exec(c, s, a + b) == Exec(c, Exec(c, s, a), b)
  {
    hide Structure, Shape, Next;
    if b == [] {
      assert a + b == a;
    } else {
      assert (a + b)[..|a + b| - 1] == a + b[..|b| - 1];
      ExecConcat(c, s, a, b[..|b| - 1]);
    }
  }

  lemma {:induction false} ExecKeepsSlots(c: Config, s: State, steps: seq<Step>)
    requires Structure(s) && Shape(s) && SlotsInv(c, s)
    ensures SlotsInv(c, Exec(c, s, steps))
  {
    hide Structure, Apply, Enabled, SlotsInv, Shape;
    if steps != [] {
      var before, step := Exec(c, s, steps[..|steps| - 1]), steps[|steps| - 1];
      ExecKeepsSlots(c, s, steps[..|steps| - 1]);
      if Enabled(c, before, step) {
        if ByKeeper(step) {
          KeeperKeepsSlots(c, before, step);
        } else {
          PacketKeepsSlots(c, before, step);
        }
      }
    }
  }

  lemma {:induction false} NoDebt(threads: seq<Pc>)
    requires forall t :: 0 <= t < |threads| ==> Debt(threads[t]) == 0
    ensures ThreadDebt(threads) == 0
  {
    if threads != [] {
      NoDebt(threads[..|threads| - 1]);
    }
  }

  lemma InitStructure(threads: nat)
    ensures Structure(Init(threads)) && Shape(Init(threads))
  {
  }

  /** In every interleaving the flows tracked over all accounts never exceed the slot counter, the
      counter never passes its limit nor drops below zero, and the two agree whenever no packet
      thread is between its slot operation and its map operation and maintenance owes none. */
  lemma EveryRunAccountsForSlots(c: Config, threads: nat, steps: seq<Step>)
    ensures var s := Reach(c, threads, steps);
            && 0 <= TotalFlows(s.accounts) <= s.slots <= c.flowLimit
            && ((forall t :: 0 <= t < |s.threads| ==> Debt(s.threads[t]) == 0)
                && !s.keeper.Dropping? && !s.keeper.Paying?
                ==> s.slots == TotalFlows(s.accounts))
  {
    InitStructure(threads);
    NoDebt(Init(threads).threads);
    ExecKeepsSlots(c, Init(threads), steps);
    var s := Reach(c, threads, steps);
    if forall t :: 0 <= t < |s.threads| ==> Debt(s.threads[t]) == 0 {
      NoDebt(s.threads);
    }
  }
}
