/** How late a timestamp may be.  Eviction forgets what was charged, so a packet that creates its
    account again may be charged to a window already spent.  Here is exactly how far its timestamp
    may lie before the evicting pass, and why no distance is enough when packets are admitted
    between the two reads of the eviction. */
module BudgetSlack {
  import opened Bytes
  import opened AccountBudget
  import opened BudgetThreads
  import opened BudgetBounds
  import Budgets

  // --- Conditions on a run ---

  /** No packet of the account was admitted between the two reads of an eviction that goes through. */
  predicate QuietEviction(s: State, step: Step) {
    step.Evict? && Evicts(s) ==> forall i :: s.keeper.mark <= i < |s.log| ==> s.log[i].user != s.keeper.user
  }

  /** An evicted account is created again by a timestamp at most `slack` before the evicting pass. */
  ghost predicate StampKept(c: Config, s: State, step: Step, slack: int)
    requires Shape(s)
  {
    Creates(c, s, step) && step.ev.user in s.evictedAt ==> step.ev.now + slack >= s.evictedAt[step.ev.user]
  }

  /** An account is created `lead` seconds, or with `minutes` that many minutes, after every charge of its user. */
  ghost predicate Leads(c: Config, s: State, step: Step, lead: nat, minutes: bool)
    requires Shape(s)
  {
    Creates(c, s, step) ==>
      forall i :: 0 <= i < |s.log| && s.log[i].user == step.ev.user ==>
        if minutes then step.ev.now / 60 >= s.log[i].minute + lead else step.ev.now >= s.log[i].second + lead
  }

  ghost predicate QuietAlong(c: Config, threads: nat, steps: seq<Step>) {
    forall n :: 0 <= n < |steps| ==> QuietEviction(Reach(c, threads, steps[..n]), steps[n])
  }

  ghost predicate StampsKeptAlong(c: Config, threads: nat, steps: seq<Step>, slack: int) {
    forall n :: 0 <= n < |steps| ==> StampKept(c, Reach(c, threads, steps[..n]), steps[n], slack)
  }

  ghost predicate LeadsAlong(c: Config, threads: nat, steps: seq<Step>, lead: nat, minutes: bool) {
    forall n :: 0 <= n < |steps| ==> Leads(c, Reach(c, threads, steps[..n]), steps[n], lead, minutes)
  }

  /** The largest harmless slack: a minute's charges reach further back than a second's. */
  function MaxSlack(p: Policy): nat {
    if LimitsFlows(p) then ACCOUNT_IDLE_SECONDS - 60 else ACCOUNT_IDLE_SECONDS - 1
  }

  // --- Within the slack ---

  /** What was charged to an account that is gone, or that was found idle, lies at least the idle time
      before the pass. */
  ghost predicate GoneInv(s: State) {
    && (forall i :: 0 <= i < |s.log| && s.log[i].user !in s.table ==>
          s.log[i].user in s.evictedAt && s.log[i].second + ACCOUNT_IDLE_SECONDS <= s.evictedAt[s.log[i].user])
    && (s.keeper.Suspecting? ==>
          && s.keeper.mark <= |s.log|
          && forall i :: 0 <= i < s.keeper.mark && s.log[i].user == s.keeper.user ==>
               s.log[i].second + ACCOUNT_IDLE_SECONDS <= s.keeper.now)
  }

  /** A packet thread's step logs at most one charge, to a user whose account is in the table. */
  lemma PacketLogs(c: Config, s: State, step: Step)
    requires Structure(s) && Shape(s) && Enabled(c, s, step) && !ByKeeper(step) && !step.Start?
    ensures var s' := Apply(c, s, step);
            s'.log == s.log || exists x :: s'.log == s.log + [x] && x.user in s.table
  {
    hide Rolled, Decide, InUse, KeeperInv;
    assert ThreadInv(s, step.t);
    assert AccountInv(s, s.threads[step.t].id);
  }

  lemma PacketKeepsGone(c: Config, s: State, step: Step)
    requires Structure(s) && Shape(s) && GoneInv(s) && Enabled(c, s, step) && !ByKeeper(step) && !step.Start?
    ensures GoneInv(Apply(c, s, step))
  {
    hide Apply, Structure, Enabled;
    PacketFrame(c, s, step);
    PacketLogs(c, s, step);
  }

  lemma KeeperKeepsGone(c: Config, s: State, step: Step)
    requires BoundInv(c, s) && Shape(s) && GoneInv(s) && LimitsAny(c.policy)
    requires Enabled(c, s, step) && (ByKeeper(step) || step.Start?) && QuietEviction(s, step)
    ensures GoneInv(Apply(c, s, step))
  {
    hide LiveFlows, InUse, WithinBudget, Covers, ThreadInv, Packets, Octets, NewFlows;
    if step.Suspect? {
      assert AccountBound(c.policy, s, s.table[step.user]);
    }
  }

  lemma WithinSlackIsLater(c: Config, s: State, step: Step, slack: nat)
    requires BoundInv(c, s) && Shape(s) && GoneInv(s) && slack <= MaxSlack(c.policy) && StampKept(c, s, step, slack)
    ensures CreatedLater(c, s, step)
  {
    hide Structure, WithinBudget, AccountBound, Enabled;
  }

  lemma {:induction false} ReachKeepsGone(c: Config, threads: nat, steps: seq<Step>, slack: nat)
    requires LimitsAny(c.policy) && slack <= MaxSlack(c.policy)
    requires QuietAlong(c, threads, steps) && StampsKeptAlong(c, threads, steps, slack)
    ensures BoundInv(c, Reach(c, threads, steps)) && GoneInv(Reach(c, threads, steps))
  {
    if steps == [] {
      ReachKeepsBounds(c, threads, steps);
    } else {
      hide Structure, Apply, Enabled, BoundInv, Shape, GoneInv, StampKept, QuietEviction, QuietAlong;
      hide StampsKeptAlong, Next;
      var before, step := steps[..|steps| - 1], steps[|steps| - 1];
      SlackPrefix(c, threads, steps, slack);
      ReachKeepsGone(c, threads, before, slack);
      var s := Reach(c, threads, before);
      WithinSlackIsLater(c, s, step, slack);
      NextKeeps(c, s, step);
    }
  }

  lemma NextKeeps(c: Config, s: State, step: Step)
    requires Structure(s) && Shape(s) && LimitsAny(c.policy)
    requires BoundInv(c, s) && GoneInv(s) && CreatedLater(c, s, step) && QuietEviction(s, step)
    ensures BoundInv(c, Next(c, s, step)) && GoneInv(Next(c, s, step))
  {
    hide Structure, Apply, Enabled, BoundInv, Shape, GoneInv, CreatedLater, QuietEviction;
    if Enabled(c, s, step) {
      ApplyKeepsBounds(c, s, step);
      if ByKeeper(step) || step.Start? {
        KeeperKeepsGone(c, s, step);
      } else {
        PacketKeepsGone(c, s, step);
      }
    }
  }

  lemma SlackPrefix(c: Config, threads: nat, steps: seq<Step>, slack: nat)
    requires steps != [] && QuietAlong(c, threads, steps) && StampsKeptAlong(c, threads, steps, slack)
    ensures var before, step := steps[..|steps| - 1], steps[|steps| - 1];
            && QuietAlong(c, threads, before) && StampsKeptAlong(c, threads, before, slack)
            && QuietEviction(Reach(c, threads, before), step) && StampKept(c, Reach(c, threads, before), step, slack)
  {
    hide Reach, QuietEviction, StampKept;
    var before := steps[..|steps| - 1];
    forall n | 0 <= n < |before|
      ensures QuietEviction(Reach(c, threads, before[..n]), before[n])
      ensures StampKept(c, Reach(c, threads, before[..n]), before[n], slack)
    {
      assert before[..n] == steps[..n];
    }
  }

  lemma WithinSlackStaysWithinBudget(c: Config, threads: nat, steps: seq<Step>, slack: nat)
    requires slack <= MaxSlack(c.policy) && QuietAlong(c, threads, steps) && StampsKeptAlong(c, threads, steps, slack)
    ensures WithinBudget(c.policy, Reach(c, threads, steps).log)
  {
    hide Reach, QuietAlong, StampsKeptAlong;
    if LimitsAny(c.policy) {
      ReachKeepsGone(c, threads, steps, slack);
    }
  }

  // --- Runs past the slack ---

  ghost predicate AllIdle(s: State) {
    forall t :: 0 <= t < |s.threads| ==> s.threads[t].Idle?
  }

  function PassSteps(user: string, now: u64): seq<Step> {
    [Suspect(user, now), Evict, PayDropped]
  }

  /** The second read and the removal, with no thread on the account. */
  lemma EvictionEnds(c: Config, s: State)
    requires Structure(s) && Shape(s) && AllIdle(s) && s.keeper.Suspecting? && s.keeper.user in s.table
    ensures var s', user := Next(c, Next(c, s, Evict), PayDropped), s.keeper.user;
            && s'.keeper == Resting && s'.threads == s.threads && s'.log == s.log && s'.table == s.table - {user}
            && Budgets.Books(s') == Budgets.Books(s) - {user}
            && s'.slots == s.slots - |Budgets.Books(s)[user].w.flows|
            && s'.evictedAt == s.evictedAt[user := s.keeper.now]
            && (forall u :: u in s'.table ==> s'.accounts[s'.table[u]].lock == s.accounts[s.table[u]].lock)
            && Evicts(s)
  {
    hide ThreadInv, AccountInv, KeeperInv;
    var user := s.keeper.user;
    assert !InUse(s, s.table[user]);
    forall u | u in s.table && u != user
      ensures s.table[u] != s.table[user]
    {
      assert s.accounts[s.table[u]].user == u;
    }
    var s1 := Next(c, s, Evict);
    assert s1.keeper.Dropping?;
  }

  /** A whole pass over one idle account. */
  lemma PassAlone(c: Config, s: State, user: string, now: u64)
    requires Structure(s) && Shape(s) && AllIdle(s) && s.keeper == Resting && user in s.table
    requires SatSub(now, s.accounts[s.table[user]].lastUsed) >= ACCOUNT_IDLE_SECONDS
    ensures var s' := Exec(c, s, PassSteps(user, now));
            && s'.keeper == Resting && s'.threads == s.threads && s'.log == s.log && s'.table == s.table - {user}
            && Budgets.Books(s') == Budgets.Books(s) - {user}
            && s'.slots == s.slots - |Budgets.Books(s)[user].w.flows|
            && s'.evictedAt == s.evictedAt[user := now]
            && (forall u :: u in s'.table ==> s'.accounts[s'.table[u]].lock == s.accounts[s.table[u]].lock)
    ensures var s1 := Exec(c, s, PassSteps(user, now)[..1]);
            s1.keeper == Suspecting(user, now, |s.log|) && s1.log == s.log
  {
    hide Structure, SatSub;
    var steps := PassSteps(user, now);
    var s1 := Budgets.ExecNext(c, s, steps, 0, s);
    var s2 := Budgets.ExecNext(c, s, steps, 1, s1);
    var s3 := Budgets.ExecNext(c, s, steps, 2, s2);
    assert steps[..3] == steps;
    assert s1 == s.(keeper := Suspecting(user, now, |s.log|));
    EvictionEnds(c, s1);
    assert Budgets.Books(s1) == Budgets.Books(s);
  }

  /** An event of a user without an account, run alone. */
  lemma FirstEvent(c: Config, s: State, ev: Event)
    requires Structure(s) && Shape(s) && AllIdle(s) && |s.threads| > 0 && s.keeper == Resting
    requires s.table == map[] && c.accountLimit > 0
    ensures var s' := Exec(c, s, Budgets.EventSteps(0, ev));
            && AllIdle(s') && s'.threads == s.threads && s'.keeper == Resting && s'.evictedAt == s.evictedAt
            && s'.log == s.log + Budgets.Logged(c, NewWindows(ev.now), s.slots, ev)
            && var (w, n, ok) := Budgets.Served(c, NewWindows(ev.now), s.slots, ev);
            && s'.slots == n && ev.user in s'.table
            && Budgets.Books(s') == map[ev.user := Budgets.Entry(ev.now, w)]
            && s'.accounts[s'.table[ev.user]].lastUsed == ev.now
  {
    hide Structure, Budgets.Served, Budgets.Logged, NewWindows;
    assert Budgets.Books(s) == map[];
    Budgets.UndisturbedEventIsSequential(c, s, 0, ev);
    var s' := Exec(c, s, Budgets.EventSteps(0, ev));
    assert ev.user in Budgets.Books(s');
    assert Budgets.Books(s')[ev.user].lastUsed == ev.now;
  }

  function TwoEvents(a: Event, b: Event, now: u64): seq<Step> {
    Budgets.EventSteps(0, a) + PassSteps(a.user, now) + Budgets.EventSteps(0, b)
  }

  lemma ReachEmpty(c: Config, threads: nat)
    ensures Reach(c, threads, []) == Init(threads)
  {
  }

  lemma ReachConcat(c: Config, threads: nat, a: seq<Step>, b: seq<Step>)
    ensures Reach(c, threads, a + b) == Exec(c, Reach(c, threads, a), b)
  {
    hide Structure, Shape, Exec;
    InitStructure(threads);
    ExecConcat(c, Init(threads), a, b);
  }

  /** The first event's account is in order and owns every slot in use. */
  ghost predicate Judgeable(c: Config, a: Event, b: Event, now: u64) {
    && a.user == b.user && c.accountLimit > 0 && SatSub(now, a.now) >= ACCOUNT_IDLE_SECONDS
    && var (w, n, ok) := Budgets.Served(c, NewWindows(a.now), 0, a);
    && n == |w.flows|
  }

  /** An event, a pass that evicts its account, and an event that creates it again: both are judged by
      windows of their own. */
  lemma TwoAllowances(c: Config, a: Event, b: Event, now: u64)
    requires Judgeable(c, a, b, now)
    ensures var steps, first := TwoEvents(a, b, now), Budgets.Logged(c, NewWindows(a.now), 0, a);
            && Reach(c, 1, steps).log == first + Budgets.Logged(c, NewWindows(b.now), 0, b)
            && Reach(c, 1, steps[..9]).keeper == Suspecting(a.user, now, |first|)
            && Reach(c, 1, steps[..9]).log == first
            && Reach(c, 1, steps[..11]).log == first && Reach(c, 1, steps[..11]).evictedAt == map[a.user := now]
  {
    hide Structure, Budgets.Served, Budgets.Logged, NewWindows, SatSub, Exec, Enabled, Reach;
    var e, p, steps := Budgets.EventSteps(0, a), PassSteps(a.user, now), TwoEvents(a, b, now);
    ReachEmpty(c, 1);
    ReachConcat(c, 1, [], e);
    assert [] + e == e;
    FirstEvent(c, Init(1), a);
    var s1 := Reach(c, 1, e);
    PassAlone(c, s1, a.user, now);
    ReachConcat(c, 1, e, p);
    ReachConcat(c, 1, e, p[..1]);
    var s2 := Reach(c, 1, e + p);
    assert Budgets.Books(s2) == map[];
    assert s2.table == map[] by { assert s1.table.Keys == Budgets.Books(s1).Keys; }
    FirstEvent(c, s2, b);
    ReachConcat(c, 1, e + p, Budgets.EventSteps(0, b));
    assert steps[..11] == e + p && steps[..9] == e + p[..1];
  }

  /** The steps of such a run that matter to a condition on it. */
  lemma TwoEventSteps(a: Event, b: Event, now: u64, n: nat)
    requires n < |TwoEvents(a, b, now)|
    ensures var steps := TwoEvents(a, b, now);
            && (steps[n].Start? ==> (n == 0 && steps[0] == Start(0, a)) || (n == 11 && steps[11] == Start(0, b)))
            && (steps[n].Evict? ==> n == 9)
  {
  }

  lemma TwoAllowancesKeepStamps(c: Config, a: Event, b: Event, now: u64)
    requires Judgeable(c, a, b, now)
    ensures QuietAlong(c, 1, TwoEvents(a, b, now)) && StampsKeptAlong(c, 1, TwoEvents(a, b, now), now - b.now)
  {
    hide Reach, Judgeable, TwoEvents, Budgets.Logged, NewWindows, Enabled;
    var steps := TwoEvents(a, b, now);
    TwoAllowances(c, a, b, now);
    ReachEmpty(c, 1);
    forall n | 0 <= n < |steps|
      ensures QuietEviction(Reach(c, 1, steps[..n]), steps[n])
      ensures StampKept(c, Reach(c, 1, steps[..n]), steps[n], now - b.now)
    {
      TwoEventSteps(a, b, now, n);
      assert steps[..0] == [];
    }
  }

  lemma TwoAllowancesLead(c: Config, a: Event, b: Event, now: u64, lead: nat, minutes: bool)
    requires Judgeable(c, a, b, now)
    requires forall x :: x in Budgets.Logged(c, NewWindows(a.now), 0, a) ==>
               if minutes then b.now / 60 >= x.minute + lead else b.now >= x.second + lead
    ensures LeadsAlong(c, 1, TwoEvents(a, b, now), lead, minutes)
  {
    hide Reach, Judgeable, TwoEvents, Budgets.Logged, NewWindows, Enabled;
    var steps := TwoEvents(a, b, now);
    TwoAllowances(c, a, b, now);
    ReachEmpty(c, 1);
    forall n | 0 <= n < |steps|
      ensures Leads(c, Reach(c, 1, steps[..n]), steps[n], lead, minutes)
    {
      TwoEventSteps(a, b, now, n);
      assert steps[..0] == [];
    }
  }

  const ONE_PACKET := Config(Policy(true, 1, 0, 0), 1, 1)
  const ONE_FLOW := Config(Policy(true, 0, 0, 1), 1, 1)

  function PacketAt(now: u64): Event {
    Event("a", false, 0, None, now)
  }

  function FlowAt(port: u16, now: u64): Event {
    Event("a", false, 0, Some(Flow(0, 17, 0, 0, port, 0)), now)
  }

  /** With one packet a second, two packets of second 1000 around a pass at 1600. */
  lemma SecondSpentTwice()
    ensures Judgeable(ONE_PACKET, PacketAt(1000), PacketAt(1000), 1600)
    ensures Packets(Reach(ONE_PACKET, 1, TwoEvents(PacketAt(1000), PacketAt(1000), 1600)).log, "a", 1000) == 2
    ensures Budgets.Logged(ONE_PACKET, NewWindows(1000), 0, PacketAt(1000)) == [Charge("a", 1000, 16, 0, false)]
  {
    var c, ev, x := ONE_PACKET, PacketAt(1000), Charge("a", 1000, 16, 0, false);
    assert Budgets.Logged(c, NewWindows(1000), 0, ev) == [x];
    TwoAllowances(c, ev, ev, 1600);
    LogAppend([], x, "a", 1000, 0);
    LogAppend([x], x, "a", 1000, 0);
    assert [] + [x] == [x];
  }

  /** With one new flow a minute, two new flows of minute 90 around a pass at 6000. */
  lemma MinuteSpentTwice()
    ensures Judgeable(ONE_FLOW, FlowAt(1, 5400), FlowAt(2, 5459), 6000)
    ensures NewFlows(Reach(ONE_FLOW, 1, TwoEvents(FlowAt(1, 5400), FlowAt(2, 5459), 6000)).log, "a", 90) == 2
    ensures Budgets.Logged(ONE_FLOW, NewWindows(5400), 0, FlowAt(1, 5400)) == [Charge("a", 5400, 90, 0, true)]
  {
    var c, a, b := ONE_FLOW, FlowAt(1, 5400), FlowAt(2, 5459);
    var x, y := Charge("a", 5400, 90, 0, true), Charge("a", 5459, 90, 0, true);
    assert Budgets.Logged(c, NewWindows(5400), 0, a) == [x];
    assert Budgets.Logged(c, NewWindows(5459), 0, b) == [y];
    assert map[a.flow.value := 5400].Keys == {a.flow.value};
    assert Budgets.Served(c, NewWindows(5400), 0, a).0.flows == map[a.flow.value := 5400];
    TwoAllowances(c, a, b, 6000);
    LogAppend([], x, "a", 0, 90);
    LogAppend([x], y, "a", 0, 90);
    assert [] + [x] == [x];
  }

  // --- Exactly how far ---

  /** Quiet runs whose stamps are kept; `flows` says whether policies that limit new flows are among them. */
  ghost predicate Admissible(c: Config, threads: nat, steps: seq<Step>, slack: int, flows: bool) {
    && (LimitsFlows(c.policy) ==> flows)
    && QuietAlong(c, threads, steps) && StampsKeptAlong(c, threads, steps, slack)
  }

  lemma StampsKeptFurther(c: Config, threads: nat, steps: seq<Step>, slack: int, more: int)
    requires StampsKeptAlong(c, threads, steps, slack) && slack <= more
    ensures StampsKeptAlong(c, threads, steps, more)
  {
    hide Reach, Enabled;
    forall n | 0 <= n < |steps|
      ensures StampKept(c, Reach(c, threads, steps[..n]), steps[n], more)
    {
      assert StampKept(c, Reach(c, threads, steps[..n]), steps[n], slack);
    }
  }

  /** With no packet admitted between the two reads of an eviction, every run stays within its budget
      if and only if accounts are created again by timestamps at most 599 seconds before the evicting
      pass, or at most 540 where new flows are limited. */
  lemma BudgetExactlyUpToSlack(slack: nat, flows: bool)
    ensures (forall c, threads, steps :: Admissible(c, threads, steps, slack, flows)
                                         ==> WithinBudget(c.policy, Reach(c, threads, steps).log))
            <==> slack <= if flows then 540 else 599
  {
    hide Reach, QuietAlong, StampsKeptAlong, TwoEvents, Judgeable, Budgets.Logged;
    if slack <= if flows then 540 else 599 {
      forall c, threads, steps | Admissible(c, threads, steps, slack, flows)
        ensures WithinBudget(c.policy, Reach(c, threads, steps).log)
      {
        WithinSlackStaysWithinBudget(c, threads, steps, slack);
      }
    } else if flows {
      var c, a, b := ONE_FLOW, FlowAt(1, 5400), FlowAt(2, 5459);
      MinuteSpentTwice();
      TwoAllowancesKeepStamps(c, a, b, 6000);
      StampsKeptFurther(c, 1, TwoEvents(a, b, 6000), 541, slack);
      assert Admissible(c, 1, TwoEvents(a, b, 6000), slack, flows);
      assert !WithinBudget(c.policy, Reach(c, 1, TwoEvents(a, b, 6000)).log);
    } else {
      var c, a := ONE_PACKET, PacketAt(1000);
      SecondSpentTwice();
      TwoAllowancesKeepStamps(c, a, a, 1600);
      StampsKeptFurther(c, 1, TwoEvents(a, a, 1600), 600, slack);
      assert Admissible(c, 1, TwoEvents(a, a, 1600), slack, flows);
      assert !WithinBudget(c.policy, Reach(c, 1, TwoEvents(a, a, 1600)).log);
    }
  }

  ghost predicate Leading(c: Config, threads: nat, steps: seq<Step>, lead: nat, minutes: bool) {
    (LimitsFlows(c.policy) ==> minutes) && LeadsAlong(c, threads, steps, lead, minutes)
  }

  lemma LeadsPrefix(c: Config, threads: nat, steps: seq<Step>, lead: nat, minutes: bool)
    requires steps != [] && LeadsAlong(c, threads, steps, lead, minutes)
    ensures LeadsAlong(c, threads, steps[..|steps| - 1], lead, minutes)
    ensures Leads(c, Reach(c, threads, steps[..|steps| - 1]), steps[|steps| - 1], lead, minutes)
  {
    hide Reach, Leads;
    var before := steps[..|steps| - 1];
    forall n | 0 <= n < |before|
      ensures Leads(c, Reach(c, threads, before[..n]), before[n], lead, minutes)
    {
      assert before[..n] == steps[..n];
    }
  }

  lemma CreatedLaterOneMore(c: Config, threads: nat, steps: seq<Step>)
    requires steps != [] && CreatedLaterAlong(c, threads, steps[..|steps| - 1])
    requires CreatedLater(c, Reach(c, threads, steps[..|steps| - 1]), steps[|steps| - 1])
    ensures CreatedLaterAlong(c, threads, steps)
  {
    hide Reach, CreatedLater;
    var before := steps[..|steps| - 1];
    forall n | 0 <= n < |steps|
      ensures CreatedLater(c, Reach(c, threads, steps[..n]), steps[n])
    {
      if n < |before| {
        assert before[..n] == steps[..n] && before[n] == steps[n];
        assert CreatedLater(c, Reach(c, threads, before[..n]), before[n]);
      }
    }
  }

  lemma {:induction false} LeadingIsLater(c: Config, threads: nat, steps: seq<Step>, lead: nat, minutes: bool)
    requires LimitsFlows(c.policy) ==> minutes
    requires LeadsAlong(c, threads, steps, lead, minutes) && lead >= 1
    ensures CreatedLaterAlong(c, threads, steps)
    decreases |steps|
  {
    if steps == [] {
    } else {
      hide Reach, Structure, Enabled, BoundInv, Leads, CreatedLater, Shape, CreatedLaterAlong, LeadsAlong;
      var before := steps[..|steps| - 1];
      LeadsPrefix(c, threads, steps, lead, minutes);
      LeadingIsLater(c, threads, before, lead, minutes);
      ReachKeepsBounds(c, threads, before);
      LeadIsLater(c, Reach(c, threads, before), steps[|steps| - 1], lead, minutes);
      CreatedLaterOneMore(c, threads, steps);
    }
  }

  lemma LeadIsLater(c: Config, s: State, step: Step, lead: nat, minutes: bool)
    requires BoundInv(c, s) && Shape(s) && lead >= 1 && Leads(c, s, step, lead, minutes)
    requires LimitsFlows(c.policy) ==> minutes
    ensures CreatedLater(c, s, step)
  {
    hide Structure, Enabled, WithinBudget, AccountBound;
  }

  /** Whatever happens around evictions, every run stays within its budget if and only if an account is
      created in a later second than its user's last charge, or, where new flows are limited, in a
      later minute. */
  lemma BudgetExactlyAfterLastCharge(lead: nat, minutes: bool)
    ensures (forall c, threads, steps :: Leading(c, threads, steps, lead, minutes)
                                         ==> WithinBudget(c.policy, Reach(c, threads, steps).log))
            <==> lead >= 1
  {
    hide Reach, LeadsAlong, TwoEvents, Judgeable, Budgets.Logged, CreatedLaterAlong;
    if lead >= 1 {
      forall c, threads, steps | Leading(c, threads, steps, lead, minutes)
        ensures WithinBudget(c.policy, Reach(c, threads, steps).log)
      {
        LeadingIsLater(c, threads, steps, lead, minutes);
        ReachKeepsBounds(c, threads, steps);
      }
    } else if minutes {
      var c, a, b := ONE_FLOW, FlowAt(1, 5400), FlowAt(2, 5459);
      MinuteSpentTwice();
      TwoAllowancesLead(c, a, b, 6000, 0, true);
      assert Leading(c, 1, TwoEvents(a, b, 6000), lead, minutes);
      assert !WithinBudget(c.policy, Reach(c, 1, TwoEvents(a, b, 6000)).log);
    } else {
      var c, a := ONE_PACKET, PacketAt(1000);
      SecondSpentTwice();
      TwoAllowancesLead(c, a, a, 1600, 0, false);
      assert Leading(c, 1, TwoEvents(a, a, 1600), lead, minutes);
      assert !WithinBudget(c.policy, Reach(c, 1, TwoEvents(a, a, 1600)).log);
    }
  }

  // --- A packet between the two reads ---

  /** An event whose thread takes the account just before the first read and is done before the second. */
  function OvertakingSteps(t: nat, ev: Event, now: u64): seq<Step> {
    [Start(t, ev), Suspect(ev.user, now), Touch(t), Lock(t), PayStale(t), Judge(t), Reserve(t), Track(t), Finish(t)]
  }

  /** The thread starts, and the account is found idle. */
  lemma FoundIdle(c: Config, s: State, t: nat, ev: Event, now: u64) returns (s2: State, e: Budgets.Entry)
    requires Structure(s) && Shape(s) && Budgets.Undisturbed(s, t, ev) && s.keeper == Resting && ev.user in s.table
    requires SatSub(now, s.accounts[s.table[ev.user]].lastUsed) >= ACCOUNT_IDLE_SECONDS
    ensures s2 == Next(c, Next(c, s, Start(t, ev)), Suspect(ev.user, now))
    ensures e == Budgets.Books(s)[ev.user] && ev.user in s2.table && s2.slots == s.slots && s2.log == s.log
    ensures Budgets.At(s.(keeper := Suspecting(ev.user, now, |s.log|)),
                       s2, t, ev.user, e, Got(s2.table[ev.user], ev), false)
  {
    hide Structure, SatSub;
    var s1;
    s1, e := Budgets.StartAt(c, s, t, ev);
    s2 := Next(c, s1, Suspect(ev.user, now));
    assert Budgets.Books(s)[ev.user] == e;
    assert s2 == s1.(keeper := Suspecting(ev.user, now, |s.log|));
    assert Budgets.Books(s2) == Budgets.Books(s1);
    assert Budgets.Books(s.(keeper := Suspecting(ev.user, now, |s.log|))) == Budgets.Books(s);
  }

  lemma Overtakes(c: Config, s: State, t: nat, ev: Event, now: u64)
    requires Structure(s) && Shape(s) && Budgets.Undisturbed(s, t, ev) && s.keeper == Resting && ev.user in s.table
    requires SatSub(now, s.accounts[s.table[ev.user]].lastUsed) >= ACCOUNT_IDLE_SECONDS
    ensures var s', e := Exec(c, s, OvertakingSteps(t, ev, now)), Budgets.AccountFor(Budgets.Books(s), ev);
            && s'.threads == s.threads && s'.keeper == Suspecting(ev.user, now, |s.log|) && s'.evictedAt == s.evictedAt
            && s'.log == s.log + Budgets.Logged(c, e.w, s.slots, ev)
            && var (w, n, ok) := Budgets.Served(c, e.w, s.slots, ev);
            && s'.slots == n && ev.user in s'.table && Budgets.Books(s') == Budgets.Books(s)[ev.user := e.(w := w)]
  {
    hide Structure, SatSub, Enabled, Exec, Next, OvertakingSteps;
    hide Budgets.Served, Budgets.Swept, Budgets.SlotsAfterSweep, Budgets.Logged;
    var s0, steps := s.(keeper := Suspecting(ev.user, now, |s.log|)), OvertakingSteps(t, ev, now);
    var s2, e1 := FoundIdle(c, s, t, ev, now);
    var s3, e := Budgets.TouchAt(c, s0, s2, t, ev, e1);
    var s5 := Budgets.LockAt(c, s0, s3, t, ev, e);
    var s8 := Budgets.ServeAt(c, s0, s5, t, ev, e.(w := Budgets.Swept(e.w, ev)), e.w, s.slots);
    Budgets.FinishAt(c, s0, s8, t, ev, e.(w := Budgets.Served(c, e.w, s.slots, ev).0));
    assert Budgets.Books(s0) == Budgets.Books(s);
    OvertakingRun(c, s, t, ev, now);
  }

  lemma OvertakingRun(c: Config, s: State, t: nat, ev: Event, now: u64)
    requires Structure(s) && Shape(s)
    ensures Exec(c, s, OvertakingSteps(t, ev, now)) ==
            var s2 := Next(c, Next(c, s, Start(t, ev)), Suspect(ev.user, now));
            var s5 := Next(c, Next(c, Next(c, s2, Touch(t)), Lock(t)), PayStale(t));
            Next(c, Next(c, Next(c, Next(c, s5, Judge(t)), Reserve(t)), Track(t)), Finish(t))
  {
    hide Structure, Shape, Next;
    var steps := OvertakingSteps(t, ev, now);
    var r1 := Budgets.ExecNext(c, s, steps, 0, s);
    var r2 := Budgets.ExecNext(c, s, steps, 1, r1);
    var r3 := Budgets.ExecNext(c, s, steps, 2, r2);
    var r4 := Budgets.ExecNext(c, s, steps, 3, r3);
    var r5 := Budgets.ExecNext(c, s, steps, 4, r4);
    var r6 := Budgets.ExecNext(c, s, steps, 5, r5);
    var r7 := Budgets.ExecNext(c, s, steps, 6, r6);
    var r8 := Budgets.ExecNext(c, s, steps, 7, r7);
    var r9 := Budgets.ExecNext(c, s, steps, 8, r8);
    assert steps[..9] == steps;
  }

  function DisturbedSteps(stamp: u64): seq<Step> {
    Budgets.EventSteps(0, PacketAt(300)) + OvertakingSteps(1, PacketAt(stamp), 1000) + [Evict, PayDropped]
    + Budgets.EventSteps(0, PacketAt(stamp))
  }

  lemma OnePacketServed(w: Windows, now: u64)
    requires now > w.second && w.minute == w.second / 60
    ensures Budgets.Logged(ONE_PACKET, w, 0, PacketAt(now)) == [Charge("a", now, now / 60, 0, false)]
    ensures var (w', n, ok) := Budgets.Served(ONE_PACKET, w, 0, PacketAt(now)); n == 0 && w'.flows == w.flows
  {
  }

  lemma FirstPacketServed(now: u64)
    ensures Budgets.Logged(ONE_PACKET, NewWindows(now), 0, PacketAt(now)) == [Charge("a", now, now / 60, 0, false)]
    ensures var (w, n, ok) := Budgets.Served(ONE_PACKET, NewWindows(now), 0, PacketAt(now));
            n == 0 && w.flows == map[] && w.second == now && w.minute == now / 60
  {
  }

  /** Where the run stands after its first event. */
  lemma AfterFirstPacket() returns (s1: State, w: Windows)
    ensures s1 == Reach(ONE_PACKET, 2, Budgets.EventSteps(0, PacketAt(300)))
    ensures AllIdle(s1) && |s1.threads| == 2 && s1.keeper == Resting && s1.evictedAt == map[] && s1.slots == 0
    ensures s1.log == [Charge("a", 300, 5, 0, false)] && Budgets.Books(s1) == map["a" := Budgets.Entry(300, w)]
    ensures "a" in s1.table && s1.accounts[s1.table["a"]].lastUsed == 300 && s1.accounts[s1.table["a"]].lock == Nobody
    ensures w.flows == map[] && w.second == 300 && w.minute == 5
  {
    hide Structure, Budgets.Served, Budgets.Logged, NewWindows, Exec, Reach;
    var c, e0 := ONE_PACKET, Budgets.EventSteps(0, PacketAt(300));
    ReachEmpty(c, 2);
    ReachConcat(c, 2, [], e0);
    assert [] + e0 == e0;
    FirstEvent(c, Init(2), PacketAt(300));
    FirstPacketServed(300);
    LockFree(c, Init(2), PacketAt(300));
    s1 := Reach(c, 2, e0);
    w := Budgets.Served(c, NewWindows(300), 0, PacketAt(300)).0;
  }

  lemma DisturbedSlices(stamp: u64)
    ensures var e0, o := Budgets.EventSteps(0, PacketAt(300)), OvertakingSteps(1, PacketAt(stamp), 1000);
            var steps := DisturbedSteps(stamp);
            && |steps| == 27 && steps[..8] == e0 && steps[..17] == e0 + o && steps[..19] == e0 + o + [Evict, PayDropped]
            && steps[17] == Evict && steps == steps[..19] + Budgets.EventSteps(0, PacketAt(stamp))
  {
  }

  /** Where it stands at the second read, and after the eviction. */
  lemma DisturbedStates(stamp: u64) returns (s1: State, s2: State, s3: State)
    requires stamp >= 1000
    ensures |DisturbedSteps(stamp)| == 27
    ensures s1 == Reach(ONE_PACKET, 2, DisturbedSteps(stamp)[..8]) && s1.evictedAt == map[]
    ensures s2 == Reach(ONE_PACKET, 2, DisturbedSteps(stamp)[..17]) && Evicts(s2)
    ensures s3 == Reach(ONE_PACKET, 2, DisturbedSteps(stamp)[..19])
    ensures s2.log == s3.log == [Charge("a", 300, 5, 0, false), Charge("a", stamp, stamp / 60, 0, false)]
    ensures s2.keeper == Suspecting("a", 1000, 1) && s3.evictedAt == map["a" := 1000]
    ensures AllIdle(s3) && |s3.threads| == 2 && s3.keeper == Resting && s3.table == map[] && s3.slots == 0
  {
    hide Structure, Budgets.Served, Budgets.Logged, Exec, Enabled, Reach, Next, Apply;
    hide OvertakingSteps, DisturbedSteps, Budgets.EventSteps;
    var c, late := ONE_PACKET, PacketAt(stamp);
    var e0, o, e := Budgets.EventSteps(0, PacketAt(300)), OvertakingSteps(1, late, 1000), [Evict, PayDropped];
    var w;
    s1, w := AfterFirstPacket();
    OnePacketServed(w, stamp);
    Overtakes(c, s1, 1, late, 1000);
    ReachConcat(c, 2, e0, o);
    s2 := Reach(c, 2, e0 + o);
    EvictionEnds(c, s2);
    ReachConcat(c, 2, e0 + o, e);
    TwoSteps(c, s2, Evict, PayDropped);
    s3 := Reach(c, 2, e0 + o + e);
    assert s2.table.Keys == Budgets.Books(s2).Keys == {"a"};
    DisturbedSlices(stamp);
  }

  lemma LockFree(c: Config, s: State, ev: Event)
    requires Structure(s) && Shape(s) && AllIdle(s) && |s.threads| > 0 && s.keeper == Resting
    requires s.table == map[] && c.accountLimit > 0
    ensures var s' := Exec(c, s, Budgets.EventSteps(0, ev));
            ev.user in s'.table && s'.accounts[s'.table[ev.user]].lock == Nobody
  {
    hide Structure, Budgets.Served, Budgets.Logged, NewWindows, Exec;
    FirstEvent(c, s, ev);
    assert Budgets.Books(s) == map[];
    Budgets.UndisturbedEventIsSequential(c, s, 0, ev);
  }

  lemma TwoSteps(c: Config, s: State, a: Step, b: Step)
    requires Structure(s) && Shape(s)
    ensures Exec(c, s, [a, b]) == Next(c, Next(c, s, a), b)
  {
    hide Structure, Shape, Next;
    var r1 := Budgets.ExecNext(c, s, [a, b], 0, s);
    var r2 := Budgets.ExecNext(c, s, [a, b], 1, r1);
    assert [a, b][..2] == [a, b];
  }

  /** The account looks idle to the first read, a thread that holds it is then charged and gone before
      the second, and the account is evicted: its allowance is spent again.  No distance between the
      pass and the stamp that creates the account again prevents it. */
  lemma DisturbedEvictionSpendsTwice(lead: nat)
    requires 1000 + lead <= U64_MAX
    ensures var stamp, steps := 1000 + lead, DisturbedSteps(1000 + lead);
            && StampsKeptAlong(ONE_PACKET, 2, steps, 0 - lead)
            && !QuietAlong(ONE_PACKET, 2, steps)
            && Packets(Reach(ONE_PACKET, 2, steps).log, "a", stamp) == 2
  {
    hide Exec, Enabled, Reach, Next, StampsKeptAlong, DisturbedSteps, Packets, Evicts;
    var c, stamp, steps := ONE_PACKET, 1000 + lead, DisturbedSteps(1000 + lead);
    var s1, s2, s3 := DisturbedStates(stamp);
    DisturbedLog(stamp, s3);
    DisturbedStamps(stamp, s1, s3, lead);
    DisturbedSlices(stamp);
    assert s2.log[1].user == s2.keeper.user;
    assert !QuietEviction(Reach(c, 2, steps[..17]), steps[17]);
  }

  lemma DisturbedLog(stamp: u64, s3: State)
    requires |DisturbedSteps(stamp)| == 27 && s3 == Reach(ONE_PACKET, 2, DisturbedSteps(stamp)[..19])
    requires s3.log == [Charge("a", 300, 5, 0, false), Charge("a", stamp, stamp / 60, 0, false)] && stamp >= 1000
    requires AllIdle(s3) && |s3.threads| == 2 && s3.keeper == Resting && s3.table == map[] && s3.slots == 0
    ensures Packets(Reach(ONE_PACKET, 2, DisturbedSteps(stamp)).log, "a", stamp) == 2
  {
    hide Structure, Budgets.Served, Budgets.Logged, NewWindows, Exec, Enabled, Reach, Next, DisturbedSteps, Packets;
    hide Budgets.EventSteps;
    var c, steps, e := ONE_PACKET, DisturbedSteps(stamp), Budgets.EventSteps(0, PacketAt(stamp));
    var x, y := Charge("a", 300, 5, 0, false), Charge("a", stamp, stamp / 60, 0, false);
    FirstEvent(c, s3, PacketAt(stamp));
    FirstPacketServed(stamp);
    ReachConcat(c, 2, steps[..19], e);
    DisturbedSlices(stamp);
    assert Reach(c, 2, steps).log == [x, y] + [y];
    TwoCharges(x, y, stamp);
  }

  lemma TwoCharges(x: Charge, y: Charge, stamp: u64)
    requires x.user == y.user == "a" && x.second != stamp && y.second == stamp
    ensures Packets([x, y] + [y], "a", stamp) == 2
  {
    LogAppend([], x, "a", stamp, 0);
    LogAppend([x], y, "a", stamp, 0);
    LogAppend([x] + [y], y, "a", stamp, 0);
    assert [] + [x] == [x] && [x] + [y] == [x, y];
  }

  lemma DisturbedStarts(stamp: u64, n: nat)
    requires n < |DisturbedSteps(stamp)|
    ensures var steps := DisturbedSteps(stamp);
            steps[n].Start? ==> n == 0 || n == 8 || (n == 19 && steps[19] == Start(0, PacketAt(stamp)))
  {
  }

  lemma DisturbedStamps(stamp: u64, s1: State, s3: State, lead: nat)
    requires stamp >= 1000 + lead && s1 == Reach(ONE_PACKET, 2, DisturbedSteps(stamp)[..8]) && s1.evictedAt == map[]
    requires s3 == Reach(ONE_PACKET, 2, DisturbedSteps(stamp)[..19]) && s3.evictedAt == map["a" := 1000]
    ensures StampsKeptAlong(ONE_PACKET, 2, DisturbedSteps(stamp), 0 - lead)
  {
    hide Reach, DisturbedSteps, Enabled;
    var steps := DisturbedSteps(stamp);
    ReachEmpty(ONE_PACKET, 2);
    forall n | 0 <= n < |steps|
      ensures StampKept(ONE_PACKET, Reach(ONE_PACKET, 2, steps[..n]), steps[n], 0 - lead)
    {
      DisturbedStarts(stamp, n);
      assert steps[..0] == [];
    }
  }
}
