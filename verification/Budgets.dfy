/** Account budgets run by one thread at a time: `Budgets::event` and `Budgets::maintain` on the
    account table.  The interleaved form is in BudgetThreads; the last theorem here connects the two. */
module Budgets {
  import opened Bytes
  import opened AccountBudget
  import Threads = BudgetThreads

  type Config = Threads.Config

  datatype Entry = Entry(lastUsed: u64, w: Windows)

  /** Every tracked flow, with the account it belongs to. */
  ghost function AllFlows(accounts: map<string, Entry>): set<(string, Flow)> {
    set u, f | u in accounts && f in accounts[u].w.flows :: (u, f)
  }

  ghost function FlowsOf(u: string, flows: set<Flow>): set<(string, Flow)> {
    set f | f in flows :: (u, f)
  }

  lemma {:induction false} FlowsOfSize(u: string, flows: set<Flow>)
    ensures |FlowsOf(u, flows)| == |flows|
    decreases |flows|
  {
    if flows != {} {
      var f :| f in flows;
      FlowsOfSize(u, flows - {f});
      assert FlowsOf(u, flows) == FlowsOf(u, flows - {f}) + {(u, f)};
    }
  }

  lemma AllFlowsRemove(accounts: map<string, Entry>, u: string)
    requires u in accounts
    ensures |AllFlows(accounts - {u})| + |accounts[u].w.flows| == |AllFlows(accounts)|
  {
    var rest, own := AllFlows(accounts - {u}), FlowsOf(u, accounts[u].w.flows.Keys);
    FlowsOfSize(u, accounts[u].w.flows.Keys);
    forall p: (string, Flow)
      ensures p in AllFlows(accounts) <==> p in rest || p in own
    {
      FlowIn(accounts, p);
      FlowIn(accounts - {u}, p);
    }
    assert AllFlows(accounts) == rest + own;
  }

  lemma FlowIn(accounts: map<string, Entry>, p: (string, Flow))
    ensures p in AllFlows(accounts) <==> p.0 in accounts && p.1 in accounts[p.0].w.flows
  {
    assert p == (p.0, p.1);
  }

  function Tracking(accounts: map<string, Entry>, u: string): nat {
    if u in accounts then |accounts[u].w.flows| else 0
  }

  /** Replacing one account's flows changes the total by the difference. */
  lemma AllFlowsUpdate(accounts: map<string, Entry>, u: string, e: Entry)
    ensures |AllFlows(accounts[u := e])| + Tracking(accounts, u) == |AllFlows(accounts)| + |e.w.flows|
  {
    hide AllFlows;
    AllFlowsRemove(accounts[u := e], u);
    assert accounts[u := e] - {u} == accounts - {u};
    if u in accounts {
      AllFlowsRemove(accounts, u);
    } else {
      assert accounts - {u} == accounts;
    }
  }

  // --- What one event does to its account ---

  function Swept(w: Windows, ev: Event): Windows {
    var r := Rolled(w, ev.now);
    if IsStale(r, ev.flow) then r.(flows := r.flows - {ev.flow.value}) else r
  }

  function SlotsAfterSweep(w: Windows, ev: Event, slots: int): int {
    if IsStale(Rolled(w, ev.now), ev.flow) then slots - 1 else slots
  }

  /** Windows, slots and answer after the account's lock is released. */
  function Served(c: Config, w: Windows, slots: int, ev: Event): (Windows, int, bool) {
    var slots1 := SlotsAfterSweep(w, ev, slots);
    var (d, verdict) := Decide(c.policy, Swept(w, ev), ev);
    match verdict
    case Refuse => (d, slots1, false)
    case Admit => (d, slots1, true)
    case NeedSlot =>
      if slots1 < c.flowLimit && ev.flow.Some? then (Tracked(d, ev.flow.value), slots1 + 1, true)
      else (NoSlot(c.policy, d), slots1, !c.policy.enforce)
  }

  function AccountFor(accounts: map<string, Entry>, ev: Event): Entry {
    var e := if ev.user in accounts then accounts[ev.user] else Entry(ev.now, NewWindows(ev.now));
    if e.lastUsed < ev.now then e.(lastUsed := ev.now) else e
  }

  predicate NoRoom(c: Config, accounts: map<string, Entry>, user: string) {
    user !in accounts && |accounts| >= c.accountLimit
  }

  /** The accounts after an event, and its answer. */
  ghost function Offered(c: Config, accounts: map<string, Entry>, ev: Event): (map<string, Entry>, bool) {
    if NoRoom(c, accounts, ev.user) then (accounts, !c.policy.enforce)
    else
      var e := AccountFor(accounts, ev);
      var (w, _, ok) := Served(c, e.w, |AllFlows(accounts)|, ev);
      (accounts[ev.user := e.(w := w)], ok)
  }

  predicate IsIdle(e: Entry, now: u64) {
    SatSub(now, e.lastUsed) >= ACCOUNT_IDLE_SECONDS
  }

  function Refreshed(e: Entry, now: u64): Entry {
    e.(w := e.w.(flows := LiveFlows(e.w.flows, now)))
  }

  /** What a maintenance pass leaves. */
  function Kept(accounts: map<string, Entry>, now: u64): map<string, Entry> {
    map u | u in accounts && !IsIdle(accounts[u], now) :: Refreshed(accounts[u], now)
  }

  class Table {
    const c: Config
    var accounts: map<string, Entry>
    var slots: nat
    var capacityPackets: nat
    var capacityDrops: nat

    /** The counter is the number of tracked flows, and within its limit. */
    ghost predicate Valid()
      reads this
    {
      slots == |AllFlows(accounts)| <= c.flowLimit
    }

    constructor (c: Config)
      ensures Valid() && this.c == c && accounts == map[] && slots == 0
      ensures capacityPackets == 0 && capacityDrops == 0
    {
      this.c := c;
      accounts, slots, capacityPackets, capacityDrops := map[], 0, 0, 0;
      new;
      assert AllFlows(accounts) == {};
    }

    /** The part of an event that runs under the account's lock. */
    method Serve(before: Windows, ev: Event) returns (w: Windows, allowed: bool)
      requires |before.flows| <= slots <= c.flowLimit
      modifies this`slots
      ensures (w, slots, allowed) == Served(c, before, old(slots), ev)
      ensures slots - |w.flows| == old(slots) - |before.flows| && slots <= c.flowLimit
    {
      hide Rolled, Decide;
      w := Rolled(before, ev.now);
      RolledFacts(before, ev.now);
      if IsStale(w, ev.flow) {
        RemoveOne(w.flows, ev.flow.value);
        w := w.(flows := w.flows - {ev.flow.value});
        slots := slots - 1;
      }
      DecideFacts(c.policy, w, ev);
      var (decided, verdict) := Decide(c.policy, w, ev);
      w, allowed := decided, verdict != Refuse;
      if verdict == NeedSlot {
        if slots < c.flowLimit {
          slots := slots + 1;
          AddOne(w.flows, ev.flow.value, w.second);
          w := Tracked(w, ev.flow.value);
        } else {
          w, allowed := NoSlot(c.policy, w), !c.policy.enforce;
        }
      }
    }

    /** One packet: the account is found or created, touched, charged, and the packet judged. */
    method Event(ev: Event) returns (allowed: bool)
      requires Valid()
      modifies this
      ensures Valid()
      ensures (accounts, allowed) == Offered(c, old(accounts), ev)
      ensures !c.policy.enforce ==> allowed
      ensures old(NoRoom(c, accounts, ev.user)) ==>
                && accounts == old(accounts) && slots == old(slots) && allowed == !c.policy.enforce
                && capacityPackets == old(capacityPackets) + 1
                && capacityDrops == old(capacityDrops) + if c.policy.enforce then 1 else 0
      ensures !old(NoRoom(c, accounts, ev.user)) ==>
                && capacityPackets == old(capacityPackets) && capacityDrops == old(capacityDrops)
                && var e := AccountFor(old(accounts), ev);
                && var (w, n, ok) := Served(c, e.w, old(slots), ev);
                && accounts == old(accounts)[ev.user := e.(w := w)] && slots == n && allowed == ok
    {
      hide AllFlows, Served, NewWindows;
      if ev.user !in accounts && |accounts| >= c.accountLimit {
        capacityPackets := capacityPackets + 1;
        if c.policy.enforce {
          capacityDrops := capacityDrops + 1;
        }
        return !c.policy.enforce;
      }
      if ev.user !in accounts {
        assert |NewWindows(ev.now).flows| == 0 by { FreshAccount(ev.now); }
        AllFlowsUpdate(accounts, ev.user, Entry(ev.now, NewWindows(ev.now)));
        accounts := accounts[ev.user := Entry(ev.now, NewWindows(ev.now))];
      }
      var e := accounts[ev.user];
      if e.lastUsed < ev.now {
        e := e.(lastUsed := ev.now);
      }
      AllFlowsRemove(accounts, ev.user);
      var w;
      w, allowed := Serve(e.w, ev);
      AllFlowsUpdate(accounts, ev.user, e.(w := w));
      ObserversAllow(c, e.w, old(slots), ev);
      accounts := accounts[ev.user := e.(w := w)];
      assert accounts == old(accounts)[ev.user := e.(w := w)];
    }

    /** Evict idle accounts, giving back their slots. */
    method EvictIdle(now: u64)
      requires Valid()
      modifies this`accounts, this`slots
      ensures Valid()
      ensures accounts == map u | u in old(accounts) && !IsIdle(old(accounts)[u], now) :: old(accounts)[u]
    {
      hide AllFlows;
      var todo := accounts.Keys;
      while todo != {}
        invariant Valid()
        invariant todo <= accounts.Keys <= old(accounts).Keys
        invariant forall u :: u in accounts ==> accounts[u] == old(accounts)[u]
        invariant forall u :: u in old(accounts) && u !in todo ==> (u in accounts <==> !IsIdle(old(accounts)[u], now))
        decreases |todo|
      {
        var u :| u in todo;
        if SatSub(now, accounts[u].lastUsed) >= ACCOUNT_IDLE_SECONDS {
          AllFlowsRemove(accounts, u);
          slots := slots - |accounts[u].w.flows|;
          accounts := accounts - {u};
        }
        todo := todo - {u};
      }
    }

    /** Forget idle flows, giving back their slots. */
    method ForgetIdleFlows(now: u64)
      requires Valid()
      modifies this`accounts, this`slots
      ensures Valid()
      ensures accounts == map u | u in old(accounts) :: Refreshed(old(accounts)[u], now)
    {
      hide AllFlows, LiveFlows;
      var todo := accounts.Keys;
      while todo != {}
        invariant Valid()
        invariant todo <= accounts.Keys == old(accounts).Keys
        invariant forall u :: u in todo ==> accounts[u] == old(accounts)[u]
        invariant forall u :: u in accounts && u !in todo ==> accounts[u] == Refreshed(old(accounts)[u], now)
        decreases |todo|
      {
        var u :| u in todo;
        var e := accounts[u];
        AllFlowsUpdate(accounts, u, Refreshed(e, now));
        LiveFlowsFewer(e.w.flows, now);
        slots := slots - (|e.w.flows| - |LiveFlows(e.w.flows, now)|);
        accounts := accounts[u := Refreshed(e, now)];
        todo := todo - {u};
      }
    }

    /** A maintenance pass. */
    method Maintain(now: u64)
      requires Valid()
      modifies this`accounts, this`slots
      ensures Valid()
      ensures accounts == Kept(old(accounts), now)
    {
      EvictIdle(now);
      ForgetIdleFlows(now);
    }
  }

  /** Without enforcement every packet passes. */
  lemma ObserversAllow(c: Config, w: Windows, slots: int, ev: Event)
    ensures !c.policy.enforce ==> Served(c, w, slots, ev).2
  {
  }

  lemma FreshAccount(now: u64)
    ensures |NewWindows(now).flows| == 0
  {
  }

  // --- The interleaved form, run without interference, is the sequential form ---

  /** The account table of an interleaved state, without locks and references. */
  function Books(s: Threads.State): map<string, Entry>
    requires Threads.TableOk(s)
  {
    map u | u in s.table :: Entry(s.accounts[s.table[u]].lastUsed, s.accounts[s.table[u]].w)
  }

  /** Whether the event opens a tracked flow. */
  predicate Opens(c: Config, w: Windows, slots: int, ev: Event) {
    Decide(c.policy, Swept(w, ev), ev).1 == NeedSlot && SlotsAfterSweep(w, ev, slots) < c.flowLimit
  }

  /** What the log gains by an event. */
  function Logged(c: Config, w: Windows, slots: int, ev: Event): seq<Threads.Charge> {
    var (w', n, ok) := Served(c, w, slots, ev);
    if ok then [Threads.Charge(ev.user, w'.second, w'.minute, ev.bytes, Opens(c, w, slots, ev))] else []
  }

  /** Thread t is idle, and nobody holds the account it is about to use, by lock or table entry. */
  predicate Undisturbed(s: Threads.State, t: nat, ev: Event)
    requires Threads.TableOk(s)
  {
    && t < |s.threads| && s.threads[t].Idle?
    && (ev.user in s.table ==> s.accounts[s.table[ev.user]].lock == Threads.Nobody)
    && !Threads.Suspects(s.keeper, ev.user)
  }

  /** Thread t, alone, has got as far as `pc` with the account standing at `e`. */
  ghost predicate At(s0: Threads.State, s: Threads.State, t: nat, user: string,
                     e: Entry, pc: Threads.Pc, locked: bool)
    requires Threads.TableOk(s0)
  {
    && Threads.Structure(s) && Threads.Shape(s)
    && t < |s0.threads| && s.threads == s0.threads[t := pc] && s.keeper == s0.keeper && s.evictedAt == s0.evictedAt
    && user in s.table && (pc != Threads.Idle ==> pc.id == s.table[user])
    && s.accounts[s.table[user]].lock == (if locked then Threads.Packet(t) else Threads.Nobody)
    && s.accounts[s.table[user]].w == e.w && s.accounts[s.table[user]].lastUsed == e.lastUsed
    && Books(s) == Books(s0)[user := e]
  }

  /** A change to one account shows in the books under its user's name alone. */
  lemma BooksUpdate(s: Threads.State, s': Threads.State, user: string)
    requires Threads.Structure(s) && Threads.TableOk(s')
    requires s'.table == s.table && user in s.table && |s'.accounts| == |s.accounts|
    requires s'.accounts == s.accounts[s.table[user] := s'.accounts[s.table[user]]]
    ensures var a := s'.accounts[s.table[user]]; Books(s') == Books(s)[user := Entry(a.lastUsed, a.w)]
  {
    hide Threads.ThreadInv, Threads.AccountInv, Threads.KeeperInv;
    forall u | u in s.table && u != user
      ensures s.table[u] != s.table[user]
    {
      assert s.accounts[s.table[u]].user == u;
    }
  }

  /** Start finds or creates the account. */
  lemma StartAt(c: Config, s: Threads.State, t: nat, ev: Event) returns (s1: Threads.State, e: Entry)
    requires Threads.Structure(s) && Threads.Shape(s) && Undisturbed(s, t, ev)
    requires !NoRoom(c, Books(s), ev.user)
    ensures s1 == Threads.Next(c, s, Threads.Start(t, ev))
    ensures e == if ev.user in Books(s) then Books(s)[ev.user] else Entry(ev.now, NewWindows(ev.now))
    ensures ev.user in s1.table && s1.slots == s.slots && s1.log == s.log
    ensures At(s, s1, t, ev.user, e, Threads.Got(s1.table[ev.user], ev), false)
  {
    hide Threads.Structure, NewWindows;
    assert |Books(s)| == |s.table| by { assert Books(s).Keys == s.table.Keys; }
    s1 := Threads.Next(c, s, Threads.Start(t, ev));
    e := if ev.user in Books(s) then Books(s)[ev.user] else Entry(ev.now, NewWindows(ev.now));
    assert Books(s1) == Books(s)[ev.user := e];
  }

  /** Raising `last_used`. */
  lemma TouchAt(c: Config, s0: Threads.State, s: Threads.State, t: nat, ev: Event, e: Entry)
    returns (s2: Threads.State, e': Entry)
    requires Threads.TableOk(s0) && ev.user in s.table
    requires At(s0, s, t, ev.user, e, Threads.Got(s.table[ev.user], ev), false)
    ensures s2 == Threads.Next(c, s, Threads.Touch(t))
    ensures e' == if e.lastUsed < ev.now then e.(lastUsed := ev.now) else e
    ensures ev.user in s2.table && s2.slots == s.slots && s2.log == s.log
    ensures At(s0, s2, t, ev.user, e', Threads.Touched(s2.table[ev.user], ev), false)
  {
    hide Threads.Structure, Books;
    s2 := Threads.Next(c, s, Threads.Touch(t));
    e' := if e.lastUsed < ev.now then e.(lastUsed := ev.now) else e;
    BooksUpdate(s, s2, ev.user);
  }

  /** Locking, rolling the windows, and giving back a stale flow's slot. */
  lemma LockAt(c: Config, s0: Threads.State, s: Threads.State, t: nat, ev: Event, e: Entry)
    returns (s4: Threads.State)
    requires Threads.TableOk(s0) && ev.user in s.table
    requires At(s0, s, t, ev.user, e, Threads.Touched(s.table[ev.user], ev), false)
    ensures s4 == Threads.Next(c, Threads.Next(c, s, Threads.Lock(t)), Threads.PayStale(t))
    ensures ev.user in s4.table && s4.slots == SlotsAfterSweep(e.w, ev, s.slots) && s4.log == s.log
    ensures At(s0, s4, t, ev.user, e.(w := Swept(e.w, ev)), Threads.Ready(s4.table[ev.user], ev), true)
  {
    hide Threads.Structure, Books, Rolled, IsStale, Threads.InUse;
    var s3 := Threads.Next(c, s, Threads.Lock(t));
    s4 := Threads.Next(c, s3, Threads.PayStale(t));
    BooksUpdate(s, s4, ev.user);
  }

  /** Charging and deciding. */
  lemma JudgeAt(c: Config, s0: Threads.State, s: Threads.State, t: nat, ev: Event, e: Entry)
    returns (s5: Threads.State)
    requires Threads.TableOk(s0) && ev.user in s.table
    requires At(s0, s, t, ev.user, e, Threads.Ready(s.table[ev.user], ev), true)
    ensures s5 == Threads.Next(c, s, Threads.Judge(t)) && ev.user in s5.table && s5.slots == s.slots
    ensures var (d, verdict) := Decide(c.policy, e.w, ev);
            && s5.log == s.log + (if verdict == Admit then [Threads.ChargeFor(d, ev, false)] else [])
            && At(s0, s5, t, ev.user, e.(w := d),
                  if verdict == NeedSlot then Threads.Reserving(s5.table[ev.user], ev)
                  else Threads.Done(s5.table[ev.user]), verdict == NeedSlot)
  {
    hide Threads.Structure, Books, Decide;
    s5 := Threads.Next(c, s, Threads.Judge(t));
    BooksUpdate(s, s5, ev.user);
  }

  /** Reserving a slot for a new flow and tracking the flow, if the packet was left waiting for one. */
  lemma ReserveAt(c: Config, s0: Threads.State, s: Threads.State, t: nat, ev: Event, e: Entry)
    returns (s7: Threads.State)
    requires Threads.TableOk(s0) && ev.user in s.table && ev.flow.Some?
    requires At(s0, s, t, ev.user, e, Threads.Reserving(s.table[ev.user], ev), true)
    ensures s7 == Threads.Next(c, Threads.Next(c, s, Threads.Reserve(t)), Threads.Track(t)) && ev.user in s7.table
    ensures var room := s.slots < c.flowLimit;
            && s7.slots == s.slots + (if room then 1 else 0)
            && s7.log == s.log + (if room || !c.policy.enforce then [Threads.ChargeFor(e.w, ev, room)] else [])
            && At(s0, s7, t, ev.user, e.(w := if room then Tracked(e.w, ev.flow.value) else NoSlot(c.policy, e.w)),
                  Threads.Done(s7.table[ev.user]), false)
  {
    hide Threads.Structure, Books;
    var s6 := Threads.Next(c, s, Threads.Reserve(t));
    s7 := Threads.Next(c, s6, Threads.Track(t));
    BooksUpdate(s, s7, ev.user);
  }

  /** From the rolled windows to the answer. */
  lemma ServeAt(c: Config, s0: Threads.State, s: Threads.State, t: nat, ev: Event, e: Entry, w: Windows, slots: int)
    returns (s7: Threads.State)
    requires Threads.TableOk(s0) && ev.user in s.table
    requires s.slots == SlotsAfterSweep(w, ev, slots) && e.w == Swept(w, ev)
    requires At(s0, s, t, ev.user, e, Threads.Ready(s.table[ev.user], ev), true)
    ensures s7 == Threads.Next(c, Threads.Next(c, Threads.Next(c, s, Threads.Judge(t)), Threads.Reserve(t)),
                               Threads.Track(t))
    ensures ev.user in s7.table && s7.slots == Served(c, w, slots, ev).1
    ensures s7.log == s.log + Logged(c, w, slots, ev)
    ensures At(s0, s7, t, ev.user, e.(w := Served(c, w, slots, ev).0), Threads.Done(s7.table[ev.user]), false)
  {
    hide Threads.Structure, Threads.Apply, Books, Decide, Swept, SlotsAfterSweep;
    DecideFacts(c.policy, e.w, ev);
    var s5 := JudgeAt(c, s0, s, t, ev, e);
    var (d, verdict) := Decide(c.policy, e.w, ev);
    if verdict == NeedSlot {
      s7 := ReserveAt(c, s0, s5, t, ev, e.(w := d));
    } else {
      s7 := s5;
    }
  }

  function EventSteps(t: nat, ev: Event): seq<Threads.Step> {
    [Threads.Start(t, ev), Threads.Touch(t), Threads.Lock(t), Threads.PayStale(t),
     Threads.Judge(t), Threads.Reserve(t), Threads.Track(t), Threads.Finish(t)]
  }

  lemma FinishAt(c: Config, s0: Threads.State, s: Threads.State, t: nat, ev: Event, e: Entry)
    requires Threads.TableOk(s0) && ev.user in s.table && t < |s0.threads| && s0.threads[t].Idle?
    requires At(s0, s, t, ev.user, e, Threads.Done(s.table[ev.user]), false)
    ensures var s' := Threads.Next(c, s, Threads.Finish(t));
            && s'.slots == s.slots && s'.log == s.log && s'.threads == s0.threads
            && At(s0, s', t, ev.user, e, Threads.Idle, false)
  {
    hide Threads.Structure;
    var s' := Threads.Next(c, s, Threads.Finish(t));
    assert s'.threads == s0.threads;
    assert Books(s') == Books(s);
  }

  /** One more step of a run. */
  lemma ExecNext(c: Config, s: Threads.State, steps: seq<Threads.Step>, n: nat, before: Threads.State)
    returns (after: Threads.State)
    requires Threads.Structure(s) && Threads.Shape(s) && n < |steps| && before == Threads.Exec(c, s, steps[..n])
    ensures after == Threads.Exec(c, s, steps[..n + 1]) == Threads.Next(c, before, steps[n])
  {
    hide Threads.Structure, Threads.Shape, Threads.Next;
    assert steps[..n + 1][..n] == steps[..n];
    after := Threads.Exec(c, s, steps[..n + 1]);
  }

  lemma EventRun(c: Config, s: Threads.State, t: nat, ev: Event, s1: Threads.State,
                 s2: Threads.State, s4: Threads.State, s7: Threads.State)
    requires Threads.Structure(s) && Threads.Shape(s)
    requires s1 == Threads.Next(c, s, Threads.Start(t, ev)) && s2 == Threads.Next(c, s1, Threads.Touch(t))
    requires s4 == Threads.Next(c, Threads.Next(c, s2, Threads.Lock(t)), Threads.PayStale(t))
    requires s7 == Threads.Next(c, Threads.Next(c, Threads.Next(c, s4, Threads.Judge(t)), Threads.Reserve(t)),
                                Threads.Track(t))
    ensures Threads.Exec(c, s, EventSteps(t, ev)) == Threads.Next(c, s7, Threads.Finish(t))
  {
    hide Threads.Structure, Threads.Shape, Threads.Next;
    var steps := EventSteps(t, ev);
    var r1 := ExecNext(c, s, steps, 0, s);
    var r2 := ExecNext(c, s, steps, 1, r1);
    var r3 := ExecNext(c, s, steps, 2, r2);
    var r4 := ExecNext(c, s, steps, 3, r3);
    var r5 := ExecNext(c, s, steps, 4, r4);
    var r6 := ExecNext(c, s, steps, 5, r5);
    var r7 := ExecNext(c, s, steps, 6, r6);
    var r8 := ExecNext(c, s, steps, 7, r7);
    assert steps[..8] == steps;
  }

  lemma NoRoomRun(c: Config, s: Threads.State, t: nat, ev: Event)
    requires Threads.Structure(s) && Threads.Shape(s) && Undisturbed(s, t, ev)
    requires NoRoom(c, Books(s), ev.user)
    ensures Threads.Exec(c, s, EventSteps(t, ev)) == s
  {
    hide Threads.Structure;
    assert |Books(s)| == |s.table| by { assert Books(s).Keys == s.table.Keys; }
    EventRun(c, s, t, ev, s, s, s, s);
  }

  /** A thread that runs an event undisturbed ends where the sequential event ends: the same accounts
      and slots, the packet logged as admitted exactly when it is allowed, and no lock left held. */
  lemma UndisturbedEventIsSequential(c: Config, s: Threads.State, t: nat, ev: Event)
    requires Threads.Structure(s) && Threads.Shape(s) && Undisturbed(s, t, ev)
    ensures var s' := Threads.Exec(c, s, EventSteps(t, ev));
            if NoRoom(c, Books(s), ev.user) then s' == s
            else
              && Threads.TableOk(s') && Undisturbed(s', t, ev) && s'.threads == s.threads && s'.keeper == s.keeper
              && var e := AccountFor(Books(s), ev);
              && var (w, n, ok) := Served(c, e.w, s.slots, ev);
              && Books(s') == Books(s)[ev.user := e.(w := w)] && s'.slots == n
              && s'.log == s.log + Logged(c, e.w, s.slots, ev) && s'.evictedAt == s.evictedAt
  {
    hide Threads.Structure, Threads.Apply, Served, Swept, SlotsAfterSweep, NewWindows, Logged;
    if NoRoom(c, Books(s), ev.user) {
      NoRoomRun(c, s, t, ev);
    } else {
      var s1, e1 := StartAt(c, s, t, ev);
      var s2, e2 := TouchAt(c, s, s1, t, ev, e1);
      var s4 := LockAt(c, s, s2, t, ev, e2);
      var s7 := ServeAt(c, s, s4, t, ev, e2.(w := Swept(e2.w, ev)), e2.w, s.slots);
      EventRun(c, s, t, ev, s1, s2, s4, s7);
      FinishAt(c, s, s7, t, ev, e2.(w := Served(c, e2.w, s.slots, ev).0));
    }
  }

  /** Maintenance of one account, undisturbed, is what a pass does to it: its idle flows are forgotten and
      their slots given back. */
  lemma UndisturbedSweep(c: Config, s: Threads.State, user: string, now: u64)
    requires Threads.Structure(s) && Threads.Shape(s) && s.keeper == Threads.Resting
    requires user in s.table && s.accounts[s.table[user]].lock == Threads.Nobody
    ensures var s', e := Threads.Next(c, Threads.Next(c, s, Threads.Sweep(user, now)), Threads.PaySwept),
                             Books(s)[user];
            && Books(s') == Books(s)[user := Refreshed(e, now)]
            && s'.slots == s.slots - (|e.w.flows| - |LiveFlows(e.w.flows, now)|)
            && s'.threads == s.threads && s'.keeper == Threads.Resting && s'.log == s.log && s'.table == s.table
  {
    hide Threads.ThreadInv, Threads.AccountInv, Threads.KeeperInv, LiveFlows, Books;
    var s1 := Threads.Next(c, s, Threads.Sweep(user, now));
    var s2 := Threads.Next(c, s1, Threads.PaySwept);
    assert s1.keeper.Paying? && s1.keeper.id == s.table[user];
    BooksUpdate(s, s2, user);
    BooksAt(s, user);
  }

  lemma BooksAt(s: Threads.State, user: string)
    requires Threads.TableOk(s) && user in s.table
    ensures user in Books(s) && Books(s)[user] == Entry(s.accounts[s.table[user]].lastUsed, s.accounts[s.table[user]].w)
  {
  }

  /** Nobody holds a reference to the user's account. */
  ghost predicate Unreferenced(s: Threads.State, user: string) {
    user in s.table && !Threads.InUse(s, s.table[user])
  }

  /** Eviction, undisturbed, takes the account if it was idle for 600 seconds, with its slots, and otherwise
      leaves everything as it was. */
  lemma UndisturbedEviction(c: Config, s: Threads.State, user: string, now: u64)
    requires Threads.Structure(s) && Threads.Shape(s) && s.keeper == Threads.Resting && Unreferenced(s, user)
    ensures user in Books(s)
    ensures var s', e := Threads.Next(c, Threads.Next(c, Threads.Next(c, s, Threads.Suspect(user, now)), Threads.Evict),
                                      Threads.PayDropped), Books(s)[user];
            if SatSub(now, e.lastUsed) >= 600 then
              && Books(s') == Books(s) - {user} && s'.slots == s.slots - |e.w.flows|
              && s'.threads == s.threads && s'.keeper == Threads.Resting && s'.log == s.log
            else s' == s
  {
    hide Books, Threads.Structure, Threads.InUse, Threads.Evicts;
    BooksAt(s, user);
    var s1 := Threads.Next(c, s, Threads.Suspect(user, now));
    if SatSub(now, Books(s)[user].lastUsed) >= 600 {
      assert s1 == s.(keeper := Threads.Suspecting(user, now, |s.log|));
      SameBooks(s, s1);
      SameUse(s, s1, user);
      SuspectedGoes(c, s1, user);
    } else {
      assert s1 == s;
    }
  }

  lemma SameBooks(s: Threads.State, s': Threads.State)
    requires Threads.TableOk(s) && s'.accounts == s.accounts && s'.table == s.table
    ensures Threads.TableOk(s') && Books(s') == Books(s)
  {
  }

  lemma SameUse(s: Threads.State, s': Threads.State, user: string)
    requires s'.threads == s.threads && s'.table == s.table && user in s.table
    ensures Unreferenced(s', user) <==> Unreferenced(s, user)
  {
  }

  lemma BooksWithout(s: Threads.State, s': Threads.State, user: string)
    requires Threads.Structure(s) && Threads.TableOk(s') && user in s.table && s'.table == s.table - {user}
    requires |s'.accounts| == |s.accounts| && s'.accounts == s.accounts[s.table[user] := s'.accounts[s.table[user]]]
    ensures Books(s') == Books(s) - {user}
  {
    hide Threads.ThreadInv, Threads.AccountInv, Threads.KeeperInv;
    forall u | u in s.table && u != user
      ensures s.table[u] != s.table[user]
    {
      assert s.accounts[s.table[u]].user == u;
    }
  }

  lemma SuspectedGoes(c: Config, s: Threads.State, user: string)
    requires Threads.Structure(s) && Threads.Shape(s) && s.keeper.Suspecting? && s.keeper.user == user
    requires Unreferenced(s, user)
    ensures var s' := Threads.Next(c, Threads.Next(c, s, Threads.Evict), Threads.PayDropped);
            && user in Books(s) && Books(s') == Books(s) - {user} && s'.slots == s.slots - |Books(s)[user].w.flows|
            && s'.threads == s.threads && s'.keeper == Threads.Resting && s'.log == s.log
  {
    hide Books, Threads.Structure, Threads.InUse;
    BooksAt(s, user);
    var s2 := Threads.Next(c, s, Threads.Evict);
    assert s2.keeper == Threads.Dropping(|Books(s)[user].w.flows|);
    BooksWithout(s, Threads.Next(c, s2, Threads.PayDropped), user);
  }
}
