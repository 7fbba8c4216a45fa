/** Account budgets against the history of what was offered: when a packet is refused, what is counted
    and which flows are tracked, over every run of events and maintenance passes. */
module BudgetHistory {
  import opened Bytes
  import opened AccountBudget
  import opened Budgets

  type Accounts = map<string, Entry>

  // --- One event, on fields ---

  /** The flow is tracked and was used less than 120 seconds before. */
  predicate IsLive(w: Windows, flow: Flow, second: u64) {
    flow in w.flows && var seen: int := w.flows[flow]; second < seen + 120
  }

  /** The event's flow is not live. */
  predicate OpensFlow(w: Windows, ev: Event, second: u64) {
    ev.flow.Some? && !IsLive(w, ev.flow.value, second)
  }

  /** A slot is free, once the slot of the event's own stale flow is given back. */
  predicate HasSlot(c: Config, w: Windows, slots: int, ev: Event, second: u64) {
    slots < c.flowLimit || (OpensFlow(w, ev, second) && ev.flow.value in w.flows && slots - 1 < c.flowLimit)
  }

  function FlowsAfter(w: Windows, ev: Event, second: u64, carried: bool): map<Flow, u64> {
    var kept := if OpensFlow(w, ev, second) then w.flows - {ev.flow.value} else w.flows;
    if ev.flow.Some? && carried then kept[ev.flow.value := second] else kept
  }

  predicate OverLimits(p: Policy, packets: nat, bytes: nat, opens: bool, begun: nat) {
    || 0 < p.packets < packets
    || 0 < p.bytes < bytes
    || (opens && 0 < p.newFlows <= begun)
  }

  /** A stale flow of the event's own is dropped first. */
  lemma SweptOnFields(w: Windows, ev: Event, slots: int)
    ensures var r := Rolled(w, ev.now);
            var opens := OpensFlow(w, ev, r.second);
            && Swept(w, ev) == r.(flows := if opens then w.flows - {ev.flow.value} else w.flows)
            && (IsNew(Swept(w, ev), ev.flow) <==> opens)
            && SlotsAfterSweep(w, ev, slots) == slots - if opens && ev.flow.value in w.flows then 1 else 0
  {
    RolledFacts(w, ev.now);
    if ev.flow.Some? && ev.flow.value !in w.flows {
      assert w.flows - {ev.flow.value} == w.flows;
    }
  }

  /** Charging and deciding. */
  lemma DecidedOnFields(p: Policy, w: Windows, ev: Event)
    ensures var (d, verdict) := Decide(p, w, ev);
            var k, opens := Counted(w, ev.out, ev.bytes).counts, IsNew(w, ev.flow);
            var over := OverLimits(p, SatAdd(k.packetsIn, k.packetsOut),
                                   SatAdd(k.bytesIn, k.bytesOut), opens, w.newFlows);
            var refused := p.enforce && over;
            && verdict == (if refused then Refuse else if opens then NeedSlot else Admit)
            && d == w.(counts := k, breaches := w.breaches + (if over then 1 else 0),
                       drops := w.drops + (if refused then 1 else 0),
                       flows := if verdict == Admit && ev.flow.Some? then w.flows[ev.flow.value := w.second]
                                else w.flows)
  {
  }

  /** What one event does to its account's windows, and its answer. */
  lemma ServedOnFields(c: Config, w: Windows, slots: int, ev: Event)
    ensures var (w', n, ok) := Served(c, w, slots, ev);
            var r, p := Rolled(w, ev.now), c.policy;
            var k := Counted(r, ev.out, ev.bytes).counts;
            var opens, room := OpensFlow(w, ev, r.second), HasSlot(c, w, slots, ev, r.second);
            var over := OverLimits(p, SatAdd(k.packetsIn, k.packetsOut),
                                   SatAdd(k.bytesIn, k.bytesOut), opens, r.newFlows);
            var carried := !(p.enforce && over) && (opens ==> room);
            && (ok <==> !p.enforce || carried)
            && w'.counts == k && w'.second == r.second && w'.minute == r.minute
            && w'.newFlows == r.newFlows + (if opens && carried then 1 else 0)
            && w'.flows == FlowsAfter(w, ev, r.second, carried)
            && w'.breaches == r.breaches + (if over then 1 else 0)
            && w'.drops == r.drops + (if ok then 0 else 1)
            && w'.untracked == r.untracked + (if opens && !room && !(p.enforce && over) then 1 else 0)
  {
    hide Rolled, Decide, Swept, SlotsAfterSweep, AccountBudget.Counted, OverLimits, IsLive;
    SweptOnFields(w, ev, slots);
    DecidedOnFields(c.policy, Swept(w, ev), ev);
    CountedCounts(Rolled(w, ev.now), Swept(w, ev), ev);
  }

  lemma CountedCounts(a: Windows, b: Windows, ev: Event)
    requires a.counts == b.counts
    ensures Counted(a, ev.out, ev.bytes).counts == Counted(b, ev.out, ev.bytes).counts
  {
  }

  // --- Runs ---

  datatype Op = Offer(ev: Event) | Pass(now: u64)

  ghost function After(c: Config, ops: seq<Op>): Accounts {
    if ops == [] then map[]
    else
      match ops[|ops| - 1]
      case Offer(ev) => Offered(c, After(c, ops[..|ops| - 1]), ev).0
      case Pass(now) => Kept(After(c, ops[..|ops| - 1]), now)
  }

  /** Whether an event offered after these is let through. */
  ghost predicate Passes(c: Config, ops: seq<Op>, ev: Event) {
    Offered(c, After(c, ops), ev).1
  }

  /** The events offered to the account since it was created. */
  ghost function Offers(c: Config, ops: seq<Op>, user: string): seq<Event> {
    if ops == [] || user !in After(c, ops) then []
    else
      var before, op := Offers(c, ops[..|ops| - 1], user), ops[|ops| - 1];
      if op.Offer? && op.ev.user == user then before + [op.ev] else before
  }

  /** The latest of their times: the second the account is in. */
  function Clock(offers: seq<Event>): u64 {
    if offers == [] then 0
    else
      var before, now := Clock(offers[..|offers| - 1]), offers[|offers| - 1].now;
      if now < before then before else now
  }

  /** How many of them were offered while the account was in this second, by direction. */
  function Packets(offers: seq<Event>, second: u64, out: bool): nat {
    if offers == [] then 0
    else Packets(offers[..|offers| - 1], second, out)
         + if Clock(offers) == second && offers[|offers| - 1].out == out then 1 else 0
  }

  function Octets(offers: seq<Event>, second: u64, out: bool): nat {
    if offers == [] then 0
    else Octets(offers[..|offers| - 1], second, out)
         + if Clock(offers) == second && offers[|offers| - 1].out == out then offers[|offers| - 1].bytes else 0
  }

  function Sat(n: nat): u64 {
    if n > U64_MAX then U64_MAX else n
  }

  function Tally(offers: seq<Event>, second: u64): Counts {
    Counts(Sat(Packets(offers, second, false)), Sat(Octets(offers, second, false)),
           Sat(Packets(offers, second, true)), Sat(Octets(offers, second, true)))
  }

  /** The event made its flow a tracked one. */
  ghost predicate Began(c: Config, ops: seq<Op>, ev: Event, second: u64) {
    var before, after := After(c, ops), After(c, ops + [Offer(ev)]);
    && ev.flow.Some? && ev.user in after && ev.flow.value in after[ev.user].w.flows
    && !(ev.user in before && IsLive(before[ev.user].w, ev.flow.value, second))
  }

  /** The flows the account began in this minute, since it was created. */
  ghost function Begun(c: Config, ops: seq<Op>, user: string, minute: u64): nat {
    if ops == [] || user !in After(c, ops) then 0
    else
      var before, op, second := ops[..|ops| - 1], ops[|ops| - 1], Clock(Offers(c, ops, user));
      Begun(c, before, user, minute)
      + if op.Offer? && op.ev.user == user && second / 60 == minute && Began(c, before, op.ev, second) then 1 else 0
  }

  // --- The windows hold what was offered ---

  lemma {:induction false} NothingYet(offers: seq<Event>, second: u64, out: bool)
    requires Clock(offers) < second
    ensures Packets(offers, second, out) == 0 && Octets(offers, second, out) == 0
  {
    if offers != [] {
      NothingYet(offers[..|offers| - 1], second, out);
    }
  }

  lemma OneMore(offers: seq<Event>, ev: Event, second: u64, out: bool)
    ensures var all := offers + [ev];
            var mine := Clock(all) == second && ev.out == out;
            && Packets(all, second, out) == Packets(offers, second, out) + (if mine then 1 else 0)
            && Octets(all, second, out) == Octets(offers, second, out) + (if mine then ev.bytes else 0)
            && Clock(all) == (if ev.now < Clock(offers) then Clock(offers) else ev.now)
  {
    assert (offers + [ev])[..|offers|] == offers;
  }

  /** The windows of an account that was offered these. */
  predicate Holds(w: Windows, offers: seq<Event>) {
    offers != [] && w.second == Clock(offers) && w.minute == w.second / 60 && w.counts == Tally(offers, w.second)
  }

  /** Rolling and counting an event adds it to the tally. */
  lemma RolledTally(w: Windows, offers: seq<Event>, ev: Event)
    requires Holds(w, offers) || (offers == [] && w == NewWindows(ev.now))
    ensures var r, all := Rolled(w, ev.now), offers + [ev];
            && r.second == Clock(all) && r.minute == r.second / 60
            && Counted(r, ev.out, ev.bytes).counts == Tally(all, r.second)
  {
    hide Packets, Octets, Rolled;
    RolledFacts(w, ev.now);
    var r := Rolled(w, ev.now);
    OneMore(offers, ev, r.second, false);
    OneMore(offers, ev, r.second, true);
    if r.second != w.second || offers == [] {
      Untallied(offers, r.second);
    }
  }

  lemma Untallied(offers: seq<Event>, second: u64)
    requires offers == [] || Clock(offers) < second
    ensures Packets(offers, second, false) == Packets(offers, second, true) == 0
    ensures Octets(offers, second, false) == Octets(offers, second, true) == 0
  {
    if offers != [] {
      NothingYet(offers, second, false);
      NothingYet(offers, second, true);
    }
  }

  /** The windows an event finds. */
  function Found(accounts: Accounts, ev: Event): Windows {
    if ev.user in accounts then accounts[ev.user].w else NewWindows(ev.now)
  }

  /** An event changes the windows of its own account alone; maintenance only forgets. */
  lemma OneOp(c: Config, ops: seq<Op>, user: string)
    requires ops != []
    ensures var before, after, op := After(c, ops[..|ops| - 1]), After(c, ops), ops[|ops| - 1];
            && (op.Pass? && user in after ==>
                  user in before && after[user].w == before[user].w.(flows := LiveFlows(before[user].w.flows, op.now)))
            && (op.Offer? && op.ev.user != user ==> (user in after <==> user in before))
            && (op.Offer? && op.ev.user != user && user in after ==> after[user] == before[user])
            && (op.Offer? && op.ev.user == user ==> (user in after <==> !NoRoom(c, before, user)))
            && (op.Offer? && op.ev.user == user && user in after ==>
                  after[user].w == Served(c, Found(before, op.ev), |AllFlows(before)|, op.ev).0)
  {
    hide AllFlows, Served, LiveFlows;
  }

  /** The windows an event of this account finds hold what was offered before. */
  lemma {:induction false} WindowsHold(c: Config, ops: seq<Op>, user: string)
    ensures user in After(c, ops) ==> Holds(After(c, ops)[user].w, Offers(c, ops, user))
  {
    hide Holds, AllFlows, Served, Rolled, LiveFlows, Offered, Kept, Tally;
    if ops != [] && user in After(c, ops) {
      var before, op := ops[..|ops| - 1], ops[|ops| - 1];
      WindowsHold(c, before, user);
      OneOp(c, ops, user);
      var w := After(c, ops)[user].w;
      if op.Pass? {
        HoldsOn(After(c, before)[user].w, w, Offers(c, ops, user));
      } else if op.ev.user == user {
        ServedHolds(c, Found(After(c, before), op.ev), Offers(c, before, user), |AllFlows(After(c, before))|, op.ev);
      }
    }
  }

  lemma HoldsOn(w: Windows, w': Windows, offers: seq<Event>)
    requires Holds(w, offers) && w'.second == w.second && w'.minute == w.minute && w'.counts == w.counts
    ensures Holds(w', offers)
  {
  }

  lemma ServedHolds(c: Config, w: Windows, offers: seq<Event>, slots: int, ev: Event)
    requires Holds(w, offers) || (offers == [] && w == NewWindows(ev.now))
    ensures Holds(Served(c, w, slots, ev).0, offers + [ev])
  {
    hide Served, Rolled, Tally, OverLimits, FlowsAfter, AccountBudget.Counted;
    RolledTally(w, offers, ev);
    ServedOnFields(c, w, slots, ev);
  }

  /** An event's windows, or new ones, hold what was offered to its account. */
  lemma FoundHolds(c: Config, ops: seq<Op>, ev: Event)
    ensures var w, offers := Found(After(c, ops), ev), Offers(c, ops, ev.user);
            Holds(w, offers) || (offers == [] && w == NewWindows(ev.now))
  {
    hide Holds, NewWindows, Offered, Kept;
    WindowsHold(c, ops, ev.user);
  }

  lemma {:induction false} NoneBegunYet(c: Config, ops: seq<Op>, user: string, minute: u64)
    requires Clock(Offers(c, ops, user)) / 60 < minute
    ensures Begun(c, ops, user, minute) == 0
  {
    hide Began, Offered, Kept;
    if ops != [] && user in After(c, ops) {
      var before, op := ops[..|ops| - 1], ops[|ops| - 1];
      if op.Offer? && op.ev.user == user {
        OneMore(Offers(c, before, user), op.ev, 0, false);
      }
      NoneBegunYet(c, before, user, minute);
    }
  }

  /** The account's count of new flows is that of its current minute. */
  lemma {:induction false} FlowsBegun(c: Config, ops: seq<Op>, user: string)
    ensures user in After(c, ops) ==>
              After(c, ops)[user].w.newFlows == Begun(c, ops, user, After(c, ops)[user].w.minute)
  {
    hide Holds, AllFlows, Served, Rolled, LiveFlows, Offered, Kept, Began;
    if ops != [] && user in After(c, ops) {
      var before, op := ops[..|ops| - 1], ops[|ops| - 1];
      FlowsBegun(c, before, user);
      OneOp(c, ops, user);
      if op.Offer? && op.ev.user == user {
        FoundBegun(c, before, op.ev);
        EventBegins(c, before, op.ev);
        assert ops == before + [op];
      }
    }
  }

  /** What an event finds, rolled, is the count of the minute it is in. */
  lemma FoundBegun(c: Config, ops: seq<Op>, ev: Event)
    requires ev.user in After(c, ops) ==>
               After(c, ops)[ev.user].w.newFlows == Begun(c, ops, ev.user, After(c, ops)[ev.user].w.minute)
    ensures var r := Rolled(Found(After(c, ops), ev), ev.now);
            && r.second == Clock(Offers(c, ops, ev.user) + [ev]) && r.minute == r.second / 60
            && r.newFlows == Begun(c, ops, ev.user, r.minute)
  {
    hide AllFlows, Rolled, Offered, Kept, Began, Tally, AccountBudget.Counted;
    var w, offers := Found(After(c, ops), ev), Offers(c, ops, ev.user);
    FoundHolds(c, ops, ev);
    RolledTally(w, offers, ev);
    RolledFacts(w, ev.now);
    OneMore(offers, ev, 0, false);
    if ev.user in After(c, ops) && Rolled(w, ev.now).minute != w.minute {
      NoneBegunYet(c, ops, ev.user, Rolled(w, ev.now).minute);
    }
  }

  /** The event raises the count exactly if it began a flow. */
  lemma EventBegins(c: Config, ops: seq<Op>, ev: Event)
    requires !NoRoom(c, After(c, ops), ev.user)
    ensures var w, after := Found(After(c, ops), ev), After(c, ops + [Offer(ev)]);
            var r := Rolled(w, ev.now);
            && ev.user in after && after[ev.user].w.minute == r.minute && after[ev.user].w.second == r.second
            && after[ev.user].w.newFlows == r.newFlows + if Began(c, ops, ev, r.second) then 1 else 0
  {
    hide AllFlows, Rolled, Served, Offered, Kept, OverLimits, AccountBudget.Counted;
    var all := ops + [Offer(ev)];
    assert all[..|ops|] == ops;
    OneOp(c, all, ev.user);
    var before := After(c, ops);
    ServedOnFields(c, Found(before, ev), |AllFlows(before)|, ev);
  }

  // --- When an event is refused ---

  /** More than the limit, a limit of zero being none and the largest never exceeded by a count that stops
      at it. */
  predicate Over(limit: u64, n: nat) {
    0 < limit < U64_MAX && limit < n
  }

  lemma SatOver(limit: u64, a: nat, b: nat)
    ensures 0 < limit < SatAdd(Sat(a), Sat(b)) <==> Over(limit, a + b)
  {
  }

  /** In every run of events and maintenance passes, an event is refused if and only if the relay enforces
      and: there is no room for its account; or the packets or bytes offered to the account in the second
      it is in, this event included, are over the limit; or it would begin a flow, and the account has
      begun its limit of them this minute or every slot is taken. */
  lemma RefusedExactlyWhenOver(c: Config, ops: seq<Op>, ev: Event)
    ensures var accounts, p, all := After(c, ops), c.policy, Offers(c, ops, ev.user) + [ev];
            var second := Clock(all);
            var known := ev.user in accounts;
            var begins := ev.flow.Some? && !(known && IsLive(accounts[ev.user].w, ev.flow.value, second));
            var stale := begins && known && ev.flow.value in accounts[ev.user].w.flows;
            !Passes(c, ops, ev) <==>
              && p.enforce
              && (|| (!known && |accounts| >= c.accountLimit)
                  || Over(p.packets, Packets(all, second, false) + Packets(all, second, true))
                  || Over(p.bytes, Octets(all, second, false) + Octets(all, second, true))
                  || (begins && 0 < p.newFlows <= Begun(c, ops, ev.user, second / 60))
                  || (begins && |AllFlows(accounts)| - (if stale then 1 else 0) >= c.flowLimit))
  {
    hide AllFlows, Rolled, Served, After, AccountBudget.Counted, Packets, Octets, Begun, Clock, IsLive;
    var accounts, p, all := After(c, ops), c.policy, Offers(c, ops, ev.user) + [ev];
    if !NoRoom(c, accounts, ev.user) {
      var w, second := Found(accounts, ev), Clock(all);
      FoundHolds(c, ops, ev);
      RolledTally(w, Offers(c, ops, ev.user), ev);
      FlowsBegun(c, ops, ev.user);
      FoundBegun(c, ops, ev);
      ServedOnFields(c, w, |AllFlows(accounts)|, ev);
      SatOver(p.packets, Packets(all, second, false), Packets(all, second, true));
      SatOver(p.bytes, Octets(all, second, false), Octets(all, second, true));
      FreshIsNotLive(ev);
    }
  }

  lemma FreshIsNotLive(ev: Event)
    ensures NewWindows(ev.now).flows == map[]
    ensures forall f, second :: !IsLive(NewWindows(ev.now), f, second)
  {
  }

  // --- Eviction ---

  lemma {:induction false} LastUsedIsClock(c: Config, ops: seq<Op>, user: string)
    ensures user in After(c, ops) ==> After(c, ops)[user].lastUsed == Clock(Offers(c, ops, user))
  {
    hide AllFlows, Offered, Kept, Clock, Packets, Octets;
    if ops != [] && user in After(c, ops) {
      var before, op := ops[..|ops| - 1], ops[|ops| - 1];
      LastUsedIsClock(c, before, user);
      LastUsedStep(c, ops, user);
      if op.Offer? && op.ev.user == user {
        OneMore(Offers(c, before, user), op.ev, 0, false);
        assert Offers(c, before, user) == [] ==> Clock(Offers(c, before, user)) == 0 by { NoClock(); }
      }
    }
  }

  lemma NoClock()
    ensures Clock([]) == 0
  {
  }

  lemma LastUsedStep(c: Config, ops: seq<Op>, user: string)
    requires ops != [] && user in After(c, ops)
    ensures var before, after, op := After(c, ops[..|ops| - 1]), After(c, ops), ops[|ops| - 1];
            if op.Offer? && op.ev.user == user then
              after[user].lastUsed ==
                if user in before && before[user].lastUsed > op.ev.now then before[user].lastUsed else op.ev.now
            else user in before && after[user].lastUsed == before[user].lastUsed
  {
    hide AllFlows, Served, LiveFlows, NewWindows;
  }

  /** A maintenance pass keeps exactly the accounts offered something in the last 600 seconds. */
  lemma EvictedExactlyWhenIdle(c: Config, ops: seq<Op>, now: u64, user: string)
    ensures var last: int := Clock(Offers(c, ops, user));
            user in After(c, ops + [Pass(now)]) <==> user in After(c, ops) && now < last + 600
  {
    hide Offered, LiveFlows;
    LastUsedIsClock(c, ops, user);
    assert (ops + [Pass(now)])[..|ops|] == ops;
  }

  // --- Tracked flows ---

  /** The event is let through, and not only for want of a slot to follow it by. */
  ghost predicate Carried(c: Config, ops: seq<Op>, ev: Event, live: bool, stale: bool) {
    Passes(c, ops, ev) && (live || |AllFlows(After(c, ops))| - (if stale then 1 else 0) < c.flowLimit)
  }

  /** When the flow was last carried, unless it has been found idle for 120 seconds since, by an event of
      its own or by a maintenance pass, or its account has gone. */
  ghost function LastCarried(c: Config, ops: seq<Op>, user: string, f: Flow): Option<u64> {
    if ops == [] || user !in After(c, ops) then None
    else
      var rest, op := ops[..|ops| - 1], ops[|ops| - 1];
      var before := LastCarried(c, rest, user, f);
      match op
      case Pass(now) => if before.Some? && SatSub(now, before.value) < 120 then before else None
      case Offer(ev) =>
        if ev.user != user || ev.flow != Some(f) then before
        else
          var second := Clock(Offers(c, ops, user));
          var live := before.Some? && SatSub(second, before.value) < 120;
          if Carried(c, rest, ev, live, before.Some? && !live) then Some(second) else if live then before else None
  }

  /** The flows an account tracks are those, each with the time it was last carried. */
  lemma {:induction false} TrackedExactly(c: Config, ops: seq<Op>, user: string, f: Flow)
    requires user in After(c, ops)
    ensures var flows := After(c, ops)[user].w.flows;
            LastCarried(c, ops, user, f) == if f in flows then Some(flows[f]) else None
  {
    hide AllFlows, Served, Rolled, Offered, Kept, Carried, Clock;
    var rest, op := ops[..|ops| - 1], ops[|ops| - 1];
    OneOp(c, ops, user);
    if user in After(c, rest) {
      TrackedExactly(c, rest, user, f);
    }
    if op.Offer? && op.ev.user == user {
      EventTracks(c, rest, op.ev, f);
      assert ops == rest + [op];
    }
  }

  /** What an event does to the tracking of a flow of its account. */
  lemma EventTracks(c: Config, ops: seq<Op>, ev: Event, f: Flow)
    requires !NoRoom(c, After(c, ops), ev.user)
    ensures var w, after := Found(After(c, ops), ev), After(c, ops + [Offer(ev)]);
            var second := Clock(Offers(c, ops, ev.user) + [ev]);
            var live := f in w.flows && SatSub(second, w.flows[f]) < 120;
            && ev.user in after
            && var flows := after[ev.user].w.flows;
            && (ev.flow != Some(f) ==> (f in flows <==> f in w.flows) && (f in flows ==> flows[f] == w.flows[f]))
            && (ev.flow == Some(f) ==>
                  if Carried(c, ops, ev, live, f in w.flows && !live) then f in flows && flows[f] == second
                  else (f in flows <==> live) && (live ==> flows[f] == w.flows[f]))
  {
    hide AllFlows, Rolled, Served, Kept, OverLimits, AccountBudget.Counted, Tally, Clock;
    var all, before := ops + [Offer(ev)], After(c, ops);
    assert all[..|ops|] == ops;
    OneOp(c, all, ev.user);
    FoundHolds(c, ops, ev);
    RolledTally(Found(before, ev), Offers(c, ops, ev.user), ev);
    ServedOnFields(c, Found(before, ev), |AllFlows(before)|, ev);
  }

  // --- Refusals are counted ---

  /** How many events of the account were refused since it was created. */
  ghost function Refusals(c: Config, ops: seq<Op>, user: string): nat {
    if ops == [] || user !in After(c, ops) then 0
    else
      var rest, op := ops[..|ops| - 1], ops[|ops| - 1];
      Refusals(c, rest, user) + if op.Offer? && op.ev.user == user && !Passes(c, rest, op.ev) then 1 else 0
  }

  lemma {:induction false} DropsAreRefusals(c: Config, ops: seq<Op>, user: string)
    requires user in After(c, ops)
    ensures After(c, ops)[user].w.drops == Refusals(c, ops, user)
  {
    hide AllFlows, Served, Rolled, Kept, OverLimits, FlowsAfter, AccountBudget.Counted;
    var rest, op := ops[..|ops| - 1], ops[|ops| - 1];
    OneOp(c, ops, user);
    if user in After(c, rest) {
      DropsAreRefusals(c, rest, user);
    }
    if op.Offer? && op.ev.user == user {
      var w := Found(After(c, rest), op.ev);
      RolledKeepsDrops(w, op.ev.now);
      ServedOnFields(c, w, |AllFlows(After(c, rest))|, op.ev);
    }
  }

  lemma RolledKeepsDrops(w: Windows, now: u64)
    ensures Rolled(w, now).drops == w.drops
  {
  }
}
