/** The two-phase removal of flows over whole runs of a shard. */
module ShardRuns {
  import opened Bytes
  import opened Sessions
  import opened Reply
  import opened Shard

  datatype Event =
    | Packet(k: FlowKey, client: Addr, info: Original, now: nat, token: Option<u64>)
    | Alive(sid: u64, client: Addr, now: nat)
    | Answer(k: FlowKey, now: nat, leaseCurrent: bool)
    | Gone(sid: u64, now: nat)
    | Pass(now: nat)

  type Flows = map<FlowKey, Flow>

  function After(flows: Flows, e: Event): Flows {
    match e
    case Packet(k, client, info, now, token) => AfterPacket(flows, k, client, info, now, token)
    case Alive(sid, client, now) => AfterKeepalive(flows, sid, client, now)
    case Answer(k, now, leaseCurrent) => AfterResponse(flows, k, now, leaseCurrent)
    case Gone(sid, _) => AfterRemoval(flows, sid)
    case Pass(now) => AfterCleanup(flows, now)
  }

  function Run(events: seq<Event>): Flows {
    if events == [] then map[] else After(Run(events[..|events| - 1]), events[|events| - 1])
  }

  /** A client packet of the flow, a keepalive of its session, or a response under a live lease. */
  predicate Touches(flows: Flows, e: Event, k: FlowKey) {
    match e
    case Packet(key, _, _, _, token) => key == k && (k in flows || token.Some?)
    case Alive(sid, _, _) => k.sid == sid && k in flows
    case Answer(key, _, leaseCurrent) => key == k && k in flows && leaseCurrent
    case _ => false
  }

  predicate Ordered(events: seq<Event>) {
    forall i, j :: 0 <= i < j < |events| ==> events[i].now <= events[j].now
  }

  /** Every touch so far is at most as late as the flow's recorded activity, and a mark lies a full
      timeout after it. */
  ghost predicate Tracks(events: seq<Event>, k: FlowKey) {
    var flows := Run(events);
    k in flows ==>
      && (forall m :: 0 <= m < |events| && Touches(Run(events[..m]), events[m], k) ==>
            events[m].now <= flows[k].lastActivity)
      && (flows[k].marked.Some? ==>
            && flows[k].marked.value >= flows[k].lastActivity + FLOW_TIMEOUT
            && |events| > 0 && flows[k].marked.value <= events[|events| - 1].now)
  }

  /** One event either touches the flow, or leaves its activity and at most marks it, when silent, or
      revives it. */
  lemma OneEvent(flows: Flows, e: Event, k: FlowKey)
    requires k in After(flows, e)
    ensures var fl := After(flows, e)[k];
            if Touches(flows, e, k) then fl.lastActivity == e.now && fl.marked == None
            else
              && k in flows && fl.lastActivity == flows[k].lastActivity
              && (fl.marked != None && fl.marked != flows[k].marked ==>
                    fl.marked == Some(e.now) && e.now >= fl.lastActivity + FLOW_TIMEOUT)
              && (flows[k].marked != None && fl.marked != flows[k].marked ==> e.Pass? && IsRevived(flows[k], e.now))
  {
  }

  lemma {:induction false} EveryFlowTracked(events: seq<Event>, k: FlowKey)
    requires Ordered(events)
    ensures Tracks(events, k)
  {
    hide After, Touches;
    if events != [] {
      var n := |events| - 1;
      var before, e, flows := events[..n], events[n], Run(events);
      EveryFlowTracked(before, k);
      if k in flows {
        OneEvent(Run(before), e, k);
        forall m | 0 <= m < |events| && Touches(Run(events[..m]), events[m], k)
          ensures events[m].now <= flows[k].lastActivity
        {
          if m < n {
            assert before[..m] == events[..m] && before[m] == events[m];
            assert k in Run(before) ==> before[m].now <= Run(before)[k].lastActivity;
          }
        }
      }
    }
  }

  /** A cleanup pass removes a flow only when the full timeout and the grace period, 210 seconds, have passed since
      its last client packet, keepalive or response under a live lease. */
  lemma CleanupRemovesOnlySilentFlows(events: seq<Event>, now: nat, k: FlowKey, m: nat)
    requires Ordered(events + [Pass(now)])
    requires k in Run(events) && k !in Run(events + [Pass(now)])
    requires m < |events| && Touches(Run(events[..m]), events[m], k)
    ensures events[m].now + 210_000_000_000 <= now
  {
    hide Run, Touches, AfterCleanup;
    var all := events + [Pass(now)];
    OrderedPrefix(all, |events|);
    assert all[..|events|] == events;
    EveryFlowTracked(events, k);
    FlowsStay(events, Pass(now), k);
  }

  /** Nothing else takes a flow away than a due cleanup or the removal of its session. */
  lemma FlowsStay(events: seq<Event>, e: Event, k: FlowKey)
    requires k in Run(events) && k !in Run(events + [e])
    ensures (e.Pass? && IsDue(Run(events)[k], e.now)) || (e.Gone? && e.sid == k.sid)
  {
    assert (events + [e])[..|events|] == events;
  }

  /** The cleanup's branch that takes a mark back is never reached: every touch has cleared it. */
  lemma NothingIsRevived(events: seq<Event>, now: nat, k: FlowKey)
    requires Ordered(events + [Pass(now)]) && k in Run(events)
    ensures !IsRevived(Run(events)[k], now)
  {
    var all := events + [Pass(now)];
    assert Ordered(events) by {
      assert forall i :: 0 <= i < |events| ==> events[i] == all[i];
    }
    EveryFlowTracked(events, k);
    if |events| > 0 {
      assert all[|events| - 1].now <= all[|events|].now;
    }
  }

  lemma OrderedPrefix(events: seq<Event>, n: nat)
    requires Ordered(events) && n <= |events|
    ensures Ordered(events[..n])
  {
  }

  /** A flow's recorded activity is the time of a touch. */
  lemma {:induction false} ActivityIsATouch(events: seq<Event>, k: FlowKey) returns (m: nat)
    requires k in Run(events)
    ensures m < |events| && Touches(Run(events[..m]), events[m], k) && events[m].now == Run(events)[k].lastActivity
  {
    hide After, Touches;
    var n := |events| - 1;
    var before := events[..n];
    OneEvent(Run(before), events[n], k);
    if Touches(Run(before), events[n], k) {
      m := n;
    } else {
      m := ActivityIsATouch(before, k);
      assert before[..m] == events[..m];
    }
  }

  /** Every touch of the flow so far lies 180 seconds before `now`. */
  ghost predicate IsSilent(events: seq<Event>, now: nat, k: FlowKey) {
    forall m :: 0 <= m < |events| && Touches(Run(events[..m]), events[m], k) ==> events[m].now + 180_000_000_000 <= now
  }

  ghost predicate Untouched(start: seq<Event>, mid: seq<Event>, k: FlowKey) {
    forall n :: 0 <= n < |mid| ==> !Touches(Run(start + mid[..n]), mid[n], k)
  }

  /** A pass that finds a flow silent leaves it gone or marked. */
  lemma SilentIsMarked(events: seq<Event>, first: nat, k: FlowKey)
    requires Ordered(events + [Pass(first)]) && IsSilent(events, first, k)
    ensures var flows := Run(events + [Pass(first)]);
            k in flows ==> flows[k].marked.Some? && flows[k].marked.value <= first
  {
    var all := events + [Pass(first)];
    assert all[..|events|] == events;
    if k in Run(events) {
      OrderedPrefix(all, |events|);
      NothingIsRevived(events, first, k);
      EveryFlowTracked(events, k);
      var m := ActivityIsATouch(events, k);
      if |events| > 0 {
        assert all[|events| - 1].now <= all[|events|].now;
      }
    }
  }

  /** As long as nothing touches it, it stays so. */
  lemma {:induction false} SilentStaysMarked(start: seq<Event>, first: nat, mid: seq<Event>, k: FlowKey)
    requires Ordered(start + mid) && Untouched(start, mid, k)
    requires k in Run(start) ==> Run(start)[k].marked.Some? && Run(start)[k].marked.value <= first
    ensures var flows := Run(start + mid); k in flows ==> flows[k].marked.Some? && flows[k].marked.value <= first
    decreases |mid|
  {
    hide After, Touches;
    if mid == [] {
      assert start + mid == start;
    } else {
      var n := |mid| - 1;
      var before, e := start + mid[..n], mid[n];
      assert (start + mid)[..|start| + n] == before && start + mid == before + [e];
      OrderedPrefix(start + mid, |start| + n);
      assert Untouched(start, mid[..n], k) by {
        assert forall i :: 0 <= i < n ==> mid[..n][..i] == mid[..i];
      }
      SilentStaysMarked(start, first, mid[..n], k);
      if k in Run(start + mid) {
        OneEvent(Run(before), e, k);
        if e.Pass? {
          NothingIsRevived(before, e.now, k);
        }
      }
    }
  }

  /** A flow that is silent at one pass, and that nothing touches since, is gone after a pass 30
      seconds later, whatever happens in between. */
  lemma SilentFlowGoes(events: seq<Event>, first: nat, mid: seq<Event>, second: nat, k: FlowKey)
    requires Ordered(events + [Pass(first)] + mid + [Pass(second)]) && second >= first + 30_000_000_000
    requires IsSilent(events, first, k) && Untouched(events + [Pass(first)], mid, k)
    ensures k !in Run(events + [Pass(first)] + mid + [Pass(second)])
  {
    hide IsSilent, Untouched;
    var start := events + [Pass(first)];
    var all := start + mid + [Pass(second)];
    assert all[..|start|] == start && all[..|start + mid|] == start + mid;
    OrderedPrefix(all, |start|);
    OrderedPrefix(all, |start + mid|);
    SilentIsMarked(events, first, k);
    SilentStaysMarked(start, first, mid, k);
  }

  // --- Where answers go ---

  /** What the latest client packet of the flow carried. */
  function LatestInfo(events: seq<Event>, k: FlowKey): Option<Original> {
    if events == [] then None
    else
      var e := events[|events| - 1];
      if e.Packet? && e.k == k then Some(e.info) else LatestInfo(events[..|events| - 1], k)
  }

  /** Where the latest client packet of the flow, or keepalive of its session, came from. */
  function LatestClient(events: seq<Event>, k: FlowKey): Option<Addr> {
    if events == [] then None
    else
      var e := events[|events| - 1];
      if (e.Packet? && e.k == k) || (e.Alive? && e.sid == k.sid) then Some(e.client)
      else LatestClient(events[..|events| - 1], k)
  }

  /** In every run, a flow's answers are addressed by its latest client packet, and sent to where that or
      a later keepalive came from. */
  lemma {:induction false} AnswersFollowTheClient(events: seq<Event>, k: FlowKey)
    requires k in Run(events)
    ensures LatestInfo(events, k) == Some(Run(events)[k].info) && LatestClient(events, k) == Some(Run(events)[k].client)
  {
    var n := |events| - 1;
    if k in Run(events[..n]) {
      AnswersFollowTheClient(events[..n], k);
    }
  }

  /** A client packet of a known flow, or of one that could be opened, is sent on it. */
  lemma PacketHasFlow(events: seq<Event>, e: Event)
    requires e.Packet?
    ensures e.k in Run(events + [e]) <==> e.k in Run(events) || e.token.Some?
    ensures e.k !in Run(events) && e.token.Some? ==> Run(events + [e])[e.k].token == e.token.value
    ensures e.k in Run(events) ==> Run(events + [e])[e.k].token == Run(events)[e.k].token
  {
    assert (events + [e])[..|events|] == events;
  }

  /** The removal of a session takes all its flows and no others. */
  lemma RemovalTakesSession(events: seq<Event>, sid: u64, now: nat, k: FlowKey)
    ensures k in Run(events + [Gone(sid, now)]) <==> k in Run(events) && k.sid != sid
    ensures k in Run(events + [Gone(sid, now)]) ==> Run(events + [Gone(sid, now)])[k] == Run(events)[k]
  {
    assert (events + [Gone(sid, now)])[..|events|] == events;
  }
}
