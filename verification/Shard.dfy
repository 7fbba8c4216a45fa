/** One shard's flow tables: flows by key, keys by socket token, and each session's list of game
    addresses, updated in place by the shard's event loop. */
module Shard {
  import opened Bytes
  import opened Sessions
  import opened Reply

  const MAX_FLOWS_TOTAL := 262_144
  const MAX_FLOWS_PER_SESSION := 1024
  const FLOW_TIMEOUT: nat := 180 * SECOND
  const FLOW_GRACE_PERIOD: nat := 30 * SECOND
  const REVIVAL: nat := 10 * SECOND

  datatype FlowKey = FlowKey(sid: u64, game: Addr)

  datatype Flow = Flow(client: Addr, info: Original, lastActivity: nat, marked: Option<nat>, token: u64)

  // --- The three tables describe one set of flows ---

  datatype Tables = Tables(tokens: map<u64, FlowKey>, flows: map<FlowKey, Flow>, lists: map<u64, seq<Addr>>)

  predicate NoDuplicates(s: seq<Addr>) {
    forall i, j :: 0 <= i < j < |s| ==> s[i] != s[j]
  }

  ghost predicate TokensAgree(tokens: map<u64, FlowKey>, flows: map<FlowKey, Flow>) {
    && (forall t :: t in tokens ==> t != 0 && tokens[t] in flows && flows[tokens[t]].token == t)
    && (forall k :: k in flows ==> flows[k].token in tokens && tokens[flows[k].token] == k)
  }

  ghost predicate ListsAgree(lists: map<u64, seq<Addr>>, flows: map<FlowKey, Flow>) {
    && (forall k :: k in flows ==> k.sid in lists && k.game in lists[k.sid])
    && (forall sid, g :: sid in lists && g in lists[sid] ==> FlowKey(sid, g) in flows)
    && (forall sid :: sid in lists ==> 0 < |lists[sid]| <= MAX_FLOWS_PER_SESSION && NoDuplicates(lists[sid]))
  }

  ghost predicate Agree(tb: Tables) {
    TokensAgree(tb.tokens, tb.flows) && ListsAgree(tb.lists, tb.flows)
  }

  function ListOf(lists: map<u64, seq<Addr>>, sid: u64): seq<Addr> {
    if sid in lists then lists[sid] else []
  }

  function Added(tb: Tables, k: FlowKey, fl: Flow): Tables {
    Tables(tb.tokens[fl.token := k], tb.flows[k := fl], tb.lists[k.sid := ListOf(tb.lists, k.sid) + [k.game]])
  }

  lemma AddedAgrees(tb: Tables, k: FlowKey, fl: Flow)
    requires Agree(tb) && k !in tb.flows && fl.token != 0 && fl.token !in tb.tokens
    requires |ListOf(tb.lists, k.sid)| < MAX_FLOWS_PER_SESSION
    ensures Agree(Added(tb, k, fl))
  {
    hide ListsAgree;
    AddedLists(tb.lists, tb.flows, k, fl);
  }

  lemma AddedLists(lists: map<u64, seq<Addr>>, flows: map<FlowKey, Flow>, k: FlowKey, fl: Flow)
    requires ListsAgree(lists, flows) && k !in flows && |ListOf(lists, k.sid)| < MAX_FLOWS_PER_SESSION
    ensures ListsAgree(lists[k.sid := ListOf(lists, k.sid) + [k.game]], flows[k := fl])
  {
    var list := ListOf(lists, k.sid);
    assert k.game !in list;
    assert forall g :: g in list + [k.game] <==> g in list || g == k.game;
    assert NoDuplicates(list + [k.game]);
  }

  /** `Vec::swap_remove` */
  function SwapRemove(s: seq<Addr>, pos: nat): seq<Addr>
    requires pos < |s|
  {
    s[pos := s[|s| - 1]][..|s| - 1]
  }

  lemma SwapRemoveFacts(s: seq<Addr>, pos: nat)
    requires pos < |s| && NoDuplicates(s)
    ensures NoDuplicates(SwapRemove(s, pos))
    ensures forall g :: g in SwapRemove(s, pos) <==> g in s && g != s[pos]
  {
    var r := SwapRemove(s, pos);
    forall g | g in s && g != s[pos]
      ensures g in r
    {
      var i :| 0 <= i < |s| && s[i] == g;
      assert if i == |s| - 1 then r[pos] == g else r[i] == g;
    }
  }

  /** The session lists after a flow is taken out. */
  function Unlisted(lists: map<u64, seq<Addr>>, k: FlowKey): map<u64, seq<Addr>> {
    if k.sid !in lists then lists
    else
      var list := Without(lists[k.sid], k.game, 0);
      if list == [] then lists - {k.sid} else lists[k.sid := list]
  }

  /** The list without the first occurrence of `g` at or after `from`. */
  function Without(s: seq<Addr>, g: Addr, from: nat): seq<Addr>
    decreases |s| - from
  {
    if from >= |s| then s else if s[from] == g then SwapRemove(s, from) else Without(s, g, from + 1)
  }

  lemma {:induction false} WithoutFacts(s: seq<Addr>, g: Addr, from: nat)
    requires NoDuplicates(s) && from <= |s| && g !in s[..from]
    ensures NoDuplicates(Without(s, g, from)) && |Without(s, g, from)| <= |s|
    ensures forall x :: x in Without(s, g, from) <==> x in s && x != g
    decreases |s| - from
  {
    if from < |s| {
      if s[from] == g {
        SwapRemoveFacts(s, from);
      } else {
        assert s[..from + 1] == s[..from] + [s[from]];
        WithoutFacts(s, g, from + 1);
      }
    } else {
      assert s[..from] == s;
    }
  }

  function Dropped(tb: Tables, k: FlowKey): Tables
    requires k in tb.flows
  {
    Tables(tb.tokens - {tb.flows[k].token}, tb.flows - {k}, Unlisted(tb.lists, k))
  }

  lemma DroppedAgrees(tb: Tables, k: FlowKey)
    requires Agree(tb) && k in tb.flows
    ensures Agree(Dropped(tb, k))
  {
    hide Without;
    WithoutFacts(tb.lists[k.sid], k.game, 0);
    var tb' := Dropped(tb, k);
    assert TokensAgree(tb'.tokens, tb'.flows);
  }

  /** Changing flows without changing their tokens. */
  lemma SameKeysAgree(tb: Tables, flows: map<FlowKey, Flow>)
    requires Agree(tb) && flows.Keys == tb.flows.Keys
    requires forall k :: k in flows ==> flows[k].token == tb.flows[k].token
    ensures Agree(tb.(flows := flows))
  {
  }

  lemma TokenDropAgrees(tokens: map<u64, FlowKey>, flows: map<FlowKey, Flow>, k: FlowKey)
    requires TokensAgree(tokens, flows) && k in flows
    ensures TokensAgree(tokens - {flows[k].token}, flows - {k})
  {
  }

  // --- What each message does to the flows ---

  function Refreshed(fl: Flow, client: Addr, now: nat): Flow {
    fl.(client := client, lastActivity := now, marked := None)
  }

  /** A client packet; `token` is the token of a newly admitted flow. */
  function AfterPacket(flows: map<FlowKey, Flow>, k: FlowKey, client: Addr,
                       info: Original, now: nat, token: Option<u64>): map<FlowKey, Flow> {
    if k in flows then flows[k := Refreshed(flows[k], client, now).(info := info)]
    else if token.Some? then flows[k := Flow(client, info, now, None, token.value)]
    else flows
  }

  function AfterKeepalive(flows: map<FlowKey, Flow>, sid: u64, client: Addr, now: nat): map<FlowKey, Flow> {
    map k | k in flows :: if k.sid == sid then Refreshed(flows[k], client, now) else flows[k]
  }

  function AfterResponse(flows: map<FlowKey, Flow>, k: FlowKey, now: nat, leaseCurrent: bool): map<FlowKey, Flow> {
    if k in flows && leaseCurrent then flows[k := flows[k].(lastActivity := now, marked := None)] else flows
  }

  function AfterRemoval(flows: map<FlowKey, Flow>, sid: u64): map<FlowKey, Flow> {
    map k | k in flows && k.sid != sid :: flows[k]
  }

  /** Marked long enough ago to go. */
  predicate IsDue(fl: Flow, now: nat) {
    fl.marked.Some? && Since(now, fl.marked.value) >= FLOW_GRACE_PERIOD
  }

  predicate IsRevived(fl: Flow, now: nat) {
    fl.marked.Some? && !IsDue(fl, now) && Since(now, fl.lastActivity) < REVIVAL
  }

  function Aged(fl: Flow, now: nat): Flow {
    if fl.marked.Some? then (if IsRevived(fl, now) then fl.(marked := None) else fl)
    else if Since(now, fl.lastActivity) >= FLOW_TIMEOUT then fl.(marked := Some(now))
    else fl
  }

  function AfterCleanup(flows: map<FlowKey, Flow>, now: nat): map<FlowKey, Flow> {
    map k | k in flows && !IsDue(flows[k], now) :: Aged(flows[k], now)
  }

  lemma EveryFlowListed(tb: Tables, sid: u64)
    requires Agree(tb)
    ensures forall k :: k in tb.flows && k.sid == sid ==> sid in tb.lists && k.game in tb.lists[sid]
  {
  }

  lemma RemovalAgrees(tb: Tables, sid: u64, tokens: map<u64, FlowKey>, flows: map<FlowKey, Flow>)
    requires Agree(tb) && TokensAgree(tokens, flows) && flows == AfterRemoval(tb.flows, sid)
    ensures Agree(Tables(tokens, flows, tb.lists - {sid}))
  {
  }

  // --- Tokens ---

  /** The token `d` places after `start`, in the cycle of nonzero tokens. */
  function Ahead(start: u64, d: nat): u64
    requires 0 < start && d <= U64_MAX
  {
    if start + d <= U64_MAX then start + d else start + d - U64_MAX
  }

  ghost predicate IsFirstFree(tokens: map<u64, FlowKey>, start: u64, d: nat, t: u64) {
    && 0 < start && d < U64_MAX && Ahead(start, d) == t && t !in tokens
    && forall j :: 0 <= j < d ==> Ahead(start, j) in tokens
  }

  lemma AheadReaches(start: u64, t: u64) returns (d: nat)
    requires 0 < start && 0 < t
    ensures d < U64_MAX && Ahead(start, d) == t
  {
    d := if t >= start then t - start else t + U64_MAX - start;
  }

  class Shard {
    var nextToken: u64
    var tokenToFlow: map<u64, FlowKey>
    var flows: map<FlowKey, Flow>
    var sessionFlows: map<u64, seq<Addr>>

    function Value(): Tables
      reads this
    {
      Tables(tokenToFlow, flows, sessionFlows)
    }

    ghost predicate Valid()
      reads this
    {
      Agree(Value())
    }

    constructor ()
      ensures Valid() && flows == map[]
    {
      nextToken, tokenToFlow, flows, sessionFlows := 1, map[], map[], map[];
    }

    /** The first free nonzero token from `nextToken` on, across wraparound; none exactly when every
        nonzero token is taken. */
    method AllocateFlowToken() returns (token: Option<u64>)
      modifies this`nextToken
      ensures token.None? <==> forall t: u64 :: t != 0 ==> t in tokenToFlow
      ensures token.Some? ==> token.value != 0 && token.value !in tokenToFlow
      ensures var start := if old(nextToken) == 0 then 1 else old(nextToken);
              token.Some? ==> nextToken == Ahead(token.value, 1)
                              && exists d :: IsFirstFree(tokenToFlow, start, d, token.value)
    {
      if nextToken == 0 {
        nextToken := 1;
      }
      var start := nextToken;
      ghost var d: nat := 0;
      while true
        invariant 0 < start && d < U64_MAX && nextToken == Ahead(start, d)
        invariant forall j :: 0 <= j < d ==> Ahead(start, j) in tokenToFlow
        decreases U64_MAX - d
      {
        var candidate := nextToken;
        nextToken := if nextToken == U64_MAX then 0 else nextToken + 1;
        if nextToken == 0 {
          nextToken := 1;
        }
        if candidate == 0 || candidate in tokenToFlow {
          assert Ahead(start, d) in tokenToFlow;
          if nextToken == start {
            forall t: u64 | t != 0
              ensures t in tokenToFlow
            {
              var j := AheadReaches(start, t);
              assert Ahead(start, j) in tokenToFlow;
            }
            return None;
          }
          d := d + 1;
          continue;
        }
        assert IsFirstFree(tokenToFlow, start, d, candidate);
        return Some(candidate);
      }
    }

    method RemoveFromIndex(k: FlowKey)
      modifies this`sessionFlows
      ensures sessionFlows == Unlisted(old(sessionFlows), k)
    {
      if k.sid !in sessionFlows {
        return;
      }
      var list := sessionFlows[k.sid];
      var pos := 0;
      while pos < |list| && list[pos] != k.game
        invariant pos <= |list| && Without(list, k.game, 0) == Without(list, k.game, pos)
      {
        pos := pos + 1;
      }
      if pos < |list| {
        list := list[pos := list[|list| - 1]][..|list| - 1];
      }
      sessionFlows := if list == [] then sessionFlows - {k.sid} else sessionFlows[k.sid := list];
    }

    /** A client packet: its flow is found or, limits and sockets permitting, opened, and the payload
        goes out on it. */
    method ClientPacket(k: FlowKey, client: Addr, info: Original, now: nat,
                        totalFlows: nat, limiterOk: bool, socketOk: bool, registerOk: bool)
      returns (sent: bool, openedWith: Option<u64>)
      requires Valid()
      modifies this
      ensures Valid()
      ensures flows == AfterPacket(old(flows), k, client, info, now, openedWith)
      ensures sent <==> k in old(flows) || openedWith.Some?
      ensures sent <==> k in flows && flows[k].client == client && flows[k].info == info && flows[k].lastActivity == now
      ensures openedWith.Some? <==>
                && k !in old(flows) && totalFlows < 262_144 && |ListOf(old(sessionFlows), k.sid)| < 1024
                && limiterOk && socketOk && registerOk
                && exists t: u64 :: t != 0 && t !in old(tokenToFlow)
      ensures openedWith.Some? ==> openedWith.value != 0 && openedWith.value !in old(tokenToFlow)
    {
      hide Agree;
      openedWith := None;
      if k !in flows {
        if totalFlows >= MAX_FLOWS_TOTAL || |ListOf(sessionFlows, k.sid)| >= MAX_FLOWS_PER_SESSION
           || !limiterOk || !socketOk {
          return false, None;
        }
        var token := AllocateFlowToken();
        if token.None? || !registerOk {
          return false, None;
        }
        var fl := Flow(client, info, now, None, token.value);
        AddedAgrees(Value(), k, fl);
        tokenToFlow := tokenToFlow[token.value := k];
        sessionFlows := sessionFlows[k.sid := ListOf(sessionFlows, k.sid) + [k.game]];
        flows := flows[k := fl];
        openedWith := token;
      }
      SameKeysAgree(Value(), flows[k := Refreshed(flows[k], client, now).(info := info)]);
      flows := flows[k := Refreshed(flows[k], client, now).(info := info)];
      sent := true;
    }

    /** A keepalive refreshes every flow of its session. */
    method Keepalive(sid: u64, client: Addr, now: nat)
      requires Valid()
      modifies this`flows
      ensures Valid()
      ensures flows == AfterKeepalive(old(flows), sid, client, now)
    {
      if sid in sessionFlows {
        var list := sessionFlows[sid];
        for i := 0 to |list|
          invariant flows.Keys == old(flows).Keys
          invariant forall k :: k in flows ==>
                      flows[k] == if k.sid == sid && k.game in list[..i] then Refreshed(old(flows)[k], client, now)
                                  else old(flows)[k]
        {
          var k := FlowKey(sid, list[i]);
          if k in flows {
            flows := flows[k := Refreshed(flows[k], client, now)];
          }
          assert list[..i + 1] == list[..i] + [list[i]];
        }
        assert list[..|list|] == list;
      }
      SameKeysAgree(old(Value()), flows);
    }

    /** The session is gone: so are its flows, their tokens and its list. */
    method RemoveSession(sid: u64)
      requires Valid()
      modifies this
      ensures Valid()
      ensures flows == AfterRemoval(old(flows), sid) && nextToken == old(nextToken)
    {
      hide TokensAgree, ListsAgree;
      EveryFlowListed(Value(), sid);
      if sid in sessionFlows {
        var list := sessionFlows[sid];
        sessionFlows := sessionFlows - {sid};
        for i := 0 to |list|
          invariant nextToken == old(nextToken) && sessionFlows == old(sessionFlows) - {sid}
          invariant TokensAgree(tokenToFlow, flows)
          invariant forall k :: k in flows <==> k in old(flows) && !(k.sid == sid && k.game in list[..i])
          invariant forall k :: k in flows ==> flows[k] == old(flows)[k]
        {
          var k := FlowKey(sid, list[i]);
          assert list[..i + 1] == list[..i] + [list[i]];
          if k in flows {
            TokenDropAgrees(tokenToFlow, flows, k);
            tokenToFlow := tokenToFlow - {flows[k].token};
            flows := flows - {k};
          }
        }
        assert list[..|list|] == list;
        RemovalAgrees(old(Value()), sid, tokenToFlow, flows);
      }
    }

    /** A response from the game server, forwarded under a current lease. */
    method Response(token: u64, now: nat, leaseCurrent: bool) returns (flow: Option<FlowKey>)
      requires Valid()
      modifies this`flows
      ensures Valid()
      ensures flow.Some? <==> token in tokenToFlow && leaseCurrent
      ensures flow.Some? ==> flow.value in flows && flows[flow.value].token == token
                             && flows == AfterResponse(old(flows), flow.value, now, leaseCurrent)
      ensures flow.None? ==> flows == old(flows)
    {
      if token !in tokenToFlow || tokenToFlow[token] !in flows || !leaseCurrent {
        return None;
      }
      var k := tokenToFlow[token];
      SameKeysAgree(Value(), flows[k := flows[k].(lastActivity := now, marked := None)]);
      flows := flows[k := flows[k].(lastActivity := now, marked := None)];
      return Some(k);
    }

    /** The periodic pass: remove what was marked long ago, mark what fell silent. */
    method Cleanup(now: nat)
      requires Valid()
      modifies this
      ensures Valid()
      ensures flows == AfterCleanup(old(flows), now) && nextToken == old(nextToken)
    {
      hide Agree, IsDue, Aged;
      var todo := flows.Keys;
      while todo != {}
        invariant Valid() && nextToken == old(nextToken)
        invariant todo <= flows.Keys <= old(flows).Keys
        invariant forall k :: k in todo ==> flows[k] == old(flows)[k]
        invariant forall k :: k in old(flows) && k !in todo ==>
                    (k in flows <==> !IsDue(old(flows)[k], now))
                    && (k in flows ==> flows[k] == Aged(old(flows)[k], now))
        decreases |todo|
      {
        var k :| k in todo;
        if IsDue(flows[k], now) {
          DroppedAgrees(Value(), k);
          tokenToFlow := tokenToFlow - {flows[k].token};
          RemoveFromIndex(k);
          flows := flows - {k};
        } else {
          assert Aged(flows[k], now).token == flows[k].token by { AgedToken(flows[k], now); }
          SameKeysAgree(Value(), flows[k := Aged(flows[k], now)]);
          flows := flows[k := Aged(flows[k], now)];
        }
        todo := todo - {k};
      }
    }
  }

  lemma AgedToken(fl: Flow, now: nat)
    ensures Aged(fl, now).token == fl.token
  {
  }
}
