/** The v1 flow table under concurrency: the receive loop inserts flows, one handler task runs for
    each inserted flow, and a cleanup task expires flows, sifts the session index and forgets
    sessions.  A step is one operation on one map; the guard of a session's index entry is held
    across steps where the source holds it.  What a step's outcome depends on outside the maps
    (clocks, sockets, leases) is left open: the step may be taken at any time. */
module FlowTable {
  import opened Bytes
  import opened Sessions
  import opened Shard

  /** `gen` is the flow's generation token: the number of the insertion that made it. */
  datatype Entry = Entry(gen: nat, client: Addr, lastActivity: nat)

  datatype Handler =
    | Unborn                    // not spawned yet
    | Running
    | Answering(client: Addr)   // looked up where to answer
    | Touching                  // answered
    | Leaving
    | Removing                  // holds the index guard
    | Unlisting                 // holds it, flow taken out
    | Ended

  datatype Rx = Idle | Pushing(gen: nat) | Spawning(gen: nat)

  datatype Keeper = Resting | Sifting(sid: u64, todo: seq<FlowKey>, kept: seq<FlowKey>)

  datatype Holder = Task(gen: nat) | Cleanup

  datatype State = State(
    flows: map<FlowKey, Entry>,
    index: map<u64, seq<FlowKey>>,
    sessions: set<u64>,
    guard: map<u64, Holder>,
    rx: Rx, keeper: Keeper,
    born: seq<FlowKey>,           // the key of each generation
    handlers: seq<Handler>,       // the handler of each generation
    steady: set<nat>,             // history: completed insertions whose session was never absent since
    clients: set<(nat, Addr)>,    // history: addresses recorded in each generation's entry
    answers: seq<(nat, Addr)>)    // history: answers sent by each generation's handler

  datatype Step =
    | Greet(sid: u64)
    | Insert(k: FlowKey, client: Addr, now: nat)
    | Push
    | Spawn
    | Refresh(k: FlowKey, client: Addr, now: nat)
    | Lookup(g: nat)
    | Send(g: nat)
    | Touch(g: nat, now: nat)
    | Quit(g: nat)
    | Acquire(g: nat)
    | Take(g: nat)
    | Unlist(g: nat)
    | Expire(k: FlowKey)
    | SiftStart(sid: u64)
    | SiftKey
    | SiftEnd
    | Forget(sid: u64)

  const INIT := State(map[], map[], {}, map[], Idle, Resting, [], [], {}, {}, [])

  predicate Shape(s: State) {
    && |s.handlers| == |s.born|
    && (!s.rx.Idle? ==> s.rx.gen < |s.born|)
  }

  predicate Owns(s: State, g: nat)
    requires g < |s.born|
  {
    s.born[g] in s.flows && s.flows[s.born[g]].gen == g
  }

  predicate Enabled(s: State, step: Step)
    requires Shape(s)
  {
    match step
    case Greet(sid) => s.rx.Idle?
    case Insert(k, _, _) => s.rx.Idle? && k !in s.flows
    case Push => s.rx.Pushing? && s.born[s.rx.gen].sid !in s.guard
    case Spawn => s.rx.Spawning?
    case Refresh(k, _, _) => s.rx.Idle? && k in s.flows
    case Lookup(g) => g < |s.born| && s.handlers[g].Running?
    case Send(g) => g < |s.born| && s.handlers[g].Answering?
    case Touch(g, _) => g < |s.born| && s.handlers[g].Touching?
    case Quit(g) => g < |s.born| && s.handlers[g].Running?
    case Acquire(g) => g < |s.born| && s.handlers[g].Leaving? && s.born[g].sid !in s.guard
    case Take(g) => g < |s.born| && s.handlers[g].Removing?
    case Unlist(g) => g < |s.born| && s.handlers[g].Unlisting?
    case Expire(k) => k in s.flows
    case SiftStart(sid) => s.keeper.Resting? && sid in s.index && sid !in s.guard
    case SiftKey => s.keeper.Sifting? && s.keeper.todo != []
    case SiftEnd => s.keeper.Sifting? && s.keeper.todo == []
    case Forget(sid) => sid in s.sessions
  }

  function At(s: State, g: nat, h: Handler): State
    requires g < |s.handlers|
  {
    s.(handlers := s.handlers[g := h])
  }

  function Listed(index: map<u64, seq<FlowKey>>, sid: u64): seq<FlowKey> {
    if sid in index then index[sid] else []
  }

  /** All copies of `k` gone from the list. */
  function Purged(list: seq<FlowKey>, k: FlowKey): seq<FlowKey> {
    if list == [] then []
    else Purged(list[..|list| - 1], k) + if list[|list| - 1] == k then [] else [list[|list| - 1]]
  }

  function WithList(index: map<u64, seq<FlowKey>>, sid: u64, list: seq<FlowKey>): map<u64, seq<FlowKey>> {
    if list == [] then index - {sid} else index[sid := list]
  }

  predicate ByRx(step: Step) {
    step.Greet? || step.Insert? || step.Push? || step.Spawn? || step.Refresh?
  }

  predicate ByTask(step: Step) {
    step.Lookup? || step.Send? || step.Touch? || step.Quit?
  }

  predicate ByRemoval(step: Step) {
    step.Acquire? || step.Take? || step.Unlist?
  }

  predicate ByCleanup(step: Step) {
    step.Expire? || step.SiftStart? || step.SiftKey? || step.SiftEnd? || step.Forget?
  }

  /** The receive loop. */
  function RxStep(s: State, step: Step): State
    requires Shape(s) && Enabled(s, step) && ByRx(step)
  {
    match step
    case Greet(sid) => s.(sessions := s.sessions + {sid})
    case Insert(k, client, now) =>
      var g := |s.born|;
      s.(flows := s.flows[k := Entry(g, client, now)], born := s.born + [k], handlers := s.handlers + [Unborn],
         rx := Pushing(g), clients := s.clients + {(g, client)})
    case Push =>
      var g := s.rx.gen;
      var sid := s.born[g].sid;
      s.(index := s.index[sid := Listed(s.index, sid) + [s.born[g]]], rx := Spawning(g),
         steady := if sid in s.sessions then s.steady + {g} else s.steady)
    case Spawn => At(s, s.rx.gen, Running).(rx := Idle)
    case Refresh(k, client, now) =>
      s.(flows := s.flows[k := s.flows[k].(client := client, lastActivity := now)],
         clients := s.clients + {(s.flows[k].gen, client)})
  }

  /** The handler of generation `step.g` at work. */
  function TaskStep(s: State, step: Step): State
    requires Shape(s) && Enabled(s, step) && ByTask(step)
  {
    match step
    case Lookup(g) =>
      if Owns(s, g) then At(s, g, Answering(s.flows[s.born[g]].client))
      else if s.born[g] in s.flows || s.born[g].sid !in s.sessions then At(s, g, Leaving)
      else s
    case Send(g) => At(s, g, Touching).(answers := s.answers + [(g, s.handlers[g].client)])
    case Touch(g, now) =>
      if Owns(s, g) then At(s, g, Running).(flows := s.flows[s.born[g] := s.flows[s.born[g]].(lastActivity := now)])
      else At(s, g, Running)
    case Quit(g) => At(s, g, Leaving)
  }

  /** The same handler removing its flow. */
  function RemovalStep(s: State, step: Step): State
    requires Shape(s) && Enabled(s, step) && ByRemoval(step)
  {
    match step
    case Acquire(g) => At(s, g, Removing).(guard := s.guard[s.born[g].sid := Task(g)])
    case Take(g) =>
      if Owns(s, g) then At(s, g, Unlisting).(flows := s.flows - {s.born[g]})
      else At(s, g, Ended).(guard := s.guard - {s.born[g].sid})
    case Unlist(g) =>
      var sid := s.born[g].sid;
      At(s, g, Ended).(guard := s.guard - {sid},
                       index := WithList(s.index, sid, Purged(Listed(s.index, sid), s.born[g])))
  }

  /** The cleanup task. */
  function CleanupStep(s: State, step: Step): State
    requires Shape(s) && Enabled(s, step) && ByCleanup(step)
  {
    match step
    case Expire(k) => s.(flows := s.flows - {k})
    case SiftStart(sid) =>
      s.(keeper := Sifting(sid, s.index[sid], []), guard := s.guard[sid := Cleanup])
    case SiftKey =>
      var k := s.keeper.todo[0];
      s.(keeper := Sifting(s.keeper.sid, s.keeper.todo[1..],
                           if k in s.flows then s.keeper.kept + [k] else s.keeper.kept))
    case SiftEnd =>
      var sid := s.keeper.sid;
      s.(index := if sid in s.sessions then WithList(s.index, sid, s.keeper.kept) else s.index - {sid},
         guard := s.guard - {sid}, keeper := Resting)
    case Forget(sid) =>
      s.(sessions := s.sessions - {sid},
         steady := set g | g in s.steady && (g < |s.born| ==> s.born[g].sid != sid))
  }

  function Apply(s: State, step: Step): State
    requires Shape(s) && Enabled(s, step)
  {
    if ByRx(step) then RxStep(s, step)
    else if ByTask(step) then TaskStep(s, step)
    else if ByRemoval(step) then RemovalStep(s, step)
    else CleanupStep(s, step)
  }

  // --- Invariants ---

  /** A generation's entry is under its own key, and its handler has neither ended nor taken it out. */
  predicate EntryOk(s: State, k: FlowKey)
    requires k in s.flows
  {
    var g := s.flows[k].gen;
    && g < |s.born| && g < |s.handlers| && s.born[g] == k
    && !s.handlers[g].Ended? && !s.handlers[g].Unlisting?
    && (g, s.flows[k].client) in s.clients
  }

  predicate HandlerOk(s: State, g: nat)
    requires g < |s.born| && g < |s.handlers|
  {
    var h := s.handlers[g];
    && (h.Unborn? <==> !s.rx.Idle? && s.rx.gen == g)
    && (h.Answering? ==> (g, h.client) in s.clients)
    && (h.Removing? || h.Unlisting? <==> s.born[g].sid in s.guard && s.guard[s.born[g].sid] == Task(g))
    && (h.Unlisting? && s.born[g] in s.flows ==> s.flows[s.born[g]].gen !in s.steady)
  }

  predicate KeeperOk(s: State) {
    && (s.keeper.Sifting? ==> s.keeper.sid in s.guard && s.guard[s.keeper.sid] == Cleanup)
    && (forall sid :: sid in s.guard && s.guard[sid].Task? ==> s.guard[sid].gen < |s.born|)
  }

  /** A steady flow's session is there, and its key is listed, and not yet sifted out of the list. */
  predicate SteadyOk(s: State, k: FlowKey)
    requires k in s.flows
  {
    s.flows[k].gen in s.steady ==>
      && k.sid in s.sessions && k in Listed(s.index, k.sid)
      && (s.keeper.Sifting? && s.keeper.sid == k.sid ==> k in s.keeper.todo || k in s.keeper.kept)
  }

  predicate HistoryOk(s: State) {
    && (forall g :: g in s.steady ==> g < |s.born|)
    && (s.rx.Pushing? ==> s.rx.gen !in s.steady)
    && (forall i :: 0 <= i < |s.answers| ==> s.answers[i] in s.clients)
  }

  ghost predicate Inv(s: State) {
    && Shape(s) && KeeperOk(s) && HistoryOk(s)
    && (forall k :: k in s.flows ==> EntryOk(s, k))
    && (forall g :: 0 <= g < |s.born| ==> HandlerOk(s, g))
    && (forall k :: k in s.flows ==> SteadyOk(s, k))
  }

  // --- Every step keeps them ---

  lemma {:induction false} PurgedKeeps(list: seq<FlowKey>, k: FlowKey, x: FlowKey)
    ensures x in Purged(list, k) <==> x in list && x != k
  {
    if list != [] {
      PurgedKeeps(list[..|list| - 1], k, x);
      assert list == list[..|list| - 1] + [list[|list| - 1]];
    }
  }

  lemma RxKeepsEntry(s: State, step: Step, k: FlowKey)
    requires Inv(s) && Enabled(s, step) && ByRx(step) && k in RxStep(s, step).flows
    ensures EntryOk(RxStep(s, step), k) && SteadyOk(RxStep(s, step), k)
  {
    assert k in s.flows ==> EntryOk(s, k) && SteadyOk(s, k);
    assert !s.rx.Idle? ==> s.rx.gen < |s.born| ==> HandlerOk(s, s.rx.gen);
  }

  lemma RxKeepsHandler(s: State, step: Step, g: nat)
    requires Inv(s) && Enabled(s, step) && ByRx(step) && g < |RxStep(s, step).born|
    ensures |RxStep(s, step).handlers| == |RxStep(s, step).born| && HandlerOk(RxStep(s, step), g)
  {
    hide SteadyOk;
    if g < |s.born| {
      assert HandlerOk(s, g);
      assert s.born[g] in s.flows ==> EntryOk(s, s.born[g]);
    }
  }

  lemma RxKeepsInv(s: State, step: Step)
    requires Inv(s) && Enabled(s, step) && ByRx(step)
    ensures Inv(RxStep(s, step))
  {
    hide EntryOk, SteadyOk, HandlerOk;
    var s' := RxStep(s, step);
    forall k | k in s'.flows
      ensures EntryOk(s', k) && SteadyOk(s', k)
    {
      RxKeepsEntry(s, step, k);
    }
    forall g | 0 <= g < |s'.born|
      ensures HandlerOk(s', g)
    {
      RxKeepsHandler(s, step, g);
    }
  }

  lemma CleanupKeepsInv(s: State, step: Step)
    requires Inv(s) && Enabled(s, step) && ByCleanup(step)
    ensures Inv(CleanupStep(s, step))
  {
    var s' := CleanupStep(s, step);
    forall k | k in s'.flows
      ensures EntryOk(s', k) && SteadyOk(s', k)
    {
      assert EntryOk(s, k) && SteadyOk(s, k);
    }
    forall g | 0 <= g < |s'.born|
      ensures HandlerOk(s', g)
    {
      assert HandlerOk(s, g);
    }
  }

  lemma OneHandler(s: State, g: nat)
    requires Inv(s) && g < |s.born|
    ensures Shape(s) && HandlerOk(s, g) && (Owns(s, g) ==> EntryOk(s, s.born[g]))
  {
  }

  /** A handler at work changes its own state, when its own entry was last active, and the answers. */
  lemma TaskFrame(s: State, step: Step)
    requires Inv(s) && Enabled(s, step) && ByTask(step)
    ensures var s', g := TaskStep(s, step), step.g;
            && |s'.handlers| == |s.handlers|
            && s' == s.(flows := s'.flows, handlers := s.handlers[g := s'.handlers[g]], answers := s'.answers)
            && (s'.handlers[g].Answering? ==> (g, s'.handlers[g].client) in s.clients)
            && (s'.handlers[g].Running? || s'.handlers[g].Answering?
                || s'.handlers[g].Touching? || s'.handlers[g].Leaving?)
            && (s'.answers == s.answers || exists c :: (g, c) in s.clients && s'.answers == s.answers + [(g, c)])
            && s'.flows.Keys == s.flows.Keys
            && (forall k :: k in s.flows ==> s'.flows[k] == s.flows[k].(lastActivity := s'.flows[k].lastActivity))
  {
    hide SteadyOk, KeeperOk, HistoryOk, Inv;
    assert HandlerOk(s, step.g) && (Owns(s, step.g) ==> EntryOk(s, s.born[step.g])) by { OneHandler(s, step.g); }
  }

  lemma TaskKeepsInv(s: State, step: Step)
    requires Inv(s) && Enabled(s, step) && ByTask(step)
    ensures Inv(TaskStep(s, step))
  {
    hide TaskStep;
    var s' := TaskStep(s, step);
    TaskFrame(s, step);
    assert HandlerOk(s, step.g);
    forall k | k in s'.flows
      ensures EntryOk(s', k) && SteadyOk(s', k)
    {
      assert EntryOk(s, k) && SteadyOk(s, k);
    }
    forall g | 0 <= g < |s'.born|
      ensures HandlerOk(s', g)
    {
      assert HandlerOk(s, g);
    }
  }

  lemma RemovalKeepsEntry(s: State, step: Step, k: FlowKey)
    requires Inv(s) && Enabled(s, step) && ByRemoval(step) && k in RemovalStep(s, step).flows
    ensures EntryOk(RemovalStep(s, step), k) && SteadyOk(RemovalStep(s, step), k)
  {
    hide KeeperOk, HistoryOk, Purged;
    assert HandlerOk(s, step.g) && EntryOk(s, k) && SteadyOk(s, k);
    if step.Unlist? {
      PurgedKeeps(Listed(s.index, k.sid), s.born[step.g], k);
    }
  }

  lemma RemovalKeepsHandler(s: State, step: Step, g: nat)
    requires Inv(s) && Enabled(s, step) && ByRemoval(step) && g < |s.born|
    ensures var s' := RemovalStep(s, step);
            |s'.born| == |s.born| && |s'.handlers| == |s.handlers| && HandlerOk(s', g)
  {
    hide EntryOk, SteadyOk, Purged, WithList, HistoryOk;
    assert HandlerOk(s, step.g) && HandlerOk(s, g);
  }

  lemma RemovalKeepsInv(s: State, step: Step)
    requires Inv(s) && Enabled(s, step) && ByRemoval(step)
    ensures Inv(RemovalStep(s, step))
  {
    hide EntryOk, SteadyOk, Purged, WithList;
    var s' := RemovalStep(s, step);
    assert HandlerOk(s, step.g);
    forall k | k in s'.flows
      ensures EntryOk(s', k) && SteadyOk(s', k)
    {
      RemovalKeepsEntry(s, step, k);
    }
    forall g | 0 <= g < |s'.born|
      ensures HandlerOk(s', g)
    {
      RemovalKeepsHandler(s, step, g);
    }
  }

  lemma ApplyKeepsInv(s: State, step: Step)
    requires Inv(s) && Enabled(s, step)
    ensures Inv(Apply(s, step))
  {
    hide Inv, RxStep, TaskStep, RemovalStep, CleanupStep;
    if ByRx(step) {
      RxKeepsInv(s, step);
    } else if ByTask(step) {
      TaskKeepsInv(s, step);
    } else if ByRemoval(step) {
      RemovalKeepsInv(s, step);
    } else {
      CleanupKeepsInv(s, step);
    }
  }

  // --- Every interleaving ---

  lemma ApplyKeepsShape(s: State, step: Step)
    requires Shape(s) && Enabled(s, step)
    ensures Shape(Apply(s, step))
  {
    hide Purged, WithList, Listed;
  }

  /** Take the step if it is enabled. */
  function Next(s: State, step: Step): (s': State)
    requires Shape(s)
    ensures Shape(s')
  {
    if Enabled(s, step) then ApplyKeepsShape(s, step); Apply(s, step) else s
  }

  /** Run the steps in turn; a step that is not enabled is not taken. */
  function Exec(steps: seq<Step>): (s: State)
    ensures Shape(s)
  {
    if steps == [] then INIT else Next(Exec(steps[..|steps| - 1]), steps[|steps| - 1])
  }

  lemma {:induction false} ExecKeepsInv(steps: seq<Step>)
    ensures Inv(Exec(steps))
  {
    hide Apply, Enabled;
    if steps != [] {
      ExecKeepsInv(steps[..|steps| - 1]);
      var s := Exec(steps[..|steps| - 1]);
      if Enabled(s, steps[|steps| - 1]) {
        ApplyKeepsInv(s, steps[|steps| - 1]);
      }
    }
  }

  predicate ByHandler(step: Step) {
    ByTask(step) || ByRemoval(step)
  }

  lemma OthersUntouched(s: State, step: Step, k: FlowKey)
    requires Shape(s) && ByHandler(step) && Enabled(s, step)
    ensures var s' := Apply(s, step);
            && (k in s'.flows ==> k in s.flows)
            && (k in s.flows && s.flows[k].gen != step.g ==> k in s'.flows && s'.flows[k] == s.flows[k])
  {
    hide Purged, WithList;
  }

  /** A step of one generation's handler leaves every other generation's entry as it is: not removed,
      not changed, not replaced. */
  lemma HandlerLeavesOtherGenerations(steps: seq<Step>, step: Step, k: FlowKey)
    requires ByHandler(step) && Enabled(Exec(steps), step)
    ensures var s := Exec(steps);
            var s' := Apply(s, step);
            && (k in s'.flows ==> k in s.flows)
            && (k in s.flows && s.flows[k].gen != step.g ==> k in s'.flows && s'.flows[k] == s.flows[k])
  {
    hide Exec, Apply, Enabled;
    OthersUntouched(Exec(steps), step, k);
  }

  /** Every answer a handler ever sent went to an address recorded for its own generation's flow. */
  lemma EveryRunAnswersItsOwn(steps: seq<Step>, i: nat)
    requires i < |Exec(steps).answers|
    ensures Exec(steps).answers[i] in Exec(steps).clients
  {
    ExecKeepsInv(steps);
  }

  /** No flow entry outlives its handler: the receive loop never finds the channel of an entry closed. */
  lemma NoEntryOutlivesItsHandler(steps: seq<Step>, k: FlowKey)
    ensures var s := Exec(steps);
            k in s.flows ==>
              && s.flows[k].gen < |s.handlers| && s.born[s.flows[k].gen] == k
              && !s.handlers[s.flows[k].gen].Ended?
  {
    ExecKeepsInv(steps);
    assert k in Exec(steps).flows ==> EntryOk(Exec(steps), k);
  }

  /** A flow whose insertion was completed while its session was there is in the session's index as
      long as the session has not been removed since. */
  lemma CompletedInsertionStaysIndexed(steps: seq<Step>, k: FlowKey)
    ensures var s := Exec(steps);
            k in s.flows && s.flows[k].gen in s.steady ==> k.sid in s.sessions && k in Listed(s.index, k.sid)
  {
    ExecKeepsInv(steps);
    assert k in Exec(steps).flows ==> SteadyOk(Exec(steps), k);
  }

  /** What `steady` means: completing an insertion makes it so if the session is there, only the
      removal of the session ends it, and nothing else changes it. */
  lemma SteadyUntilSessionRemoved(steps: seq<Step>, step: Step, g: nat)
    requires Enabled(Exec(steps), step)
    ensures var s := Exec(steps);
            var s' := Apply(s, step);
            g in s'.steady <==>
              if step.Push? && s.rx.gen == g then s.born[g].sid in s.sessions
              else g in s.steady && !(step.Forget? && g < |s.born| && s.born[g].sid == step.sid)
  {
    hide SteadyOk, KeeperOk, EntryOk, HandlerOk, Exec;
    ExecKeepsInv(steps);
  }

  // --- What the threads do when nothing interferes ---

  /** Inserting a flow: it is in the table with a new generation, at the end of its session's list, and its
      handler runs. */
  lemma UninterruptedInsertion(s: State, k: FlowKey, client: Addr, now: nat)
    requires Shape(s) && s.rx.Idle? && k !in s.flows && k.sid !in s.guard
    ensures var s', g := Next(Next(Next(s, Insert(k, client, now)), Push), Spawn), |s.born|;
            && s'.flows == s.flows[k := Entry(g, client, now)]
            && s'.index == s.index[k.sid := (if k.sid in s.index then s.index[k.sid] else []) + [k]]
            && s'.born == s.born + [k] && s'.handlers == s.handlers + [Running]
            && s'.rx.Idle? && s'.sessions == s.sessions && s'.guard == s.guard && s'.answers == s.answers
  {
    var s1 := Next(s, Insert(k, client, now));
    var s2 := Next(s1, Push);
    assert s2.rx == Spawning(|s.born|);
  }

  /** A packet of a known flow moves it to the sender. */
  lemma RefreshMoves(s: State, k: FlowKey, client: Addr, now: nat)
    requires Shape(s) && s.rx.Idle? && k in s.flows
    ensures Next(s, Refresh(k, client, now)).flows == s.flows[k := Entry(s.flows[k].gen, client, now)]
    ensures Next(s, Refresh(k, client, now)).index == s.index
  {
  }

  /** A handler that owns its entry answers where the entry says, and touches the entry; one that does not
      leaves, or waits for its entry while its session is there. */
  lemma UninterruptedAnswer(s: State, g: nat, now: nat)
    requires Shape(s) && g < |s.born| && s.handlers[g].Running?
    ensures var s', k := Next(Next(Next(s, Lookup(g)), Send(g)), Touch(g, now)), s.born[g];
            if k in s.flows && s.flows[k].gen == g then
              && s'.answers == s.answers + [(g, s.flows[k].client)]
              && s'.flows == s.flows[k := Entry(g, s.flows[k].client, now)]
              && s'.handlers == s.handlers
            else
              && s'.answers == s.answers && s'.flows == s.flows
              && s'.handlers[g] == if k in s.flows || k.sid !in s.sessions then Leaving else Running
  {
    var s1 := Next(s, Lookup(g));
    var s2 := Next(s1, Send(g));
    if Owns(s, g) {
      assert s2.handlers[g] == Touching;
      assert Next(s2, Touch(g, now)).handlers == s.handlers;
    } else {
      assert s2 == s1;
    }
  }

  /** A handler's end: its own entry goes, with every listing of its key; another generation's entry and
      listing stay. */
  lemma UninterruptedRemoval(s: State, g: nat)
    requires Shape(s) && g < |s.born| && s.handlers[g].Leaving? && s.born[g].sid !in s.guard
    ensures var s', k := Next(Next(Next(s, Acquire(g)), Take(g)), Unlist(g)), s.born[g];
            && s'.handlers == s.handlers[g := Ended] && s'.guard == s.guard && s'.answers == s.answers
            && if k in s.flows && s.flows[k].gen == g then
                 && s'.flows == s.flows - {k}
                 && s'.index == WithList(s.index, k.sid, Purged(Listed(s.index, k.sid), k))
               else s'.flows == s.flows && s'.index == s.index
  {
    hide Purged, WithList, Listed;
    var s1 := Next(s, Acquire(g));
    var s2 := Next(s1, Take(g));
    assert s1.guard == s.guard[s.born[g].sid := Task(g)];
    if Owns(s, g) {
      assert s2.handlers[g] == Unlisting;
    } else {
      assert s2.handlers[g] == Ended;
    }
  }

  /** A greeting makes the session known, cleanup forgets it, and takes an expired flow out of the table
      but not off its session's list. */
  lemma SingleSteps(s: State, sid: u64, k: FlowKey)
    requires Shape(s)
    ensures s.rx.Idle? ==> Next(s, Greet(sid)) == s.(sessions := s.sessions + {sid})
    ensures Next(s, Forget(sid)).sessions == s.sessions - {sid} && Next(s, Forget(sid)).flows == s.flows
    ensures Next(s, Expire(k)) == s.(flows := s.flows - {k})
  {
    assert k !in s.flows ==> s.flows - {k} == s.flows;
    assert sid !in s.sessions ==> s.sessions - {sid} == s.sessions;
  }

  function Sifts(n: nat): seq<Step> {
    if n == 0 then [] else Sifts(n - 1) + [SiftKey]
  }

  function Steps(s: State, steps: seq<Step>): (s': State)
    requires Shape(s)
    ensures Shape(s')
  {
    if steps == [] then s else Next(Steps(s, steps[..|steps| - 1]), steps[|steps| - 1])
  }

  /** The keys of the list that are in the table. */
  function Live(list: seq<FlowKey>, flows: map<FlowKey, Entry>): seq<FlowKey> {
    if list == [] then []
    else Live(list[..|list| - 1], flows) + if list[|list| - 1] in flows then [list[|list| - 1]] else []
  }

  lemma SiftOne(s: State)
    requires Shape(s) && s.keeper.Sifting? && s.keeper.todo != []
    ensures var k := s.keeper.todo[0];
            Next(s, SiftKey) ==
              s.(keeper := Sifting(s.keeper.sid, s.keeper.todo[1..], s.keeper.kept + if k in s.flows then [k] else []))
  {
    assert s.keeper.kept + [] == s.keeper.kept;
  }

  lemma LiveStep(list: seq<FlowKey>, n: nat, flows: map<FlowKey, Entry>)
    requires 0 < n <= |list|
    ensures Live(list[..n], flows) == Live(list[..n - 1], flows) + if list[n - 1] in flows then [list[n - 1]] else []
  {
    assert list[..n][..n - 1] == list[..n - 1];
  }

  lemma {:induction false} SiftRun(s: State, n: nat)
    requires Shape(s) && s.keeper.Sifting? && s.keeper.kept == [] && n <= |s.keeper.todo|
    ensures Steps(s, Sifts(n)) ==
            s.(keeper := Sifting(s.keeper.sid, s.keeper.todo[n..], Live(s.keeper.todo[..n], s.flows)))
  {
    hide Next, Enabled;
    var todo := s.keeper.todo;
    if n == 0 {
      assert todo[0..] == todo && todo[..0] == [];
    } else {
      SiftRun(s, n - 1);
      LiveStep(todo, n, s.flows);
      assert Sifts(n)[..|Sifts(n)| - 1] == Sifts(n - 1);
      var m := Steps(s, Sifts(n - 1));
      SiftOne(m);
      assert m.keeper.todo[0] == todo[n - 1] && m.keeper.todo[1..] == todo[n..];
    }
  }

  /** Sifting a session's list leaves exactly the keys in the table, or no list if there are none or the
      session is gone. */
  lemma UninterruptedSift(s: State, sid: u64)
    requires Shape(s) && s.keeper.Resting? && sid in s.index && sid !in s.guard
    ensures var list := s.index[sid];
            Next(Steps(Next(s, SiftStart(sid)), Sifts(|list|)), SiftEnd) ==
              s.(index := if sid in s.sessions && Live(list, s.flows) != [] then s.index[sid := Live(list, s.flows)]
                          else s.index - {sid})
  {
    var list, s1 := s.index[sid], Next(s, SiftStart(sid));
    SiftRun(s1, |list|);
    assert list[..|list|] == list && list[|list|..] == [];
    assert s.guard[sid := Cleanup] - {sid} == s.guard;
  }
}
