/** Safety of every run of the v2 datapath: buffers are owned by one thread at a time, none is lost,
    and payloads reach each flow's socket unchanged and in receive order. */
module DatapathRuns {
  import opened Subsequences
  import opened Datapath

  // --- What is under way in each queue ---

  /** The bytes a queued or held buffer stands for. */
  function Peek(b: seq<Octets>, key: FlowKey, idx: nat, len: nat): Entry {
    Entry(key, if idx < |b| && len <= |b[idx]| then b[idx][..len] else [])
  }

  function MsgContents(b: seq<Octets>, m: Msg): seq<Entry> {
    if m.Buffer? then [Peek(b, m.key, m.idx, m.len)] else []
  }

  function Contents(b: seq<Octets>, q: seq<Msg>): seq<Entry> {
    if q == [] then [] else Contents(b, q[..|q| - 1]) + MsgContents(b, q[|q| - 1])
  }

  /** The one thread that drains queue `q`. */
  function Reader(c: Config, q: nat): nat {
    if q < c.shards then q else Tx(c)
  }

  function Held(c: Config, s: State, q: nat): seq<Entry>
    requires Shape(c, s) && q < c.shards + 2
  {
    var h := s.hands[Reader(c, q)];
    if h.Reading? && h.queue == q then [Peek(s.buffers, h.key, h.idx, h.len)] else []
  }

  /** Sent out, in the reader's hand, still queued: oldest first. */
  function Pipeline(c: Config, s: State, q: nat): seq<Entry>
    requires Shape(c, s) && q < c.shards + 2
  {
    s.used[q] + Held(c, s, q) + Contents(s.buffers, s.queues[q])
  }

  // --- The invariant ---

  predicate RxPending(c: Config, s: State)
    requires Shape(c, s)
  {
    var h := s.hands[Rx(c)];
    (h.Taken? || h.Filled?) && h.job.dest == Inbox
  }

  /** Payloads RX is done with. */
  function Settled(c: Config, s: State): seq<Entry>
    requires Shape(c, s)
  {
    if RxPending(c, s) && s.received != [] then s.received[..|s.received| - 1] else s.received
  }

  function ForShard(c: Config, q: nat): Entry -> bool {
    (e: Entry) => c.shardOf(e.key.session) == q
  }

  predicate HandOk(c: Config, s: State, t: nat)
    requires Shape(c, s) && t < |s.hands|
  {
    var h := s.hands[t];
    && (h != Empty ==> h.idx < c.slots)
    && (h.Taken? || h.Filled? ==> MayDo(c, t, h.job.dest))
    && (h.Filled? ==> && |h.job.entry.bytes| <= MAX_PACKET_SIZE && h.idx < |s.buffers|
                      && |s.buffers[h.idx]| == MAX_PACKET_SIZE
                      && s.buffers[h.idx][..|h.job.entry.bytes|] == h.job.entry.bytes)
    && (h.Reading? ==> h.queue < c.shards + 2 && t == Reader(c, h.queue) && h.len <= MAX_PACKET_SIZE)
  }

  predicate QueueOk(c: Config, q: seq<Msg>) {
    forall i :: 0 <= i < |q| && q[i].Buffer? ==> q[i].idx < c.slots && q[i].len <= MAX_PACKET_SIZE
  }

  ghost predicate LocalOk(c: Config, s: State) {
    && Shape(c, s)
    && (forall t :: 0 <= t < |s.hands| ==> HandOk(c, s, t))
    && (forall q :: 0 <= q < |s.queues| ==> QueueOk(c, s.queues[q]) && |s.queues[q]| <= Capacity(c, q))
  }

  ghost predicate InOrder(c: Config, s: State)
    requires Shape(c, s)
  {
    forall q :: 0 <= q < c.shards + 2 ==> Subseq(Pipeline(c, s, q), s.entered[q])
  }

  ghost predicate FromReceived(c: Config, s: State)
    requires Shape(c, s)
  {
    && (RxPending(c, s) ==> s.received != [] && s.received[|s.received| - 1] == s.hands[Rx(c)].job.entry)
    && (forall q :: 0 <= q < c.shards ==> Subseq(s.entered[q], Filter(Settled(c, s), ForShard(c, q))))
  }

  ghost predicate Inv(c: Config, s: State) {
    ValidConfig(c) && LocalOk(c, s) && Conserved(c, s) && InOrder(c, s) && FromReceived(c, s)
  }

  // --- Exclusive ownership ---

  lemma {:induction false} QueueInQueues(qs: seq<seq<Msg>>, k: nat, p: Choice)
    requires k < |qs|
    ensures QueueCount(qs[k], p) <= QueuesCount(qs, p)
  {
    if k < |qs| - 1 {
      QueueInQueues(qs[..|qs| - 1], k, p);
    }
  }

  lemma {:induction false} MsgInQueue(q: seq<Msg>, k: nat, p: Choice)
    requires k < |q|
    ensures MsgCount(q[k], p) <= QueueCount(q, p)
  {
    if k < |q| - 1 {
      MsgInQueue(q[..|q| - 1], k, p);
    }
  }

  lemma {:induction false} HandInHands(hs: seq<Hand>, t: nat, p: Choice)
    requires t < |hs|
    ensures HandCount(hs[t], p) <= HandsCount(hs, p)
  {
    if t < |hs| - 1 {
      HandInHands(hs[..|hs| - 1], t, p);
    }
  }

  lemma {:induction false} TwoHands(hs: seq<Hand>, t: nat, u: nat, p: Choice)
    requires t < |hs| && u < |hs| && t != u
    ensures HandCount(hs[t], p) + HandCount(hs[u], p) <= HandsCount(hs, p)
  {
    var n := |hs| - 1;
    if t == n {
      HandInHands(hs[..n], u, p);
    } else if u == n {
      HandInHands(hs[..n], t, p);
    } else {
      TwoHands(hs[..n], t, u, p);
    }
  }

  lemma {:induction false} FreeMember(f: seq<nat>, k: nat, p: Choice)
    requires k < |f|
    ensures One(p, f[k]) <= FreeCount(f, p)
  {
    if k < |f| - 1 {
      FreeMember(f[..|f| - 1], k, p);
    }
  }

  /** While a thread holds a buffer no other thread holds it, no queue contains it and it is not
      free: the exclusive check-out that sharing the pool between threads relies on. */
  lemma ExclusiveOwnership(c: Config, s: State, t: nat)
    requires Conserved(c, s) && t < |s.hands| && s.hands[t] != Empty
    ensures var i := s.hands[t].idx;
            && (forall u :: 0 <= u < |s.hands| && u != t && s.hands[u] != Empty ==> s.hands[u].idx != i)
            && (forall q, k :: 0 <= q < |s.queues| && 0 <= k < |s.queues[q]| && s.queues[q][k].Buffer?
                               ==> s.queues[q][k].idx != i)
            && i !in s.free
  {
    hide FreeCount, QueueCount, QueuesCount, HandsCount;
    var i := s.hands[t].idx;
    assert Count(s, Is(i)) <= 1;
    HandInHands(s.hands, t, Is(i));
    forall u | 0 <= u < |s.hands| && u != t && s.hands[u] != Empty
      ensures s.hands[u].idx != i
    {
      TwoHands(s.hands, t, u, Is(i));
    }
    forall q, k | 0 <= q < |s.queues| && 0 <= k < |s.queues[q]| && s.queues[q][k].Buffer?
      ensures s.queues[q][k].idx != i
    {
      QueueInQueues(s.queues, q, Is(i));
      MsgInQueue(s.queues[q], k, Is(i));
    }
    if i in s.free {
      var k :| 0 <= k < |s.free| && s.free[k] == i;
      FreeMember(s.free, k, Is(i));
    }
  }

  lemma {:induction false} FreeCountAny(f: seq<nat>)
    ensures FreeCount(f, Any()) == |f|
  {
    if f != [] {
      FreeCountAny(f[..|f| - 1]);
    }
  }

  /** Giving a buffer back never waits: the bounded free list always has room for it. */
  lemma ReleaseNeverBlocks(c: Config, s: State, t: nat)
    requires Conserved(c, s) && t < |s.hands| && s.hands[t] != Empty
    ensures |s.free| < c.slots
  {
    hide FreeCount, QueuesCount, HandsCount;
    FreeCountAny(s.free);
    HandInHands(s.hands, t, Any());
  }

  // --- Preservation ---

  lemma ApplyKeepsHands(c: Config, s: State, step: Step)
    requires ValidConfig(c) && LocalOk(c, s) && Conserved(c, s) && Enabled(c, s, step)
    ensures var s' := Apply(c, s, step);
            Shape(c, s') && forall t :: 0 <= t < |s'.hands| ==> HandOk(c, s', t)
  {
    hide Count, Capacity;
    var s' := Apply(c, s, step);
    ApplyKeepsShape(c, s, step);
    if step.Acquire? && s.free != [] {
      FreeInRange(c, s, 0);
    }
    if !step.Notify? && s.hands[step.t] != Empty {
      ExclusiveOwnership(c, s, step.t);
    }
    forall t | 0 <= t < |s'.hands|
      ensures HandOk(c, s', t)
    {
      assert HandOk(c, s, t);
      if step.Pop? {
        assert QueueOk(c, s.queues[step.q]);
      }
    }
  }

  lemma ApplyKeepsQueues(c: Config, s: State, step: Step)
    requires LocalOk(c, s) && Enabled(c, s, step)
    ensures var s' := Apply(c, s, step);
            forall q :: 0 <= q < |s'.queues| ==> QueueOk(c, s'.queues[q]) && |s'.queues[q]| <= Capacity(c, q)
  {
    hide Capacity;
    var s' := Apply(c, s, step);
    ApplyKeepsShape(c, s, step);
    forall q | 0 <= q < |s'.queues|
      ensures QueueOk(c, s'.queues[q]) && |s'.queues[q]| <= Capacity(c, q)
    {
      assert QueueOk(c, s.queues[q]) && |s.queues[q]| <= Capacity(c, q);
      if step.Enqueue? {
        assert HandOk(c, s, step.t);
      }
    }
  }

  lemma ApplyKeepsLocal(c: Config, s: State, step: Step)
    requires ValidConfig(c) && LocalOk(c, s) && Conserved(c, s) && Enabled(c, s, step)
    ensures LocalOk(c, Apply(c, s, step))
  {
    hide Count, HandOk, QueueOk, Apply, Enabled;
    ApplyKeepsHands(c, s, step);
    ApplyKeepsQueues(c, s, step);
  }

  lemma FreeInRange(c: Config, s: State, k: nat)
    requires Conserved(c, s) && k < |s.free|
    ensures s.free[k] < c.slots
  {
    hide FreeCount, QueuesCount, HandsCount;
    var i := s.free[k];
    assert Count(s, Is(i)) == if i < c.slots then 1 else 0;
    FreeMember(s.free, k, Is(i));
  }

  lemma ContentsAppend(b: seq<Octets>, q: seq<Msg>, m: Msg)
    ensures Contents(b, q + [m]) == Contents(b, q) + MsgContents(b, m)
  {
    assert (q + [m])[..|q|] == q;
  }

  lemma {:induction false} ContentsPop(b: seq<Octets>, q: seq<Msg>)
    requires q != []
    ensures Contents(b, q) == MsgContents(b, q[0]) + Contents(b, q[1..])
  {
    if |q| > 1 {
      var init := q[..|q| - 1];
      ContentsPop(b, init);
      assert q[1..][..|q| - 2] == init[1..];
    }
  }

  /** Writing a buffer that is not queued leaves the queue's contents alone. */
  lemma {:induction false} ContentsFrame(b: seq<Octets>, q: seq<Msg>, i: nat, x: Octets)
    requires i < |b| && forall k :: 0 <= k < |q| && q[k].Buffer? ==> q[k].idx != i
    ensures Contents(b[i := x], q) == Contents(b, q)
  {
    if q != [] {
      ContentsFrame(b, q[..|q| - 1], i, x);
    }
  }

  /** A buffer write by its holder is invisible in every queue. */
  lemma WriteKeepsPipelines(c: Config, s: State, step: Step, q: nat)
    requires LocalOk(c, s) && Conserved(c, s) && Enabled(c, s, step) && (step.Fill? || step.FillFails?)
    requires q < c.shards + 2
    ensures var s' := Apply(c, s, step); Shape(c, s') && Pipeline(c, s', q) == Pipeline(c, s, q)
  {
    hide Contents, Count;
    var s', t := Apply(c, s, step), step.t;
    var i := s.hands[t].idx;
    ApplyKeepsShape(c, s, step);
    ExclusiveOwnership(c, s, t);
    ContentsFrame(s.buffers, s.queues[q], i, s'.buffers[i]);
  }

  lemma EnqueueKeepsOrder(c: Config, s: State, t: nat, q: nat)
    requires LocalOk(c, s) && Enabled(c, s, Enqueue(t)) && q < c.shards + 2
    requires Subseq(Pipeline(c, s, q), s.entered[q])
    ensures var s' := Apply(c, s, Enqueue(t)); Shape(c, s') && Subseq(Pipeline(c, s', q), s'.entered[q])
  {
    hide Contents, Subseq, Pipeline;
    var s', job := Apply(c, s, Enqueue(t)), s.hands[t].job;
    ApplyKeepsShape(c, s, Enqueue(t));
    EnqueuePipeline(c, s, t, q);
    if q == Target(c, job) && s'.queues != s.queues {
      SubseqKeep(Pipeline(c, s, q), s.entered[q], job.entry);
    }
  }

  lemma EnqueuePipeline(c: Config, s: State, t: nat, q: nat)
    requires LocalOk(c, s) && Enabled(c, s, Enqueue(t)) && q < c.shards + 2
    ensures var s', job := Apply(c, s, Enqueue(t)), s.hands[t].job;
            && Shape(c, s')
            && if q == Target(c, job) && s'.queues != s.queues
               then Pipeline(c, s', q) == Pipeline(c, s, q) + [job.entry]
               else Pipeline(c, s', q) == Pipeline(c, s, q)
  {
    hide Contents;
    var s', job := Apply(c, s, Enqueue(t)), s.hands[t].job;
    ApplyKeepsShape(c, s, Enqueue(t));
    if q == Target(c, job) && s'.queues != s.queues {
      var m := Buffer(job.entry.key, s.hands[t].idx, |job.entry.bytes|);
      assert HandOk(c, s, t);
      ContentsAppend(s.buffers, s.queues[q], m);
    }
  }

  lemma PopKeepsPipeline(c: Config, s: State, t: nat, q0: nat, q: nat)
    requires LocalOk(c, s) && Enabled(c, s, Pop(t, q0)) && q < c.shards + 2
    ensures var s' := Apply(c, s, Pop(t, q0)); Shape(c, s') && Pipeline(c, s', q) == Pipeline(c, s, q)
  {
    hide Contents;
    ApplyKeepsShape(c, s, Pop(t, q0));
    if q == q0 {
      ContentsPop(s.buffers, s.queues[q]);
    }
  }

  lemma DiscardKeepsOrder(c: Config, s: State, t: nat, q: nat)
    requires LocalOk(c, s) && Enabled(c, s, Discard(t)) && q < c.shards + 2
    requires Subseq(Pipeline(c, s, q), s.entered[q])
    ensures var s' := Apply(c, s, Discard(t)); Shape(c, s') && Subseq(Pipeline(c, s', q), s'.entered[q])
  {
    hide Contents, Subseq;
    var s', h := Apply(c, s, Discard(t)), s.hands[t];
    ApplyKeepsShape(c, s, Discard(t));
    assert HandOk(c, s, t);
    if q == h.queue {
      var x := Peek(s.buffers, h.key, h.idx, h.len);
      assert Held(c, s, q) == [x] && Held(c, s', q) == [];
      SubseqOmit(s.used[q], x, Contents(s.buffers, s.queues[q]), s.entered[q]);
      assert Pipeline(c, s', q) == s.used[q] + Contents(s.buffers, s.queues[q]);
    } else {
      assert Held(c, s, q) == Held(c, s', q);
    }
  }

  lemma UseKeepsPipeline(c: Config, s: State, t: nat, q: nat)
    requires LocalOk(c, s) && Enabled(c, s, Use(t)) && q < c.shards + 2
    ensures var s' := Apply(c, s, Use(t)); Shape(c, s') && Pipeline(c, s', q) == Pipeline(c, s, q)
  {
    hide Contents;
    ApplyKeepsShape(c, s, Use(t));
    assert HandOk(c, s, t);
  }

  lemma ApplyKeepsOrder(c: Config, s: State, step: Step)
    requires LocalOk(c, s) && Conserved(c, s) && InOrder(c, s) && Enabled(c, s, step)
    ensures Shape(c, Apply(c, s, step)) && InOrder(c, Apply(c, s, step))
  {
    hide Contents, Subseq, Count, Pipeline;
    var s' := Apply(c, s, step);
    ApplyKeepsShape(c, s, step);
    forall q | 0 <= q < c.shards + 2
      ensures Subseq(Pipeline(c, s', q), s'.entered[q])
    {
      assert Subseq(Pipeline(c, s, q), s.entered[q]);
      match step {
        case Fill(t) => WriteKeepsPipelines(c, s, step, q);
        case FillFails(t, junk) => WriteKeepsPipelines(c, s, step, q);
        case Enqueue(t) => EnqueueKeepsOrder(c, s, t, q);
        case Pop(t, q0) => PopKeepsPipeline(c, s, t, q0, q);
        case Use(t) => UseKeepsPipeline(c, s, t, q);
        case Discard(t) => DiscardKeepsOrder(c, s, t, q);
        case _ => QuietStep(c, s, step, q);
      }
    }
  }

  /** Taking a free buffer, giving one back and a message without a buffer move no payload. */
  lemma QuietStep(c: Config, s: State, step: Step, q: nat)
    requires Shape(c, s) && Enabled(c, s, step) && (step.Acquire? || step.Release? || step.Notify?)
    requires q < c.shards + 2
    ensures var s' := Apply(c, s, step);
            Shape(c, s') && Pipeline(c, s', q) == Pipeline(c, s, q) && s'.entered == s.entered
  {
    hide Contents;
    ApplyKeepsShape(c, s, step);
    if step.Notify? && step.q == q {
      ContentsAppend(s.buffers, s.queues[q], Notice);
    }
  }

  /** Each inbox is fed, in order, from what RX has parsed for that shard. */
  lemma ApplyKeepsSource(c: Config, s: State, step: Step)
    requires ValidConfig(c) && LocalOk(c, s) && FromReceived(c, s) && Enabled(c, s, step)
    ensures Shape(c, Apply(c, s, step)) && FromReceived(c, Apply(c, s, step))
  {
    hide Subseq, Filter, Capacity;
    var s' := Apply(c, s, step);
    ApplyKeepsShape(c, s, step);
    forall t | 0 <= t < |s.hands| ensures HandOk(c, s, t) {}
    match step {
      case Acquire(t, job) =>
        if job.dest == Inbox {
          AcquireKeepsSource(c, s, t, job);
        }
      case Enqueue(t) => EnqueueKeepsSource(c, s, t);
      case _ =>
        assert s'.received == s.received && s'.entered == s.entered && RxPending(c, s') == RxPending(c, s);
    }
  }

  lemma AcquireKeepsSource(c: Config, s: State, t: nat, job: Job)
    requires ValidConfig(c) && LocalOk(c, s) && FromReceived(c, s)
    requires Enabled(c, s, Acquire(t, job)) && job.dest == Inbox
    ensures Shape(c, Apply(c, s, Acquire(t, job))) && FromReceived(c, Apply(c, s, Acquire(t, job)))
  {
    hide Subseq, Filter, Capacity;
    var s' := Apply(c, s, Acquire(t, job));
    ApplyKeepsShape(c, s, Acquire(t, job));
    assert Settled(c, s) == s.received;
    forall q | 0 <= q < c.shards
      ensures Subseq(s'.entered[q], Filter(Settled(c, s'), ForShard(c, q)))
    {
      if s.free == [] {
        FilterAppend(s.received, job.entry, ForShard(c, q));
        SubseqSkip(s.entered[q], Filter(s.received, ForShard(c, q)), job.entry);
      } else {
        assert s'.received[..|s.received|] == s.received;
      }
    }
  }

  lemma EnqueueKeepsSource(c: Config, s: State, t: nat)
    requires ValidConfig(c) && LocalOk(c, s) && FromReceived(c, s) && Enabled(c, s, Enqueue(t))
    ensures Shape(c, Apply(c, s, Enqueue(t))) && FromReceived(c, Apply(c, s, Enqueue(t)))
  {
    hide Subseq, Filter, Capacity;
    var s', job := Apply(c, s, Enqueue(t)), s.hands[t].job;
    ApplyKeepsShape(c, s, Enqueue(t));
    assert HandOk(c, s, t) && HandOk(c, s, Rx(c));
    if job.dest == Inbox {
      var before, e := Settled(c, s), job.entry;
      assert s.received == before + [e];
      forall q | 0 <= q < c.shards
        ensures Subseq(s'.entered[q], Filter(Settled(c, s'), ForShard(c, q)))
      {
        var f := ForShard(c, q);
        FilterAppend(before, e, f);
        SubseqSkip(s.entered[q], Filter(before, f), e);
        SubseqKeep(s.entered[q], Filter(before, f), e);
      }
    }
  }

  // --- Every run ---

  /** Run the steps in turn; a step that is not enabled is not taken. */
  function Exec(c: Config, s: State, steps: seq<Step>): (s': State)
    requires Shape(c, s)
    ensures Shape(c, s')
    decreases |steps|
  {
    if steps == [] then s
    else
      var s1 := if Enabled(c, s, steps[0]) then ApplyKeepsShape(c, s, steps[0]); Apply(c, s, steps[0]) else s;
      Exec(c, s1, steps[1..])
  }

  lemma ApplyKeepsInv(c: Config, s: State, step: Step)
    requires Inv(c, s) && Enabled(c, s, step)
    ensures Inv(c, Apply(c, s, step))
  {
    hide Count, Apply, Enabled, InOrder, FromReceived, HandOk, QueueOk;
    ApplyKeepsLocal(c, s, step);
    ApplyKeepsOrder(c, s, step);
    ApplyKeepsSource(c, s, step);
    forall i: nat
      ensures Count(Apply(c, s, step), Is(i)) == if i < c.slots then 1 else 0
    {
      ApplyKeepsCount(c, s, step, Is(i));
    }
    ApplyKeepsCount(c, s, step, Any());
  }

  lemma {:induction false} FreshCount(n: nat, i: nat)
    ensures FreeCount(Fresh(n), Is(i)) == if i < n then 1 else 0
    ensures FreeCount(Fresh(n), Any()) == n
  {
    if n > 0 {
      FreshCount(n - 1, i);
      FreeCountAppend(Fresh(n - 1), n - 1, Is(i));
      FreeCountAppend(Fresh(n - 1), n - 1, Any());
    }
  }

  lemma {:induction false} EmptyCount(qs: seq<seq<Msg>>, hs: seq<Hand>, p: Choice)
    requires forall k :: 0 <= k < |qs| ==> qs[k] == []
    requires forall k :: 0 <= k < |hs| ==> hs[k] == Empty
    ensures QueuesCount(qs, p) == 0 && HandsCount(hs, p) == 0
    decreases |qs| + |hs|
  {
    if qs != [] {
      EmptyCount(qs[..|qs| - 1], hs, p);
    } else if hs != [] {
      EmptyCount(qs, hs[..|hs| - 1], p);
    }
  }

  lemma InitInv(c: Config)
    requires ValidConfig(c)
    ensures Inv(c, Init(c))
  {
    hide FreeCount, QueuesCount, HandsCount;
    var s := Init(c);
    forall i: nat
      ensures Count(s, Is(i)) == if i < c.slots then 1 else 0
    {
      FreshCount(c.slots, i);
      EmptyCount(s.queues, s.hands, Is(i));
    }
    FreshCount(c.slots, 0);
    EmptyCount(s.queues, s.hands, Any());
  }

  lemma {:induction false} ExecInv(c: Config, s: State, steps: seq<Step>)
    requires Inv(c, s)
    ensures Inv(c, Exec(c, s, steps))
    decreases |steps|
  {
    hide Apply, Enabled, InOrder, FromReceived, HandOk, QueueOk, Count;
    if steps != [] {
      if Enabled(c, s, steps[0]) {
        ApplyKeepsInv(c, s, steps[0]);
        ExecInv(c, Apply(c, s, steps[0]), steps[1..]);
      } else {
        ExecInv(c, s, steps[1..]);
      }
    }
  }

  /** The state after an interleaving that starts with a full pool. */
  function After(c: Config, steps: seq<Step>): State
    requires ValidConfig(c)
  {
    Exec(c, Init(c), steps)
  }

  /** In every interleaving each index is in exactly one place, no two threads hold the same buffer,
      no held buffer is queued or free, and giving a buffer back never waits. */
  lemma EveryRunConserves(c: Config, steps: seq<Step>)
    requires ValidConfig(c)
    ensures var s := After(c, steps);
            && (forall i: nat :: Count(s, Is(i)) == if i < c.slots then 1 else 0)
            && (forall t :: 0 <= t < |s.hands| && s.hands[t] != Empty ==>
                  && |s.free| < c.slots
                  && s.hands[t].idx !in s.free
                  && (forall q, k :: 0 <= q < |s.queues| && 0 <= k < |s.queues[q]| && s.queues[q][k].Buffer?
                                     ==> s.queues[q][k].idx != s.hands[t].idx)
                  && (forall u :: 0 <= u < |s.hands| && u != t && s.hands[u] != Empty
                                  ==> s.hands[u].idx != s.hands[t].idx))
  {
    hide Count;
    InitInv(c);
    ExecInv(c, Init(c), steps);
    var s := After(c, steps);
    forall t | 0 <= t < |s.hands| && s.hands[t] != Empty
      ensures |s.free| < c.slots && s.hands[t].idx !in s.free
      ensures forall q, k :: 0 <= q < |s.queues| && 0 <= k < |s.queues[q]| && s.queues[q][k].Buffer?
                             ==> s.queues[q][k].idx != s.hands[t].idx
      ensures forall u :: 0 <= u < |s.hands| && u != t && s.hands[u] != Empty
                          ==> s.hands[u].idx != s.hands[t].idx
    {
      ExclusiveOwnership(c, s, t);
      ReleaseNeverBlocks(c, s, t);
    }
  }

  /** When every hand and every queue is empty, every buffer is back in the free list. */
  lemma IdlePoolIsFull(c: Config, steps: seq<Step>)
    requires ValidConfig(c)
    requires var s := After(c, steps);
             && (forall t :: 0 <= t < |s.hands| ==> s.hands[t] == Empty)
             && (forall q :: 0 <= q < |s.queues| ==> s.queues[q] == [])
    ensures |After(c, steps).free| == c.slots
  {
    InitInv(c);
    ExecInv(c, Init(c), steps);
    var s := After(c, steps);
    EmptyCount(s.queues, s.hands, Any());
    FreeCountAny(s.free);
  }

  function OfFlow(key: FlowKey): Entry -> bool {
    (e: Entry) => e.key == key
  }

  lemma {:induction false} SubseqPrefix<T>(a: seq<T>, b: seq<T>)
    ensures Subseq(a, a + b)
    decreases |b|
  {
    if b == [] {
      SubseqRefl(a);
      assert a + b == a;
    } else {
      SubseqPrefix(a, b[..|b| - 1]);
      SubseqSkip(a, a + b[..|b| - 1], b[|b| - 1]);
      assert a + b[..|b| - 1] + [b[|b| - 1]] == a + b;
    }
  }

  /** Whatever a queue's reader has sent out went in, byte for byte and in that order. */
  lemma UsedFromEntered(c: Config, s: State, q: nat)
    requires Inv(c, s) && q < c.shards + 2
    ensures Subseq(s.used[q], s.entered[q])
  {
    hide Subseq, Contents, Count;
    var rest := Held(c, s, q) + Contents(s.buffers, s.queues[q]);
    SubseqPrefix(s.used[q], rest);
    assert s.used[q] + rest == Pipeline(c, s, q);
    SubseqTrans(s.used[q], Pipeline(c, s, q), s.entered[q]);
  }

  lemma EnteredFromReceived(c: Config, s: State, q: nat)
    requires Inv(c, s) && q < c.shards
    ensures Subseq(s.entered[q], Filter(s.received, ForShard(c, q)))
  {
    hide Subseq, Filter, Count;
    if RxPending(c, s) {
      var x := s.received[|s.received| - 1];
      assert s.received == Settled(c, s) + [x];
      FilterAppend(Settled(c, s), x, ForShard(c, q));
      SubseqSkip(s.entered[q], Filter(Settled(c, s), ForShard(c, q)), x);
    }
  }

  lemma {:induction false} FilterNone<T>(a: seq<T>, p: T -> bool, q: T -> bool)
    requires forall x :: x in a && p(x) ==> !q(x)
    ensures Filter(Filter(a, p), q) == []
  {
    if a != [] {
      var init, x := a[..|a| - 1], a[|a| - 1];
      FilterNone(init, p, q);
      if p(x) {
        FilterAppend(Filter(init, p), x, q);
      }
    }
  }

  /** In every interleaving, the payloads handed to a flow's socket are, byte for byte, a subsequence
      in receive order of the payloads RX parsed for that flow, and only the session's own shard
      sends any of them. */
  lemma EveryRunKeepsFlowOrder(c: Config, steps: seq<Step>, key: FlowKey)
    requires ValidConfig(c)
    ensures var s := After(c, steps);
            && Subseq(Filter(s.used[c.shardOf(key.session)], OfFlow(key)), Filter(s.received, OfFlow(key)))
            && (forall q :: 0 <= q < c.shards && q != c.shardOf(key.session)
                            ==> Filter(s.used[q], OfFlow(key)) == [])
  {
    hide Filter, Subseq, Inv;
    InitInv(c);
    ExecInv(c, Init(c), steps);
    var s := After(c, steps);
    forall q | 0 <= q < c.shards
      ensures if q == c.shardOf(key.session)
              then Subseq(Filter(s.used[q], OfFlow(key)), Filter(s.received, OfFlow(key)))
              else Filter(s.used[q], OfFlow(key)) == []
    {
      UsedFromEntered(c, s, q);
      EnteredFromReceived(c, s, q);
      SubseqTrans(s.used[q], s.entered[q], Filter(s.received, ForShard(c, q)));
      SubseqFilter(s.used[q], Filter(s.received, ForShard(c, q)), OfFlow(key));
      if q == c.shardOf(key.session) {
        FilterFilter(s.received, ForShard(c, q), OfFlow(key));
      } else {
        FilterNone(s.received, ForShard(c, q), OfFlow(key));
        SubseqOfEmpty(Filter(s.used[q], OfFlow(key)));
      }
    }
  }

  lemma SubseqOfEmpty<T>(a: seq<T>)
    requires Subseq(a, [])
    ensures a == []
  {
  }

  /** In every interleaving, the frames TX sends are, byte for byte, a subsequence of the frames put
      into each of its queues, in queue order. */
  lemma EveryRunKeepsFrameOrder(c: Config, steps: seq<Step>)
    requires ValidConfig(c)
    ensures var s := After(c, steps);
            && Subseq(s.used[ControlQueue(c)], s.entered[ControlQueue(c)])
            && Subseq(s.used[DataQueue(c)], s.entered[DataQueue(c)])
  {
    hide Subseq, Inv;
    InitInv(c);
    ExecInv(c, Init(c), steps);
    UsedFromEntered(c, After(c, steps), ControlQueue(c));
    UsedFromEntered(c, After(c, steps), DataQueue(c));
  }
}
