/** The v2 datapath as a protocol of steps.  One RX thread, N shard threads and one TX thread pass
    buffer indices through bounded queues; each step below is one channel operation, one buffer
    access or one socket call of one thread, so a sequence of steps is an interleaving.

    Threads and queues share their numbers: thread k < N is shard k and drains inbox k; thread N is
    RX; thread N + 1 is TX and drains queues N (control) and N + 1 (data).  TX looks at control first,
    but frames may be queued there between that look and its look at data.

    Stale queue entries, capacity refusals, failed socket calls and similar decisions are choices of
    the step sequence: each of them is a step that gives the buffer up. */
module Datapath {
  import opened Bytes

  const MAX_PACKET_SIZE := 1600

  type Octets = seq<u8>
  datatype FlowKey = FlowKey(session: nat, game: nat)

  /** A payload or frame together with the flow it belongs to. */
  datatype Entry = Entry(key: FlowKey, bytes: Octets)

  datatype Dest = Inbox | Control | Data
  datatype Job = Job(dest: Dest, entry: Entry)

  /** A queued buffer, or a message without one (keepalive, session removal). */
  datatype Msg = Buffer(key: FlowKey, idx: nat, len: nat) | Notice

  /** What a thread holds between two steps: nothing, a fresh buffer it will fill, a filled buffer it
      will queue, a buffer it took from a queue, or a buffer it must give back. */
  datatype Hand =
    | Empty
    | Taken(idx: nat, job: Job)
    | Filled(idx: nat, job: Job)
    | Reading(queue: nat, key: FlowKey, idx: nat, len: nat)
    | Giving(idx: nat)

  datatype Config = Config(slots: nat, shards: nat, shardCap: nat, txCap: nat, shardOf: nat -> nat)

  datatype State = State(
    free: seq<nat>,               // the free list
    queues: seq<seq<Msg>>,
    hands: seq<Hand>,
    buffers: seq<Octets>,
    received: seq<Entry>,         // history: UDP payloads parsed by RX, in receive order
    entered: seq<seq<Entry>>,     // history: what was put into each queue
    used: seq<seq<Entry>>)        // history: what was sent out from each queue

  ghost predicate ValidConfig(c: Config) {
    c.shards > 0 && forall s :: 0 <= c.shardOf(s) < c.shards
  }

  function Rx(c: Config): nat { c.shards }
  function Tx(c: Config): nat { c.shards + 1 }
  function ControlQueue(c: Config): nat { c.shards }
  function DataQueue(c: Config): nat { c.shards + 1 }

  function Capacity(c: Config, q: nat): nat {
    if q < c.shards then c.shardCap else c.txCap
  }

  /** The queue a filled buffer is meant for. */
  function Target(c: Config, job: Job): nat {
    match job.dest
    case Inbox => c.shardOf(job.entry.key.session)
    case Control => ControlQueue(c)
    case Data => DataQueue(c)
  }

  /** RX fills payload buffers and control frames; shards fill response frames. */
  predicate MayDo(c: Config, t: nat, dest: Dest) {
    if t == Rx(c) then dest != Data else t < c.shards && dest == Data
  }

  /** Shard k drains inbox k; TX drains control and data. */
  predicate Drains(c: Config, t: nat, q: nat) {
    || (t < c.shards && q == t)
    || (t == Tx(c) && (q == ControlQueue(c) || q == DataQueue(c)))
  }

  function Fresh(n: nat): seq<nat> {
    if n == 0 then [] else Fresh(n - 1) + [n - 1]
  }

  function Init(c: Config): State {
    State(Fresh(c.slots),
          seq(c.shards + 2, i => []), seq(c.shards + 2, i => Empty),
          seq(c.slots, i => seq(MAX_PACKET_SIZE, j => 0)),
          [], seq(c.shards + 2, i => []), seq(c.shards + 2, i => []))
  }

  datatype Step =
    | Acquire(t: nat, job: Job)           // parse or build, then try to take a free buffer
    | Fill(t: nat)                        // write the bytes
    | FillFails(t: nat, junk: Octets)      // the response does not fit; what was written is junk
    | Enqueue(t: nat)                     // try_send to the target queue
    | Notify(q: nat)                      // try_send of a message without a buffer
    | Pop(t: nat, q: nat)
    | Use(t: nat)                         // hand the buffer's bytes to a socket
    | Discard(t: nat)                     // any of the drop branches
    | Release(t: nat)

  predicate Shape(c: Config, s: State) {
    && |s.queues| == |s.hands| == |s.entered| == |s.used| == c.shards + 2
    && |s.buffers| == c.slots
    && (forall i :: 0 <= i < |s.buffers| ==> |s.buffers[i]| == MAX_PACKET_SIZE)
  }

  predicate Enabled(c: Config, s: State, step: Step)
    requires Shape(c, s)
  {
    match step
    case Acquire(t, job) =>
      t < |s.hands| && s.hands[t] == Empty && MayDo(c, t, job.dest)
    case Fill(t) =>
      && t < |s.hands| && s.hands[t].Taken? && s.hands[t].idx < c.slots
      && |s.hands[t].job.entry.bytes| <= MAX_PACKET_SIZE
    case FillFails(t, junk) =>
      t < c.shards && s.hands[t].Taken? && s.hands[t].idx < c.slots && |junk| == MAX_PACKET_SIZE
    case Enqueue(t) =>
      t < |s.hands| && s.hands[t].Filled? && Target(c, s.hands[t].job) < |s.queues|
    case Notify(q) => q < c.shards
    case Pop(t, q) =>
      t < |s.hands| && s.hands[t] == Empty && Drains(c, t, q) && s.queues[q] != []
    case Use(t) =>
      && t < |s.hands| && s.hands[t].Reading? && s.hands[t].queue < |s.queues|
      && s.hands[t].idx < c.slots && s.hands[t].len <= MAX_PACKET_SIZE
    case Discard(t) => t < |s.hands| && s.hands[t].Reading?
    case Release(t) => t < |s.hands| && s.hands[t].Giving? && |s.free| < c.slots
  }

  function Apply(c: Config, s: State, step: Step): State
    requires Shape(c, s) && Enabled(c, s, step)
  {
    match step
    case Acquire(t, job) =>
      var s1 := if job.dest == Inbox then s.(received := s.received + [job.entry]) else s;
      if s.free == [] then s1
      else s1.(free := s.free[1..], hands := s.hands[t := Taken(s.free[0], job)])
    case Fill(t) =>
      var idx, job := s.hands[t].idx, s.hands[t].job;
      var n := |job.entry.bytes|;
      s.(buffers := s.buffers[idx := job.entry.bytes + s.buffers[idx][n..]],
         hands := s.hands[t := Filled(idx, job)])
    case FillFails(t, junk) =>
      var idx := s.hands[t].idx;
      s.(buffers := s.buffers[idx := junk], hands := s.hands[t := Giving(idx)])
    case Enqueue(t) =>
      var idx, job := s.hands[t].idx, s.hands[t].job;
      var q := Target(c, job);
      if |s.queues[q]| < Capacity(c, q) then
        s.(queues := s.queues[q := s.queues[q] + [Buffer(job.entry.key, idx, |job.entry.bytes|)]],
           hands := s.hands[t := Empty],
           entered := s.entered[q := s.entered[q] + [job.entry]])
      else s.(hands := s.hands[t := Giving(idx)])
    case Notify(q) =>
      if |s.queues[q]| < Capacity(c, q) then s.(queues := s.queues[q := s.queues[q] + [Notice]]) else s
    case Pop(t, q) =>
      var s1 := s.(queues := s.queues[q := s.queues[q][1..]]);
      (match s.queues[q][0]
       case Notice => s1
       case Buffer(key, idx, len) => s1.(hands := s.hands[t := Reading(q, key, idx, len)]))
    case Use(t) =>
      var h := s.hands[t];
      s.(used := s.used[h.queue := s.used[h.queue] + [Entry(h.key, s.buffers[h.idx][..h.len])]],
         hands := s.hands[t := Giving(h.idx)])
    case Discard(t) =>
      s.(hands := s.hands[t := Giving(s.hands[t].idx)])
    case Release(t) =>
      s.(free := s.free + [s.hands[t].idx], hands := s.hands[t := Empty])
  }

  // --- Where the indices are: counting those that satisfy `p`, place by place ---

  type Choice = nat -> bool

  function Is(i: nat): Choice { x => x == i }
  function Any(): Choice { x => true }

  function One(p: Choice, i: nat): nat {
    if p(i) then 1 else 0
  }

  function FreeCount(f: seq<nat>, p: Choice): nat {
    if f == [] then 0 else FreeCount(f[..|f| - 1], p) + One(p, f[|f| - 1])
  }

  function MsgCount(m: Msg, p: Choice): nat {
    if m.Buffer? then One(p, m.idx) else 0
  }

  function QueueCount(q: seq<Msg>, p: Choice): nat {
    if q == [] then 0 else QueueCount(q[..|q| - 1], p) + MsgCount(q[|q| - 1], p)
  }

  function QueuesCount(qs: seq<seq<Msg>>, p: Choice): nat {
    if qs == [] then 0 else QueuesCount(qs[..|qs| - 1], p) + QueueCount(qs[|qs| - 1], p)
  }

  function HandCount(h: Hand, p: Choice): nat {
    if h == Empty then 0 else One(p, h.idx)
  }

  function HandsCount(hs: seq<Hand>, p: Choice): nat {
    if hs == [] then 0 else HandsCount(hs[..|hs| - 1], p) + HandCount(hs[|hs| - 1], p)
  }

  /** Over every place an index can be: the free list, a queue, a thread's hand. */
  function Count(s: State, p: Choice): nat {
    FreeCount(s.free, p) + QueuesCount(s.queues, p) + HandsCount(s.hands, p)
  }

  /** Each index below `slots` is in exactly one place, and nothing else is anywhere. */
  ghost predicate Conserved(c: Config, s: State) {
    && (forall i: nat :: Count(s, Is(i)) == if i < c.slots then 1 else 0)
    && Count(s, Any()) == c.slots
  }

  lemma FreeCountAppend(f: seq<nat>, i: nat, p: Choice)
    ensures FreeCount(f + [i], p) == FreeCount(f, p) + One(p, i)
  {
    assert (f + [i])[..|f|] == f;
  }

  lemma {:induction false} FreeCountPop(f: seq<nat>, p: Choice)
    requires f != []
    ensures FreeCount(f, p) == One(p, f[0]) + FreeCount(f[1..], p)
  {
    if |f| > 1 {
      var init := f[..|f| - 1];
      FreeCountPop(init, p);
      assert f[1..][..|f| - 2] == init[1..];
    }
  }

  lemma QueueCountAppend(q: seq<Msg>, m: Msg, p: Choice)
    ensures QueueCount(q + [m], p) == QueueCount(q, p) + MsgCount(m, p)
  {
    assert (q + [m])[..|q|] == q;
  }

  lemma {:induction false} QueueCountPop(q: seq<Msg>, p: Choice)
    requires q != []
    ensures QueueCount(q, p) == MsgCount(q[0], p) + QueueCount(q[1..], p)
  {
    if |q| > 1 {
      var init := q[..|q| - 1];
      QueueCountPop(init, p);
      assert q[1..][..|q| - 2] == init[1..];
    }
  }

  lemma {:induction false} QueuesCountUpdate(qs: seq<seq<Msg>>, k: nat, q: seq<Msg>, p: Choice)
    requires k < |qs|
    ensures QueuesCount(qs[k := q], p) + QueueCount(qs[k], p) == QueuesCount(qs, p) + QueueCount(q, p)
  {
    var n := |qs| - 1;
    if k == n {
      assert qs[k := q][..n] == qs[..n];
    } else {
      assert qs[k := q][..n] == qs[..n][k := q];
      QueuesCountUpdate(qs[..n], k, q, p);
    }
  }

  lemma {:induction false} HandsCountUpdate(hs: seq<Hand>, k: nat, h: Hand, p: Choice)
    requires k < |hs|
    ensures HandsCount(hs[k := h], p) + HandCount(hs[k], p) == HandsCount(hs, p) + HandCount(h, p)
  {
    var n := |hs| - 1;
    if k == n {
      assert hs[k := h][..n] == hs[..n];
    } else {
      assert hs[k := h][..n] == hs[..n][k := h];
      HandsCountUpdate(hs[..n], k, h, p);
    }
  }

  lemma ApplyKeepsShape(c: Config, s: State, step: Step)
    requires Shape(c, s) && Enabled(c, s, step)
    ensures Shape(c, Apply(c, s, step))
  {
  }

  /** No step creates, duplicates or loses an index. */
  lemma ApplyKeepsCount(c: Config, s: State, step: Step, p: Choice)
    requires Shape(c, s) && Enabled(c, s, step)
    ensures Count(Apply(c, s, step), p) == Count(s, p)
  {
    hide FreeCount, QueueCount, QueuesCount, HandsCount;
    var s' := Apply(c, s, step);
    if step.Notify? {
      QueuesCountUpdate(s.queues, step.q, s.queues[step.q] + [Notice], p);
      QueueCountAppend(s.queues[step.q], Notice, p);
    } else {
      HandsCountUpdate(s.hands, step.t, s'.hands[step.t], p);
      match step {
        case Acquire(t, job) =>
          if s.free != [] {
            FreeCountPop(s.free, p);
          } else {
            assert s'.hands == s.hands;
          }
        case Enqueue(t) =>
          var job := s.hands[t].job;
          var q, m := Target(c, job), Buffer(job.entry.key, s.hands[t].idx, |job.entry.bytes|);
          QueuesCountUpdate(s.queues, q, s.queues[q] + [m], p);
          QueueCountAppend(s.queues[q], m, p);
        case Pop(t, q) =>
          QueuesCountUpdate(s.queues, q, s.queues[q][1..], p);
          QueueCountPop(s.queues[q], p);
          assert s.queues[q][0].Notice? ==> s'.hands == s.hands == s.hands[t := s'.hands[t]];
        case Release(t) => FreeCountAppend(s.free, s.hands[t].idx, p);
        case _ =>
      }
    }
  }
}
