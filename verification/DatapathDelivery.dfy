/** Delivery in the v2 datapath: exactly which steps lose a payload or a frame, and that without them
    everything received is sent. */
module DatapathDelivery {
  import opened Subsequences
  import opened Datapath
  import opened DatapathRuns

  function Next(c: Config, s: State, step: Step): (s': State)
    requires Shape(c, s)
    ensures Shape(c, s')
  {
    if Enabled(c, s, step) then ApplyKeepsShape(c, s, step); Apply(c, s, step) else s
  }

  /** The step gives up what it was to pass on: a queued buffer is discarded, no buffer is free for a
      payload, or the inbox it is for is full. */
  predicate Loses(c: Config, s: State, step: Step)
    requires Shape(c, s)
  {
    && Enabled(c, s, step)
    && (|| step.Discard?
        || (step.Acquire? && step.job.dest == Inbox && s.free == [])
        || (step.Enqueue? && s.hands[step.t].job.dest == Inbox
            && |s.queues[c.shardOf(s.hands[step.t].job.entry.key.session)]| >= c.shardCap))
  }

  /** Whatever entered a queue was sent out, is in its reader's hand or is still queued, and every payload
      RX is done with entered its shard's inbox; all of it in order. */
  ghost predicate Lossless(c: Config, s: State)
    requires Shape(c, s)
  {
    && (forall q :: 0 <= q < c.shards + 2 ==> Pipeline(c, s, q) == s.entered[q])
    && (forall q :: 0 <= q < c.shards ==> s.entered[q] == Filter(Settled(c, s), ForShard(c, q)))
  }

  lemma DiscardLoses(c: Config, s: State, t: nat)
    requires Inv(c, s) && Lossless(c, s) && Enabled(c, s, Discard(t))
    ensures Shape(c, Apply(c, s, Discard(t))) && !Lossless(c, Apply(c, s, Discard(t)))
  {
    hide Contents, Filter, Count;
    var s', h := Apply(c, s, Discard(t)), s.hands[t];
    ApplyKeepsShape(c, s, Discard(t));
    assert HandOk(c, s, t);
    var q := h.queue;
    assert Pipeline(c, s, q) == s.entered[q];
    assert |Pipeline(c, s', q)| == |Pipeline(c, s, q)| - 1;
  }

  /** Every step but a discard passes on what is in the queues. */
  lemma PipelinesKept(c: Config, s: State, step: Step, q: nat)
    requires Inv(c, s) && Enabled(c, s, step) && !step.Discard? && q < c.shards + 2
    requires Pipeline(c, s, q) == s.entered[q]
    ensures var s' := Apply(c, s, step); Shape(c, s') && Pipeline(c, s', q) == s'.entered[q]
  {
    hide Contents, Count, Pipeline, InOrder, FromReceived;
    ApplyKeepsShape(c, s, step);
    match step {
      case Fill(t) => WriteKeepsPipelines(c, s, step, q);
      case FillFails(t, junk) => WriteKeepsPipelines(c, s, step, q);
      case Enqueue(t) => EnqueuePipeline(c, s, t, q);
      case Pop(t, q0) => PopKeepsPipeline(c, s, t, q0, q);
      case Use(t) => UseKeepsPipeline(c, s, t, q);
      case _ => QuietStep(c, s, step, q);
    }
  }

  ghost predicate Fed(c: Config, s: State)
    requires Shape(c, s)
  {
    forall q :: 0 <= q < c.shards ==> s.entered[q] == Filter(Settled(c, s), ForShard(c, q))
  }

  lemma AcquireFeeds(c: Config, s: State, t: nat, job: Job)
    requires Inv(c, s) && Fed(c, s) && Enabled(c, s, Acquire(t, job))
    ensures Shape(c, Apply(c, s, Acquire(t, job)))
    ensures Fed(c, Apply(c, s, Acquire(t, job))) <==> !Loses(c, s, Acquire(t, job))
  {
    hide Filter, Count, InOrder;
    var s' := Apply(c, s, Acquire(t, job));
    ApplyKeepsShape(c, s, Acquire(t, job));
    assert HandOk(c, s, t) && HandOk(c, s, Rx(c));
    if job.dest == Inbox {
      assert Settled(c, s) == s.received;
      if s.free == [] {
        var q := c.shardOf(job.entry.key.session);
        assert s.entered[q] == Filter(s.received, ForShard(c, q));
        FilterAppend(s.received, job.entry, ForShard(c, q));
        assert s'.entered[q] != Filter(Settled(c, s'), ForShard(c, q));
      } else {
        assert s'.received[..|s.received|] == s.received;
        assert Settled(c, s') == Settled(c, s);
      }
    } else {
      assert Settled(c, s') == Settled(c, s);
    }
  }

  lemma EnqueueFeeds(c: Config, s: State, t: nat)
    requires Inv(c, s) && Fed(c, s) && Enabled(c, s, Enqueue(t))
    ensures Shape(c, Apply(c, s, Enqueue(t)))
    ensures Fed(c, Apply(c, s, Enqueue(t))) <==> !Loses(c, s, Enqueue(t))
  {
    hide Filter, Count, InOrder;
    var s', job := Apply(c, s, Enqueue(t)), s.hands[t].job;
    ApplyKeepsShape(c, s, Enqueue(t));
    assert HandOk(c, s, t) && HandOk(c, s, Rx(c));
    if job.dest == Inbox {
      var before, e, target := Settled(c, s), job.entry, c.shardOf(job.entry.key.session);
      assert s.received == before + [e] == Settled(c, s');
      forall q | 0 <= q < c.shards
        ensures Filter(Settled(c, s'), ForShard(c, q)) == s.entered[q] + if q == target then [e] else []
      {
        FilterAppend(before, e, ForShard(c, q));
      }
      assert Fed(c, s') <==> s'.entered[target] == s.entered[target] + [e];
    } else {
      assert Settled(c, s') == Settled(c, s);
    }
  }

  lemma OthersFeed(c: Config, s: State, step: Step)
    requires Inv(c, s) && Fed(c, s) && Enabled(c, s, step) && !step.Acquire? && !step.Enqueue?
    ensures Shape(c, Apply(c, s, step)) && Fed(c, Apply(c, s, step))
  {
    hide Filter, Count, InOrder;
    ApplyKeepsShape(c, s, step);
    forall t | 0 <= t < |s.hands| ensures HandOk(c, s, t) {}
    assert Settled(c, Apply(c, s, step)) == Settled(c, s);
  }

  /** A step keeps everything if and only if it is not one of those. */
  lemma LosslessStep(c: Config, s: State, step: Step)
    requires Inv(c, s) && Lossless(c, s)
    ensures Lossless(c, Next(c, s, step)) <==> !Loses(c, s, step)
  {
    hide Conserved, InOrder, FromReceived, HandOk, QueueOk, Pipeline, Apply, Settled, Filter;
    if Enabled(c, s, step) {
      var s' := Next(c, s, step);
      if step.Discard? {
        DiscardLoses(c, s, step.t);
      } else {
        forall q | 0 <= q < c.shards + 2
          ensures Pipeline(c, s', q) == s'.entered[q]
        {
          PipelinesKept(c, s, step, q);
        }
        match step {
          case Acquire(t, job) => AcquireFeeds(c, s, t, job);
          case Enqueue(t) => EnqueueFeeds(c, s, t);
          case _ => OthersFeed(c, s, step);
        }
        assert Lossless(c, s') <==> Fed(c, s');
      }
    }
  }

  ghost predicate LosslessAlong(c: Config, s: State, steps: seq<Step>)
    requires Shape(c, s)
    decreases |steps|
  {
    Lossless(c, s) && (steps != [] ==> LosslessAlong(c, Next(c, s, steps[0]), steps[1..]))
  }

  predicate NeverLoses(c: Config, s: State, steps: seq<Step>)
    requires Shape(c, s)
    decreases |steps|
  {
    steps == [] || (!Loses(c, s, steps[0]) && NeverLoses(c, Next(c, s, steps[0]), steps[1..]))
  }

  lemma {:induction false} LosslessRun(c: Config, s: State, steps: seq<Step>)
    requires Inv(c, s) && Lossless(c, s)
    ensures LosslessAlong(c, s, steps) <==> NeverLoses(c, s, steps)
    ensures NeverLoses(c, s, steps) ==> Lossless(c, Exec(c, s, steps))
    decreases |steps|
  {
    hide Conserved, InOrder, FromReceived, HandOk, QueueOk, Lossless, Apply, Loses, Enabled;
    if steps != [] {
      LosslessStep(c, s, steps[0]);
      NextKeepsInv(c, s, steps[0]);
      if Lossless(c, Next(c, s, steps[0])) {
        LosslessRun(c, Next(c, s, steps[0]), steps[1..]);
      } else {
        NotLossless(c, Next(c, s, steps[0]), steps[1..]);
      }
    }
  }

  lemma NotLossless(c: Config, s: State, steps: seq<Step>)
    requires Shape(c, s) && !Lossless(c, s)
    ensures !LosslessAlong(c, s, steps)
  {
  }

  lemma NextKeepsInv(c: Config, s: State, step: Step)
    requires Inv(c, s)
    ensures Inv(c, Next(c, s, step))
  {
    hide Conserved, InOrder, FromReceived, HandOk, QueueOk, Apply;
    if Enabled(c, s, step) {
      ApplyKeepsInv(c, s, step);
    }
  }

  lemma InitLossless(c: Config)
    requires ValidConfig(c)
    ensures Shape(c, Init(c)) && Lossless(c, Init(c))
  {
  }

  /** In every run everything is kept, in every state, if and only if no step loses anything. */
  lemma KeptExactlyUnlessLost(c: Config, steps: seq<Step>)
    requires ValidConfig(c)
    ensures LosslessAlong(c, Init(c), steps) <==> NeverLoses(c, Init(c), steps)
  {
    hide Inv, Lossless, LosslessAlong, NeverLoses;
    InitInv(c);
    InitLossless(c);
    LosslessRun(c, Init(c), steps);
  }

  /** Without such a step, once the shard has nothing in hand or queued and RX none pending, exactly the
      payloads parsed for a flow have been sent on it, byte for byte and in order. */
  lemma EverythingIsDelivered(c: Config, steps: seq<Step>, key: FlowKey)
    requires ValidConfig(c) && NeverLoses(c, Init(c), steps)
    requires var s, q := After(c, steps), c.shardOf(key.session);
             && |s.hands| == |s.queues| == c.shards + 2
             && s.queues[q] == [] && !s.hands[q].Reading? && !s.hands[c.shards].Taken? && !s.hands[c.shards].Filled?
    ensures var s, q := After(c, steps), c.shardOf(key.session);
            q < |s.used| && Filter(s.used[q], OfFlow(key)) == Filter(s.received, OfFlow(key))
  {
    hide Inv, NeverLoses, Filter;
    InitInv(c);
    InitLossless(c);
    LosslessRun(c, Init(c), steps);
    var s, q := After(c, steps), c.shardOf(key.session);
    assert Pipeline(c, s, q) == s.entered[q] == Filter(Settled(c, s), ForShard(c, q));
    assert Pipeline(c, s, q) == s.used[q] && Settled(c, s) == s.received;
    FilterFilter(s.received, ForShard(c, q), OfFlow(key));
  }

  /** And every frame put into a queue of TX has been sent once TX has nothing in hand or queued. */
  lemma EveryFrameIsSent(c: Config, steps: seq<Step>, q: nat)
    requires ValidConfig(c) && NeverLoses(c, Init(c), steps) && c.shards <= q < c.shards + 2
    requires var s := After(c, steps);
             |s.hands| == |s.queues| == c.shards + 2 && s.queues[q] == [] && !s.hands[c.shards + 1].Reading?
    ensures var s := After(c, steps); |s.used| == |s.entered| == c.shards + 2 && s.used[q] == s.entered[q]
  {
    hide Inv, NeverLoses, Filter;
    InitInv(c);
    InitLossless(c);
    LosslessRun(c, Init(c), steps);
    var s := After(c, steps);
    assert Pipeline(c, s, q) == s.used[q];
  }

  /** No thread is ever stuck: with a buffer in hand it can pass it on, use it or give it back, and with an
      empty hand it can take what is queued for it, or a new job. */
  lemma NoThreadIsStuck(c: Config, s: State, t: nat)
    requires Inv(c, s) && t < c.shards + 2
    ensures var h := s.hands[t];
            && (h.Taken? && |h.job.entry.bytes| <= 1600 ==> Enabled(c, s, Fill(t)))
            && (h.Filled? ==> Enabled(c, s, Enqueue(t)))
            && (h.Reading? ==> Enabled(c, s, Use(t)))
            && (h.Giving? ==> Enabled(c, s, Release(t)))
            && (h == Empty ==>
                  && (t < c.shards && s.queues[t] != [] ==> Enabled(c, s, Pop(t, t)))
                  && (t == c.shards + 1 && s.queues[c.shards] != [] ==> Enabled(c, s, Pop(t, c.shards)))
                  && (t == c.shards + 1 && s.queues[c.shards + 1] != [] ==> Enabled(c, s, Pop(t, c.shards + 1)))
                  && (forall e :: t < c.shards ==> Enabled(c, s, Acquire(t, Job(Data, e))))
                  && (forall e :: t == c.shards ==>
                                    Enabled(c, s, Acquire(t, Job(Inbox, e)))
                                    && Enabled(c, s, Acquire(t, Job(Control, e)))))
  {
    hide Count, InOrder, FromReceived;
    assert HandOk(c, s, t);
    if s.hands[t].Giving? {
      ReleaseNeverBlocks(c, s, t);
    }
  }
}
