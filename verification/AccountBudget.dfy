/** One account's budget windows: what `event` does to an account's state while it holds the
    account's lock.  Statistics that are only reported (totals, peaks, samples) are not kept. */
module AccountBudget {
  import opened Bytes
  import opened Sums

  const FLOW_IDLE_SECONDS := 120
  const ACCOUNT_IDLE_SECONDS := 600

  /** A limit of zero means unlimited. */
  datatype Policy = Policy(enforce: bool, packets: u64, bytes: u64, newFlows: u64)

  datatype Flow = Flow(sid: u64, proto: u8, src: u32, dst: u32, sport: u16, dport: u16)

  /** packets in, bytes in, packets out, bytes out in the current second */
  datatype Counts = Counts(packetsIn: u64, bytesIn: u64, packetsOut: u64, bytesOut: u64)

  datatype Event = Event(user: string, out: bool, bytes: u64, flow: Option<Flow>, now: u64)

  datatype Windows = Windows(
    second: u64, minute: u64, counts: Counts, newFlows: nat,
    breaches: nat, drops: nat, untracked: nat,
    flows: map<Flow, u64>)

  function NewWindows(now: u64): Windows {
    Windows(now, now / 60, Counts(0, 0, 0, 0), 0, 0, 0, 0, map[])
  }

  /** Move to the later of `now` and the current second; an older timestamp never reopens a window. */
  function Rolled(w: Windows, now: u64): Windows {
    var eff := if now < w.second then w.second else now;
    var w1 := if w.second != eff then w.(counts := Counts(0, 0, 0, 0), second := eff) else w;
    if w1.minute != eff / 60 then w1.(newFlows := 0, minute := eff / 60) else w1
  }

  /** The event's flow is tracked but has been idle too long. */
  predicate IsStale(w: Windows, flow: Option<Flow>) {
    flow.Some? && flow.value in w.flows && SatSub(w.second, w.flows[flow.value]) >= FLOW_IDLE_SECONDS
  }

  predicate IsNew(w: Windows, flow: Option<Flow>) {
    flow.Some? && flow.value !in w.flows
  }

  function Counted(w: Windows, out: bool, bytes: u64): Windows {
    var k := w.counts;
    w.(counts := if out then k.(packetsOut := SatAdd(k.packetsOut, 1), bytesOut := SatAdd(k.bytesOut, bytes))
                 else k.(packetsIn := SatAdd(k.packetsIn, 1), bytesIn := SatAdd(k.bytesIn, bytes)))
  }

  predicate Exceeds(p: Policy, w: Windows, isNew: bool) {
    || (p.packets > 0 && SatAdd(w.counts.packetsIn, w.counts.packetsOut) > p.packets)
    || (p.bytes > 0 && SatAdd(w.counts.bytesIn, w.counts.bytesOut) > p.bytes)
    || (isNew && p.newFlows > 0 && w.newFlows >= p.newFlows)
  }

  datatype Verdict = Refuse | Admit | NeedSlot

  /** Charge the packet and decide; a new flow that passes still needs a tracking slot. */
  function Decide(p: Policy, w: Windows, ev: Event): (Windows, Verdict) {
    var isNew := IsNew(w, ev.flow);
    var w1 := Counted(w, ev.out, ev.bytes);
    var exceeds := Exceeds(p, w1, isNew);
    var w2 := if exceeds then w1.(breaches := w1.breaches + 1) else w1;
    if exceeds && p.enforce then (w2.(drops := w2.drops + 1), Refuse)
    else if isNew then (w2, NeedSlot)
    else if ev.flow.Some? then (w2.(flows := w2.flows[ev.flow.value := w2.second]), Admit)
    else (w2, Admit)
  }

  function NoSlot(p: Policy, w: Windows): Windows {
    w.(untracked := w.untracked + 1, drops := w.drops + if p.enforce then 1 else 0)
  }

  function Tracked(w: Windows, flow: Flow): Windows {
    w.(newFlows := w.newFlows + 1, flows := w.flows[flow := w.second])
  }

  /** What maintenance keeps of an account's flows. */
  function LiveFlows(flows: map<Flow, u64>, now: u64): map<Flow, u64> {
    map f | f in flows && SatSub(now, flows[f]) < FLOW_IDLE_SECONDS :: flows[f]
  }

  lemma RemoveOne<K, V>(m: map<K, V>, k: K)
    requires k in m
    ensures |m - {k}| == |m| - 1
  {
    assert (m - {k}).Keys == m.Keys - {k};
  }

  lemma AddOne<K, V>(m: map<K, V>, k: K, v: V)
    ensures |m[k := v]| == if k in m then |m| else |m| + 1
  {
    assert m[k := v].Keys == m.Keys + {k};
  }

  lemma LiveFlowsFewer(flows: map<Flow, u64>, now: u64)
    ensures |LiveFlows(flows, now)| <= |flows|
  {
    SubsetSize(LiveFlows(flows, now).Keys, flows.Keys);
  }

  lemma RolledFacts(w: Windows, now: u64)
    ensures var r := Rolled(w, now);
            && r.flows == w.flows
            && r.second == (if now < w.second then w.second else now)
            && (r.second == w.second ==> r.counts == w.counts)
            && (r.second != w.second ==> r.counts == Counts(0, 0, 0, 0))
            && (w.minute == w.second / 60 ==> r.minute == r.second / 60)
            && (r.minute == w.minute ==> r.newFlows == w.newFlows)
            && (r.minute != w.minute ==> r.newFlows == 0)
  {
  }

  /** What a decision leaves alone, and how many flows it tracks. */
  lemma DecideFacts(p: Policy, w: Windows, ev: Event)
    ensures var (d, verdict) := Decide(p, w, ev);
            && d.second == w.second && d.minute == w.minute && d.newFlows == w.newFlows
            && |d.flows| == |w.flows|
            && (verdict == NeedSlot ==> IsNew(w, ev.flow) && d.flows == w.flows)
            && d.counts == Counted(w, ev.out, ev.bytes).counts
            && (verdict != Refuse && p.enforce ==> !Exceeds(p, d, IsNew(w, ev.flow)))
  {
    if ev.flow.Some? {
      AddOne(w.flows, ev.flow.value, w.second);
    }
  }
}
