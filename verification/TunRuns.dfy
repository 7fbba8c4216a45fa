/** The two TUN address maps over whole runs.  The writer thread and the cleanup task share them, and
    a step is one operation on one of them.  Cleanup keeps a session's entry of `session_to_ip` from
    the moment it finds the session gone until it has removed it; the writer's access to that entry
    waits.  Nothing keeps the entry between the writer's look at it and its write to `ip_to_session`. */
module TunRuns {
  import opened Bytes
  import Sessions
  import opened TunMap

  datatype Packet = Packet(sid: Sid, client: Sessions.Addr, src: u32)

  datatype Writer =
    | Waiting
    | Assigning(p: Packet, i: nat)    // the session has no address; byte pair i is looked at next
    | Recording(p: Packet, ip: u32)   // an address was found free, the session is not in the map yet
    | AtEntry(p: Packet, ip: u32)     // the session has this address; its mapping is to be written

  datatype Cleaner =
    | Resting
    | Dropping(sid: Sid)              // found gone; holds the session's entry
    | Freeing(sid: Sid)               // holds it; the mapping of its address is removed

  datatype State = State(ips: map<Sid, u32>, owners: map<u32, Mapping>, writer: Writer, cleaner: Cleaner)

  datatype Step =
    | Look(p: Packet)
    | Try
    | Record
    | Enter
    | Condemn(sid: Sid)
    | Drop
    | Free

  const INIT := State(map[], map[], Waiting, Resting)

  predicate HeldByCleaner(s: State, sid: Sid) {
    !s.cleaner.Resting? && s.cleaner.sid == sid
  }

  predicate Enabled(s: State, step: Step) {
    match step
    case Look(p) => s.writer.Waiting? && !HeldByCleaner(s, p.sid)
    case Try => s.writer.Assigning? && s.writer.i < 4
    case Record => s.writer.Recording? && !HeldByCleaner(s, s.writer.p.sid)
    case Enter => s.writer.AtEntry?
    case Condemn(sid) => s.cleaner.Resting? && sid in s.ips
    case Drop => s.cleaner.Dropping? && s.cleaner.sid in s.ips
    case Free => s.cleaner.Freeing?
  }

  /** The address has a mapping of another session. */
  predicate Foreign(owners: map<u32, Mapping>, p: Packet, ip: u32) {
    ip in owners && owners[ip].sid != p.sid
  }

  /** The writer's `entry` call. */
  function Entered(owners: map<u32, Mapping>, p: Packet, ip: u32): map<u32, Mapping> {
    if Foreign(owners, p, ip) then owners else owners[ip := Mapping(p.sid, p.client, p.src)]
  }

  function Apply(s: State, step: Step): State
    requires Enabled(s, step)
  {
    match step
    case Look(p) => s.(writer := if p.sid in s.ips then AtEntry(p, s.ips[p.sid]) else Assigning(p, 0))
    case Try =>
      var p, i := s.writer.p, s.writer.i;
      s.(writer := if Usable(s.owners, p.sid, i) then Recording(p, Candidate(p.sid, i))
                   else if i < 3 then Assigning(p, i + 1) else Waiting)
    case Record =>
      s.(ips := s.ips[s.writer.p.sid := s.writer.ip], writer := AtEntry(s.writer.p, s.writer.ip))
    case Enter => s.(owners := Entered(s.owners, s.writer.p, s.writer.ip), writer := Waiting)
    case Condemn(sid) => s.(cleaner := Dropping(sid))
    case Drop => s.(owners := s.owners - {s.ips[s.cleaner.sid]}, cleaner := Freeing(s.cleaner.sid))
    case Free => s.(ips := s.ips - {s.cleaner.sid}, cleaner := Resting)
  }

  /** Take the step if it is enabled. */
  function Next(s: State, step: Step): State {
    if Enabled(s, step) then Apply(s, step) else s
  }

  /** Run the steps in turn; a step that is not enabled is not taken. */
  function Exec(s: State, steps: seq<Step>): State {
    if steps == [] then s else Next(Exec(s, steps[..|steps| - 1]), steps[|steps| - 1])
  }

  // --- What every run keeps ---

  /** A session has the mapping of its address, unless the writer is about to write it or cleanup has
      just removed it. */
  predicate EntryOk(s: State, sid: Sid)
    requires sid in s.ips
  {
    var ip := s.ips[sid];
    && InTunNet(ip)
    && (|| s.cleaner == Freeing(sid)
        || (s.writer.AtEntry? && s.writer.p.sid == sid)
        || (ip in s.owners && s.owners[ip].sid == sid))
  }

  /** The writer's address is no other session's. */
  predicate WriterOk(s: State) {
    && (s.writer.Assigning? || s.writer.Recording? ==> s.writer.p.sid !in s.ips)
    && (s.writer.Recording? || s.writer.AtEntry? ==>
          InTunNet(s.writer.ip) && !Foreign(s.owners, s.writer.p, s.writer.ip))
    && (s.writer.AtEntry? && s.writer.p.sid in s.ips ==> s.ips[s.writer.p.sid] == s.writer.ip)
  }

  predicate CleanerOk(s: State) {
    !s.cleaner.Resting? ==> s.cleaner.sid in s.ips
  }

  ghost predicate Inv(s: State) {
    WriterOk(s) && CleanerOk(s) && forall sid :: sid in s.ips ==> EntryOk(s, sid)
  }

  lemma NextKeepsInv(s: State, step: Step)
    requires Inv(s)
    ensures Inv(Next(s, step))
  {
    var s' := Next(s, step);
    assert !s.cleaner.Resting? ==> EntryOk(s, s.cleaner.sid);
    forall sid | sid in s'.ips
      ensures EntryOk(s', sid)
    {
      assert sid in s.ips ==> EntryOk(s, sid);
    }
    if step.Look? && step.p.sid in s.ips {
      assert EntryOk(s, step.p.sid);
    }
  }

  lemma {:induction false} EveryRunKeepsInv(steps: seq<Step>)
    ensures Inv(Exec(INIT, steps))
  {
    hide Next, Inv;
    if steps != [] {
      EveryRunKeepsInv(steps[..|steps| - 1]);
      NextKeepsInv(Exec(INIT, steps[..|steps| - 1]), steps[|steps| - 1]);
    } else {
      InitOk();
    }
  }

  lemma InitOk()
    ensures Inv(INIT)
  {
  }

  /** However cleanup interleaves, the writer never meets another session's mapping: the branch that
      refuses to rewrite it is never taken. */
  lemma NoRunMeetsForeignMapping(steps: seq<Step>)
    ensures var s := Exec(INIT, steps); s.writer.AtEntry? ==> !Foreign(s.owners, s.writer.p, s.writer.ip)
  {
    hide Exec;
    EveryRunKeepsInv(steps);
  }

  /** However they interleave, an answer to a session's address goes to no other session, as long as
      cleanup has not taken the address away. */
  lemma NoRunMisdirectsAnswers(steps: seq<Step>, sid: Sid)
    ensures var s := Exec(INIT, steps);
            sid in s.ips && s.cleaner != Freeing(sid) && s.ips[sid] in s.owners ==> s.owners[s.ips[sid]].sid == sid
  {
    hide Exec;
    EveryRunKeepsInv(steps);
    var s := Exec(INIT, steps);
    assert sid in s.ips ==> EntryOk(s, sid);
  }

  // --- When the maps are inverse ---

  /** The maps as they are once what is in hand is finished. */
  function FinishedIps(s: State): map<Sid, u32> {
    if s.cleaner.Freeing? then s.ips - {s.cleaner.sid} else s.ips
  }

  function FinishedOwners(s: State): map<u32, Mapping> {
    if s.writer.AtEntry? then Entered(s.owners, s.writer.p, s.writer.ip) else s.owners
  }

  /** The maps are inverse to each other but for what is in hand. */
  ghost predicate Consistent(s: State) {
    Inverse(FinishedIps(s), FinishedOwners(s))
  }

  /** Cleanup removes the mapping of a session between the writer's look at the session's address and
      its write of the mapping. */
  predicate Overtakes(s: State, step: Step) {
    step.Drop? && Enabled(s, step) && s.writer.AtEntry? && s.writer.p.sid == s.cleaner.sid
  }

  /** The writer's mapping of a settled session replaces an older one of the same session. */
  lemma EnteredInverse(ips: map<Sid, u32>, owners: map<u32, Mapping>, p: Packet, ip: u32)
    requires Inverse(ips, owners) && p.sid in ips && ips[p.sid] == ip
    ensures Inverse(ips, Entered(owners, p, ip))
  {
  }

  lemma RecordedInverse(ips: map<Sid, u32>, owners: map<u32, Mapping>, p: Packet, ip: u32)
    requires Inverse(ips, owners) && p.sid !in ips && InTunNet(ip) && !Foreign(owners, p, ip)
    ensures Inverse(ips[p.sid := ip], Entered(owners, p, ip))
  {
  }

  lemma LookStaysConsistent(s: State, p: Packet)
    requires Inv(s) && Consistent(s) && Enabled(s, Look(p))
    ensures Consistent(Apply(s, Look(p)))
  {
    hide Inverse, Entered;
    if p.sid in s.ips {
      EnteredInverse(FinishedIps(s), s.owners, p, s.ips[p.sid]);
    }
  }

  lemma RecordStaysConsistent(s: State)
    requires Inv(s) && Consistent(s) && Enabled(s, Record)
    ensures Consistent(Apply(s, Record))
  {
    hide Inverse, Entered;
    var p, ip := s.writer.p, s.writer.ip;
    RecordedInverse(FinishedIps(s), s.owners, p, ip);
    assert FinishedIps(Apply(s, Record)) == FinishedIps(s)[p.sid := ip];
  }

  lemma DropStaysConsistent(s: State)
    requires Inv(s) && Consistent(s) && Enabled(s, Drop)
    ensures Consistent(Apply(s, Drop)) <==> !Overtakes(s, Drop)
  {
    hide Inverse;
    var sid, s' := s.cleaner.sid, Apply(s, Drop);
    var ip := s.ips[sid];
    assert EntryOk(s, sid);
    if Overtakes(s, Drop) {
      StrayOwner(FinishedIps(s'), FinishedOwners(s'), ip);
    } else {
      DroppedInverse(s.ips, FinishedOwners(s), sid);
      if s.writer.AtEntry? {
        assert s.writer.ip != ip;
      }
      assert FinishedOwners(s') == FinishedOwners(s) - {ip};
    }
  }

  lemma StrayOwner(ips: map<Sid, u32>, owners: map<u32, Mapping>, ip: u32)
    requires ip in owners && owners[ip].sid !in ips
    ensures !Inverse(ips, owners)
  {
  }

  /** Finishing what is in hand finds the maps inverse after a step, if it did before, if and only if
      the step does not overtake the writer. */
  lemma StepStaysConsistent(s: State, step: Step)
    requires Inv(s) && Consistent(s)
    ensures Consistent(Next(s, step)) <==> !Overtakes(s, step)
  {
    hide Inverse, Entered, Usable;
    if Enabled(s, step) {
      match step {
        case Look(p) => LookStaysConsistent(s, p);
        case Record => RecordStaysConsistent(s);
        case Drop => DropStaysConsistent(s);
        case _ =>
      }
    }
  }

  ghost predicate ConsistentAlong(steps: seq<Step>) {
    forall n :: 0 <= n <= |steps| ==> Consistent(Exec(INIT, steps[..n]))
  }

  predicate NeverOvertaken(steps: seq<Step>) {
    forall n :: 0 <= n < |steps| ==> !Overtakes(Exec(INIT, steps[..n]), steps[n])
  }

  lemma ExecNext(s: State, steps: seq<Step>, n: nat)
    requires n < |steps|
    ensures Exec(s, steps[..n + 1]) == Next(Exec(s, steps[..n]), steps[n])
  {
    hide Next;
    assert steps[..n + 1][..n] == steps[..n];
  }

  lemma {:induction false} NotOvertakenUpTo(steps: seq<Step>, n: nat)
    requires NeverOvertaken(steps) && n <= |steps|
    ensures Consistent(Exec(INIT, steps[..n]))
  {
    hide Next, Inv, Overtakes;
    if n == 0 {
      InitConsistent();
    } else {
      NotOvertakenUpTo(steps, n - 1);
      EveryRunKeepsInv(steps[..n - 1]);
      ExecNext(INIT, steps, n - 1);
      StepStaysConsistent(Exec(INIT, steps[..n - 1]), steps[n - 1]);
    }
  }

  lemma InitConsistent()
    ensures Consistent(INIT)
  {
  }

  /** The maps are inverse in every state of a run, but for what is in hand, if and only if no removal
      of a mapping falls between the writer's look at its session's address and its write. */
  lemma MapsStayInverseExactlyUnlessOvertaken(steps: seq<Step>)
    ensures ConsistentAlong(steps) <==> NeverOvertaken(steps)
  {
    hide Exec, Next, Inv, Consistent, Overtakes;
    if NeverOvertaken(steps) {
      forall n | 0 <= n <= |steps|
        ensures Consistent(Exec(INIT, steps[..n]))
      {
        NotOvertakenUpTo(steps, n);
      }
    }
    if ConsistentAlong(steps) {
      forall n | 0 <= n < |steps|
        ensures !Overtakes(Exec(INIT, steps[..n]), steps[n])
      {
        EveryRunKeepsInv(steps[..n]);
        ExecNext(INIT, steps, n);
        StepStaysConsistent(Exec(INIT, steps[..n]), steps[n]);
      }
    }
  }

  /** With both threads at rest the maps themselves are inverse. */
  lemma InverseAtRest(steps: seq<Step>)
    requires NeverOvertaken(steps) && Exec(INIT, steps).writer.Waiting? && Exec(INIT, steps).cleaner.Resting?
    ensures Inverse(Exec(INIT, steps).ips, Exec(INIT, steps).owners)
  {
    hide Exec, Inverse, Overtakes;
    NotOvertakenUpTo(steps, |steps|);
    assert steps[..|steps|] == steps;
  }

  // --- The steps run without interference ---

  lemma {:induction false} ExecConcat(s: State, a: seq<Step>, b: seq<Step>)
    ensures Exec(s, a + b) == Exec(Exec(s, a), b)
  {
    hide Next;
    if b == [] {
      assert a + b == a;
    } else {
      assert (a + b)[..|a + b| - 1] == a + b[..|b| - 1];
      ExecConcat(s, a, b[..|b| - 1]);
    }
  }

  lemma ExecOne(s: State, step: Step)
    ensures Exec(s, [step]) == Next(s, step)
  {
    hide Next;
    assert [step][..0] == [];
  }

  lemma ExecTwo(s: State, a: Step, b: Step)
    ensures Exec(s, [a, b]) == Next(Next(s, a), b)
  {
    hide Next;
    ExecOne(s, a);
    assert [a, b][..1] == [a];
  }

  function Tries(n: nat): seq<Step> {
    if n == 0 then [] else [Try] + Tries(n - 1)
  }

  /** Looking at the byte pairs in turn finds the first usable one. */
  lemma {:induction false} TryRun(s: State, i: nat)
    requires s.writer.Assigning? && s.writer.i == i < 4
    ensures Exec(s, Tries(4 - i)) ==
            var p := s.writer.p;
            var found := FirstUsable(s.owners, p.sid, i);
            s.(writer := if found.Some? then Recording(p, found.value) else Waiting)
    decreases 4 - i
  {
    hide Usable, Candidate;
    var s1 := Next(s, Try);
    ExecConcat(s, [Try], Tries(3 - i));
    ExecOne(s, Try);
    if s1.writer.Assigning? {
      TryRun(s1, i + 1);
    } else {
      TriesIdle(s1, 3 - i);
    }
  }

  lemma {:induction false} TriesIdle(s: State, n: nat)
    requires !s.writer.Assigning?
    ensures Exec(s, Tries(n)) == s
  {
    if n > 0 {
      ExecConcat(s, [Try], Tries(n - 1));
      ExecOne(s, Try);
      TriesIdle(s, n - 1);
    }
  }

  function PacketSteps(p: Packet): seq<Step> {
    [Look(p)] + Tries(4) + [Record, Enter]
  }

  /** Recording an address found free, and writing the mapping of an address at hand. */
  lemma RecordRun(s: State)
    requires s.cleaner.Resting? && (s.writer.Waiting? || s.writer.Recording? || s.writer.AtEntry?)
    requires !s.writer.Waiting? ==> !Foreign(s.owners, s.writer.p, s.writer.ip)
    requires s.writer.AtEntry? ==> s.writer.p.sid in s.ips && s.ips[s.writer.p.sid] == s.writer.ip
    ensures Exec(s, [Record, Enter]) ==
            if s.writer.Waiting? then s
            else
              var p, ip := s.writer.p, s.writer.ip;
              State(s.ips[p.sid := ip], s.owners[ip := Mapping(p.sid, p.client, p.src)], Waiting, Resting)
  {
    hide Exec;
    ExecTwo(s, Record, Enter);
    if s.writer.AtEntry? {
      assert s.ips[s.writer.p.sid := s.writer.ip] == s.ips;
    }
  }

  /** The writer's steps, uninterrupted, are one packet of the writer loop. */
  lemma UninterruptedPacket(s: State, p: Packet)
    requires Inverse(s.ips, s.owners) && s.writer.Waiting? && s.cleaner.Resting?
    ensures var ip := if p.sid in s.ips then Some(s.ips[p.sid]) else FirstUsable(s.owners, p.sid, 0);
            Exec(s, PacketSteps(p)) == if ip.None? then s
                                       else s.(ips := s.ips[p.sid := ip.value],
                                               owners := s.owners[ip.value := Mapping(p.sid, p.client, p.src)])
  {
    hide Exec, Tries, FirstUsable, Usable;
    var s1, tries := Next(s, Look(p)), Tries(4);
    ExecConcat(s, [Look(p)] + tries, [Record, Enter]);
    ExecConcat(s, [Look(p)], tries);
    ExecOne(s, Look(p));
    if p.sid in s.ips {
      TriesIdle(s1, 4);
    } else {
      FirstUsableIsFree(s.owners, p.sid, 0);
      TryRun(s1, 0);
    }
    RecordRun(Exec(s1, tries));
  }

  lemma {:induction false} FirstUsableIsFree(owners: map<u32, Mapping>, sid: Sid, i: nat)
    requires i <= 4
    ensures var found := FirstUsable(owners, sid, i);
            found.Some? && found.value in owners ==> owners[found.value].sid == sid
    decreases 4 - i
  {
    if i < 4 {
      FirstUsableIsFree(owners, sid, i + 1);
    }
  }

  function RemovalSteps(sid: Sid): seq<Step> {
    [Condemn(sid)] + [Drop, Free]
  }

  /** Cleanup's steps, uninterrupted, take the session out of both maps. */
  lemma UninterruptedRemoval(s: State, sid: Sid)
    requires s.cleaner.Resting? && sid in s.ips
    ensures Exec(s, RemovalSteps(sid)) == s.(ips := s.ips - {sid}, owners := s.owners - {s.ips[sid]})
  {
    ExecConcat(s, [Condemn(sid)], [Drop, Free]);
    ExecOne(s, Condemn(sid));
    ExecTwo(Next(s, Condemn(sid)), Drop, Free);
  }

  // --- An overtaken packet ---

  /** The address is mapped to a session that has none and of which no packet is in hand. */
  predicate Stray(s: State, ip: u32, sid: Sid) {
    ip in s.owners && s.owners[ip].sid == sid && sid !in s.ips && (s.writer.Waiting? || s.writer.p.sid != sid)
  }

  predicate Returns(step: Step, sid: Sid) {
    step.Look? && step.p.sid == sid
  }

  lemma StepKeepsStray(s: State, step: Step, ip: u32, sid: Sid)
    requires Inv(s) && Stray(s, ip, sid) && !Returns(step, sid)
    ensures Stray(Next(s, step), ip, sid)
  {
    if step.Drop? && Enabled(s, step) {
      assert EntryOk(s, s.cleaner.sid);
    }
  }

  /** No cleanup pass and no other session's packet takes a stray mapping away: the address is lost
      until the session itself sends again. */
  lemma {:induction false} StrayStays(s: State, steps: seq<Step>, ip: u32, sid: Sid)
    requires Inv(s) && Stray(s, ip, sid) && forall n :: 0 <= n < |steps| ==> !Returns(steps[n], sid)
    ensures Inv(Exec(s, steps)) && Stray(Exec(s, steps), ip, sid)
  {
    hide Next, Inv, Stray;
    if steps != [] {
      var before := steps[..|steps| - 1];
      StrayStays(s, before, ip, sid);
      NextKeepsInv(Exec(s, before), steps[|steps| - 1]);
      StepKeepsStray(Exec(s, before), steps[|steps| - 1], ip, sid);
    }
  }

  function OvertakenSteps(p: Packet): seq<Step> {
    [Look(p)] + RemovalSteps(p.sid) + [Enter]
  }

  /** A packet of a session that cleanup removes between the writer's look and its write: the address
      stays mapped to the session, which is in the other map no more. */
  lemma OvertakenPacketLeavesStray(s: State, p: Packet)
    requires Inverse(s.ips, s.owners) && s.writer.Waiting? && s.cleaner.Resting? && p.sid in s.ips
    ensures var s', ip := Exec(s, OvertakenSteps(p)), s.ips[p.sid];
            && s'.ips == s.ips - {p.sid} && s'.owners == s.owners[ip := Mapping(p.sid, p.client, p.src)]
            && s'.writer.Waiting? && s'.cleaner.Resting? && !Inverse(s'.ips, s'.owners) && Stray(s', ip, p.sid)
  {
    var s1 := Next(s, Look(p));
    ExecConcat(s, [Look(p)] + RemovalSteps(p.sid), [Enter]);
    ExecConcat(s, [Look(p)], RemovalSteps(p.sid));
    ExecOne(s, Look(p));
    UninterruptedRemoval(s1, p.sid);
    ExecOne(Exec(s1, RemovalSteps(p.sid)), Enter);
    StrayOwner(s.ips - {p.sid}, s.owners[s.ips[p.sid] := Mapping(p.sid, p.client, p.src)], s.ips[p.sid]);
  }

  /** It happens from the start: the session's second packet is overtaken. */
  lemma StrayFromTheStart(p: Packet)
    requires FirstUsable(map[], p.sid, 0).Some?
    ensures var s := Exec(INIT, PacketSteps(p) + OvertakenSteps(p));
            s.ips == map[] && s.owners.Values == {Mapping(p.sid, p.client, p.src)}
  {
    ExecConcat(INIT, PacketSteps(p), OvertakenSteps(p));
    UninterruptedPacket(INIT, p);
    var ip := FirstUsable(map[], p.sid, 0).value;
    var s1 := Exec(INIT, PacketSteps(p));
    assert s1.ips == map[p.sid := ip] && s1.owners == map[ip := Mapping(p.sid, p.client, p.src)];
    assert Inverse(s1.ips, s1.owners) by { EveryRunKeepsInv(PacketSteps(p)); assert EntryOk(s1, p.sid); }
    OvertakenPacketLeavesStray(s1, p);
  }
}
