/** The TUN address of each session: two maps that must be inverse to each other.  Here a packet of
    the writer loop and a cleanup pass each run as a whole; TunRuns interleaves their steps. */
module TunMap {
  import opened Bytes
  import opened OnesComplement
  import opened TunRewrite
  import opened RewriteTheorems
  import opened Fragments
  import opened Sessions

  type Sid = s: seq<u8> | |s| == 8 witness [0, 0, 0, 0, 0, 0, 0, 0]

  datatype Mapping = Mapping(sid: Sid, client: Addr, originalSrc: u32)

  const TUN_NET: u32 := 0x0AC8_0000   // 10.200.0.0

  predicate InTunNet(ip: u32) {
    TUN_NET < ip < TUN_NET + 0xFFFF
  }

  /** The two bytes are kept out of use as a host number. */
  predicate Reserved(a: u8, b: u8) {
    (a == 0 && b == 0) || (a == 255 && b == 255)
  }

  /** The address made of the i-th byte pair of the session identifier. */
  function Candidate(sid: Sid, i: nat): u32
    requires i < 4
  {
    TUN_NET + Word(sid[2 * i], sid[2 * i + 1])
  }

  predicate Usable(owners: map<u32, Mapping>, sid: Sid, i: nat)
    requires i < 4
  {
    && !Reserved(sid[2 * i], sid[2 * i + 1])
    && (Candidate(sid, i) in owners ==> owners[Candidate(sid, i)].sid == sid)
  }

  /** The i-th byte pair x.y of a session identifier stands for 10.200.x.y; 0.0 and 255.255 are not used,
      nor is an address mapped to another session. */
  lemma UsableOnBytes(owners: map<u32, Mapping>, sid: Sid, i: nat)
    requires i < 4
    ensures var x: int, y: int := sid[2 * i], sid[2 * i + 1];
            var ip := ((10 * 256 + 200) * 256 + x) * 256 + y;
            && Candidate(sid, i) == ip
            && (Usable(owners, sid, i) <==>
                  && !(x == 0 && y == 0) && !(x == 255 && y == 255)
                  && (ip in owners ==> owners[ip].sid == sid))
  {
  }

  /** The first usable address from byte pair i on. */
  function FirstUsable(owners: map<u32, Mapping>, sid: Sid, i: nat): Option<u32>
    requires i <= 4
    decreases 4 - i
  {
    if i == 4 then None
    else if Usable(owners, sid, i) then Some(Candidate(sid, i))
    else FirstUsable(owners, sid, i + 1)
  }

  /** The two maps are inverse to each other, within the TUN network. */
  ghost predicate Inverse(ips: map<Sid, u32>, owners: map<u32, Mapping>) {
    && (forall sid :: sid in ips ==> ips[sid] in owners && owners[ips[sid]].sid == sid && InTunNet(ips[sid]))
    && (forall ip :: ip in owners ==> owners[ip].sid in ips && ips[owners[ip].sid] == ip)
  }

  lemma DroppedInverse(ips: map<Sid, u32>, owners: map<u32, Mapping>, sid: Sid)
    requires Inverse(ips, owners) && sid in ips
    ensures Inverse(ips - {sid}, owners - {ips[sid]})
  {
  }

  /** When sessions are taken out, the inverse map loses exactly their addresses. */
  lemma InverseFollows(ips: map<Sid, u32>, owners: map<u32, Mapping>, ips': map<Sid, u32>, owners': map<u32, Mapping>)
    requires Inverse(ips, owners) && Inverse(ips', owners') && ips'.Keys <= ips.Keys && owners'.Keys <= owners.Keys
    requires forall sid :: sid in ips' ==> ips'[sid] == ips[sid]
    requires forall ip :: ip in owners' ==> owners'[ip] == owners[ip]
    ensures forall ip :: ip in owners ==> (ip in owners' <==> owners[ip].sid in ips')
  {
    forall ip | ip in owners && owners[ip].sid in ips'
      ensures ip in owners'
    {
      assert ips'[owners[ip].sid] == ip;
    }
  }

  lemma OwnersKnown(ips: map<Sid, u32>, owners: map<u32, Mapping>)
    requires Inverse(ips, owners)
    ensures forall ip :: ip in owners ==> owners[ip].sid in ips
  {
  }

  class Handler {
    var sessionToIp: map<Sid, u32>
    var ipToSession: map<u32, Mapping>

    ghost predicate Valid()
      reads this
    {
      Inverse(sessionToIp, ipToSession)
    }

    constructor ()
      ensures Valid() && sessionToIp == map[] && ipToSession == map[]
    {
      sessionToIp, ipToSession := map[], map[];
    }

    /** The first byte pair whose address is allowed and not another session's; none exactly when all
        four are reserved or taken by others. */
    method AssignSessionIp(sid: Sid) returns (ip: Option<u32>)
      ensures ip == FirstUsable(ipToSession, sid, 0)
      ensures ip.None? <==> forall i :: 0 <= i < 4 ==> !Usable(ipToSession, sid, i)
      ensures ip.Some? ==> InTunNet(ip.value)
      ensures ip.Some? ==> exists i :: 0 <= i < 4 && Candidate(sid, i) == ip.value && Usable(ipToSession, sid, i)
                                       && forall j :: 0 <= j < i ==> !Usable(ipToSession, sid, j)
    {
      for i := 0 to 4
        invariant forall j :: 0 <= j < i ==> !Usable(ipToSession, sid, j)
        invariant FirstUsable(ipToSession, sid, 0) == FirstUsable(ipToSession, sid, i)
      {
        var a, b := sid[2 * i], sid[2 * i + 1];
        if (a == 0 && b == 0) || (a == 255 && b == 255) {
          continue;
        }
        var candidate := TUN_NET + Word(a, b);
        var collision := candidate in ipToSession && ipToSession[candidate].sid != sid;
        if !collision {
          assert Candidate(sid, i) == candidate && Usable(ipToSession, sid, i);
          return Some(candidate);
        }
      }
      return None;
    }

    /** A packet from a client: its session keeps its address or is assigned one, and answers to that
        address lead back to this session, client and source; without an address nothing changes.
        The branch that would refuse another session's mapping is never reached. */
    method WriterPacket(sid: Sid, client: Addr, originalSrc: u32) returns (ip: Option<u32>)
      requires Valid()
      modifies this
      ensures Valid()
      ensures ip == if sid in old(sessionToIp) then Some(old(sessionToIp)[sid])
                    else FirstUsable(old(ipToSession), sid, 0)
      ensures ip.None? <==> sid !in old(sessionToIp) && forall i :: 0 <= i < 4 ==> !Usable(old(ipToSession), sid, i)
      ensures ip.None? ==> sessionToIp == old(sessionToIp) && ipToSession == old(ipToSession)
      ensures ip.Some? ==> sessionToIp == old(sessionToIp)[sid := ip.value]
                           && ipToSession == old(ipToSession)[ip.value := Mapping(sid, client, originalSrc)]
      ensures ip.Some? ==> InTunNet(ip.value)
                           && (ip.value in old(ipToSession) ==> old(ipToSession)[ip.value].sid == sid)
    {
      if sid in sessionToIp {
        ip := Some(sessionToIp[sid]);
      } else {
        ip := AssignSessionIp(sid);
        if ip.None? {
          return;
        }
        sessionToIp := sessionToIp[sid := ip.value];
      }
      if ip.value in ipToSession {
        var m := ipToSession[ip.value];
        if m.sid == sid {
          ipToSession := ipToSession[ip.value := m.(client := client, originalSrc := originalSrc)];
        } else {
          assert false;
        }
      } else {
        ipToSession := ipToSession[ip.value := Mapping(sid, client, originalSrc)];
      }
    }

    /** Forget the sessions that are no longer alive. */
    method RemoveExpired(alive: set<Sid>)
      requires Valid()
      modifies this
      ensures Valid()
      ensures sessionToIp == map sid | sid in old(sessionToIp) && sid in alive :: old(sessionToIp)[sid]
      ensures ipToSession == map ip | ip in old(ipToSession) && old(ipToSession)[ip].sid in alive
                                   :: old(ipToSession)[ip]
    {
      hide Inverse;
      var todo := sessionToIp.Keys;
      while todo != {}
        invariant Valid()
        invariant todo <= sessionToIp.Keys <= old(sessionToIp).Keys
        invariant forall sid :: sid in sessionToIp ==> sessionToIp[sid] == old(sessionToIp)[sid]
        invariant forall sid :: sid in old(sessionToIp) && sid !in todo ==> (sid in sessionToIp <==> sid in alive)
        invariant ipToSession.Keys <= old(ipToSession).Keys
        invariant forall ip :: ip in ipToSession ==> ipToSession[ip] == old(ipToSession)[ip]
        decreases |todo|
      {
        var sid :| sid in todo;
        if sid !in alive {
          DroppedInverse(sessionToIp, ipToSession, sid);
          ipToSession := ipToSession - {sessionToIp[sid]};
          sessionToIp := sessionToIp - {sid};
        }
        todo := todo - {sid};
      }
      InverseFollows(old(sessionToIp), old(ipToSession), sessionToIp, ipToSession);
      OwnersKnown(old(sessionToIp), old(ipToSession));
    }
  }

  // --- Rewriting to and from TUN addresses ---

  /** The four bytes are an address the relay assigns. */
  predicate IsTunAddress(ip: seq<u8>)
    requires |ip| == 4
  {
    InTunNet(Word(ip[0], ip[1]) * 0x1_0000 + Word(ip[2], ip[3]))
  }

  /** The relay rewrites a source to a TUN address and a destination from one.  Then rewriting commutes
      with reassembly if and only if the datagram was sent without a checksum or its checksum
      verified: the lost carry cannot be met. */
  lemma TunRewriteCommutesWithReassembly(fs: seq<seq<u8>>, offset: nat, newIp: seq<u8>)
    requires Fragmentation(fs) && IsAddressOffset(offset) && |newIp| == 4
    requires IsTunAddress(newIp) || IsTunAddress(fs[0][offset..offset + 4])
    ensures var gs, d := RewriteEach(fs, offset, newIp), Reassembled(fs);
            && AllHeaders(gs) && HeaderLen(gs[0]) == HeaderLen(fs[0]) && |Joined(gs)| == |Joined(fs)| && WholePacket(d)
            && (Reassembled(gs) == Rewritten(d, offset, newIp)
                <==> Omitted(d, d[9]) || Verifies(TransportSum(d, d[9])))
  {
    hide Fragmentation, Reassembled, Rewritten, WholePacket, TransportSum, Verifies, Joined, HeaderLen;
    RewriteCommutesWithReassembly(fs, offset, newIp);
  }
}
