/** The destination allowlist: which packets it lets through, and its counters and sampled tally of
    unlisted destinations.  The 64-bit counters are not taken to wrap. */
module DestPolicy {
  import opened Bytes
  import opened PrefixSet
  import opened Sums

  const SAMPLE_EVERY := 16
  const SAMPLE_CAP := 256
  const SLASH_24: u32 := 0xFFFF_FF00

  datatype Mode = Off | Observe | Enforce

  datatype Unlisted = Network | Port

  /** Samples due after so many unlisted packets: the first, then every sixteenth. */
  function Samples(ticks: nat): nat {
    (ticks + 15) / 16
  }

  lemma NextSample(ticks: nat)
    ensures Samples(ticks + 1) == Samples(ticks) + if ticks % 16 == 0 then 1 else 0
  {
  }

  /** A key's count raised, if the key is there or there is room for it. */
  function Bumped<K>(counts: map<K, nat>, key: K): map<K, nat> {
    if key in counts then counts[key := counts[key] + 1]
    else if |counts| < 256 then counts[key := 1]
    else counts
  }

  lemma BumpedTotal<K>(counts: map<K, nat>, key: K)
    requires |counts| <= SAMPLE_CAP
    ensures |Bumped(counts, key)| <= SAMPLE_CAP
    ensures Total(Bumped(counts, key)) == Total(counts) + if key in counts || |counts| < SAMPLE_CAP then 1 else 0
  {
    hide Total;
    var v := if key in counts then counts[key] + 1 else 1;
    TotalSet(counts, key, v);
    assert counts[key := v].Keys == counts.Keys + {key};
  }

  class Policy {
    const mode: Mode
    const udp: seq<Net>
    const tcp: seq<Net>
    const tcpPorts: seq<u16>
    ghost const udpGiven: seq<Net>
    ghost const tcpGiven: seq<Net>
    var udpUnlisted: nat
    var tcpUnlistedNetwork: nat
    var tcpUnlistedPort: nat
    var dropped: nat
    var tick: nat
    var networks: map<(u8, u32), nat>
    var ports: map<u16, nat>
    var overflow: nat

    /** The prefix sets stand for the given lists; every unlisted packet is counted once, dropped
        exactly in enforce mode, and every sampled one is in the bounded tally or its overflow. */
    ghost predicate Valid()
      reads this
    {
      && ValidLists()
      && udpUnlisted + tcpUnlistedNetwork + tcpUnlistedPort == tick
      && dropped == (if mode == Enforce then tick else 0)
      && ValidTally(tick)
    }

    ghost predicate ValidLists() {
      && IsSet(udp) && IsSet(tcp)
      && (forall ip: u32 :: Member(udp, ip) <==> Member(udpGiven, ip))
      && (forall ip: u32 :: Member(tcp, ip) <==> Member(tcpGiven, ip))
    }

    ghost predicate ValidTally(ticks: nat)
      reads this
    {
      && Total(networks) + Total(ports) + overflow == Samples(ticks)
      && |networks| <= SAMPLE_CAP && |ports| <= SAMPLE_CAP
    }

    constructor (mode: Mode, udpNets: seq<Net>, tcpNets: seq<Net>, tcpPorts: seq<u16>)
      requires AllValid(udpNets) && AllValid(tcpNets)
      ensures Valid() && this.mode == mode && this.tcpPorts == tcpPorts
      ensures udpGiven == udpNets && tcpGiven == tcpNets && tick == 0
    {
      this.mode, this.tcpPorts := mode, tcpPorts;
      var u := New(udpNets);
      var t := New(tcpNets);
      udp, tcp, udpGiven, tcpGiven := u, t, udpNets, tcpNets;
      udpUnlisted, tcpUnlistedNetwork, tcpUnlistedPort, dropped, tick := 0, 0, 0, 0, 0;
      networks, ports, overflow := map[], map[], 0;
    }

    static method Bump<K(==)>(counts: map<K, nat>, key: K, overflow: nat) returns (counts': map<K, nat>, overflow': nat)
      requires |counts| <= SAMPLE_CAP
      ensures Total(counts') + overflow' == Total(counts) + overflow + 1
      ensures |counts'| <= SAMPLE_CAP
      ensures counts' == Bumped(counts, key)
    {
      hide Total;
      BumpedTotal(counts, key);
      counts', overflow' := counts, overflow;
      if key in counts {
        counts' := counts[key := counts[key] + 1];
      } else if |counts| < SAMPLE_CAP {
        counts' := counts[key := 1];
      } else {
        overflow' := overflow + 1;
      }
    }

    method Tally(protocol: u8, dst: u32, port: Option<u16>, unlisted: Unlisted)
      requires ValidTally(tick)
      requires unlisted == Port ==> port.Some?
      modifies this`tick, this`networks, this`ports, this`overflow
      ensures tick == old(tick) + 1 && ValidTally(tick)
      ensures var due := old(tick) % 16 == 0;
              && networks == (if due && unlisted == Network
                              then Bumped(old(networks), (protocol, dst / 256 * 256)) else old(networks))
              && ports == (if due && unlisted == Port then Bumped(old(ports), port.value) else old(ports))
    {
      NextSample(tick);
      assert Masked(dst, SLASH_24) == dst / 256 * 256;
      var due := tick % SAMPLE_EVERY == 0;
      tick := tick + 1;
      if !due {
        return;
      }
      match unlisted {
        case Network =>
          networks, overflow := Bump(networks, (protocol, Masked(dst, SLASH_24)), overflow);
        case Port =>
          if port.Some? {
            ports, overflow := Bump(ports, port.value, overflow);
          }
      }
    }

    /** Lets a packet through unless enforcing and its destination is in none of the given prefixes,
        or a TCP port is not among the given ones.  Anything that is not TCP is judged by the UDP list;
        a fragment has no port. */
    method Permits(protocol: u8, dst: u32, port: Option<u16>) returns (permitted: bool)
      requires Valid()
      modifies this
      ensures Valid()
      ensures permitted <==>
                || mode != Enforce
                || (protocol == 6 && Member(tcpGiven, dst) && (port.Some? ==> port.value in tcpPorts))
                || (protocol != 6 && Member(udpGiven, dst))
      ensures udpUnlisted == old(udpUnlisted) + if mode != Off && protocol != 6 && !Member(udpGiven, dst) then 1 else 0
      ensures tcpUnlistedNetwork == old(tcpUnlistedNetwork)
                + if mode != Off && protocol == 6 && !Member(tcpGiven, dst) then 1 else 0
      ensures tcpUnlistedPort == old(tcpUnlistedPort)
                + if mode != Off && protocol == 6 && Member(tcpGiven, dst) && port.Some? && port.value !in tcpPorts
                  then 1 else 0
    {
      hide IsSet, Member, Total, Samples;
      if mode == Off {
        return true;
      }
      var unlisted := Network;
      if protocol == 6 {
        var found := Lookup(tcp, dst);
        if !found {
          tcpUnlistedNetwork := tcpUnlistedNetwork + 1;
        } else if port.Some? && port.value !in tcpPorts {
          tcpUnlistedPort := tcpUnlistedPort + 1;
          unlisted := Port;
        } else {
          return true;
        }
      } else {
        var found := Lookup(udp, dst);
        if found {
          return true;
        }
        udpUnlisted := udpUnlisted + 1;
      }
      Tally(protocol, dst, port, unlisted);
      if mode == Enforce {
        dropped := dropped + 1;
        return false;
      }
      return true;
    }
  }
}
