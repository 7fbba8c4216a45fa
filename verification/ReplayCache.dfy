/** The cache of ticket identifiers already used, pruned of expired ones now and then. */
module ReplayCache {
  import opened Bytes
  import opened Tickets

  const REPLAY_CACHE_PRUNE_INTERVAL_SECS := 30

  datatype Contents = Contents(seen: map<string, u64>, lastPrune: u64)

  function Pruned(k: Contents, now: u64): Contents {
    if SatSub(now, k.lastPrune) < REPLAY_CACHE_PRUNE_INTERVAL_SECS then k
    else Contents(map j | j in k.seen && now <= SatAdd(k.seen[j], AUTH_CLOCK_SKEW_SECS) :: k.seen[j], now)
  }

  /** Refused exactly when the identifier is still remembered; otherwise remembered with its expiry. */
  function Offered(k: Contents, jti: string, exp: u64, now: u64): (Contents, bool) {
    var p := Pruned(k, now);
    if jti in p.seen then (p, false) else (p.(seen := p.seen[jti := exp]), true)
  }

  class Cache {
    var seen: map<string, u64>
    var lastPrune: u64

    function Value(): Contents
      reads this
    {
      Contents(seen, lastPrune)
    }

    constructor ()
      ensures Value() == Contents(map[], 0)
    {
      seen, lastPrune := map[], 0;
    }

    method PruneExpired(now: u64)
      modifies this
      ensures Value() == Pruned(old(Value()), now)
    {
      if SatSub(now, lastPrune) < REPLAY_CACHE_PRUNE_INTERVAL_SECS {
        return;
      }
      lastPrune := now;
      var todo := seen.Keys;
      while todo != {}
        invariant lastPrune == now
        invariant todo <= seen.Keys <= old(seen).Keys
        invariant forall j :: j in seen ==> seen[j] == old(seen)[j]
        invariant forall j :: j in old(seen) && j !in todo ==>
                    (j in seen <==> now <= SatAdd(old(seen)[j], AUTH_CLOCK_SKEW_SECS))
        decreases |todo|
      {
        var j :| j in todo;
        if now > SatAdd(seen[j], AUTH_CLOCK_SKEW_SECS) {
          seen := seen - {j};
        }
        todo := todo - {j};
      }
    }

    method AcceptOnce(jti: string, exp: u64, now: u64) returns (unused: bool)
      modifies this
      ensures (Value(), unused) == Offered(old(Value()), jti, exp, now)
    {
      PruneExpired(now);
      unused := jti !in seen;
      if unused {
        seen := seen[jti := exp];
      }
    }
  }

  // --- Single use ---

  /** One presentation of a ticket that passed every other check but, perhaps, expiry. */
  datatype Attempt = Attempt(jti: string, exp: u64, now: u64)

  function Taken(k: Contents, a: Attempt): (Contents, bool) {
    if a.now >= a.exp then (k, false) else Offered(k, a.jti, a.exp, a.now)
  }

  function After(run: seq<Attempt>): Contents {
    if run == [] then Contents(map[], 0) else Taken(After(run[..|run| - 1]), run[|run| - 1]).0
  }

  predicate Accepted(run: seq<Attempt>, i: nat)
    requires i < |run|
  {
    Taken(After(run[..i]), run[i]).1
  }

  /** The clock never falls more than `lag` seconds behind the largest time seen. */
  predicate KeepsUp(run: seq<Attempt>, lag: nat) {
    forall i, k :: 0 <= i < k < |run| ==> run[i].now <= run[k].now + lag
  }

  predicate SameTicket(a: Attempt, b: Attempt) {
    a.jti == b.jti && a.exp == b.exp
  }

  ghost predicate SingleUse(run: seq<Attempt>) {
    forall i, k :: 0 <= i < k < |run| && SameTicket(run[i], run[k]) ==> !(Accepted(run, i) && Accepted(run, k))
  }

  predicate Remembered(k: Contents, a: Attempt) {
    a.jti in k.seen && k.seen[a.jti] >= a.exp
  }

  predicate LongOver(run: seq<Attempt>, a: Attempt) {
    exists m :: 0 <= m < |run| && run[m].now > a.exp + AUTH_CLOCK_SKEW_SECS
  }

  /** What was accepted is remembered until a time so late that it cannot come again. */
  lemma {:induction false} RememberedOrOver(run: seq<Attempt>, n: nat, i: nat)
    requires i < n <= |run| && Accepted(run, i)
    ensures Remembered(After(run[..n]), run[i]) || LongOver(run[..n], run[i])
    decreases n
  {
    assert run[..n][..n - 1] == run[..n - 1];
    var k, a, last := After(run[..n - 1]), run[i], run[n - 1];
    if i < n - 1 {
      RememberedOrOver(run, n - 1, i);
      if LongOver(run[..n - 1], a) {
        var m :| 0 <= m < n - 1 && run[..n - 1][m].now > a.exp + AUTH_CLOCK_SKEW_SECS;
        assert run[..n][m].now > a.exp + AUTH_CLOCK_SKEW_SECS;
      } else if !Remembered(After(run[..n]), a) {
        assert run[..n][n - 1].now > a.exp + AUTH_CLOCK_SKEW_SECS;
      }
    }
  }

  /** A ticket is accepted at most once as long as the clock never falls more than 31 seconds behind. */
  lemma TicketUsedOnce(run: seq<Attempt>)
    requires KeepsUp(run, AUTH_CLOCK_SKEW_SECS + 1)
    ensures SingleUse(run)
  {
    forall i, k | 0 <= i < k < |run| && SameTicket(run[i], run[k]) && Accepted(run, i)
      ensures !Accepted(run, k)
    {
      RememberedOrOver(run, k, i);
      if LongOver(run[..k], run[i]) {
        var m :| 0 <= m < k && run[..k][m].now > run[i].exp + AUTH_CLOCK_SKEW_SECS;
        assert run[m].now <= run[k].now + AUTH_CLOCK_SKEW_SECS + 1;
      }
    }
  }

  /** The largest lag of the clock for which every run uses each ticket at most once. */
  lemma SingleUseExactlyUpToSkew(lag: nat)
    ensures (forall run :: KeepsUp(run, lag) ==> SingleUse(run)) <==> lag <= AUTH_CLOCK_SKEW_SECS + 1
  {
    if lag <= AUTH_CLOCK_SKEW_SECS + 1 {
      forall run | KeepsUp(run, lag)
        ensures SingleUse(run)
      {
        assert KeepsUp(run, AUTH_CLOCK_SKEW_SECS + 1);
        TicketUsedOnce(run);
      }
    } else {
      var run := [Attempt("a", 100, 70), Attempt("b", 200, 131), Attempt("a", 100, 99)];
      assert KeepsUp(run, lag);
      assert run[..0] == [] && run[..1][..0] == [] && run[..2][..1] == run[..1];
      assert After(run[..1]) == Contents(map["a" := 100], 70);
      assert After(run[..2]) == Contents(map["b" := 200], 131);
      assert SameTicket(run[0], run[2]) && Accepted(run, 0) && Accepted(run, 2);
      assert !SingleUse(run);
    }
  }

  // --- Nothing else is refused ---

  /** What is remembered was accepted. */
  lemma {:induction false} SeenWasAccepted(run: seq<Attempt>, jti: string) returns (j: nat)
    requires jti in After(run).seen
    ensures j < |run| && run[j].jti == jti && Accepted(run, j)
  {
    var n := |run| - 1;
    var before := run[..n];
    if jti in After(before).seen {
      j := SeenWasAccepted(before, jti);
      assert before[..j] == run[..j];
    } else {
      j := n;
    }
  }

  /** A ticket is refused only if it has expired or one with its identifier was accepted before. */
  lemma UnusedIsAccepted(run: seq<Attempt>, i: nat)
    requires i < |run| && run[i].now < run[i].exp && !Accepted(run, i)
    ensures exists j :: 0 <= j < i && run[j].jti == run[i].jti && Accepted(run, j)
  {
    var j := SeenWasAccepted(run[..i], run[i].jti);
    assert run[..i][..j] == run[..j];
  }

  /** Where an identifier belongs to one ticket, and the clock never falls more than 31 seconds behind, a
      ticket is accepted exactly when it has not expired and was not accepted before. */
  lemma AcceptedExactlyOnce(run: seq<Attempt>, i: nat)
    requires KeepsUp(run, 31) && i < |run|
    requires forall j, k :: 0 <= j < |run| && 0 <= k < |run| && run[j].jti == run[k].jti ==> run[j].exp == run[k].exp
    ensures Accepted(run, i) <==>
              run[i].now < run[i].exp && forall j :: 0 <= j < i && run[j].jti == run[i].jti ==> !Accepted(run, j)
  {
    hide After;
    TicketUsedOnce(run);
    if run[i].now < run[i].exp && !Accepted(run, i) {
      UnusedIsAccepted(run, i);
    }
    forall j | 0 <= j < i && run[j].jti == run[i].jti && Accepted(run, i)
      ensures !Accepted(run, j)
    {
      assert SameTicket(run[j], run[i]);
    }
  }
}
