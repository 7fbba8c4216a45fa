/** Relay tickets: the checks on the claims of a signed token.  Decoding and signature verification
    are represented by their outcome. */
module Tickets {
  import opened Bytes

  const AUTH_CLOCK_SKEW_SECS := 30
  const MAX_TICKET_SECS := 900

  datatype Claims = Claims(
    v: u8, iss: string, aud: string, sub: string, sid: string, srv: string,
    iat: u64, exp: u64, jti: string, lease: bool)

  /** What decoding a token and checking its signature came to. */
  datatype Token = Undecodable | BadlySigned | Unreadable | Signed(claims: Claims)

  datatype Auth = Auth(hasKey: bool, serverId: Option<string>)

  datatype Ticket = Ticket(user: string, jti: string, exp: u64, lease: bool)

  datatype Error = BadFormat | BadSignature | Expired | SidMismatch | ServerMismatch | Replay | OwnerMismatch

  datatype Verified = Err(error: Error) | Ok(ticket: Ticket)

  predicate IsAlphanumeric(c: char) {
    'a' <= c <= 'z' || 'A' <= c <= 'Z' || '0' <= c <= '9'
  }

  predicate NameOk(s: string) {
    forall i :: 0 <= i < |s| ==> IsAlphanumeric(s[i]) || s[i] == '-'
  }

  predicate JtiOk(s: string) {
    forall i :: 0 <= i < |s| ==> IsAlphanumeric(s[i]) || s[i] == '-' || s[i] == '_'
  }

  function HexDigit(d: nat): char
    requires d < 16
  {
    "0123456789abcdef"[d]
  }

  /** The last `n` hexadecimal digits of `x`, most significant first. */
  function Hex(x: nat, n: nat): (s: string)
    ensures |s| == n
  {
    if n == 0 then "" else Hex(x / 16, n - 1) + [HexDigit(x % 16)]
  }

  /** A session identifier as a ticket names it. */
  function SidText(sid: u64): string {
    Hex(sid, 16)
  }

  predicate WellFormed(c: Claims) {
    && c.v == 1 && c.lease
    && 0 < |c.sub| <= 64 && NameOk(c.sub)
    && 0 < |c.jti| <= 128 && JtiOk(c.jti)
    && 0 < |c.srv| <= 64
    && c.iat < c.exp && c.exp - c.iat <= MAX_TICKET_SECS
    && c.iss == "swifttunnel-web" && c.aud == "swifttunnel-relay"
  }

  function Verify(token: Token, sid: u64, auth: Auth, now: u64): Verified {
    if token.Undecodable? || !auth.hasKey then Err(BadFormat)
    else if token.BadlySigned? then Err(BadSignature)
    else if token.Unreadable? || !WellFormed(token.claims) then Err(BadFormat)
    else
      var c := token.claims;
      if c.sid != SidText(sid) then Err(SidMismatch)
      else if auth.serverId.None? then Err(BadFormat)
      else if c.srv != auth.serverId.value then Err(ServerMismatch)
      else if c.iat > SatAdd(now, AUTH_CLOCK_SKEW_SECS) then Err(BadFormat)
      else if now >= c.exp then Err(Expired)
      else Ok(Ticket(c.sub, c.jti, c.exp, c.lease))
  }

  lemma DigitInjective(a: nat, b: nat)
    requires a < 16 && b < 16 && HexDigit(a) == HexDigit(b)
    ensures a == b
  {
  }

  lemma {:induction false} HexInjective(x: nat, y: nat, n: nat)
    requires Hex(x, n) == Hex(y, n)
    ensures x == y || x >= Pow16(n) || y >= Pow16(n)
  {
    hide HexDigit;
    if n > 0 {
      assert Hex(x, n)[..n - 1] == Hex(x / 16, n - 1) && Hex(y, n)[..n - 1] == Hex(y / 16, n - 1);
      assert Hex(x, n)[n - 1] == HexDigit(x % 16) && Hex(y, n)[n - 1] == HexDigit(y % 16);
      DigitInjective(x % 16, y % 16);
      HexInjective(x / 16, y / 16, n - 1);
    }
  }

  function Pow16(n: nat): nat {
    if n == 0 then 1 else 16 * Pow16(n - 1)
  }

  /** A ticket that verifies names this session and no other, runs out in the future but within
      the longest ticket and the clock skew, and carries a lease. */
  lemma VerifiedTicket(token: Token, sid: u64, auth: Auth, now: u64, other: u64)
    requires Verify(token, sid, auth, now).Ok?
    ensures var t := Verify(token, sid, auth, now).ticket;
            && now < t.exp <= now + AUTH_CLOCK_SKEW_SECS + MAX_TICKET_SECS
            && t.lease && t.user != "" && t.jti != ""
    ensures other != sid ==> Verify(token, other, auth, now) == Err(SidMismatch)
  {
    if SidText(other) == SidText(sid) {
      HexInjective(other, sid, 16);
      assert Pow16(16) == 0x1_0000_0000_0000_0000 by { Pow16Value(); }
    }
  }

  lemma Pow16Value()
    ensures Pow16(16) == 0x1_0000_0000_0000_0000
  {
    assert Pow16(4) == 0x1_0000;
    assert Pow16(8) == 0x1_0000_0000;
    assert Pow16(12) == 0x1_0000_0000_0000;
  }

  // --- Exactly which tickets verify ---

  function DigitValue(c: char): nat {
    if '0' <= c <= '9' then (c - '0') as nat else if 'a' <= c <= 'f' then (c - 'a') as nat + 10 else 0
  }

  /** The number a hexadecimal text stands for. */
  function Value(s: string): nat {
    if s == "" then 0 else Value(s[..|s| - 1]) * 16 + DigitValue(s[|s| - 1])
  }

  lemma DigitRoundTrip(d: nat)
    requires d < 16
    ensures DigitValue(HexDigit(d)) == d && (HexDigit(d) in "0123456789abcdef")
  {
  }

  /** Sixteen digits of a session identifier read back as that identifier. */
  lemma {:induction false} HexRoundTrip(x: nat, n: nat)
    ensures x < Pow16(n) ==> Value(Hex(x, n)) == x
    ensures forall c :: c in Hex(x, n) ==> c in "0123456789abcdef"
  {
    hide HexDigit, DigitValue;
    if n > 0 {
      HexRoundTrip(x / 16, n - 1);
      DigitRoundTrip(x % 16);
      assert Hex(x, n)[..n - 1] == Hex(x / 16, n - 1);
    }
  }

  lemma SidTextReadsBack(sid: u64)
    ensures |SidText(sid)| == 16 && Value(SidText(sid)) == sid
  {
    Pow16Value();
    HexRoundTrip(sid, 16);
  }

  predicate CharsIn(s: string, others: set<char>) {
    forall i :: 0 <= i < |s| ==>
                  'a' <= s[i] <= 'z' || 'A' <= s[i] <= 'Z' || '0' <= s[i] <= '9' || s[i] in others
  }

  /** A token gives this ticket exactly when the relay has a key, the signature is good, and every claim is
      as it must be. */
  lemma VerifiesExactly(token: Token, sid: u64, auth: Auth, now: u64, t: Ticket)
    ensures Verify(token, sid, auth, now) == Ok(t) <==>
              && auth.hasKey && auth.serverId.Some? && token.Signed?
              && var c := token.claims;
              && t == Ticket(c.sub, c.jti, c.exp, true)
              && c.v == 1 && c.lease && c.iss == "swifttunnel-web" && c.aud == "swifttunnel-relay"
              && 1 <= |c.sub| <= 64 && CharsIn(c.sub, {'-'})
              && 1 <= |c.jti| <= 128 && CharsIn(c.jti, {'-', '_'})
              && 1 <= |c.srv| <= 64 && c.srv == auth.serverId.value
              && c.sid == SidText(sid)
              && c.iat < c.exp && c.exp - c.iat <= 900
              && (c.iat <= 30 || c.iat - 30 <= now) && now < c.exp
  {
    hide SidText;
    if token.Signed? {
      assert NameOk(token.claims.sub) <==> CharsIn(token.claims.sub, {'-'});
      assert JtiOk(token.claims.jti) <==> CharsIn(token.claims.jti, {'-', '_'});
    }
  }
}
