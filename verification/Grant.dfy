/** Punch grants: the signed text, and what accepting a grant establishes. */
module Grant {
  import opened Base

  const EXPIRY_SIZE := 8
  const SIGNATURE_SIZE := 64
  const PUBLIC_KEY_SIZE := 32
  const TRAILER_SIZE := EXPIRY_SIZE + SIGNATURE_SIZE

  datatype Grant = Grant(requester: U32, target: U32, expiry: int)

  function Digit(d: nat): char
    requires d < 10
  {
    "0123456789"[d]
  }

  function DecNat(n: nat): string {
    if n < 10 then [Digit(n)] else DecNat(n / 10) + [Digit(n % 10)]
  }

  /** The `%d` verb. */
  function Dec(n: int): string {
    if n < 0 then "-" + DecNat(-n) else DecNat(n)
  }

  function GrantText(g: Grant): string {
    "punch-grant:" + (Dec(g.requester) + ":" + (Dec(g.target) + ":" + Dec(g.expiry)))
  }

  /** The trailer's expiry, read as a two's complement 64-bit integer. */
  function Expiry(trailer: Bytes): int
    requires |trailer| >= EXPIRY_SIZE
  {
    var u := GetU32(trailer[..4]) as int * 0x1_0000_0000 + GetU32(trailer[4..8]) as int;
    if u < 0x8000_0000_0000_0000 then u else u - 0x1_0000_0000_0000_0000
  }

  /** The key a grant by `target` is checked against: the registry's when there is one, else the discovered one. */
  function TargetKey(authoritative: Option<U32 -> Option<Bytes>>, discovered: map<U32, Bytes>, target: U32): Option<Bytes> {
    match authoritative
    case Some(lookup) => lookup(target)
    case None => if target in discovered then Some(discovered[target]) else None
  }

  /** `verifyPunchGrant`, with the signature check `verify(key, text, signature)` as a parameter. */
  predicate VerifyPunchGrant(trailer: Bytes, requester: U32, target: U32, now: int,
                             key: Option<Bytes>, verify: (Bytes, string, Bytes) -> bool)
  {
    && |trailer| >= TRAILER_SIZE
    && now <= Expiry(trailer)
    && key.Some? && |key.value| == PUBLIC_KEY_SIZE
    && verify(key.value, GrantText(Grant(requester, target, Expiry(trailer))), trailer[EXPIRY_SIZE..TRAILER_SIZE])
  }

  predicate Decimal(s: string) {
    s != [] && forall c :: c in s ==> '0' <= c <= '9'
  }

  lemma {:induction false} DecNatDecimal(n: nat)
    ensures Decimal(DecNat(n))
  {
    if n >= 10 {
      DecNatDecimal(n / 10);
    }
  }

  lemma DigitInjective(d: nat, e: nat)
    requires d < 10 && e < 10 && Digit(d) == Digit(e)
    ensures d == e
  {
  }

  lemma DecNatEnd(n: nat)
    ensures var s := DecNat(n);
            && s != [] && s[|s| - 1] == Digit(n % 10)
            && if n < 10 then |s| == 1 else |s| > 1 && s[..|s| - 1] == DecNat(n / 10)
  {
    if n >= 10 {
      DecNatDecimal(n / 10);
    }
  }

  lemma {:induction false} DecNatInjective(a: nat, b: nat)
    requires DecNat(a) == DecNat(b)
    ensures a == b
  {
    DecNatEnd(a);
    DecNatEnd(b);
    DigitInjective(a % 10, b % 10);
    if a >= 10 {
      DecNatInjective(a / 10, b / 10);
    }
  }

  /** The number a string of digits denotes. */
  function Value(s: string): int {
    if s == [] then 0 else Value(s[..|s| - 1]) * 10 + (s[|s| - 1] as int - '0' as int)
  }

  lemma DigitValue(d: nat)
    requires d < 10
    ensures Digit(d) as int - '0' as int == d
  {
  }

  /** Decimal means decimal: the digits written for a number denote it, without a leading zero. */
  lemma {:induction false} DecNatValue(n: nat)
    ensures Value(DecNat(n)) == n && (n > 0 ==> DecNat(n)[0] != '0')
  {
    DecNatEnd(n);
    DigitValue(n % 10);
    if n < 10 {
      assert DecNat(n)[..0] == [];
    } else {
      DecNatValue(n / 10);
      DecNatEnd(n / 10);
    }
  }

  lemma DecInjective(a: int, b: int)
    requires Dec(a) == Dec(b)
    ensures a == b
  {
    var x, y := if a < 0 then -a else a, if b < 0 then -b else b;
    DecNatDecimal(x);
    DecNatDecimal(y);
    assert a < 0 ==> Dec(a)[0] == '-' && Dec(a)[1..] == DecNat(x);
    assert b < 0 ==> Dec(b)[0] == '-' && Dec(b)[1..] == DecNat(y);
    assert DecNat(x)[0] in DecNat(x) && DecNat(y)[0] in DecNat(y);
    DecNatInjective(x, y);
  }

  lemma DecHasNoColon(n: int)
    ensures ':' !in Dec(n)
  {
    DecNatDecimal(if n < 0 then -n else n);
  }

  lemma ColonAfter(a: string, x: string, s: string)
    requires ':' !in a && s == a + ":" + x
    ensures |a| < |s| && s[|a|] == ':' && s[..|a|] == a && s[|a| + 1..] == x
    ensures forall i :: 0 <= i < |a| ==> s[i] != ':'
  {
  }

  lemma SplitAtColon(a: string, b: string, x: string, y: string)
    requires ':' !in a && ':' !in b
    requires a + ":" + x == b + ":" + y
    ensures a == b && x == y
  {
    var s := a + ":" + x;
    ColonAfter(a, x, s);
    ColonAfter(b, y, s);
  }

  /** Two grants have the same text only if they are the same grant, negative expiries included. */
  lemma GrantTextInjective(g: Grant, h: Grant)
    requires GrantText(g) == GrantText(h)
    ensures g == h
  {
    DecHasNoColon(g.requester);
    DecHasNoColon(h.requester);
    DecHasNoColon(g.target);
    DecHasNoColon(h.target);
    var tg, th := Dec(g.target) + ":" + Dec(g.expiry), Dec(h.target) + ":" + Dec(h.expiry);
    assert GrantText(g)[12..] == Dec(g.requester) + ":" + tg;
    assert GrantText(h)[12..] == Dec(h.requester) + ":" + th;
    SplitAtColon(Dec(g.requester), Dec(h.requester), tg, th);
    SplitAtColon(Dec(g.target), Dec(h.target), Dec(g.expiry), Dec(h.expiry));
    DecInjective(g.requester, h.requester);
    DecInjective(g.target, h.target);
    DecInjective(g.expiry, h.expiry);
  }

  /** What a node signs when it connects over WSS, with the keys that also sign its grants. */
  datatype Challenge = Challenge(node: U32, timestamp: int, nonce: string)

  function ChallengeText(c: Challenge): string {
    "compat_auth:" + (Dec(c.node) + ":" + (Dec(c.timestamp) + ":" + c.nonce))
  }

  /** The two kinds of signed text never coincide. */
  lemma ChallengeIsNoGrant(c: Challenge, g: Grant)
    ensures ChallengeText(c) != GrantText(g)
  {
    assert ChallengeText(c)[0] == 'c' && GrantText(g)[0] == 'p';
  }

  ghost predicate SignedGrant(grants: iset<Grant>, text: string) {
    exists g :: g in grants && text == GrantText(g)
  }

  ghost predicate SignedChallenge(challenges: iset<Challenge>, text: string) {
    exists c :: c in challenges && text == ChallengeText(c)
  }

  /** Signatures cannot be forged: what verifies under a key is a grant or a challenge that its holder signed. */
  ghost predicate Unforgeable(verify: (Bytes, string, Bytes) -> bool,
                              issued: Bytes -> iset<Grant>, answered: Bytes -> iset<Challenge>) {
    forall k, text, sig :: verify(k, text, sig) ==> SignedGrant(issued(k), text) || SignedChallenge(answered(k), text)
  }

  /**
   * If signatures cannot be forged, an accepted trailer proves that the target's key holder issued a grant for
   * exactly this requester, this target and the expiry the trailer carries, and that it has not expired,
   * whatever WSS challenges the same key has answered.
   */
  lemma AcceptedGrantWasIssued(trailer: Bytes, requester: U32, target: U32, now: int,
                               authoritative: Option<U32 -> Option<Bytes>>, discovered: map<U32, Bytes>,
                               verify: (Bytes, string, Bytes) -> bool,
                               issued: Bytes -> iset<Grant>, answered: Bytes -> iset<Challenge>)
    requires Unforgeable(verify, issued, answered)
    requires VerifyPunchGrant(trailer, requester, target, now, TargetKey(authoritative, discovered, target), verify)
    ensures var key := TargetKey(authoritative, discovered, target);
            key.Some? && Grant(requester, target, Expiry(trailer)) in issued(key.value)
    ensures now <= Expiry(trailer)
    ensures authoritative.Some? ==> TargetKey(authoritative, discovered, target) == TargetKey(authoritative, map[], target)
  {
    var key := TargetKey(authoritative, discovered, target).value;
    var accepted := Grant(requester, target, Expiry(trailer));
    forall c | c in answered(key)
      ensures ChallengeText(c) != GrantText(accepted)
    {
      ChallengeIsNoGrant(c, accepted);
    }
    assert SignedGrant(issued(key), GrantText(accepted));
    var g :| g in issued(key) && GrantText(accepted) == GrantText(g);
    GrantTextInjective(g, accepted);
  }

  // ---- honest grants get through ----

  /** The 8 bytes of a 64-bit expiry, two's complement. */
  function ExpiryBytes(e: int): Bytes
    requires -0x8000_0000_0000_0000 <= e < 0x8000_0000_0000_0000
  {
    var u := if e >= 0 then e else e + 0x1_0000_0000_0000_0000;
    PutU32(u / 0x1_0000_0000) + PutU32(u % 0x1_0000_0000)
  }

  lemma ExpiryRoundTrip(e: int, rest: Bytes)
    requires -0x8000_0000_0000_0000 <= e < 0x8000_0000_0000_0000
    ensures Expiry(ExpiryBytes(e) + rest) == e
  {
    var u := if e >= 0 then e else e + 0x1_0000_0000_0000_0000;
    var t := ExpiryBytes(e) + rest;
    assert t[..4] == PutU32(u / 0x1_0000_0000) && t[4..8] == PutU32(u % 0x1_0000_0000);
    U32RoundTrip(u / 0x1_0000_0000);
    U32RoundTrip(u % 0x1_0000_0000);
  }

  /** `key` is the one on file for `target`: the registry's when there is a lookup, else the discovered one. */
  ghost predicate OnFile(authoritative: Option<U32 -> Option<Bytes>>, discovered: map<U32, Bytes>, target: U32, key: Bytes) {
    if authoritative.Some? then authoritative.value(target) == Some(key) else target in discovered && discovered[target] == key
  }

  /**
   * The trailer built for a grant, with anything after it, is accepted if and only if the expiry has not passed and the
   * signature verifies for the text of that grant under the 32-byte key on file for the target.
   */
  lemma GrantAcceptedIff(g: Grant, sig: Bytes, rest: Bytes, now: int, authoritative: Option<U32 -> Option<Bytes>>,
                         discovered: map<U32, Bytes>, verify: (Bytes, string, Bytes) -> bool)
    requires -0x8000_0000_0000_0000 <= g.expiry < 0x8000_0000_0000_0000 && |sig| == 64
    ensures VerifyPunchGrant(ExpiryBytes(g.expiry) + sig + rest, g.requester, g.target, now,
                             TargetKey(authoritative, discovered, g.target), verify) <==>
            now <= g.expiry && exists key :: OnFile(authoritative, discovered, g.target, key) && |key| == 32
                                             && verify(key, GrantText(g), sig)
  {
    var t := ExpiryBytes(g.expiry) + sig + rest;
    assert t == ExpiryBytes(g.expiry) + (sig + rest);
    ExpiryRoundTrip(g.expiry, sig + rest);
    assert t[8..72] == sig;
    var key := TargetKey(authoritative, discovered, g.target);
    if key.Some? {
      assert OnFile(authoritative, discovered, g.target, key.value);
    }
  }

  /** A trailer too short for an expiry and a signature is never accepted. */
  lemma ShortTrailerRefused(trailer: Bytes, g: Grant, now: int, key: Option<Bytes>, verify: (Bytes, string, Bytes) -> bool)
    requires |trailer| < 72
    ensures !VerifyPunchGrant(trailer, g.requester, g.target, now, key, verify)
  {
  }
}
