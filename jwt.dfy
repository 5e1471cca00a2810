/**
 * `create_jwt_token` (user_service/src/core/utils/utils.py): the claims of a new
 * token and the token string. Signing with the configured secret and HS256 is a
 * function parameter `sign`; the clock is the issue time in whole seconds; the 16
 * bytes `secrets.token_hex` draws are a parameter.
 */
module Jwt {

  newtype byte = x: int | 0 <= x < 256

  /** `timedelta(days=1)` in seconds. */
  const TokenLifetime: int := 86400

  /** The number of random bytes `token_hex(16)` draws. */
  const RandBytes: nat := 16

  /** The payload dict: `sub`, `exp` and `rand`. */
  datatype Claims = Claims(sub: string, exp: int, rand: string)

  // ---- str(n) for an int ----

  function DigitChar(d: int): char
    requires 0 <= d < 10
  {
    "0123456789"[d]
  }

  predicate IsDigit(c: char)
  {
    '0' <= c <= '9'
  }

  function DigitValue(c: char): (d: int)
    requires IsDigit(c)
    ensures 0 <= d < 10
  {
    c as int - '0' as int
  }

  /** The decimal digits of `n`, most significant first, no leading zero. */
  function Digits(n: nat): (s: string)
    decreases n
  {
    if n < 10 then [DigitChar(n)] else Digits(n / 10) + [DigitChar(n % 10)]
  }

  /** Python's `str(n)` on an int. */
  function DecimalString(n: int): string
  {
    if n < 0 then "-" + Digits(-n) else Digits(n)
  }

  predicate AllDigits(s: string)
  {
    forall i :: 0 <= i < |s| ==> IsDigit(s[i])
  }

  /** The value of a string of decimal digits. */
  function DigitsValue(s: string): nat
    requires AllDigits(s)
  {
    if |s| == 0 then 0 else 10 * DigitsValue(s[..|s| - 1]) + DigitValue(s[|s| - 1])
  }

  /** Python's `int(s)` on an optionally signed string of digits. */
  function ParseDecimal(s: string): int
    requires |s| > 0 && (s[0] == '-' ==> AllDigits(s[1..])) && (s[0] != '-' ==> AllDigits(s))
  {
    if s[0] == '-' then -(DigitsValue(s[1..]) as int) else DigitsValue(s)
  }

  lemma {:induction false} DigitsRoundTrip(n: nat)
    ensures |Digits(n)| > 0 && AllDigits(Digits(n)) && DigitsValue(Digits(n)) == n
    decreases n
  {
    var s := Digits(n);
    if n >= 10 {
      DigitsRoundTrip(n / 10);
      assert s[..|s| - 1] == Digits(n / 10);
    }
  }

  /** `int(str(n)) == n`: the subject claim gives back the user id it was made from. */
  lemma {:induction false} DecimalRoundTrip(n: int)
    ensures var s := DecimalString(n);
      |s| > 0 && (s[0] == '-' ==> AllDigits(s[1..])) && (s[0] != '-' ==> AllDigits(s)) && ParseDecimal(s) == n
  {
    DigitsRoundTrip(if n < 0 then -n else n);
    if n < 0 {
      assert DecimalString(n)[1..] == Digits(-n);
    } else {
      assert Digits(n)[0] != '-';
    }
  }

  // ---- secrets.token_hex ----

  function HexDigit(d: int): char
    requires 0 <= d < 16
  {
    "0123456789abcdef"[d]
  }

  predicate IsLowerHex(c: char)
  {
    '0' <= c <= '9' || 'a' <= c <= 'f'
  }

  /** `bytes.hex()`: two lower-case hex digits per byte, high nibble first. */
  function Hex(bytes: seq<byte>): string
  {
    if |bytes| == 0 then ""
    else [HexDigit(bytes[0] as int / 16), HexDigit(bytes[0] as int % 16)] + Hex(bytes[1..])
  }

  lemma {:induction false} HexShape(bytes: seq<byte>)
    ensures |Hex(bytes)| == 2 * |bytes|
    ensures forall i :: 0 <= i < |Hex(bytes)| ==> IsLowerHex(Hex(bytes)[i])
  {
    if |bytes| > 0 {
      HexShape(bytes[1..]);
    }
  }

  lemma HexDigitInjective(a: int, b: int)
    requires 0 <= a < 16 && 0 <= b < 16 && HexDigit(a) == HexDigit(b)
    ensures a == b
  {
  }

  /** Different random bytes give different `rand` strings. */
  lemma {:induction false} HexInjective(a: seq<byte>, b: seq<byte>)
    requires Hex(a) == Hex(b)
    ensures a == b
  {
    HexShape(a);
    HexShape(b);
    if |a| > 0 {
      var x, y := a[0] as int, b[0] as int;
      assert Hex(a)[0] == Hex(b)[0] && Hex(a)[1] == Hex(b)[1];
      HexDigitInjective(x / 16, y / 16);
      HexDigitInjective(x % 16, y % 16);
      assert Hex(a)[2..] == Hex(a[1..]) && Hex(b)[2..] == Hex(b[1..]);
      HexInjective(a[1..], b[1..]);
      assert a == [a[0]] + a[1..] && b == [b[0]] + b[1..];
    }
  }

  // ---- create_jwt_token ----

  /** The payload built for `userId` at issue time `now` from the random bytes `entropy`. */
  function Payload(userId: int, now: int, entropy: seq<byte>): (c: Claims)
    requires |entropy| == RandBytes
    ensures c.exp > now && |c.sub| > 0 && |c.rand| == 2 * RandBytes
  {
    HexShape(entropy);
    Claims(DecimalString(userId), now + TokenLifetime, Hex(entropy))
  }

  /** For a given user and issue time, different random bytes give different payloads. */
  lemma DistinctEntropyDistinctPayloads(userId: int, now: int, entropy: seq<byte>)
    requires |entropy| == RandBytes
    ensures forall e :: |e| == RandBytes && e != entropy ==> Payload(userId, now, e) != Payload(userId, now, entropy)
  {
    forall e | |e| == RandBytes && e != entropy
      ensures Payload(userId, now, e) != Payload(userId, now, entropy)
    {
      if Payload(userId, now, e) == Payload(userId, now, entropy) {
        HexInjective(e, entropy);
      }
    }
  }

  /**
   * The token: the payload signed by `sign`. With an injective signer no other
   * random bytes would have produced it for the same user and issue time.
   */
  function CreateJwtToken(sign: Claims -> string, userId: int, now: int, entropy: seq<byte>): (token: string)
    requires |entropy| == RandBytes
    ensures Injective(sign) ==> forall e :: |e| == RandBytes && e != entropy ==> token != sign(Payload(userId, now, e))
  {
    DistinctEntropyDistinctPayloads(userId, now, entropy);
    sign(Payload(userId, now, entropy))
  }

  /** Signing loses nothing: different claims never give the same token. */
  ghost predicate Injective(sign: Claims -> string)
  {
    forall c, d :: sign(c) == sign(d) ==> c == d
  }

  /**
   * The three claims: `sub` reads back as the user id, `exp` is one day after the
   * issue time, and `rand` is 32 lower-case hex digits.
   */
  lemma PayloadClaims(userId: int, now: int, entropy: seq<byte>)
    requires |entropy| == RandBytes
    ensures var c := Payload(userId, now, entropy);
      |c.sub| > 0 && (c.sub[0] == '-' ==> AllDigits(c.sub[1..])) && (c.sub[0] != '-' ==> AllDigits(c.sub)) &&
      ParseDecimal(c.sub) == userId &&
      c.exp == now + 86400 &&
      |c.rand| == 32 && forall i :: 0 <= i < |c.rand| ==> IsLowerHex(c.rand[i])
  {
    DecimalRoundTrip(userId);
    HexShape(entropy);
  }

  /**
   * Two tokens issued from different random bytes differ, whoever they are for and
   * whenever they are issued: what makes a refreshed token differ from the one it
   * replaces.
   */
  lemma DistinctEntropyDistinctTokens(sign: Claims -> string, u1: int, now1: int, e1: seq<byte>, u2: int, now2: int, e2: seq<byte>)
    requires Injective(sign)
    requires |e1| == RandBytes && |e2| == RandBytes && e1 != e2
    ensures CreateJwtToken(sign, u1, now1, e1) != CreateJwtToken(sign, u2, now2, e2)
  {
    if CreateJwtToken(sign, u1, now1, e1) == CreateJwtToken(sign, u2, now2, e2) {
      HexInjective(e1, e2);
    }
  }
}
