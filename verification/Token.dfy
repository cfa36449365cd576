/** Signed tokens: timestamp, nonce and signature joined by dots; printing them and checking them. */
module Token {
  import opened Seqs
  import opened Bytes
  import opened Strings

  // ---------- decimal numbers ----------

  const MAX_INT64 := 0x7fff_ffff_ffff_ffff
  const MIN_INT64 := -0x8000_0000_0000_0000

  predicate Int64(n: int) { MIN_INT64 <= n <= MAX_INT64 }

  predicate IsDigit(c: char) { '0' <= c <= '9' }

  predicate AllDigits(s: string) { forall i :: 0 <= i < |s| ==> IsDigit(s[i]) }

  function DigitValue(c: char): (d: nat)
    requires IsDigit(c)
    ensures d < 10
  {
    c as int - '0' as int
  }

  function DigitChar(d: nat): (c: char)
    requires d < 10
    ensures IsDigit(c) && DigitValue(c) == d
  {
    ('0' as int + d) as char
  }

  function PrintNat(n: nat): (s: string)
    ensures s != "" && AllDigits(s)
  {
    if n < 10 then [DigitChar(n)] else PrintNat(n / 10) + [DigitChar(n % 10)]
  }

  function PrintInt(n: int): string {
    if n < 0 then "-" + PrintNat(-n) else PrintNat(n)
  }

  function NatValue(s: string): nat
    requires AllDigits(s)
  {
    if s == "" then 0 else NatValue(s[..|s| - 1]) * 10 + DigitValue(s[|s| - 1])
  }

  /** Parsing a base-10 number of 64 bits: an optional sign, then one or more digits, in range. */
  function ParseInt(s: string): (r: Option<int>)
    ensures r.Some? ==> Int64(r.value)
  {
    var digits := if s != "" && (s[0] == '-' || s[0] == '+') then s[1..] else s;
    if digits == "" || !AllDigits(digits) then None
    else
      var n: int := NatValue(digits);
      var n := if s[0] == '-' then -n else n;
      if Int64(n) then Some(n) else None
  }

  lemma {:induction false} NatValueOfPrint(n: nat)
    ensures NatValue(PrintNat(n)) == n
  {
    if n >= 10 {
      NatValueOfPrint(n / 10);
      assert (PrintNat(n / 10) + [DigitChar(n % 10)])[..|PrintNat(n / 10)|] == PrintNat(n / 10);
    }
  }

  lemma ParseDigits(digits: string)
    requires digits != "" && AllDigits(digits)
    ensures var n: int := NatValue(digits);
            (Int64(n) ==> ParseInt(digits) == Some(n)) && (Int64(-n) ==> ParseInt("-" + digits) == Some(-n))
  {
    assert IsDigit(digits[0]);
    assert ("-" + digits)[1..] == digits;
  }

  /** Parsing undoes printing on every 64-bit number. */
  lemma ParsePrintInt(n: int)
    requires Int64(n)
    ensures ParseInt(PrintInt(n)) == Some(n)
  {
    var m := if n < 0 then -n else n;
    NatValueOfPrint(m);
    ParseDigits(PrintNat(m));
  }

  lemma NatValueSnoc(s: string, c: char)
    requires AllDigits(s) && '0' <= c <= '9'
    ensures AllDigits(s + [c]) && NatValue(s + [c]) == NatValue(s) * 10 + (c as int - '0' as int)
    ensures NatValue("") == 0
  {
    assert (s + [c])[..|s|] == s;
  }

  /** Parsing accepts every number spelled with decimal digits, at least one, with or without a sign,
      unless it is out of the 64-bit range. */
  lemma SpelledParses(s: string, digits: string, n: int)
    requires digits != "" && forall i :: 0 <= i < |digits| ==> '0' <= digits[i] <= '9'
    requires || ((s == digits || s == "+" + digits) && n == NatValue(digits))
             || (s == "-" + digits && n == 0 - NatValue(digits))
    ensures ParseInt(s) == if -0x8000_0000_0000_0000 <= n <= 0x7fff_ffff_ffff_ffff then Some(n) else None
  {
    assert IsDigit(digits[0]);
    if s != digits {
      assert s[1..] == digits;
    }
  }

  /** And it accepts nothing else. */
  lemma ParsedIsSpelled(s: string, n: int) returns (digits: string)
    requires ParseInt(s) == Some(n)
    ensures digits != "" && forall i :: 0 <= i < |digits| ==> '0' <= digits[i] <= '9'
    ensures || ((s == digits || s == "+" + digits) && n == NatValue(digits))
            || (s == "-" + digits && n == 0 - NatValue(digits))
  {
    digits := if s[0] == '-' || s[0] == '+' then s[1..] else s;
    if digits != s {
      assert s == [s[0]] + digits;
    }
  }

  lemma {:induction false} PrintNatIsCanonical(n: nat)
    ensures PrintNat(n)[0] == '0' <==> n == 0
    ensures n == 0 ==> PrintNat(n) == "0"
  {
    if n >= 10 {
      PrintNatIsCanonical(n / 10);
    }
  }

  /** Printing gives the canonical form: a minus sign exactly for negative numbers, then the digits of the
      absolute value without a leading zero. */
  lemma PrintIntIsCanonical(n: int) returns (digits: string)
    ensures PrintInt(n) == if n < 0 then "-" + digits else digits
    ensures digits != "" && (forall i :: 0 <= i < |digits| ==> '0' <= digits[i] <= '9')
    ensures NatValue(digits) == if n < 0 then -n else n
    ensures digits[0] == '0' <==> n == 0
    ensures n == 0 ==> digits == "0"
  {
    var m := if n < 0 then -n else n;
    digits := PrintNat(m);
    NatValueOfPrint(m);
    PrintNatIsCanonical(m);
  }

  // ---------- the URL-safe base64 alphabet, without padding (section 5 of RFC 4648) ----------

  /** The character of a six-bit group. */
  function Sextet(n: nat): (c: char)
    requires n < 64
    ensures c != '.'
  {
    if n < 26 then ('A' as int + n) as char
    else if n < 52 then ('a' as int + (n - 26)) as char
    else if n < 62 then ('0' as int + (n - 52)) as char
    else if n == 62 then '-' else '_'
  }

  /** A byte of the group, or zero past its end. */
  function At(bytes: seq<byte>, i: nat): (b: nat)
    ensures b < 256
  {
    if i < |bytes| then bytes[i] else 0
  }

  /** The four characters of the first three bytes. */
  function Group(bytes: seq<byte>): (s: string)
    ensures |s| == 4 && '.' !in s
  {
    var a, b, c := At(bytes, 0), At(bytes, 1), At(bytes, 2);
    [Sextet(a / 4), Sextet(a % 4 * 16 + b / 16), Sextet(b % 16 * 4 + c / 64), Sextet(c % 64)]
  }

  function Encode(bytes: seq<byte>): (s: string)
    ensures '.' !in s
  {
    if |bytes| == 0 then "" else if |bytes| < 3 then Group(bytes)[..|bytes| + 1] else Group(bytes) + Encode(bytes[3..])
  }

  lemma SextetInjective(m: nat, n: nat)
    requires m < 64 && n < 64 && Sextet(m) == Sextet(n)
    ensures m == n
  {
  }

  lemma GroupNumbers(a: nat, b: nat, c: nat, d: nat, e: nat, f: nat)
    requires a < 256 && b < 256 && c < 256 && d < 256 && e < 256 && f < 256
    requires a / 4 == d / 4 && a % 4 * 16 + b / 16 == d % 4 * 16 + e / 16
    requires b % 16 * 4 + c / 64 == e % 16 * 4 + f / 64 && c % 64 == f % 64
    ensures a == d && b == e && c == f
  {
  }

  lemma GroupInjective(x: seq<byte>, y: seq<byte>)
    requires Group(x) == Group(y)
    ensures At(x, 0) == At(y, 0) && At(x, 1) == At(y, 1) && At(x, 2) == At(y, 2)
  {
    var a, b, c := At(x, 0), At(x, 1), At(x, 2);
    var d, e, f := At(y, 0), At(y, 1), At(y, 2);
    assert Group(x)[0] == Group(y)[0] && Group(x)[1] == Group(y)[1];
    assert Group(x)[2] == Group(y)[2] && Group(x)[3] == Group(y)[3];
    SextetInjective(a / 4, d / 4);
    SextetInjective(a % 4 * 16 + b / 16, d % 4 * 16 + e / 16);
    SextetInjective(b % 16 * 4 + c / 64, e % 16 * 4 + f / 64);
    SextetInjective(c % 64, f % 64);
    GroupNumbers(a, b, c, d, e, f);
  }

  /** What a short last group leaves out is zero anyway. */
  lemma ShortGroup(x: seq<byte>, y: seq<byte>)
    requires 0 < |x| == |y| < 3 && Group(x)[..|x| + 1] == Group(y)[..|y| + 1]
    ensures Group(x) == Group(y)
  {
    var n := |x| + 1;
    assert forall i :: 0 <= i < n ==> Group(x)[i] == Group(x)[..n][i] && Group(y)[i] == Group(y)[..n][i];
    assert Group(x)[3] == Sextet(0) == Group(y)[3];
    if |x| == 1 {
      assert Group(x)[2] == Sextet(0) == Group(y)[2];
    }
  }

  /** Different byte strings of one length have different encodings. */
  lemma {:induction false} EncodeInjective(x: seq<byte>, y: seq<byte>)
    requires |x| == |y| && Encode(x) == Encode(y)
    ensures x == y
  {
    if 0 < |x| < 3 {
      ShortGroup(x, y);
      GroupInjective(x, y);
    } else if |x| >= 3 {
      assert Encode(x)[..4] == Group(x) && Encode(y)[..4] == Group(y);
      assert Encode(x)[4..] == Encode(x[3..]) && Encode(y)[4..] == Encode(y[3..]);
      GroupInjective(x, y);
      EncodeInjective(x[3..], y[3..]);
      SameTail(x, y);
    }
  }

  lemma SameTail(x: seq<byte>, y: seq<byte>)
    requires |x| == |y| >= 3 && x[3..] == y[3..] && x[0] == y[0] && x[1] == y[1] && x[2] == y[2]
    ensures x == y
  {
    assert x == [x[0], x[1], x[2]] + x[3..];
    assert y == [y[0], y[1], y[2]] + y[3..];
  }

  lemma UpperCase(n: nat)
    requires n < 26
    ensures Sextet(n + 0) == "ABCDEFGHIJKLMNOPQRSTUVWXYZ"[n]
  {
    assert n == 0 || n == 1 || n == 2 || n == 3 || n == 4 || n == 5 || n == 6 || n == 7 || n == 8 || n == 9 || n
           == 10 || n == 11 || n == 12 || n == 13 || n == 14 || n == 15 || n == 16 || n == 17 || n == 18 || n == 19 || n
           == 20 || n == 21 || n == 22 || n == 23 || n == 24 || n == 25;
  }

  lemma LowerCase(n: nat)
    requires n < 26
    ensures Sextet(n + 26) == "abcdefghijklmnopqrstuvwxyz"[n]
  {
    assert n == 0 || n == 1 || n == 2 || n == 3 || n == 4 || n == 5 || n == 6 || n == 7 || n == 8 || n == 9 || n
           == 10 || n == 11 || n == 12 || n == 13 || n == 14 || n == 15 || n == 16 || n == 17 || n == 18 || n == 19 || n
           == 20 || n == 21 || n == 22 || n == 23 || n == 24 || n == 25;
  }

  lemma Digit(n: nat)
    requires n < 10
    ensures Sextet(n + 52) == "0123456789"[n]
  {
    assert n == 0 || n == 1 || n == 2 || n == 3 || n == 4 || n == 5 || n == 6 || n == 7 || n == 8 || n == 9;
  }

  const ALPHABET := "ABCDEFGHIJKLMNOPQRSTUVWXYZ" + "abcdefghijklmnopqrstuvwxyz" + "0123456789" + "-_"

  lemma SextetIs(n: nat)
    requires n < 64
    ensures Sextet(n) == ("ABCDEFGHIJKLMNOPQRSTUVWXYZ" + "abcdefghijklmnopqrstuvwxyz" + "0123456789" + "-_")[n]
  {
    if n < 26 {
      UpperCase(n);
    } else if n < 52 {
      LowerCase(n - 26);
    } else if n < 62 {
      Digit(n - 52);
    }
  }

  /** Three bytes are four groups of six bits. */
  lemma GroupBits(a: nat, b: nat, c: nat)
    requires a < 256 && b < 256 && c < 256
    ensures a / 4 * 262144 + (a % 4 * 16 + b / 16) * 4096 + (b % 16 * 4 + c / 64) * 64 + c % 64
         == a * 65536 + b * 256 + c
  {
    assert a == a / 4 * 4 + a % 4 && b == b / 16 * 16 + b % 16 && c == c / 64 * 64 + c % 64;
  }

  /** The encoding, spelled out (sections 4 and 5 of RFC 4648, without padding): the bytes are taken three
      by three, the last ones filled up with zeros; each three are four groups of six bits, each of which
      stands for a character of the URL-safe alphabet; characters for nothing but filling are left out. */
  lemma {:induction false} EncodeSpells(bytes: seq<byte>, g: nat) returns (w: nat, x: nat, y: nat, z: nat)
    requires 3 * g < |bytes|
    ensures |Encode(bytes)| == (|bytes| * 8 + 5) / 6
    ensures w < 64 && x < 64 && y < 64 && z < 64
    ensures w * 262144 + x * 4096 + y * 64 + z ==
            At(bytes, 3 * g) * 65536 + At(bytes, 3 * g + 1) * 256 + At(bytes, 3 * g + 2)
    ensures Encode(bytes)[4 * g] == ALPHABET[w] && Encode(bytes)[4 * g + 1] == ALPHABET[x]
    ensures 3 * g + 1 < |bytes| ==> Encode(bytes)[4 * g + 2] == ALPHABET[y]
    ensures 3 * g + 2 < |bytes| ==> Encode(bytes)[4 * g + 3] == ALPHABET[z]
  {
    EncodeLength(bytes);
    if g == 0 {
      w, x, y, z := GroupSpells(bytes);
      FirstGroup(bytes);
    } else {
      w, x, y, z := EncodeSpells(bytes[3..], g - 1);
    }
  }

  lemma FirstGroup(bytes: seq<byte>)
    requires |bytes| > 0
    ensures |Encode(bytes)| > 1 && Encode(bytes)[0] == Group(bytes)[0] && Encode(bytes)[1] == Group(bytes)[1]
    ensures |bytes| > 1 ==> |Encode(bytes)| > 2 && Encode(bytes)[2] == Group(bytes)[2]
    ensures |bytes| > 2 ==> |Encode(bytes)| > 3 && Encode(bytes)[3] == Group(bytes)[3]
  {
  }

  lemma GroupSpells(bytes: seq<byte>) returns (w: nat, x: nat, y: nat, z: nat)
    ensures w < 64 && x < 64 && y < 64 && z < 64
    ensures w * 262144 + x * 4096 + y * 64 + z == At(bytes, 0) * 65536 + At(bytes, 1) * 256 + At(bytes, 2)
    ensures Group(bytes)[0] == ALPHABET[w] && Group(bytes)[1] == ALPHABET[x]
    ensures Group(bytes)[2] == ALPHABET[y] && Group(bytes)[3] == ALPHABET[z]
  {
    var a, b, c := At(bytes, 0), At(bytes, 1), At(bytes, 2);
    w, x, y, z := a / 4, a % 4 * 16 + b / 16, b % 16 * 4 + c / 64, c % 64;
    GroupBits(a, b, c);
    SextetIs(w);
    SextetIs(x);
    SextetIs(y);
    SextetIs(z);
  }

  lemma {:induction false} EncodeLength(bytes: seq<byte>)
    ensures |Encode(bytes)| == (|bytes| * 8 + 5) / 6
  {
    if |bytes| >= 3 {
      EncodeLength(bytes[3..]);
    }
  }

  // ---------- splitting ----------

  /** Splitting at the first dots into at most `n` pieces. */
  function SplitN(s: string, n: nat): (parts: seq<string>)
    requires n > 0
    ensures 0 < |parts| <= n
    decreases n
  {
    var i := IndexOf(s, '.');
    if n == 1 || i == |s| then [s] else [s[..i]] + SplitN(s[i + 1..], n - 1)
  }

  function Dotted(a: string, b: string, c: string): string {
    a + "." + b + "." + c
  }

  lemma SplitOne(a: string, rest: string, n: nat)
    requires '.' !in a && n > 0
    ensures SplitN(a + "." + rest, n + 1) == [a] + SplitN(rest, n)
  {
    var s := a + "." + rest;
    Assoc(a, ".", rest);
    IndexOfConcat(a, '.', "." + rest);
    assert s[..|a|] == a && s[|a| + 1..] == rest;
  }

  lemma SplitDotted(a: string, b: string, c: string)
    requires '.' !in a && '.' !in b
    ensures SplitN(Dotted(a, b, c), 3) == [a, b, c]
  {
    DottedAssoc(a, b, c);
    SplitOne(a, b + "." + c, 2);
    SplitOne(b, c, 1);
    assert [a] + ([b] + [c]) == [a, b, c];
  }

  lemma SplitIsDotted(s: string, a: string, b: string, c: string)
    requires SplitN(s, 3) == [a, b, c]
    ensures '.' !in a && '.' !in b && s == Dotted(a, b, c)
  {
    var rest := SplitBack(s, 3);
    assert [a, b, c][1..] == [b, c];
    var last := SplitBack(rest, 2);
    assert [b, c][1..] == [c];
    DottedAssoc(a, b, c);
  }

  lemma DottedAssoc(a: string, b: string, c: string)
    ensures a + "." + (b + "." + c) == Dotted(a, b, c)
  {
    Assoc(a + ".", b + ".", c);
    Assoc(a + ".", b, ".");
  }

  /** Three pieces come from exactly one way to put two dots after dot-free first pieces. */
  lemma SplitsIntoIff(s: string, a: string, b: string, c: string)
    ensures SplitN(s, 3) == [a, b, c] <==> '.' !in a && '.' !in b && s == Dotted(a, b, c)
  {
    if '.' !in a && '.' !in b {
      SplitDotted(a, b, c);
    }
    if SplitN(s, 3) == [a, b, c] {
      SplitIsDotted(s, a, b, c);
    }
  }

  lemma SplitBack(s: string, n: nat) returns (rest: string)
    requires n > 0 && |SplitN(s, n)| > 1
    ensures n > 1
    ensures '.' !in SplitN(s, n)[0] && s == SplitN(s, n)[0] + "." + rest && SplitN(rest, n - 1) == SplitN(s, n)[1..]
  {
    var i := IndexOf(s, '.');
    rest := s[i + 1..];
    assert s == s[..i] + "." + rest;
  }

  // ---------- time ----------

  const MAX_DURATION := MAX_INT64
  const MIN_DURATION := MIN_INT64
  const SECOND := 1_000_000_000

  /** Seconds from the start of the library's calendar (year 1) to the Unix epoch. */
  const UNIX_TO_INTERNAL := 62135596800

  /** The 64-bit second count a time value holds wraps around. */
  function Wrap64(n: int): (r: int)
    ensures Int64(r)
    ensures Int64(n) ==> r == n
  {
    (n + 0x8000_0000_0000_0000) % 0x1_0000_0000_0000_0000 - 0x8000_0000_0000_0000
  }

  /** The Unix time, in nanoseconds, that the time value made from `seconds` stands for. */
  function TimeOf(seconds: int): int {
    (Wrap64(seconds + UNIX_TO_INTERNAL) - UNIX_TO_INTERNAL) * SECOND
  }

  /** The duration from a time to now, saturating at the ends of the 64-bit range. */
  function Since(now: int, seconds: int): (d: int)
    ensures Int64(d)
  {
    var d := now - TimeOf(seconds);
    if d > MAX_DURATION then MAX_DURATION else if d < MIN_DURATION then MIN_DURATION else d
  }

  // ---------- tokens ----------

  /** The keyed hash is any function of the secret and the payload. */
  type Mac = (string, string) -> seq<byte>

  function Payload(timestamp: int, nonce: string): string {
    PrintInt(timestamp) + "." + nonce
  }

  function Signature(mac: Mac, secret: string, payload: string): string {
    Encode(mac(secret, payload))
  }

  /** The clock gives `now` in nanoseconds; the timestamp is its whole seconds. */
  function GenerateToken(mac: Mac, secret: string, now: int, nonce: string): string {
    var payload := Payload(now / SECOND, nonce);
    payload + "." + Signature(mac, secret, payload)
  }

  function ValidateToken(mac: Mac, token: string, secret: string, now: int, maxAge: int): bool {
    var parts := SplitN(token, 3);
    |parts| == 3 &&
    var timestamp := ParseInt(parts[0]);
    timestamp.Some? &&
    Since(now, timestamp.value) <= maxAge &&
    parts[2] == Signature(mac, secret, Payload(timestamp.value, parts[1]))
  }

  /** A token that was issued for this timestamp and nonce, its timestamp spelled in some way. */
  ghost predicate IsSigned(mac: Mac, secret: string, token: string, spelling: string, timestamp: int, nonce: string) {
    && ParseInt(spelling) == Some(timestamp)
    && '.' !in nonce
    && token == Dotted(spelling, nonce, Signature(mac, secret, Payload(timestamp, nonce)))
  }

  lemma {:induction false} ParsedHasNoDot(s: string)
    requires ParseInt(s).Some?
    ensures '.' !in s
  {
    if s[0] == '-' || s[0] == '+' {
      assert s == [s[0]] + s[1..];
    }
  }

  lemma SignedSplits(mac: Mac, secret: string, token: string, spelling: string, timestamp: int, nonce: string)
    requires IsSigned(mac, secret, token, spelling, timestamp, nonce)
    ensures SplitN(token, 3) == [spelling, nonce, Signature(mac, secret, Payload(timestamp, nonce))]
  {
    ParsedHasNoDot(spelling);
    SplitsIntoIff(token, spelling, nonce, Signature(mac, secret, Payload(timestamp, nonce)));
  }

  /** A token is accepted exactly when it spells a timestamp that is not too old, a dot-free nonce and
      the signature of the two in canonical form. */
  lemma AcceptedIff(mac: Mac, token: string, secret: string, now: int, maxAge: int)
    ensures ValidateToken(mac, token, secret, now, maxAge) <==>
            exists spelling, timestamp, nonce ::
              IsSigned(mac, secret, token, spelling, timestamp, nonce) && Since(now, timestamp) <= maxAge
  {
    var parts := SplitN(token, 3);
    if ValidateToken(mac, token, secret, now, maxAge) {
      SplitsIntoIff(token, parts[0], parts[1], parts[2]);
      assert parts == [parts[0], parts[1], parts[2]];
      assert IsSigned(mac, secret, token, parts[0], ParseInt(parts[0]).value, parts[1]);
    }
    if spelling, timestamp, nonce :|
      IsSigned(mac, secret, token, spelling, timestamp, nonce) && Since(now, timestamp) <= maxAge {
      SignedSplits(mac, secret, token, spelling, timestamp, nonce);
    }
  }

  /** A generated token is accepted under the same secret exactly while it is young enough. */
  lemma GeneratedValidatesIff(mac: Mac, secret: string, issued: int, nonce: string, now: int, maxAge: int)
    requires Int64(issued / SECOND) && '.' !in nonce
    ensures ValidateToken(mac, GenerateToken(mac, secret, issued, nonce), secret, now, maxAge) <==>
            Since(now, issued / SECOND) <= maxAge
  {
    GeneratedUnderOtherSecretIff(mac, secret, secret, issued, nonce, now, maxAge);
  }

  /** Under any secret the question is the age and whether the two hashes agree. */
  lemma GeneratedUnderOtherSecretIff(mac: Mac, secret: string, other: string, issued: int, nonce: string, now: int,
                                     maxAge: int)
    requires Int64(issued / SECOND) && '.' !in nonce
    ensures var payload := Payload(issued / SECOND, nonce);
            |mac(secret, payload)| == |mac(other, payload)| ==>
            (ValidateToken(mac, GenerateToken(mac, secret, issued, nonce), other, now, maxAge) <==>
             Since(now, issued / SECOND) <= maxAge && mac(secret, payload) == mac(other, payload))
  {
    var timestamp := issued / SECOND;
    var payload := Payload(timestamp, nonce);
    var token := GenerateToken(mac, secret, issued, nonce);
    ParsePrintInt(timestamp);
    assert IsSigned(mac, secret, token, PrintInt(timestamp), timestamp, nonce);
    SignedSplits(mac, secret, token, PrintInt(timestamp), timestamp, nonce);
    var mine, others := mac(secret, payload), mac(other, payload);
    if |mine| == |others| && Encode(mine) == Encode(others) {
      EncodeInjective(mine, others);
    }
  }

  /** For times within the calendar's range, whose seconds are counted from the year 1, the age is the
      elapsed time since the truncated second. */
  lemma AgeIsElapsed(issued: int, now: int)
    requires Int64(issued / 1_000_000_000 + (1969 * 365 + 1969 / 4 - 1969 / 100 + 1969 / 400) * 86400)
    requires Int64(now - issued / 1_000_000_000 * 1_000_000_000)
    ensures Since(now, issued / 1_000_000_000) == now - issued + issued % 1_000_000_000
  {
  }

  /** A timestamp beyond that range stands for a time 2^64 seconds earlier, and an age that does not fit
      is cut to the longest one: such a token counts as old unless that age is allowed. */
  lemma FarFutureIsOld(seconds: int, now: int)
    requires seconds <= 0x7fff_ffff_ffff_ffff
    requires seconds + (1969 * 365 + 1969 / 4 - 1969 / 100 + 1969 / 400) * 86400 > 0x7fff_ffff_ffff_ffff
    requires now >= 0
    ensures Since(now, seconds) == 0x7fff_ffff_ffff_ffff
  {
  }

  function Dots(s: string): nat {
    if s == "" then 0 else Dots(s[..|s| - 1]) + if s[|s| - 1] == '.' then 1 else 0
  }

  lemma {:induction false} DotsConcat(a: string, b: string)
    ensures Dots(a + b) == Dots(a) + Dots(b)
  {
    if b == "" {
      NilRight(a);
    } else {
      assert (a + b)[..|a + b| - 1] == a + b[..|b| - 1];
      DotsConcat(a, b[..|b| - 1]);
    }
  }

  lemma {:induction false} DotFree(s: string)
    requires '.' !in s
    ensures Dots(s) == 0
  {
    if s != "" {
      DotFree(s[..|s| - 1]);
    }
  }

  lemma DottedHasTwo(a: string, b: string, c: string)
    requires '.' !in a && '.' !in b && '.' !in c
    ensures Dots(Dotted(a, b, c)) == 2
  {
    DotsConcat(a + "." + b + ".", c);
    DotsConcat(a + "." + b, ".");
    DotsConcat(a + ".", b);
    DotsConcat(a, ".");
    DotFree(a);
    DotFree(b);
    DotFree(c);
    assert Dots(".") == 1 by {
      assert "."[..0] == "";
    }
  }

  /** An accepted token has exactly two dots, and its form with the timestamp in canonical decimal is
      accepted as well. */
  lemma AcceptedHasCanonicalForm(mac: Mac, token: string, secret: string, now: int, maxAge: int)
    requires ValidateToken(mac, token, secret, now, maxAge)
    ensures Dots(token) == 2
    ensures exists spelling, timestamp, nonce ::
              IsSigned(mac, secret, token, spelling, timestamp, nonce) &&
              ValidateToken(mac, Dotted(PrintInt(timestamp), nonce, Signature(mac, secret, Payload(timestamp, nonce))),
                            secret, now, maxAge)
  {
    AcceptedIff(mac, token, secret, now, maxAge);
    var spelling, timestamp, nonce :|
      IsSigned(mac, secret, token, spelling, timestamp, nonce) && Since(now, timestamp) <= maxAge;
    var signature := Signature(mac, secret, Payload(timestamp, nonce));
    var canonical := Dotted(PrintInt(timestamp), nonce, signature);
    ParsePrintInt(timestamp);
    ParsedHasNoDot(spelling);
    DottedHasTwo(spelling, nonce, signature);
    assert IsSigned(mac, secret, canonical, PrintInt(timestamp), timestamp, nonce);
    AcceptedIff(mac, canonical, secret, now, maxAge);
  }
}
