// The signed session token (apps/web/lib/auth/session.ts).
module Session {
  import opened Wrappers
  import opened Digits

  // A JavaScript string is its sequence of UTF-16 code units.
  type CodeUnit = u: nat | u < 0x10000
  type JsString = seq<CodeUnit>

  const DOT: CodeUnit := 46
  const SESSION_TTL_MS: int := 12 * 60 * 60 * 1000
  const TWO_32: nat := 0x1_0000_0000
  const TWO_53: nat := 0x20_0000_0000_0000

  // ---- bit operations on naturals ----

  function BitXor(a: nat, b: nat): nat
    decreases a + b
  {
    if a == 0 && b == 0 then 0
    else (if a % 2 == b % 2 then 0 else 1) + 2 * BitXor(a / 2, b / 2)
  }

  function BitOr(a: nat, b: nat): nat
    decreases a + b
  {
    if a == 0 && b == 0 then 0
    else (if a % 2 == 0 && b % 2 == 0 then 0 else 1) + 2 * BitOr(a / 2, b / 2)
  }

  lemma {:induction false} XorIsZeroOnlyForEquals(a: nat, b: nat)
    ensures BitXor(a, b) == 0 <==> a == b
    decreases a + b
  {
    if a != 0 || b != 0 {
      XorIsZeroOnlyForEquals(a / 2, b / 2);
    }
  }

  lemma {:induction false} OrIsZeroOnlyForZeros(a: nat, b: nat)
    ensures BitOr(a, b) == 0 <==> a == 0 && b == 0
    decreases a + b
  {
    if a != 0 || b != 0 {
      OrIsZeroOnlyForZeros(a / 2, b / 2);
    }
  }

  // The k-th binary digit.
  ghost function BitOf(a: nat, k: nat): nat { if k == 0 then a % 2 else BitOf(a / 2, k - 1) }

  lemma {:induction false} NoBitsInZero(k: nat)
    ensures BitOf(0, k) == 0
  {
    if k > 0 {
      NoBitsInZero(k - 1);
    }
  }

  lemma {:induction false} XorByBit(a: nat, b: nat, k: nat)
    ensures BitOf(BitXor(a, b), k) == if BitOf(a, k) == BitOf(b, k) then 0 else 1
  {
    if a == 0 && b == 0 {
      NoBitsInZero(k);
    } else if k > 0 {
      XorByBit(a / 2, b / 2, k - 1);
    }
  }

  lemma {:induction false} OrByBit(a: nat, b: nat, k: nat)
    ensures BitOf(BitOr(a, b), k) == if BitOf(a, k) == 0 && BitOf(b, k) == 0 then 0 else 1
  {
    if a == 0 && b == 0 {
      NoBitsInZero(k);
    } else if k > 0 {
      OrByBit(a / 2, b / 2, k - 1);
    }
  }

  // Both operations work digit by digit.
  lemma BitByBit(a: nat, b: nat, k: nat)
    ensures BitOf(BitXor(a, b), k) == if BitOf(a, k) == BitOf(b, k) then 0 else 1
    ensures BitOf(BitOr(a, b), k) == if BitOf(a, k) == 0 && BitOf(b, k) == 0 then 0 else 1
  {
    XorByBit(a, b, k);
    OrByBit(a, b, k);
  }

  // ---- constant-time equality ----

  // `s.charCodeAt(i) || 0`
  function UnitAt(s: JsString, i: nat): CodeUnit { if i < |s| then s[i] else 0 }

  // Two different strings whose lengths agree as 32-bit integers, the longer one padded with NULs.
  ghost predicate PaddedTwins(a: JsString, b: JsString) {
    && |a| != |b| && |a| % 0x1_0000_0000 == |b| % 0x1_0000_0000
    && (forall i :: 0 <= i < |a| ==> a[i] == if i < |b| then b[i] else 0)
    && forall i :: |a| <= i < |b| ==> b[i] == 0
  }

  // The first n units agree, as read by the fold.
  ghost predicate SameUnits(a: JsString, b: JsString, n: nat) {
    forall k: nat :: k < n ==> UnitAt(a, k) == UnitAt(b, k)
  }

  // The fold answers string equality for every pair an engine can hold. On unbounded strings the
  // 32-bit XOR of the lengths leaves one exception, and it is exactly the padded twins.
  method TimingSafeEqual(a: JsString, b: JsString) returns (equal: bool)
    ensures equal <==> a == b || PaddedTwins(a, b)
    ensures |a| < 0x1_0000_0000 && |b| < 0x1_0000_0000 ==> (equal <==> a == b)
  {
    var length := if |a| >= |b| then |a| else |b|;
    var diff := BitXor(|a| % TWO_32, |b| % TWO_32);
    XorIsZeroOnlyForEquals(|a| % TWO_32, |b| % TWO_32);
    for i := 0 to length
      invariant diff == 0 <==> |a| % TWO_32 == |b| % TWO_32 && SameUnits(a, b, i)
    {
      FoldStep(a, b, i, diff);
      diff := BitOr(diff, BitXor(UnitAt(a, i), UnitAt(b, i)));
    }
    equal := diff == 0;
    UnitsDecide(a, b, length);
  }

  lemma FoldStep(a: JsString, b: JsString, i: nat, diff: nat)
    ensures BitOr(diff, BitXor(UnitAt(a, i), UnitAt(b, i))) == 0 <==> diff == 0 && UnitAt(a, i) == UnitAt(b, i)
    ensures SameUnits(a, b, i + 1) <==> SameUnits(a, b, i) && UnitAt(a, i) == UnitAt(b, i)
  {
    XorIsZeroOnlyForEquals(UnitAt(a, i), UnitAt(b, i));
    OrIsZeroOnlyForZeros(diff, BitXor(UnitAt(a, i), UnitAt(b, i)));
  }

  lemma UnitsDecide(a: JsString, b: JsString, n: nat)
    requires |a| <= n && |b| <= n
    ensures |a| % TWO_32 == |b| % TWO_32 && SameUnits(a, b, n) <==> a == b || PaddedTwins(a, b)
    ensures |a| < TWO_32 && |b| < TWO_32 ==> !PaddedTwins(a, b)
  {
    if |a| % TWO_32 == |b| % TWO_32 && SameUnits(a, b, n) {
      forall i | 0 <= i < |a| ensures a[i] == if i < |b| then b[i] else 0 {
        assert UnitAt(a, i) == UnitAt(b, i);
      }
      forall i | |a| <= i < |b| ensures b[i] == 0 {
        assert UnitAt(a, i) == UnitAt(b, i);
      }
      assert |a| == |b| ==> a == b;
    }
  }

  // ---- token text ----

  // `text.split(".")`
  function SplitDots(s: JsString): (parts: seq<JsString>)
    ensures parts != []
  {
    if s == [] then [[]]
    else
      var rest := SplitDots(s[1..]);
      if s[0] == DOT then [[]] + rest else [[s[0]] + rest[0]] + rest[1..]
  }

  lemma {:induction false} SplitsInOne(s: JsString)
    ensures DOT !in s ==> SplitDots(s) == [s]
    ensures |SplitDots(s)| == 1 ==> DOT !in s && SplitDots(s) == [s]
    ensures DOT !in SplitDots(s)[0]
  {
    if s != [] {
      SplitsInOne(s[1..]);
      assert s == [s[0]] + s[1..];
    }
  }

  lemma {:induction false} JoinThenSplit(a: JsString, b: JsString)
    requires DOT !in a && DOT !in b
    ensures SplitDots(a + [DOT] + b) == [a, b]
  {
    var s := a + [DOT] + b;
    SplitsInOne(b);
    if a == [] {
      assert s[0] == DOT && s[1..] == b;
    } else {
      assert s[0] == a[0] && s[1..] == a[1..] + [DOT] + b;
      JoinThenSplit(a[1..], b);
      assert [a[0]] + a[1..] == a;
      assert [a[1..], b][1..] == [b];
    }
  }

  lemma {:induction false} SplitThenJoin(s: JsString)
    requires |SplitDots(s)| == 2
    ensures s == SplitDots(s)[0] + [DOT] + SplitDots(s)[1]
    ensures DOT !in SplitDots(s)[0] && DOT !in SplitDots(s)[1]
  {
    var rest := SplitDots(s[1..]);
    assert s == [s[0]] + s[1..];
    SplitsInOne(s[1..]);
    if s[0] == DOT {
      assert SplitDots(s)[0] == [] && SplitDots(s)[1] == rest[0] && |rest| == 1;
      assert [] + [DOT] + s[1..] == s;
    } else {
      SplitThenJoin(s[1..]);
      assert SplitDots(s)[0] == [s[0]] + rest[0] && SplitDots(s)[1] == rest[1];
      FirstJoins(s[0], rest[0], rest[1]);
    }
  }

  lemma FirstJoins(first: CodeUnit, a: JsString, b: JsString)
    ensures [first] + (a + [DOT] + b) == ([first] + a) + [DOT] + b
  {
  }

  lemma SplitsInTwo(s: JsString, a: JsString, b: JsString)
    ensures SplitDots(s) == [a, b] <==> s == a + [46] + b && 46 !in a && 46 !in b
  {
    if SplitDots(s) == [a, b] {
      SplitThenJoin(s);
    }
    if DOT !in a && DOT !in b {
      JoinThenSplit(a, b);
    }
  }

  predicate IsDigitUnit(u: CodeUnit) { 48 <= u <= 57 }

  // /^\d+$/
  predicate IsDigitRun(s: JsString) { s != [] && forall i :: 0 <= i < |s| ==> IsDigitUnit(s[i]) }

  function Chars(s: JsString): string
    requires forall i :: 0 <= i < |s| ==> IsDigitUnit(s[i])
  {
    seq(|s|, i requires 0 <= i < |s| && IsDigitUnit(s[i]) => s[i] as char)
  }

  function Units(s: string): JsString
    requires AllDigits(s)
  {
    seq(|s|, i requires 0 <= i < |s| => s[i] as int)
  }

  // The number a run of digits denotes.
  function Denotes(s: JsString): nat
    requires IsDigitRun(s)
  {
    Value(Chars(s))
  }

  // `Number(text)` is the nearest double: exact up to 2^53 and never below 2^53 beyond it.
  ghost predicate RoundsToDouble(number: nat -> nat) {
    && (forall v: nat :: v <= TWO_53 ==> number(v) == v)
    && forall v: nat :: v > TWO_53 ==> number(v) >= TWO_53
  }

  // `b.toString(16).padStart(2, "0")` for each byte, joined.
  function HexOfBytes(bytes: seq<nat>): (s: JsString)
    requires forall i :: 0 <= i < |bytes| ==> bytes[i] < 256
    ensures |s| == 2 * |bytes| && forall i :: 0 <= i < |s| ==> IsHexUnit(s[i])
  {
    if bytes == [] then []
    else [HexUnit(bytes[0] / 16), HexUnit(bytes[0] % 16)] + HexOfBytes(bytes[1..])
  }

  predicate IsHexUnit(u: CodeUnit) { IsDigitUnit(u) || 97 <= u <= 102 }

  function HexUnit(d: nat): (u: CodeUnit)
    requires d < 16
    ensures IsHexUnit(u)
  {
    HexChar(d) as int
  }

  // An HMAC-SHA-256 in lower-case hexadecimal.
  ghost predicate IsHexDigest(s: JsString) {
    exists bytes: seq<nat> ::
      |bytes| == 32 && (forall i :: 0 <= i < |bytes| ==> bytes[i] < 256) && s == HexOfBytes(bytes)
  }

  // The code unit of a hexadecimal digit, and the two that spell a byte.
  ghost function DigitUnit(d: nat): nat { if d < 10 then 48 + d else 87 + d }

  lemma {:induction false} BytesAsSpelled(bytes: seq<nat>, k: nat) returns (high: nat, low: nat)
    requires (forall i :: 0 <= i < |bytes| ==> bytes[i] < 256) && k < |bytes|
    ensures high < 16 && low < 16 && bytes[k] == 16 * high + low
    ensures HexOfBytes(bytes)[2 * k] == DigitUnit(high) && HexOfBytes(bytes)[2 * k + 1] == DigitUnit(low)
  {
    if k > 0 {
      high, low := BytesAsSpelled(bytes[1..], k - 1);
      assert HexOfBytes(bytes)[2..] == HexOfBytes(bytes[1..]);
    } else {
      high, low := bytes[0] / 16, bytes[0] % 16;
    }
  }

  // Such a text is sixty-four digits or small letters up to f, so it has no dot.
  lemma DigestUnits(s: JsString)
    requires IsHexDigest(s)
    ensures |s| == 64 && forall i :: 0 <= i < |s| ==> 48 <= s[i] <= 57 || 97 <= s[i] <= 102
  {
    var bytes: seq<nat> :| |bytes| == 32 && (forall i :: 0 <= i < |bytes| ==> bytes[i] < 256) && s == HexOfBytes(bytes);
  }

  // ---- issuing and verifying ----

  type Mac = (JsString, JsString) -> JsString

  ghost predicate IsMac(mac: Mac) { forall secret, message :: IsHexDigest(mac(secret, message)) }

  // `String(t)` of a time value: a sign, then its digits.
  function TimeText(t: int): JsString {
    if t >= 0 then Units(Decimal(t)) else [45] + Units(Decimal(-t))
  }

  function IssueSession(mac: Mac, secret: JsString, now: int): JsString {
    TimeText(now) + [DOT] + mac(secret, TimeText(now))
  }

  // The tokens that are good at `now`: digits, a dot, their signature, and an age within the TTL.
  ghost predicate GoodToken(mac: Mac, secret: JsString, token: JsString, now: int) {
    exists d: JsString :: IsDigitRun(d) && token == d + [46] + mac(secret, d)
        && 0 <= now - Denotes(d) <= 43_200_000
  }

  // `now` is a time value, as section 21.4.1.1 of ECMA-262 bounds it.
  method VerifySession(mac: Mac, number: nat -> nat, secret: JsString, token: Option<JsString>, now: int)
    returns (ok: bool)
    requires IsMac(mac) && RoundsToDouble(number)
    requires -8_640_000_000_000_000 <= now <= 8_640_000_000_000_000
    requires token.Some? ==> |token.value| < 0x1_0000_0000
    ensures ok <==> token.Some? && GoodToken(mac, secret, token.value, now)
  {
    if token.None? || token.value == [] {
      if token.Some? { NoGoodEmptyToken(mac, secret, now); }
      return false;
    }
    var parts := SplitDots(token.value);
    if |parts| != 2 || parts[0] == [] || parts[1] == [] || !IsDigitRun(parts[0]) {
      GoodTokenParts(mac, secret, token.value, now);
      return false;
    }
    var issued, signature := parts[0], parts[1];
    assert parts == [issued, signature];
    GoodTokenParts(mac, secret, token.value, now);
    SplitsInTwo(token.value, issued, signature);
    var expected := mac(secret, issued);
    DigestUnits(expected);
    var same := TimingSafeEqual(expected, signature);
    if !same {
      return false;
    }
    var age := now - number(Denotes(issued));
    ok := age >= 0 && age <= SESSION_TTL_MS;
  }

  lemma NoGoodEmptyToken(mac: Mac, secret: JsString, now: int)
    ensures !GoodToken(mac, secret, [], now)
  {
    forall d: JsString | IsDigitRun(d) ensures d + [DOT] + mac(secret, d) != [] {
      assert |d + [DOT] + mac(secret, d)| > 0;
    }
  }

  // A good token splits into exactly its digits and their signature.
  lemma GoodTokenParts(mac: Mac, secret: JsString, token: JsString, now: int)
    requires IsMac(mac)
    ensures GoodToken(mac, secret, token, now) <==>
            var parts := SplitDots(token);
            |parts| == 2 && IsDigitRun(parts[0]) && parts[1] == mac(secret, parts[0])
            && 0 <= now - Denotes(parts[0]) <= 43_200_000
  {
    var parts := SplitDots(token);
    if d: JsString :| IsDigitRun(d) && token == d + [DOT] + mac(secret, d) && 0 <= now - Denotes(d) <= SESSION_TTL_MS {
      SplitsInTwo(token, d, mac(secret, d));
    }
    if |parts| == 2 {
      assert parts == [parts[0], parts[1]];
      SplitsInTwo(token, parts[0], parts[1]);
    }
  }

  lemma CharsOfUnits(s: string)
    requires AllDigits(s)
    ensures Chars(Units(s)) == s
  {
  }

  // An issued token verifies exactly during its lifetime, and a token issued before 1970 never
  // does: its text starts with a sign, which the digit test refuses.
  lemma IssuedTokenLifetime(mac: Mac, secret: JsString, issued: int, now: int)
    requires IsMac(mac)
    ensures GoodToken(mac, secret, IssueSession(mac, secret, issued), now) <==>
            issued >= 0 && 0 <= now - issued <= 43_200_000
  {
    var text := TimeText(issued);
    var token := IssueSession(mac, secret, issued);
    GoodTokenParts(mac, secret, token, now);
    if issued >= 0 {
      DecimalReads(issued);
      CharsOfUnits(Decimal(issued));
    } else {
      assert text[0] == 45 && !IsDigitUnit(text[0]);
    }
    SplitsInTwo(token, text, mac(secret, text));
  }

  // Moving a signature to other digits yields a good token only if the two messages share a signature.
  lemma TamperingNeedsACollision(mac: Mac, secret: JsString, issued: nat, other: JsString, now: int)
    requires IsMac(mac) && IsDigitRun(other) && other != TimeText(issued)
    requires GoodToken(mac, secret, other + [DOT] + mac(secret, TimeText(issued)), now)
    ensures mac(secret, other) == mac(secret, TimeText(issued))
  {
    var token := other + [DOT] + mac(secret, TimeText(issued));
    GoodTokenParts(mac, secret, token, now);
    SplitsInTwo(token, other, mac(secret, TimeText(issued)));
  }
}
