// Decimal and hexadecimal texts: printing, reading, and that they undo each other.
module Digits {

  predicate IsDigit(c: char) { '0' <= c <= '9' }

  function DigitOf(c: char): nat
    requires IsDigit(c)
  {
    c as int - '0' as int
  }

  function DigitChar(d: nat): (c: char)
    requires d < 10
    ensures IsDigit(c) && DigitOf(c) == d
  {
    ('0' as int + d) as char
  }

  predicate AllDigits(s: string) { forall i :: 0 <= i < |s| ==> IsDigit(s[i]) }

  // What `int(text)` and `Number(text)` read from a text of decimal digits.
  function Value(s: string): nat
    requires AllDigits(s)
  {
    if s == "" then 0 else 10 * Value(s[..|s| - 1]) + DigitOf(s[|s| - 1])
  }

  // `padStart(w, "0")` of a number that fits.
  function FixedWidth(n: nat, w: nat): (s: string)
    ensures |s| == w && AllDigits(s)
  {
    if w == 0 then "" else FixedWidth(n / 10, w - 1) + [DigitChar(n % 10)]
  }

  // `str(n)` and `String(n)`.
  function Decimal(n: nat): (s: string)
    ensures s != "" && AllDigits(s)
  {
    if n < 10 then [DigitChar(n)] else Decimal(n / 10) + [DigitChar(n % 10)]
  }

  function Pow10(w: nat): nat { if w == 0 then 1 else 10 * Pow10(w - 1) }

  lemma {:induction false} FixedWidthReads(n: nat, w: nat)
    requires n < Pow10(w)
    ensures Value(FixedWidth(n, w)) == n
  {
    if w > 0 {
      FixedWidthReads(n / 10, w - 1);
      var s := FixedWidth(n, w);
      assert s[..|s| - 1] == FixedWidth(n / 10, w - 1);
    }
  }

  lemma {:induction false} ValuePrints(s: string)
    requires AllDigits(s)
    ensures FixedWidth(Value(s), |s|) == s && Value(s) < Pow10(|s|)
  {
    if s != "" {
      ValuePrints(s[..|s| - 1]);
      assert s == s[..|s| - 1] + [s[|s| - 1]];
      assert Value(s) / 10 == Value(s[..|s| - 1]) && Value(s) % 10 == DigitOf(s[|s| - 1]);
    }
  }

  lemma {:induction false} DecimalReads(n: nat)
    ensures Value(Decimal(n)) == n
  {
    var s := Decimal(n);
    if n >= 10 {
      DecimalReads(n / 10);
      assert s[..|s| - 1] == Decimal(n / 10);
    } else {
      assert s[..0] == "";
    }
  }

  // A padded number shows as the plain one exactly when it already has that many digits.
  lemma {:induction false} PaddedIsPlain(n: nat, w: nat)
    requires w >= 1 && n < Pow10(w)
    ensures FixedWidth(n, w) == Decimal(n) <==> w == 1 || n >= Pow10(w - 1)
  {
    if w > 1 {
      if n >= 10 {
        PaddedIsPlain(n / 10, w - 1);
        var a, b := FixedWidth(n / 10, w - 1), Decimal(n / 10);
        var d := [DigitChar(n % 10)];
        assert a + d == b + d <==> a == b by {
          if a + d == b + d {
            assert (a + d)[..|a + d| - 1] == a && (b + d)[..|b + d| - 1] == b;
          }
        }
        assert n / 10 >= Pow10(w - 2) <==> n >= Pow10(w - 1);
      } else {
        assert |Decimal(n)| == 1;
        PowGrows(w - 1);
      }
    } else {
      assert FixedWidth(n / 10, 0) == "" && n < 10;
    }
  }

  lemma {:induction false} PowGrows(w: nat)
    ensures Pow10(w) >= 1 && (w >= 1 ==> Pow10(w) >= 10)
  {
    if w > 0 {
      PowGrows(w - 1);
    }
  }

  // ---- hexadecimal, for the text of an identifier ----

  function HexChar(d: nat): (c: char)
    requires d < 16
  {
    if d < 10 then DigitChar(d) else ('a' as int + d - 10) as char
  }

  function HexText(n: nat, w: nat): (s: string)
    ensures |s| == w
  {
    if w == 0 then "" else HexText(n / 16, w - 1) + [HexChar(n % 16)]
  }

  function Pow16(w: nat): nat { if w == 0 then 1 else 16 * Pow16(w - 1) }

  lemma {:induction false} HexTextIdentifies(a: nat, b: nat, w: nat)
    requires a < Pow16(w) && b < Pow16(w)
    requires HexText(a, w) == HexText(b, w)
    ensures a == b
  {
    if w > 0 {
      var s, t := HexText(a, w), HexText(b, w);
      assert s[w - 1] == HexChar(a % 16) && t[w - 1] == HexChar(b % 16);
      assert s[..w - 1] == HexText(a / 16, w - 1) && t[..w - 1] == HexText(b / 16, w - 1);
      HexTextIdentifies(a / 16, b / 16, w - 1);
    }
  }
}
