/**
 * Decimal digit strings: their values, their shortest rendering, zero padding
 * as `QString::arg(n, 4, 10, QChar('0'))` does it, and the C and Qt integer
 * conversions the program applies to captured digit runs.
 */
module Decimal {

  /** `unsigned long` is 64 bits wide: `strtoul` saturates here. */
  const ULongMax: nat := 0xFFFF_FFFF_FFFF_FFFF

  /** `INT_MAX` for a 32-bit `int`: `QString::toInt` fails above it. */
  const IntMax: nat := 0x7FFF_FFFF

  predicate IsDigit(c: char) {
    '0' <= c <= '9'
  }

  predicate AllDigits(s: string) {
    forall i :: 0 <= i < |s| ==> IsDigit(s[i])
  }

  function DigitValue(c: char): nat
    requires IsDigit(c)
  {
    (c as int - '0' as int) as nat
  }

  function DigitChar(d: nat): (c: char)
    requires d < 10
    ensures IsDigit(c) && DigitValue(c) == d
  {
    ('0' as int + d) as char
  }

  /** The number a digit string denotes, most significant digit first. */
  function Value(s: string): nat
    requires AllDigits(s)
    decreases |s|
  {
    if |s| == 0 then 0
    else Value(s[..|s| - 1]) * 10 + DigitValue(s[|s| - 1])
  }

  /** The shortest decimal rendering: no leading zero except for 0 itself. */
  function Render(n: nat): (r: string)
    ensures |r| > 0 && AllDigits(r)
    ensures |r| > 1 ==> r[0] != '0'
    decreases n
  {
    if n < 10 then [DigitChar(n)]
    else Render(n / 10) + [DigitChar(n % 10)]
  }

  /** Reading back a rendered number gives the number. */
  lemma {:induction false} ValueRender(n: nat)
    ensures Value(Render(n)) == n
    decreases n
  {
    if n >= 10 {
      ValueRender(n / 10);
      var r := Render(n);
      assert r[..|r| - 1] == Render(n / 10);
    }
  }

  /** Rendering the value of a digit string without leading zeros gives the string back. */
  lemma {:induction false} RenderValue(s: string)
    requires |s| > 0 && AllDigits(s)
    requires |s| > 1 ==> s[0] != '0'
    ensures Render(Value(s)) == s
    decreases |s|
  {
    if |s| == 1 {
      assert Value(s) == DigitValue(s[0]) by {
        assert s[..0] == "";
      }
    } else {
      var init := s[..|s| - 1];
      assert init[0] == s[0];
      RenderValue(init);
      ValueAtLeast(init);
      var v := Value(s);
      assert v / 10 == Value(init) && v % 10 == DigitValue(s[|s| - 1]);
      assert s == init + [s[|s| - 1]];
    }
  }

  /** A digit string of two or more digits with a non-zero head denotes at least 10. */
  lemma {:induction false} ValueAtLeast(s: string)
    requires |s| > 0 && AllDigits(s) && s[0] != '0'
    ensures Value(s) >= 1
    ensures |s| > 1 ==> Value(s) >= 10
    decreases |s|
  {
    if |s| > 1 {
      var init := s[..|s| - 1];
      assert init[0] == s[0];
      ValueAtLeast(init);
    } else {
      assert s[..0] == "";
    }
  }

  /** Leading zeros add nothing. */
  lemma {:induction false} ValueLeadingZeros(k: nat, s: string)
    requires AllDigits(s)
    ensures AllDigits(Zeros(k) + s)
    ensures Value(Zeros(k) + s) == Value(s)
    decreases |s|
  {
    var z := Zeros(k) + s;
    if |s| == 0 {
      assert z == Zeros(k);
      ValueZeros(k);
    } else {
      assert z[..|z| - 1] == Zeros(k) + s[..|s| - 1];
      ValueLeadingZeros(k, s[..|s| - 1]);
    }
  }

  lemma {:induction false} ValueZeros(k: nat)
    ensures Value(Zeros(k)) == 0
    decreases k
  {
    if k > 0 {
      assert Zeros(k)[..k - 1] == Zeros(k - 1);
      ValueZeros(k - 1);
    }
  }

  function Zeros(k: nat): (r: string)
    ensures |r| == k && AllDigits(r)
    ensures forall i :: 0 <= i < k ==> r[i] == '0'
  {
    seq(k, _ => '0')
  }

  /** A number needs at most four digits exactly when it is at most 9999. */
  lemma {:induction false} RenderLength(n: nat)
    ensures |Render(n)| <= 4 <==> n <= 9999
    ensures |Render(n)| <= 3 <==> n <= 999
    ensures |Render(n)| <= 2 <==> n <= 99
    ensures |Render(n)| <= 1 <==> n <= 9
    decreases n
  {
    if n >= 10 {
      RenderLength(n / 10);
    }
  }

  /**
   * `QString::arg(n, 4, 10, QChar('0'))`: the decimal rendering, left-padded
   * with '0' to four characters; longer renderings are kept whole.
   */
  function Pad4(n: nat): (r: string)
    ensures AllDigits(r)
    ensures |r| == (if |Render(n)| < 4 then 4 else |Render(n)|)
    ensures Value(r) == n
  {
    var d := Render(n);
    ValueRender(n);
    if |d| < 4 then
      ValueLeadingZeros(4 - |d|, d);
      Zeros(4 - |d|) + d
    else d
  }

  /** Padded numbers fit the four-digit field exactly up to 9999. */
  lemma Pad4Width(n: nat)
    ensures |Pad4(n)| == 4 <==> n <= 9999
  {
    RenderLength(n);
  }

  /** `strtoul` on a digit run: its value, saturated at `ULONG_MAX`. */
  function StrToUL(s: string): (r: nat)
    requires AllDigits(s)
    ensures r <= ULongMax
    ensures Value(s) <= ULongMax ==> r == Value(s)
  {
    var v := Value(s);
    if v > ULongMax then ULongMax else v
  }

  /** `QString::toInt` on a digit run: its value, or 0 when it does not fit an `int`. */
  function ToInt(s: string): (r: nat)
    requires AllDigits(s)
    ensures r <= IntMax
    ensures r == Value(s) <==> Value(s) <= IntMax
    ensures Value(s) > IntMax ==> r == 0
  {
    var v := Value(s);
    if v <= IntMax then v else 0
  }

  /** Length of the longest all-digit prefix. */
  function DigitRun(s: string): (k: nat)
    ensures k <= |s| && AllDigits(s[..k])
    ensures k < |s| ==> !IsDigit(s[k])
  {
    if |s| == 0 || !IsDigit(s[0]) then 0
    else
      var k := 1 + DigitRun(s[1..]);
      assert s[..k] == [s[0]] + s[1..][..k - 1];
      k
  }

  /** The maximal digit run ends where the non-digit text begins. */
  lemma {:induction false} DigitRunConcat(ds: string, t: string)
    requires AllDigits(ds)
    requires t == "" || !IsDigit(t[0])
    ensures DigitRun(ds + t) == |ds|
    decreases |ds|
  {
    if |ds| > 0 {
      assert (ds + t)[1..] == ds[1..] + t;
      DigitRunConcat(ds[1..], t);
    } else {
      assert ds + t == t;
    }
  }

  /** A digit string is its value's rendering behind leading zeros. */
  lemma {:induction false} ZerosThenRender(s: string)
    requires |s| > 0 && AllDigits(s)
    ensures |Render(Value(s))| <= |s|
    ensures s == Zeros(|s| - |Render(Value(s))|) + Render(Value(s))
    decreases |s|
  {
    if |s| == 1 || s[0] != '0' {
      RenderValue(s);
      assert Zeros(0) + s == s;
    } else {
      var t := s[1..];
      assert s == Zeros(1) + t;
      ValueLeadingZeros(1, t);
      ZerosThenRender(t);
      var k := |t| - |Render(Value(t))|;
      assert Zeros(1) + Zeros(k) == Zeros(k + 1);
      assert s == Zeros(1) + (Zeros(k) + Render(Value(t)));
    }
  }

  /** Padding the value of four digits gives back the four digits. */
  lemma Pad4Value(s: string)
    requires |s| == 4 && AllDigits(s)
    ensures Pad4(Value(s)) == s
  {
    ZerosThenRender(s);
  }
}
