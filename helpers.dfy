/**
 * The helpers `to1D` and `toBCD`, and the number/text conversions of the
 * JavaScript runtime that they and the disassembler rely on
 * (`Number.prototype.toString(radix)`, `padStart`, `parseInt`).
 */
module Helpers {
  import opened Consts
  import opened Results

  /** Row-major display index of column x, row y. */
  function To1D(x: int, y: int): int
  {
    x + y * ScreenWidth
  }

  /** On-screen coordinates land inside the display, and the index gives them back. */
  lemma To1DOnScreen(x: int, y: int)
    requires 0 <= x < ScreenWidth && 0 <= y < ScreenHeight
    ensures 0 <= To1D(x, y) < DisplaySize
    ensures To1D(x, y) % ScreenWidth == x && To1D(x, y) / ScreenWidth == y
  {
  }

  /** Distinct on-screen coordinates have distinct indices. */
  lemma To1DInjective(x1: int, y1: int, x2: int, y2: int)
    requires 0 <= x1 < ScreenWidth && 0 <= y1 < ScreenHeight
    requires 0 <= x2 < ScreenWidth && 0 <= y2 < ScreenHeight
    requires To1D(x1, y1) == To1D(x2, y2)
    ensures x1 == x2 && y1 == y2
  {
    To1DOnScreen(x1, y1);
    To1DOnScreen(x2, y2);
  }

  // ---------------------------------------------------------------------
  // Digit strings

  /** A character of a lower-case digit string in radix up to 16. */
  predicate IsDigitChar(c: char)
  {
    '0' <= c <= '9' || 'a' <= c <= 'f'
  }

  /** The character that writes digit d, as `toString` does. */
  function DigitChar(d: nat): (c: char)
    requires d < 16
    ensures IsDigitChar(c)
  {
    if d < 10 then ('0' as int + d) as char else ('a' as int + d - 10) as char
  }

  /** `parseInt(c, radix)` for a single digit character. */
  function DigitValue(c: char): (d: nat)
    requires IsDigitChar(c)
    ensures d < 16 && DigitChar(d) == c
  {
    if c <= '9' then c as int - '0' as int else c as int - 'a' as int + 10
  }

  lemma DigitRoundTrip(d: nat)
    requires d < 16
    ensures DigitValue(DigitChar(d)) == d
  {
  }

  /** `n.toString(radix)` for a non-negative integer: lower-case digits, most significant first. */
  function NumberToString(n: nat, radix: nat): (s: string)
    requires 2 <= radix <= 16
    ensures |s| >= 1
    ensures forall k :: 0 <= k < |s| ==> IsDigitChar(s[k]) && DigitValue(s[k]) < radix
    decreases n
  {
    if n < radix then DigitRoundTrip(n); [DigitChar(n)]
    else
      DivShrinks(n, radix);
      var t := NumberToString(n / radix, radix);
      var c := DigitChar(n % radix);
      DigitRoundTrip(n % radix);
      assert forall k :: 0 <= k < |t| + 1 ==> (t + [c])[k] == if k < |t| then t[k] else c;
      t + [c]
  }

  /** Value of a digit string read in the given radix, most significant digit first. */
  function ParseDigits(s: string, radix: nat): nat
    requires forall k :: 0 <= k < |s| ==> IsDigitChar(s[k])
  {
    if s == [] then 0
    else ParseDigits(s[..|s| - 1], radix) * radix + DigitValue(s[|s| - 1])
  }

  /** Reading back what `NumberToString` wrote gives the number. */
  lemma {:induction false} ParseNumberToString(n: nat, radix: nat)
    requires 2 <= radix <= 16
    ensures ParseDigits(NumberToString(n, radix), radix) == n
    decreases n
  {
    if n < radix {
      var c := DigitChar(n);
      assert NumberToString(n, radix) == [c];
      assert [c][..0] == [];
      DigitRoundTrip(n);
    } else {
      DivShrinks(n, radix);
      ParseNumberToString(n / radix, radix);
      ParseLastDigit(n, radix);
      DivMod(n, radix);
    }
  }

  /** The last character written is the digit n % radix, after the text of n / radix. */
  lemma ParseLastDigit(n: nat, radix: nat)
    requires 2 <= radix <= n && radix <= 16
    ensures ParseDigits(NumberToString(n, radix), radix)
         == ParseDigits(NumberToString(n / radix, radix), radix) * radix + n % radix
  {
    var t := NumberToString(n / radix, radix);
    var c := DigitChar(n % radix);
    assert NumberToString(n, radix) == t + [c];
    ParseAppend(t, c, radix);
    DigitRoundTrip(n % radix);
  }

  lemma DivShrinks(n: nat, d: nat)
    requires d >= 2 && n >= 1
    ensures n / d < n
  {
    var q := n / d;
    assert n == q * d + n % d;
    assert q * d >= q * 2;
  }

  lemma DivMod(n: nat, d: nat)
    requires d > 0
    ensures n == n / d * d + n % d
  {
  }

  lemma ParseAppend(t: string, c: char, radix: nat)
    requires forall k :: 0 <= k < |t| ==> IsDigitChar(t[k])
    requires IsDigitChar(c)
    ensures ParseDigits(t + [c], radix) == ParseDigits(t, radix) * radix + DigitValue(c)
  {
    assert (t + [c])[..|t|] == t;
  }

  /** The decimal text of a number below 1000 has one, two or three digits. */
  lemma {:induction false} DecimalLength(n: nat)
    requires n < 1000
    ensures |NumberToString(n, 10)| <= 3
    ensures n < 10 ==> |NumberToString(n, 10)| == 1
    ensures 10 <= n < 100 ==> |NumberToString(n, 10)| == 2
    ensures 100 <= n ==> |NumberToString(n, 10)| == 3
  {
    if n >= 10 {
      DecimalLength(n / 10);
    }
  }

  /** `s.padStart(len, c)`. */
  function PadStart(s: string, len: nat, c: char): (r: string)
    ensures |r| == if |s| >= len then |s| else len
    ensures r[|r| - |s|..] == s
    ensures forall k :: 0 <= k < |r| - |s| ==> r[k] == c
  {
    if |s| >= len then s else seq(len - |s|, _ => c) + s
  }

  /** Leading zeros do not change the value of a digit string. */
  lemma {:induction false} ParseLeadingZeros(z: nat, s: string, radix: nat)
    requires forall k :: 0 <= k < |s| ==> IsDigitChar(s[k])
    ensures ParseDigits(seq(z, _ => '0') + s, radix) == ParseDigits(s, radix)
    decreases |s|
  {
    var zs := seq(z, _ => '0');
    if s == [] {
      ZerosParseToZero(z, radix);
      assert zs + s == zs;
    } else {
      var t := zs + s;
      assert t[..|t| - 1] == zs + s[..|s| - 1];
      ParseLeadingZeros(z, s[..|s| - 1], radix);
    }
  }

  lemma {:induction false} ZerosParseToZero(z: nat, radix: nat)
    ensures ParseDigits(seq(z, _ => '0'), radix) == 0
  {
    if z > 0 {
      assert seq(z, _ => '0')[..z - 1] == seq(z - 1, _ => '0');
      ZerosParseToZero(z - 1, radix);
    }
  }

  lemma ThreeDigits(s: string)
    requires |s| == 3 && forall k :: 0 <= k < 3 ==> IsDigitChar(s[k])
    ensures ParseDigits(s, 10) == 100 * DigitValue(s[0]) + 10 * DigitValue(s[1]) + DigitValue(s[2])
  {
    var a, b, c := DigitValue(s[0]), DigitValue(s[1]), DigitValue(s[2]);
    assert s[..2][..1] == s[..1] && s[..2][1] == s[1];
    assert s[..1][..0] == [] && s[..1][0] == s[0];
    assert ParseDigits(s[..1], 10) == a;
    assert ParseDigits(s[..2], 10) == a * 10 + b;
    assert ParseDigits(s, 10) == (a * 10 + b) * 10 + c;
  }

  // ---------------------------------------------------------------------
  // toBCD

  const TooLarge: string := "Can't convert number >= 256"
  const Negative: string := "Can't convert number < 0"

  /**
   * `toBCD(x)`: the three decimal digits of x, hundreds first, read back
   * one character at a time from the zero-padded decimal text of x;
   * an error outside 0..255.
   */
  function ToBCD(x: int): (r: Result<seq<nat>, string>)
    ensures r.Failure? <==> (x >= 256 || x < 0)
    ensures x >= 256 ==> r == Failure(TooLarge)
    ensures x < 0 ==> r == Failure(Negative)
    ensures r.Success? ==> |r.value| == 3
    ensures r.Success? ==> forall k :: 0 <= k < 3 ==> r.value[k] <= 9
    ensures r.Success? ==> 100 * r.value[0] + 10 * r.value[1] + r.value[2] == x
  {
    if x >= 256 then Failure(TooLarge)
    else if x < 0 then Failure(Negative)
    else
      var str := PadStart(NumberToString(x, 10), 3, '0');
      BCDDigits(x, str);
      Success([DigitValue(str[0]), DigitValue(str[1]), DigitValue(str[2])])
  }

  lemma BCDDigits(x: nat, str: string)
    requires x < 256 && str == PadStart(NumberToString(x, 10), 3, '0')
    ensures |str| == 3 && IsDigitChar(str[0]) && IsDigitChar(str[1]) && IsDigitChar(str[2])
    ensures DigitValue(str[0]) <= 9 && DigitValue(str[1]) <= 9 && DigitValue(str[2]) <= 9
    ensures 100 * DigitValue(str[0]) + 10 * DigitValue(str[1]) + DigitValue(str[2]) == x
  {
    var s := NumberToString(x, 10);
    DecimalLength(x);
    PaddedDigits(s, 3);
    assert str == seq(3 - |s|, _ => '0') + s;
    ParseLeadingZeros(3 - |s|, s, 10);
    ParseNumberToString(x, 10);
    ThreeDigits(str);
  }

  /** Padding a decimal digit string with '0' keeps every character a decimal digit. */
  lemma PaddedDigits(s: string, len: nat)
    requires forall k :: 0 <= k < |s| ==> IsDigitChar(s[k]) && DigitValue(s[k]) < 10
    ensures var str := PadStart(s, len, '0');
      forall k :: 0 <= k < |str| ==> IsDigitChar(str[k]) && DigitValue(str[k]) <= 9
  {
    var str := PadStart(s, len, '0');
    forall k | 0 <= k < |str| ensures IsDigitChar(str[k]) && DigitValue(str[k]) <= 9 {
      if k >= |str| - |s| {
        assert str[k] == str[|str| - |s|..][k - (|str| - |s|)];
      }
    }
  }

  /** The digits are x / 100, (x / 10) % 10 and x % 10, leading zeros kept. */
  lemma ToBCDIsPositional(x: int)
    requires 0 <= x < 256
    ensures ToBCD(x) == Success([x / 100, (x / 10) % 10, x % 10])
  {
    var d := ToBCD(x).value;
    DecimalDigitsUnique(d[0], d[1], d[2], x);
  }

  lemma DecimalDigitsUnique(a: nat, b: nat, c: nat, x: nat)
    requires a <= 9 && b <= 9 && c <= 9 && 100 * a + 10 * b + c == x
    ensures a == x / 100 && b == (x / 10) % 10 && c == x % 10
  {
    assert x / 10 == 10 * a + b;
    assert x % 10 == c;
  }

  lemma ToBCDExamples()
    ensures ToBCD(0) == Success([0, 0, 0])
    ensures ToBCD(7) == Success([0, 0, 7])
    ensures ToBCD(111) == Success([1, 1, 1])
    ensures ToBCD(255) == Success([2, 5, 5])
  {
    ToBCDIsPositional(0);
    ToBCDIsPositional(7);
    ToBCDIsPositional(111);
    ToBCDIsPositional(255);
  }
}
