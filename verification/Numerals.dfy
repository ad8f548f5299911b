/** Facts about decimal and hexadecimal text. */
module Numerals {
  import opened Common
  import opened Text

  // ---------------------------------------------------------------- decimal

  /** The number a string of digits stands for. */
  function Value(s: string): int
  {
    if s == "" then 0 else 10 * Value(s[..|s| - 1]) + (s[|s| - 1] as int - '0' as int)
  }

  lemma DigitValue(d: int)
    requires 0 <= d < 10
    ensures HEX_DIGITS[d] as int - '0' as int == d
  {
  }

  /** Reading back a printed number. */
  lemma {:induction false} DecimalValue(n: nat)
    ensures Value(Decimal(n)) == n
  {
    DigitValue(n % 10);
    if n < 10 {
      assert Decimal(n)[..0] == "";
    } else {
      DecimalValue(n / 10);
      assert Decimal(n)[..|Decimal(n)| - 1] == Decimal(n / 10);
    }
  }

  function Zeros(n: nat): (r: string)
    ensures |r| == n
  {
    seq(n, _ => '0')
  }

  lemma {:induction false} ZerosValue(n: nat, s: string)
    ensures Value(Zeros(n) + s) == Value(s)
  {
    if s == "" {
      assert Zeros(n) + s == Zeros(n);
      if n > 0 {
        assert Zeros(n)[..n - 1] == Zeros(n - 1) + "";
        ZerosValue(n - 1, "");
      }
    } else {
      assert (Zeros(n) + s)[..n + |s| - 1] == Zeros(n) + s[..|s| - 1];
      ZerosValue(n, s[..|s| - 1]);
    }
  }

  function Power10(k: nat): (r: nat)
    ensures r > 0
  {
    if k == 0 then 1 else 10 * Power10(k - 1)
  }

  function FixedWidth(n: nat, width: nat): (r: string)
    ensures |r| == width
  {
    if width == 0 then "" else FixedWidth(n / 10, width - 1) + [HEX_DIGITS[n % 10]]
  }

  lemma {:induction false} DecimalWidth(n: nat, width: nat)
    requires width > 0 && n < Power10(width)
    ensures |Decimal(n)| <= width
    ensures width > 1 && n >= Power10(width - 1) ==> |Decimal(n)| == width
  {
    if n >= 10 {
      DecimalWidth(n / 10, width - 1);
    }
  }

  lemma {:induction false} FixedWidthIsPadded(n: nat, width: nat)
    requires |Decimal(n)| <= width
    ensures FixedWidth(n, width) == Zeros(width - |Decimal(n)|) + Decimal(n)
  {
    if n < 10 {
      FixedWidthZero(width - 1);
    } else {
      FixedWidthIsPadded(n / 10, width - 1);
    }
  }

  lemma {:induction false} FixedWidthZero(width: nat)
    ensures FixedWidth(0, width) == Zeros(width)
  {
    if width > 0 {
      FixedWidthZero(width - 1);
    }
  }

  /** At equal width, numeric order is byte order. */
  lemma {:induction false} FixedWidthOrdered(i: nat, j: nat, width: nat)
    requires i < j < Power10(width)
    ensures LexLess(Codes(FixedWidth(i, width)), Codes(FixedWidth(j, width)))
  {
    var p, q := FixedWidth(i / 10, width - 1), FixedWidth(j / 10, width - 1);
    var d, e := HEX_DIGITS[i % 10], HEX_DIGITS[j % 10];
    assert Codes(p + [d]) == Codes(p) + [d as int] && Codes(q + [e]) == Codes(q) + [e as int];
    DigitValue(i % 10);
    DigitValue(j % 10);
    if i / 10 < j / 10 {
      FixedWidthOrdered(i / 10, j / 10, width - 1);
      LexExtends(Codes(p), Codes(q), [d as int], [e as int]);
    } else {
      LexLast(Codes(p), d as int, e as int);
    }
  }

  lemma {:induction false} LexExtends(a: seq<int>, b: seq<int>, x: seq<int>, y: seq<int>)
    requires |a| == |b| && LexLess(a, b)
    ensures LexLess(a + x, b + y)
  {
    assert (a + x)[1..] == a[1..] + x && (b + y)[1..] == b[1..] + y;
    if a[0] == b[0] {
      LexExtends(a[1..], b[1..], x, y);
    }
  }

  lemma {:induction false} LexLast(a: seq<int>, d: int, e: int)
    requires d < e
    ensures LexLess(a + [d], a + [e])
  {
    if a != [] {
      assert (a + [d])[1..] == a[1..] + [d] && (a + [e])[1..] == a[1..] + [e];
      LexLast(a[1..], d, e);
    }
  }

  function Scaled(d: nat, zeros: nat): nat
  {
    if zeros == 0 then d else 10 * Scaled(d, zeros - 1)
  }

  lemma {:induction false} LeadingDigit(n: nat, d: nat, zeros: nat)
    requires 1 <= d < 10 && Scaled(d, zeros) <= n < Scaled(d + 1, zeros)
    ensures |Decimal(n)| == zeros + 1 && Decimal(n)[0] == HEX_DIGITS[d]
  {
    if zeros > 0 {
      ScaledPositive(d, zeros);
      LeadingDigit(n / 10, d, zeros - 1);
    }
  }

  lemma {:induction false} ScaledPositive(d: nat, zeros: nat)
    requires d >= 1
    ensures Scaled(d, zeros) >= 1 && (zeros > 0 ==> Scaled(d, zeros) >= 10)
  {
    if zeros > 0 {
      ScaledPositive(d, zeros - 1);
    }
  }

  // ---------------------------------------------------------------- hexadecimal

  /** The value of a hexadecimal digit, upper case included, if it is one. */
  function Nibble(ch: char): Option<int>
  {
    if '0' <= ch <= '9' then Some(ch as int - '0' as int)
    else if 'a' <= ch <= 'f' then Some(ch as int - 'a' as int + 10)
    else if 'A' <= ch <= 'F' then Some(ch as int - 'A' as int + 10)
    else None
  }

  lemma NibbleOfDigit(n: int)
    requires 0 <= n < 16
    ensures Nibble(HexDigit(n)) == Some(n)
  {
  }

  lemma PairInjective(x: Byte, y: Byte)
    requires HexDigit(x / 16) == HexDigit(y / 16) && HexDigit(x % 16) == HexDigit(y % 16)
    ensures x == y
  {
    NibbleOfDigit(x / 16);
    NibbleOfDigit(x % 16);
    NibbleOfDigit(y / 16);
    NibbleOfDigit(y % 16);
  }

  lemma {:induction false} HexInjective(a: seq<Byte>, b: seq<Byte>)
    requires Hex(a) == Hex(b)
    ensures a == b
  {
    hide HexDigit;
    if a != [] {
      var m, n := |a| - 1, |b| - 1;
      assert Hex(a)[..2 * m] == Hex(a[..m]) && Hex(b)[..2 * n] == Hex(b[..n]);
      HexInjective(a[..m], b[..n]);
      assert Hex(a)[2 * m] == HexDigit(a[m] / 16) && Hex(b)[2 * m] == HexDigit(b[n] / 16);
      assert Hex(a)[2 * m + 1] == HexDigit(a[m] % 16) && Hex(b)[2 * m + 1] == HexDigit(b[n] % 16);
      PairInjective(a[m], b[n]);
      assert a == a[..m] + [a[m]] && b == b[..n] + [b[n]];
    }
  }
}
