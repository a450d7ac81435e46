/** Decimal digit strings: what `strconv` and the `time` formatter write and
    read. `Fixed(n, w)` is the zero-padded `w`-digit rendering; `Value` reads a
    digit string back. */
module Digits {
  import opened Text

  predicate IsDigit(c: char) { '0' <= c <= '9' }

  predicate AllDigits(s: string) {
    forall i :: 0 <= i < |s| ==> IsDigit(s[i])
  }

  function DigitValue(c: char): (v: nat)
    requires IsDigit(c)
    ensures v < 10
  {
    c as int - '0' as int
  }

  function DigitChar(d: nat): (c: char)
    requires d < 10
    ensures IsDigit(c) && DigitValue(c) == d
  {
    ('0' as int + d) as char
  }

  function Pow10(n: nat): (p: nat)
    ensures p >= 1
  {
    if n == 0 then 1 else 10 * Pow10(n - 1)
  }

  /** The last `width` decimal digits of `n`, most significant first. */
  function Fixed(n: nat, width: nat): (s: string)
    ensures |s| == width && AllDigits(s)
  {
    if width == 0 then [] else Fixed(n / 10, width - 1) + [DigitChar(n % 10)]
  }

  /** The number a digit string denotes (leading zeros allowed). */
  function Value(s: string): (v: nat)
    requires AllDigits(s)
    ensures v < Pow10(|s|)
  {
    if s == [] then 0 else 10 * Value(s[..|s| - 1]) + DigitValue(s[|s| - 1])
  }

  /** The number of digits in the shortest rendering of `u`. */
  function NumDigits(u: nat): (k: nat)
    ensures 1 <= k && u < Pow10(k)
    ensures k > 1 ==> Pow10(k - 1) <= u
  {
    if u < 10 then 1 else 1 + NumDigits(u / 10)
  }

  function Abs(x: int): nat { if x < 0 then -x else x }

  function Max(a: nat, b: nat): nat { if a < b then b else a }

  /** The `time` package's `appendInt(x, width)`: a minus sign for negative
      numbers, then all digits of |x| zero-padded on the left to `width`. */
  function PadInt(x: int, width: nat): (s: string)
  {
    (if x < 0 then "-" else "") + Fixed(Abs(x), Max(width, NumDigits(Abs(x))))
  }

  /** `strconv.FormatInt(n, 10)`: the shortest decimal rendering. */
  function FormatInt(n: int): (s: string)
  {
    PadInt(n, 0)
  }

  lemma MulBounded(e: int, d: int)
    requires d > 0 && -d < e * d < d
    ensures e == 0
  {
  }

  lemma ModUnique(n: int, d: int, k: int, r: int)
    requires d > 0 && n == k * d + r && 0 <= r < d
    ensures n % d == r && n / d == k
  {
    var q, r' := n / d, n % d;
    var e := k - q;
    assert e * d == r' - r by {
      assert n == q * d + r';
      assert k * d - q * d == (k - q) * d;
    }
    assert e == 0 by {
      MulBounded(e, d);
    }
  }

  lemma ModStep(n: nat, m: nat)
    requires m >= 1
    ensures n % (10 * m) == 10 * ((n / 10) % m) + n % 10
  {
    var q, r := n / 10, n % 10;
    var a, b := q / m, q % m;
    assert q == a * m + b;
    assert n == (10 * m) * a + (10 * b + r) by {
      assert n == 10 * q + r;
      assert 10 * q == 10 * (a * m) + 10 * b;
      assert 10 * (a * m) == (10 * m) * a;
    }
    ModUnique(n, 10 * m, a, 10 * b + r);
  }

  /** Reading back a fixed-width rendering gives the number modulo 10^width. */
  lemma {:induction false} ValueOfFixed(n: nat, width: nat)
    ensures Value(Fixed(n, width)) == n % Pow10(width)
  {
    if width > 0 {
      var s := Fixed(n, width);
      assert s[..|s| - 1] == Fixed(n / 10, width - 1);
      ValueOfFixed(n / 10, width - 1);
      ModStep(n, Pow10(width - 1));
    }
  }

  /** A number below 10^width reads back from its `width`-digit rendering. */
  lemma FixedRoundTrip(n: nat, width: nat)
    requires n < Pow10(width)
    ensures Value(Fixed(n, width)) == n
  {
    ValueOfFixed(n, width);
  }

  /** A number below 10^width needs at most `width` digits. */
  lemma {:induction false} NumDigitsFits(u: nat, width: nat)
    requires 1 <= width && u < Pow10(width)
    ensures NumDigits(u) <= width
  {
    if u >= 10 {
      assert width > 1;
      NumDigitsFits(u / 10, width - 1);
    }
  }

  /** Within its width, `appendInt` of a non-negative number is the plain
      fixed-width rendering. */
  lemma PadIntFixed(x: nat, width: nat)
    requires 1 <= width && x < Pow10(width)
    ensures PadInt(x, width) == Fixed(x, width)
  {
    NumDigitsFits(x, width);
  }

  /** Fixed-width renderings compare as strings exactly as the numbers do. */
  lemma {:induction false} FixedOrder(x: nat, y: nat, width: nat)
    requires x < Pow10(width) && y < Pow10(width)
    ensures LessEq(Fixed(x, width), Fixed(y, width)) <==> x <= y
  {
    if width == 0 {
      assert x == 0 && y == 0;
    } else {
      var fx, fy := Fixed(x / 10, width - 1), Fixed(y / 10, width - 1);
      var cx, cy := DigitChar(x % 10), DigitChar(y % 10);
      LessEqConcat(fx, fy, [cx], [cy]);
      FixedRoundTrip(x / 10, width - 1);
      FixedRoundTrip(y / 10, width - 1);
      FixedOrder(x / 10, y / 10, width - 1);
      assert LessEq([cx], [cy]) <==> x % 10 <= y % 10 by {
        assert [cx][1..] == [] && [cy][1..] == [];
      }
    }
  }
}
