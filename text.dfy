/**
 * The JavaScript string primitives the identifier code is built from:
 * `String(n)` on integers, `padStart` with a one-character pad, `slice(-n)`,
 * and, as their partner, reading a run of decimal digits back as a number.
 *
 * The functions state only their lengths; what the characters are is stated
 * by the lemmas after them, so that callers pay for those facts only where
 * they use them.
 */
module Text {

  /** `c` repeated `n` times. */
  function Repeat(c: char, n: nat): (r: string)
    ensures |r| == n
  {
    if n == 0 then [] else [c] + Repeat(c, n - 1)
  }

  /** `s.padStart(width, fill)`: pads on the left, never truncates. */
  function PadStart(s: string, width: nat, fill: char): (r: string)
    ensures |r| == if |s| < width then width else |s|
  {
    if |s| >= width then s else Repeat(fill, width - |s|) + s
  }

  /**
   * `s.slice(-n)` for `n >= 1`: the last `n` characters, or all of `s` when it
   * is shorter. (`slice(-0)` is `slice(0)`, the whole string, so `n` is not 0.)
   */
  function SliceLast(s: string, n: nat): (r: string)
    requires n >= 1
    ensures |r| == if |s| < n then |s| else n
  {
    if |s| < n then s else s[|s| - n..]
  }

  predicate IsDigit(c: char) {
    '0' <= c <= '9'
  }

  predicate AllDigits(s: string) {
    forall i :: 0 <= i < |s| ==> IsDigit(s[i])
  }

  function DigitChar(d: nat): (c: char)
    requires d < 10
    ensures IsDigit(c) && DigitValue(c) == d
  {
    (d + '0' as int) as char
  }

  /** The value of a decimal digit (0 for any other character). */
  function DigitValue(c: char): (d: nat)
    ensures d < 10
  {
    if IsDigit(c) then c as int - '0' as int else 0
  }

  /** `String(n)` for a non-negative integer: decimal, no leading zeros. */
  function DigitsOf(n: nat): (r: string)
    ensures |r| >= 1
  {
    if n < 10 then [DigitChar(n)] else DigitsOf(n / 10) + [DigitChar(n % 10)]
  }

  /** `String(i)` for any integer: a minus sign in front of a negative one. */
  function IntToString(i: int): string {
    if i < 0 then "-" + DigitsOf(-i) else DigitsOf(i)
  }

  /** The value of a run of decimal digits (the empty run reads as 0). */
  function ParseDigits(s: string): nat {
    if s == [] then 0 else ParseDigits(s[..|s| - 1]) * 10 + DigitValue(s[|s| - 1])
  }

  function Pow10(k: nat): (r: nat)
    ensures r >= 1
  {
    if k == 0 then 1 else 10 * Pow10(k - 1)
  }

  /** The characters after the last `sep` in `s` (all of `s` when it has none). */
  function AfterLast(s: string, sep: char): (r: string)
    ensures |r| <= |s|
  {
    if s == [] || s[|s| - 1] == sep then [] else AfterLast(s[..|s| - 1], sep) + [s[|s| - 1]]
  }

  /** Repeat gives `n` copies of `c` and nothing else. */
  lemma {:induction false} RepeatAll(c: char, n: nat)
    ensures forall i :: 0 <= i < n ==> Repeat(c, n)[i] == c
  {
    if n > 0 {
      RepeatAll(c, n - 1);
    }
  }

  /**
   * `padStart` keeps `s` whole at the end of its result and fills only the
   * characters before it: it never truncates.
   */
  lemma PadStartShape(s: string, width: nat, fill: char)
    ensures var r := PadStart(s, width, fill);
      && r[|r| - |s|..] == s
      && forall i :: 0 <= i < |r| - |s| ==> r[i] == fill
  {
    if |s| < width {
      RepeatAll(fill, width - |s|);
    }
  }

  /** `String(n)` is all digits, without a leading zero unless it is "0". */
  lemma {:induction false} DigitsOfShape(n: nat)
    ensures AllDigits(DigitsOf(n))
    ensures |DigitsOf(n)| > 1 ==> DigitsOf(n)[0] != '0'
  {
    if n >= 10 {
      DigitsOfShape(n / 10);
      if n / 10 < 10 {
        assert DigitsOf(n)[0] == DigitChar(n / 10);
      }
    }
  }

  /** Reading the decimal form of `n` back gives `n`. */
  lemma {:induction false} ParseDigitsOf(n: nat)
    ensures ParseDigits(DigitsOf(n)) == n
  {
    if n >= 10 {
      var s := DigitsOf(n);
      assert s[..|s| - 1] == DigitsOf(n / 10);
      ParseDigitsOf(n / 10);
    }
  }

  /** A leading zero does not change the value of a digit run. */
  lemma {:induction false} ParseLeadingZero(s: string)
    ensures ParseDigits(['0'] + s) == ParseDigits(s)
  {
    if s != [] {
      var t := ['0'] + s;
      assert t[..|t| - 1] == ['0'] + s[..|s| - 1];
      ParseLeadingZero(s[..|s| - 1]);
    }
  }

  /** Any number of leading zeros does not change the value of a digit run. */
  lemma {:induction false} ParseZeroPadded(k: nat, s: string)
    ensures ParseDigits(Repeat('0', k) + s) == ParseDigits(s)
  {
    if k > 0 {
      var rest := Repeat('0', k - 1) + s;
      ParseZeroPadded(k - 1, s);
      assert Repeat('0', k) + s == ['0'] + rest;
      ParseLeadingZero(rest);
    } else {
      assert Repeat('0', k) + s == s;
    }
  }

  /** Zero-padding the decimal form of `n` to any width gives digits that still read back as `n`. */
  lemma ParsePadded(n: nat, width: nat)
    ensures AllDigits(PadStart(DigitsOf(n), width, '0'))
    ensures ParseDigits(PadStart(DigitsOf(n), width, '0')) == n
  {
    var s := DigitsOf(n);
    var r := PadStart(s, width, '0');
    DigitsOfShape(n);
    PadStartShape(s, width, '0');
    if |s| < width {
      ParseZeroPadded(width - |s|, s);
    }
    ParseDigitsOf(n);
    forall i | 0 <= i < |r|
      ensures IsDigit(r[i])
    {
      if i >= |r| - |s| {
        assert r[i] == s[i - (|r| - |s|)];
      }
    }
  }

  /** The decimal form of `n` has at most `k` digits exactly when `n < 10^k`. */
  lemma {:induction false} DigitsOfLength(n: nat, k: nat)
    requires k >= 1
    ensures |DigitsOf(n)| <= k <==> n < Pow10(k)
  {
    if n >= 10 && k > 1 {
      DigitsOfLength(n / 10, k - 1);
    }
  }

  /** The last character of the decimal form of `n` is the digit `n % 10`. */
  lemma LastDigit(n: nat)
    ensures DigitsOf(n)[|DigitsOf(n)| - 1] == DigitChar(n % 10)
  {
  }

  /** A single digit reads as its own value. */
  lemma ParseOneDigit(c: char)
    ensures ParseDigits([c]) == DigitValue(c)
  {
    assert [c][..0] == [];
  }

  /** Two characters read as the first one's value times ten plus the second's. */
  lemma ParseTwoDigits(a: char, b: char)
    ensures ParseDigits([a, b]) == DigitValue(a) * 10 + DigitValue(b)
  {
    assert [a, b][..1] == [a];
    ParseOneDigit(a);
  }

  /** The tens digit and the units digit of `n` make `n % 100`. */
  lemma TensAndUnits(n: nat)
    ensures (n / 10 % 10) * 10 + n % 10 == n % 100
  {
    var h, t := n / 100, n % 100;
    assert n == 100 * h + t;
    assert n / 10 == 10 * h + t / 10;
    assert n / 10 % 10 == t / 10;
    assert n % 10 == t % 10;
  }

  /** The last two characters of the decimal form of `n >= 10` are digits that read as `n % 100`. */
  lemma LastTwoDigits(n: nat)
    requires n >= 10
    ensures |SliceLast(DigitsOf(n), 2)| == 2
    ensures AllDigits(SliceLast(DigitsOf(n), 2))
    ensures ParseDigits(SliceLast(DigitsOf(n), 2)) == n % 100
  {
    var q := n / 10;
    var h := DigitsOf(q);
    var a, b := DigitChar(q % 10), DigitChar(n % 10);
    LastDigit(q);
    var s := h + [b];
    assert DigitsOf(n) == s;
    assert s[|s| - 2..] == [a, b];
    ParseTwoDigits(a, b);
    TensAndUnits(n);
  }

  /** Text after the last separator: the part written after it, when that part has none. */
  lemma {:induction false} AfterLastOf(u: string, sep: char, t: string)
    requires sep !in t
    ensures AfterLast(u + [sep] + t, sep) == t
  {
    var s := u + [sep] + t;
    if t != [] {
      assert s[..|s| - 1] == u + [sep] + t[..|t| - 1];
      AfterLastOf(u, sep, t[..|t| - 1]);
    }
  }
}
