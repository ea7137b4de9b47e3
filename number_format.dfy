/** Decimal rendering of line numbers, as the `{:6}` format specification
    writes a `usize`: the decimal digits, right-justified with spaces to a
    minimum width of six, never truncated. */
module NumberFormat {

  predicate IsDigit(c: char) {
    '0' <= c <= '9'
  }

  /** The character of decimal digit `d`. */
  function DigitChar(d: nat): (c: char)
    requires d < 10
    ensures IsDigit(c) && c as int - '0' as int == d
  {
    (('0' as int) + d) as char
  }

  /** The value of a string of decimal digits, most significant first. */
  function Value(s: string): nat
    requires forall k :: 0 <= k < |s| ==> IsDigit(s[k])
  {
    if s == [] then 0 else Value(s[..|s| - 1]) * 10 + DigitValue(s[|s| - 1])
  }

  function DigitValue(c: char): nat
    requires IsDigit(c)
  {
    c as int - '0' as int
  }

  /** The shortest decimal rendering of `n`: at least one digit, and no
      leading zero unless `n` is zero itself. */
  function Digits(n: nat): (s: string)
    ensures |s| >= 1
    ensures forall k :: 0 <= k < |s| ==> IsDigit(s[k])
    ensures s[0] == '0' ==> n == 0
    decreases n
  {
    if n < 10 then [DigitChar(n)] else Digits(n / 10) + [DigitChar(n % 10)]
  }

  /** Reading back the digits gives the number. */
  lemma {:induction false} ValueOfDigits(n: nat)
    ensures Value(Digits(n)) == n
    decreases n
  {
    if n >= 10 {
      var s := Digits(n);
      assert s[..|s| - 1] == Digits(n / 10);
      ValueOfDigits(n / 10);
    }
  }

  function Pow10(k: nat): (p: nat)
    ensures p >= 1
  {
    if k == 0 then 1 else 10 * Pow10(k - 1)
  }

  /** `n` needs at most `k` digits exactly when it is below 10^k. */
  lemma {:induction false} DigitsLength(n: nat, k: nat)
    requires k >= 1
    ensures |Digits(n)| <= k <==> n < Pow10(k)
    decreases n
  {
    if n < 10 {
      PowAtLeastTen(k);
    } else if k == 1 {
      assert |Digits(n)| == |Digits(n / 10)| + 1;
    } else {
      assert |Digits(n)| == |Digits(n / 10)| + 1;
      DigitsLength(n / 10, k - 1);
      assert n / 10 < Pow10(k - 1) <==> n < 10 * Pow10(k - 1);
    }
  }

  lemma {:induction false} PowAtLeastTen(k: nat)
    requires k >= 1
    ensures Pow10(k) >= 10
  {
    if k > 1 {
      PowAtLeastTen(k - 1);
    }
  }

  function Spaces(k: nat): (s: string)
    ensures |s| == k
    ensures forall i :: 0 <= i < k ==> s[i] == ' '
  {
    seq(k, _ => ' ')
  }

  function Max(a: int, b: int): int {
    if a < b then b else a
  }

  /** `d` right-justified to width `w`: spaces are put in front of it until
      it is `w` wide; a text already that wide is left as it is. */
  function PadTo(d: string, w: nat): string
    decreases w - |d|
  {
    if |d| >= w then d else PadTo([' '] + d, w)
  }

  /** Padding puts exactly the missing number of spaces in front. */
  lemma {:induction false} PadToSpaces(d: string, w: nat)
    ensures PadTo(d, w) == if |d| < w then Spaces(w - |d|) + d else d
    decreases w - |d|
  {
    if |d| < w {
      PadToSpaces([' '] + d, w);
      assert [' '] + d == Spaces(1) + d;
      if |d| + 1 < w {
        assert Spaces(w - |d| - 1) + ([' '] + d) == Spaces(w - |d|) + d by {
          assert Spaces(w - |d| - 1) + [' '] == Spaces(w - |d|);
        }
      }
    }
  }

  /** `{:6}` applied to `n`: the digits of `n`, preceded by as many spaces as
      bring the width up to six, and by none when the digits are wider. */
  function Pad6(n: nat): string {
    PadTo(Digits(n), 6)
  }

  /** Pad6(n) is max(6, digits of n) wide, ends with the digits of `n` and
      holds only spaces before them. */
  lemma Pad6Shape(n: nat)
    ensures |Pad6(n)| == Max(6, |Digits(n)|)
    ensures Pad6(n)[|Pad6(n)| - |Digits(n)|..] == Digits(n)
    ensures forall k :: 0 <= k < |Pad6(n)| - |Digits(n)| ==> Pad6(n)[k] == ' '
  {
    PadToSpaces(Digits(n), 6);
  }

  /** Every number below one million fills exactly six columns; larger
      numbers are written in full, wider than six. */
  lemma Pad6Width(n: nat)
    ensures n < 1000000 <==> |Pad6(n)| == 6
    ensures n >= 1000000 ==> Pad6(n) == Digits(n)
  {
    Pad6Shape(n);
    DigitsLength(n, 6);
    assert Pow10(6) == 1000000;
  }

  /** Drops the spaces at the front of `s`. */
  function TrimLeadingSpaces(s: string): (t: string)
    ensures |t| <= |s| && t == s[|s| - |t|..]
    ensures t == [] || t[0] != ' '
  {
    if s != [] && s[0] == ' ' then TrimLeadingSpaces(s[1..]) else s
  }

  lemma {:induction false} TrimSpacesBefore(k: nat, d: string)
    requires d != [] && d[0] != ' '
    ensures TrimLeadingSpaces(Spaces(k) + d) == d
  {
    if k > 0 {
      assert (Spaces(k) + d)[1..] == Spaces(k - 1) + d;
      TrimSpacesBefore(k - 1, d);
    }
  }

  /** Pad6 can be undone: strip the padding and read the digits back. */
  lemma Pad6RoundTrip(n: nat)
    ensures TrimLeadingSpaces(Pad6(n)) == Digits(n)
    ensures Value(TrimLeadingSpaces(Pad6(n))) == n
  {
    var d := Digits(n);
    assert Pad6(n) == if |d| < 6 then Spaces(6 - |d|) + d else d by {
      PadToSpaces(d, 6);
    }
    if |d| < 6 {
      TrimSpacesBefore(6 - |d|, d);
    }
    ValueOfDigits(n);
  }
}
