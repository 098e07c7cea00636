/** Decimal numerals and the string splitting the codecs are built from. */
module Text {
  import opened Wrappers

  // ----- splitting -----

  /** The parts before and after the first occurrence of `c`. */
  function SplitOnce(s: string, c: char): Option<(string, string)> {
    if s == [] then None
    else if s[0] == c then Some(([], s[1..]))
    else match SplitOnce(s[1..], c)
      case None => None
      case Some((a, b)) => Some(([s[0]] + a, b))
  }

  lemma {:induction false} SplitOnceAt(a: string, c: char, b: string)
    requires c !in a
    ensures SplitOnce(a + [c] + b, c) == Some((a, b))
  {
    var s := a + [c] + b;
    if a == [] {
      assert s[1..] == b;
    } else {
      assert s[1..] == a[1..] + [c] + b;
      SplitOnceAt(a[1..], c, b);
      assert [a[0]] + a[1..] == a;
    }
  }

  /** What is found is the text cut at its first separator. */
  lemma {:induction false} SplitOnceMeans(s: string, c: char)
    ensures SplitOnce(s, c).None? <==> c !in s
    ensures SplitOnce(s, c).Some? ==> var (a, b) := SplitOnce(s, c).value; c !in a && s == a + [c] + b
  {
    if s != [] && s[0] != c {
      SplitOnceMeans(s[1..], c);
      assert s == [s[0]] + s[1..];
    } else if s != [] {
      assert s == [s[0]] + s[1..];
    }
  }

  /** All parts between occurrences of `c`; always at least one. */
  function Split(s: string, c: char): (parts: seq<string>)
    ensures |parts| >= 1
  {
    if s == [] then [[]]
    else
      var rest := Split(s[1..], c);
      if s[0] == c then [[]] + rest
      else [[s[0]] + rest[0]] + rest[1..]
  }

  lemma {:induction false} SplitAt(a: string, c: char, b: string)
    requires c !in a
    ensures Split(a + [c] + b, c) == [a] + Split(b, c)
  {
    var s := a + [c] + b;
    if a == [] {
      assert s[1..] == b;
    } else {
      assert s[1..] == a[1..] + [c] + b;
      SplitAt(a[1..], c, b);
      assert [a[0]] + a[1..] == a;
    }
  }

  lemma {:induction false} SplitWhole(a: string, c: char)
    requires c !in a
    ensures Split(a, c) == [a]
  {
    if a != [] {
      SplitWhole(a[1..], c);
      assert [a[0]] + a[1..] == a;
    }
  }

  /** No part holds the separator. */
  lemma {:induction false} SplitHasNone(s: string, c: char)
    ensures forall i :: 0 <= i < |Split(s, c)| ==> c !in Split(s, c)[i]
  {
    if s != [] {
      SplitHasNone(s[1..], c);
    }
  }

  /** The parts with `c` between them again. */
  function Join(parts: seq<string>, c: char): string
    requires |parts| >= 1
  {
    if |parts| == 1 then parts[0] else parts[0] + [c] + Join(parts[1..], c)
  }

  lemma {:induction false} JoinSplit(s: string, c: char)
    ensures Join(Split(s, c), c) == s
  {
    if s != [] {
      var rest := Split(s[1..], c);
      JoinSplit(s[1..], c);
      if s[0] == c {
        assert Split(s, c)[1..] == rest;
      } else {
        assert Split(s, c)[1..] == rest[1..];
      }
    }
  }

  /** Parts that begin like others, and fewer, join to a proper prefix. */
  lemma {:induction false} JoinPrefix(a: seq<string>, b: seq<string>, c: char)
    requires |a| >= 1 && a < b
    ensures Join(a, c) < Join(b, c)
  {
    if |a| > 1 {
      assert a[1..] < b[1..];
      JoinPrefix(a[1..], b[1..], c);
      assert Join(b, c) == (b[0] + [c]) + Join(b[1..], c);
      assert Join(a, c) == (a[0] + [c]) + Join(a[1..], c);
    } else {
      assert Join(b, c)[..|a[0]|] == a[0];
    }
  }

  /** Joining parts free of the separator and splitting again gives the parts. */
  lemma {:induction false} SplitJoin(parts: seq<string>, c: char)
    requires |parts| >= 1 && forall i :: 0 <= i < |parts| ==> c !in parts[i]
    ensures Split(Join(parts, c), c) == parts
  {
    if |parts| == 1 {
      SplitWhole(parts[0], c);
    } else {
      SplitJoin(parts[1..], c);
      SplitAt(parts[0], c, Join(parts[1..], c));
    }
  }

  // ----- decimal numerals -----

  predicate IsDigit(c: char) { '0' <= c <= '9' }

  predicate AllDigits(s: string) { forall i :: 0 <= i < |s| ==> IsDigit(s[i]) }

  function Digit(n: int): (c: char)
    requires 0 <= n < 10
    ensures IsDigit(c) && DigitValue(c) == n
  {
    '0' + n as char
  }

  function DigitValue(c: char): int
    requires IsDigit(c)
  {
    c as int - '0' as int
  }

  function Decimal(n: nat): (s: string)
    ensures |s| >= 1 && AllDigits(s)
  {
    if n < 10 then [Digit(n)] else Decimal(n / 10) + [Digit(n % 10)]
  }

  /** Zero padding on the left up to a width. */
  function Padded(n: nat, width: nat): (s: string)
    ensures AllDigits(s) && |s| >= 1 && |s| >= width
  {
    var digits := Decimal(n);
    if |digits| >= width then digits else seq(width - |digits|, _ => '0') + digits
  }

  function NumberOf(s: string): nat
    requires AllDigits(s)
  {
    if s == [] then 0 else NumberOf(s[..|s| - 1]) * 10 + DigitValue(s[|s| - 1])
  }

  /** A signed 64-bit numeral: an optional sign, at least one digit, nothing else, no overflow. */
  function ParseI64(s: string): Option<int> {
    var negative := s != [] && s[0] == '-';
    var digits := if s != [] && (s[0] == '-' || s[0] == '+') then s[1..] else s;
    if digits == [] || !AllDigits(digits) then None
    else
      var magnitude: int := NumberOf(digits);
      Checked(if negative then -magnitude else magnitude)
  }

  lemma {:induction false} NumberOfDecimal(n: nat)
    ensures NumberOf(Decimal(n)) == n
  {
    if n >= 10 {
      NumberOfDecimal(n / 10);
      assert Decimal(n)[..|Decimal(n)| - 1] == Decimal(n / 10);
    }
  }

  lemma {:induction false} LeadingZeros(k: nat, s: string)
    requires AllDigits(s)
    ensures AllDigits(seq(k, _ => '0') + s) && NumberOf(seq(k, _ => '0') + s) == NumberOf(s)
  {
    var zeros := seq(k, _ => '0');
    if s != [] {
      LeadingZeros(k, s[..|s| - 1]);
      assert (zeros + s)[..|zeros + s| - 1] == zeros + s[..|s| - 1];
    } else if k > 0 {
      LeadingZeros(k - 1, s);
      assert (zeros + s)[..k - 1] == seq(k - 1, _ => '0') + s;
    } else {
      assert zeros + s == s;
    }
  }

  lemma NumberOfPadded(n: nat, width: nat)
    ensures NumberOf(Padded(n, width)) == n
  {
    NumberOfDecimal(n);
    LeadingZeros(if |Decimal(n)| >= width then 0 else width - |Decimal(n)|, Decimal(n));
  }

  lemma ParsePadded(n: nat, width: nat)
    requires n <= MAX_I64
    ensures ParseI64(Padded(n, width)) == Some(n)
  {
    NumberOfPadded(n, width);
    assert IsDigit(Padded(n, width)[0]);
  }

  /** A numeral below a power of ten has no more digits than the exponent. */
  lemma {:induction false} DecimalLength(n: nat, width: nat)
    requires width >= 1 && n < Pow10(width)
    ensures |Decimal(n)| <= width && |Padded(n, width)| == width
  {
    if n >= 10 {
      DecimalLength(n / 10, width - 1);
    }
  }

  function Pow10(k: nat): nat {
    if k == 0 then 1 else 10 * Pow10(k - 1)
  }

  // ----- parts joined by a last colon -----

  lemma LastColon(x: string, k: string, x': string, k': string)
    requires ':' !in k && ':' !in k' && x + ":" + k == x' + ":" + k'
    ensures x == x' && k == k'
  {
    var s := x + ":" + k;
    assert s[|x|] == ':' && s[|x'|] == ':';
    assert forall i :: |x| < i < |s| ==> s[i] == k[i - |x| - 1];
    assert forall i :: |x'| < i < |s| ==> s[i] == k'[i - |x'| - 1];
    assert x == s[..|x|] && x' == s[..|x'|] && k == s[|x| + 1..] && k' == s[|x'| + 1..];
  }

  lemma NoColon(n: nat)
    ensures ':' !in Decimal(n)
  {
    assert AllDigits(Decimal(n)) && !IsDigit(':');
  }

  /** A text followed by a colon and a numeral tells both apart. */
  lemma NumberedTextsAgree(a: string, m: nat, b: string, n: nat)
    ensures a + ":" + Decimal(m) == b + ":" + Decimal(n) <==> a == b && m == n
  {
    if a + ":" + Decimal(m) == b + ":" + Decimal(n) {
      NoColon(m);
      NoColon(n);
      LastColon(a, Decimal(m), b, Decimal(n));
      NumberOfDecimal(m);
      NumberOfDecimal(n);
    }
  }

  lemma Unsigned(s: string)
    requires AllDigits(s) && s != []
    ensures ParseI64(s) == Checked(NumberOf(s))
  {
    hide NumberOf, Checked;
    assert IsDigit(s[0]);
  }

  lemma Signed(s: string, sign: char)
    requires AllDigits(s) && s != [] && sign in {'+', '-'}
    ensures ParseI64([sign] + s) == Checked(if sign == '-' then -(NumberOf(s) as int) else NumberOf(s))
  {
    assert ([sign] + s)[1..] == s;
    hide NumberOf, Checked;
  }

  /** A 64-bit numeral: digits, at least one, after at most one sign; its value within the range, or nothing. */
  lemma ParseI64Means(s: string)
    ensures AllDigits(s) && s != [] ==> ParseI64(s) == Checked(NumberOf(s)) && ParseI64("+" + s) == Checked(NumberOf(s))
                                        && ParseI64("-" + s) == Checked(-(NumberOf(s) as int))
    ensures ParseI64(s).Some? ==> s != [] && (AllDigits(s) || (|s| > 1 && (s[0] == '+' || s[0] == '-') && AllDigits(s[1..])))
  {
    if AllDigits(s) && s != [] {
      hide ParseI64, NumberOf, Checked;
      Unsigned(s);
      Signed(s, '+');
      Signed(s, '-');
    } else {
      hide NumberOf;
    }
  }
}
