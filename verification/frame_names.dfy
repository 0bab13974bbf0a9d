/**
 * Output file names `frame_{n:04d}.png`: the sequence number written in
 * decimal, padded with leading zeros to at least four digits.  A parser is
 * given as the inverse, and the two are proved to be exact inverses, which
 * makes the naming injective.
 */
module FrameNames {
  import opened Wrappers

  predicate IsDigit(c: char) { '0' <= c <= '9' }

  predicate AllDigits(s: string) { forall i :: 0 <= i < |s| ==> IsDigit(s[i]) }

  function DigitChar(d: nat): (c: char)
    requires d < 10
    ensures IsDigit(c)
  {
    ('0' as int + d) as char
  }

  function DigitValue(c: char): (d: nat)
    requires IsDigit(c)
    ensures d < 10 && DigitChar(d) == c
  {
    c as int - '0' as int
  }

  /** Decimal representation of `n`, without leading zeros ("0" for zero). */
  function Digits(n: nat): (s: string)
    ensures 1 <= |s| && AllDigits(s)
    decreases n
  {
    if n < 10 then [DigitChar(n)] else Digits(n / 10) + [DigitChar(n % 10)]
  }

  /** The number a string of decimal digits denotes (leading zeros allowed). */
  function Value(s: string): nat
    requires AllDigits(s)
    decreases |s|
  {
    if |s| == 0 then 0 else Value(s[..|s| - 1]) * 10 + DigitValue(s[|s| - 1])
  }

  function Zeros(k: nat): (z: string)
    ensures |z| == k && AllDigits(z)
  {
    seq(k, i => '0')
  }

  /** Python's `{:0Wd}` padding: zeros in front up to `width` characters. */
  function ZeroPad(s: string, width: nat): string
  {
    if |s| >= width then s else Zeros(width - |s|) + s
  }

  /** Name of the file written for 1-based plan position `n`. */
  function FrameName(n: nat): string
  {
    "frame_" + ZeroPad(Digits(n), 4) + ".png"
  }

  /**
   * Names are fourteen characters up to frame 9999 (four digits); larger
   * numbers are written in full and give longer names.
   */
  lemma FrameNameLength(n: nat)
    ensures n < 10000 ==> |FrameName(n)| == 14
    ensures n >= 10000 ==> |FrameName(n)| > 14
  {
    ShortNumbersPadToFour(n);
    if n >= 10000 {
      DigitsAtLeastFive(n);
    }
  }

  /**
   * Inverse of FrameName: the sequence number a name stands for, or None
   * when the name is not one FrameName produces (wrong prefix or suffix,
   * non-digits, fewer than four digits, or a superfluous leading zero).
   */
  function ParseFrameName(name: string): Option<nat>
  {
    if |name| < 14 || name[..6] != "frame_" || name[|name| - 4..] != ".png" then None
    else
      var digits := name[6..|name| - 4];
      if AllDigits(digits) && (|digits| == 4 || digits[0] != '0') then Some(Value(digits))
      else None
  }

  function Pow10(k: nat): (p: nat)
    ensures p >= 1
  {
    if k == 0 then 1 else 10 * Pow10(k - 1)
  }

  /** A number below 10^k has at most k decimal digits. */
  lemma {:induction false} DigitsLength(n: nat, k: nat)
    requires 1 <= k && n < Pow10(k)
    ensures |Digits(n)| <= k
    decreases n
  {
    if n >= 10 {
      assert k >= 2;
      assert n / 10 < Pow10(k - 1);
      DigitsLength(n / 10, k - 1);
    }
  }

  lemma ShortNumbersPadToFour(n: nat)
    ensures n < 10000 ==> |Digits(n)| <= 4
  {
    if n < 10000 {
      assert Pow10(4) == 10000;
      DigitsLength(n, 4);
    }
  }

  /** Numbers from 10^k on have more than k digits. */
  lemma {:induction false} DigitsLong(n: nat, k: nat)
    requires n >= Pow10(k)
    ensures |Digits(n)| > k
    decreases k
  {
    if k > 0 {
      assert n >= 10;
      assert n / 10 >= Pow10(k - 1);
      DigitsLong(n / 10, k - 1);
    }
  }

  lemma DigitsAtLeastFive(n: nat)
    requires n >= 10000
    ensures |Digits(n)| > 4
  {
    assert Pow10(4) == 10000;
    DigitsLong(n, 4);
  }

  /** Only zero is written with a leading '0'. */
  lemma {:induction false} DigitsNoLeadingZero(n: nat)
    ensures Digits(n)[0] == '0' ==> n == 0
    decreases n
  {
    if n >= 10 {
      DigitsNoLeadingZero(n / 10);
      assert Digits(n)[0] == Digits(n / 10)[0];
    }
  }

  /** Reading back the digits of `n` gives `n`. */
  lemma {:induction false} ValueOfDigits(n: nat)
    ensures Value(Digits(n)) == n
    decreases n
  {
    if n >= 10 {
      var s := Digits(n);
      assert s[..|s| - 1] == Digits(n / 10);
      ValueOfDigits(n / 10);
    }
  }

  /** Leading zeros do not change the value of a digit string. */
  lemma {:induction false} ValueIgnoresLeadingZeros(k: nat, s: string)
    requires AllDigits(s)
    ensures Value(Zeros(k) + s) == Value(s)
    decreases |s|
  {
    if |s| == 0 {
      ValueOfZeros(k);
      assert Zeros(k) + s == Zeros(k);
    } else {
      var t := s[..|s| - 1];
      assert (Zeros(k) + s)[..|Zeros(k) + s| - 1] == Zeros(k) + t;
      ValueIgnoresLeadingZeros(k, t);
    }
  }

  lemma {:induction false} ValueOfZeros(k: nat)
    ensures Value(Zeros(k)) == 0
  {
    if k > 0 {
      assert Zeros(k)[..k - 1] == Zeros(k - 1);
      ValueOfZeros(k - 1);
    }
  }

  /** Appending a digit commutes with padding to one more character. */
  lemma PadSnoc(x: string, c: char, width: nat)
    requires width >= 1
    ensures ZeroPad(x + [c], width) == ZeroPad(x, width - 1) + [c]
  {
  }

  /**
   * Any digit string of length w is the zero-padded decimal form of its own
   * value at width w.
   */
  lemma {:induction false} PadDigitsOfValue(s: string)
    requires |s| >= 1 && AllDigits(s)
    ensures ZeroPad(Digits(Value(s)), |s|) == s
    decreases |s|
  {
    if |s| == 1 {
      PadSingleDigit(s);
    } else {
      var t := s[..|s| - 1];
      PadDigitsOfValue(t);
      if Value(t) == 0 {
        PadAfterZeros(s);
      } else {
        PadAfterNonZero(s);
      }
    }
  }

  lemma PadSingleDigit(s: string)
    requires |s| == 1 && AllDigits(s)
    ensures ZeroPad(Digits(Value(s)), |s|) == s
  {
    assert Value(s) == DigitValue(s[0]);
  }

  /** The inductive step when the prefix is all zeros. */
  lemma PadAfterZeros(s: string)
    requires |s| >= 2 && AllDigits(s)
    requires var t := s[..|s| - 1]; Value(t) == 0 && ZeroPad(Digits(Value(t)), |t|) == t
    ensures ZeroPad(Digits(Value(s)), |s|) == s
  {
    var t, c := s[..|s| - 1], s[|s| - 1];
    ZeroValuePadsToZeros(t);
    AppendZeroDigit(|t|, c);
    assert s == Zeros(|t|) + [c] by {
      assert s == t + [c];
    }
  }

  /** The inductive step when the prefix has a non-zero value. */
  lemma PadAfterNonZero(s: string)
    requires |s| >= 2 && AllDigits(s)
    requires var t := s[..|s| - 1]; Value(t) >= 1 && ZeroPad(Digits(Value(t)), |t|) == t
    ensures ZeroPad(Digits(Value(s)), |s|) == s
  {
    var t, c := s[..|s| - 1], s[|s| - 1];
    var x := Digits(Value(t));
    assert Value(s) == Value(t) * 10 + DigitValue(c);
    DigitsAppend(Value(t), c);
    PadSnoc(x, c, |s|);
    assert s == t + [c];
  }

  /** A digit string padding "0" is all zeros. */
  lemma ZeroValuePadsToZeros(t: string)
    requires |t| >= 1 && ZeroPad(Digits(0), |t|) == t
    ensures t == Zeros(|t|)
  {
    assert Digits(0) == "0";
    assert t == Zeros(|t| - 1) + "0";
  }

  /** Zeros followed by one digit are that digit padded. */
  lemma AppendZeroDigit(k: nat, c: char)
    requires IsDigit(c)
    ensures AllDigits(Zeros(k) + [c])
    ensures ZeroPad(Digits(Value(Zeros(k) + [c])), k + 1) == Zeros(k) + [c]
  {
    var s := Zeros(k) + [c];
    assert s[..k] == Zeros(k);
    ValueOfZeros(k);
    assert Value(s) == DigitValue(c);
    assert Digits(DigitValue(c)) == [c];
  }

  /** Appending digit c to the decimal form of a positive v gives that of 10v + c. */
  lemma DigitsAppend(v: nat, c: char)
    requires v >= 1 && IsDigit(c)
    ensures Digits(v * 10 + DigitValue(c)) == Digits(v) + [c]
  {
    var n := v * 10 + DigitValue(c);
    assert n / 10 == v && n % 10 == DigitValue(c);
  }

  lemma FrameNameSplit(n: nat)
    ensures var name := FrameName(n);
      name[6..|name| - 4] == ZeroPad(Digits(n), 4)
  {
  }

  /** The name of n parses back to n. */
  lemma FrameNameParses(n: nat)
    ensures ParseFrameName(FrameName(n)) == Some(n)
  {
    var name := FrameName(n);
    FrameNameSplit(n);
    var d := Digits(n);
    var mid := ZeroPad(d, 4);
    assert name[6..|name| - 4] == mid;
    if |d| < 4 {
      ValueIgnoresLeadingZeros(4 - |d|, d);
    } else if |d| > 4 {
      ShortNumbersPadToFour(n);
      DigitsNoLeadingZero(n);
    }
    ValueOfDigits(n);
  }

  /** A name that parses to n is the name of n. */
  lemma ParsedNameIsFrameName(name: string, n: nat)
    requires ParseFrameName(name) == Some(n)
    ensures name == FrameName(n)
  {
    var mid := name[6..|name| - 4];
    var d := Digits(n);
    PadDigitsOfValue(mid);
    assert ZeroPad(d, |mid|) == mid;
    assert ZeroPad(d, 4) == mid;
    assert name == name[..6] + mid + name[|name| - 4..];
  }

  /**
   * ParseFrameName and FrameName are inverse to each other, in both
   * directions: a name parses to `n` exactly when it is the name of `n`.
   */
  lemma FrameNameRoundTrip(name: string, n: nat)
    ensures ParseFrameName(name) == Some(n) <==> name == FrameName(n)
  {
    if name == FrameName(n) {
      FrameNameParses(n);
    }
    if ParseFrameName(name) == Some(n) {
      ParsedNameIsFrameName(name, n);
    }
  }

  /** Different sequence numbers never share a file name. */
  lemma FrameNameInjective(a: nat, b: nat)
    ensures FrameName(a) == FrameName(b) ==> a == b
  {
    FrameNameRoundTrip(FrameName(a), a);
    FrameNameRoundTrip(FrameName(a), b);
  }
}
