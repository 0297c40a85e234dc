/** Values and string helpers shared by every part of the model. */
module Common {

  /** One byte of file or network content. */
  type Byte = b: int | 0 <= b < 256

  type Bytes = seq<Byte>

  /** A JavaScript value that may be `null`/`undefined`. */
  datatype Option<+T> = None | Some(value: T) {
    function GetOr(default: T): T {
      match this
      case Some(v) => v
      case None => default
    }
  }

  /** The result of a synchronous call that may throw: `Fail` carries the error message. */
  datatype Outcome = Pass | Fail(error: string)

  /** `s.split("/").pop()`: the text after the last `/`, or all of `s` when it has none.
      The contract pins it down: the longest suffix of `s` without a `/`. */
  function LastSegment(s: string): (r: string)
    ensures |r| <= |s| && r == s[|s| - |r|..]
    ensures '/' !in r
    ensures |r| < |s| ==> s[|s| - |r| - 1] == '/'
  {
    if |s| == 0 || s[|s| - 1] == '/' then "" else LastSegment(s[..|s| - 1]) + [s[|s| - 1]]
  }

  /** Any suffix with the three properties of `LastSegment` is `LastSegment`. */
  lemma {:induction false} LastSegmentUnique(s: string, r: string)
    requires |r| <= |s| && r == s[|s| - |r|..]
    requires '/' !in r
    requires |r| < |s| ==> s[|s| - |r| - 1] == '/'
    ensures r == LastSegment(s)
  {
  }

  /** The last segment of `a + "/" + b` is `b` whenever `b` has no `/`. */
  lemma LastSegmentAfterSlash(a: string, b: string)
    requires '/' !in b
    ensures LastSegment(a + "/" + b) == b
  {
    var s := a + "/" + b;
    assert s[|s| - |b|..] == b;
    assert |b| < |s| && s[|s| - |b| - 1] == '/';
    LastSegmentUnique(s, b);
  }

  /** Prepending text never changes the last segment of a string that has a `/`. */
  lemma LastSegmentPrepend(a: string, b: string)
    requires '/' in b
    ensures LastSegment(a + b) == LastSegment(b)
  {
    var r := LastSegment(b);
    var s := a + b;
    assert s[|s| - |r|..] == b[|b| - |r|..];
    assert s[|s| - |r| - 1] == b[|b| - |r| - 1];
    LastSegmentUnique(s, r);
  }

  const Digits: string := "0123456789"

  /** The value of a digit character. */
  function DigitValue(c: char): int {
    c as int - '0' as int
  }

  /** The number a string of decimal digits denotes, most significant digit first. */
  function DigitsValue(s: string): int
    decreases |s|
  {
    if s == [] then 0 else DigitsValue(s[..|s| - 1]) * 10 + DigitValue(s[|s| - 1])
  }

  /** The decimal digits of `n`, without leading zeros. */
  function NatDigits(n: nat): (r: string)
    ensures |r| > 0
    ensures forall i :: 0 <= i < |r| ==> r[i] in Digits
    ensures |r| > 1 ==> r[0] != '0'
  {
    if n < 10 then [Digits[n]] else NatDigits(n / 10) + [Digits[n % 10]]
  }

  /** The digits of `n` denote `n`. */
  lemma {:induction false} NatDigitsValue(n: nat)
    ensures DigitsValue(NatDigits(n)) == n
  {
    if n >= 10 {
      NatDigitsValue(n / 10);
      var r := NatDigits(n);
      assert r[..|r| - 1] == NatDigits(n / 10);
      assert DigitValue(Digits[n % 10]) == n % 10;
    } else {
      assert DigitValue(Digits[n]) == n;
    }
  }

  /** `String(n)` for an integer `n`: decimal digits, with a leading `-` when negative. */
  function DecimalString(n: int): (r: string)
    ensures |r| > 0
    ensures '/' !in r
    ensures r[0] == '-' <==> n < 0
    ensures forall i :: (if n < 0 then 1 else 0) <= i < |r| ==> r[i] in Digits
    ensures n < 0 ==> |r| > 1 && r[1] != '0'
    ensures n >= 0 && |r| > 1 ==> r[0] != '0'
  {
    var d := NatDigits(if n < 0 then -n else n);
    assert forall i :: 0 <= i < |d| ==> d[i] != '/';
    assert d[0] in Digits;
    if n < 0 then "-" + d else d
  }

  /** The printed form denotes the number: its digits read back as `|n|`, with `-` exactly for negatives. */
  lemma DecimalStringValue(n: int)
    ensures n >= 0 ==> DigitsValue(DecimalString(n)) == n
    ensures n < 0 ==> DigitsValue(DecimalString(n)[1..]) == -n
  {
    NatDigitsValue(if n < 0 then -n else n);
    if n < 0 {
      assert DecimalString(n)[1..] == NatDigits(-n);
    }
  }

  /** Distinct integers print differently. */
  lemma DecimalStringInjective(n: int, m: int)
    ensures DecimalString(n) == DecimalString(m) ==> n == m
  {
    DecimalStringValue(n);
    DecimalStringValue(m);
  }
}
