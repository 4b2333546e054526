/** Decimal numerals as Rust's formatter prints them and its parsers read them. */
module Numerals {

  predicate IsDigit(c: char) {
    '0' <= c <= '9'
  }

  function Digit(d: int): (c: char)
    requires 0 <= d < 10
    ensures IsDigit(c) && DigitValue(c) == d
  {
    '0' + d as char
  }

  function DigitValue(c: char): (d: int)
    requires IsDigit(c)
    ensures 0 <= d < 10
  {
    c as int - '0' as int
  }

  predicate AllDigits(s: string) {
    forall i :: 0 <= i < |s| ==> IsDigit(s[i])
  }

  function Decimal(n: nat): (s: string)
    ensures s != [] && AllDigits(s)
  {
    if n < 10 then [Digit(n)] else Decimal(n / 10) + [Digit(n % 10)]
  }

  function ValueOf(s: string): nat
    requires AllDigits(s)
  {
    if s == [] then 0 else 10 * ValueOf(s[..|s| - 1]) + DigitValue(s[|s| - 1])
  }

  lemma {:induction false} DecimalReadsBack(n: nat)
    ensures ValueOf(Decimal(n)) == n
  {
    if n >= 10 {
      DecimalReadsBack(n / 10);
      var s := Decimal(n);
      assert s[..|s| - 1] == Decimal(n / 10);
    }
  }

  /** A numeral has as many digits as its magnitude needs. */
  lemma {:induction false} DecimalWidth(n: nat)
    ensures n < 10 ==> |Decimal(n)| == 1
    ensures 10 <= n < 100 ==> |Decimal(n)| == 2
    ensures 100 <= n < 1000 ==> |Decimal(n)| == 3
    ensures 1000 <= n < 10_000 ==> |Decimal(n)| == 4
    ensures 10_000 <= n ==> |Decimal(n)| >= 5
  {
    if n >= 10 {
      DecimalWidth(n / 10);
    }
  }

  function Zeros(n: nat): (s: string)
    ensures |s| == n && forall i :: 0 <= i < n ==> s[i] == '0'
  {
    seq(n, _ => '0')
  }

  /** `{n:0width}`: zero padding after the sign, never truncating. */
  function Padded(n: int, width: nat): (s: string)
    ensures |s| >= width
  {
    var digits := Decimal(if n < 0 then -n else n);
    var sign := if n < 0 then "-" else "";
    var used := |sign| + |digits|;
    sign + Zeros(if used < width then width - used else 0) + digits
  }

  lemma PaddedStep(n: int, width: nat)
    requires n >= 0 && width >= 1
    ensures Padded(n, width + 1) == Padded(n / 10, width) + [Digit(n % 10)]
  {
  }

  lemma Padded2(n: int)
    requires 0 <= n < 100
    ensures Padded(n, 2) == [Digit(n / 10), Digit(n % 10)]
  {
    PaddedStep(n, 1);
  }

  lemma Padded3(n: int)
    requires 0 <= n < 1000
    ensures Padded(n, 3) == [Digit(n / 100), Digit(n / 10 % 10), Digit(n % 10)]
  {
    PaddedStep(n, 2);
    Padded2(n / 10);
  }

  /** A year outside 0..9999 does not print as four digits and a separator. */
  lemma PaddedOutOfRange(n: int)
    requires n < 0 || n >= 10_000
    ensures var s := Padded(n, 4); s[0] == '-' || (|s| >= 5 && IsDigit(s[4]))
  {
    DecimalWidth(if n < 0 then -n else n);
  }

  lemma {:induction false} PaddedReadsBack(n: int, width: nat)
    requires n >= 0
    ensures AllDigits(Padded(n, width)) && ValueOf(Padded(n, width)) == n
    decreases width
  {
    if |Decimal(n)| < width {
      PaddedReadsBack(n, width - 1);
      assert Padded(n, width) == "0" + Padded(n, width - 1);
      LeadingZero(Padded(n, width - 1));
    } else {
      assert Padded(n, width) == Decimal(n);
      DecimalReadsBack(n);
    }
  }

  lemma {:induction false} LeadingZero(s: string)
    requires AllDigits(s)
    ensures AllDigits("0" + s) && ValueOf("0" + s) == ValueOf(s)
  {
    var t := "0" + s;
    if s == [] {
      assert t[..0] == [];
    } else {
      LeadingZero(s[..|s| - 1]);
      assert t[..|t| - 1] == "0" + s[..|s| - 1];
    }
  }

  /** Printing a numeral's value in its own width gives the numeral. */
  lemma {:induction false} ValuePrintsBack(s: string)
    requires s != [] && AllDigits(s)
    ensures Padded(ValueOf(s), |s|) == s
  {
    var init := s[..|s| - 1];
    assert ValueOf(s) / 10 == ValueOf(init) && ValueOf(s) % 10 == DigitValue(s[|s| - 1]);
    if |s| == 1 {
      assert Decimal(ValueOf(s)) == s;
    } else {
      ValuePrintsBack(init);
      PaddedStep(ValueOf(s), |init|);
    }
  }

  lemma PaddedLength(n: int)
    ensures 0 <= n < 100 ==> |Padded(n, 2)| == 2
    ensures 0 <= n < 1000 ==> |Padded(n, 3)| == 3
    ensures 0 <= n < 10_000 ==> |Padded(n, 4)| == 4
  {
    if n >= 0 {
      DecimalWidth(n);
    }
  }
}
