// The few QString facilities the project panel relies on, over plain
// `seq<char>`: decimal formatting (QString::number, QString::arg with a
// zero fill), parsing a digit run (QString::toInt), case-insensitive
// comparison and QString::lastIndexOf.

module QtText {

  /** The largest value of a C++ `int`; QString::toInt fails above it. */
  const IntMax: int := 0x7fff_ffff

  predicate IsDigit(c: char) {
    '0' <= c <= '9'
  }

  predicate AllDigits(s: string) {
    forall i :: 0 <= i < |s| ==> IsDigit(s[i])
  }

  function DigitValue(c: char): nat
    requires IsDigit(c)
  {
    c as int - '0' as int
  }

  function DigitChar(d: nat): (c: char)
    requires d < 10
    ensures IsDigit(c) && DigitValue(c) == d
  {
    ('0' as int + d) as char
  }

  /** QString::number(n): the shortest decimal spelling of `n`. */
  function Decimal(n: nat): (s: string)
    ensures 1 <= |s| && AllDigits(s)
    ensures n < 10 <==> |s| == 1
    ensures s[0] == '0' <==> n == 0
  {
    if n < 10 then [DigitChar(n)] else Decimal(n / 10) + [DigitChar(n % 10)]
  }

  /** The number a run of decimal digits spells, leading zeros allowed. */
  function Value(s: string): nat
    requires AllDigits(s)
  {
    if s == [] then 0 else Value(s[..|s| - 1]) * 10 + DigitValue(s[|s| - 1])
  }

  lemma {:induction false} ValueOfDecimal(n: nat)
    ensures Value(Decimal(n)) == n
  {
    if n >= 10 {
      var s := Decimal(n);
      assert s[..|s| - 1] == Decimal(n / 10);
      ValueOfDecimal(n / 10);
    }
  }

  function Zeros(k: nat): (s: string)
    ensures |s| == k && AllDigits(s)
  {
    if k == 0 then [] else Zeros(k - 1) + "0"
  }

  lemma {:induction false} ValueOfZeros(k: nat)
    ensures Value(Zeros(k)) == 0
  {
    if k > 0 {
      assert Zeros(k)[..k - 1] == Zeros(k - 1);
      ValueOfZeros(k - 1);
    }
  }

  /** Leading zeros do not change the value of a digit run. */
  lemma {:induction false} ValueIgnoresLeadingZeros(k: nat, s: string)
    requires AllDigits(s)
    ensures AllDigits(Zeros(k) + s) && Value(Zeros(k) + s) == Value(s)
  {
    var t := Zeros(k) + s;
    assert AllDigits(t) by {
      forall i | 0 <= i < |t| ensures IsDigit(t[i]) {
        if i < k { assert t[i] == Zeros(k)[i]; } else { assert t[i] == s[i - k]; }
      }
    }
    if s == [] {
      assert t == Zeros(k);
      ValueOfZeros(k);
    } else {
      assert t[..|t| - 1] == Zeros(k) + s[..|s| - 1];
      assert t[|t| - 1] == s[|s| - 1];
      ValueIgnoresLeadingZeros(k, s[..|s| - 1]);
    }
  }

  /** QString("%1").arg(n, width, 10, QChar('0')) for n >= 0: the decimal
      spelling of `n`, padded on the left with '0' up to `width` characters. */
  function ZeroPad(n: nat, width: int): (s: string)
    ensures AllDigits(s)
    ensures |s| == if width > |Decimal(n)| then width else |Decimal(n)|
  {
    var d := Decimal(n);
    var z := Zeros(if width > |d| then width - |d| else 0);
    AllDigitsAppend(z, d);
    z + d
  }

  lemma AllDigitsAppend(a: string, b: string)
    requires AllDigits(a) && AllDigits(b)
    ensures AllDigits(a + b)
  {
    forall i | 0 <= i < |a + b| ensures IsDigit((a + b)[i]) {
      if i >= |a| { assert (a + b)[i] == b[i - |a|]; }
    }
  }

  /** The padded spelling is at least `width` long and spells `n` back. */
  lemma ZeroPadValue(n: nat, width: int)
    ensures |ZeroPad(n, width)| >= width
    ensures Value(ZeroPad(n, width)) == n
  {
    var d := Decimal(n);
    ValueIgnoresLeadingZeros(if width > |d| then width - |d| else 0, d);
    ValueOfDecimal(n);
  }

  lemma ZeroPadOneDigit(c: char, k: nat)
    requires IsDigit(c)
    ensures ZeroPad(DigitValue(c), k + 1) == Zeros(k) + [c]
  {
    assert DigitChar(DigitValue(c)) == c;
  }

  lemma ZeroPadAppendDigit(p: nat, c: char, width: int)
    requires p > 0 && IsDigit(c)
    ensures ZeroPad(p * 10 + DigitValue(c), width + 1) == ZeroPad(p, width) + [c]
  {
    var n := p * 10 + DigitValue(c);
    assert n / 10 == p && n % 10 == DigitValue(c);
    assert DigitChar(DigitValue(c)) == c;
    assert Decimal(n) == Decimal(p) + [c];
  }

  lemma ZeroPadAfterZeros(front: string, c: char)
    requires AllDigits(front) && IsDigit(c)
    requires front == [] || ZeroPad(0, |front|) == front
    ensures ZeroPad(DigitValue(c), |front| + 1) == front + [c]
  {
    if |front| > 0 {
      ZeroPadOneDigit('0', |front| - 1);
    }
    assert front == Zeros(|front|);
    ZeroPadOneDigit(c, |front|);
  }

  /** Padding the value of a digit run to the run's own length gives the
      run back: "0012" spells 12, and 12 padded to four places is "0012". */
  lemma {:induction false} ZeroPadOfValue(ds: string)
    requires ds != [] && AllDigits(ds)
    ensures ZeroPad(Value(ds), |ds|) == ds
  {
    var front, c := ds[..|ds| - 1], ds[|ds| - 1];
    assert ds == front + [c];
    assert Value(ds) == Value(front) * 10 + DigitValue(c);
    if front != [] {
      ZeroPadOfValue(front);
    }
    if Value(front) == 0 {
      ZeroPadAfterZeros(front, c);
    } else {
      ZeroPadAppendDigit(Value(front), c, |front|);
    }
  }

  /** QString("%1").arg(n, width, 10, QChar('0')) for any int: a negative
      number gets its sign in front of the zero padding. */
  function Arg(n: int, width: int): (s: string)
    ensures |s| >= 1 && |s| >= width
    ensures n >= 0 ==> AllDigits(s) && Value(s) == n
    ensures n < 0 ==> s[0] == '-' && AllDigits(s[1..]) && Value(s[1..]) == -n
  {
    if n < 0 then
      ZeroPadValue(-n, width - 1);
      assert ("-" + ZeroPad(-n, width - 1))[1..] == ZeroPad(-n, width - 1);
      "-" + ZeroPad(-n, width - 1)
    else
      ZeroPadValue(n, width);
      ZeroPad(n, width)
  }

  /** QString::toInt on a run of decimal digits: 0 when the value does not
      fit in an `int`, which is how toInt reports a failed conversion. */
  function ToInt(s: string): (r: nat)
    requires AllDigits(s)
    ensures r <= IntMax
    ensures r == Value(s) || (r == 0 && Value(s) > IntMax)
  {
    if Value(s) <= IntMax then Value(s) else 0
  }

  /** The case folding used by Qt::CaseInsensitive, restricted to ASCII. */
  function FoldCase(c: char): char {
    if 'A' <= c <= 'Z' then (c as int + 32) as char else c
  }

  /** QString::compare(a, b, Qt::CaseInsensitive) == 0: two strings of
      the same length whose letters agree once folded match. */
  predicate EqualsIgnoringCase(a: string, b: string): (r: bool)
    ensures r ==> |a| == |b|
    ensures |a| == |b| && (forall i :: 0 <= i < |a| ==> FoldCase(a[i]) == FoldCase(b[i])) ==> r
  {
    |a| == |b| &&
    (a == [] || (FoldCase(a[0]) == FoldCase(b[0]) && EqualsIgnoringCase(a[1..], b[1..])))
  }

  /** Equal ignoring case means equal length and equal letters once folded. */
  lemma {:induction false} EqualsIgnoringCaseAt(a: string, b: string, i: nat)
    requires EqualsIgnoringCase(a, b) && i < |a|
    ensures |a| == |b| && FoldCase(a[i]) == FoldCase(b[i])
  {
    if i > 0 {
      EqualsIgnoringCaseAt(a[1..], b[1..], i - 1);
    }
  }

  /** QString::lastIndexOf(c): the last position holding `c`, or -1. */
  function LastIndexOf(s: string, c: char): (i: int)
    ensures -1 <= i < |s|
    ensures i >= 0 ==> s[i] == c
  {
    LastIndexBefore(s, c, |s|)
  }

  /** The last position below `k` holding `c`, or -1. */
  function LastIndexBefore(s: string, c: char, k: nat): (i: int)
    requires k <= |s|
    ensures -1 <= i < k
    ensures i >= 0 ==> s[i] == c
  {
    if k == 0 then -1
    else if s[k - 1] == c then k - 1
    else LastIndexBefore(s, c, k - 1)
  }

  /** No position after the one lastIndexOf finds holds `c`. */
  lemma LastIndexOfNoneAfter(s: string, c: char)
    ensures forall j :: LastIndexOf(s, c) < j < |s| ==> s[j] != c
  {
    NoneAfterLastBefore(s, c, |s|);
  }

  lemma {:induction false} NoneAfterLastBefore(s: string, c: char, k: nat)
    requires k <= |s|
    ensures forall j :: LastIndexBefore(s, c, k) < j < k ==> s[j] != c
  {
    if k > 0 && s[k - 1] != c {
      NoneAfterLastBefore(s, c, k - 1);
    }
  }

  /** The last position holding `c` is the one with no `c` after it. */
  lemma LastIndexOfUnique(s: string, c: char, i: int)
    requires -1 <= i < |s| && (i >= 0 ==> s[i] == c)
    requires forall j :: i < j < |s| ==> s[j] != c
    ensures LastIndexOf(s, c) == i
  {
    LastIndexBeforeUnique(s, c, i, |s|);
  }

  lemma {:induction false} LastIndexBeforeUnique(s: string, c: char, i: int, k: nat)
    requires -1 <= i < k <= |s| && (i >= 0 ==> s[i] == c)
    requires forall j :: i < j < k ==> s[j] != c
    ensures LastIndexBefore(s, c, k) == i
  {
    if k - 1 > i {
      LastIndexBeforeUnique(s, c, i, k - 1);
    }
  }

  /** A QStringList without repeated entries. */
  predicate NoDuplicates(s: seq<string>) {
    forall i, j :: 0 <= i < j < |s| ==> s[i] != s[j]
  }
}
