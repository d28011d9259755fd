/** Integers as text: printing in decimal, and reading with the base-0 rules of strtol and its
    relatives (section 7.20.1.4 of C99) under the checks of `_esconf_gvalue_from_string`
    (common/esconf-gvaluefuncs.c).  `long` has 64 bits. */
module IntText {
  import opened Base

  // ---------- printing ----------

  function DigitChar(d: nat): char
    requires d < 10
  {
    '0' + d as char
  }

  function Decimal(n: nat): string {
    if n < 10 then [DigitChar(n)] else Decimal(n / 10) + [DigitChar(n % 10)]
  }

  /** printf with "%d", "%u" and their 64-bit forms. */
  function PrintInt(n: int): string {
    if n < 0 then "-" + Decimal(-n) else Decimal(n)
  }

  // ---------- reading ----------

  /** What a character is worth as a digit; 36 for the others. */
  function DigitValue(c: char): nat {
    if '0' <= c <= '9' then (c - '0') as nat
    else if 'a' <= c <= 'z' then (c - 'a') as nat + 10
    else if 'A' <= c <= 'Z' then (c - 'A') as nat + 10
    else 36
  }

  predicate IsSpace(c: char) {
    c == ' ' || '\t' as int <= c as int <= '\r' as int
  }

  function SkipSpace(s: string, i: nat): (j: nat)
    requires i <= |s|
    ensures i <= j <= |s|
    decreases |s| - i
  {
    if i < |s| && IsSpace(s[i]) then SkipSpace(s, i + 1) else i
  }

  /** The end of the digits that start at `i`. */
  function DigitsEnd(s: string, i: nat, base: nat): (j: nat)
    requires i <= |s|
    ensures i <= j <= |s|
    decreases |s| - i
  {
    if i < |s| && DigitValue(s[i]) < base then DigitsEnd(s, i + 1, base) else i
  }

  function DigitsValue(s: string, i: nat, j: nat, base: nat): nat
    requires i <= j <= |s|
    decreases j
  {
    if i == j then 0 else DigitsValue(s, i, j - 1, base) * base + DigitValue(s[j - 1])
  }

  /** The outcome of a base-0 conversion, before it is forced into a type: sign, magnitude and the
      position after the last digit.  `end` is 0 when there was nothing to convert. */
  datatype Scan = Scan(negative: bool, magnitude: nat, end: nat)

  function ScanDigits(s: string, negative: bool, i: nat): Scan
    requires i <= |s|
  {
    if i < |s| && s[i] == '0' then
      if i + 2 < |s| && s[i + 1] in {'x', 'X'} && DigitValue(s[i + 2]) < 16 then
        var end := DigitsEnd(s, i + 2, 16);
        Scan(negative, DigitsValue(s, i + 2, end, 16), end)
      else
        var end := DigitsEnd(s, i, 8);
        Scan(negative, DigitsValue(s, i, end, 8), end)
    else
      var end := DigitsEnd(s, i, 10);
      if end == i then Scan(false, 0, 0) else Scan(negative, DigitsValue(s, i, end, 10), end)
  }

  function ScanInt(s: string): Scan {
    var i := SkipSpace(s, 0);
    if i < |s| && s[i] in {'+', '-'} then ScanDigits(s, s[i] == '-', i + 1) else ScanDigits(s, false, i)
  }

  /** The number a scan stands for. */
  function Denoted(n: Scan): int {
    var m: int := n.magnitude;
    if n.negative then -m else m
  }

  /** strtol, strtoll: out-of-range values become the nearest end of the range. */
  function ToSigned(n: Scan): int {
    var v := Denoted(n);
    if v < -TWO_63 then -TWO_63 else if v >= TWO_63 then TWO_63 - 1 else v
  }

  /** strtoul, strtoull: too large a magnitude becomes the maximum; a minus sign negates in the
      unsigned type. */
  function ToUnsigned(n: Scan): nat {
    if n.magnitude >= TWO_64 then TWO_64 - 1
    else if n.negative && n.magnitude > 0 then TWO_64 - n.magnitude
    else n.magnitude
  }

  /** The conversion of an unsigned result to the signed 64-bit variable it is kept in. */
  function Wrap64(n: nat): int
    requires n < TWO_64
  {
    if n >= TWO_63 then n - TWO_64 else n
  }

  /** CHECK_CONVERT_STATUS: there is text, and all of it was converted.  The test for ERANGE asks
      for a zero result at the same time, and no out-of-range result is zero. */
  predicate Converted(s: string, n: Scan) {
    s != "" && n.end == |s|
  }

  /** HANDLE_INT. */
  function ReadSigned(s: string, min: int, max: int): Option<int> {
    var n := ScanInt(s);
    if Converted(s, n) && min <= ToSigned(n) <= max then Some(ToSigned(n)) else None
  }

  /** HANDLE_UINT. */
  function ReadUnsigned(s: string, max: int): Option<int> {
    var n := ScanInt(s);
    if Converted(s, n) && 0 <= Wrap64(ToUnsigned(n)) <= max then Some(Wrap64(ToUnsigned(n))) else None
  }

  /** The cases of UINT64 and INT64, which check no range. */
  function ReadUInt64(s: string): Option<int> {
    var n := ScanInt(s);
    if Converted(s, n) then Some(ToUnsigned(n)) else None
  }

  function ReadInt64(s: string): Option<int> {
    var n := ScanInt(s);
    if Converted(s, n) then Some(ToSigned(n)) else None
  }

  // ---------- reading what was printed ----------

  lemma {:induction false} DecimalDigits(n: nat)
    ensures |Decimal(n)| >= 1
    ensures forall i :: 0 <= i < |Decimal(n)| ==> '0' <= Decimal(n)[i] <= '9'
    ensures Decimal(n)[0] == '0' <==> n == 0
  {
    if n >= 10 {
      DecimalDigits(n / 10);
    }
  }

  /** The digits of a number printed at the end of a text have its value. */
  lemma {:induction false} DecimalValue(front: string, n: nat)
    ensures var s := front + Decimal(n); DigitsValue(s, |front|, |s|, 10) == n
    decreases n
  {
    var s := front + Decimal(n);
    if n >= 10 {
      DecimalValue(front, n / 10);
      var shorter := front + Decimal(n / 10);
      assert s == shorter + [DigitChar(n % 10)];
      ValueOfPrefix(shorter, [DigitChar(n % 10)], |front|, |shorter|, 10);
      assert DigitValue(s[|s| - 1]) == n % 10;
    } else {
      assert s[|front|] == DigitChar(n);
      assert DigitsValue(s, |front|, |front|, 10) == 0;
    }
  }

  lemma {:induction false} ValueOfPrefix(s: string, tail: string, i: nat, j: nat, base: nat)
    requires i <= j <= |s|
    ensures DigitsValue(s + tail, i, j, base) == DigitsValue(s, i, j, base)
    decreases j
  {
    if i < j {
      ValueOfPrefix(s, tail, i, j - 1, base);
    }
  }

  lemma {:induction false} AllDigits(s: string, i: nat, base: nat)
    requires i <= |s| && forall k :: i <= k < |s| ==> DigitValue(s[k]) < base
    ensures DigitsEnd(s, i, base) == |s|
    decreases |s| - i
  {
    if i < |s| {
      AllDigits(s, i + 1, base);
    }
  }

  /** A printed number has no prefix that base detection could mistake for octal or hexadecimal. */
  lemma ScanDecimal(front: string, negative: bool, m: nat)
    ensures var s := front + Decimal(m); ScanDigits(s, negative, |front|) == Scan(negative, m, |s|)
  {
    var s := front + Decimal(m);
    DecimalDigits(m);
    DecimalValue(front, m);
    assert s[|front|] == Decimal(m)[0];
    if m == 0 {
      assert Decimal(m) == "0" && |s| == |front| + 1;
      assert DigitValue(s[|front|]) == 0;
      AllDigits(s, |front|, 8);
      assert DigitsValue(s, |front|, |front|, 8) == 0;
    } else {
      forall k | |front| <= k < |s|
        ensures DigitValue(s[k]) < 10
      {
        assert s[k] == Decimal(m)[k - |front|];
      }
      AllDigits(s, |front|, 10);
    }
  }

  lemma ScanPrinted(n: int)
    ensures Converted(PrintInt(n), ScanInt(PrintInt(n))) && Denoted(ScanInt(PrintInt(n))) == n
  {
    var s := PrintInt(n);
    if n < 0 {
      ScanDecimal("-", true, -n);
      assert s[0] == '-' && SkipSpace(s, 0) == 0;
    } else {
      ScanDecimal("", false, n);
      DecimalDigits(n);
      assert s == "" + Decimal(n) && '0' <= s[0] <= '9' && SkipSpace(s, 0) == 0;
    }
  }

  /** Integer text round trip.  UCHAR and UINT are read as unsigned, INT as signed numbers. */
  lemma ReadPrinted(n: int, min: int, max: int)
    ensures 0 <= n <= max < TWO_63 ==> ReadUnsigned(PrintInt(n), max) == Some(n)
    ensures -TWO_63 <= min <= n <= max < TWO_63 ==> ReadSigned(PrintInt(n), min, max) == Some(n)
    ensures 0 <= n < TWO_64 ==> ReadUInt64(PrintInt(n)) == Some(n)
    ensures -TWO_63 <= n < TWO_63 ==> ReadInt64(PrintInt(n)) == Some(n)
  {
    ScanPrinted(n);
  }

  /** What an accepted text stands for: a signed reading is the number written; an unsigned one may
      also be the number plus 2^64. */
  lemma AcceptedIsDenoted(s: string, min: int, max: int)
    requires -TWO_63 < min <= max < TWO_63 - 1
    ensures var n := ScanInt(s);
      ReadSigned(s, min, max) == if Converted(s, n) && min <= Denoted(n) <= max then Some(Denoted(n)) else None
    ensures ReadUnsigned(s, max).Some? ==>
      var v, d := ReadUnsigned(s, max).value, Denoted(ScanInt(s)); v == d || (d < 0 && v == d + TWO_64)
  {
  }

  /** The 64-bit readings refuse no number: INT64 takes the nearest end of its range, UINT64 wraps
      small negative numbers and takes its maximum otherwise. */
  lemma WideReadings(s: string)
    requires Converted(s, ScanInt(s))
    ensures var d := Denoted(ScanInt(s));
      && ReadInt64(s) == Some(if d < -TWO_63 then -TWO_63 else if d >= TWO_63 then TWO_63 - 1 else d)
      && ReadUInt64(s) == Some(if 0 <= d < TWO_64 then d else if -TWO_64 < d < 0 then d + TWO_64 else TWO_64 - 1)
  {
  }

  /** So every unsigned number has a second accepted spelling, with a minus sign. */
  lemma NegativeUnsigned(n: nat, max: int)
    requires 0 < n <= max < TWO_63
    ensures ReadUnsigned(PrintInt(n - TWO_64), max) == Some(n as int)
  {
    ScanPrinted(n - TWO_64);
  }
}
