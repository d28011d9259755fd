/** What the base-0 conversions read, against numerals written in base 8, 10 and 16 (section 7.20.1.4
    of C99): spaces, a sign, a prefix, digits of either case, and nothing after them. */
module Numerals {
  import opened Base
  import opened Values
  import opened IntText
  import opened XmlText
  import opened Bus

  // ---------- writing numerals ----------

  const LOWER_DIGITS := "0123456789abcdef"
  const UPPER_DIGITS := "0123456789ABCDEF"

  predicate IsDigit(c: char, base: nat, d: nat) {
    d < base <= 16 && (c == LOWER_DIGITS[d] || c == UPPER_DIGITS[d])
  }

  function Digit(d: nat, upper: bool): (c: char)
    requires d < 16
    ensures IsDigit(c, 16, d)
  {
    (if upper then UPPER_DIGITS else LOWER_DIGITS)[d]
  }

  predicate NoDigit(c: char, base: nat) {
    forall d: nat :: d < base ==> !IsDigit(c, base, d)
  }

  predicate IsBase(base: nat) {
    base == 8 || base == 10 || base == 16
  }

  /** The last digit of a number, and the number without it. */
  function LastDigit(n: nat, base: nat): (d: nat)
    requires IsBase(base)
    ensures d < base && (n < base ==> d == n)
  {
    if base == 8 then n % 8 else if base == 10 then n % 10 else n % 16
  }

  function Shortened(n: nat, base: nat): (m: nat)
    requires IsBase(base)
    ensures m <= n && (n >= base ==> 0 < m < n)
  {
    if base == 8 then n / 8 else if base == 10 then n / 10 else n / 16
  }

  /** `s` is a way to write `n` in this base, with or without leading zeros. */
  predicate Spells(s: string, base: nat, n: nat)
    requires IsBase(base)
    decreases |s|
  {
    s != [] &&
    var last := |s| - 1;
    if last == 0 then IsDigit(s[0], base, n)
    else IsDigit(s[last], base, LastDigit(n, base)) && Spells(s[..last], base, Shortened(n, base))
  }

  /** The usual way. */
  function Numeral(n: nat, base: nat, upper: bool): string
    requires IsBase(base)
  {
    var c := Digit(LastDigit(n, base), upper);
    if n < base then [c] else Numeral(Shortened(n, base), base, upper) + [c]
  }

  lemma {:induction false} NumeralSpells(n: nat, base: nat, upper: bool)
    requires IsBase(base)
    ensures Spells(Numeral(n, base, upper), base, n)
    ensures Numeral(n, base, upper)[0] == '0' <==> n == 0
  {
    var c := Digit(LastDigit(n, base), upper);
    if n >= base {
      var front := Numeral(Shortened(n, base), base, upper);
      NumeralSpells(Shortened(n, base), base, upper);
      assert (front + [c])[..|front|] == front && (front + [c])[0] == front[0];
    } else {
      assert IsDigit(c, base, n);
    }
  }

  /** What the writer prints is the decimal numeral. */
  lemma {:induction false} DecimalIsNumeral(n: nat)
    ensures Decimal(n) == Numeral(n, 10, false)
  {
    if n >= 10 {
      DecimalIsNumeral(n / 10);
    }
  }

  lemma PrintedIsNumeral(n: int)
    ensures PrintInt(n) == if n < 0 then "-" + Numeral(-n, 10, false) else Numeral(n, 10, false)
  {
    DecimalIsNumeral(if n < 0 then -n else n);
  }

  /** The texts of the values that are written: numbers in decimal, CHAR always as 0. */
  lemma ScalarsWritten(env: Env, s: Scalar)
    ensures match ScalarText(env, s)
      case None => IsShort(s)
      case Some(text) =>
        match ContentOf(s)
        case Number(n) => text == PrintInt(if s.Char? then 0 else n)
        case Real(r) => text == env.printReal(r)
        case Text(x) => text == x
        case Truth(b) => text == if b then "true" else "false"
  {
  }

  const SIGNS: set<string> := {"", "+", "-"}

  predicate IsBlank(c: char) {
    c == ' ' || c == '\t' || c == '\n' || c == '\U{B}' || c == '\U{C}' || c == '\r'
  }

  predicate Blank(s: string) {
    forall i :: 0 <= i < |s| ==> IsBlank(s[i])
  }

  /** How a base is recognised. */
  predicate Prefixed(prefix: string, digits: string, base: nat)
    ensures Prefixed(prefix, digits, base) ==> IsBase(base)
  {
    || (base == 16 && (prefix == "0x" || prefix == "0X"))
    || (prefix == "" && digits != [] && base == if digits[0] == '0' then 8 else 10)
  }

  /** `text` writes `n`: the magnitude `m` in `base`, with a sign. */
  predicate Writes(text: string, spaces: string, sign: string, prefix: string, digits: string, base: nat, m: nat) {
    && text == spaces + sign + prefix + digits
    && Blank(spaces) && sign in SIGNS && Prefixed(prefix, digits, base) && Spells(digits, base, m)
  }

  function SignedNumber(sign: string, m: nat): int {
    var n: int := m;
    if sign == "-" then -n else n
  }

  // ---------- digits ----------

  lemma DigitWorth(c: char, base: nat, d: nat)
    requires d < base <= 16
    ensures IsDigit(c, base, d) <==> DigitValue(c) == d
  {
  }

  lemma AppendDigit(m: nat, base: nat, d: nat) returns (n: nat)
    requires IsBase(base) && d < base
    ensures LastDigit(n, base) == d && Shortened(n, base) == m
  {
    if base == 8 {
      n := m * 8 + d;
      assert n % 8 == d;
    } else if base == 10 {
      n := m * 10 + d;
      assert n % 10 == d;
    } else {
      n := m * 16 + d;
      assert n % 16 == d;
    }
  }

  lemma ValueOfOne(s: string, i: nat, base: nat, n: nat)
    requires i < |s| && IsBase(base) && IsDigit(s[i], base, n)
    ensures DigitsValue(s, i, i + 1, base) == n && DigitValue(s[i]) < base
  {
    DigitWorth(s[i], base, n);
    assert DigitsValue(s, i, i, base) == 0;
  }

  lemma ValueGrows(s: string, i: nat, j: nat, base: nat, n: nat)
    requires i < j <= |s| && IsBase(base)
    requires DigitsValue(s, i, j - 1, base) == Shortened(n, base) && DigitValue(s[j - 1]) == LastDigit(n, base)
    ensures DigitsValue(s, i, j, base) == n
  {
    if base == 8 {
      assert DigitsValue(s, i, j, 8) == n / 8 * 8 + n % 8;
    } else if base == 10 {
      assert DigitsValue(s, i, j, 10) == n / 10 * 10 + n % 10;
    } else {
      assert DigitsValue(s, i, j, 16) == n / 16 * 16 + n % 16;
    }
  }

  lemma NoDigitWorth(c: char, base: nat)
    requires base <= 16
    ensures NoDigit(c, base) <==> DigitValue(c) >= base
  {
    if DigitValue(c) < base {
      DigitWorth(c, base, DigitValue(c));
    }
    forall d: nat | d < base
      ensures IsDigit(c, base, d) ==> DigitValue(c) == d
    {
      DigitWorth(c, base, d);
    }
  }

  /** Digits that start at `i` and end before `j` are worth what they spell. */
  lemma {:induction false} SpelledValue(s: string, i: nat, j: nat, base: nat, n: nat)
    requires i < j <= |s| && IsBase(base) && Spells(s[i..j], base, n)
    ensures DigitsValue(s, i, j, base) == n
    ensures forall k :: i <= k < j ==> DigitValue(s[k]) < base
    decreases j
  {
    var digits := s[i..j];
    if j == i + 1 {
      ValueOfOne(s, i, base, n);
    } else {
      assert digits[..|digits| - 1] == s[i..j - 1];
      DigitWorth(s[j - 1], base, LastDigit(n, base));
      SpelledValue(s, i, j - 1, base, Shortened(n, base));
      ValueGrows(s, i, j, base, n);
    }
  }

  lemma {:induction false} EndOfDigits(s: string, i: nat, j: nat, base: nat)
    requires i <= j <= |s| && forall k :: i <= k < j ==> DigitValue(s[k]) < base
    requires j == |s| || DigitValue(s[j]) >= base
    ensures DigitsEnd(s, i, base) == j
    decreases j - i
  {
    if i < j {
      EndOfDigits(s, i + 1, j, base);
    }
  }

  lemma {:induction false} EndOfSpaces(s: string, i: nat, j: nat)
    requires i <= j <= |s| && Blank(s[i..j]) && (j == |s| || !IsSpace(s[j]))
    ensures SkipSpace(s, i) == j
    decreases j - i
  {
    if i < j {
      assert s[i..j][0] == s[i] && s[i..j][1..] == s[i + 1..j];
      EndOfSpaces(s, i + 1, j);
    }
  }

  // ---------- scanning ----------

  /** A text behind the digits goes on with something else, and does not turn the octal zero into the
      prefix of a hexadecimal number. */
  predicate Ends(digits: string, base: nat, rest: string) {
    && (rest != [] ==> NoDigit(rest[0], base))
    && !(base == 8 && digits == "0" && |rest| >= 2 && rest[0] in {'x', 'X'} && !NoDigit(rest[1], 16))
  }

  /** The digits part, after spaces and sign. */
  lemma ScansDigits(front: string, negative: bool, prefix: string, digits: string, base: nat, m: nat, rest: string)
    requires Prefixed(prefix, digits, base) && Spells(digits, base, m) && Ends(digits, base, rest)
    ensures var s := front + prefix + digits + rest;
      ScanDigits(s, negative, |front|) == Scan(negative, m, |s| - |rest|)
  {
    if base == 16 {
      ScansHexadecimal(front, negative, prefix, digits, m, rest);
    } else {
      assert front + prefix == front;
      ScansPlain(front, negative, digits, base, m, rest);
    }
  }

  lemma ScansHexadecimal(front: string, negative: bool, prefix: string, digits: string, m: nat, rest: string)
    requires (prefix == "0x" || prefix == "0X") && Spells(digits, 16, m) && (rest != [] ==> NoDigit(rest[0], 16))
    ensures var s := front + prefix + digits + rest;
      ScanDigits(s, negative, |front|) == Scan(negative, m, |s| - |rest|)
  {
    var s, i := front + prefix + digits + rest, |front|;
    DigitsScanned(front + prefix, digits, 16, m, rest);
    assert s[i] == prefix[0] && s[i + 1] == prefix[1];
  }

  /** Without prefix: octal if the first digit is 0, decimal otherwise. */
  lemma ScansPlain(front: string, negative: bool, digits: string, base: nat, m: nat, rest: string)
    requires Prefixed("", digits, base) && base != 16 && Spells(digits, base, m) && Ends(digits, base, rest)
    ensures var s := front + digits + rest;
      ScanDigits(s, negative, |front|) == Scan(negative, m, |s| - |rest|)
  {
    var s, i := front + digits + rest, |front|;
    DigitsScanned(front, digits, base, m, rest);
    assert s[i] == digits[0];
    if base == 8 {
      assert s[i..i + |digits|] == digits && s[i + |digits|..] == rest;
      OctalIsOctal(s, i, digits, rest);
    }
  }

  lemma DigitsScanned(front: string, digits: string, base: nat, m: nat, rest: string)
    requires IsBase(base) && Spells(digits, base, m) && (rest != [] ==> NoDigit(rest[0], base))
    ensures var s, i := front + digits + rest, |front|;
      var j := i + |digits|;
      && DigitsEnd(s, i, base) == j && DigitsValue(s, i, j, base) == m
      && forall k :: i <= k < j ==> DigitValue(s[k]) < base
  {
    var s, i := front + digits + rest, |front|;
    var j := i + |digits|;
    assert s[i..j] == digits;
    if rest != [] {
      assert s[j] == rest[0];
      NoDigitWorth(rest[0], base);
    }
    SpelledValue(s, i, j, base, m);
    EndOfDigits(s, i, j, base);
  }

  lemma OctalIsOctal(s: string, i: nat, digits: string, rest: string)
    requires i + |digits| + |rest| == |s| && s[i..i + |digits|] == digits && s[i + |digits|..] == rest
    requires digits != [] && Ends(digits, 8, rest)
    requires forall k :: i <= k < i + |digits| ==> DigitValue(s[k]) < 8
    ensures !(i + 2 < |s| && s[i] == '0' && s[i + 1] in {'x', 'X'} && DigitValue(s[i + 2]) < 16)
  {
    if i + 2 < |s| && s[i] == '0' && s[i + 1] in {'x', 'X'} {
      assert |digits| == 1 && digits == [s[i]];
      assert s[i + 1] == rest[0] && s[i + 2] == rest[1];
      NoDigitWorth(rest[1], 16);
    }
  }

  lemma NumeralStarts(prefix: string, digits: string, base: nat, m: nat)
    requires Prefixed(prefix, digits, base) && Spells(digits, base, m)
    ensures prefix + digits != [] && '0' <= (prefix + digits)[0] <= '9'
  {
    if prefix == "" {
      assert (prefix + digits)[0] == digits[0];
      SpelledValue(digits, 0, |digits|, base, m) by {
        assert digits[0..|digits|] == digits;
      }
    } else {
      assert (prefix + digits)[0] == prefix[0];
    }
  }

  /** Spaces, sign, prefix, digits, and then something that does not belong to the number. */
  lemma ScansNumeral(spaces: string, sign: string, prefix: string, digits: string, base: nat, m: nat, rest: string)
    requires Writes(spaces + sign + prefix + digits, spaces, sign, prefix, digits, base, m) && Ends(digits, base, rest)
    ensures var s := spaces + sign + prefix + digits + rest;
      ScanInt(s) == Scan(sign == "-", m, |s| - |rest|)
  {
    NumeralStarts(prefix, digits, base, m);
    var number := prefix + digits + rest;
    assert number[0] == (prefix + digits)[0];
    assert spaces + sign + prefix + digits + rest == spaces + sign + number;
    SkipsToNumber(spaces, sign, number);
    ScansDigits(spaces + sign, sign == "-", prefix, digits, base, m, rest);
  }

  lemma SkipsToNumber(spaces: string, sign: string, number: string)
    requires Blank(spaces) && sign in SIGNS && number != [] && '0' <= number[0] <= '9'
    ensures var s := spaces + sign + number; ScanInt(s) == ScanDigits(s, sign == "-", |spaces + sign|)
  {
    var s, i := spaces + sign + number, |spaces|;
    assert s[0..i] == spaces && s[i + |sign|] == number[0];
    if sign != "" {
      assert s[i] == sign[0];
    }
    EndOfSpaces(s, 0, i);
  }

  // ---------- reading ----------

  function Within(n: int, min: int, max: int): Option<int> {
    if min <= n <= max then Some(n) else None
  }

  function Clamped(n: int, min: int, max: int): int {
    if n < min then min else if n > max then max else n
  }

  /** What an unsigned reading makes of a number: negative ones wrap around at 2^64. */
  function WithinUnsigned(n: int, max: int): Option<int> {
    if n < 0 && n > -TWO_64 then Within(n + TWO_64, 0, max) else Within(n, 0, max)
  }

  /** A numeral in base 8, 10 or 16 is read as its number: checked against the range, wrapped around if
      the type is unsigned, cut off at the ends of the range by the 64-bit conversions. */
  lemma NumeralReads(text: string, spaces: string, sign: string, prefix: string, digits: string, base: nat, m: nat,
                     min: int, max: int)
    requires Writes(text, spaces, sign, prefix, digits, base, m)
    ensures var n := SignedNumber(sign, m);
      && (-TWO_63 < min && max < TWO_63 - 1 ==> ReadSigned(text, min, max) == Within(n, min, max))
      && (max < TWO_63 ==> ReadUnsigned(text, max) == WithinUnsigned(n, max))
      && ReadInt64(text) == Some(Clamped(n, -TWO_63, TWO_63 - 1))
      && ReadUInt64(text) == Some(if -TWO_64 < n < 0 then n + TWO_64 else if 0 <= n < TWO_64 then n else TWO_64 - 1)
  {
    ScansNumeral(spaces, sign, prefix, digits, base, m, "");
    assert spaces + sign + prefix + digits + "" == text;
    NumeralStarts(prefix, digits, base, m);
  }

  /** A character behind the digits that is none refuses the text. */
  lemma TrailingRefused(spaces: string, sign: string, prefix: string, digits: string, base: nat, m: nat, rest: string,
                        min: int, max: int)
    requires Writes(spaces + sign + prefix + digits, spaces, sign, prefix, digits, base, m)
    requires rest != [] && Ends(digits, base, rest)
    ensures var text := spaces + sign + prefix + digits + rest; Refused(text, min, max)
  {
    ScansNumeral(spaces, sign, prefix, digits, base, m, rest);
  }

  predicate Refused(text: string, min: int, max: int) {
    && ReadSigned(text, min, max) == None && ReadUnsigned(text, max) == None
    && ReadInt64(text) == None && ReadUInt64(text) == None
  }

  /** So does the lack of a digit. */
  lemma NoDigitRefused(spaces: string, sign: string, rest: string, min: int, max: int)
    requires Blank(spaces) && sign in SIGNS && (rest != [] ==> NoDigit(rest[0], 10))
    requires sign == "" && rest != [] ==> !IsBlank(rest[0]) && rest[0] !in {'+', '-'}
    ensures Refused(spaces + sign + rest, min, max)
  {
    var s := spaces + sign + rest;
    var i := |spaces|;
    assert s[0..i] == spaces;
    if sign != "" {
      assert s[i] == sign[0];
    } else if rest != [] {
      assert s[i] == rest[0];
    }
    EndOfSpaces(s, 0, i);
    if rest != [] {
      assert s[i + |sign|] == rest[0];
      NoDigitWorth(rest[0], 10);
    }
  }

  /** There are no other texts. */
  lemma EveryText(s: string)
    returns (spaces: string, sign: string, prefix: string, digits: string, base: nat, m: nat, rest: string)
    ensures s == spaces + sign + prefix + digits + rest && Blank(spaces) && sign in SIGNS
    ensures if digits == [] then
        && prefix == "" && (rest != [] ==> NoDigit(rest[0], 10))
        && (sign == "" && rest != [] ==> !IsBlank(rest[0]) && rest[0] !in {'+', '-'})
      else Prefixed(prefix, digits, base) && Spells(digits, base, m) && Ends(digits, base, rest)
  {
    var i := SpacesEnd(s);
    spaces := s[..i];
    var tail;
    sign, tail := SplitSign(s[i..]);
    prefix, digits, base, m, rest := SplitNumber(tail);
    JoinParts(s, i, sign, tail, prefix, digits, rest);
    if digits == [] && rest != [] && sign == "" {
      assert rest == s[i..] && rest[0] == s[i];
    }
  }

  lemma JoinParts(s: string, i: nat, sign: string, tail: string, prefix: string, digits: string, rest: string)
    requires i <= |s| && s[i..] == sign + tail && tail == prefix + digits + rest
    ensures s == s[..i] + sign + prefix + digits + rest
    ensures digits == [] && sign == "" && prefix == "" ==> rest == s[i..]
  {
    assert s == s[..i] + s[i..];
  }

  lemma SplitSign(s: string) returns (sign: string, tail: string)
    ensures s == sign + tail && sign in SIGNS && (sign == "" && s != [] ==> s[0] !in {'+', '-'})
  {
    sign := if s != [] && s[0] == '+' then "+" else if s != [] && s[0] == '-' then "-" else "";
    tail := s[|sign|..];
  }

  lemma SpacesEnd(s: string) returns (i: nat)
    ensures i <= |s| && Blank(s[..i]) && (i < |s| ==> !IsBlank(s[i]))
  {
    i := 0;
    while i < |s| && IsBlank(s[i])
      invariant i <= |s| && Blank(s[..i])
    {
      i := i + 1;
    }
  }

  lemma OneMoreDigit(s: string, j: nat, base: nat, m: nat, d: nat) returns (n: nat)
    requires IsBase(base) && d < base && j < |s| && IsDigit(s[j], base, d)
    requires if j == 0 then m == 0 else Spells(s[..j], base, m)
    ensures Spells(s[..j + 1], base, n)
  {
    n := AppendDigit(m, base, d);
    assert s[..j + 1][..j] == s[..j] && s[..j + 1][j] == s[j];
  }

  /** The longest run of digits. */
  lemma DigitRun(s: string, base: nat) returns (j: nat, m: nat)
    requires IsBase(base)
    ensures j <= |s| && (j > 0 ==> Spells(s[..j], base, m)) && (j < |s| ==> NoDigit(s[j], base))
  {
    j, m := 0, 0;
    while j < |s| && DigitValue(s[j]) < base
      invariant j <= |s| && if j == 0 then m == 0 else Spells(s[..j], base, m)
    {
      var d := DigitValue(s[j]);
      DigitWorth(s[j], base, d);
      m := OneMoreDigit(s, j, base, m, d);
      j := j + 1;
    }
    if j < |s| {
      NoDigitWorth(s[j], base);
    }
  }

  /** Digits of one base, from some position on. */
  lemma SplitDigits(s: string, base: nat) returns (digits: string, m: nat, rest: string)
    requires IsBase(base)
    ensures s == digits + rest
    ensures if digits == [] then s == [] || NoDigit(s[0], base) else Spells(digits, base, m) && digits[0] == s[0]
    ensures rest != [] ==> NoDigit(rest[0], base)
  {
    var j;
    j, m := DigitRun(s, base);
    digits, rest := s[..j], s[j..];
  }

  lemma SplitNumber(s: string) returns (prefix: string, digits: string, base: nat, m: nat, rest: string)
    ensures s == prefix + digits + rest
    ensures if digits == [] then prefix == "" && (rest != [] ==> NoDigit(rest[0], 10))
      else Prefixed(prefix, digits, base) && Spells(digits, base, m) && Ends(digits, base, rest)
  {
    if |s| >= 3 && s[0] == '0' && s[1] in {'x', 'X'} && !NoDigit(s[2], 16) {
      prefix, base := s[..2], 16;
      digits, m, rest := SplitDigits(s[2..], 16);
      assert s == prefix + s[2..] && s[2..][0] == s[2];
      HexPrefix(s);
    } else if s != [] && s[0] == '0' {
      prefix, base := "", 8;
      digits, m, rest := SplitDigits(s, 8);
      assert IsDigit('0', 8, 0);
      OctalEnds(s, digits, rest);
    } else {
      prefix, base := "", 10;
      digits, m, rest := SplitDigits(s, 10);
    }
  }

  lemma HexPrefix(s: string)
    requires |s| >= 3 && s[0] == '0' && s[1] in {'x', 'X'}
    ensures s[..2] == "0x" || s[..2] == "0X"
  {
    assert s[..2] == [s[0], s[1]];
  }

  lemma OctalEnds(s: string, digits: string, rest: string)
    requires s == digits + rest && (rest != [] ==> NoDigit(rest[0], 8))
    requires !(|s| >= 3 && s[0] == '0' && s[1] in {'x', 'X'} && !NoDigit(s[2], 16))
    ensures Ends(digits, 8, rest)
  {
    if digits == "0" && |rest| >= 2 {
      assert s[0] == '0' && s[1] == rest[0] && s[2] == rest[1];
    }
  }

  // ---------- values ----------

  /** What an integer type takes a number for, if it takes it. */
  function TakenFor(k: Kind, n: int): Option<int>
    requires KindInterval(k).Some?
  {
    var i := KindInterval(k).value;
    match k
    case KUChar => WithinUnsigned(n, i.high - 1)
    case KUInt => WithinUnsigned(n, i.high - 1)
    case KInt64 => Some(Clamped(n, i.low, i.high - 1))
    case KUInt64 => Some(if -TWO_64 < n < 0 then n + TWO_64 else if 0 <= n < TWO_64 then n else TWO_64 - 1)
    case _ => Within(n, i.low, i.high - 1)
  }

  /** The text is read as the type takes the number. */
  predicate ReadAs(env: Env, k: Kind, text: string, n: int)
    requires KindInterval(k).Some?
  {
    match ScalarFromText(env, k, text)
    case Some(x) => KindOf(x) == k && ContentOf(x).Number? && TakenFor(k, n) == Some(ContentOf(x).n)
    case None => TakenFor(k, n) == None
  }

  lemma SignedKinds(env: Env, k: Kind, text: string, n: int)
    requires k == KChar || k == KInt || k == KUInt16 || k == KInt16
    requires var i := KindInterval(k).value; ReadSigned(text, i.low, i.high - 1) == Within(n, i.low, i.high - 1)
    ensures ReadAs(env, k, text, n)
  {
  }

  lemma UnsignedKinds(env: Env, k: Kind, text: string, n: int)
    requires k == KUChar || k == KUInt
    requires var i := KindInterval(k).value; ReadUnsigned(text, i.high - 1) == WithinUnsigned(n, i.high - 1)
    ensures ReadAs(env, k, text, n)
  {
  }

  lemma LongKinds(env: Env, k: Kind, text: string, n: int)
    requires k == KInt64 || k == KUInt64
    requires TakenFor(k, n) == if k == KInt64 then ReadInt64(text) else ReadUInt64(text)
    ensures ReadAs(env, k, text, n)
  {
  }

  /** The value read from a numeral has the type asked for, and the number written in it. */
  lemma KindReads(env: Env, k: Kind, text: string, spaces: string, sign: string, prefix: string, digits: string,
                  base: nat, m: nat)
    requires Writes(text, spaces, sign, prefix, digits, base, m) && KindInterval(k).Some?
    ensures ReadAs(env, k, text, SignedNumber(sign, m))
  {
    var i, n := KindInterval(k).value, SignedNumber(sign, m);
    NumeralReads(text, spaces, sign, prefix, digits, base, m, 0, 0);
    if k == KInt64 || k == KUInt64 {
      LongKinds(env, k, text, n);
    } else {
      NumeralReads(text, spaces, sign, prefix, digits, base, m, i.low, i.high - 1);
      if k == KUChar || k == KUInt {
        UnsignedKinds(env, k, text, n);
      } else {
        SignedKinds(env, k, text, n);
      }
    }
  }

  /** Other texts give no integer of any type. */
  lemma KindRefuses(env: Env, k: Kind, text: string)
    requires KindInterval(k).Some? && forall min, max :: Refused(text, min, max)
    ensures ScalarFromText(env, k, text) == None
  {
    var i := KindInterval(k).value;
    assert Refused(text, i.low, i.high - 1);
  }

  /** The types that are not integers: a string takes every text as it is, a truth value takes exactly
      "true" and "false", a real takes what strtod takes, FLOAT only positive numbers of its
      range. */
  lemma OthersRead(env: Env, text: string)
    ensures ScalarFromText(env, KString, text) == Some(String(text))
    ensures forall b :: ScalarFromText(env, KBool, text) == Some(Bool(b)) <==> text == if b then "true" else "false"
    ensures forall r :: ScalarFromText(env, KDouble, text) == Some(Double(r)) <==> env.parseReal(text) == Some(r)
    ensures forall r :: ScalarFromText(env, KFloat, text) == Some(Float(r)) <==>
      env.parseReal(text) == Some(r) && MIN_FLOAT <= r <= MAX_FLOAT
  {
  }

  /** A fresh value is zero, empty or false. */
  lemma InitialIsZero(k: Kind)
    ensures KindOf(InitialScalar(k)) == k
    ensures match ContentOf(InitialScalar(k))
      case Number(n) => n == 0
      case Real(r) => r == 0.0
      case Text(s) => s == ""
      case Truth(b) => !b
  {
  }
}
