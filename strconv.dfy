/** The base-10 parts of Go's strconv package that the parsers call:
    ParseUint, ParseInt and ParseBool, and FormatUint/FormatInt for the
    round trips. The scan follows Go's loop character by character, so a
    string that overflows before it reaches a bad character reports a range
    error, as Go does. */
module Strconv {
  import opened Wrappers

  /** strconv.ErrSyntax, strconv.ErrRange, and the error for a bit size
      outside 0..64. */
  datatype NumError = ErrSyntax | ErrRange | ErrBitSize

  /** strconv.IntSize on a 64-bit platform. */
  const IntSize: nat := 64

  function Pow2(n: nat): (r: nat)
    ensures r >= 1
  {
    if n == 0 then 1 else 2 * Pow2(n - 1)
  }

  predicate IsDigit(c: char) {
    '0' <= c <= '9'
  }

  function DigitValue(c: char): (d: nat)
    requires IsDigit(c)
    ensures d < 10
  {
    c as int - '0' as int
  }

  predicate AllDigits(s: string) {
    forall i :: 0 <= i < |s| ==> IsDigit(s[i])
  }

  /** One or more decimal digits: what ParseUint accepts in base 10. */
  predicate IsDecimal(s: string) {
    |s| > 0 && AllDigits(s)
  }

  /** An optional sign followed by decimal digits: what ParseInt accepts. */
  predicate IsSignedDecimal(s: string) {
    |s| > 0 && (if s[0] == '+' || s[0] == '-' then IsDecimal(s[1..]) else IsDecimal(s))
  }

  /** The number a digit string denotes, read from the left. */
  function DecimalValue(s: string): nat
    requires AllDigits(s)
  {
    if s == [] then 0 else 10 * DecimalValue(s[..|s| - 1]) + DigitValue(s[|s| - 1])
  }

  function SignedValue(s: string): int
    requires IsSignedDecimal(s)
  {
    if s[0] == '-' then -(DecimalValue(s[1..]) as int)
    else if s[0] == '+' then DecimalValue(s[1..])
    else DecimalValue(s)
  }

  /** The digit loop of ParseUint in base 10, from index `i` with the value
      `n` of the digits before it; `maxVal` is 2^bitSize - 1. Go's two
      overflow tests (`n >= cutoff` and `n1 > maxVal`) together reject
      exactly when 10 * n + d exceeds maxVal. */
  function ScanDigits(s: string, i: nat, n: nat, maxVal: nat): (r: Result<nat, NumError>)
    requires i <= |s|
    ensures n <= maxVal && r.Ok? ==> r.value <= maxVal
    ensures r.Err? ==> r.error == ErrSyntax || r.error == ErrRange
    decreases |s| - i
  {
    if i == |s| then Ok(n)
    else if !IsDigit(s[i]) then Err(ErrSyntax)
    else if 10 * n + DigitValue(s[i]) > maxVal then Err(ErrRange)
    else ScanDigits(s, i + 1, 10 * n + DigitValue(s[i]), maxVal)
  }

  /** strconv.ParseUint(s, 10, bitSize) */
  function ParseUint(s: string, bitSize: nat): (r: Result<nat, NumError>)
    ensures s == "" ==> r == Err(ErrSyntax)
    ensures s != "" && bitSize > 64 ==> r == Err(ErrBitSize)
    ensures r.Ok? ==> r.value < Pow2(if bitSize == 0 then IntSize else bitSize)
    ensures r.Err? ==> r.error == ErrSyntax || r.error == ErrRange || r.error == ErrBitSize
  {
    if s == "" then Err(ErrSyntax)
    else if bitSize > 64 then Err(ErrBitSize)
    else ScanDigits(s, 0, 0, Pow2(if bitSize == 0 then IntSize else bitSize) - 1)
  }

  /** strconv.ParseInt(s, 10, bitSize): strip one sign, parse the rest with
      ParseUint, then check the magnitude against 2^(bitSize-1). On a range
      error ParseUint yields its maximum, which the cutoff test then rejects. */
  function ParseInt(s: string, bitSize: nat): (r: Result<int, NumError>)
    ensures s == "" ==> r == Err(ErrSyntax)
    ensures r.Ok? ==>
              var bits := if bitSize == 0 then IntSize else bitSize;
              -(Pow2(bits - 1) as int) <= r.value < Pow2(bits - 1)
    ensures r.Err? ==> r.error == ErrSyntax || r.error == ErrRange || r.error == ErrBitSize
  {
    if s == "" then Err(ErrSyntax)
    else
      var neg := s[0] == '-';
      var digits := if s[0] == '+' || s[0] == '-' then s[1..] else s;
      var un := ParseUint(digits, bitSize);
      if un.Err? && un.error != ErrRange then Err(un.error)
      else
        var bits: nat := if bitSize == 0 then IntSize else bitSize;
        var cutoff := Pow2(bits - 1);
        var u := if un.Ok? then un.value else Pow2(bits) - 1;
        if !neg && u >= cutoff then Err(ErrRange)
        else if neg && u > cutoff then Err(ErrRange)
        else Ok(if neg then -u else u)
  }

  const TrueStrings: set<string> := {"1", "t", "T", "TRUE", "true", "True"}
  const FalseStrings: set<string> := {"0", "f", "F", "FALSE", "false", "False"}

  /** strconv.ParseBool */
  function ParseBool(s: string): (r: Result<bool, NumError>)
    ensures r.Ok? <==> s in TrueStrings || s in FalseStrings
    ensures r.Ok? ==> (r.value <==> s in TrueStrings)
    ensures r.Err? ==> r.error == ErrSyntax
  {
    if s == "1" || s == "t" || s == "T" || s == "TRUE" || s == "true" || s == "True" then Ok(true)
    else if s == "0" || s == "f" || s == "F" || s == "FALSE" || s == "false" || s == "False" then Ok(false)
    else Err(ErrSyntax)
  }

  function DigitChar(d: nat): (c: char)
    requires d < 10
    ensures IsDigit(c) && DigitValue(c) == d
  {
    ('0' as int + d) as char
  }

  /** strconv.FormatUint(u, 10) */
  function FormatUint(u: nat): string
    decreases u
  {
    if u < 10 then [DigitChar(u)] else FormatUint(u / 10) + [DigitChar(u % 10)]
  }

  /** strconv.FormatInt(i, 10) */
  function FormatInt(i: int): string {
    if i < 0 then "-" + FormatUint(-i) else FormatUint(i)
  }

  // ---------------------------------------------------------------------
  // What the functions above accept

  lemma {:induction false} DecimalPrefixMonotone(s: string, j: nat)
    requires AllDigits(s) && j <= |s|
    ensures AllDigits(s[..j]) && DecimalValue(s[..j]) <= DecimalValue(s)
    decreases |s| - j
  {
    if j < |s| {
      DecimalPrefixMonotone(s, j + 1);
      var t := s[..j + 1];
      assert t[..j] == s[..j];
      assert DecimalValue(t) == 10 * DecimalValue(s[..j]) + DigitValue(s[j]);
    } else {
      assert s[..j] == s;
    }
  }

  lemma {:induction false} ScanDigitsSpec(s: string, i: nat, maxVal: nat)
    requires i <= |s| && AllDigits(s[..i]) && DecimalValue(s[..i]) <= maxVal
    ensures var r := ScanDigits(s, i, DecimalValue(s[..i]), maxVal);
            (r.Ok? <==> AllDigits(s) && DecimalValue(s) <= maxVal) &&
            (r.Ok? ==> r.value == DecimalValue(s)) &&
            (r.Err? ==> (r.error == ErrRange <==> OverflowsAfter(s, i, maxVal)))
    decreases |s| - i
  {
    if i == |s| {
      assert s[..i] == s;
    } else if IsDigit(s[i]) {
      var next := s[..i + 1];
      assert next[..i] == s[..i];
      assert AllDigits(next);
      assert DecimalValue(next) == 10 * DecimalValue(s[..i]) + DigitValue(s[i]);
      if DecimalValue(next) <= maxVal {
        ScanDigitsSpec(s, i + 1, maxVal);
        assert OverflowsAfter(s, i, maxVal) <==> OverflowsAfter(s, i + 1, maxVal) by {
          if OverflowsAfter(s, i, maxVal) {
            var j :| i < j <= |s| && AllDigits(s[..j]) && DecimalValue(s[..j]) > maxVal;
            assert j != i + 1;
          }
        }
      } else {
        assert AllDigits(s[..i + 1]) && DecimalValue(s[..i + 1]) > maxVal;
        if AllDigits(s) {
          DecimalPrefixMonotone(s, i + 1);
        }
      }
    } else {
      forall j | i < j <= |s|
        ensures !AllDigits(s[..j])
      {
        assert s[..j][i] == s[i];
      }
    }
  }

  /** Some digit prefix of `s` longer than `i` exceeds `maxVal`: the
      condition under which the digit loop ends with a range error. */
  predicate OverflowsAfter(s: string, i: nat, maxVal: nat) {
    exists j | i < j <= |s| :: AllDigits(s[..j]) && DecimalValue(s[..j]) > maxVal
  }

  /** ParseUint succeeds exactly on unsigned decimal text whose value fits in
      bitSize bits (64 for bitSize 0), and then yields that value. */
  lemma ParseUintSpec(s: string, bitSize: nat)
    requires bitSize <= 64
    ensures var bits := if bitSize == 0 then IntSize else bitSize;
            var r := ParseUint(s, bitSize);
            (r.Ok? <==> IsDecimal(s) && DecimalValue(s) < Pow2(bits)) &&
            (r.Ok? ==> r.value == DecimalValue(s))
  {
    if s != "" {
      var maxVal := Pow2(if bitSize == 0 then IntSize else bitSize) - 1;
      assert s[..0] == "" && DecimalValue(s[..0]) == 0;
      ScanDigitsSpec(s, 0, maxVal);
      assert ParseUint(s, bitSize) == ScanDigits(s, 0, 0, maxVal);
    }
  }

  lemma Pow2Step(n: nat)
    requires n >= 1
    ensures Pow2(n) == 2 * Pow2(n - 1)
  {
  }

  lemma {:induction false} Pow2Monotone(a: nat, b: nat)
    requires a <= b
    ensures Pow2(a) <= Pow2(b)
  {
    if a < b {
      Pow2Monotone(a, b - 1);
    }
  }

  /** ParseInt succeeds exactly on an optionally signed decimal whose value
      lies in [-2^(bits-1), 2^(bits-1) - 1], and then yields that value.
      (Go's own code admits "-N" for any N when bitSize is 1; the parsers
      never use that width.) */
  lemma ParseIntSpec(s: string, bitSize: nat)
    requires bitSize == 0 || 2 <= bitSize <= 64
    ensures var bits := if bitSize == 0 then IntSize else bitSize;
            var r := ParseInt(s, bitSize);
            (r.Ok? <==> IsSignedDecimal(s) && -(Pow2(bits - 1) as int) <= SignedValue(s) < Pow2(bits - 1)) &&
            (r.Ok? ==> r.value == SignedValue(s))
  {
    if s != "" {
      var digits := if s[0] == '+' || s[0] == '-' then s[1..] else s;
      var bits: nat := if bitSize == 0 then IntSize else bitSize;
      ParseUintSpec(digits, bitSize);
      Pow2Step(bits);
      var un := ParseUint(digits, bitSize);
      assert IsSignedDecimal(s) <==> IsDecimal(digits);
      if un.Ok? {
        ParseIntFromOk(s, bitSize, digits, un.value);
      } else if un.error == ErrRange {
        ParseIntFromRange(s, bitSize, digits);
      }
    }
  }

  lemma ParseIntFromOk(s: string, bitSize: nat, digits: string, u: nat)
    requires s != "" && (bitSize == 0 || 2 <= bitSize <= 64)
    requires digits == if s[0] == '+' || s[0] == '-' then s[1..] else s
    requires ParseUint(digits, bitSize) == Ok(u)
    requires IsDecimal(digits) && DecimalValue(digits) == u
    ensures var bits := if bitSize == 0 then IntSize else bitSize;
            var r := ParseInt(s, bitSize);
            IsSignedDecimal(s) &&
            (r.Ok? <==> -(Pow2(bits - 1) as int) <= SignedValue(s) < Pow2(bits - 1)) &&
            (r.Ok? ==> r.value == SignedValue(s)) &&
            (r.Err? ==> r.error == ErrRange)
  {
    SignOf(s, digits);
    var cutoff := Pow2((if bitSize == 0 then IntSize else bitSize) - 1);
    if s[0] == '-' {
      assert ParseInt(s, bitSize) == if u > cutoff then Err(ErrRange) else Ok(-(u as int));
    } else {
      assert ParseInt(s, bitSize) == if u >= cutoff then Err(ErrRange) else Ok(u);
    }
  }

  lemma ParseIntFromRange(s: string, bitSize: nat, digits: string)
    requires s != "" && (bitSize == 0 || 2 <= bitSize <= 64)
    requires digits == if s[0] == '+' || s[0] == '-' then s[1..] else s
    requires ParseUint(digits, bitSize) == Err(ErrRange)
    requires var bits := if bitSize == 0 then IntSize else bitSize;
             IsDecimal(digits) ==> DecimalValue(digits) >= Pow2(bits)
    ensures var bits := if bitSize == 0 then IntSize else bitSize;
            ParseInt(s, bitSize) == Err(ErrRange) &&
            (IsSignedDecimal(s) ==> !(-(Pow2(bits - 1) as int) <= SignedValue(s) < Pow2(bits - 1)))
  {
    var bits: nat := if bitSize == 0 then IntSize else bitSize;
    Pow2Step(bits);
    assert ParseInt(s, bitSize).Err?;
    SignOf(s, digits);
  }

  /** A signed decimal is a sign and the digits ParseUint is handed. */
  lemma SignOf(s: string, digits: string)
    requires s != "" && digits == if s[0] == '+' || s[0] == '-' then s[1..] else s
    ensures IsSignedDecimal(s) <==> IsDecimal(digits)
    ensures IsSignedDecimal(s) ==>
              SignedValue(s) == if s[0] == '-' then -(DecimalValue(digits) as int) else DecimalValue(digits)
  {
  }

  lemma {:induction false} FormatUintDecimal(u: nat)
    ensures IsDecimal(FormatUint(u)) && DecimalValue(FormatUint(u)) == u
    decreases u
  {
    var s := FormatUint(u);
    if u >= 10 {
      FormatUintDecimal(u / 10);
      var t := FormatUint(u / 10);
      assert s == t + [DigitChar(u % 10)];
      assert s[..|s| - 1] == t;
    }
  }

  /** Round trip: the decimal text of any value below 2^bits parses back to it. */
  lemma ParseUintFormatUint(u: nat, bitSize: nat)
    requires bitSize <= 64 && u < Pow2(if bitSize == 0 then IntSize else bitSize)
    ensures ParseUint(FormatUint(u), bitSize) == Ok(u)
  {
    FormatUintDecimal(u);
    ParseUintSpec(FormatUint(u), bitSize);
  }

  /** Round trip: the decimal text of any value in the signed range of the
      width parses back to it. */
  lemma ParseIntFormatInt(i: int, bitSize: nat)
    requires bitSize == 0 || 2 <= bitSize <= 64
    requires var bits := if bitSize == 0 then IntSize else bitSize;
             -(Pow2(bits - 1) as int) <= i < Pow2(bits - 1)
    ensures ParseInt(FormatInt(i), bitSize) == Ok(i)
  {
    var s := FormatInt(i);
    if i < 0 {
      FormatUintDecimal(-i);
      assert s[1..] == FormatUint(-i);
    } else {
      FormatUintDecimal(i);
      assert s[0] != '+' && s[0] != '-';
    }
    ParseIntSpec(s, bitSize);
  }

  /** ParseUint takes no sign: "-399" and "+1" are syntax errors. */
  lemma ParseUintRejectsSign(s: string, bitSize: nat)
    requires |s| > 0 && (s[0] == '-' || s[0] == '+') && bitSize <= 64
    ensures ParseUint(s, bitSize) == Err(ErrSyntax)
  {
  }
}
