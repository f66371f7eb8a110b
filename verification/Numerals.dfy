/** Decimal numerals: strconv.FormatInt, strconv.ParseInt and the small scanner of the in-memory executor. */
module Numerals {
  import opened Wrappers
  import opened Strings

  const MIN_INT64 := -0x8000_0000_0000_0000
  const MAX_INT64 := 0x7fff_ffff_ffff_ffff

  predicate IsDigit(c: char) {
    '0' <= c <= '9'
  }

  function DigitValue(c: char): nat
    requires IsDigit(c)
  {
    c as int - '0' as int
  }

  function DigitChar(d: nat): (c: char)
    requires d < 10
    ensures IsDigit(c) && DigitValue(c) == d
  {
    ('0' as int + d) as char
  }

  ghost predicate AllDigits(s: string) {
    forall i :: 0 <= i < |s| ==> IsDigit(s[i])
  }

  predicate IsNumeral(s: string) {
    s != "" && forall i :: 0 <= i < |s| ==> IsDigit(s[i])
  }

  /** The numeral of n without leading zeros. */
  function Digits(n: nat): (s: string)
    ensures s != "" && AllDigits(s)
  {
    if n < 10 then [DigitChar(n)] else Digits(n / 10) + [DigitChar(n % 10)]
  }

  /** The value of a run of digits. */
  function Value(s: string): nat
    requires AllDigits(s)
  {
    if s == "" then 0 else Value(s[..|s| - 1]) * 10 + DigitValue(s[|s| - 1])
  }

  lemma {:induction false} ValueOfDigits(n: nat)
    ensures Value(Digits(n)) == n
  {
    if n < 10 {
      assert Digits(n)[..0] == "";
    } else {
      ValueOfDigits(n / 10);
      assert Digits(n)[..|Digits(n)| - 1] == Digits(n / 10);
    }
  }

  // ---------------------------------------------------------------- strconv

  function FormatInt(n: int): (s: string)
    ensures s != "" && Trimmed(s) && '\n' !in s
    ensures n >= 0 ==> AllDigits(s) && '-' !in s
    ensures n < 0 ==> s[0] == '-' && |s| > 1
  {
    if n < 0 then "-" + Digits(-n) else Digits(n)
  }

  /** An optional sign, then at least one digit; out of the 64-bit range is an error. */
  function ParseInt(s: string): (r: Option<int>)
    ensures r.Some? ==> MIN_INT64 <= r.value <= MAX_INT64
  {
    var signed := s != "" && (s[0] == '-' || s[0] == '+');
    var body := if signed then s[1..] else s;
    if !IsNumeral(body) then None
    else
      var v: int := Value(body);
      var n := if signed && s[0] == '-' then 0 - v else v;
      if MIN_INT64 <= n <= MAX_INT64 then Some(n) else None
  }

  lemma ParseFormat(n: int)
    requires MIN_INT64 <= n <= MAX_INT64
    ensures ParseInt(FormatInt(n)) == Some(n)
  {
    if n < 0 {
      ParseNegative(Digits(-n));
      ValueOfDigits(-n);
    } else {
      ParsePlain(Digits(n));
      ValueOfDigits(n);
    }
  }

  lemma ParsePlain(s: string)
    requires s != "" && AllDigits(s)
    ensures ParseInt(s) == if Value(s) <= MAX_INT64 then Some(Value(s)) else None
  {
    assert IsDigit(s[0]);
  }

  lemma ParseNegative(s: string)
    requires s != "" && AllDigits(s)
    ensures ParseInt("-" + s) == if 0 - Value(s) >= MIN_INT64 then Some(0 - Value(s)) else None
  {
    assert ("-" + s)[1..] == s;
  }

  // ---------------------------------------------------------------- the executor's own scanner and printer

  function Wrap(n: int): int {
    if MIN_INT64 <= n <= MAX_INT64 then n
    else (n - MIN_INT64) % 0x1_0000_0000_0000_0000 + MIN_INT64
  }

  /** The scanner keeps the value of the digits before the first other character, in 64-bit arithmetic. */
  function ScanFrom(acc: int, s: string): int
    decreases |s|
  {
    if s == "" || !IsDigit(s[0]) then acc
    else ScanFrom(Wrap(Wrap(acc * 10) + DigitValue(s[0])), s[1..])
  }

  /** The scanning loop. */
  method Scan(s: string) returns (dst: int, ok: bool)
    ensures dst == ScanFrom(0, s)
    ensures ok <==> forall i :: 0 <= i < |s| ==> IsDigit(s[i])
  {
    dst := 0;
    for i := 0 to |s|
      invariant ScanFrom(dst, s[i..]) == ScanFrom(0, s)
      invariant forall j :: 0 <= j < i ==> IsDigit(s[j])
    {
      if !IsDigit(s[i]) {
        return dst, false;
      }
      assert s[i..][1..] == s[i + 1..];
      dst := Wrap(Wrap(dst * 10) + DigitValue(s[i]));
    }
    ok := true;
  }

  lemma {:induction false} ScanAppend(acc: int, s: string, c: char)
    requires AllDigits(s) && IsDigit(c)
    ensures ScanFrom(acc, s + [c]) == Wrap(Wrap(ScanFrom(acc, s) * 10) + DigitValue(c))
    decreases |s|
  {
    if s == "" {
      assert s + [c] == [c] && [c][1..] == "";
    } else {
      assert (s + [c])[1..] == s[1..] + [c];
      ScanAppend(Wrap(Wrap(acc * 10) + DigitValue(s[0])), s[1..], c);
    }
  }

  /** Scanning a printed number that fits gives it back. */
  lemma {:induction false} ScanDigits(n: nat)
    requires n <= MAX_INT64
    ensures ScanFrom(0, Digits(n)) == n
  {
    if n < 10 {
      assert Digits(n)[1..] == "";
    } else {
      ScanDigits(n / 10);
      ScanAppend(0, Digits(n / 10), DigitChar(n % 10));
    }
  }

  /** The executor's printing loop: digits from the right; nothing for a negative number. */
  method Itoa(n: int) returns (s: string)
    ensures s == if n < 0 then "" else Digits(n)
  {
    if n == 0 {
      return "0";
    }
    var i := n;
    var tail := "";
    while i > 0
      invariant n > 0 ==> 0 <= i <= n
      invariant n < 0 ==> i < 0 && tail == ""
      invariant i > 0 ==> Digits(i) + tail == Digits(n)
      invariant i == 0 ==> tail == Digits(n)
    {
      assert i >= 10 ==> Digits(i) + tail == Digits(i / 10) + ([DigitChar(i % 10)] + tail);
      tail := [DigitChar(i % 10)] + tail;
      i := i / 10;
    }
    s := tail;
  }
}
