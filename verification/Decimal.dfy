/** Decimal text as Go's strconv and math/big read and write it. */
module Decimal {
  import opened Json

  const MAX_UINT64 := 0xFFFF_FFFF_FFFF_FFFF
  const MAX_INT64 := 0x7FFF_FFFF_FFFF_FFFF
  const MIN_INT64 := -0x8000_0000_0000_0000
  const MAX_INT32 := 0x7FFF_FFFF

  predicate IsDigit(c: char) {
    '0' <= c <= '9'
  }

  predicate Digits(s: string) {
    s != "" && forall i :: 0 <= i < |s| ==> IsDigit(s[i])
  }

  /** The number a digit string stands for, leading zeros allowed. */
  function Value(s: string): (n: nat)
    requires Digits(s)
  {
    var last := s[|s| - 1] as int - '0' as int;
    if |s| == 1 then last else 10 * Value(s[..|s| - 1]) + last
  }

  function FormatNat(n: nat): (s: string)
    ensures Digits(s)
  {
    var last := [('0' as int + n % 10) as char];
    if n < 10 then last else FormatNat(n / 10) + last
  }

  function Format(n: int): (s: string)
    ensures s != ""
  {
    if n < 0 then "-" + FormatNat(-n) else FormatNat(n)
  }

  /** big.Int.SetString in base ten: an optional sign and digits. */
  function ParseInt(s: string): (r: Option<int>) {
    if Digits(s) then Some(Value(s))
    else if |s| > 1 && s[0] == '-' && Digits(s[1..]) then (var n: int := Value(s[1..]); Some(-n))
    else if |s| > 1 && s[0] == '+' && Digits(s[1..]) then Some(Value(s[1..]))
    else None
  }

  /** strconv.ParseUint in base ten with 64 bits: no sign. */
  function ParseUint64(s: string): (r: Option<nat>) {
    if Digits(s) && Value(s) <= MAX_UINT64 then Some(Value(s)) else None
  }

  lemma {:induction false} ValueOfFormat(n: nat)
    ensures Value(FormatNat(n)) == n
  {
    if n >= 10 {
      ValueOfFormat(n / 10);
      var s := FormatNat(n);
      assert s[..|s| - 1] == FormatNat(n / 10);
    }
  }

  /** Reading back what was written. */
  lemma ParseFormat(n: int)
    ensures ParseInt(Format(n)) == Some(n)
  {
    if n < 0 {
      ValueOfFormat(-n);
      var s := Format(n);
      assert s[0] == '-' && !IsDigit(s[0]) && s[1..] == FormatNat(-n);
    } else {
      ValueOfFormat(n);
    }
  }

  /** Written without leading zeros. */
  predicate Plain(s: string) {
    Digits(s) && (s == "0" || s[0] != '0')
  }

  lemma {:induction false} PlainIsPositive(s: string)
    requires Digits(s) && s[0] != '0'
    ensures Value(s) > 0
  {
    if |s| > 1 {
      PlainIsPositive(s[..|s| - 1]);
    }
  }

  lemma {:induction false} FormatOfValue(s: string)
    requires Plain(s)
    ensures FormatNat(Value(s)) == s
  {
    if |s| > 1 {
      var front := s[..|s| - 1];
      PlainIsPositive(front);
      FormatOfValue(front);
      assert s == front + [s[|s| - 1]];
    }
  }

  lemma {:induction false} FormatIsPlain(n: nat)
    ensures Plain(FormatNat(n)) && (n > 0 ==> FormatNat(n)[0] != '0')
  {
    if n >= 10 {
      FormatIsPlain(n / 10);
    }
  }

  function Power10(n: nat): (p: nat) {
    if n == 0 then 1 else 10 * Power10(n - 1)
  }

  lemma TenTimes(v: int, p: int, w: int, d: int)
    ensures 10 * (v * p + w) + d == v * (10 * p) + (10 * w + d)
  {
  }

  lemma ValueOfDigit(c: char)
    requires IsDigit(c)
    ensures Digits([c]) && Value([c]) == c as int - '0' as int
  {
  }

  /** Decimal places: digits written before others stand for that many tens. */
  lemma {:induction false} ValueOfPlaces(a: string, b: string)
    requires Digits(a) && Digits(b)
    ensures Value(a + b) == Value(a) * Power10(|b|) + Value(b)
    decreases |b|
  {
    var n := |b| - 1;
    var last := b[n] as int - '0' as int;
    assert (a + b)[..|a| + n] == a + b[..n] && (a + b)[|a| + n] == b[n];
    if n == 0 {
      assert a + b[..n] == a;
      assert Power10(1) == 10 * Power10(0) == 10;
    } else {
      ValueOfPlaces(a, b[..n]);
      hide IsDigit;
      TenTimes(Value(a), Power10(n), Value(b[..n]), last);
    }
  }
}
