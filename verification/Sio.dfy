/** Signal-safe number printing (Lab2/sio.h). */
module Sio {
  import opened Numbers

  const LONG_MIN := -0x8000_0000_0000_0000
  const LONG_MAX := 0x7fff_ffff_ffff_ffff
  const NUL := '\0'

  // ----- Digits

  function DigitChar(d: nat): char
    requires d < 36
  {
    if d < 10 then '0' + d as char else 'a' + (d - 10) as char
  }

  function DigitValue(c: char): int {
    if '0' <= c <= '9' then c as int - '0' as int else c as int - 'a' as int + 10
  }

  predicate Base(b: nat) {
    2 <= b <= 36
  }

  // The digits in the order the loop writes them, the lowest first.
  function Digits(v: nat, b: nat): (s: string)
    requires Base(b)
    ensures s != ""
    decreases v
  {
    AtLeastTwice(v / b, b);
    [DigitChar(v % b)] + if v / b > 0 then Digits(v / b, b) else ""
  }

  function Reversed(s: string): (r: string)
    ensures |r| == |s|
    ensures forall i :: 0 <= i < |s| ==> r[i] == s[|s| - 1 - i]
  {
    if s == "" then "" else Reversed(s[1..]) + [s[0]]
  }

  function Abs(v: int): nat {
    if v < 0 then -v else v
  }

  // The string sio_ltoa makes.
  function Ltoa(v: int, b: nat): string
    requires Base(b)
  {
    Reversed(Digits(Abs(v), b) + if v < 0 then "-" else "")
  }

  // ----- Reading a number back, the highest digit first

  function ParseNat(s: string, b: nat): int {
    if s == "" then 0 else ParseNat(s[..|s| - 1], b) * b + DigitValue(s[|s| - 1])
  }

  function Parse(s: string, b: nat): int {
    if s != "" && s[0] == '-' then -ParseNat(s[1..], b) else ParseNat(s, b)
  }

  lemma DigitBack(d: nat)
    requires d < 36
    ensures DigitValue(DigitChar(d)) == d && DigitChar(d) != '-' && DigitChar(d) != NUL
    ensures DigitChar(d) == '0' <==> d == 0
  {
  }

  lemma ReversedConcat(a: string, b: string)
    ensures Reversed(a + b) == Reversed(b) + Reversed(a)
  {
  }

  lemma ParseSnoc(s: string, c: char, b: nat)
    ensures ParseNat(s + [c], b) == ParseNat(s, b) * b + DigitValue(c)
  {
    assert (s + [c])[..|s|] == s;
  }

  // The lowest digit and the rest of a number.
  lemma DigitsSplit(v: nat, b: nat) returns (q: nat, r: nat)
    requires Base(b)
    ensures r < b && v == q * b + r && q == v / b && r == v % b && (q > 0 ==> q < v)
    ensures Digits(v, b) == [DigitChar(r)] + if q > 0 then Digits(q, b) else ""
  {
    q, r := v / b, v % b;
    AtLeastTwice(q, b);
  }

  lemma AtLeastTwice(q: nat, b: nat)
    requires b >= 2
    ensures q * b >= q + q
  {
    assert q * b == q * 2 + q * (b - 2);
  }

  lemma {:induction false} ReversedDigitsParse(v: nat, b: nat)
    requires Base(b)
    ensures ParseNat(Reversed(Digits(v, b)), b) == v
    decreases v
  {
    hide Digits, DigitChar, DigitValue, ParseNat, Reversed;
    var q, r := DigitsSplit(v, b);
    DigitBack(r);
    var low, rest := [DigitChar(r)], if q > 0 then Digits(q, b) else "";
    ReversedConcat(low, rest);
    ParseSnoc(Reversed(rest), DigitChar(r), b);
    assert Reversed(low) == low;
    if q > 0 {
      ReversedDigitsParse(q, b);
    } else {
      ParseNothing(b);
    }
  }

  lemma ParseNothing(b: nat)
    ensures ParseNat("", b) == 0 && Reversed("") == ""
  {
  }

  // The last digit written, which the reversal puts first, is no zero but for zero itself.
  lemma {:induction false} HighestDigit(v: nat, b: nat)
    requires Base(b)
    ensures var s := Digits(v, b); s[|s| - 1] != '-' && (s[|s| - 1] == '0' <==> v == 0)
    decreases v
  {
    hide Digits, DigitChar;
    var q, r := DigitsSplit(v, b);
    DigitBack(r);
    if q > 0 {
      HighestDigit(q, b);
    }
  }

  // Reading back gives the number, and there is no leading zero.
  lemma LtoaParse(v: int, b: nat)
    requires Base(b)
    ensures Parse(Ltoa(v, b), b) == v
    ensures var s := Ltoa(v, b);
      var first := if v < 0 then 1 else 0;
      (v < 0 <==> s[0] == '-') && first < |s| && (s[first] == '0' <==> v == 0)
  {
    var d := Digits(Abs(v), b);
    ReversedDigitsParse(Abs(v), b);
    HighestDigit(Abs(v), b);
    hide Digits, ParseNat;
    if v < 0 {
      ReversedConcat(d, "-");
      assert Reversed("-") == "-" by { assert "-"[1..] == ""; }
      hide Reversed;
      assert Ltoa(v, b) == "-" + Reversed(d);
      assert Ltoa(v, b)[1..] == Reversed(d);
    } else {
      hide Reversed;
      assert d + "" == d;
    }
  }

  // A digit of this base, as it is printed: 0 to 9, and then small letters from a on.
  predicate IsDigit(c: char, b: nat) {
    || ('0' <= c <= '9' && c as int - '0' as int < b)
    || ('a' <= c <= 'z' && c as int - 'a' as int + 10 < b)
  }

  lemma {:induction false} DigitsAreDigits(v: nat, b: nat)
    requires Base(b)
    ensures forall i :: 0 <= i < |Digits(v, b)| ==> IsDigit(Digits(v, b)[i], b)
    decreases v
  {
    hide Digits;
    var q, r := DigitsSplit(v, b);
    if q > 0 {
      DigitsAreDigits(q, b);
    }
  }

  // Behind the sign there are only digits of the base.
  lemma LtoaDigits(v: int, b: nat)
    requires Base(b)
    ensures var s := Ltoa(v, b);
      forall i :: (if v < 0 then 1 else 0) <= i < |s| ==> IsDigit(s[i], b)
  {
    DigitsAreDigits(Abs(v), b);
  }

  // ----- Length

  function Pow(b: nat, k: nat): nat {
    if k == 0 then 1 else b * Pow(b, k - 1)
  }

  lemma {:induction false} DigitsLength(v: nat, b: nat, k: nat)
    requires Base(b) && k >= 1
    ensures |Digits(v, b)| <= k <==> v < Pow(b, k)
    decreases k
  {
    DivBound(v, b, Pow(b, k - 1));
    if k == 1 {
      assert Pow(b, 1) == b;
    } else if v / b > 0 {
      DigitsLength(v / b, b, k - 1);
    } else {
      PowPositive(b, k - 1);
    }
  }

  lemma DivBound(v: nat, b: nat, m: nat)
    requires b >= 1
    ensures v / b < m <==> v < b * m
  {
    var q, r := v / b, v % b;
    assert v == b * q + r;
    if q < m {
      assert b * (m - q) >= b by { MultiplyAtLeast(b, m - q); }
      assert b * m == b * q + b * (m - q);
    } else {
      assert b * (q - m) >= 0;
      assert b * q == b * m + b * (q - m);
    }
  }

  lemma {:induction false} PowPositive(b: nat, k: nat)
    requires b >= 1
    ensures Pow(b, k) >= 1
  {
    if k > 0 {
      PowPositive(b, k - 1);
    }
  }

  lemma LtoaLength(v: int, b: nat, k: nat)
    requires Base(b) && k >= 2
    ensures |Ltoa(v, b)| <= k <==> if v < 0 then -v < Pow(b, k - 1) else v < Pow(b, k)
  {
    DigitsLength(Abs(v), b, if v < 0 then k - 1 else k);
  }

  // Every 32-bit value in base 10 fits in 12 bytes, with sign and terminator.
  lemma IntFits(v: int)
    requires -0x8000_0000 <= v < 0x8000_0000
    ensures |Ltoa(v, 10)| + 1 <= 12
  {
    LtoaLength(v, 10, 11);
    Pow10();
    assert Pow(10, 11) == 10 * Pow(10, 10);
  }

  lemma Pow10()
    ensures Pow(10, 10) == 10_000_000_000
    ensures Pow(10, 14) == 100_000_000_000_000
  {
    assert Pow(10, 2) == 100;
    assert Pow(10, 4) == 10_000;
    assert Pow(10, 6) == 1_000_000;
    assert Pow(10, 8) == 100_000_000;
    assert Pow(10, 12) == 1_000_000_000_000 by { assert Pow(10, 10) == 10_000_000_000; }
  }

  // The 16 bytes of sio_putl are enough exactly for the numbers of up to 15 characters.
  lemma PutlFits(v: int)
    ensures |Ltoa(v, 10)| + 1 <= 16 <==> -100_000_000_000_000 < v < 1_000_000_000_000_000
  {
    LtoaLength(v, 10, 15);
    Pow10();
    assert Pow(10, 15) == 10 * Pow(10, 14);
  }

  // The smallest number that overflows them, and the largest negative one: each takes 17 bytes.
  lemma PutlOverflows()
    ensures |Ltoa(1_000_000_000_000_000, 10)| + 1 == |Ltoa(-100_000_000_000_000, 10)| + 1 == 17
  {
    PutlFits(1_000_000_000_000_000);
    PutlFits(-100_000_000_000_000);
    LtoaLength(1_000_000_000_000_000, 10, 16);
    LtoaLength(-100_000_000_000_000, 10, 16);
    Pow10();
    assert Pow(10, 16) == 10 * (10 * Pow(10, 14)) && Pow(10, 15) == 10 * Pow(10, 14);
  }

  // ----- The routines on a char buffer

  // The buffer holds this string, and a terminator behind it.
  ghost predicate Holds(buf: array<char>, s: string)
    reads buf
  {
    && |s| < buf.Length && buf[..|s|] == s && buf[|s|] == NUL
    && forall i :: 0 <= i < |s| ==> s[i] != NUL
  }

  method SioStrlen(buf: array<char>, ghost s: string) returns (n: nat)
    requires Holds(buf, s)
    ensures n == |s|
  {
    assert forall k :: 0 <= k < |s| ==> buf[k] == buf[..|s|][k] == s[k];
    n := 0;
    while buf[n] != NUL
      invariant n <= |s|
      decreases |s| - n
    {
      n := n + 1;
    }
  }

  method SioReverse(buf: array<char>, ghost s: string)
    requires Holds(buf, s)
    modifies buf
    ensures Holds(buf, Reversed(s))
    ensures forall k :: |s| <= k < buf.Length ==> buf[k] == old(buf[k])
  {
    var len := SioStrlen(buf, s);
    var i, j := 0, len - 1;
    assert forall k :: 0 <= k < len ==> buf[k] == buf[..len][k] == s[k];
    while i < j
      invariant 0 <= i && j == len - 1 - i && i <= j + 2
      invariant forall k :: 0 <= k < i ==> buf[k] == s[len - 1 - k]
      invariant forall k :: j < k < len ==> buf[k] == s[len - 1 - k]
      invariant forall k :: i <= k <= j ==> buf[k] == s[k]
      invariant forall k :: len <= k < buf.Length ==> buf[k] == old(buf[k])
    {
      var c := buf[i];
      buf[i] := buf[j];
      buf[j] := c;
      i, j := i + 1, j - 1;
    }
    assert forall k :: 0 <= k < len ==> buf[..len][k] == Reversed(s)[k];
  }

  lemma {:induction false} DigitsNotNul(v: nat, b: nat)
    requires Base(b)
    ensures forall i :: 0 <= i < |Digits(v, b)| ==> Digits(v, b)[i] != NUL
    decreases v
  {
    hide Digits, DigitChar;
    var q, r := DigitsSplit(v, b);
    DigitBack(r);
    if q > 0 {
      DigitsNotNul(q, b);
    }
  }

  method PutDigit(buf: array<char>, i: nat, c: nat)
    requires i < buf.Length && c < 36
    modifies buf
    ensures buf[..i + 1] == old(buf[..i]) + [DigitChar(c)]
    ensures forall k :: i < k < buf.Length ==> buf[k] == old(buf[k])
  {
    buf[i] := if c < 10 then '0' + c as char else 'a' + (c - 10) as char;
  }

  // The digit loop.
  method WriteDigits(number: nat, buf: array<char>, b: nat) returns (i: nat)
    requires Base(b) && |Digits(number, b)| < buf.Length
    modifies buf
    ensures i == |Digits(number, b)| && buf[..i] == Digits(number, b)
    ensures forall k :: 0 <= k < i ==> IsDigit(buf[k], b)
  {
    hide Digits, DigitChar, IsDigit;
    ghost var d := Digits(number, b);
    ghost var done := "";
    i := 0;
    var v := number;
    var more := true;
    while more
      invariant v >= 0 && i == |done| && i <= |d| && buf[..i] == done
      invariant d == done + if more then Digits(v, b) else ""
      decreases v, more
    {
      ghost var q, r := DigitsSplit(v, b);
      var c := v % b;
      PutDigit(buf, i, c);
      ghost var rest := if q > 0 then Digits(q, b) else "";
      assert done + ([DigitChar(r)] + rest) == done + [DigitChar(r)] + rest;
      done := done + [DigitChar(r)];
      i := i + 1;
      v := v / b;
      more := v > 0;
    }
    DigitsAreDigits(number, b);
    assert forall k :: 0 <= k < i ==> buf[k] == buf[..i][k];
  }

  // sio_ltoa, for every long but the smallest, whose negation overflows.
  method SioLtoa(number: int, buf: array<char>, b: nat)
    requires Base(b) && LONG_MIN < number <= LONG_MAX
    requires |Ltoa(number, b)| < buf.Length
    modifies buf
    ensures Holds(buf, Ltoa(number, b)) && Parse(Ltoa(number, b), b) == number
    ensures forall k :: (if number < 0 then 1 else 0) <= k < |Ltoa(number, b)| ==> IsDigit(buf[k], b)
  {
    hide Digits, Reversed, Parse;
    LtoaParse(number, b);
    LtoaDigits(number, b);
    ghost var d := Digits(Abs(number), b);
    ghost var written := d + if number < 0 then "-" else "";
    assert |written| == |Ltoa(number, b)|;
    DigitsNotNul(Abs(number), b);
    var v := number;
    var neg := v < 0;
    if neg {
      v := -v;
    }
    var i := WriteDigits(v, buf, b);
    if neg {
      buf[i] := '-';
      i := i + 1;
      assert buf[..i] == d + "-";
    }
    buf[i] := NUL;
    assert buf[..i] == written;
    SioReverse(buf, written);
    assert forall k :: 0 <= k < |written| ==> buf[k] == buf[..|written|][k];
  }
}
