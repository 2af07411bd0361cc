/** Decimal text: what `printf` writes and `strtoul` reads.  A pointer into a string is the string from there on. */
module Decimal {
  const ULONG: nat := 0x1_0000_0000_0000_0000

  predicate IsDigit(c: char) { '0' <= c <= '9' }

  /** The character at the pointer: a string ends in a zero character. */
  function Head(s: string): char { if s == [] then '\0' else s[0] }

  function Tail(s: string): string { if s == [] then [] else s[1..] }

  function Digit(d: nat): (c: char)
    requires d < 10
    ensures IsDigit(c)
  {
    ('0' as int + d) as char
  }

  function DigitValue(c: char): (d: nat)
    requires IsDigit(c)
    ensures d < 10
  {
    c as int - '0' as int
  }

  /** "%u". */
  function Dec(n: nat): (t: string)
    ensures t != []
  {
    if n < 10 then [Digit(n)] else Dec(n / 10) + [Digit(n % 10)]
  }

  function Zeros(k: nat): (t: string)
    ensures |t| == k
  {
    seq(k, _ => '0')
  }

  /** "%0wu": at least `w` digits. */
  function Pad(n: nat, w: nat): string {
    if |Dec(n)| < w then Zeros(w - |Dec(n)|) + Dec(n) else Dec(n)
  }

  predicate AllDigits(t: string) { forall i | 0 <= i < |t| :: IsDigit(t[i]) }

  /** The number that a string of digits denotes. */
  function Value(t: string): nat
    requires AllDigits(t)
  {
    if t == [] then 0 else 10 * Value(t[..|t| - 1]) + DigitValue(t[|t| - 1])
  }

  /** How many digits the string starts with. */
  function Span(s: string): (n: nat)
    ensures n <= |s| && AllDigits(s[..n]) && !IsDigit(Head(s[n..]))
  {
    if s != [] && IsDigit(s[0]) then 1 + Span(s[1..]) else 0
  }

  predicate IsSpace(c: char) { c == ' ' || '\t' <= c <= '\r' }

  function SkipSpace(s: string): string {
    if s != [] && IsSpace(s[0]) then SkipSpace(s[1..]) else s
  }

  /** Numbers that do not fit read as the largest one. */
  function Clipped(v: nat): (c: nat)
    ensures c < ULONG
  {
    if v < ULONG then v else ULONG - 1
  }

  /** A minus sign counts down from 2^64, unless the number does not fit. */
  function Signed(v: nat, minus: bool): (c: nat)
    ensures c < ULONG
  {
    if minus && v < ULONG then (ULONG - v) % ULONG else Clipped(v)
  }

  function Unsigned(t: string): string { if Head(t) == '-' || Head(t) == '+' then Tail(t) else t }

  /** `strtoul(s, &end, 10)`: the value and what follows it; `s` itself if there is no number. */
  function Strtoul(s: string): (r: (nat, string))
    ensures r.0 < ULONG && |r.1| <= |s|
  {
    var t := SkipSpace(s);
    var digits := Unsigned(t);
    var k := Span(digits);
    if k == 0 then (0, s)
    else
      SkipIsShorter(s);
      (Signed(Value(digits[..k]), Head(t) == '-'), digits[k..])
  }

  lemma {:induction false} SkipIsShorter(s: string)
    ensures |SkipSpace(s)| <= |s|
  {
    if s != [] && IsSpace(s[0]) { SkipIsShorter(s[1..]); }
  }

  // ---------------------------------------------------------------------------------------
  // Reading what was written
  // ---------------------------------------------------------------------------------------

  function Pow10(k: nat): (p: nat)
    ensures 0 < p
  {
    if k == 0 then 1 else 10 * Pow10(k - 1)
  }

  lemma {:induction false} DecIsValue(n: nat)
    ensures AllDigits(Dec(n)) && Value(Dec(n)) == n
  {
    if n >= 10 {
      DecIsValue(n / 10);
      assert Dec(n)[..|Dec(n)| - 1] == Dec(n / 10);
    } else {
      assert Dec(n)[..0] == [];
    }
  }

  lemma {:induction false} DecLength(n: nat, w: nat)
    requires 0 < w
    ensures |Dec(n)| <= w <==> n < Pow10(w)
    decreases w
  {
    if n < 10 {
      Pow10Grows(1, w);
    } else if w == 1 {
      assert Pow10(1) == 10;
    } else {
      DecLength(n / 10, w - 1);
    }
  }

  lemma {:induction false} Pow10Grows(j: nat, k: nat)
    requires j <= k
    ensures Pow10(j) <= Pow10(k)
    decreases k
  {
    if j < k { Pow10Grows(j, k - 1); }
  }

  lemma {:induction false} ZerosAndDigits(k: nat, t: string)
    requires AllDigits(t)
    ensures AllDigits(Zeros(k) + t) && Value(Zeros(k) + t) == Value(t)
    decreases |t|, k
  {
    var s := Zeros(k) + t;
    if t != [] {
      ZerosAndDigits(k, t[..|t| - 1]);
      assert s[..|s| - 1] == Zeros(k) + t[..|t| - 1];
    } else if k > 0 {
      ZerosAndDigits(k - 1, []);
      assert s[..k - 1] == Zeros(k - 1) + [];
    }
  }

  lemma {:induction false} PadIsValue(n: nat, w: nat)
    ensures AllDigits(Pad(n, w)) && Value(Pad(n, w)) == n && Pad(n, w) != []
    ensures w > 0 && n < Pow10(w) ==> |Pad(n, w)| == w
  {
    hide Dec, Value;
    DecIsValue(n);
    if |Dec(n)| < w { ZerosAndDigits(w - |Dec(n)|, Dec(n)); }
    if w > 0 { DecLength(n, w); }
  }

  lemma {:induction false} SpanOf(t: string, rest: string)
    requires AllDigits(t) && !IsDigit(Head(rest))
    ensures Span(t + rest) == |t|
    decreases |t|
  {
    if t == [] {
      assert t + rest == rest;
    } else {
      SpanOf(t[1..], rest);
      assert (t + rest)[1..] == t[1..] + rest;
    }
  }

  lemma {:induction false} DigitsAreRead(t: string, rest: string)
    requires AllDigits(t) && t != [] && !IsDigit(Head(rest))
    ensures Strtoul(t + rest) == (Clipped(Value(t)), rest) && Head(t + rest) == t[0]
  {
    hide Value, Span;
    SpanOf(t, rest);
    assert (t + rest)[0] == t[0];
    assert (t + rest)[..|t|] == t && (t + rest)[|t|..] == rest;
  }

  lemma {:induction false} DigitsBound(t: string)
    requires AllDigits(t)
    ensures Value(t) < Pow10(|t|)
  {
    if t != [] { DigitsBound(t[..|t| - 1]); }
  }

  /** Reading back a formatted number, with whatever non-digit follows it. */
  lemma {:induction false} NumberIsRead(n: nat, w: nat, rest: string)
    requires n < ULONG && !IsDigit(Head(rest))
    ensures Strtoul(Pad(n, w) + rest) == (n, rest) && IsDigit(Head(Pad(n, w) + rest))
    ensures w > 0 && n < Pow10(w) ==> |Pad(n, w) + rest| - |rest| == w
    ensures |Pad(n, w) + rest| > |rest|
  {
    hide Pad, Strtoul, Value;
    PadIsValue(n, w);
    DigitsAreRead(Pad(n, w), rest);
  }

  // ---------------------------------------------------------------------------------------
  // Everything that reads as a number
  // ---------------------------------------------------------------------------------------

  /** White space and a sign, both optional, and digits. */
  predicate IsNumber(t: string) {
    var digits := Unsigned(SkipSpace(t));
    digits != [] && AllDigits(digits)
  }

  /** Its value. */
  function Number(t: string): nat
    requires IsNumber(t)
  {
    var u := SkipSpace(t);
    Signed(Value(Unsigned(u)), Head(u) == '-')
  }

  lemma {:induction false} SkipSpaceBefore(t: string, rest: string)
    requires SkipSpace(t) != []
    ensures SkipSpace(t + rest) == SkipSpace(t) + rest
    decreases |t|
  {
    if IsSpace(t[0]) {
      SkipSpaceBefore(t[1..], rest);
      assert (t + rest)[1..] == t[1..] + rest;
    }
  }

  lemma {:induction false} NumberStarts(t: string)
    requires IsNumber(t)
    ensures t != [] && (IsDigit(t[0]) || IsSpace(t[0]) || t[0] == '-' || t[0] == '+')
  {
  }

  /** Numbers are read up to whatever follows them. */
  lemma {:induction false} NumberTextIsRead(t: string, rest: string)
    requires IsNumber(t) && !IsDigit(Head(rest))
    ensures Strtoul(t + rest) == (Number(t), rest)
  {
    hide Value, Span, SkipSpace;
    SkipSpaceBefore(t, rest);
    var u := SkipSpace(t);
    assert Unsigned(u + rest) == Unsigned(u) + rest;
    SpanOf(Unsigned(u), rest);
    assert (Unsigned(u) + rest)[..|Unsigned(u)|] == Unsigned(u) && (Unsigned(u) + rest)[|Unsigned(u)|..] == rest;
  }

  lemma {:induction false} SkipSpaceInFront(s: string, n: nat)
    requires |s| - |SkipSpace(s)| < n <= |s|
    ensures SkipSpace(s[..n]) == SkipSpace(s)[..n - (|s| - |SkipSpace(s)|)]
    ensures |SkipSpace(s)| <= |s| && s[|s| - |SkipSpace(s)|..] == SkipSpace(s)
    decreases |s|
  {
    SkipIsShorter(s);
    if IsSpace(s[0]) {
      SkipIsShorter(s[1..]);
      SkipSpaceInFront(s[1..], n - 1);
      assert s[..n][1..] == s[1..][..n - 1];
    }
  }

  /** And whatever was read is a number. */
  lemma {:induction false} NumberWasRead(s: string)
    requires |Strtoul(s).1| < |s|
    ensures var end := Strtoul(s).1; var t := s[..|s| - |end|];
      s == t + end && IsNumber(t) && Number(t) == Strtoul(s).0 && !IsDigit(Head(end))
  {
    hide Value, SkipSpace, Span;
    SkipIsShorter(s);
    var u := SkipSpace(s);
    var digits := Unsigned(u);
    var k := Span(digits);
    var end := Strtoul(s).1;
    assert k > 0 && end == digits[k..];
    SkipSpaceInFront(s, |s| - |end|);
    var t := s[..|s| - |end|];
    assert SkipSpace(t) == u[..|u| - |end|];
    assert Unsigned(SkipSpace(t)) == digits[..k];
    assert s[|s| - |end|..] == end;
  }
}
