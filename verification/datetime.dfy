/** CIM datetime values and their WS-Management text form. */
module DatetimeText {
  import opened Decimal

  datatype Option<T> = None | Some(value: T)

  datatype Datetime =
    | Timestamp(year: nat, month: nat, day: nat, hour: nat, minute: nat, second: nat, micros: nat, utc: int)
    | Interval(days: nat, hours: nat, minutes: nat, seconds: nat, micros: nat)

  const U32: nat := 0x1_0000_0000

  /** All fields are 32 bits wide. */
  predicate IsDatetime(x: Datetime) {
    match x
    case Timestamp(y, mo, d, h, mi, se, us, utc) =>
      && y < U32 && mo < U32 && d < U32 && h < U32 && mi < U32 && se < U32 && us < U32
      && -0x8000_0000 <= utc < 0x8000_0000
    case Interval(d, h, mi, se, us) => d < U32 && h < U32 && mi < U32 && se < U32 && us < U32
  }

  function ToU32(n: nat): nat { n % U32 }

  /** The value of a 64-bit word stored into a signed 32-bit field. */
  function ToS32(n: int): int {
    var m := n % U32;
    if m < 0x8000_0000 then m else m - U32
  }

  /** A parsing step: the value and the text that follows. */
  datatype Parsed<T> = Fail | Ok(value: T, rest: string)

  // ---------------------------------------------------------------------------------------
  // Reading a timestamp
  // ---------------------------------------------------------------------------------------

  /** `_ParseNumber` where the caller insists on `w` characters. */
  function ParseField(s: string, w: nat): Parsed<nat> {
    var (n, end) := Strtoul(s);
    if |s| - |end| != w || end == s then Fail else Ok(n, end)
  }

  /** `*p++ == c`. */
  function Expect(s: string, c: char): Parsed<()> {
    if Head(s) == c then Ok((), Tail(s)) else Fail
  }

  /** `_ParseDecimalPart`: the first six digits, filled up with zeros. */
  function ParseFraction(s: string): (r: (nat, string)) {
    var (_, end) := Strtoul(s);
    if end == s then (0, s)
    else
      var k := if |s| - |end| < 6 then |s| - |end| else 6;
      (Strtoul(s[..k] + Zeros(6 - k)).0, end)
  }

  /** `_ParseWSManUTC`: `utc` is what the field holds already, and Z leaves it. */
  function ParseUtc(s: string, utc: int): Parsed<int> {
    if Head(s) == 'Z' then Ok(utc, Tail(s))
    else if Head(s) == '+' || Head(s) == '-' then
      match ParseField(Tail(s), 2)
      case Fail => Fail
      case Ok(hours, p) =>
        match Expect(p, ':')
        case Fail => Fail
        case Ok(_, q) =>
          match ParseField(q, 2)
          case Fail => Fail
          case Ok(minutes, end) =>
            Ok(ToS32((if Head(s) == '-' then -1 else 1) * (hours * 60 + minutes)), end)
    else Fail
  }

  /** The time zone, if there is one. */
  function ParseZone(s: string, utc: int): Parsed<int> {
    if Head(s) == 'Z' || Head(s) == '+' || Head(s) == '-' then ParseUtc(s, utc) else Ok(utc, s)
  }

  /** Two fields with a separator before the second. */
  function ParsePair(s: string, w: nat, c: char): Parsed<(nat, nat)> {
    match ParseField(s, w)
    case Fail => Fail
    case Ok(a, p) =>
      match Expect(p, c)
      case Fail => Fail
      case Ok(_, q) =>
        match ParseField(q, 2)
        case Fail => Fail
        case Ok(b, r) => Ok((a, b), r)
  }

  /** Three fields with the same separator. */
  function ParseTriple(s: string, w: nat, c: char): Parsed<(nat, nat, nat)> {
    match ParsePair(s, w, c)
    case Fail => Fail
    case Ok(ab, p) =>
      match Expect(p, c)
      case Fail => Fail
      case Ok(_, q) =>
        match ParseField(q, 2)
        case Fail => Fail
        case Ok(d, r) => Ok((ab.0, ab.1, d), r)
  }

  /** `_ParseWSManDate`. */
  function ParseDate(s: string): Parsed<Datetime> {
    match ParseTriple(s, 4, '-')
    case Fail => Fail
    case Ok(d, p) =>
      match ParseZone(p, 0)
      case Fail => Fail
      case Ok(utc, q) => Ok(Timestamp(ToU32(d.0), ToU32(d.1), ToU32(d.2), 0, 0, 0, 0, utc), q)
  }

  /** `_ParseWSManTime`, into a timestamp that has its date. */
  function ParseTime(s: string, x: Datetime): Parsed<Datetime>
    requires x.Timestamp?
  {
    match ParseTriple(s, 2, ':')
    case Fail => Fail
    case Ok(t, p) =>
      var (micros, q) := if Head(p) == '.' then ParseFraction(Tail(p)) else (0, p);
      match ParseZone(q, x.utc)
      case Fail => Fail
      case Ok(utc, r) =>
        Ok(x.(hour := ToU32(t.0), minute := ToU32(t.1), second := ToU32(t.2), micros := ToU32(micros), utc := utc), r)
  }

  const ZERO: Datetime := Timestamp(0, 0, 0, 0, 0, 0, 0, 0)

  predicate StartsWithDigits(s: string, k: nat) { |s| >= k && AllDigits(s[..k]) }

  predicate LooksLikeTime(s: string) { StartsWithDigits(s, 2) && |s| > 2 && s[2] == ':' }

  /** The last resort of `ParseWSManDatetime`: the whole text is a time, `p` deciding whether to try. */
  function TimeOnly(s: string, p: string, x: Datetime): Option<Datetime>
    requires x.Timestamp?
  {
    if !LooksLikeTime(p) then None
    else
      match ParseTime(s, x)
      case Fail => None
      case Ok(y, rest) => if rest == [] then Some(y) else None
  }

  /** `ParseWSManDatetime` on text that is not a duration. */
  function ParseStamp(s: string): Option<Datetime> {
    if Head(s) == '-' then None
    else if !StartsWithDigits(s, 4) then TimeOnly(s, s, ZERO)
    else
      match ParseDate(s)
      case Fail => None
      case Ok(x, p) =>
        if p == [] then Some(x)
        else if Head(p) != 'T' then TimeOnly(s, p, x)
        else
          match ParseTime(Tail(p), x)
          case Fail => None
          case Ok(y, q) => if q == [] then Some(y) else TimeOnly(s, q, y)
  }

  // ---------------------------------------------------------------------------------------
  // Writing a timestamp
  // ---------------------------------------------------------------------------------------

  function UtcText(utc: int): string {
    if utc > 0 then "+" + (Pad(utc / 60, 2) + (":" + Pad(utc % 60, 2)))
    else if utc < 0 then "-" + (Pad(-utc / 60, 2) + (":" + Pad(-utc % 60, 2)))
    else "Z"
  }

  function FractionText(micros: nat, rest: string): string {
    if micros == 0 then rest else "." + (Pad(micros, 6) + rest)
  }

  /** Three fields, the first at least `w` wide, in front of `rest`. */
  function TripleText(a: nat, b: nat, c: nat, w: nat, sep: char, rest: string): string {
    Pad(a, w) + ([sep] + (Pad(b, 2) + ([sep] + (Pad(c, 2) + rest))))
  }

  function TimeText(x: Datetime): string
    requires x.Timestamp?
  {
    TripleText(x.hour, x.minute, x.second, 2, ':', FractionText(x.micros, UtcText(x.utc)))
  }

  /** `FormatWSManDatetime` on a timestamp, before it is cut to the buffer. */
  function StampText(x: Datetime): string
    requires x.Timestamp?
  {
    TripleText(x.year, x.month, x.day, 4, '-', "T" + TimeText(x))
  }

  /** A buffer of 64 characters keeps 63. */
  function Clip(s: string): string { if |s| < 64 then s else s[..63] }

  /** Every field fits the columns it is written in. */
  predicate InRange(x: Datetime) {
    && x.Timestamp? && x.year < 10000 && x.month < 100 && x.day < 100
    && x.hour < 100 && x.minute < 100 && x.second < 100 && x.micros < 1000000 && -6000 < x.utc < 6000
  }

  // ---------------------------------------------------------------------------------------
  // Reading what was written
  // ---------------------------------------------------------------------------------------

  lemma {:induction false} Powers()
    ensures Pow10(1) == 10 && Pow10(2) == 100 && Pow10(3) == 1000 && Pow10(4) == 10000 && Pow10(5) == 100000
    ensures Pow10(6) == 1000000 && Pow10(8) == 100000000 && Pow10(10) == 10000000000
  {
    assert Pow10(2) == 100;
    assert Pow10(4) == 10000;
    assert Pow10(6) == 1000000;
    assert Pow10(8) == 100000000;
  }

  lemma {:induction false} FieldIsRead(n: nat, w: nat, rest: string)
    requires 0 < w && n < Pow10(w) && n < ULONG && !IsDigit(Head(rest))
    ensures ParseField(Pad(n, w) + rest, w) == Ok(n, rest) && |Pad(n, w) + rest| == w + |rest|
  {
    hide Pad, Strtoul, Pow10;
    NumberIsRead(n, w, rest);
  }

  lemma {:induction false} CharIsRead(c: char, rest: string)
    ensures Expect([c] + rest, c) == Ok((), rest) && Head([c] + rest) == c && Tail([c] + rest) == rest
  {
    assert ([c] + rest)[1..] == rest;
  }

  /** A field is as wide as it is meant to be, or wider. */
  lemma {:induction false} PadWidth(n: nat, w: nat)
    requires 0 < w
    ensures |Pad(n, w)| >= w && AllDigits(Pad(n, w)) && (|Pad(n, w)| == w <==> n < Pow10(w))
    ensures n < U32 && w <= 10 ==> |Pad(n, w)| <= 10
  {
    hide Dec, Pow10, Value;
    PadIsValue(n, w);
    DecLength(n, w);
    DecLength(n, 10);
    Powers();
  }

  lemma {:induction false} TripleStarts(a: nat, b: nat, c: nat, w: nat, sep: char, rest: string)
    requires w > 0
    ensures StartsWithDigits(TripleText(a, b, c, w, sep, rest), w)
    ensures IsDigit(Head(TripleText(a, b, c, w, sep, rest)))
  {
    hide Pad, Pow10;
    PadWidth(a, w);
    var t := TripleText(a, b, c, w, sep, rest);
    assert t[..w] == Pad(a, w)[..w];
    assert t[0] == Pad(a, w)[0];
  }

  lemma {:induction false} ZoneIsRead(utc: int)
    requires -6000 < utc < 6000
    ensures ParseZone(UtcText(utc), 0) == Ok(utc, []) && !IsDigit(Head(UtcText(utc))) && Head(UtcText(utc)) != '.'
    ensures |UtcText(utc)| <= 6
  {
    hide Pad, ParseUtc;
    if utc == 0 {
      ZuluIsRead();
    } else {
      var n := if utc > 0 then utc else -utc;
      var sign := if utc > 0 then '+' else '-';
      SignedIsRead(sign, n);
      assert UtcText(utc) == [sign] + (Pad(n / 60, 2) + (":" + Pad(n % 60, 2)));
    }
  }

  lemma {:induction false} ZuluIsRead()
    ensures ParseUtc("Z", 0) == Ok(0, [])
  {
    assert Tail("Z") == [];
  }

  lemma {:induction false} SignedIsRead(sign: char, n: nat)
    requires (sign == '+' || sign == '-') && n < 6000
    ensures var t := [sign] + (Pad(n / 60, 2) + (":" + Pad(n % 60, 2)));
      ParseUtc(t, 0) == Ok((if sign == '-' then -1 else 1) * n, []) && Head(t) == sign && |t| == 6
  {
    hide Pad, ParseField, Expect, Pow10;
    Powers();
    var end: string := [];
    FieldIsRead(n % 60, 2, end);
    assert Pad(n % 60, 2) + end == Pad(n % 60, 2);
    CharIsRead(':', Pad(n % 60, 2));
    FieldIsRead(n / 60, 2, ":" + Pad(n % 60, 2));
    CharIsRead(sign, Pad(n / 60, 2) + (":" + Pad(n % 60, 2)));
    assert n / 60 * 60 + n % 60 == n;
  }

  // ---------------------------------------------------------------------------------------
  // Reading what was written too wide
  // ---------------------------------------------------------------------------------------

  lemma {:induction false} WideFieldIsRefused(n: nat, w: nat, rest: string)
    requires 0 < w && Pow10(w) <= n < ULONG && !IsDigit(Head(rest))
    ensures ParseField(Pad(n, w) + rest, w) == Fail
  {
    hide Pad, Strtoul, Pow10;
    NumberIsRead(n, w, rest);
    PadWidth(n, w);
  }

  predicate TripleFits(a: nat, b: nat, c: nat, w: nat) { a < Pow10(w) && b < 100 && c < 100 }

  /** Three fields are read exactly when each fits its columns: the first that does not is refused. */
  lemma {:induction false} TripleIsRead(a: nat, b: nat, c: nat, w: nat, sep: char, rest: string)
    requires (w == 2 || w == 4) && a < U32 && b < U32 && c < U32 && !IsDigit(sep) && !IsDigit(Head(rest))
    ensures ParseTriple(TripleText(a, b, c, w, sep, rest), w, sep)
      == if TripleFits(a, b, c, w) then Ok((a, b, c), rest) else Fail
  {
    hide Pad, Pow10, ParseField, Expect;
    Powers();
    var t3 := Pad(c, 2) + rest;
    var t2 := Pad(b, 2) + ([sep] + t3);
    CharIsRead(sep, t3);
    CharIsRead(sep, t2);
    if c < 100 { FieldIsRead(c, 2, rest); } else { WideFieldIsRefused(c, 2, rest); }
    if b < 100 { FieldIsRead(b, 2, [sep] + t3); } else { WideFieldIsRefused(b, 2, [sep] + t3); }
    if a < Pow10(w) { FieldIsRead(a, w, [sep] + t2); } else { WideFieldIsRefused(a, w, [sep] + t2); }
  }

  /** The first `k` characters, or all of them. */
  function Cut(s: string, k: nat): string { if |s| <= k then s else s[..k] }

  /** Three fields are never so wide that the buffer cuts into them. */
  lemma {:induction false} CutAfterTriple(a: nat, b: nat, c: nat, w: nat, sep: char, rest: string,
      k: nat) returns (j: nat)
    requires (w == 2 || w == 4) && a < U32 && b < U32 && c < U32 && k > 32
    ensures 0 < j && Cut(TripleText(a, b, c, w, sep, rest), k) == TripleText(a, b, c, w, sep, Cut(rest, j))
    ensures TripleFits(a, b, c, w) ==> j == k - (w + 6)
  {
    hide Pad, Pow10;
    Powers();
    PadWidth(a, w);
    PadWidth(b, 2);
    PadWidth(c, 2);
    var front := Pad(a, w) + ([sep] + (Pad(b, 2) + ([sep] + Pad(c, 2))));
    j := k - |front|;
    assert TripleText(a, b, c, w, sep, rest) == front + rest;
    assert TripleText(a, b, c, w, sep, Cut(rest, j)) == front + Cut(rest, j);
    assert |rest| > j ==> (front + rest)[..k] == front + rest[..j];
  }

  lemma {:induction false} WideZoneIsRefused(utc: int)
    requires -0x8000_0000 <= utc < 0x8000_0000 && !(-6000 < utc < 6000)
    ensures ParseZone(UtcText(utc), 0) == Fail
  {
    hide Pad, ParseField;
    var n := if utc > 0 then utc else -utc;
    var sign := if utc > 0 then '+' else '-';
    var rest := Pad(n / 60, 2) + (":" + Pad(n % 60, 2));
    assert UtcText(utc) == [sign] + rest;
    Powers();
    CharIsRead(sign, rest);
    WideFieldIsRefused(n / 60, 2, ":" + Pad(n % 60, 2));
  }

  lemma {:induction false} ZoneStarts(utc: int)
    ensures !IsDigit(Head(UtcText(utc))) && Head(UtcText(utc)) != '.'
    ensures -0x8000_0000 <= utc < 0x8000_0000 ==> |UtcText(utc)| <= 14
  {
    hide Pad, Pow10;
    Powers();
    var n := if utc > 0 then utc else -utc;
    PadWidth(n / 60, 2);
    PadWidth(n % 60, 2);
  }

  lemma {:induction false} SixDigits(t: string)
    requires AllDigits(t) && |t| == 6
    ensures Strtoul(t).0 == Value(t) < 1000000
  {
    hide Strtoul, Pow10, Value;
    Powers();
    DigitsBound(t);
    DigitsAreRead(t, []);
    assert t + [] == t;
  }

  /** Of wider microseconds only the first six digits are read. */
  lemma {:induction false} FractionIsSixDigits(micros: nat, rest: string)
    requires micros < ULONG && !IsDigit(Head(rest))
    ensures var r := ParseFraction(Pad(micros, 6) + rest);
      r.1 == rest && r.0 < 1000000 && (r.0 == micros <==> micros < 1000000)
  {
    hide Pad, Pow10, Strtoul, Value;
    Powers();
    PadWidth(micros, 6);
    NumberIsRead(micros, 6, rest);
    var t := Pad(micros, 6);
    assert (t + rest)[..6] + Zeros(0) == t[..6];
    SixDigits(t[..6]);
    if |t| == 6 {
      assert t[..6] == t;
      PadIsValue(micros, 6);
    }
  }

  /** The time section is read back, if it is read at all, up to six digits of microseconds. */
  lemma {:induction false} TimeIsRead(x: Datetime, d: Datetime)
    requires x.Timestamp? && IsDatetime(x) && d.Timestamp? && d.utc == 0
    requires TripleFits(x.hour, x.minute, x.second, 2)
    ensures ParseTime(TimeText(x), d).Ok? <==> -6000 < x.utc < 6000
    ensures ParseTime(TimeText(x), d).Ok? ==>
      var r := ParseTime(TimeText(x), d);
      && r.rest == [] && (r.value.micros == x.micros <==> x.micros < 1000000)
      && r.value == d.(hour := x.hour, minute := x.minute, second := x.second, micros := r.value.micros, utc := x.utc)
  {
    hide ParseTriple, TripleText, ParseZone, UtcText, ParseFraction, Pad, Pow10;
    Powers();
    var zone := UtcText(x.utc);
    ZoneStarts(x.utc);
    if -6000 < x.utc < 6000 { ZoneIsRead(x.utc); } else { WideZoneIsRefused(x.utc); }
    var tail := FractionText(x.micros, zone);
    if x.micros > 0 {
      FractionIsSixDigits(x.micros, zone);
      CharIsRead('.', Pad(x.micros, 6) + zone);
    }
    TripleIsRead(x.hour, x.minute, x.second, 2, ':', tail);
  }

  lemma {:induction false} TimeStarts(x: Datetime)
    requires x.Timestamp? && IsDatetime(x)
    ensures var tail := FractionText(x.micros, UtcText(x.utc)); tail != [] && !IsDigit(Head(tail)) && |tail| <= 25
  {
    hide Pad, Pow10, UtcText;
    ZoneStarts(x.utc);
    PadWidth(x.micros, 6);
    NoEmptyZone(x.utc);
  }

  lemma {:induction false} NoEmptyZone(utc: int)
    ensures UtcText(utc) != []
  {
    hide Pad;
  }

  lemma {:induction false} HeadOfCut(s: string, k: nat)
    requires k > 0
    ensures Head(Cut(s, k)) == Head(s)
  {
  }

  /** The time section as the buffer leaves it: refused when hour, minute or second is too wide, whole otherwise. */
  lemma {:induction false} CutTime(x: Datetime, d: Datetime)
    requires x.Timestamp? && IsDatetime(x) && d.Timestamp?
    ensures if TripleFits(x.hour, x.minute, x.second, 2)
      then Cut(TimeText(x), 52) == TimeText(x) else ParseTime(Cut(TimeText(x), 52), d) == Fail
  {
    hide ParseTriple, UtcText, FractionText, Pad, Pow10, Cut, TripleText;
    var tail := FractionText(x.micros, UtcText(x.utc));
    TimeStarts(x);
    var j := CutAfterTriple(x.hour, x.minute, x.second, 2, ':', tail, 52);
    HeadOfCut(tail, j);
    if TripleFits(x.hour, x.minute, x.second, 2) {
      Uncut(tail, j);
    } else {
      TripleIsRead(x.hour, x.minute, x.second, 2, ':', Cut(tail, j));
    }
  }

  lemma {:induction false} Uncut(s: string, k: nat)
    requires |s| <= k
    ensures Cut(s, k) == s
  {
  }

  lemma {:induction false} CutOne(c: char, s: string, k: nat)
    requires k > 0
    ensures Cut([c] + s, k) == [c] + Cut(s, k - 1)
  {
    assert |s| > k - 1 ==> ([c] + s)[..k] == [c] + s[..k - 1];
  }

  lemma {:induction false} ClipIsCut(s: string)
    ensures Clip(s) == Cut(s, 63)
  {
  }

  predicate DateFits(x: Datetime) { x.Timestamp? && TripleFits(x.year, x.month, x.day, 4) }

  /** The date section as the buffer leaves it. */
  lemma {:induction false} CutDate(x: Datetime)
    requires x.Timestamp? && IsDatetime(x)
    ensures var s := Clip(StampText(x));
      && StartsWithDigits(s, 4) && IsDigit(Head(s))
      && ParseDate(s) == if DateFits(x)
        then Ok(Timestamp(x.year, x.month, x.day, 0, 0, 0, 0, 0), "T" + Cut(TimeText(x), 52)) else Fail
  {
    hide ParseTriple, TimeText, Pow10, Cut, TripleText, StartsWithDigits, Clip;
    var t := "T" + TimeText(x);
    ClipIsCut(StampText(x));
    var j := CutAfterTriple(x.year, x.month, x.day, 4, '-', t, 63);
    HeadOfCut(t, j);
    TripleStarts(x.year, x.month, x.day, 4, '-', Cut(t, j));
    TripleIsRead(x.year, x.month, x.day, 4, '-', Cut(t, j));
    if DateFits(x) { CutOne('T', TimeText(x), 53); }
  }

  lemma {:induction false} RangeOf(x: Datetime)
    requires x.Timestamp?
    ensures InRange(x)
      <==> DateFits(x) && TripleFits(x.hour, x.minute, x.second, 2) && x.micros < 1000000 && -6000 < x.utc < 6000
  {
    hide Pow10;
    Powers();
  }

  /** A timestamp is read back exactly when every field fits its columns. */
  lemma {:induction false} StampRoundTrip(x: Datetime)
    requires x.Timestamp? && IsDatetime(x)
    ensures ParseStamp(Clip(StampText(x))) == Some(x) <==> InRange(x)
  {
    hide ParseTime, ParseDate, TimeText, StampText, Clip, Cut, TripleFits, StartsWithDigits, InRange;
    RangeOf(x);
    CutDate(x);
    if DateFits(x) {
      var d := Timestamp(x.year, x.month, x.day, 0, 0, 0, 0, 0);
      CharIsRead('T', Cut(TimeText(x), 52));
      CutTime(x, d);
      if TripleFits(x.hour, x.minute, x.second, 2) { TimeIsRead(x, d); }
    }
  }
}
