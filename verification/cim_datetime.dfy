/** The 25-character text form of CIM datetime values. */
module CimText {
  import opened Decimal
  import opened DatetimeText

  // ---------------------------------------------------------------------------------------
  // Reading and writing
  // ---------------------------------------------------------------------------------------

  /** `_StrDatetime_CheckAsterisk_ToU32` on the column of `size` characters at `at`; asterisks count as zero. */
  function Column(s: string, at: nat, size: nat): Option<nat>
    requires at + size <= |s| && size > 0
  {
    var t := s[at..at + size];
    if t[0] == '*' then (if forall i | 0 <= i < size :: t[i] == '*' then Some(0) else None)
    else
      var (n, end) := Strtoul(t);
      if end == [] then Some(ToU32(n)) else None
  }

  function Negate(n: nat, minus: bool): int { if minus then -ToS32(n) else ToS32(n) }

  /** `StrToDatetime`. */
  function FromCim(s: string): Option<Datetime> {
    if |s| != 25 then None
    else if s[21] == '+' || s[21] == '-' then
      match (Column(s, 0, 4), Column(s, 4, 2), Column(s, 6, 2), Column(s, 8, 2), Column(s, 10, 2), Column(s, 12, 2),
        Column(s, 15, 6), Column(s, 22, 3))
      case (Some(y), Some(mo), Some(d), Some(h), Some(mi), Some(se), Some(us), Some(utc)) =>
        if s[14] == '.' then Some(Timestamp(y, mo, d, h, mi, se, us, Negate(utc, s[21] == '-'))) else None
      case _ => None
    else if s[21] == ':' then
      match (Column(s, 0, 8), Column(s, 8, 2), Column(s, 10, 2), Column(s, 12, 2), Column(s, 15, 6))
      case (Some(d), Some(h), Some(mi), Some(se), Some(us)) =>
        if s[14] == '.' && s[22..] == "000" then Some(Interval(d, h, mi, se, us)) else None
      case _ => None
    else None
  }

  function Join(parts: seq<string>): string {
    if parts == [] then [] else parts[0] + Join(parts[1..])
  }

  /** "%0wd" on an unsigned field: from 2^31 on it prints as a negative number. */
  function PadSigned(n: nat, w: nat): string
    requires 0 < w && n < U32
  {
    if ToS32(n) >= 0 then Pad(n, w) else "-" + Pad(U32 - n, w - 1)
  }

  /** `DatetimeToStr`, before it is cut to the buffer of 26. */
  function CimParts(x: Datetime): seq<string>
    requires IsDatetime(x)
  {
    if x.Timestamp? then
      [PadSigned(x.year, 4), PadSigned(x.month, 2), PadSigned(x.day, 2), PadSigned(x.hour, 2), PadSigned(x.minute, 2),
       PadSigned(x.second, 2), ".", PadSigned(x.micros, 6), if x.utc < 0 then "-" else "+",
       PadSigned(if x.utc < 0 then -x.utc else x.utc, 3)]
    else
      [Pad(x.days, 8), Pad(x.hours, 2), Pad(x.minutes, 2), Pad(x.seconds, 2), ".", Pad(x.micros, 6), ":000"]
  }

  function ToCim(x: Datetime): string
    requires IsDatetime(x)
  {
    var t := Join(CimParts(x));
    if |t| < 26 then t else t[..25]
  }

  // ---------------------------------------------------------------------------------------
  // Which fields fit
  // ---------------------------------------------------------------------------------------

  /** The field fits `w` columns: as itself, or as a small negative number with its sign. */
  predicate InColumns(n: nat, w: nat)
    requires w > 0
  {
    n < Pow10(w) || U32 - n < Pow10(w - 1)
  }

  predicate CimRange(x: Datetime) {
    match x
    case Timestamp(y, mo, d, h, mi, se, us, utc) =>
      && InColumns(y, 4) && InColumns(mo, 2) && InColumns(d, 2) && InColumns(h, 2) && InColumns(mi, 2)
      && InColumns(se, 2) && InColumns(us, 6) && -1000 < utc < 1000
    case Interval(d, h, mi, se, us) => d < 100000000 && h < 100 && mi < 100 && se < 100 && us < 1000000
  }

  /** A digit, or the sign in front. */
  predicate IsPlain(t: string) { t != [] && (t[0] == '-' || IsDigit(t[0])) && AllDigits(t[1..]) }

  /** No field is narrower than its columns, and it has their width exactly when it fits. */
  lemma {:induction false} SignedWidth(n: nat, w: nat)
    requires (w == 2 || w == 3 || w == 4 || w == 6) && n < U32
    ensures |PadSigned(n, w)| >= w && IsPlain(PadSigned(n, w)) && (|PadSigned(n, w)| == w <==> InColumns(n, w))
  {
    hide Pad, Pow10;
    Powers();
    if ToS32(n) >= 0 {
      PadWidth(n, w);
    } else {
      PadWidth(U32 - n, w - 1);
      assert PadSigned(n, w)[1..] == Pad(U32 - n, w - 1);
    }
  }

  lemma {:induction false} UnsignedWidth(n: nat, w: nat)
    requires w > 0
    ensures |Pad(n, w)| >= w && IsPlain(Pad(n, w)) && (|Pad(n, w)| == w <==> n < Pow10(w))
  {
    hide Pad, Pow10;
    PadWidth(n, w);
  }

  // ---------------------------------------------------------------------------------------
  // Where the fields are
  // ---------------------------------------------------------------------------------------

  /** Where part `i` starts. */
  function StartOf(parts: seq<string>, i: nat): nat
    requires i <= |parts|
  {
    if i == 0 then 0 else StartOf(parts, i - 1) + |parts[i - 1]|
  }

  lemma {:induction false} StartOfTail(parts: seq<string>, i: nat)
    requires 0 < i <= |parts|
    ensures StartOf(parts, i) == |parts[0]| + StartOf(parts[1..], i - 1)
  {
    if i > 1 { StartOfTail(parts, i - 1); }
  }

  lemma {:induction false} PartAt(parts: seq<string>, i: nat)
    requires i < |parts|
    ensures StartOf(parts, i) + |parts[i]| <= |Join(parts)|
    ensures Join(parts)[StartOf(parts, i)..StartOf(parts, i) + |parts[i]|] == parts[i]
    decreases |parts|
  {
    var t := Join(parts);
    if i > 0 {
      StartOfTail(parts, i);
      PartAt(parts[1..], i - 1);
      var k := StartOf(parts[1..], i - 1);
      assert t[StartOf(parts, i)..StartOf(parts, i) + |parts[i]|] == Join(parts[1..])[k..k + |parts[i]|];
    }
  }

  lemma {:induction false} JoinLength(parts: seq<string>)
    ensures |Join(parts)| == StartOf(parts, |parts|)
    decreases |parts|
  {
    if parts != [] {
      JoinLength(parts[1..]);
      StartOfTail(parts, |parts|);
    }
  }

  lemma {:induction false} LiteralAt(parts: seq<string>, i: nat, at: nat, k: nat)
    requires i < |parts| && at == StartOf(parts, i) && k < |parts[i]|
    ensures at + k < |Join(parts)| && Join(parts)[at + k] == parts[i][k]
  {
    hide Join, StartOf;
    PartAt(parts, i);
  }

  lemma {:induction false} Starts(parts: seq<string>, i: nat)
    requires i < |parts|
    ensures StartOf(parts, 0) == 0 && StartOf(parts, i + 1) == StartOf(parts, i) + |parts[i]|
  {
  }

  // ---------------------------------------------------------------------------------------
  // Fields that fit are read back
  // ---------------------------------------------------------------------------------------

  lemma {:induction false} DigitsColumn(s: string, at: nat, n: nat, w: nat)
    requires 0 < w && n < Pow10(w) && n < U32 && at + w <= |s| && s[at..at + w] == Pad(n, w)
    ensures Column(s, at, w) == Some(n)
  {
    hide Pad, Strtoul, Pow10;
    NumberIsRead(n, w, []);
    assert Pad(n, w) + [] == Pad(n, w);
    PadIsValue(n, w);
  }

  /** A field printed with a sign is read as its distance from 2^64, which ends in the same 32 bits. */
  lemma {:induction false} MinusIsRead(v: nat, w: nat)
    requires 0 < v < U32
    ensures Strtoul("-" + Pad(v, w)) == (ULONG - v, [])
  {
    hide Pad, Strtoul, Value;
    var t := "-" + Pad(v, w);
    PadIsValue(v, w);
    assert Unsigned(SkipSpace(t)) == Pad(v, w);
    NumberTextIsRead(t, []);
    assert t + [] == t;
  }

  lemma {:induction false} ColumnIsRead(s: string, at: nat, n: nat, w: nat)
    requires (w == 2 || w == 3 || w == 4 || w == 6) && n < U32 && InColumns(n, w)
    requires at + w <= |s| && s[at..at + w] == PadSigned(n, w)
    ensures Column(s, at, w) == Some(n)
  {
    hide Pad, Strtoul, Pow10;
    Powers();
    if ToS32(n) >= 0 {
      DigitsColumn(s, at, n, w);
    } else {
      MinusIsRead(U32 - n, w - 1);
      assert ToU32(ULONG - (U32 - n)) == n;
    }
  }

  lemma {:induction false} SignedPartIsRead(parts: seq<string>, i: nat, at: nat, n: nat, w: nat)
    requires (w == 2 || w == 3 || w == 4 || w == 6) && n < U32 && InColumns(n, w)
    requires i < |parts| && parts[i] == PadSigned(n, w) && at == StartOf(parts, i)
    ensures at + w <= |Join(parts)| && Column(Join(parts), at, w) == Some(n)
  {
    hide PadSigned, InColumns, Join, StartOf, Column;
    SignedWidth(n, w);
    PartAt(parts, i);
    ColumnIsRead(Join(parts), at, n, w);
  }

  lemma {:induction false} PartIsRead(parts: seq<string>, i: nat, at: nat, n: nat, w: nat)
    requires i < |parts| && 0 < w && n < Pow10(w) && n < U32 && parts[i] == Pad(n, w) && at == StartOf(parts, i)
    ensures at + w <= |Join(parts)| && Column(Join(parts), at, w) == Some(n)
  {
    hide Pad, Pow10, Join, StartOf, Column;
    UnsignedWidth(n, w);
    PartAt(parts, i);
    DigitsColumn(Join(parts), at, n, w);
  }

  function Magnitude(x: Datetime): nat
    requires x.Timestamp?
  {
    if x.utc < 0 then -x.utc else x.utc
  }

  /** The width of every field of a timestamp. */
  lemma {:induction false} StampWidths(x: Datetime)
    requires x.Timestamp? && IsDatetime(x)
    ensures var p := CimParts(x);
      && |p[0]| >= 4 && |p[1]| >= 2 && |p[2]| >= 2 && |p[3]| >= 2 && |p[4]| >= 2 && |p[5]| >= 2
      && |p[7]| >= 6 && |p[9]| >= 3
      && (|p[0]| == 4 <==> InColumns(x.year, 4)) && (|p[1]| == 2 <==> InColumns(x.month, 2))
      && (|p[2]| == 2 <==> InColumns(x.day, 2)) && (|p[3]| == 2 <==> InColumns(x.hour, 2))
      && (|p[4]| == 2 <==> InColumns(x.minute, 2)) && (|p[5]| == 2 <==> InColumns(x.second, 2))
      && (|p[7]| == 6 <==> InColumns(x.micros, 6)) && (|p[9]| == 3 <==> InColumns(Magnitude(x), 3))
    ensures forall i | 0 <= i < 10 && i != 6 && i != 8 :: IsPlain(CimParts(x)[i])
  {
    hide PadSigned, InColumns, IsPlain;
    SignedWidth(x.year, 4);
    SignedWidth(x.month, 2);
    SignedWidth(x.day, 2);
    SignedWidth(x.hour, 2);
    SignedWidth(x.minute, 2);
    SignedWidth(x.second, 2);
    SignedWidth(x.micros, 6);
    SignedWidth(Magnitude(x), 3);
  }

  /** The offsets fit when they have three digits. */
  lemma {:induction false} OffsetFits(x: Datetime)
    requires x.Timestamp? && IsDatetime(x)
    ensures InColumns(Magnitude(x), 3) <==> -1000 < x.utc < 1000
  {
    hide Pow10;
    Powers();
  }

  lemma {:induction false} StampStarts(x: Datetime, p: seq<string>)
    requires x.Timestamp? && IsDatetime(x) && CimRange(x) && p == CimParts(x)
    ensures StartOf(p, 0) == 0 && StartOf(p, 1) == 4 && StartOf(p, 2) == 6 && StartOf(p, 3) == 8 && StartOf(p, 4) == 10
    ensures StartOf(p, 5) == 12 && StartOf(p, 6) == 14 && StartOf(p, 7) == 15 && StartOf(p, 8) == 21
    ensures StartOf(p, 9) == 22 && |Join(p)| == 25
  {
    hide PadSigned, InColumns, Join, StartOf, IsPlain;
    StampWidths(x);
    OffsetFits(x);
    Starts(p, 0);
    Starts(p, 1);
    Starts(p, 2);
    Starts(p, 3);
    Starts(p, 4);
    Starts(p, 5);
    Starts(p, 6);
    Starts(p, 7);
    Starts(p, 8);
    Starts(p, 9);
    JoinLength(p);
  }

  lemma {:induction false} SmallSigned(n: nat)
    requires n < 0x8000_0000
    ensures ToS32(n) == n
  {
  }

  lemma {:induction false} StampComesBack(x: Datetime)
    requires x.Timestamp? && IsDatetime(x) && CimRange(x)
    ensures FromCim(ToCim(x)) == Some(x)
  {
    hide PadSigned, InColumns, Join, StartOf, Column, ToS32;
    var p := CimParts(x);
    StampStarts(x, p);
    OffsetFits(x);
    SmallSigned(Magnitude(x));
    SignedPartIsRead(p, 0, 0, x.year, 4);
    SignedPartIsRead(p, 1, 4, x.month, 2);
    SignedPartIsRead(p, 2, 6, x.day, 2);
    SignedPartIsRead(p, 3, 8, x.hour, 2);
    SignedPartIsRead(p, 4, 10, x.minute, 2);
    SignedPartIsRead(p, 5, 12, x.second, 2);
    LiteralAt(p, 6, 14, 0);
    SignedPartIsRead(p, 7, 15, x.micros, 6);
    LiteralAt(p, 8, 21, 0);
    SignedPartIsRead(p, 9, 22, Magnitude(x), 3);
  }

  lemma {:induction false} IntervalWidths(x: Datetime)
    requires x.Interval?
    ensures |Pad(x.days, 8)| >= 8 && |Pad(x.hours, 2)| >= 2 && |Pad(x.minutes, 2)| >= 2 && |Pad(x.seconds, 2)| >= 2
    ensures |Pad(x.micros, 6)| >= 6
    ensures |Pad(x.days, 8)| == 8 <==> x.days < 100000000
    ensures |Pad(x.hours, 2)| == 2 <==> x.hours < 100
    ensures |Pad(x.minutes, 2)| == 2 <==> x.minutes < 100
    ensures |Pad(x.seconds, 2)| == 2 <==> x.seconds < 100
    ensures |Pad(x.micros, 6)| == 6 <==> x.micros < 1000000
    ensures IsPlain(Pad(x.days, 8)) && IsPlain(Pad(x.hours, 2)) && IsPlain(Pad(x.minutes, 2))
    ensures IsPlain(Pad(x.seconds, 2)) && IsPlain(Pad(x.micros, 6))
  {
    hide Pad, Pow10, IsPlain;
    Powers();
    UnsignedWidth(x.days, 8);
    UnsignedWidth(x.hours, 2);
    UnsignedWidth(x.minutes, 2);
    UnsignedWidth(x.seconds, 2);
    UnsignedWidth(x.micros, 6);
  }

  lemma {:induction false} IntervalStarts(x: Datetime, p: seq<string>)
    requires x.Interval? && IsDatetime(x) && CimRange(x) && p == CimParts(x)
    ensures StartOf(p, 0) == 0 && StartOf(p, 1) == 8 && StartOf(p, 2) == 10 && StartOf(p, 3) == 12
    ensures StartOf(p, 4) == 14 && StartOf(p, 5) == 15 && StartOf(p, 6) == 21 && |Join(p)| == 25
  {
    hide Pad, Join, StartOf, IsPlain;
    IntervalWidths(x);
    Starts(p, 0);
    Starts(p, 1);
    Starts(p, 2);
    Starts(p, 3);
    Starts(p, 4);
    Starts(p, 5);
    Starts(p, 6);
    JoinLength(p);
  }

  lemma {:induction false} IntervalComesBack(x: Datetime)
    requires x.Interval? && IsDatetime(x) && CimRange(x)
    ensures FromCim(ToCim(x)) == Some(x)
  {
    hide Pad, Pow10, Join, StartOf, Column;
    var p := CimParts(x);
    Powers();
    IntervalStarts(x, p);
    PartIsRead(p, 0, 0, x.days, 8);
    PartIsRead(p, 1, 8, x.hours, 2);
    PartIsRead(p, 2, 10, x.minutes, 2);
    PartIsRead(p, 3, 12, x.seconds, 2);
    LiteralAt(p, 4, 14, 0);
    PartIsRead(p, 5, 15, x.micros, 6);
    LiteralAt(p, 6, 21, 0);
    PartAt(p, 6);
    assert Join(p)[22..] == Join(p)[21..25][1..];
  }

  // ---------------------------------------------------------------------------------------
  // Fields that do not fit
  // ---------------------------------------------------------------------------------------

  lemma {:induction false} JoinSplits(parts: seq<string>, k: nat)
    requires k <= |parts|
    ensures Join(parts) == Join(parts[..k]) + Join(parts[k..])
    decreases k
  {
    if k == 0 {
      assert parts[0..] == parts && Join(parts[..0]) == [];
    } else {
      JoinSplits(parts[1..], k - 1);
      assert parts[1..][..k - 1] == parts[..k][1..] && parts[1..][k - 1..] == parts[k..];
      assert parts[..k][0] == parts[0];
    }
  }

  lemma {:induction false} NoDotInside(parts: seq<string>, i: nat)
    requires (forall j | 0 <= j < |parts| :: IsPlain(parts[j])) && i < |Join(parts)|
    ensures Join(parts)[i] != '.'
    decreases |parts|
  {
    if i >= |parts[0]| {
      NoDotInside(parts[1..], i - |parts[0]|);
    } else {
      PlainAt(parts[0], i);
    }
  }

  lemma {:induction false} PlainAt(t: string, i: nat)
    requires IsPlain(t) && i < |t|
    ensures t[i] == '-' || IsDigit(t[i])
    ensures i > 0 ==> IsDigit(t[i])
  {
    if i > 0 { assert t[i] == t[1..][i - 1]; }
  }

  /**
    The text that a successful reading had: fields so wide that they push the point out of its
    place, or microseconds so wide that they push the sign out of its place, are refused.
   */
  lemma {:induction false} ReadText(s: string)
    requires FromCim(s).Some?
    ensures |s| == 25 && s[14] == '.' && (s[21] == '+' || s[21] == '-' || s[21] == ':')
  {
    hide Column, Negate;
  }

  /** The fields in front of the point fill 14 columns, and the microseconds 6. */
  lemma {:induction false} PointInPlace(parts: seq<string>, k: nat, s: string)
    requires k + 1 < |parts| && (forall j | 0 <= j < k :: IsPlain(parts[j]))
    requires parts[k] == "." && IsPlain(parts[k + 1]) && |parts[k + 1]| >= 6
    requires StartOf(parts, k) >= 14 && |s| == 25 && |Join(parts)| >= 25 && s == Join(parts)[..25]
    requires s[14] == '.' && !IsDigit(s[21])
    ensures StartOf(parts, k) == 14 && |parts[k + 1]| == 6
  {
    hide Join, StartOf, IsPlain;
    var t := Join(parts);
    JoinSplits(parts, k);
    JoinLength(parts[..k]);
    StartOfFront(parts, k, k);
    if StartOf(parts, k) > 14 {
      NoDotInside(parts[..k], 14);
    } else if |parts[k + 1]| > 6 {
      Starts(parts, k);
      LiteralAt(parts, k + 1, 15, 6);
      PlainAt(parts[k + 1], 6);
    }
  }

  lemma {:induction false} StartOfFront(parts: seq<string>, k: nat, i: nat)
    requires i <= k <= |parts|
    ensures StartOf(parts[..k], i) == StartOf(parts, i)
    decreases i
  {
    if i > 0 { StartOfFront(parts, k, i - 1); }
  }

  lemma {:induction false} CutTo25(x: Datetime)
    requires IsDatetime(x) && |Join(CimParts(x))| >= 25
    ensures |ToCim(x)| == 25 && ToCim(x) == Join(CimParts(x))[..25]
  {
    hide Join, CimParts;
  }

  lemma {:induction false} StampReadFits(x: Datetime, p: seq<string>)
    requires x.Timestamp? && IsDatetime(x) && p == CimParts(x) && FromCim(ToCim(x)) == Some(x)
    ensures CimRange(x)
  {
    hide PadSigned, InColumns, Join, StartOf, IsPlain, FromCim, ToCim;
    StampWidths(x);
    StampTotal(p);
    CutTo25(x);
    ReadText(ToCim(x));
    PointInPlace(p, 6, ToCim(x));
    OffsetIsShort(ToCim(x));
  }

  lemma {:induction false} StampTotal(p: seq<string>)
    requires |p| == 10
    ensures StartOf(p, 6) == |p[0]| + |p[1]| + |p[2]| + |p[3]| + |p[4]| + |p[5]|
    ensures |Join(p)| == StartOf(p, 6) + |p[6]| + |p[7]| + |p[8]| + |p[9]|
  {
    hide Join, StartOf;
    Starts(p, 0);
    Starts(p, 1);
    Starts(p, 2);
    Starts(p, 3);
    Starts(p, 4);
    Starts(p, 5);
    Starts(p, 6);
    Starts(p, 7);
    Starts(p, 8);
    Starts(p, 9);
    JoinLength(p);
  }

  /** An offset that is read has three columns, so it is below 1000. */
  lemma {:induction false} OffsetIsShort(s: string)
    requires FromCim(s).Some? && FromCim(s).value.Timestamp?
    ensures -1000 < FromCim(s).value.utc < 1000
  {
    hide ToS32, Column;
    assert Column(s, 22, 3).Some?;
    ShortColumn(s);
  }

  lemma {:induction false} ShortColumn(s: string)
    requires |s| == 25 && Column(s, 22, 3).Some?
    ensures -1000 < ToS32(Column(s, 22, 3).value) < 1000
  {
    hide Strtoul;
    var t := s[22..25];
    if t[0] != '*' {
      ShortNumber(t);
    }
  }

  lemma {:induction false} ShortNumber(t: string)
    requires |t| == 3
    ensures Strtoul(t).0 < 1000 || ULONG - 1000 < Strtoul(t).0
  {
    hide Value, Span, SkipSpace, Pow10;
    SkipIsShorter(t);
    var digits := Unsigned(SkipSpace(t));
    var k := Span(digits);
    DigitsBound(digits[..k]);
    Powers();
    Pow10Grows(k, 3);
  }

  lemma {:induction false} IntervalReadFits(x: Datetime, p: seq<string>)
    requires x.Interval? && IsDatetime(x) && p == CimParts(x) && FromCim(ToCim(x)) == Some(x)
    ensures CimRange(x)
  {
    hide Pad, Join, StartOf, IsPlain, FromCim, ToCim;
    IntervalWidths(x);
    IntervalTotal(p);
    CutTo25(x);
    ReadText(ToCim(x));
    PointInPlace(p, 4, ToCim(x));
  }

  lemma {:induction false} IntervalTotal(p: seq<string>)
    requires |p| == 7
    ensures StartOf(p, 4) == |p[0]| + |p[1]| + |p[2]| + |p[3]|
    ensures |Join(p)| == StartOf(p, 4) + |p[4]| + |p[5]| + |p[6]|
  {
    hide Join, StartOf;
    Starts(p, 0);
    Starts(p, 1);
    Starts(p, 2);
    Starts(p, 3);
    Starts(p, 4);
    Starts(p, 5);
    Starts(p, 6);
    JoinLength(p);
  }

  /** Every value fills the buffer. */
  lemma {:induction false} Fills25(x: Datetime, p: seq<string>)
    requires IsDatetime(x) && p == CimParts(x)
    ensures |ToCim(x)| == 25
  {
    hide Pad, PadSigned, InColumns, Join, StartOf, IsPlain, ToCim;
    if x.Timestamp? {
      StampWidths(x);
      StampTotal(p);
    } else {
      IntervalWidths(x);
      IntervalTotal(p);
    }
    CutTo25(x);
  }

  /** The text has 25 characters, and a value is read back exactly when every field fits its columns. */
  lemma {:induction false} CimRoundTrip(x: Datetime)
    requires IsDatetime(x)
    ensures |ToCim(x)| == 25
    ensures FromCim(ToCim(x)) == Some(x) <==> CimRange(x)
  {
    hide FromCim, ToCim, CimRange, CimParts;
    Fills25(x, CimParts(x));
    if CimRange(x) {
      if x.Timestamp? { StampComesBack(x); } else { IntervalComesBack(x); }
    }
    if FromCim(ToCim(x)) == Some(x) {
      if x.Timestamp? { StampReadFits(x, CimParts(x)); } else { IntervalReadFits(x, CimParts(x)); }
    }
  }

  // ---------------------------------------------------------------------------------------
  // Any text at all
  // ---------------------------------------------------------------------------------------

  /** The `size` characters at `at` are asterisks, for zero, or a number whose low 32 bits are `v`. */
  ghost predicate ColumnReads(s: string, at: nat, size: nat, v: nat)
    requires at + size <= |s|
  {
    var t := s[at..at + size];
    || (v == 0 && forall i | 0 <= i < size :: t[i] == '*')
    || (IsNumber(t) && v == Number(t) % U32)
  }

  lemma {:induction false} ColumnIff(s: string, at: nat, size: nat, v: nat)
    requires at + size <= |s| && size > 0
    ensures Column(s, at, size) == Some(v) <==> ColumnReads(s, at, size, v)
  {
    hide Strtoul, Number, IsNumber;
    var t := s[at..at + size];
    if IsNumber(t) {
      NumberStarts(t);
      NumberTextIsRead(t, []);
      assert t + [] == t;
    }
    if Strtoul(t).1 == [] {
      NumberWasRead(t);
      assert t[..|t| - 0] == t;
    }
  }

  /** The offset: what the column says, with the sign in front of it. */
  ghost predicate OffsetReads(s: string, utc: int)
    requires |s| == 25
  {
    exists v: nat :: ColumnReads(s, 22, 3, v) && utc == if s[21] == '-' then -ToS32(v) else ToS32(v)
  }

  /** What the 25 characters `s` say, column by column. */
  ghost predicate Says(s: string, x: Datetime) {
    && |s| == 25 && s[14] == '.'
    && match x
       case Timestamp(y, mo, d, h, mi, se, us, utc) =>
         && (s[21] == '+' || s[21] == '-')
         && ColumnReads(s, 0, 4, y) && ColumnReads(s, 4, 2, mo) && ColumnReads(s, 6, 2, d) && ColumnReads(s, 8, 2, h)
         && ColumnReads(s, 10, 2, mi) && ColumnReads(s, 12, 2, se) && ColumnReads(s, 15, 6, us) && OffsetReads(s, utc)
       case Interval(d, h, mi, se, us) =>
         && s[21] == ':' && s[22] == '0' && s[23] == '0' && s[24] == '0'
         && ColumnReads(s, 0, 8, d) && ColumnReads(s, 8, 2, h) && ColumnReads(s, 10, 2, mi)
         && ColumnReads(s, 12, 2, se) && ColumnReads(s, 15, 6, us)
  }

  lemma {:induction false} OffsetIff(s: string, utc: int)
    requires |s| == 25
    ensures OffsetReads(s, utc) <==>
      Column(s, 22, 3).Some? && utc == Negate(Column(s, 22, 3).value, s[21] == '-')
  {
    hide ColumnReads, Column, ToS32;
    if Column(s, 22, 3).Some? { ColumnIff(s, 22, 3, Column(s, 22, 3).value); }
    if v: nat :| ColumnReads(s, 22, 3, v) && utc == (if s[21] == '-' then -ToS32(v) else ToS32(v)) {
      ColumnIff(s, 22, 3, v);
    }
  }

  lemma {:induction false} ReadStampIff(s: string, x: Datetime)
    requires |s| == 25 && (s[21] == '+' || s[21] == '-') && x.Timestamp?
    ensures FromCim(s) == Some(x) <==> Says(s, x)
  {
    hide ColumnReads, Column, Negate, OffsetReads;
    ColumnIff(s, 0, 4, x.year);
    ColumnIff(s, 4, 2, x.month);
    ColumnIff(s, 6, 2, x.day);
    ColumnIff(s, 8, 2, x.hour);
    ColumnIff(s, 10, 2, x.minute);
    ColumnIff(s, 12, 2, x.second);
    ColumnIff(s, 15, 6, x.micros);
    OffsetIff(s, x.utc);
  }

  lemma {:induction false} ReadIntervalIff(s: string, x: Datetime)
    requires |s| == 25 && s[21] == ':' && x.Interval?
    ensures FromCim(s) == Some(x) <==> Says(s, x)
  {
    hide ColumnReads, Column;
    ColumnIff(s, 0, 8, x.days);
    ColumnIff(s, 8, 2, x.hours);
    ColumnIff(s, 10, 2, x.minutes);
    ColumnIff(s, 12, 2, x.seconds);
    ColumnIff(s, 15, 6, x.micros);
    assert s[22..][0] == s[22] && s[22..][1] == s[23] && s[22..][2] == s[24];
  }

  lemma {:induction false} FormOf(s: string)
    ensures FromCim(s).Some? ==> |s| == 25 && (FromCim(s).value.Timestamp? <==> s[21] == '+' || s[21] == '-')
    ensures FromCim(s).Some? && FromCim(s).value.Interval? ==> s[21] == ':'
  {
    hide Column, Negate;
  }

  /** `StrToDatetime` reads any text as exactly what its columns say, and refuses it if they say nothing. */
  lemma {:induction false} FromCimIff(s: string, x: Datetime)
    ensures FromCim(s) == Some(x) <==> Says(s, x)
  {
    hide FromCim, ColumnReads, OffsetReads;
    FormOf(s);
    if |s| == 25 {
      if x.Timestamp? && (s[21] == '+' || s[21] == '-') { ReadStampIff(s, x); }
      if x.Interval? && s[21] == ':' { ReadIntervalIff(s, x); }
    }
  }
}
