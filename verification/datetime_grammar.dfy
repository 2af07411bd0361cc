/** Exactly which WS-Management text is read as a timestamp, and as which one. */
module DatetimeGrammar {
  import opened Decimal
  import opened DatetimeText
  import opened Duration

  // ---------------------------------------------------------------------------------------
  // Fields
  // ---------------------------------------------------------------------------------------

  /** A number written in exactly `w` characters. */
  predicate IsField(t: string, w: nat) { |t| == w && IsNumber(t) }

  lemma {:induction false} FieldTextIsRead(t: string, w: nat, rest: string)
    requires IsField(t, w) && !IsDigit(Head(rest))
    ensures ParseField(t + rest, w) == Ok(Number(t), rest)
  {
    hide Strtoul, Number, IsNumber;
    NumberTextIsRead(t, rest);
    NumberHead(t, rest);
  }

  lemma {:induction false} FieldWasRead(s: string, w: nat)
    requires ParseField(s, w).Ok?
    ensures var r := ParseField(s, w);
      && w <= |s| && s == s[..w] + r.rest
      && IsField(s[..w], w) && r.value == Number(s[..w]) && !IsDigit(Head(r.rest))
  {
    hide Strtoul, Number, IsNumber;
    NothingLeftIsWhole(s);
    NumberWasRead(s);
  }

  lemma {:induction false} NothingLeftIsWhole(s: string)
    ensures |Strtoul(s).1| == |s| ==> Strtoul(s).1 == s
  {
    hide Strtoul;
    if |Strtoul(s).1| == |s| { WholeIsLeft(s); }
  }

  lemma {:induction false} CharWasRead(s: string, c: char)
    requires Expect(s, c).Ok? && c != '\0'
    ensures s == [c] + Expect(s, c).rest
  {
  }

  /** Three fields with separators, in front of `rest`. */
  function Triple(a: string, b: string, c: string, sep: char, rest: string): string {
    a + ([sep] + (b + ([sep] + (c + rest))))
  }

  lemma {:induction false} TripleTextIsRead(a: string, b: string, c: string, w: nat, sep: char, rest: string)
    requires IsField(a, w) && IsField(b, 2) && IsField(c, 2) && !IsDigit(sep) && !IsDigit(Head(rest))
    ensures ParseTriple(Triple(a, b, c, sep, rest), w, sep) == Ok((Number(a), Number(b), Number(c)), rest)
  {
    hide ParseField, Expect, Number, IsNumber, IsField;
    FieldTextIsRead(c, 2, rest);
    CharIsRead(sep, c + rest);
    FieldTextIsRead(b, 2, [sep] + (c + rest));
    CharIsRead(sep, b + ([sep] + (c + rest)));
    FieldTextIsRead(a, w, [sep] + (b + ([sep] + (c + rest))));
  }

  lemma {:induction false} TripleWasRead(s: string, w: nat, sep: char) returns (a: string, b: string, c: string)
    requires ParseTriple(s, w, sep).Ok? && sep != '\0'
    ensures var r := ParseTriple(s, w, sep);
      && IsField(a, w) && IsField(b, 2) && IsField(c, 2) && !IsDigit(Head(r.rest))
      && s == Triple(a, b, c, sep, r.rest) && r.value == (Number(a), Number(b), Number(c))
  {
    hide ParseField, Expect, Number, IsNumber, IsField;
    FieldWasRead(s, w);
    a := s[..w];
    var p := ParseField(s, w).rest;
    CharWasRead(p, sep);
    var q := Expect(p, sep).rest;
    FieldWasRead(q, 2);
    b := q[..2];
    var p2 := ParseField(q, 2).rest;
    CharWasRead(p2, sep);
    var q2 := Expect(p2, sep).rest;
    FieldWasRead(q2, 2);
    c := q2[..2];
  }

  // ---------------------------------------------------------------------------------------
  // Time zones
  // ---------------------------------------------------------------------------------------

  datatype Zone = NoZone | Zulu | Offset(minus: bool, hours: string, minutes: string)

  function ZoneText(z: Zone, rest: string): string {
    match z
    case NoZone => rest
    case Zulu => "Z" + rest
    case Offset(minus, hours, minutes) => [if minus then '-' else '+'] + (hours + (":" + (minutes + rest)))
  }

  predicate ZoneOk(z: Zone, rest: string) {
    match z
    case NoZone => Head(rest) != 'Z' && Head(rest) != '+' && Head(rest) != '-'
    case Zulu => true
    case Offset(_, hours, minutes) => IsField(hours, 2) && IsField(minutes, 2) && !IsDigit(Head(rest))
  }

  /** Minutes from UTC; a Z, like no zone, leaves what was there. */
  function ZoneValue(z: Zone, rest: string, utc: int): int
    requires ZoneOk(z, rest)
  {
    match z
    case Offset(minus, hours, minutes) =>
      var m := Number(hours) * 60 + Number(minutes);
      ToS32(if minus then -m else m)
    case _ => utc
  }

  lemma {:induction false} ZoneTextIsRead(z: Zone, rest: string, utc: int)
    requires ZoneOk(z, rest)
    ensures ParseZone(ZoneText(z, rest), utc) == Ok(ZoneValue(z, rest, utc), rest)
  {
    hide ParseField, Expect, Number, IsNumber, IsField, ToS32;
    match z
    case NoZone =>
    case Zulu => CharIsRead('Z', rest);
    case Offset(minus, hours, minutes) =>
      FieldTextIsRead(minutes, 2, rest);
      CharIsRead(':', minutes + rest);
      FieldTextIsRead(hours, 2, ":" + (minutes + rest));
      CharIsRead(if minus then '-' else '+', hours + (":" + (minutes + rest)));
  }

  lemma {:induction false} ZoneWasRead(s: string, utc: int) returns (z: Zone)
    requires ParseZone(s, utc).Ok?
    ensures var r := ParseZone(s, utc);
      ZoneOk(z, r.rest) && s == ZoneText(z, r.rest) && r.value == ZoneValue(z, r.rest, utc)
  {
    hide ParseField, Expect, Number, IsNumber, IsField, ToS32;
    if Head(s) == 'Z' {
      z := Zulu;
      HeadAndTail(s);
    } else if Head(s) == '+' || Head(s) == '-' {
      HeadAndTail(s);
      var p := Tail(s);
      FieldWasRead(p, 2);
      var p2 := ParseField(p, 2).rest;
      CharWasRead(p2, ':');
      var q := Expect(p2, ':').rest;
      FieldWasRead(q, 2);
      z := Offset(Head(s) == '-', p[..2], q[..2]);
    } else {
      z := NoZone;
    }
  }

  // ---------------------------------------------------------------------------------------
  // Times and dates
  // ---------------------------------------------------------------------------------------

  datatype Clock = Clock(h: string, m: string, s: string, fraction: Option<string>, zone: Zone)

  function FractionPart(fraction: Option<string>, rest: string): string {
    if fraction.None? then rest else "." + (fraction.value + rest)
  }

  /** The decimals are a number, or nothing where none could be read. */
  predicate FractionOk(fraction: Option<string>, rest: string) {
    match fraction
    case None => Head(rest) != '.' && !IsDigit(Head(rest))
    case Some(d) => if d == [] then Strtoul(rest).1 == rest else IsNumber(d) && !IsDigit(Head(rest))
  }

  function ClockText(k: Clock, rest: string): string {
    Triple(k.h, k.m, k.s, ':', FractionPart(k.fraction, ZoneText(k.zone, rest)))
  }

  predicate ClockOk(k: Clock, rest: string) {
    && IsField(k.h, 2) && IsField(k.m, 2) && IsField(k.s, 2)
    && FractionOk(k.fraction, ZoneText(k.zone, rest)) && ZoneOk(k.zone, rest)
  }

  function ClockInto(k: Clock, rest: string, x: Datetime): Datetime
    requires ClockOk(k, rest) && x.Timestamp?
  {
    x.(hour := ToU32(Number(k.h)), minute := ToU32(Number(k.m)), second := ToU32(Number(k.s)),
      micros := if k.fraction.None? then 0 else ToU32(Micros(k.fraction.value)),
      utc := ZoneValue(k.zone, rest, x.utc))
  }

  lemma {:induction false} FractionTextIsRead(d: string, rest: string)
    requires FractionOk(Some(d), rest)
    ensures ParseFraction(d + rest) == (Micros(d), rest)
  {
    hide Strtoul, Number, IsNumber;
    if d == [] {
      assert d + rest == rest;
      ZeroMicros();
    } else {
      NumberTextIsRead(d, rest);
      NumberHead(d, rest);
      var k := if |d| < 6 then |d| else 6;
      assert (d + rest)[..k] == d[..k];
    }
  }

  lemma {:induction false} FractionWasRead(s: string) returns (d: string)
    ensures FractionOk(Some(d), ParseFraction(s).1) && s == d + ParseFraction(s).1 && ParseFraction(s).0 == Micros(d)
  {
    hide Strtoul, Number, IsNumber, Micros;
    DecimalsWereRead(s);
    d := s[..|s| - |ParseFraction(s).1|];
    if |Strtoul(s).1| == |s| { WholeIsLeft(s); } else { NumberWasRead(s); }
  }

  lemma {:induction false} ClockTextIsRead(k: Clock, rest: string, x: Datetime)
    requires ClockOk(k, rest) && x.Timestamp?
    ensures ParseTime(ClockText(k, rest), x) == Ok(ClockInto(k, rest, x), rest)
  {
    hide ParseTriple, ParseZone, ParseFraction, Number, IsNumber, IsField, ZoneValue, ZoneText, ZoneOk, Strtoul, Micros,
      Triple;
    var zone := ZoneText(k.zone, rest);
    ZoneTextIsRead(k.zone, rest, x.utc);
    if k.fraction.Some? {
      CharIsRead('.', k.fraction.value + zone);
      FractionTextIsRead(k.fraction.value, zone);
    }
    TripleTextIsRead(k.h, k.m, k.s, 2, ':', FractionPart(k.fraction, zone));
  }

  lemma {:induction false} ClockWasRead(s: string, x: Datetime) returns (k: Clock)
    requires x.Timestamp? && ParseTime(s, x).Ok?
    ensures var r := ParseTime(s, x);
      ClockOk(k, r.rest) && s == ClockText(k, r.rest) && r.value == ClockInto(k, r.rest, x)
  {
    hide ParseTriple, ParseZone, ParseFraction, Number, IsNumber, IsField, ZoneValue, ZoneText, ZoneOk, Strtoul, Micros,
      Triple;
    var a, b, c := TripleWasRead(s, 2, ':');
    var p := ParseTriple(s, 2, ':').rest;
    if Head(p) == '.' {
      HeadAndTail(p);
      var d := FractionWasRead(Tail(p));
      var z := ZoneWasRead(ParseFraction(Tail(p)).1, x.utc);
      k := Clock(a, b, c, Some(d), z);
    } else {
      var z := ZoneWasRead(p, x.utc);
      k := Clock(a, b, c, None, z);
    }
  }

  datatype Day = Day(y: string, m: string, d: string, zone: Zone)

  function DayText(k: Day, rest: string): string { Triple(k.y, k.m, k.d, '-', ZoneText(k.zone, rest)) }

  predicate DayOk(k: Day, rest: string) {
    && IsField(k.y, 4) && IsField(k.m, 2) && IsField(k.d, 2)
    && !IsDigit(Head(ZoneText(k.zone, rest))) && ZoneOk(k.zone, rest)
  }

  function DayValue(k: Day, rest: string): (x: Datetime)
    requires DayOk(k, rest)
    ensures x.Timestamp?
  {
    Timestamp(ToU32(Number(k.y)), ToU32(Number(k.m)), ToU32(Number(k.d)), 0, 0, 0, 0, ZoneValue(k.zone, rest, 0))
  }

  lemma {:induction false} DayTextIsRead(k: Day, rest: string)
    requires DayOk(k, rest)
    ensures ParseDate(DayText(k, rest)) == Ok(DayValue(k, rest), rest)
  {
    hide ParseTriple, ParseZone, Number, IsNumber, IsField, ZoneValue, ZoneText, ZoneOk, Triple;
    ZoneTextIsRead(k.zone, rest, 0);
    TripleTextIsRead(k.y, k.m, k.d, 4, '-', ZoneText(k.zone, rest));
  }

  lemma {:induction false} DayWasRead(s: string) returns (k: Day)
    requires ParseDate(s).Ok?
    ensures var r := ParseDate(s); DayOk(k, r.rest) && s == DayText(k, r.rest) && r.value == DayValue(k, r.rest)
  {
    hide ParseTriple, ParseZone, Number, IsNumber, IsField, ZoneValue, ZoneText, ZoneOk, Triple;
    var a, b, c := TripleWasRead(s, 4, '-');
    var z := ZoneWasRead(ParseTriple(s, 4, '-').rest, 0);
    k := Day(a, b, c, z);
  }

  // ---------------------------------------------------------------------------------------
  // Timestamps
  // ---------------------------------------------------------------------------------------

  datatype Form = DateOnly(day: Day) | DateAndTime(day: Day, clock: Clock) | TimeAlone(clock: Clock)

  function FormText(f: Form): string {
    match f
    case DateOnly(day) => DayText(day, [])
    case DateAndTime(day, clock) => DayText(day, "T" + ClockText(clock, []))
    case TimeAlone(clock) => ClockText(clock, [])
  }

  /** The year of a date, and the hour of a time alone, have digits only. */
  predicate FormOk(f: Form) {
    match f
    case DateOnly(day) => DayOk(day, []) && AllDigits(day.y)
    case DateAndTime(day, clock) => DayOk(day, "T" + ClockText(clock, [])) && AllDigits(day.y) && ClockOk(clock, [])
    case TimeAlone(clock) => ClockOk(clock, []) && AllDigits(clock.h)
  }

  /** Where a part is missing its fields are zero; a zone after the time takes precedence. */
  function FormValue(f: Form): Datetime
    requires FormOk(f)
  {
    match f
    case DateOnly(day) => DayValue(day, [])
    case DateAndTime(day, clock) => ClockInto(clock, [], DayValue(day, "T" + ClockText(clock, [])))
    case TimeAlone(clock) => ClockInto(clock, [], ZERO)
  }

  lemma {:induction false} FrontOfTriple(a: string, b: string, c: string, sep: char, rest: string)
    requires a != []
    ensures var s := Triple(a, b, c, sep, rest);
      |s| > |a| && s[..|a|] == a && s[|a|] == sep && Head(s) == a[0]
  {
  }

  /** Text that starts with four digits is never read as a time, so nothing follows a date but T. */
  lemma {:induction false} NoTimeAfterDate(s: string, p: string, x: Datetime)
    requires StartsWithDigits(s, 4) && x.Timestamp?
    ensures TimeOnly(s, p, x) == None
  {
    hide Strtoul, LooksLikeTime;
    LongNumber(s);
  }

  lemma {:induction false} LongNumber(s: string)
    requires StartsWithDigits(s, 4)
    ensures |s| - |Strtoul(s).1| >= 4
  {
    assert s[..4][0] == s[0] && s[..4][1] == s[1] && s[..4][2] == s[2] && s[..4][3] == s[3];
    assert SkipSpace(s) == s;
    LongSpan(s);
  }

  lemma {:induction false} LongSpan(s: string)
    requires |s| >= 4 && IsDigit(s[0]) && IsDigit(s[1]) && IsDigit(s[2]) && IsDigit(s[3])
    ensures Span(s) >= 4
  {
    hide Span;
    var n := Span(s);
    assert !IsDigit(Head(s[n..]));
    assert n < |s| ==> Head(s[n..]) == s[n];
  }

  lemma {:induction false} FormIsRead(f: Form)
    requires FormOk(f)
    ensures ParseStamp(FormText(f)) == Some(FormValue(f))
  {
    hide ParseDate, ParseTime, DayOk, ClockOk, DayValue, ClockInto, TimeOnly, Triple, ZoneText;
    match f
    case DateOnly(day) =>
      DayStarts(day, []);
      DayTextIsRead(day, []);
    case DateAndTime(day, clock) =>
      var rest := "T" + ClockText(clock, []);
      DayStarts(day, rest);
      DayTextIsRead(day, rest);
      CharIsRead('T', ClockText(clock, []));
      ClockTextIsRead(clock, [], DayValue(day, rest));
    case TimeAlone(clock) =>
      ClockStarts(clock, []);
      ClockTextIsRead(clock, [], ZERO);
      AloneIsRead(ClockText(clock, []));
  }

  lemma {:induction false} AloneIsRead(s: string)
    requires LooksLikeTime(s) && ParseTime(s, ZERO).Ok? && ParseTime(s, ZERO).rest == []
    ensures TimeOnly(s, s, ZERO) == Some(ParseTime(s, ZERO).value)
  {
    hide ParseTime, LooksLikeTime;
  }

  lemma {:induction false} DayStarts(day: Day, rest: string)
    requires DayOk(day, rest) && AllDigits(day.y)
    ensures StartsWithDigits(DayText(day, rest), 4) && Head(DayText(day, rest)) != '-'
  {
    hide Triple, ZoneText, ZoneOk, IsNumber;
    FrontOfTriple(day.y, day.m, day.d, '-', ZoneText(day.zone, rest));
  }

  lemma {:induction false} ClockStarts(k: Clock, rest: string)
    requires ClockOk(k, rest) && AllDigits(k.h)
    ensures var s := ClockText(k, rest); LooksLikeTime(s) && !StartsWithDigits(s, 4) && Head(s) != '-'
  {
    hide Triple, ZoneText, ZoneOk, IsNumber, FractionOk, FractionPart;
    var s := ClockText(k, rest);
    FrontOfTriple(k.h, k.m, k.s, ':', FractionPart(k.fraction, ZoneText(k.zone, rest)));
    assert |s| >= 4 ==> s[..4][2] == ':';
  }

  lemma {:induction false} FormWasRead(s: string) returns (f: Form)
    requires ParseStamp(s).Some?
    ensures FormOk(f) && s == FormText(f) && ParseStamp(s) == Some(FormValue(f))
  {
    hide ParseDate, ParseTime, DayOk, ClockOk, DayValue, ClockInto, DayText, ClockText, StartsWithDigits, LooksLikeTime;
    if StartsWithDigits(s, 4) {
      var x, p := ParseDate(s).value, ParseDate(s).rest;
      DateIsTimestamp(s);
      var day := DayWasRead(s);
      YearIsDigits(s, day, p);
      NoTimeAfterDate(s, p, x);
      if p == [] {
        f := DateOnly(day);
      } else {
        HeadAndTail(p);
        var clock := ClockWasRead(Tail(p), x);
        var y, q := ParseTime(Tail(p), x).value, ParseTime(Tail(p), x).rest;
        TimeIsTimestamp(Tail(p), x);
        NoTimeAfterDate(s, q, y);
        f := DateAndTime(day, clock);
      }
    } else {
      var clock := ClockWasRead(s, ZERO);
      HourIsDigits(s, clock, []);
      f := TimeAlone(clock);
    }
  }

  lemma {:induction false} DateIsTimestamp(s: string)
    ensures ParseDate(s).Ok? ==> ParseDate(s).value.Timestamp?
  {
    hide ParseTriple, ParseZone;
  }

  lemma {:induction false} TimeIsTimestamp(s: string, x: Datetime)
    requires x.Timestamp?
    ensures ParseTime(s, x).Ok? ==> ParseTime(s, x).value.Timestamp?
  {
    hide ParseTriple, ParseZone, ParseFraction;
  }

  lemma {:induction false} YearIsDigits(s: string, day: Day, rest: string)
    requires StartsWithDigits(s, 4) && DayOk(day, rest) && s == DayText(day, rest)
    ensures AllDigits(day.y)
  {
    hide Triple, ZoneText, ZoneOk, IsNumber;
    FrontOfTriple(day.y, day.m, day.d, '-', ZoneText(day.zone, rest));
  }

  lemma {:induction false} HourIsDigits(s: string, k: Clock, rest: string)
    requires LooksLikeTime(s) && ClockOk(k, rest) && s == ClockText(k, rest)
    ensures AllDigits(k.h)
  {
    hide Triple, ZoneText, ZoneOk, IsNumber, FractionOk, FractionPart;
    FrontOfTriple(k.h, k.m, k.s, ':', FractionPart(k.fraction, ZoneText(k.zone, rest)));
  }

  /** `s` is one of the forms, and denotes `x`. */
  ghost predicate Denotes(s: string, f: Form, x: Datetime) { FormOk(f) && s == FormText(f) && x == FormValue(f) }

  /** Text is read as timestamp `x` exactly when it is a date, a date and time, or a time that denotes `x`. */
  lemma {:induction false} StampIff(s: string, x: Datetime)
    ensures ParseStamp(s) == Some(x) <==> exists f :: Denotes(s, f, x)
  {
    hide ParseStamp, FormOk, FormText, FormValue;
    if ParseStamp(s) == Some(x) {
      var f := FormWasRead(s);
      assert Denotes(s, f, x);
    }
    if f :| Denotes(s, f, x) { FormIsRead(f); }
  }
}
