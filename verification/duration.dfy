/** Durations: xs:duration text, and intervals as microseconds. */
module Duration {
  import opened Decimal
  import opened DatetimeText

  // ---------------------------------------------------------------------------------------
  // The text form: sections of numbers with designators, section 3.2.6 of XML Schema Part 2
  // ---------------------------------------------------------------------------------------

  /** A piece of text: the T that starts the time section, a number with its designator, or seconds with decimals. */
  datatype Item = Mark | Part(digits: string, designator: char) | Fraction(digits: string, decimals: string)

  /** Years, months and days come before a T; hours, minutes and seconds after one. */
  predicate Legal(items: seq<Item>, foundT: bool) {
    if items == [] then true
    else
      match items[0]
      case Mark => Legal(items[1..], true)
      case Part(digits, d) =>
        && IsNumber(digits) && (if foundT then d == 'H' || d == 'M' || d == 'S' else d == 'Y' || d == 'M' || d == 'D')
        && Legal(items[1..], foundT)
      case Fraction(digits, decimals) =>
        foundT && IsNumber(digits) && (decimals == [] || IsNumber(decimals)) && Legal(items[1..], foundT)
  }

  function Text(items: seq<Item>): string {
    if items == [] then []
    else
      match items[0]
      case Mark => "T" + Text(items[1..])
      case Part(digits, d) => digits + ([d] + Text(items[1..]))
      case Fraction(digits, decimals) => digits + ("." + (decimals + ("S" + Text(items[1..]))))
  }

  /** `items` is what duration text `s` consists of. */
  predicate Reads(s: string, items: seq<Item>) { Legal(items, false) && s == "P" + Text(items) }

  ghost predicate IsDuration(s: string) { exists items :: Reads(s, items) }

  datatype Counts =
    Counts(foundT: bool, years: nat, months: nat, days: nat, hours: nat, minutes: nat, seconds: nat, micros: nat)

  const NONE: Counts := Counts(false, 0, 0, 0, 0, 0, 0, 0)

  /** Decimals count to six places; further ones are dropped. */
  function Micros(decimals: string): nat {
    var k := if |decimals| < 6 then |decimals| else 6;
    Strtoul(decimals[..k] + Zeros(6 - k)).0
  }

  /** What one item sets; a later item overrides an earlier one of the same kind. */
  function Set(c: Counts, d: char, n: nat): (r: Counts)
    ensures r.foundT == c.foundT
  {
    if c.foundT then
      (if d == 'H' then c.(hours := n) else if d == 'M' then c.(minutes := n) else c.(seconds := n))
    else
      (if d == 'Y' then c.(years := n) else if d == 'M' then c.(months := n) else c.(days := n))
  }

  function Count(items: seq<Item>, c: Counts): Counts
    requires Legal(items, c.foundT)
  {
    if items == [] then c
    else
      match items[0]
      case Mark => Count(items[1..], c.(foundT := true))
      case Part(digits, d) => Count(items[1..], Set(c, d, Number(digits)))
      case Fraction(digits, decimals) =>
        Count(items[1..], c.(seconds := Number(digits), micros := Micros(decimals)))
  }

  function Wrap(n: nat): nat { n % ULONG }

  /** Carrying over, and approximating years by 365 1/4 and months by 30 1/2 days, in 64 bits. */
  function Normalised(c: Counts): Datetime {
    var minutes := Wrap(c.minutes + c.seconds / 60);
    var hours := Wrap(c.hours + minutes / 60);
    var days := Wrap(c.days + hours / 24);
    var all := Wrap(days + c.years * 365 + c.years / 4 + c.months * 30 + c.months / 2);
    Interval(ToU32(all), hours % 24, minutes % 60, c.seconds % 60, ToU32(c.micros))
  }

  // ---------------------------------------------------------------------------------------
  // Reading
  // ---------------------------------------------------------------------------------------

  lemma {:induction false} FirstIsMark(items: seq<Item>, c: Counts)
    requires items != [] && items[0].Mark? && Legal(items, c.foundT)
    ensures Head(Text(items)) == 'T' && Tail(Text(items)) == Text(items[1..])
    ensures Count(items, c) == Count(items[1..], c.(foundT := true)) && Legal(items[1..], true)
  {
    assert Text(items)[1..] == Text(items[1..]);
  }

  /** A number is taken neither for the mark nor for the end. */
  lemma {:induction false} NumberHead(t: string, rest: string)
    requires IsNumber(t)
    ensures Head(t + rest) != 'T' && Head(t + rest) != '\0' && |t + rest| > |rest|
  {
    hide IsNumber;
    NumberStarts(t);
    assert (t + rest)[0] == t[0];
  }

  lemma {:induction false} FirstIsPart(items: seq<Item>, c: Counts)
    requires items != [] && items[0].Part? && Legal(items, c.foundT)
    ensures Head(Text(items)) != 'T' && Head(Text(items)) != '\0'
    ensures Strtoul(Text(items)) == (Number(items[0].digits), [items[0].designator] + Text(items[1..]))
    ensures Count(items, c) == Count(items[1..], Set(c, items[0].designator, Number(items[0].digits)))
    ensures Legal(items[1..], c.foundT) && |Text(items)| > 1 + |Text(items[1..])|
  {
    hide Strtoul, Set, Number, IsNumber;
    var rest := [items[0].designator] + Text(items[1..]);
    CharIsRead(items[0].designator, Text(items[1..]));
    NumberTextIsRead(items[0].digits, rest);
    NumberHead(items[0].digits, rest);
  }

  lemma {:induction false} FirstIsFraction(items: seq<Item>, c: Counts)
    requires items != [] && items[0].Fraction? && Legal(items, c.foundT)
    ensures var after := items[0].decimals + ("S" + Text(items[1..]));
      && Head(Text(items)) != 'T' && Head(Text(items)) != '\0'
      && Strtoul(Text(items)) == (Number(items[0].digits), "." + after) && |Text(items)| > 1 + |after|
    ensures Count(items, c)
      == Count(items[1..], c.(seconds := Number(items[0].digits), micros := Micros(items[0].decimals)))
    ensures Legal(items[1..], c.foundT) && c.foundT
  {
    hide Strtoul, Number, IsNumber, Micros;
    var after := items[0].decimals + ("S" + Text(items[1..]));
    CharIsRead('.', after);
    NumberTextIsRead(items[0].digits, "." + after);
    NumberHead(items[0].digits, "." + after);
  }

  lemma {:induction false} DecimalsAreRead(decimals: string, rest: string)
    requires decimals == [] || IsNumber(decimals)
    ensures ParseFraction(decimals + ("S" + rest)) == (Micros(decimals), "S" + rest)
  {
    hide Strtoul, Number, IsNumber;
    CharIsRead('S', rest);
    var s := decimals + ("S" + rest);
    if decimals == [] {
      assert s == "S" + rest;
      NoNumber(s);
      ZeroMicros();
    } else {
      NumberTextIsRead(decimals, "S" + rest);
      var k := if |decimals| < 6 then |decimals| else 6;
      assert s[..k] == decimals[..k];
    }
  }

  lemma {:induction false} NoNumber(s: string)
    requires Head(s) == 'S'
    ensures Strtoul(s) == (0, s)
  {
  }

  lemma {:induction false} ZeroMicros()
    ensures Micros([]) == 0
  {
    hide Strtoul, Value;
    var e: string := [];
    assert e[..0] + Zeros(6) == Zeros(6) + e;
    ZerosAndDigits(6, e);
    SixDigits(Zeros(6));
    assert Zeros(6) + e == Zeros(6);
    NothingIsZero();
  }

  lemma {:induction false} NothingIsZero()
    ensures Value([]) == 0
  {
  }

  /** What the loop sees at the start of a non-empty list of items. */
  lemma {:induction false} FirstIs(rest: seq<Item>, c: Counts)
    requires Legal(rest, c.foundT) && (Head(Text(rest)) != '\0' || rest != [])
    ensures rest != []
    ensures rest[0].Mark? ==>
      && Head(Text(rest)) == 'T' && Tail(Text(rest)) == Text(rest[1..]) && Legal(rest[1..], true)
      && Count(rest, c) == Count(rest[1..], c.(foundT := true))
    ensures !rest[0].Mark? ==> Head(Text(rest)) != 'T' && Head(Text(rest)) != '\0' && Legal(rest[1..], c.foundT)
    ensures rest[0].Part? ==>
      && Strtoul(Text(rest)) == (Number(rest[0].digits), [rest[0].designator] + Text(rest[1..]))
      && |Text(rest)| > 1 + |Text(rest[1..])| && Tail([rest[0].designator] + Text(rest[1..])) == Text(rest[1..])
      && Count(rest, c) == Count(rest[1..], Set(c, rest[0].designator, Number(rest[0].digits)))
      && (if c.foundT then rest[0].designator in "HMS" else rest[0].designator in "YMD")
    ensures rest[0].Fraction? ==>
      && c.foundT && (rest[0].decimals == [] || IsNumber(rest[0].decimals))
      && var after := rest[0].decimals + ("S" + Text(rest[1..]));
      && Strtoul(Text(rest)) == (Number(rest[0].digits), "." + after)
      && |Text(rest)| > 1 + |after| && Tail("." + after) == after
      && Count(rest, c) == Count(rest[1..], c.(seconds := Number(rest[0].digits), micros := Micros(rest[0].decimals)))
  {
    hide Strtoul, Micros, Set, Number, Count, IsNumber;
    if rest != [] {
      match rest[0]
      case Mark => FirstIsMark(rest, c);
      case Part(_, d) => FirstIsPart(rest, c); CharIsRead(d, Text(rest[1..]));
      case Fraction(_, decimals) => FirstIsFraction(rest, c); CharIsRead('.', decimals + ("S" + Text(rest[1..])));
    }
  }

  lemma {:induction false} AtEnd(rest: seq<Item>, c: Counts)
    requires Legal(rest, c.foundT) && Head(Text(rest)) == '\0'
    ensures Count(rest, c) == c && rest == []
  {
    if rest != [] { FirstIs(rest, c); }
  }

  lemma {:induction false} FractionIsShorter(s: string)
    ensures |ParseFraction(s).1| <= |s|
  {
  }

  /** Duration text reads in one way only. */
  lemma {:induction false} OneReading(a: seq<Item>, b: seq<Item>, foundT: bool)
    requires Legal(a, foundT) && Legal(b, foundT) && Text(a) == Text(b)
    ensures a == b
    decreases |a|
  {
    hide Strtoul, Micros, Set, Number, Count, IsNumber;
    var c := NONE.(foundT := foundT);
    if a == [] {
      AtEnd(b, c);
    } else if b == [] {
      AtEnd(a, c);
    } else {
      SameFirst(a, b, c);
      OneReading(a[1..], b[1..], foundT || a[0].Mark?);
      assert a == [a[0]] + a[1..] && b == [b[0]] + b[1..];
    }
  }

  lemma {:induction false} SameFirst(a: seq<Item>, b: seq<Item>, c: Counts)
    requires a != [] && b != [] && Legal(a, c.foundT) && Legal(b, c.foundT) && Text(a) == Text(b)
    ensures a[0] == b[0] && Text(a[1..]) == Text(b[1..])
    ensures Legal(a[1..], c.foundT || a[0].Mark?) && Legal(b[1..], c.foundT || a[0].Mark?)
  {
    hide Strtoul, Micros, Set, Number, Count, IsNumber, Legal;
    FirstIs(a, c);
    FirstIs(b, c);
    if !a[0].Mark? {
      SameDigits(a[0].digits, b[0].digits, Strtoul(Text(a)).1);
      assert a[0].Fraction? == (Head(Strtoul(Text(a)).1) == '.') && b[0].Fraction? == (Head(Strtoul(Text(b)).1) == '.');
      if a[0].Fraction? {
        DecimalsAreRead(a[0].decimals, Text(a[1..]));
        DecimalsAreRead(b[0].decimals, Text(b[1..]));
        SameDigits(a[0].decimals, b[0].decimals, "S" + Text(a[1..]));
        CharIsRead('S', Text(a[1..]));
        CharIsRead('S', Text(b[1..]));
      }
    }
  }

  lemma {:induction false} SameDigits(t: string, u: string, rest: string)
    requires t + rest == u + rest
    ensures t == u
  {
    assert |t| == |u| && (t + rest)[..|t|] == t && (u + rest)[..|u|] == u;
  }

  // ---------------------------------------------------------------------------------------
  // What has been read
  // ---------------------------------------------------------------------------------------

  lemma {:induction false} TextOfOne(item: Item, items: seq<Item>)
    ensures ([item] + items)[0] == item && ([item] + items)[1..] == items
  {
  }

  lemma {:induction false} Associate(a: string, b: string, c: string)
    ensures a + (b + c) == a + b + c
  {
  }

  lemma {:induction false} OneMoreText(done: seq<Item>, item: Item)
    ensures Text(done + [item]) == Text(done) + Text([item])
    decreases |done|
  {
    if done == [] {
      assert done + [item] == [item];
    } else {
      OneMoreText(done[1..], item);
      TextOfOne(done[0], done[1..]);
      TextOfOne(done[0], done[1..] + [item]);
      assert done == [done[0]] + done[1..] && done + [item] == [done[0]] + (done[1..] + [item]);
      TextAppends(done[0], done[1..], done[1..] + [item], Text([item]));
    }
  }

  lemma {:induction false} TextAppends(first: Item, items: seq<Item>, more: seq<Item>, t: string)
    requires Text(more) == Text(items) + t
    ensures Text([first] + more) == Text([first] + items) + t
  {
    TextOfOne(first, items);
    TextOfOne(first, more);
    match first
    case Mark =>
    case Part(digits, d) =>
      Associate(digits, [d] + Text(items), t);
      Associate([d], Text(items), t);
    case Fraction(digits, decimals) =>
      Associate(digits, "." + (decimals + ("S" + Text(items))), t);
      Associate(".", decimals + ("S" + Text(items)), t);
      Associate(decimals, "S" + Text(items), t);
      Associate("S", Text(items), t);
  }

  lemma {:induction false} OneMore(done: seq<Item>, item: Item, c: Counts)
    requires Legal(done, c.foundT) && Legal([item], Count(done, c).foundT)
    ensures Legal(done + [item], c.foundT) && Count(done + [item], c) == Count([item], Count(done, c))
    decreases |done|
  {
    hide Set, Micros, Number, IsNumber;
    if done == [] {
      assert done + [item] == [item];
    } else {
      assert (done + [item])[1..] == done[1..] + [item];
      match done[0]
      case Mark => OneMore(done[1..], item, c.(foundT := true));
      case Part(digits, d) => OneMore(done[1..], item, Set(c, d, Number(digits)));
      case Fraction(digits, decimals) =>
        OneMore(done[1..], item, c.(seconds := Number(digits), micros := Micros(decimals)));
    }
  }

  /** The loop has read `done` off the front of `s`; `p` is left, and `c` is what it counts up to. */
  ghost predicate HasRead(s: string, done: seq<Item>, p: string, c: Counts) {
    Legal(done, false) && Count(done, NONE) == c && s == "P" + Text(done) + p
  }

  lemma {:induction false} ReadOne(s: string, done: seq<Item>, p: string, c: Counts, item: Item, q: string)
    requires HasRead(s, done, p, c) && Legal([item], c.foundT) && p == Text([item]) + q
    ensures HasRead(s, done + [item], q, Count([item], c))
  {
    hide Legal, Count, Text;
    OneMore(done, item, NONE);
    OneMoreText(done, item);
    assert "P" + Text(done) + (Text([item]) + q) == "P" + (Text(done) + Text([item])) + q;
  }

  lemma {:induction false} ReadMark(s: string, done: seq<Item>, p: string, c: Counts)
    requires HasRead(s, done, p, c) && Head(p) == 'T'
    ensures HasRead(s, done + [Mark], Tail(p), c.(foundT := true))
  {
    hide HasRead;
    assert [Mark][1..] == [];
    assert p == Text([Mark]) + Tail(p);
    ReadOne(s, done, p, c, Mark, Tail(p));
  }

  /** The number that was read. */
  function Front(p: string): string { p[..|p| - |Strtoul(p).1|] }

  lemma {:induction false} ReadPart(s: string, done: seq<Item>, p: string, c: Counts)
    requires HasRead(s, done, p, c) && |Strtoul(p).1| < |p|
    requires if c.foundT then Head(Strtoul(p).1) in "HMS" else Head(Strtoul(p).1) in "YMD"
    ensures HasRead(s, done + [Part(Front(p), Head(Strtoul(p).1))], Tail(Strtoul(p).1),
      Set(c, Head(Strtoul(p).1), Strtoul(p).0))
  {
    hide HasRead, Strtoul, Set, Number, IsNumber;
    NumberWasRead(p);
    var end := Strtoul(p).1;
    var item := Part(Front(p), Head(end));
    assert [item][1..] == [];
    assert p == Text([item]) + Tail(end);
    ReadOne(s, done, p, c, item, Tail(end));
  }

  lemma {:induction false} DecimalsWereRead(f: string)
    ensures |ParseFraction(f).1| <= |f|
    ensures var dec := f[..|f| - |ParseFraction(f).1|];
      f == dec + ParseFraction(f).1 && (dec == [] || IsNumber(dec)) && ParseFraction(f).0 == Micros(dec)
  {
    hide Strtoul, IsNumber, Number;
    var end := Strtoul(f).1;
    if |end| == |f| {
      WholeIsLeft(f);
      ZeroMicros();
    } else {
      NumberWasRead(f);
      var dec := f[..|f| - |end|];
      var k := if |dec| < 6 then |dec| else 6;
      assert f[..k] == dec[..k];
    }
  }

  lemma {:induction false} WholeIsLeft(s: string)
    requires |Strtoul(s).1| == |s|
    ensures Strtoul(s).1 == s
  {
    SkipIsShorter(s);
  }

  lemma {:induction false} TextOfFraction(digits: string, decimals: string, rest: string)
    ensures Text([Fraction(digits, decimals)]) + rest == digits + ("." + (decimals + ("S" + rest)))
  {
    assert [Fraction(digits, decimals)][1..] == [];
    var end: string := [];
    assert digits + ("." + (decimals + ("S" + end))) + rest == digits + ("." + (decimals + ("S" + rest)));
  }

  lemma {:induction false} HeadAndTail(s: string)
    requires Head(s) != '\0'
    ensures s == [Head(s)] + Tail(s)
  {
  }

  lemma {:induction false} ReadFraction(s: string, done: seq<Item>, p: string, c: Counts, q: string, item: Item)
    requires HasRead(s, done, p, c) && |Strtoul(p).1| < |p| && c.foundT && Head(Strtoul(p).1) == '.'
    requires q == ParseFraction(Tail(Strtoul(p).1)).1 && Head(q) == 'S' && |q| <= |Tail(Strtoul(p).1)|
    requires var f := Tail(Strtoul(p).1); item == Fraction(Front(p), f[..|f| - |q|])
    ensures HasRead(s, done + [item], Tail(q),
      c.(seconds := Strtoul(p).0, micros := ParseFraction(Tail(Strtoul(p).1)).0))
  {
    hide HasRead, Strtoul, Number, IsNumber, ParseFraction, Micros, Text;
    NumberWasRead(p);
    var end := Strtoul(p).1;
    DecimalsWereRead(Tail(end));
    assert [item][1..] == [];
    HeadAndTail(end);
    HeadAndTail(q);
    TextOfFraction(item.digits, item.decimals, Tail(q));
    ReadOne(s, done, p, c, item, Tail(q));
  }

  lemma {:induction false} AllRead(s: string, done: seq<Item>, p: string, c: Counts)
    requires HasRead(s, done, p, c) && Head(p) == '\0' && '\0' !in s
    ensures Reads(s, done)
  {
    hide Legal, Count, Text;
  }

  /** The loop has `rest` of `items` still to read. */
  ghost predicate WillRead(items: seq<Item>, rest: seq<Item>, p: string, c: Counts) {
    Legal(items, false) && Legal(rest, c.foundT) && p == Text(rest) && Count(rest, c) == Count(items, NONE)
  }

  lemma {:induction false} StartReading(s: string, items: seq<Item>)
    requires Head(s) == 'P'
    ensures HasRead(s, [], Tail(s), NONE)
    ensures Reads(s, items) ==> WillRead(items, items, Tail(s), NONE)
  {
    assert s == "P" + Tail(s);
    CharIsRead('P', Text(items));
  }

  ghost function SomeReading(s: string): (items: seq<Item>)
    ensures IsDuration(s) ==> Reads(s, items)
  {
    if items :| Reads(s, items) then items else []
  }

  lemma {:induction false} TheReading(s: string, items: seq<Item>)
    requires Reads(s, items)
    ensures items == SomeReading(s)
  {
    hide Legal, Text;
    CharIsRead('P', Text(items));
    CharIsRead('P', Text(SomeReading(s)));
    OneReading(items, SomeReading(s), false);
  }

  /**
    `_ParseWSManDuration`: accepts exactly duration text, and returns what its numbers amount to.
    A number is whatever strtoul takes for one, so a sign or white space in front of it is
    accepted; text that does not start with P is refused.
   */
  method ParseDuration(s: string) returns (r: Option<Datetime>)
    ensures Head(s) != 'P' ==> r == None
    ensures '\0' !in s ==> (r.Some? <==> IsDuration(s))
    ensures forall items | Reads(s, items) :: r == Some(Normalised(Count(items, NONE)))
  {
    hide Text, Legal, Count, Strtoul, ParseFraction, Micros, Set, Number, IsNumber, HasRead, Normalised;
    ghost var items := SomeReading(s);
    ghost var g := Reads(s, items);
    forall t | Reads(s, t) ensures t == items { TheReading(s, t); }
    StartsWithP(s);
    if Head(s) != 'P' { return None; }
    var p := Tail(s);
    var c := NONE;
    ghost var rest := items;
    ghost var done := [];
    StartReading(s, items);
    while Head(p) != '\0'
      invariant HasRead(s, done, p, c)
      invariant g ==> WillRead(items, rest, p, c)
      decreases |p|
    {
      if g { FirstIs(rest, c); }
      if Head(p) == 'T' {
        ReadMark(s, done, p, c);
        done := done + [Mark];
        c, p := c.(foundT := true), Tail(p);
      } else {
        var n, end := Strtoul(p).0, Strtoul(p).1;
        if |end| == |p| { return None; }
        var d := Head(end);
        if c.foundT && d == '.' {
          var micros, q := ParseFraction(Tail(end)).0, ParseFraction(Tail(end)).1;
          if g { DecimalsAreRead(rest[0].decimals, Text(rest[1..])); CharIsRead('S', Text(rest[1..])); }
          if Head(q) != 'S' { return None; }
          FractionIsShorter(Tail(end));
          ghost var item := Fraction(Front(p), Tail(end)[..|Tail(end)| - |q|]);
          ReadFraction(s, done, p, c, q, item);
          done := done + [item];
          c, p := c.(seconds := n, micros := micros), Tail(q);
        } else {
          if c.foundT && d != 'H' && d != 'M' && d != 'S' { return None; }
          if !c.foundT && d != 'Y' && d != 'M' && d != 'D' { return None; }
          ReadPart(s, done, p, c);
          done := done + [Part(Front(p), d)];
          c, p := Set(c, d, n), Tail(end);
        }
      }
      if g { rest := rest[1..]; }
    }
    if g { AtEnd(rest, c); }
    if '\0' !in s { AllRead(s, done, p, c); }
    r := Some(Normalised(c));
  }

  lemma {:induction false} StartsWithP(s: string)
    ensures IsDuration(s) ==> Head(s) == 'P'
  {
    hide Text, Legal;
    if IsDuration(s) { CharIsRead('P', Text(SomeReading(s))); }
  }

  /** A minus sign inside is accepted: it wraps the number around, and this is what comes out. */
  lemma {:induction false} MinusInside()
    ensures var items := [Part("-1347", 'M')];
      Reads("P-1347M", items) && Normalised(Count(items, NONE)) == Interval(4294926212, 0, 0, 0, 0)
  {
    hide Normalised, Number, IsNumber;
    var items := [Part("-1347", 'M')];
    assert items[1..] == [];
    MinusNumber();
    assert "-1347" + (['M'] + []) == "-1347M";
    assert Count(items, NONE) == NONE.(months := ULONG - 1347);
    WrappedMonths();
  }

  lemma {:induction false} WrappedMonths()
    ensures Normalised(NONE.(months := ULONG - 1347)) == Interval(4294926212, 0, 0, 0, 0)
  {
  }

  lemma {:induction false} MinusNumber()
    ensures IsNumber("-1347") && Number("-1347") == ULONG - 1347
  {
    assert "-1347"[1..] == "1347";
    assert SkipSpace("-1347") == "-1347";
    assert Dec(13) == "13" by { assert Dec(1) == "1"; }
    assert Dec(134) == "134";
    assert Dec(1347) == "1347";
    DecIsValue(1347);
  }

  // ---------------------------------------------------------------------------------------
  // Writing
  // ---------------------------------------------------------------------------------------

  function IfNonZero(n: nat, text: string): string { if n == 0 then [] else text }

  function SecondsText(seconds: nat, micros: nat): string {
    if seconds != 0 && micros != 0 then Dec(seconds) + ("." + (Pad(micros, 6) + "S"))
    else if seconds != 0 then Dec(seconds) + "S"
    else if micros != 0 then "0" + ("." + (Pad(micros, 6) + "S"))
    else []
  }

  /** `FormatWSManDatetime` on an interval, before it is cut to the buffer. */
  function IntervalText(x: Datetime): string
    requires x.Interval?
  {
    "P" + (IfNonZero(x.days, Dec(x.days) + "D")
    + (IfNonZero(x.hours + x.minutes + x.seconds + x.micros, "T")
    + (IfNonZero(x.hours, Dec(x.hours) + "H")
    + (IfNonZero(x.minutes, Dec(x.minutes) + "M")
    + SecondsText(x.seconds, x.micros)))))
  }

  function SecondsItems(seconds: nat, micros: nat): seq<Item> {
    if seconds != 0 && micros != 0 then [Fraction(Dec(seconds), Pad(micros, 6))]
    else if seconds != 0 then [Part(Dec(seconds), 'S')]
    else if micros != 0 then [Fraction("0", Pad(micros, 6))]
    else []
  }

  function MaybePart(n: nat, d: char): seq<Item> { if n == 0 then [] else [Part(Dec(n), d)] }

  function Marks(x: Datetime): seq<Item>
    requires x.Interval?
  {
    if x.hours + x.minutes + x.seconds + x.micros == 0 then [] else [Mark]
  }

  function ItemsOf(x: Datetime): seq<Item>
    requires x.Interval?
  {
    MaybePart(x.days, 'D')
    + (Marks(x) + (MaybePart(x.hours, 'H') + (MaybePart(x.minutes, 'M') + SecondsItems(x.seconds, x.micros))))
  }

  lemma {:induction false} MaybePartText(n: nat, d: char, items: seq<Item>)
    ensures Text(MaybePart(n, d) + items) == IfNonZero(n, Dec(n) + [d]) + Text(items)
  {
    hide Dec;
    if n == 0 {
      assert MaybePart(n, d) + items == items;
    } else {
      TextOfOne(Part(Dec(n), d), items);
      Associate(Dec(n), [d], Text(items));
    }
  }

  lemma {:induction false} SecondsItemsText(seconds: nat, micros: nat)
    ensures Text(SecondsItems(seconds, micros)) == SecondsText(seconds, micros)
  {
    hide Dec, Pad;
    var none: seq<Item> := [];
    var items := SecondsItems(seconds, micros);
    if items != [] {
      assert items[1..] == none;
      assert "S" + Text(none) == "S";
    }
  }

  lemma {:induction false} MarksText(x: Datetime, items: seq<Item>)
    requires x.Interval?
    ensures Text(Marks(x) + items) == IfNonZero(x.hours + x.minutes + x.seconds + x.micros, "T") + Text(items)
  {
    if Marks(x) == [] {
      assert Marks(x) + items == items;
    } else {
      TextOfOne(Mark, items);
    }
  }

  /** The text written is that of the items. */
  lemma {:induction false} IntervalIsItems(x: Datetime)
    requires x.Interval?
    ensures IntervalText(x) == "P" + Text(ItemsOf(x))
  {
    hide Text, SecondsText, SecondsItems, MaybePart, Marks, IfNonZero, Dec;
    var s := SecondsItems(x.seconds, x.micros);
    var m := MaybePart(x.minutes, 'M') + s;
    var h := MaybePart(x.hours, 'H') + m;
    SecondsItemsText(x.seconds, x.micros);
    MaybePartText(x.minutes, 'M', s);
    MaybePartText(x.hours, 'H', m);
    MarksText(x, h);
    MaybePartText(x.days, 'D', Marks(x) + h);
  }

  /** The microseconds as they come back: six digits of them. */
  function MicrosBack(micros: nat): nat { Micros(Pad(micros, 6)) }

  lemma {:induction false} MicrosSurvive(micros: nat)
    requires micros < U32
    ensures MicrosBack(micros) < 1000000
    ensures micros < 1000000 ==> MicrosBack(micros) == micros
  {
    hide Pad, Micros, ParseFraction;
    PadWidth(micros, 6);
    DigitsAreNumber(Pad(micros, 6));
    DecimalsAreRead(Pad(micros, 6), []);
    FractionIsSixDigits(micros, "S");
    assert "S" + [] == "S";
  }

  lemma {:induction false} DigitsAreNumber(t: string)
    requires t != [] && AllDigits(t)
    ensures IsNumber(t) && Number(t) == Clipped(Value(t))
  {
    assert SkipSpace(t) == t;
  }

  lemma {:induction false} DecNumber(n: nat)
    requires n < U32
    ensures IsNumber(Dec(n)) && Number(Dec(n)) == n
  {
    hide Dec, Value, IsNumber, Number;
    DecIsValue(n);
    DigitsAreNumber(Dec(n));
  }

  lemma {:induction false} CountMaybePart(n: nat, d: char, items: seq<Item>, c: Counts)
    requires n < U32 && Legal(items, c.foundT)
    requires if c.foundT then d == 'H' || d == 'M' || d == 'S' else d == 'Y' || d == 'M' || d == 'D'
    ensures Legal(MaybePart(n, d) + items, c.foundT)
    ensures Count(MaybePart(n, d) + items, c) == Count(items, if n == 0 then c else Set(c, d, n))
  {
    hide Dec, Number, IsNumber;
    if n == 0 {
      assert MaybePart(n, d) + items == items;
    } else {
      DecNumber(n);
      TextOfOne(Part(Dec(n), d), items);
    }
  }

  lemma {:induction false} CountSeconds(seconds: nat, micros: nat, c: Counts)
    requires seconds < U32 && (seconds + micros > 0 ==> c.foundT) && c.seconds == 0 && c.micros == 0
    ensures var items := SecondsItems(seconds, micros);
      && Legal(items, c.foundT)
      && Count(items, c) == c.(seconds := seconds, micros := if micros == 0 then 0 else MicrosBack(micros))
  {
    hide Dec, Pad, Number, IsNumber, Micros;
    var items := SecondsItems(seconds, micros);
    DecNumber(seconds);
    PadIsValue(micros, 6);
    DigitsAreNumber(Pad(micros, 6));
    ZeroNumber();
    if items != [] { assert items[1..] == []; }
  }

  lemma {:induction false} ZeroNumber()
    ensures IsNumber("0") && Number("0") == 0
  {
    assert "0"[..0] == [];
    DigitsAreNumber("0");
  }

  /** What an interval counts up to when its text is read. */
  function Back(x: Datetime): Counts
    requires x.Interval?
  {
    Counts(x.hours + x.minutes + x.seconds + x.micros != 0, 0, 0, x.days, x.hours, x.minutes, x.seconds,
      if x.micros == 0 then 0 else MicrosBack(x.micros))
  }

  lemma {:induction false} CountInterval(x: Datetime)
    requires x.Interval? && IsDatetime(x)
    ensures Legal(ItemsOf(x), false) && Count(ItemsOf(x), NONE) == Back(x)
  {
    hide Legal, Count, SecondsItems, MaybePart, MicrosBack;
    var any := x.hours + x.minutes + x.seconds + x.micros != 0;
    var c1 := if x.days == 0 then NONE else Set(NONE, 'D', x.days);
    var c2 := c1.(foundT := any);
    var c3 := if x.hours == 0 then c2 else Set(c2, 'H', x.hours);
    var c4 := if x.minutes == 0 then c3 else Set(c3, 'M', x.minutes);
    var s := SecondsItems(x.seconds, x.micros);
    var m := MaybePart(x.minutes, 'M') + s;
    var h := MaybePart(x.hours, 'H') + m;
    CountSeconds(x.seconds, x.micros, c4);
    if any {
      CountMaybePart(x.minutes, 'M', s, c3);
      CountMaybePart(x.hours, 'H', m, c2);
      CountMark(h, c1);
    } else {
      NothingTimed(x);
    }
    CountMaybePart(x.days, 'D', Marks(x) + h, NONE);
  }

  lemma {:induction false} CountMark(items: seq<Item>, c: Counts)
    requires Legal(items, true)
    ensures Legal([Mark] + items, c.foundT) && Count([Mark] + items, c) == Count(items, c.(foundT := true))
  {
    TextOfOne(Mark, items);
  }

  lemma {:induction false} NothingTimed(x: Datetime)
    requires x.Interval? && x.hours + x.minutes + x.seconds + x.micros == 0
    ensures Marks(x) + (MaybePart(x.hours, 'H') + (MaybePart(x.minutes, 'M') + SecondsItems(x.seconds, x.micros)))
      == SecondsItems(x.seconds, x.micros)
  {
  }

  // ---------------------------------------------------------------------------------------
  // The duration that comes back
  // ---------------------------------------------------------------------------------------

  function TotalSeconds(x: Datetime): nat
    requires x.Interval?
  {
    ((x.days * 24 + x.hours) * 60 + x.minutes) * 60 + x.seconds
  }

  function TotalMicros(x: Datetime): nat
    requires x.Interval?
  {
    TotalSeconds(x) * 1000000 + x.micros
  }

  /** The whole days of an interval. */
  function WholeDays(x: Datetime): nat
    requires x.Interval?
  {
    TotalSeconds(x) / 86400
  }

  predicate IsNormal(x: Datetime) { x.Interval? && x.hours < 24 && x.minutes < 60 && x.seconds < 60 }

  lemma {:induction false} Carry(x: Datetime)
    requires x.Interval? && IsDatetime(x)
    ensures var y := Normalised(Back(x));
      && IsNormal(y) && y.micros == (if x.micros == 0 then 0 else MicrosBack(x.micros))
      && y.days == ToU32(WholeDays(x))
      && TotalSeconds(x) == ((WholeDays(x) * 24 + y.hours) * 60 + y.minutes) * 60 + y.seconds
  {
    hide MicrosBack, Wrap, TotalSeconds;
    MicrosSurvive(x.micros);
    var minutes := x.minutes + x.seconds / 60;
    var hours := x.hours + minutes / 60;
    var days := x.days + hours / 24;
    NoWrap(minutes);
    NoWrap(hours);
    NoWrap(days);
    CarryTotal(x);
    DaysOf(TotalSeconds(x), days, (hours % 24 * 60 + minutes % 60) * 60 + x.seconds % 60);
  }

  lemma {:induction false} NoWrap(n: nat)
    requires n < ULONG
    ensures Wrap(n) == n
  {
  }

  lemma {:induction false} CarryTotal(x: Datetime)
    requires x.Interval?
    ensures var minutes := x.minutes + x.seconds / 60;
      var hours := x.hours + minutes / 60;
      var days := x.days + hours / 24;
      TotalSeconds(x) == days * 86400 + ((hours % 24 * 60 + minutes % 60) * 60 + x.seconds % 60)
  {
    var minutes := x.minutes + x.seconds / 60;
    var hours := x.hours + minutes / 60;
    assert x.seconds == x.seconds / 60 * 60 + x.seconds % 60;
    assert minutes == minutes / 60 * 60 + minutes % 60;
    assert hours == hours / 24 * 24 + hours % 24;
  }

  lemma {:induction false} DaysOf(n: nat, d: nat, r: nat)
    requires n == d * 86400 + r && r < 86400
    ensures n / 86400 == d
  {
  }

  /**
    An interval comes back normalised, and with the same total exactly when its whole days fit 32
    bits and its microseconds fit six digits.
   */
  lemma {:induction false} IntervalRoundTrip(x: Datetime)
    requires x.Interval? && IsDatetime(x)
    ensures Legal(ItemsOf(x), false)
    ensures var y := Normalised(Count(ItemsOf(x), NONE));
      && IsNormal(y)
      && (TotalMicros(y) == TotalMicros(x) <==> WholeDays(x) < U32 && x.micros < 1000000)
  {
    hide Legal, Count, ItemsOf, Normalised, Back, MicrosBack;
    CountInterval(x);
    Carry(x);
    MicrosSurvive(x.micros);
    Totals(x, Normalised(Back(x)));
  }

  lemma {:induction false} Totals(x: Datetime, y: Datetime)
    requires x.Interval? && IsDatetime(x) && IsNormal(y)
    requires y.micros < 1000000 && (x.micros < 1000000 ==> y.micros == x.micros)
    requires y.days == ToU32(WholeDays(x))
    requires TotalSeconds(x) == ((WholeDays(x) * 24 + y.hours) * 60 + y.minutes) * 60 + y.seconds
    ensures TotalMicros(y) == TotalMicros(x) <==> WholeDays(x) < U32 && x.micros < 1000000
  {
    hide WholeDays;
    var d := WholeDays(x);
    assert TotalSeconds(x) - TotalSeconds(y) == (d - y.days) * 86400;
  }

  lemma {:induction false} WordDigits(n: nat)
    requires n < U32
    ensures |Dec(n)| <= 10 && |Pad(n, 6)| <= 10
  {
    hide Dec, Pow10;
    DecLength(n, 10);
    Powers();
  }

  /** No interval is too long for the buffer. */
  lemma {:induction false} IntervalFits(x: Datetime)
    requires x.Interval? && IsDatetime(x)
    ensures Clip(IntervalText(x)) == IntervalText(x)
  {
    hide Dec, Pad;
    WordDigits(x.days);
    WordDigits(x.hours);
    WordDigits(x.minutes);
    WordDigits(x.seconds);
    WordDigits(x.micros);
  }

  /** `FormatWSManDatetime`. */
  function FormatWSMan(x: Datetime): string {
    Clip(if x.Timestamp? then StampText(x) else IntervalText(x))
  }

  /** `ParseWSManDatetime`. */
  method ParseWSMan(s: string) returns (r: Option<Datetime>)
    ensures Head(s) == '-' ==> r == None
    ensures Head(s) != 'P' ==> r == ParseStamp(s)
    ensures Head(s) == 'P' && '\0' !in s ==> (r.Some? <==> IsDuration(s))
    ensures forall items | Reads(s, items) :: r == Some(Normalised(Count(items, NONE)))
  {
    hide Text, Legal, Count, ParseStamp, Normalised;
    NegativeIsRefused(s);
    StartsWithP(s);
    if Head(s) == '-' { return None; }
    if Head(s) == 'P' {
      r := ParseDuration(s);
    } else {
      r := ParseStamp(s);
    }
  }

  lemma {:induction false} NegativeIsRefused(s: string)
    ensures Head(s) == '-' ==> ParseStamp(s) == None
  {
  }

  /**
    Formatting any value and parsing the text: a timestamp comes back exactly when it fits, and an
    interval keeps its total exactly when its whole days and microseconds do.
   */
  method FormatThenParse(x: Datetime) returns (r: Option<Datetime>)
    requires IsDatetime(x)
    ensures x.Timestamp? ==> (r == Some(x) <==> InRange(x))
    ensures x.Interval? ==> r.Some? && IsNormal(r.value)
    ensures x.Interval? ==> (TotalMicros(r.value) == TotalMicros(x) <==> WholeDays(x) < U32 && x.micros < 1000000)
  {
    hide Legal, Count, ItemsOf, Normalised, IntervalText, TotalMicros, WholeDays, StampText, ParseStamp, Text,
      IsDatetime, InRange;
    if x.Interval? {
      IntervalFits(x);
      IntervalIsItems(x);
      IntervalRoundTrip(x);
      assert Reads(FormatWSMan(x), ItemsOf(x));
    } else {
      StampRoundTrip(x);
      CutDate(x);
    }
    r := ParseWSMan(FormatWSMan(x));
  }

  // ---------------------------------------------------------------------------------------
  // Microseconds
  // ---------------------------------------------------------------------------------------

  /** `DatetimeToUsec`: the products are computed in 32 bits, the sum in 64. */
  function ToUsec(x: Datetime): Option<nat> {
    if x.Timestamp? then None
    else
      var tally := x.seconds + x.minutes * 60 % U32 + x.hours * 3600 % U32 + x.days * 86400 % U32;
      Some((x.micros + tally * 1000000) % ULONG)
  }

  /** `UsecToDatetime`. */
  function FromUsec(t: nat): Datetime {
    var seconds := t / 1000000;
    var minutes := seconds / 60;
    var hours := minutes / 60;
    Interval(ToU32(hours / 24), hours % 24, minutes % 60, seconds % 60, t % 1000000)
  }

  const DAY: nat := 86400000000

  lemma {:induction false} FromUsecTotal(t: nat)
    requires t < ULONG
    ensures var x := FromUsec(t);
      && IsNormal(x) && x.micros < 1000000 && TotalMicros(x) == t && x.days == t / DAY
  {
    var seconds := t / 1000000;
    var minutes := seconds / 60;
    var hours := minutes / 60;
    var days := hours / 24;
    assert t == ((days * 24 + hours % 24) * 3600 + minutes % 60 * 60 + seconds % 60) * 1000000 + t % 1000000;
    assert t == days * DAY + ((hours % 24 * 3600 + minutes % 60 * 60 + seconds % 60) * 1000000 + t % 1000000);
  }

  /** Converting to an interval and back is the identity exactly below 49711 days. */
  lemma {:induction false} UsecRoundTrip(t: nat)
    requires t < ULONG
    ensures ToUsec(FromUsec(t)) == Some(t) <==> t < 49711 * DAY
  {
    hide FromUsec, ToUsec;
    FromUsecTotal(t);
    var x := FromUsec(t);
    var seconds := x.seconds + x.minutes * 60 + x.hours * 3600;
    assert t == (seconds + x.days * 86400) * 1000000 + x.micros;
    Products(x);
    DaysIn32(x.days);
  }

  lemma {:induction false} Products(x: Datetime)
    requires IsNormal(x) && x.micros < 1000000
    ensures ToUsec(x) == Some(x.micros + (x.seconds + x.minutes * 60 + x.hours * 3600 + x.days * 86400 % U32) * 1000000)
  {
    var day := x.days * 86400 % U32;
    assert x.minutes * 60 % U32 == x.minutes * 60 && x.hours * 3600 % U32 == x.hours * 3600;
  }

  lemma {:induction false} DaysIn32(d: nat)
    ensures d * 86400 % U32 == d * 86400 <==> d < 49711
    ensures d * 86400 % U32 <= d * 86400
  {
  }

  /** Converting an interval to microseconds gives its total exactly when no product exceeds 32 bits. */
  lemma {:induction false} ToUsecIff(x: Datetime)
    requires x.Interval? && IsDatetime(x)
    ensures ToUsec(x) == Some(TotalMicros(x)) <==> x.minutes * 60 < U32 && x.hours * 3600 < U32 && x.days * 86400 < U32
    ensures ToUsec(Timestamp(0, 0, 0, 0, 0, 0, 0, 0)) == None
  {
    var m, h, d := x.minutes * 60, x.hours * 3600, x.days * 86400;
    Remainders(m);
    Remainders(h);
    Remainders(d);
    assert TotalMicros(x) == (x.seconds + m + h + d) * 1000000 + x.micros;
  }

  lemma {:induction false} Remainders(n: nat)
    ensures n % U32 <= n && (n % U32 == n <==> n < U32)
  {
  }

  // ---------------------------------------------------------------------------------------
  // What a duration amounts to
  // ---------------------------------------------------------------------------------------

  predicate HasMark(items: seq<Item>) {
    items != [] && (items[|items| - 1].Mark? || HasMark(items[..|items| - 1]))
  }

  function NumberOf(t: string): nat { if IsNumber(t) then Number(t) else 0 }

  /** The last number with designator `d` in the date section, or in the time section. */
  function LastOf(items: seq<Item>, timed: bool, d: char): nat {
    if items == [] then 0
    else
      var before, item := items[..|items| - 1], items[|items| - 1];
      if item.Part? && item.designator == d && HasMark(before) == timed then NumberOf(item.digits)
      else if item.Fraction? && timed && d == 'S' then NumberOf(item.digits)
      else LastOf(before, timed, d)
  }

  function LastMicros(items: seq<Item>): nat {
    if items == [] then 0
    else if items[|items| - 1].Fraction? then Micros(items[|items| - 1].decimals)
    else LastMicros(items[..|items| - 1])
  }

  lemma {:induction false} LegalSplits(done: seq<Item>, item: Item, c: Counts)
    requires Legal(done + [item], c.foundT)
    ensures Legal(done, c.foundT) && Legal([item], Count(done, c).foundT)
    decreases |done|
  {
    hide Set, Micros, Number, IsNumber;
    if done == [] {
      assert done + [item] == [item];
    } else {
      assert (done + [item])[1..] == done[1..] + [item];
      match done[0]
      case Mark => LegalSplits(done[1..], item, c.(foundT := true));
      case Part(digits, d) => LegalSplits(done[1..], item, Set(c, d, Number(digits)));
      case Fraction(digits, decimals) =>
        LegalSplits(done[1..], item, c.(seconds := Number(digits), micros := Micros(decimals)));
    }
  }

  /**
    Of each kind the last number counts: years, months and days of the date section, the others of
    the time section.
   */
  lemma {:induction false} CountIsLast(items: seq<Item>)
    requires Legal(items, false)
    ensures Count(items, NONE) == Counts(HasMark(items), LastOf(items, false, 'Y'), LastOf(items, false, 'M'),
      LastOf(items, false, 'D'), LastOf(items, true, 'H'), LastOf(items, true, 'M'), LastOf(items, true, 'S'),
      LastMicros(items))
    decreases |items|
  {
    hide Micros, Number, IsNumber;
    if items != [] {
      var before, item := items[..|items| - 1], items[|items| - 1];
      assert items == before + [item];
      LegalSplits(before, item, NONE);
      OneMore(before, item, NONE);
      CountIsLast(before);
      assert [item][1..] == [];
    }
  }

  /** A year is 365 days and each fourth one more, a month 30 days and each second one more. */
  function AmountDays(c: Counts): nat { c.days + c.years * 365 + c.years / 4 + c.months * 30 + c.months / 2 }

  function AmountSeconds(c: Counts): nat { ((AmountDays(c) * 24 + c.hours) * 60 + c.minutes) * 60 + c.seconds }

  /** The interval is the amount, in normal form, exactly when its whole days fit 32 bits. */
  lemma {:induction false} NormalisedIsAmount(c: Counts)
    ensures var x := Normalised(c);
      && IsNormal(x) && x.micros == c.micros % U32
      && (TotalSeconds(x) == AmountSeconds(c) <==> AmountSeconds(c) / 86400 < U32)
  {
    hide TotalSeconds, Wrap, AmountSeconds;
    var x := Normalised(c);
    SmallTotal(x);
    if AmountSeconds(c) / 86400 < U32 {
      PartsAreSmall(c);
      var minutes := c.minutes + c.seconds / 60;
      var hours := c.hours + minutes / 60;
      NoWrap(minutes);
      NoWrap(hours);
      NoWrap(c.days + hours / 24);
      NoWrap(AmountDays(c) + hours / 24);
      AmountCarried(c);
      AmountIs(c, x);
    } else {
      assert AmountSeconds(c) >= U32 * 86400;
    }
  }

  lemma {:induction false} SmallTotal(x: Datetime)
    requires IsNormal(x) && x.days < U32
    ensures TotalSeconds(x) < U32 * 86400
  {
  }

  lemma {:induction false} PartsAreSmall(c: Counts)
    requires AmountSeconds(c) / 86400 < U32
    ensures c.minutes + c.seconds / 60 < ULONG && c.hours + (c.minutes + c.seconds / 60) / 60 < ULONG
    ensures AmountDays(c) + (c.hours + (c.minutes + c.seconds / 60) / 60) / 24 < ULONG
  {
    hide AmountDays;
    assert AmountSeconds(c) < U32 * 86400;
  }

  lemma {:induction false} AmountCarried(c: Counts)
    ensures var minutes := c.minutes + c.seconds / 60;
      var hours := c.hours + minutes / 60;
      AmountSeconds(c) == (AmountDays(c) + hours / 24) * 86400
        + ((hours % 24 * 60 + minutes % 60) * 60 + c.seconds % 60)
  {
    hide AmountDays;
    var minutes := c.minutes + c.seconds / 60;
    var hours := c.hours + minutes / 60;
    assert c.seconds == c.seconds / 60 * 60 + c.seconds % 60;
    assert minutes == minutes / 60 * 60 + minutes % 60;
    assert hours == hours / 24 * 24 + hours % 24;
  }

  lemma {:induction false} AmountIs(c: Counts, x: Datetime)
    requires AmountSeconds(c) / 86400 < U32
    requires var minutes := c.minutes + c.seconds / 60;
      var hours := c.hours + minutes / 60;
      && AmountSeconds(c) == (AmountDays(c) + hours / 24) * 86400
        + ((hours % 24 * 60 + minutes % 60) * 60 + c.seconds % 60)
      && x == Interval(ToU32(AmountDays(c) + hours / 24), hours % 24, minutes % 60, c.seconds % 60, x.micros)
    ensures TotalSeconds(x) == AmountSeconds(c)
  {
    hide AmountSeconds, AmountDays;
    var minutes := c.minutes + c.seconds / 60;
    var hours := c.hours + minutes / 60;
    DaysOf(AmountSeconds(c), AmountDays(c) + hours / 24, (hours % 24 * 60 + minutes % 60) * 60 + c.seconds % 60);
  }
}
