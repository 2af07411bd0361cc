/** Block-streamed Base64, against section 4 of RFC 4648, and the callback that collects its blocks. */
module Base64 {
  type byte = bv8

  const PAD: byte := 0x3D

  /** `encTable`: A-Z, a-z, 0-9, plus, slash. */
  function Enc6Bits(x: byte): byte {
    if x < 26 then x + 65
    else if x < 52 then x + 71
    else if x < 62 then x - 4
    else if x == 62 then 43
    else 47
  }

  /** `DecChar`: 64 for the padding character, 0xFF for a character outside the alphabet. */
  function DecChar(c: byte): byte {
    if 65 <= c <= 90 then c - 65
    else if 97 <= c <= 122 then c - 97 + 26
    else if 48 <= c <= 57 then c - 48 + 52
    else if c == 43 then 62
    else if c == 47 then 63
    else if c == PAD then 64
    else 0xFF
  }

  /** The value of a character, whose high bit is ignored. */
  function Value(c: byte): byte { DecChar(c & 0x7F) }

  /** The code points are below 128, and decoding inverts encoding. */
  lemma {:induction false} AlphabetInverse(x: byte)
    requires x < 64
    ensures Value(Enc6Bits(x)) == x && x != 64 && x != 0xFF
  {
  }

  // ---------------------------------------------------------------------------------------
  // What the code writes
  // ---------------------------------------------------------------------------------------

  function I1(b1: byte): byte { (b1 & 0xFC) >> 2 }

  function I2(b1: byte, b2: byte): byte { ((b1 & 0x03) << 4) | ((b2 & 0xF0) >> 4) }

  function I3(b2: byte, b3: byte): byte { ((b2 & 0x0F) << 2) | ((b3 & 0xCF) >> 6) }

  function I4(b3: byte): byte { b3 & 0x3F }

  /** The characters for the first one to three bytes of `x`. */
  function Group(x: seq<byte>): (t: seq<byte>)
    requires x != []
    ensures |t| == 4
  {
    if |x| == 1 then [Enc6Bits(I1(x[0])), Enc6Bits(I2(x[0], 0)), PAD, PAD]
    else if |x| == 2 then [Enc6Bits(I1(x[0])), Enc6Bits(I2(x[0], x[1])), Enc6Bits(I3(x[1], 0)), PAD]
    else [Enc6Bits(I1(x[0])), Enc6Bits(I2(x[0], x[1])), Enc6Bits(I3(x[1], x[2])), Enc6Bits(I4(x[2]))]
  }

  /** What is left after the first group. */
  function Rest(x: seq<byte>): seq<byte> { if |x| < 3 then [] else x[3..] }

  function Encoding(x: seq<byte>): seq<byte>
    decreases |x|
  {
    if x == [] then [] else Group(x) + Encoding(Rest(x))
  }

  // ---------------------------------------------------------------------------------------
  // The standard
  // ---------------------------------------------------------------------------------------

  /** Table 1 of RFC 4648: the Base64 alphabet, in four rows of sixteen. */
  function Row0(x: byte): char {
    match x
    case 0 => 'A' case 1 => 'B' case 2 => 'C' case 3 => 'D'
    case 4 => 'E' case 5 => 'F' case 6 => 'G' case 7 => 'H'
    case 8 => 'I' case 9 => 'J' case 10 => 'K' case 11 => 'L'
    case 12 => 'M' case 13 => 'N' case 14 => 'O' case _ => 'P'
  }

  function Row16(x: byte): char {
    match x
    case 16 => 'Q' case 17 => 'R' case 18 => 'S' case 19 => 'T'
    case 20 => 'U' case 21 => 'V' case 22 => 'W' case 23 => 'X'
    case 24 => 'Y' case 25 => 'Z' case 26 => 'a' case 27 => 'b'
    case 28 => 'c' case 29 => 'd' case 30 => 'e' case _ => 'f'
  }

  function Row32(x: byte): char {
    match x
    case 32 => 'g' case 33 => 'h' case 34 => 'i' case 35 => 'j'
    case 36 => 'k' case 37 => 'l' case 38 => 'm' case 39 => 'n'
    case 40 => 'o' case 41 => 'p' case 42 => 'q' case 43 => 'r'
    case 44 => 's' case 45 => 't' case 46 => 'u' case _ => 'v'
  }

  function Row48(x: byte): char {
    match x
    case 48 => 'w' case 49 => 'x' case 50 => 'y' case 51 => 'z'
    case 52 => '0' case 53 => '1' case 54 => '2' case 55 => '3'
    case 56 => '4' case 57 => '5' case 58 => '6' case 59 => '7'
    case 60 => '8' case 61 => '9' case 62 => '+' case _ => '/'
  }

  function Table(x: byte): char {
    if x < 16 then Row0(x) else if x < 32 then Row16(x) else if x < 48 then Row32(x) else Row48(x)
  }

  /** The code of a character in ASCII. */
  function Ascii(c: char): byte { if c < '\U{80}' then (c as int) as byte else 0 }

  /** `t` is the character of the 6-bit value `x`. */
  ghost predicate Digit(t: byte, x: bv32) { Small(x) && t == Ascii(Table((x & 0x3F) as byte)) }

  ghost predicate Small(x: bv32) { x < 64 }

  function Wide(b: byte): bv32 { b as bv32 }

  /** Two and three bytes, and two to four 6-bit values, written one after the other. */
  function Join2(b1: byte, b2: byte): bv32 { (Wide(b1) << 8) | Wide(b2) }

  function Join3(b1: byte, b2: byte, b3: byte): bv32 { (Wide(b1) << 16) | (Wide(b2) << 8) | Wide(b3) }

  function Six2(c1: bv32, c2: bv32): bv32 { (c1 << 6) | c2 }

  function Six3(c1: bv32, c2: bv32, c3: bv32): bv32 { (c1 << 12) | (c2 << 6) | c3 }

  function Six4(c1: bv32, c2: bv32, c3: bv32, c4: bv32): bv32 { (c1 << 18) | (c2 << 12) | (c3 << 6) | c4 }

  function ZeroBits(w: bv32, two: bool): bv32 { if two then w << 2 else w << 4 }

  /** The last quantum: 24 bits as four 6-bit groups; 8 or 16 bits with zero bits added on the right, then padding. */
  ghost predicate Quantum(x: seq<byte>, t: seq<byte>)
    requires x != []
  {
    |t| == 4 && exists c1: bv32, c2: bv32, c3: bv32, c4: bv32 :: Quartet(x, t, c1, c2, c3, c4)
  }

  ghost predicate Quartet(x: seq<byte>, t: seq<byte>, c1: bv32, c2: bv32, c3: bv32, c4: bv32)
    requires x != [] && |t| == 4
  {
    && Digit(t[0], c1) && Digit(t[1], c2)
    && if |x| == 1 then
      && ZeroBits(Wide(x[0]), false) == Six2(c1, c2) && t[2] == PAD && t[3] == PAD
    else if |x| == 2 then
      && ZeroBits(Join2(x[0], x[1]), true) == Six3(c1, c2, c3) && Digit(t[2], c3) && t[3] == PAD
    else
      && Join3(x[0], x[1], x[2]) == Six4(c1, c2, c3, c4)
      && Digit(t[2], c3) && Digit(t[3], c4)
  }

  /** Section 4 of RFC 4648. */
  ghost predicate IsEncodingOf(x: seq<byte>, t: seq<byte>)
    decreases |x|
  {
    if x == [] then t == []
    else |t| >= 4 && Quantum(x, t[..4]) && IsEncodingOf(Rest(x), t[4..])
  }

  lemma {:induction false} Bits1(b1: byte)
    ensures I1(b1) < 64 && I2(b1, 0) < 64
    ensures ZeroBits(Wide(b1), false) == Six2(Wide(I1(b1)), Wide(I2(b1, 0)))
  {
  }

  lemma {:induction false} Bits2(b1: byte, b2: byte)
    ensures I1(b1) < 64 && I2(b1, b2) < 64 && I3(b2, 0) < 64
    ensures ZeroBits(Join2(b1, b2), true) == Six3(Wide(I1(b1)), Wide(I2(b1, b2)), Wide(I3(b2, 0)))
  {
  }

  lemma {:induction false} Bits3(b1: byte, b2: byte, b3: byte)
    ensures I1(b1) < 64 && I2(b1, b2) < 64 && I3(b2, b3) < 64 && I4(b3) < 64
    ensures Join3(b1, b2, b3) == Six4(Wide(I1(b1)), Wide(I2(b1, b2)), Wide(I3(b2, b3)), Wide(I4(b3)))
  {
  }

  lemma {:induction false} Codes0(x: byte)
    requires x < 16
    ensures Enc6Bits(x) == Ascii(Row0(x))
  {
    hide Ascii;
    CodesOf0();
    CodesOf8();
  }

  lemma {:induction false} CodesOf0()
    ensures Ascii('A') == 65 && Ascii('B') == 66 && Ascii('C') == 67 && Ascii('D') == 68
    ensures Ascii('E') == 69 && Ascii('F') == 70 && Ascii('G') == 71 && Ascii('H') == 72
  {
  }

  lemma {:induction false} CodesOf8()
    ensures Ascii('I') == 73 && Ascii('J') == 74 && Ascii('K') == 75 && Ascii('L') == 76
    ensures Ascii('M') == 77 && Ascii('N') == 78 && Ascii('O') == 79 && Ascii('P') == 80
  {
  }

  lemma {:induction false} Codes16(x: byte)
    requires 16 <= x < 32
    ensures Enc6Bits(x) == Ascii(Row16(x))
  {
    hide Ascii;
    CodesOf16();
    CodesOf24();
  }

  lemma {:induction false} CodesOf16()
    ensures Ascii('Q') == 81 && Ascii('R') == 82 && Ascii('S') == 83 && Ascii('T') == 84
    ensures Ascii('U') == 85 && Ascii('V') == 86 && Ascii('W') == 87 && Ascii('X') == 88
  {
  }

  lemma {:induction false} CodesOf24()
    ensures Ascii('Y') == 89 && Ascii('Z') == 90 && Ascii('a') == 97 && Ascii('b') == 98
    ensures Ascii('c') == 99 && Ascii('d') == 100 && Ascii('e') == 101 && Ascii('f') == 102
  {
  }

  lemma {:induction false} Codes32(x: byte)
    requires 32 <= x < 48
    ensures Enc6Bits(x) == Ascii(Row32(x))
  {
    hide Ascii;
    CodesOf32();
    CodesOf40();
  }

  lemma {:induction false} CodesOf32()
    ensures Ascii('g') == 103 && Ascii('h') == 104 && Ascii('i') == 105 && Ascii('j') == 106
    ensures Ascii('k') == 107 && Ascii('l') == 108 && Ascii('m') == 109 && Ascii('n') == 110
  {
  }

  lemma {:induction false} CodesOf40()
    ensures Ascii('o') == 111 && Ascii('p') == 112 && Ascii('q') == 113 && Ascii('r') == 114
    ensures Ascii('s') == 115 && Ascii('t') == 116 && Ascii('u') == 117 && Ascii('v') == 118
  {
  }

  lemma {:induction false} Codes48(x: byte)
    requires 48 <= x < 64
    ensures Enc6Bits(x) == Ascii(Row48(x))
  {
    hide Ascii;
    CodesOf48();
    CodesOf56();
  }

  lemma {:induction false} CodesOf48()
    ensures Ascii('w') == 119 && Ascii('x') == 120 && Ascii('y') == 121 && Ascii('z') == 122
    ensures Ascii('0') == 48 && Ascii('1') == 49 && Ascii('2') == 50 && Ascii('3') == 51
  {
  }

  lemma {:induction false} CodesOf56()
    ensures Ascii('4') == 52 && Ascii('5') == 53 && Ascii('6') == 54 && Ascii('7') == 55
    ensures Ascii('8') == 56 && Ascii('9') == 57 && Ascii('+') == 43 && Ascii('/') == 47
  {
  }

  /** The encoder's table is that of the standard. */
  lemma {:induction false} EncIsTable(x: byte)
    requires x < 64
    ensures Enc6Bits(x) == Ascii(Table(x))
  {
    hide Enc6Bits, Ascii, Row0, Row16, Row32, Row48;
    if x < 16 { Codes0(x); } else if x < 32 { Codes16(x); } else if x < 48 { Codes32(x); } else { Codes48(x); }
  }

  lemma {:induction false} WideDigit(x: byte)
    requires x < 64
    ensures Digit(Enc6Bits(x), Wide(x))
  {
    hide Enc6Bits, Ascii, Table;
    EncIsTable(x);
    NarrowWide(x);
  }

  lemma {:induction false} NarrowWide(x: byte)
    requires x < 64
    ensures Small(Wide(x)) && (Wide(x) & 0x3F) as byte == x
  {
  }

  lemma {:induction false} GroupIsQuantum(x: seq<byte>)
    requires x != []
    ensures Quantum(x, Group(x))
  {
    hide Digit, I1, I2, I3, I4, Wide, Enc6Bits, Join2, Join3, Six2, Six3, Six4, ZeroBits;
    if |x| == 1 {
      Bits1(x[0]);
      WideDigit(I1(x[0]));
      WideDigit(I2(x[0], 0));
      assert Quartet(x, Group(x), Wide(I1(x[0])), Wide(I2(x[0], 0)), 0, 0);
    } else if |x| == 2 {
      Bits2(x[0], x[1]);
      WideDigit(I1(x[0]));
      WideDigit(I2(x[0], x[1]));
      WideDigit(I3(x[1], 0));
      assert Quartet(x, Group(x), Wide(I1(x[0])), Wide(I2(x[0], x[1])), Wide(I3(x[1], 0)), 0);
    } else {
      Bits3(x[0], x[1], x[2]);
      WideDigit(I1(x[0]));
      WideDigit(I2(x[0], x[1]));
      WideDigit(I3(x[1], x[2]));
      WideDigit(I4(x[2]));
      assert Quartet(x, Group(x), Wide(I1(x[0])), Wide(I2(x[0], x[1])), Wide(I3(x[1], x[2])), Wide(I4(x[2])));
    }
  }

  /** The text is the standard's encoding. */
  lemma {:induction false} EncodingIsStandard(x: seq<byte>)
    ensures IsEncodingOf(x, Encoding(x))
    decreases |x|
  {
    hide Group, Quantum;
    if x != [] {
      GroupIsQuantum(x);
      EncodingIsStandard(Rest(x));
      assert Encoding(x)[..4] == Group(x) && Encoding(x)[4..] == Encoding(Rest(x));
    }
  }

  lemma {:induction false} Split2(c1: bv32, c2: bv32)
    requires Small(c1) && Small(c2)
    ensures Six2(c1, c2) >> 6 == c1 && Six2(c1, c2) & 63 == c2
  {
  }

  lemma {:induction false} Split3(c1: bv32, c2: bv32, c3: bv32)
    requires Small(c1) && Small(c2) && Small(c3)
    ensures Six3(c1, c2, c3) >> 12 == c1 && (Six3(c1, c2, c3) >> 6) & 63 == c2 && Six3(c1, c2, c3) & 63 == c3
  {
  }

  lemma {:induction false} Split4(c1: bv32, c2: bv32, c3: bv32, c4: bv32)
    requires Small(c1) && Small(c2) && Small(c3) && Small(c4)
    ensures var w := Six4(c1, c2, c3, c4); w >> 18 == c1 && (w >> 12) & 63 == c2 && (w >> 6) & 63 == c3 && w & 63 == c4
  {
  }

  lemma {:induction false} Unique2(c1: bv32, c2: bv32, d1: bv32, d2: bv32)
    requires Small(c1) && Small(c2) && Small(d1) && Small(d2) && Six2(c1, c2) == Six2(d1, d2)
    ensures c1 == d1 && c2 == d2
  {
    hide Six2, Small;
    Split2(c1, c2);
    Split2(d1, d2);
  }

  lemma {:induction false} Unique3(c1: bv32, c2: bv32, c3: bv32, d1: bv32, d2: bv32, d3: bv32)
    requires Small(c1) && Small(c2) && Small(c3) && Small(d1) && Small(d2) && Small(d3)
    requires Six3(c1, c2, c3) == Six3(d1, d2, d3)
    ensures c1 == d1 && c2 == d2 && c3 == d3
  {
    hide Six3, Small;
    Split3(c1, c2, c3);
    Split3(d1, d2, d3);
  }

  lemma {:induction false} Unique4(c1: bv32, c2: bv32, c3: bv32, c4: bv32, d1: bv32, d2: bv32, d3: bv32, d4: bv32)
    requires Small(c1) && Small(c2) && Small(c3) && Small(c4) && Small(d1) && Small(d2) && Small(d3) && Small(d4)
    requires Six4(c1, c2, c3, c4) == Six4(d1, d2, d3, d4)
    ensures c1 == d1 && c2 == d2 && c3 == d3 && c4 == d4
  {
    hide Six4, Small;
    Split4(c1, c2, c3, c4);
    Split4(d1, d2, d3, d4);
  }

  lemma {:induction false} SmallDigit(t: byte, c: bv32)
    requires Digit(t, c)
    ensures Small(c)
  {
  }

  lemma {:induction false} SameDigit(t: byte, u: byte, c: bv32)
    requires Digit(t, c) && Digit(u, c)
    ensures t == u
  {
  }

  lemma {:induction false} QuartetIsUnique(x: seq<byte>, t: seq<byte>, u: seq<byte>,
    c1: bv32, c2: bv32, c3: bv32, c4: bv32, d1: bv32, d2: bv32, d3: bv32, d4: bv32)
    requires x != [] && |t| == |u| == 4 && Quartet(x, t, c1, c2, c3, c4) && Quartet(x, u, d1, d2, d3, d4)
    ensures t[0] == u[0] && t[1] == u[1] && t[2] == u[2] && t[3] == u[3]
  {
    hide Digit, Small, Wide, Join2, Join3, Six2, Six3, Six4, ZeroBits;
    SmallDigit(t[0], c1);
    SmallDigit(t[1], c2);
    SmallDigit(u[0], d1);
    SmallDigit(u[1], d2);
    if |x| == 1 {
      Unique2(c1, c2, d1, d2);
    } else {
      SmallDigit(t[2], c3);
      SmallDigit(u[2], d3);
      if |x| == 2 {
        Unique3(c1, c2, c3, d1, d2, d3);
      } else {
        SmallDigit(t[3], c4);
        SmallDigit(u[3], d4);
        Unique4(c1, c2, c3, c4, d1, d2, d3, d4);
        SameDigit(t[3], u[3], c4);
      }
      SameDigit(t[2], u[2], c3);
    }
    SameDigit(t[0], u[0], c1);
    SameDigit(t[1], u[1], c2);
  }

  /** The standard leaves no choice. */
  lemma {:induction false} QuantumIsUnique(x: seq<byte>, t: seq<byte>, u: seq<byte>)
    requires x != [] && Quantum(x, t) && Quantum(x, u)
    ensures t == u
  {
    hide Quartet;
    var c1: bv32, c2: bv32, c3: bv32, c4: bv32 :| Quartet(x, t, c1, c2, c3, c4);
    var d1: bv32, d2: bv32, d3: bv32, d4: bv32 :| Quartet(x, u, d1, d2, d3, d4);
    QuartetIsUnique(x, t, u, c1, c2, c3, c4, d1, d2, d3, d4);
  }

  lemma {:induction false} EncodingIsUnique(x: seq<byte>, t: seq<byte>)
    requires IsEncodingOf(x, t)
    ensures t == Encoding(x)
    decreases |x|
  {
    hide Group, Quantum;
    if x != [] {
      GroupIsQuantum(x);
      QuantumIsUnique(x, t[..4], Group(x));
      EncodingIsUnique(Rest(x), t[4..]);
    }
  }

  // ---------------------------------------------------------------------------------------
  // Decoding
  // ---------------------------------------------------------------------------------------

  datatype Decoded = Malformed | Bytes(s: seq<byte>)

  /** No character of the first four is outside the alphabet. */
  predicate Legal(t: seq<byte>)
    requires |t| >= 4
  {
    Value(t[0]) != 0xFF && Value(t[1]) != 0xFF && Value(t[2]) != 0xFF && Value(t[3]) != 0xFF
  }

  function B1(c1: byte, c2: byte): byte { (c1 << 2) | (c2 >> 4) }

  function B2(c2: byte, c3: byte): byte { ((c2 & 0xF) << 4) | (c3 >> 2) }

  function B3(c3: byte, c4: byte): byte { ((c3 & 0x3) << 6) | c4 }

  /** The bytes of the first four characters, padding read as 64. */
  function Ungroup(t: seq<byte>): (s: seq<byte>)
    requires |t| >= 4
    ensures 1 <= |s| <= 3
  {
    var c1, c2, c3, c4 := Value(t[0]), Value(t[1]), Value(t[2]), Value(t[3]);
    [B1(c1, c2)] + (if c3 != 64 then [B2(c2, c3)] else []) + (if c4 != 64 then [B3(c3, c4)] else [])
  }

  function Prepend(s: seq<byte>, d: Decoded): Decoded { if d.Bytes? then Bytes(s + d.s) else Malformed }

  function Decoding(t: seq<byte>): Decoded
    decreases |t|
  {
    if t == [] then Bytes([])
    else if |t| < 4 || !Legal(t) then Malformed
    else Prepend(Ungroup(t), Decoding(t[4..]))
  }

  lemma {:induction false} Unbits(b1: byte, b2: byte, b3: byte)
    ensures B1(I1(b1), I2(b1, b2)) == b1 && B2(I2(b1, b2), I3(b2, b3)) == b2 && B3(I3(b2, b3), I4(b3)) == b3
    ensures I1(b1) < 64 && I2(b1, b2) < 64 && I3(b2, b3) < 64 && I4(b3) < 64
  {
  }

  lemma {:induction false} UngroupGroup(x: seq<byte>)
    requires x != []
    ensures Legal(Group(x)) && Ungroup(Group(x)) == (if |x| < 3 then x else x[..3])
  {
    hide I1, I2, I3, I4, B1, B2, B3, Enc6Bits, Value;
    PadIs64();
    var b1, b2, b3 := x[0], if |x| < 2 then 0 else x[1], if |x| < 3 then 0 else x[2];
    Unbits(b1, b2, b3);
    AlphabetInverse(I1(b1));
    AlphabetInverse(I2(b1, b2));
    AlphabetInverse(I3(b2, b3));
    AlphabetInverse(I4(b3));
  }

  lemma {:induction false} PadIs64()
    ensures Value(PAD) == 64
  {
  }

  /** Decoding inverts encoding. */
  lemma {:induction false} DecodingInverts(x: seq<byte>)
    ensures Decoding(Encoding(x)) == Bytes(x)
    decreases |x|
  {
    hide Group, Ungroup, Legal;
    if x != [] {
      UngroupGroup(x);
      DecodingInverts(Rest(x));
      SameGroup(Group(x), Encoding(Rest(x)));
      assert Encoding(x)[4..] == Encoding(Rest(x));
      assert x == (if |x| < 3 then x else x[..3]) + Rest(x);
    }
  }

  lemma {:induction false} SameGroup(g: seq<byte>, t: seq<byte>)
    requires |g| == 4
    ensures Legal(g + t) == Legal(g) && Ungroup(g + t) == Ungroup(g)
  {
  }

  // ---------------------------------------------------------------------------------------
  // The characters
  // ---------------------------------------------------------------------------------------

  /** Character `c` stands for `x` in the alphabet. */
  predicate StandsFor(c: byte, x: byte) { x < 64 && c == Ascii(Table(x)) }

  /** Whether a character may be in Base64 text. */
  ghost predicate IsCharacter(c: byte) { c == PAD || exists x :: StandsFor(c, x) }

  lemma {:induction false} DecInvertsEnc(c: byte, x: byte)
    ensures x < 64 && c == Enc6Bits(x) ==> DecChar(c) == x
    ensures DecChar(c) < 64 ==> c == Enc6Bits(DecChar(c))
    ensures DecChar(c) < 64 || DecChar(c) == 64 || DecChar(c) == 0xFF
    ensures DecChar(c) == 64 <==> c == PAD
  {
  }

  /**
    The value of a character is that of the alphabet, its high bit ignored; 64 is for the padding
    character and 0xFF for every character that is neither.
   */
  lemma {:induction false} ValueIsTable(c: byte, x: byte)
    requires x < 64
    ensures Value(c) == x <==> StandsFor(c & 0x7F, x)
    ensures Value(c) == 64 <==> c & 0x7F == PAD
    ensures Value(c) == 0xFF <==> !IsCharacter(c & 0x7F)
  {
    hide DecChar, Enc6Bits, Ascii, Table;
    var d := c & 0x7F;
    EncIsTable(x);
    DecInvertsEnc(d, x);
    if DecChar(d) < 64 {
      EncIsTable(DecChar(d));
      assert StandsFor(d, DecChar(d));
    } else {
      forall y ensures !StandsFor(d, y) {
        if y < 64 {
          EncIsTable(y);
          DecInvertsEnc(d, y);
        }
      }
    }
  }

  lemma {:induction false} EncodedIsCharacter(x: byte)
    requires x < 64
    ensures IsCharacter(Enc6Bits(x))
  {
    hide Enc6Bits, Ascii, Table;
    EncIsTable(x);
    assert StandsFor(Enc6Bits(x), x);
  }

  lemma {:induction false} GroupIsCharacters(x: seq<byte>)
    requires x != []
    ensures forall i | 0 <= i < 4 :: IsCharacter(Group(x)[i])
  {
    hide I1, I2, I3, I4, Enc6Bits, IsCharacter;
    var b1, b2, b3 := x[0], if |x| < 2 then 0 else x[1], if |x| < 3 then 0 else x[2];
    Unbits(b1, b2, b3);
    EncodedIsCharacter(I1(b1));
    EncodedIsCharacter(I2(b1, b2));
    EncodedIsCharacter(I3(b2, b3));
    EncodedIsCharacter(I4(b3));
    PadIsCharacter();
  }

  lemma {:induction false} PadIsCharacter()
    ensures IsCharacter(PAD)
  {
  }

  /** An encoding consists of characters of the alphabet and padding. */
  lemma {:induction false} EncodingIsCharacters(x: seq<byte>)
    ensures forall i | 0 <= i < |Encoding(x)| :: IsCharacter(Encoding(x)[i])
    decreases |x|
  {
    hide Group, IsCharacter;
    if x != [] {
      GroupIsCharacters(x);
      EncodingIsCharacters(Rest(x));
    }
  }

  // ---------------------------------------------------------------------------------------
  // What the decoder reads
  // ---------------------------------------------------------------------------------------

  lemma {:induction false} SixOfBytes(c1: byte, c2: byte, c3: byte, c4: byte)
    requires c1 < 64 && c2 < 64 && c3 < 64 && c4 < 64
    ensures var b1, b2, b3 := B1(c1, c2), B2(c2, c3), B3(c3, c4);
      && I1(b1) == c1 && I2(b1, b2) == c2 && I3(b2, b3) == c3 && I4(b3) == c4
      && I3(b2, 0) == c3 & 0x3C && I2(b1, 0) == c2 & 0x30
  {
  }

  /** The bits of four characters are those of the bytes; before padding, the bits left over are ignored. */
  lemma {:induction false} UngroupReads(t: seq<byte>)
    requires |t| >= 4 && Value(t[0]) < 64 && Value(t[1]) < 64
    ensures var c1, c2, c3, c4 := Value(t[0]), Value(t[1]), Value(t[2]), Value(t[3]);
      var s := Ungroup(t);
      && (c3 < 64 && c4 < 64 ==>
        |s| == 3 && Join3(s[0], s[1], s[2]) == Six4(Wide(c1), Wide(c2), Wide(c3), Wide(c4)))
      && (c3 < 64 && c4 == 64 ==>
        |s| == 2 && ZeroBits(Join2(s[0], s[1]), true) == Six3(Wide(c1), Wide(c2), Wide(c3 & 0x3C)))
      && (c3 == 64 && c4 == 64 ==> |s| == 1 && ZeroBits(Wide(s[0]), false) == Six2(Wide(c1), Wide(c2 & 0x30)))
  {
    hide Value, B1, B2, B3, I1, I2, I3, I4, Wide, Join2, Join3, Six2, Six3, Six4, ZeroBits;
    var c1, c2, c3, c4 := Value(t[0]), Value(t[1]), Value(t[2]), Value(t[3]);
    SixOfBytes(c1, c2, if c3 < 64 then c3 else 0, if c4 < 64 then c4 else 0);
    Bits1(B1(c1, c2));
    Bits2(B1(c1, c2), B2(c2, c3));
    Bits3(B1(c1, c2), B2(c2, c3), B3(c3, c4));
  }
}
