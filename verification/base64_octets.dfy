/** `_Base64DecCallback`: collecting decoded blocks behind a four-byte, big-endian total length. */
module Base64Octets {
  import opened Base64
  import opened Base64Stream

  /** The unsigned value of a byte, and the byte of a small number, bit by bit. */
  function Num(b: byte): nat {
    (if b & 1 == 0 then 0 else 1) + (if b & 2 == 0 then 0 else 2) + (if b & 4 == 0 then 0 else 4)
    + (if b & 8 == 0 then 0 else 8) + (if b & 16 == 0 then 0 else 16) + (if b & 32 == 0 then 0 else 32)
    + (if b & 64 == 0 then 0 else 64) + (if b & 128 == 0 then 0 else 128)
  }

  lemma {:induction false} NumIsValue(b: byte)
    ensures Num(b) == b as int
  {
  }

  function Flag(set_: bool, w: byte): byte { if set_ then w else 0 }

  function Eight(p0: bool, p1: bool, p2: bool, p3: bool, p4: bool, p5: bool, p6: bool, p7: bool): byte {
    Flag(p0, 1) | Flag(p1, 2) | Flag(p2, 4) | Flag(p3, 8) | Flag(p4, 16) | Flag(p5, 32) | Flag(p6, 64) | Flag(p7, 128)
  }

  function Odd(n: nat): bool { n % 2 == 1 }

  function Half(n: nat): nat { n / 2 }

  function Byte(n: nat): byte {
    var n1 := Half(n);
    var n2 := Half(n1);
    var n3 := Half(n2);
    var n4 := Half(n3);
    var n5 := Half(n4);
    var n6 := Half(n5);
    var n7 := Half(n6);
    Eight(Odd(n), Odd(n1), Odd(n2), Odd(n3), Odd(n4), Odd(n5), Odd(n6), Odd(n7))
  }

  lemma {:induction false} NumEight(p0: bool, p1: bool, p2: bool, p3: bool, p4: bool, p5: bool, p6: bool, p7: bool)
    ensures Num(Eight(p0, p1, p2, p3, p4, p5, p6, p7))
      == (if p0 then 1 else 0) + (if p1 then 2 else 0) + (if p2 then 4 else 0) + (if p3 then 8 else 0)
      + (if p4 then 16 else 0) + (if p5 then 32 else 0) + (if p6 then 64 else 0) + (if p7 then 128 else 0)
  {
  }

  lemma {:induction false} Halve(n: nat)
    ensures n == 2 * Half(n) + (if Odd(n) then 1 else 0)
  {
  }

  lemma {:induction false} NumByte(n: nat)
    requires n < 256
    ensures Num(Byte(n)) == n
  {
    hide Num, Eight, Odd, Half;
    var n1 := Half(n);
    var n2 := Half(n1);
    var n3 := Half(n2);
    var n4 := Half(n3);
    var n5 := Half(n4);
    var n6 := Half(n5);
    var n7 := Half(n6);
    Halve(n);
    Halve(n1);
    Halve(n2);
    Halve(n3);
    Halve(n4);
    Halve(n5);
    Halve(n6);
    Halve(n7);
    NumEight(Odd(n), Odd(n1), Odd(n2), Odd(n3), Odd(n4), Odd(n5), Odd(n6), Odd(n7));
  }

  const WORD: nat := 0x1_0000_0000

  /** Dropping, and keeping, the low eight bits. */
  function High(n: nat): nat { n / 256 }

  function Low(n: nat): nat { n % 256 }

  lemma {:induction false} HighLow(n: nat)
    ensures n == 256 * High(n) + Low(n) && Low(n) < 256
  {
  }

  /** The four length bytes of `n`, and the number they are read as. */
  function Header(n: nat): (h: seq<byte>)
    ensures |h| == 4
  {
    [Byte(Low(High(High(High(n))))), Byte(Low(High(High(n)))), Byte(Low(High(n))), Byte(Low(n))]
  }

  function Length(h: seq<byte>): nat
    requires |h| >= 4
  {
    Num(h[3]) + Num(h[2]) * 0x100 + Num(h[1]) * 0x1_0000 + Num(h[0]) * 0x100_0000
  }

  lemma {:induction false} HeaderRoundTrip(n: nat)
    requires n < WORD
    ensures Length(Header(n)) == n
    ensures Header(n)[0] as int == n / 0x100_0000 && Header(n)[1] as int == n / 0x1_0000 % 0x100
    ensures Header(n)[2] as int == n / 0x100 % 0x100 && Header(n)[3] as int == n % 0x100
  {
    hide Num, Byte, High, Low;
    var n1 := High(n);
    var n2 := High(n1);
    var n3 := High(n2);
    HighLow(n);
    HighLow(n1);
    HighLow(n2);
    HighLow(n3);
    assert n3 == Low(n3);
    assert n1 == 0x1_0000 * Low(n3) + 256 * Low(n2) + Low(n1);
    NumByte(Low(n3));
    NumByte(Low(n2));
    NumByte(Low(n1));
    NumByte(Low(n));
    NumIsValue(Byte(Low(n3)));
    NumIsValue(Byte(Low(n2)));
    NumIsValue(Byte(Low(n1)));
    NumIsValue(Byte(Low(n)));
    Quotients(n);
  }

  lemma {:induction false} Quotients(n: nat)
    requires n < WORD
    ensures Low(n) == n % 0x100 && Low(High(n)) == n / 0x100 % 0x100 && Low(High(High(n))) == n / 0x1_0000 % 0x100
    ensures Low(High(High(High(n)))) == n / 0x100_0000
  {
  }

  /** The `MI_Array` that the callback fills. */
  class Octets {
    var data: array?<byte>
    var size: nat

    constructor ()
      ensures data == null && size == 0
    {
      data, size := null, 0;
    }

    /** Nothing was delivered, or the memory is the length of everything followed by `x`. */
    ghost predicate Holds(x: seq<byte>)
      reads this, data
    {
      if data == null then x == []
      else size == |x| + 4 == data.Length && data[..4] == Header(|x| + 4) && data[4..] == x
    }

    /** One call of the callback. */
    method Collect(block: seq<byte>, ghost x: seq<byte>) returns (r: int)
      requires Holds(x) && |x| + |block| + 4 < WORD
      modifies this
      ensures r == 0 && data != null && fresh(data) && Holds(x + block)
    {
      hide Header, Length;
      var skip, total;
      var page: array<byte>;
      if data == null {
        total := |block| + 4;
        skip := 4;
        page := new byte[total];
      } else {
        HeaderRoundTrip(|x| + 4);
        skip := Length(data[..4]);
        total := skip + |block|;
        page := new byte[total];
        forall i | 4 <= i < skip { page[i] := data[i]; }
        assert page[4..skip] == x;
      }
      Fill(page, skip, total, block);
      assert page[4..] == page[4..skip] + page[skip..];
      data, size := page, total;
      r := 0;
    }
  }

  /** The length in front and the new block behind what is there. */
  method Fill(page: array<byte>, skip: nat, total: nat, block: seq<byte>)
    requires 4 <= skip && page.Length == total == skip + |block|
    modifies page
    ensures page[..4] == Header(total) && page[4..skip] == old(page[4..skip]) && page[skip..] == block
  {
    hide Byte, High, Low;
    page[0], page[1] := Byte(Low(High(High(High(total))))), Byte(Low(High(High(total))));
    page[2], page[3] := Byte(Low(High(total))), Byte(Low(total));
    ghost var h := Header(total);
    var i := 0;
    while i < |block|
      invariant i <= |block|
      invariant page[0] == h[0] && page[1] == h[1] && page[2] == h[2] && page[3] == h[3]
      invariant forall p | 4 <= p < skip :: page[p] == old(page[p])
      invariant forall p | 0 <= p < i :: page[skip + p] == block[p]
    {
      page[skip + i] := block[i];
      i := i + 1;
    }
    assert page[..4] == [page[0], page[1], page[2], page[3]];
  }

  /** The callback applied to the blocks of one decoding, in order. */
  method CollectAll(blocks: seq<seq<byte>>, o: Octets)
    requires o.data == null && |Concat(blocks)| + 4 < WORD
    modifies o
    ensures o.Holds(Concat(blocks)) && (blocks != [] ==> o.data != null)
  {
    hide Concat, Header;
    var i := 0;
    ConcatNone(blocks);
    while i < |blocks|
      invariant i <= |blocks| && o.Holds(Concat(blocks[..i])) && (i > 0 ==> o.data != null)
      invariant o.data == null || fresh(o.data)
    {
      ConcatUpTo(blocks, i);
      var r := o.Collect(blocks[i], Concat(blocks[..i]));
      i := i + 1;
    }
    assert blocks[..i] == blocks;
  }

  lemma {:induction false} ConcatNone(blocks: seq<seq<byte>>)
    ensures blocks[..0] == [] && Concat([]) == []
  {
  }

  lemma {:induction false} ConcatUpTo(blocks: seq<seq<byte>>, i: nat)
    requires i < |blocks|
    ensures Concat(blocks[..i + 1]) == Concat(blocks[..i]) + blocks[i]
    ensures |Concat(blocks[..i + 1])| <= |Concat(blocks)|
    decreases |blocks| - i
  {
    assert blocks[..i + 1] == blocks[..i] + [blocks[i]];
    ConcatOne(blocks[..i], blocks[i]);
    if i + 1 == |blocks| {
      assert blocks[..i + 1] == blocks;
    } else {
      ConcatUpTo(blocks, i + 1);
    }
  }

  /**
    Any non-empty byte string survives encoding, decoding and collecting, whatever the two block
    sizes: it ends up behind its big-endian length plus four.
   */
  method EncodeThenCollect(x: seq<byte>, encBlock: nat, decBlock: nat) returns (r: int, o: Octets)
    requires 4 <= encBlock && 3 <= decBlock && |x| + 4 < WORD
    ensures r >= 0 && fresh(o) && o.Holds(x) && (x != [] ==> o.data != null)
  {
    hide Encoding, Decoding, Concat, Header, Calls;
    var e, text := Encode(x, encBlock, _ => true);
    NeverRefused(text, encBlock, e == -1);
    DecodingInverts(x);
    var d, blocks := Decode(Concat(text), decBlock, _ => true);
    NeverRefused(blocks, decBlock, d == -1);
    o := new Octets();
    NothingDecoded(blocks);
    CollectAll(blocks, o);
    r := d;
  }

  lemma {:induction false} NothingDecoded(blocks: seq<seq<byte>>)
    ensures blocks == [] ==> Concat(blocks) == []
  {
  }

  lemma {:induction false} NeverRefused(blocks: seq<seq<byte>>, block: nat, refused: bool)
    ensures !Calls(blocks, _ => true, block, true)
  {
  }
}
