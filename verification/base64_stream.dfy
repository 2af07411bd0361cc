/** The loops of base64.c, which hand their output to a callback in blocks. */
module Base64Stream {
  import opened Base64

  /** The output of all calls, in order. */
  function Concat(blocks: seq<seq<byte>>): seq<byte> {
    if blocks == [] then [] else Concat(blocks[..|blocks| - 1]) + blocks[|blocks| - 1]
  }

  lemma {:induction false} ConcatOne(blocks: seq<seq<byte>>, b: seq<byte>)
    ensures Concat(blocks + [b]) == Concat(blocks) + b
  {
    assert (blocks + [b])[..|blocks|] == blocks;
  }

  /** The calls made so far: only the last can have been refused, and then `refused` is set. */
  ghost predicate Calls(blocks: seq<seq<byte>>, accept: nat -> bool, block: nat, refused: bool) {
    && (forall i | 0 <= i < |blocks| :: 0 < |blocks[i]| <= block)
    && (forall i | 0 <= i < |blocks| - 1 :: accept(i))
    && (if refused then blocks != [] && !accept(|blocks| - 1) else blocks != [] ==> accept(|blocks| - 1))
  }

  /** Handing over one more block. */
  lemma {:induction false} OneMoreCall(blocks: seq<seq<byte>>, accept: nat -> bool, block: nat, b: seq<byte>)
    requires Calls(blocks, accept, block, false) && 0 < |b| <= block
    ensures Calls(blocks + [b], accept, block, !accept(|blocks|)) && Concat(blocks + [b]) == Concat(blocks) + b
  {
    ConcatOne(blocks, b);
  }

  lemma {:induction false} NoCalls(accept: nat -> bool, block: nat)
    ensures Calls([], accept, block, false)
  {
  }

  lemma {:induction false} GroupAt(data: seq<byte>, i: nat)
    requires i < |data|
    ensures var x, g := data[i..], Group(data[i..]);
      && g[0] == Enc6Bits(I1(data[i]))
      && g[1] == Enc6Bits(I2(data[i], if i + 1 < |data| then data[i + 1] else 0))
      && g[2] == (if i + 2 < |data| then Enc6Bits(I3(data[i + 1], data[i + 2]))
        else if i + 1 < |data| then Enc6Bits(I3(data[i + 1], 0)) else PAD)
      && g[3] == (if i + 2 < |data| then Enc6Bits(I4(data[i + 2])) else PAD)
    ensures Rest(data[i..]) == data[if i + 3 <= |data| then i + 3 else |data|..]
  {
    hide Enc6Bits, I1, I2, I3, I4;
  }

  /** One turn of the loop in `Base64Enc`: up to three bytes from `i` on become four characters. */
  method EncodeGroup(data: seq<byte>, i: nat, buf: array<byte>, n: nat) returns (j: nat, k: nat)
    requires i < |data| && n + 4 <= buf.Length
    modifies buf
    ensures i < j <= |data| && k == n + 4
    ensures buf[..k] == old(buf[..n]) + Group(data[i..]) && data[j..] == Rest(data[i..])
  {
    hide Group, Rest;
    ghost var before := buf[..n];
    j, k := WriteGroup(data, i, buf, n);
    assert buf[..n] == before;
    assert buf[..n + 4] == buf[..n] + [buf[n], buf[n + 1], buf[n + 2], buf[n + 3]];
  }

  method WriteGroup(data: seq<byte>, i: nat, buf: array<byte>, n: nat) returns (j: nat, k: nat)
    requires i < |data| && n + 4 <= buf.Length
    modifies buf
    ensures i < j <= |data| && k == n + 4 && data[j..] == Rest(data[i..])
    ensures forall p | 0 <= p < n :: buf[p] == old(buf[p])
    ensures [buf[n], buf[n + 1], buf[n + 2], buf[n + 3]] == Group(data[i..])
  {
    hide Enc6Bits, I1, I2, I3, I4, Group, Rest;
    GroupAt(data, i);
    j, k := i, n;
    var m, done := 0, false;

    var b1 := data[j];
    j, m := j + 1, m + 1;
    buf[k] := Enc6Bits(I1(b1));
    k := k + 1;

    var b2: byte := 0;
    if j < |data| {
      b2 := data[j];
      j, m := j + 1, m + 1;
      buf[k] := Enc6Bits(I2(b1, b2));
      k := k + 1;
    } else {
      buf[k] := Enc6Bits(I2(b1, 0));
      k := k + 1;
      done := true;
    }

    if j < |data| {
      var b3 := data[j];
      j, m := j + 1, m + 1;
      buf[k] := Enc6Bits(I3(b2, b3));
      buf[k + 1] := Enc6Bits(I4(b3));
      k := k + 2;
    } else if !done {
      buf[k] := Enc6Bits(I3(b2, 0));
      k := k + 1;
    }

    if m == 1 {
      buf[k] := PAD;
      k := k + 1;
    }
    if m <= 2 {
      buf[k] := PAD;
      k := k + 1;
    }
  }

  /**
    `Base64Enc`: the blocks handed to the callback, concatenated, are the encoding, whatever the
    block size.  It fails exactly when the callback refuses a block, and stops there.
   */
  method Encode(data: seq<byte>, block: nat, accept: nat -> bool) returns (r: int, blocks: seq<seq<byte>>)
    requires 4 <= block
    ensures r == 0 || r == -1
    ensures Calls(blocks, accept, block, r == -1)
    ensures r == 0 ==> Concat(blocks) == Encoding(data)
    ensures Concat(blocks) <= Encoding(data)
  {
    hide Group, Encoding, Concat, Rest, Calls;
    NoCalls(accept, block);
    var buf := new byte[block];
    var i, n := 0, 0;
    blocks := [];
    EncodeStart(data);
    while i < |data|
      invariant i <= |data| && n <= block
      invariant Calls(blocks, accept, block, false)
      invariant Encoding(data) == Concat(blocks) + buf[..n] + Encoding(data[i..])
    {
      ghost var done := Concat(blocks) + buf[..n];
      if n + 4 > block {
        OneMoreCall(blocks, accept, block, buf[..n]);
        blocks := blocks + [buf[..n]];
        if !accept(|blocks| - 1) { return -1, blocks; }
        n := 0;
        assert Concat(blocks) + buf[..n] == done;
      }
      EncodingStep(data[i..]);
      ghost var g := Group(data[i..]);
      i, n := EncodeGroup(data, i, buf, n);
      assert Concat(blocks) + buf[..n] == done + g;
      Regroup(done, g, Encoding(data[i..]));
    }
    EncodeEnd(data[i..]);
    if n > 0 {
      OneMoreCall(blocks, accept, block, buf[..n]);
      blocks := blocks + [buf[..n]];
      if !accept(|blocks| - 1) { return -1, blocks; }
    }
    r := 0;
  }

  lemma {:induction false} Regroup(x: seq<byte>, y: seq<byte>, z: seq<byte>)
    ensures x + (y + z) == x + y + z
  {
  }

  lemma {:induction false} EncodeStart(data: seq<byte>)
    ensures data[0..] == data && Concat([]) == []
  {
  }

  lemma {:induction false} EncodeEnd(data: seq<byte>)
    requires data == []
    ensures Encoding(data) == []
  {
  }

  lemma {:induction false} EncodingStep(x: seq<byte>)
    requires x != []
    ensures Encoding(x) == Group(x) + Encoding(Rest(x))
  {
  }

  /** One turn of the loop in `Base64Dec`, once the four characters are known to be legal. */
  method DecodeGroup(t: seq<byte>, buf: array<byte>, n: nat) returns (k: nat)
    requires |t| == 4 && n + 3 <= buf.Length
    modifies buf
    ensures k == n + |Ungroup(t)| && buf[..k] == old(buf[..n]) + Ungroup(t)
  {
    hide B1, B2, B3, Value;
    ghost var before := buf[..n];
    var c1, c2, c3, c4 := Value(t[0]), Value(t[1]), Value(t[2]), Value(t[3]);
    buf[n] := B1(c1, c2);
    k := n + 1;
    if c3 != 64 {
      buf[k] := B2(c2, c3);
      k := k + 1;
    }
    if c4 != 64 {
      buf[k] := B3(c3, c4);
      k := k + 1;
    }
    assert buf[..k] == before + buf[n..k];
    assert buf[n..k] == Ungroup(t);
  }

  /**
    `Base64Dec`: it succeeds exactly when the text is well formed and no block is refused; the
    blocks, concatenated, are then the decoded bytes.  The result is the size of the last block.
   */
  method Decode(text: seq<byte>, block: nat, accept: nat -> bool) returns (r: int, blocks: seq<seq<byte>>)
    requires 3 <= block
    ensures -1 <= r
    ensures r >= 0 ==> Decoding(text) == Bytes(Concat(blocks)) && Calls(blocks, accept, block, false)
    ensures r >= 0 ==> r == if blocks == [] then 0 else |blocks[|blocks| - 1]|
    ensures r == -1 ==> Decoding(text) == Malformed || Calls(blocks, accept, block, true)
  {
    hide Ungroup, Decoding, Concat, Value, Prepend, Calls;
    NoCalls(accept, block);
    var buf := new byte[block];
    var i, n := 0, 0;
    blocks := [];
    DecodeStart(text);
    while i < |text|
      invariant i <= |text| && 0 <= n <= block && (i > 0 ==> n > 0) && (blocks != [] ==> i > 0)
      invariant Calls(blocks, accept, block, false)
      invariant Decoding(text) == Prepend(Concat(blocks) + buf[..n], Decoding(text[i..]))
    {
      DecodingStep(text[i..]);
      NothingAfter(Concat(blocks) + buf[..n]);
      if Value(text[i]) == 0xFF || i + 1 == |text| { return -1, blocks; }
      if Value(text[i + 1]) == 0xFF || i + 2 == |text| { return -1, blocks; }
      if Value(text[i + 2]) == 0xFF || i + 3 == |text| { return -1, blocks; }
      if Value(text[i + 3]) == 0xFF { return -1, blocks; }
      ghost var done, more := Concat(blocks) + buf[..n], Decoding(text[i + 4..]);
      if n + 3 > block {
        OneMoreCall(blocks, accept, block, buf[..n]);
        blocks := blocks + [buf[..n]];
        if !accept(|blocks| - 1) { return -1, blocks; }
        n := 0;
        assert Concat(blocks) + buf[..n] == done;
      }
      assert text[i..][4..] == text[i + 4..] && text[i..][..4] == text[i..i + 4];
      n := DecodeGroup(text[i..i + 4], buf, n);
      PrependTwice(done, Ungroup(text[i..i + 4]), more);
      assert Concat(blocks) + buf[..n] == done + Ungroup(text[i..i + 4]);
      i := i + 4;
    }
    DecodeEnd(text[i..], Concat(blocks) + buf[..n]);
    if n > 0 {
      OneMoreCall(blocks, accept, block, buf[..n]);
      blocks := blocks + [buf[..n]];
      if !accept(|blocks| - 1) { return -1, blocks; }
    } else {
      assert Concat(blocks) + buf[..n] == Concat(blocks);
    }
    r := n;
  }

  lemma {:induction false} DecodeStart(text: seq<byte>)
    ensures text[0..] == text && Concat([]) == []
    ensures Prepend([] + [], Decoding(text)) == Decoding(text)
  {
  }

  lemma {:induction false} DecodeEnd(text: seq<byte>, s: seq<byte>)
    requires text == []
    ensures Prepend(s, Decoding(text)) == Bytes(s)
  {
    assert s + [] == s;
  }

  lemma {:induction false} DecodingStep(t: seq<byte>)
    requires t != []
    ensures |t| < 4 || !Legal(t) ==> Decoding(t) == Malformed
    ensures |t| >= 4 && Legal(t) ==> Decoding(t) == Prepend(Ungroup(t[..4]), Decoding(t[4..]))
  {
    if |t| >= 4 {
      SameGroup(t[..4], t[4..]);
      assert t[..4] + t[4..] == t;
    }
  }

  lemma {:induction false} NothingAfter(s: seq<byte>)
    ensures Prepend(s, Malformed) == Malformed
  {
  }

  lemma {:induction false} PrependTwice(s: seq<byte>, u: seq<byte>, d: Decoded)
    ensures Prepend(s, Prepend(u, d)) == Prepend(s + u, d)
  {
    if d.Bytes? { assert s + (u + d.s) == s + u + d.s; }
  }
}
