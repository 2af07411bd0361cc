/**
  Byte-addressed process memory.  A memory is a total function from addresses to bytes; what
  the allocator has handed out is tracked separately, so reading or writing is always defined
  and "is this access legal" is a question about ranges.
 */
module Memory {
  type byte = x: int | 0 <= x < 256

  type Mem = int -> byte

  /** The `n` bytes starting at `a`. */
  function Read(m: Mem, a: int, n: nat): (s: seq<byte>)
    ensures |s| == n
    ensures forall i :: 0 <= i < n ==> s[i] == m(a + i)
  {
    seq(n, i => m(a + i))
  }

  /** `memcpy(a, s)`: the memory that agrees with `m` outside the written range. */
  function Write(m: Mem, a: int, s: seq<byte>): (r: Mem)
    ensures forall x {:trigger r(x)} :: r(x) == if a <= x < a + |s| then s[x - a] else m(x)
  {
    (x: int) => if a <= x < a + |s| then s[x - a] else m(x)
  }

  /** The ranges [a, a+n) and [b, b+k) share no address. */
  predicate Apart(a: int, n: nat, b: int, k: nat) {
    a + n <= b || b + k <= a
  }

  lemma {:induction false} ReadAfterWriteSame(m: Mem, a: int, s: seq<byte>)
    ensures Read(Write(m, a, s), a, |s|) == s
  {
  }

  // ---------------------------------------------------------------------------------------
  // Little-endian integers
  // ---------------------------------------------------------------------------------------

  function Pow256(k: nat): (p: nat)
    ensures 0 < p
  {
    if k == 0 then 1 else 256 * Pow256(k - 1)
  }

  /** The low `k` bytes of `n`, least significant first. */
  function Encode(n: nat, k: nat): (s: seq<byte>)
    ensures |s| == k
    decreases k
  {
    if k == 0 then [] else [n % 256] + Encode(n / 256, k - 1)
  }

  function Decode(s: seq<byte>): (n: nat) {
    if s == [] then 0 else s[0] + 256 * Decode(s[1..])
  }

  lemma {:induction false} DecodeEncode(n: nat, k: nat)
    requires n < Pow256(k)
    ensures Decode(Encode(n, k)) == n
    decreases k
  {
    if k != 0 {
      DecodeEncode(n / 256, k - 1);
      assert Encode(n, k)[1..] == Encode(n / 256, k - 1);
    }
  }

  lemma {:induction false} DecodeBound(s: seq<byte>)
    ensures Decode(s) < Pow256(|s|)
  {
    if s != [] { DecodeBound(s[1..]); }
  }

  lemma {:induction false} LowByte(b: byte, n: nat)
    ensures (b + 256 * n) % 256 == b && (b + 256 * n) / 256 == n
  {
  }

  /** The other inverse: `k` bytes are determined by their value. */
  lemma {:induction false} EncodeDecode(s: seq<byte>)
    ensures Encode(Decode(s), |s|) == s
  {
    if s != [] {
      EncodeDecode(s[1..]);
      LowByte(s[0], Decode(s[1..]));
      assert Encode(Decode(s), |s|) == [s[0]] + Encode(Decode(s[1..]), |s| - 1);
    }
  }

  /** The bytes of a 32-bit number, from the least to the most significant. */
  lemma {:induction false} BytesOf32(n: nat)
    ensures Encode(n, 4) == [n % 0x100, n / 0x100 % 0x100, n / 0x1_0000 % 0x100, n / 0x100_0000 % 0x100]
  {
    assert Encode(n / 0x100_0000, 1) == [n / 0x100_0000 % 0x100];
    assert Encode(n / 0x1_0000, 2) == [n / 0x1_0000 % 0x100, n / 0x100_0000 % 0x100];
  }

  /** Of a 64-bit number, the low half comes first. */
  lemma {:induction false} BytesOf64(n: nat)
    ensures Encode(n, 8) == Encode(n, 4) + Encode(n / 0x1_0000_0000, 4)
  {
    assert n / 256 / 256 / 256 / 256 == n / 0x1_0000_0000;
    EncodeSplits(n, 4, 4);
  }

  function Drop(n: nat, j: nat): nat { if j == 0 then n else Drop(n / 256, j - 1) }

  lemma {:induction false} EncodeSplits(n: nat, j: nat, k: nat)
    ensures Encode(n, j + k) == Encode(n, j) + Encode(Drop(n, j), k)
    decreases j
  {
    if j > 0 { EncodeSplits(n / 256, j - 1, k); }
  }
}
