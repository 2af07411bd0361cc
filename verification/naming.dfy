/** CIM names: case-insensitive comparison, the name code, and the lookups that filter by it. */
module Naming {
  import opened Memory
  import opened Bits

  /** The characters before the terminating zero byte. */
  type Name = s: seq<byte> | 0 !in s witness []

  /** `__omi_ToLowerTable`. */
  function ToLower(x: byte): byte { if 0x41 <= x <= 0x5A then x + 0x20 else x }

  /** `Tcscasecmp(a, b) == 0`. */
  predicate SameName(a: Name, b: Name) {
    |a| == |b| && forall i | 0 <= i < |a| :: ToLower(a[i]) == ToLower(b[i])
  }

  lemma {:induction false} SameNameIsEquivalence(a: Name, b: Name, c: Name)
    ensures SameName(a, a)
    ensures SameName(a, b) ==> SameName(b, a)
    ensures SameName(a, b) && SameName(b, c) ==> SameName(a, c)
  {
  }

  function Shl(w: Word, k: nat): Word {
    seq(32, i requires 0 <= i < 32 => i >= k && w[i - k])
  }

  function U32(n: nat): Word { ToBits(n, 32) }

  /** The code of a name: first and last character, folded, above the length. */
  function Hash(name: Name): Word {
    if |name| == 0 then U32(0)
    else Or(Or(Shl(U32(ToLower(name[0])), 16), Shl(U32(ToLower(name[|name| - 1])), 8)), U32(|name|))
  }

  /** The code does not distinguish names that compare equal. */
  lemma {:induction false} HashFoldsCase(a: Name, b: Name)
    requires SameName(a, b)
    ensures Hash(a) == Hash(b)
  {
    hide Or, Shl, U32;
  }

  // ---------------------------------------------------------------------------------------
  // Lookup
  // ---------------------------------------------------------------------------------------

  datatype Decl = Decl(name: Name, code: Word)

  ghost predicate Coded(decls: seq<Decl>) {
    forall i | 0 <= i < |decls| :: decls[i].code == Hash(decls[i].name)
  }

  /** `r` is the first index whose name is `name`, or -1 if there is none. */
  ghost predicate IsFirst(decls: seq<Decl>, name: Name, r: int) {
    if r == -1 then forall i | 0 <= i < |decls| :: !SameName(decls[i].name, name)
    else 0 <= r < |decls| && SameName(decls[r].name, name) && forall i | 0 <= i < r :: !SameName(decls[i].name, name)
  }

  /** The first index that has both the name and its code. */
  ghost predicate IsFirstCoded(decls: seq<Decl>, name: Name, r: int) {
    && -1 <= r < |decls|
    && (r >= 0 ==> SameName(decls[r].name, name) && decls[r].code == Hash(name))
    && forall i | 0 <= i < (if r == -1 then |decls| else r) ::
      !(SameName(decls[i].name, name) && decls[i].code == Hash(name))
  }

  /** With correct codes the filter changes nothing. */
  lemma {:induction false} FilterIsPlain(decls: seq<Decl>, name: Name, r: int)
    requires Coded(decls) && IsFirstCoded(decls, name, r)
    ensures IsFirst(decls, name, r)
  {
    hide SameName, Hash;
    forall i | 0 <= i < |decls| && SameName(decls[i].name, name) ensures decls[i].code == Hash(name) {
      HashFoldsCase(decls[i].name, name);
    }
  }

  /** `_FindPropertyDecl`: the search that looks at the code first. */
  method FindProperty(decls: seq<Decl>, name: Name) returns (r: int)
    ensures IsFirstCoded(decls, name, r)
    ensures Coded(decls) ==> IsFirst(decls, name, r)
  {
    hide Hash;
    var code := Hash(name);
    r := 0;
    while r != |decls|
      invariant 0 <= r <= |decls|
      invariant forall i | 0 <= i < r :: !(SameName(decls[i].name, name) && decls[i].code == code)
    {
      if decls[r].code == code && SameName(decls[r].name, name) { break; }
      r := r + 1;
    }
    if r == |decls| { r := -1; }
    if Coded(decls) { FilterIsPlain(decls, name, r); }
  }

  /** `_FindFeatureDecl` and `_Find`: the same, but no declaration is found under the empty name. */
  method FindFeature(decls: seq<Decl>, name: Name) returns (r: int)
    ensures name == [] ==> r == -1
    ensures name != [] ==> IsFirstCoded(decls, name, r)
    ensures name != [] && Coded(decls) ==> IsFirst(decls, name, r)
  {
    if name == [] { return -1; }
    r := FindProperty(decls, name);
  }

  /**
    What the filter costs when codes are not trusted: it finds the first match exactly when that
    declaration carries the code of the name.
   */
  lemma {:induction false} FilterIsExact(decls: seq<Decl>, name: Name, r: int, s: int)
    requires IsFirst(decls, name, r) && IsFirstCoded(decls, name, s)
    ensures r == s <==> r == -1 || decls[r].code == Hash(name)
  {
    hide SameName, Hash;
  }

  // ---------------------------------------------------------------------------------------
  // The length from the code
  // ---------------------------------------------------------------------------------------

  /** `code & 0xFF`. */
  function LowByte(code: Word): nat { Val(code[..8]) }

  lemma {:induction false} LowBits(n: nat, k: nat, j: nat)
    requires j <= k
    ensures ToBits(n, k)[..j] == ToBits(n, j)
    decreases j
  {
    if j > 0 {
      LowBits(n / 2, k - 1, j - 1);
      assert ToBits(n, k)[..j] == [n % 2 == 1] + ToBits(n / 2, k - 1)[..j - 1];
    }
  }

  lemma {:induction false} TruncatedValue(n: nat, k: nat)
    ensures Val(ToBits(n, k)) == n % Pow2(k)
    decreases k
  {
    if k > 0 {
      TruncatedValue(n / 2, k - 1);
      assert ToBits(n, k)[1..] == ToBits(n / 2, k - 1);
      HalfRemainder(n, Pow2(k - 1));
    }
  }

  lemma {:induction false} HalfRemainder(n: nat, p: nat)
    requires 0 < p
    ensures n % (2 * p) == n % 2 + 2 * (n / 2 % p)
  {
    var q := n / 2 / p;
    assert n / 2 == p * q + n / 2 % p;
    assert n == 2 * p * q + (n % 2 + 2 * (n / 2 % p));
    RemainderIs(n, 2 * p, q, n % 2 + 2 * (n / 2 % p));
  }

  lemma {:induction false} MulAtLeast(p: nat, k: int)
    requires 0 < k
    ensures p <= p * k
  {
  }

  lemma {:induction false} RemainderIs(n: nat, p: nat, q: nat, r: nat)
    requires n == p * q + r && r < p
    ensures n % p == r
  {
    var d := n / p;
    assert p * (d - q) == p * d - p * q == r - n % p;
    if d > q { MulAtLeast(p, d - q); }
    if q > d { MulAtLeast(p, q - d); }
  }

  /** The characters leave the low byte of the code to the length. */
  lemma {:induction false} LowByteIsLength(name: Name)
    ensures LowByte(Hash(name)) == |name| % 256
  {
    hide Hash, Pow2, Val, ToBits;
    HashEndsInLength(name);
    LowBits(|name|, 32, 8);
    TruncatedValue(|name|, 8);
    Pow2Of8();
  }

  lemma {:induction false} HashEndsInLength(name: Name)
    ensures Hash(name)[..8] == U32(|name|)[..8]
  {
    hide U32;
  }

  lemma {:induction false} Pow2Of8()
    ensures Pow2(8) == 256
  {
    assert Pow2(4) == 16;
  }

  /** `Tcslen` of what follows position `from`. */
  method LengthFrom(name: Name, from: nat) returns (n: nat)
    requires from <= |name|
    ensures n == |name| - from
  {
    n := 0;
    while (name + [0])[from + n] != 0
      invariant from + n <= |name|
      decreases |name| - n
    {
      n := n + 1;
    }
  }

  /** `NameLen`: right for every name with its own code, also beyond 255 characters, as a 32-bit length. */
  method NameLen(name: Name, code: Word) returns (n: nat)
    requires code == Hash(name)
    ensures n == |name| % WORD
  {
    hide Hash;
    LowByteIsLength(name);
    n := LowByte(code);
    if (name + [0])[n] != 0 {
      var rest := LengthFrom(name, n);
      n := (n + rest) % WORD;
    }
  }

  // ---------------------------------------------------------------------------------------
  // What the table and the code are
  // ---------------------------------------------------------------------------------------

  /** Exactly the capital letters of ASCII are changed, each to its small letter. */
  lemma {:induction false} ToLowerIs(x: byte)
    ensures 'A' <= x as char <= 'Z' ==> ToLower(x) as char == x as char - 'A' + 'a'
    ensures !('A' <= x as char <= 'Z') ==> ToLower(x) == x
  {
  }

  function Times(p: nat, v: nat): nat { p * v }

  lemma {:induction false} ValJoins(a: seq<bool>, b: seq<bool>)
    ensures Val(a + b) == Val(a) + Times(Pow2(|a|), Val(b))
    decreases |a|
  {
    hide Times;
    OneTimes(Val(b));
    if a == [] {
      assert a + b == b;
    } else {
      ValJoins(a[1..], b);
      assert (a + b)[1..] == a[1..] + b;
      Doubled(Pow2(|a| - 1), Val(b));
    }
  }

  lemma {:induction false} Doubled(p: nat, v: nat)
    ensures 2 * Times(p, v) == Times(2 * p, v)
  {
  }

  lemma {:induction false} OneTimes(v: nat)
    ensures Times(1, v) == v
  {
  }

  lemma {:induction false} NoHighBits(n: nat, k: nat, j: nat, i: nat)
    requires n < Pow2(j) && j <= i < k
    ensures !ToBits(n, k)[i]
    decreases k
  {
    if j > 0 {
      NoHighBits(n / 2, k - 1, j - 1, i - 1);
    } else if i > 0 {
      NoHighBits(n / 2, k - 1, 0, i - 1);
    }
  }

  /** Up to 255 characters: the first character, the last one and the length, in three bytes. */
  lemma {:induction false} HashValue(name: Name)
    requires 0 < |name| < 256
    ensures Val(Hash(name)) == ToLower(name[0]) * 0x1_0000 + ToLower(name[|name| - 1]) * 0x100 + |name|
  {
    hide Val, Pow2, ToBits, ToLower;
    var f, l, n := ToLower(name[0]), ToLower(name[|name| - 1]), |name|;
    var h := Hash(name);
    Pow2Of8();
    HashBytes(name, f, l, n);
    var zeros := h[24..];
    assert h == h[..8] + (h[8..16] + (h[16..24] + zeros));
    ValJoins(h[16..24], zeros);
    ValJoins(h[8..16], h[16..24] + zeros);
    ValJoins(h[..8], h[8..16] + (h[16..24] + zeros));
    ZeroBits(zeros);
    ValOfBits(f, 8);
    ValOfBits(l, 8);
    ValOfBits(n, 8);
  }

  lemma {:induction false} HashBytes(name: Name, f: nat, l: nat, n: nat)
    requires 0 < |name| == n < 256 && f == ToLower(name[0]) && l == ToLower(name[n - 1])
    ensures var h := Hash(name);
      && h[..8] == ToBits(n, 8) && h[8..16] == ToBits(l, 8) && h[16..24] == ToBits(f, 8)
      && forall i | 24 <= i < 32 :: !h[i]
  {
    hide ToBits, ToLower, Pow2;
    Pow2Of8();
    LowBits(n, 32, 8);
    LowBits(l, 32, 8);
    LowBits(f, 32, 8);
    forall i | 8 <= i < 32 ensures !ToBits(n, 32)[i] && !ToBits(l, 32)[i] && !ToBits(f, 32)[i] {
      NoHighBits(n, 32, 8, i);
      NoHighBits(l, 32, 8, i);
      NoHighBits(f, 32, 8, i);
    }
    assert forall i | 0 <= i < 8 :: ToBits(f, 32)[i] == ToBits(f, 8)[i] && ToBits(l, 32)[i] == ToBits(l, 8)[i];
  }
}
