/**
  The storage of dynamic instances: a wrapper whose address never changes, an inner instance that
  is relocated as it grows, and a class declaration that grows along.
 */
module DynamicInstance {
  import opened Memory
  import opened Naming
  import opened DynamicSpec
  import opened DynamicMeaning
  import Bits

  /** `sizeof(MI_Instance)` and `sizeof(Field)`. */
  const HEADER: nat := 64
  const FIELD: nat := 40

  /** The minimum number of reserved properties. */
  const CAPACITY: nat := 32

  // ---------------------------------------------------------------------------------------
  // Capacity
  // ---------------------------------------------------------------------------------------

  ghost predicate IsCapacity(c: nat, n: nat) {
    if n <= CAPACITY then c == CAPACITY else Bits.LeastPow2(c, n)
  }

  /** `_FindCapacity`. */
  method FindCapacity(x: nat) returns (c: nat)
    requires x <= Bits.MAX
    ensures IsCapacity(c, x)
  {
    if x <= CAPACITY { return CAPACITY; }
    c := Bits.RoundPow2(x);
  }

  lemma {:induction false} CapacityIsPow2(c: nat, n: nat)
    requires IsCapacity(c, n)
    ensures n <= c && exists k: nat :: c == Bits.Pow2(k)
  {
    if n <= CAPACITY {
      assert Bits.Pow2(4) == 16;
      assert c == Bits.Pow2(5);
    }
  }

  /** The capacity serves one more property until it is full, and then its double does. */
  lemma {:induction false} CapacityStep(c: nat, n: nat)
    requires IsCapacity(c, n)
    ensures n <= c && (n < c ==> IsCapacity(c, n + 1)) && (n == c ==> IsCapacity(2 * n, n + 1))
  {
    hide Bits.Pow2;
    CapacityIsPow2(c, n);
    if n == c {
      var k: nat :| c == Bits.Pow2(k);
      Doubled(k);
      Bits.LeastBetween(k, n + 1);
    } else if n >= CAPACITY {
      FullAt32(c, n);
    }
  }

  lemma {:induction false} Doubled(k: nat)
    ensures Bits.Pow2(k + 1) == 2 * Bits.Pow2(k) && Bits.Pow2(k) >= 1
  {
  }

  lemma {:induction false} FullAt32(c: nat, n: nat)
    requires IsCapacity(c, n) && CAPACITY <= n < c
    ensures Bits.LeastPow2(c, n + 1)
  {
    hide Bits.Pow2;
  }

  lemma {:induction false} CapacityIsUnique(c: nat, d: nat, n: nat)
    requires IsCapacity(c, n) && IsCapacity(d, n)
    ensures c == d
  {
    hide Bits.Pow2;
  }

  // ---------------------------------------------------------------------------------------
  // Layout
  // ---------------------------------------------------------------------------------------

  datatype PropertyDecl = PropertyDecl(decl: Decl, t: Type, offset: nat)

  /** The field at a byte offset from the start of the instance. */
  predicate IsSlot(offset: nat, slots: nat) {
    HEADER <= offset && (offset - HEADER) % FIELD == 0 && offset + FIELD <= HEADER + slots * FIELD
  }

  function Slot(offset: nat): nat
    requires HEADER <= offset
  {
    (offset - HEADER) / FIELD
  }

  function OffsetOf(i: nat): nat { HEADER + i * FIELD }

  lemma {:induction false} SlotOfOffset(i: nat, slots: nat)
    requires i < slots
    ensures IsSlot(OffsetOf(i), slots) && Slot(OffsetOf(i)) == i
  {
  }

  class ClassDecl {
    var properties: array<PropertyDecl>
    var numProperties: nat
    var size: nat

    constructor (n: nat)
      ensures properties.Length == n && numProperties == 0 && size == HEADER && fresh(properties)
    {
      properties := new PropertyDecl[n](_ => PropertyDecl(Decl([], Hash([])), StringT, 0));
      numProperties, size := 0, HEADER;
    }
  }

  /** The instance proper: its header's self pointer, its declaration and its fields. */
  class Inner {
    var self: Inner?
    var classDecl: ClassDecl
    var fields: array<Field>

    constructor (cd: ClassDecl, n: nat)
      ensures self == null && classDecl == cd && fields.Length == n && fresh(fields)
    {
      self, classDecl := null, cd;
      fields := new Field[n](_ => Zero(StringT));
    }
  }

  /** Property `i` has the `i`-th field, of its type; codes and names are in order. */
  ghost predicate Laid(ps: seq<PropertyDecl>, fs: seq<Field>) {
    && |ps| <= |fs|
    && (forall i | 0 <= i < |ps| :: LaidAt(ps[i], i, fs[i]))
    && (forall i, j | 0 <= i < j < |ps| :: !SameName(ps[i].decl.name, ps[j].decl.name))
  }

  ghost predicate LaidAt(p: PropertyDecl, i: nat, f: Field) {
    p.offset == OffsetOf(i) && p.decl.code == Hash(p.decl.name) && IsLegal(p.decl.name) && Fits(p.t, f.value)
  }

  /** Fields are inside the instance and share no byte. */
  lemma {:induction false} FieldsAreApart(ps: seq<PropertyDecl>, fs: seq<Field>, i: nat, j: nat)
    requires Laid(ps, fs) && i < j < |ps|
    ensures HEADER <= ps[i].offset && ps[i].offset + FIELD <= ps[j].offset
    ensures ps[j].offset + FIELD <= HEADER + |fs| * FIELD
  {
    hide SameName, Hash, IsLegal, Fits;
    assert LaidAt(ps[i], i, fs[i]) && LaidAt(ps[j], j, fs[j]);
  }

  // ---------------------------------------------------------------------------------------
  // The map that the layout represents
  // ---------------------------------------------------------------------------------------

  ghost function MapOf(ps: seq<PropertyDecl>, fs: seq<Field>): Cells
    requires |ps| <= |fs|
  {
    if ps == [] then map[]
    else
      var n := |ps| - 1;
      MapOf(ps[..n], fs)[Fold(ps[n].decl.name) := Cell(n, ps[n].t, fs[n])]
  }

  lemma {:induction false} MapFrame(ps: seq<PropertyDecl>, fs: seq<Field>, gs: seq<Field>)
    requires |ps| <= |fs| && |ps| <= |gs| && fs[..|ps|] == gs[..|ps|]
    ensures MapOf(ps, fs) == MapOf(ps, gs)
  {
    hide Fold;
    if ps != [] {
      var n := |ps| - 1;
      assert fs[..n] == fs[..|ps|][..n] && gs[..n] == gs[..|ps|][..n];
      assert fs[n] == fs[..|ps|][n] && gs[n] == gs[..|ps|][n];
      MapFrame(ps[..n], fs, gs);
    }
  }

  lemma {:induction false} LaidPrefix(ps: seq<PropertyDecl>, fs: seq<Field>, n: nat)
    requires Laid(ps, fs) && n <= |ps|
    ensures Laid(ps[..n], fs)
  {
    hide LaidAt, SameName;
  }

  ghost predicate Named(ps: seq<PropertyDecl>, name: Name, i: int) {
    0 <= i < |ps| && SameName(ps[i].decl.name, name)
  }

  lemma {:induction false} NamedOnce(ps: seq<PropertyDecl>, fs: seq<Field>, name: Name, i: int, j: int)
    requires Laid(ps, fs) && Named(ps, name, i) && Named(ps, name, j)
    ensures i == j
  {
    hide SameName, LaidAt;
    SameNameIsEquivalence(ps[i].decl.name, name, ps[j].decl.name);
    SameNameIsEquivalence(ps[j].decl.name, name, ps[i].decl.name);
    SameNameIsEquivalence(name, ps[i].decl.name, ps[j].decl.name);
    SameNameIsEquivalence(name, ps[j].decl.name, ps[i].decl.name);
    SymmetricName(ps[i].decl.name, name);
    SymmetricName(ps[j].decl.name, name);
  }

  lemma {:induction false} SymmetricName(a: Name, b: Name)
    ensures SameName(a, b) <==> SameName(b, a)
  {
  }

  /** Looking a name up in the map is looking for the property of that name. */
  lemma {:induction false} MapHas(ps: seq<PropertyDecl>, fs: seq<Field>, name: Name, i: int)
    requires Laid(ps, fs) && Named(ps, name, i)
    ensures Fold(name) in MapOf(ps, fs) && MapOf(ps, fs)[Fold(name)] == Cell(i, ps[i].t, fs[i])
    decreases |ps|
  {
    hide SameName, LaidAt, Fold;
    var n := |ps| - 1;
    FoldIffSame(ps[n].decl.name, name);
    if i < n {
      LaidPrefix(ps, fs, n);
      MapHas(ps[..n], fs, name, i);
      if Fold(ps[n].decl.name) == Fold(name) { NamedOnce(ps, fs, name, i, n); }
    }
  }

  lemma {:induction false} MapLacks(ps: seq<PropertyDecl>, fs: seq<Field>, name: Name)
    requires |ps| <= |fs| && forall i | 0 <= i < |ps| :: !SameName(ps[i].decl.name, name)
    ensures Fold(name) !in MapOf(ps, fs)
    decreases |ps|
  {
    hide SameName, Fold;
    if ps != [] {
      var n := |ps| - 1;
      FoldIffSame(ps[n].decl.name, name);
      MapLacks(ps[..n], fs, name);
    }
  }

  lemma {:induction false} MapSize(ps: seq<PropertyDecl>, fs: seq<Field>)
    requires Laid(ps, fs)
    ensures |MapOf(ps, fs)| == |ps|
    decreases |ps|
  {
    hide SameName, LaidAt, Fold;
    if ps != [] {
      var n := |ps| - 1;
      LaidPrefix(ps, fs, n);
      MapSize(ps[..n], fs);
      forall i | 0 <= i < n ensures !SameName(ps[..n][i].decl.name, ps[n].decl.name) {}
      MapLacks(ps[..n], fs, ps[n].decl.name);
      MapGrows(MapOf(ps[..n], fs), Fold(ps[n].decl.name), Cell(n, ps[n].t, fs[n]));
    }
  }

  lemma {:induction false} MapGrows(m: Cells, k: Name, c: Cell)
    requires k !in m
    ensures |m[k := c]| == |m| + 1
  {
    assert m[k := c].Keys == m.Keys + {k};
  }

  lemma {:induction false} MapUpdate(ps: seq<PropertyDecl>, fs: seq<Field>, i: nat, f: Field)
    requires Laid(ps, fs) && i < |ps|
    ensures MapOf(ps, fs[i := f]) == MapOf(ps, fs)[Fold(ps[i].decl.name) := Cell(i, ps[i].t, f)]
    decreases |ps|
  {
    hide SameName, LaidAt, Fold;
    var n := |ps| - 1;
    var k := Fold(ps[i].decl.name);
    if i == n {
      MapFrame(ps[..n], fs, fs[i := f]);
    } else {
      LaidPrefix(ps, fs, n);
      MapUpdate(ps[..n], fs, i, f);
      FoldIffSame(ps[i].decl.name, ps[n].decl.name);
    }
  }

  function DeclsOf(ps: seq<PropertyDecl>): (d: seq<Decl>)
    ensures |d| == |ps|
  {
    seq(|ps|, i requires 0 <= i < |ps| => ps[i].decl)
  }

  /** What the code-filtered search finds, in terms of the map. */
  lemma {:induction false} SearchIsLookup(ps: seq<PropertyDecl>, fs: seq<Field>, name: Name, r: int)
    requires Laid(ps, fs) && IsFirstCoded(DeclsOf(ps), name, r)
    ensures r == -1 || 0 <= r < |ps|
    ensures r == -1 <==> Fold(name) !in MapOf(ps, fs)
    ensures r != -1 ==> Named(ps, name, r) && MapOf(ps, fs)[Fold(name)] == Cell(r, ps[r].t, fs[r])
    ensures r == -1 ==> forall i | 0 <= i < |ps| :: !SameName(ps[i].decl.name, name)
  {
    hide SameName, Hash, IsLegal, Fits, OffsetOf, Fold, MapOf, IsFirstCoded;
    forall i | 0 <= i < |ps| ensures DeclsOf(ps)[i].code == Hash(DeclsOf(ps)[i].name) {
      assert LaidAt(ps[i], i, fs[i]);
    }
    FilterIsPlain(DeclsOf(ps), name, r);
    if r == -1 {
      forall i | 0 <= i < |ps| ensures !SameName(ps[i].decl.name, name) {
        assert !SameName(DeclsOf(ps)[i].name, name);
      }
      MapLacks(ps, fs, name);
    } else {
      assert SameName(DeclsOf(ps)[r].name, name);
      MapHas(ps, fs, name, r);
    }
  }

  lemma {:induction false} Relaid(ps: seq<PropertyDecl>, fs: seq<Field>, gs: seq<Field>)
    requires Laid(ps, fs) && |ps| <= |gs| && fs[..|ps|] == gs[..|ps|]
    ensures Laid(ps, gs)
  {
    hide SameName, LaidAt;
    forall i | 0 <= i < |ps| ensures LaidAt(ps[i], i, gs[i]) {
      assert fs[i] == fs[..|ps|][i] && gs[i] == gs[..|ps|][i];
      assert LaidAt(ps[i], i, fs[i]);
    }
  }

  lemma {:induction false} LaidAppend(ps: seq<PropertyDecl>, gs: seq<Field>, p: PropertyDecl)
    requires Laid(ps, gs) && |ps| < |gs| && LaidAt(p, |ps|, gs[|ps|])
    requires forall i | 0 <= i < |ps| :: !SameName(ps[i].decl.name, p.decl.name)
    ensures Laid(ps + [p], gs)
  {
    hide SameName, LaidAt;
    var qs := ps + [p];
    forall i | 0 <= i < |qs| ensures LaidAt(qs[i], i, gs[i]) {
      if i < |ps| { assert qs[i] == ps[i] && LaidAt(ps[i], i, gs[i]); }
    }
  }

  lemma {:induction false} MapAppend(ps: seq<PropertyDecl>, gs: seq<Field>, p: PropertyDecl)
    requires |ps| < |gs|
    ensures MapOf(ps + [p], gs) == MapOf(ps, gs)[Fold(p.decl.name) := Cell(|ps|, p.t, gs[|ps|])]
  {
    hide Fold;
    assert (ps + [p])[..|ps|] == ps;
  }

  /** Adding a property that has a new name. */
  lemma {:induction false} LaidMore(ps: seq<PropertyDecl>, fs: seq<Field>, p: PropertyDecl, gs: seq<Field>)
    requires Laid(ps, fs) && |ps| < |gs| && fs[..|ps|] == gs[..|ps|] && LaidAt(p, |ps|, gs[|ps|])
    requires forall i | 0 <= i < |ps| :: !SameName(ps[i].decl.name, p.decl.name)
    ensures Laid(ps + [p], gs)
    ensures MapOf(ps + [p], gs) == MapOf(ps, fs)[Fold(p.decl.name) := Cell(|MapOf(ps, fs)|, p.t, gs[|ps|])]
  {
    hide SameName, LaidAt, Fold, MapOf;
    Relaid(ps, fs, gs);
    LaidAppend(ps, gs, p);
    MapSize(ps, fs);
    MapFrame(ps, fs, gs);
    MapAppend(ps, gs, p);
  }

  lemma {:induction false} LaidUpdate(ps: seq<PropertyDecl>, fs: seq<Field>, i: nat, f: Field)
    requires Laid(ps, fs) && i < |ps| && Fits(ps[i].t, f.value)
    ensures Laid(ps, fs[i := f])
  {
    hide SameName, Hash, IsLegal, Fits, OffsetOf;
    forall j | 0 <= j < |ps| ensures LaidAt(ps[j], j, fs[i := f][j]) { assert LaidAt(ps[j], j, fs[j]); }
  }

  /** The wrapper: what a client holds.  Its address stays while the inner instance moves. */
  class Dynamic {
    var self: Inner
    var classDecl: ClassDecl

    ghost function Decls(): seq<PropertyDecl>
      requires classDecl.numProperties <= classDecl.properties.Length
      reads this, classDecl, classDecl.properties
    {
      classDecl.properties[..classDecl.numProperties]
    }

    ghost function Fields(): seq<Field>
      reads this, self, self.fields
    {
      self.fields[..]
    }

    /** Consistent for `n` properties' worth of memory. */
    ghost predicate Consistent(n: nat)
      reads this, self, self.fields, classDecl, classDecl.properties
    {
      && self.self == self && self.classDecl == classDecl
      && IsCapacity(self.fields.Length, n) && classDecl.properties.Length == self.fields.Length
      && classDecl.numProperties <= n <= Bits.MAX / 2
      && classDecl.size == OffsetOf(classDecl.numProperties)
      && classDecl.numProperties <= classDecl.properties.Length && Laid(Decls(), Fields())
    }

    ghost predicate Valid()
      reads this, self, self.fields, classDecl, classDecl.properties
    {
      Consistent(classDecl.numProperties)
    }

    /** The map this object represents. */
    ghost function Contents(): Cells
      requires Valid()
      reads this, self, self.fields, classDecl, classDecl.properties
    {
      MapOf(Decls(), Fields())
    }

    /** `Instance_NewDynamic` for a legal class name. */
    constructor ()
      ensures Valid() && Contents() == map[]
      ensures fresh(self) && fresh(self.fields) && fresh(classDecl) && fresh(classDecl.properties)
    {
      var cd := new ClassDecl(CAPACITY);
      var inner := new Inner(cd, CAPACITY);
      inner.self := inner;
      self, classDecl := inner, cd;
    }

    /** The growth step of `AddElement`: room for one more property. */
    method Grow()
      requires Valid() && classDecl.numProperties < Bits.MAX / 2
      modifies this, self, classDecl
      ensures Consistent(classDecl.numProperties + 1) && classDecl.numProperties < self.fields.Length
      ensures classDecl == old(classDecl) && classDecl.numProperties == old(classDecl.numProperties)
      ensures Decls() == old(Decls()) && Fields()[..|Decls()|] == old(Fields()[..|Decls()|])
      ensures (self == old(self) && self.fields == old(self.fields)) || (fresh(self) && fresh(self.fields))
      ensures classDecl.properties == old(classDecl.properties) || fresh(classDecl.properties)
    {
      hide Laid, IsCapacity;
      var cd := classDecl;
      var n := cd.numProperties;
      CapacityStep(self.fields.Length, n);
      var c := FindCapacity(n);
      CapacityIsUnique(c, self.fields.Length, n);
      if n == c {
        var cap := 2 * n;
        var ps := new PropertyDecl[cap](_ => PropertyDecl(Decl([], Hash([])), StringT, 0));
        forall i | 0 <= i < n { ps[i] := cd.properties[i]; }
        var inner := new Inner(cd, cap);
        forall i | 0 <= i < n { inner.fields[i] := self.fields[i]; }
        Relaid(Decls(), Fields(), inner.fields[..]);
        assert ps[..n] == Decls();
        cd.properties := ps;
        inner.self := inner;
        self := inner;
      }
    }

    /** `AddElement`. */
    method AddElement(name: Name, t: Type, value: Option<Value>, flags: Flags) returns (r: Result)
      requires Valid() && classDecl.numProperties < Bits.MAX / 2
      requires value.Some? ==> Fits(t, value.value)
      modifies this, self, self.fields, classDecl, classDecl.properties
      ensures Valid() && (r, Contents()) == Add(old(Contents()), name, t, value, flags)
      ensures (self == old(self) && self.fields == old(self.fields)) || (fresh(self) && fresh(self.fields))
      ensures classDecl == old(classDecl) && classDecl.numProperties <= old(classDecl.numProperties) + 1
      ensures classDecl.properties == old(classDecl.properties) || fresh(classDecl.properties)
    {
      hide Laid, IsCapacity, MapOf, Fold, Construct, IsLegal, Fits, SameName, Set, Zero, OffsetOf;
      var legal := LegalName(name);
      if !legal { return INVALID_PARAMETER; }
      var index := Find(name);
      if index != -1 { return ALREADY_EXISTS; }
      ghost var ps, fs, m := Decls(), Fields(), Contents();
      AddIsSet(m, name, t, value, flags);
      Grow();
      MapFrame(ps, fs, Fields());
      AddProperty(name, t);
      r := SetElementAt(classDecl.numProperties - 1, t, value, flags);
    }

    /** The declaration and the cleared field of a new property. */
    method AddProperty(name: Name, t: Type)
      requires Consistent(classDecl.numProperties + 1) && classDecl.numProperties < self.fields.Length
      requires IsLegal(name) && forall i | 0 <= i < |Decls()| :: !SameName(Decls()[i].decl.name, name)
      modifies self.fields, classDecl, classDecl.properties
      ensures Valid() && classDecl.numProperties == old(classDecl.numProperties) + 1
      ensures classDecl.properties == old(classDecl.properties)
      ensures Decls()
        == old(Decls()) + [PropertyDecl(Decl(name, Hash(name)), t, OffsetOf(old(classDecl.numProperties)))]
      ensures Contents()
        == MapOf(old(Decls()), old(Fields()))[Fold(name) := Cell(|MapOf(old(Decls()), old(Fields()))|, t, Zero(t))]
    {
      hide Laid, IsCapacity, MapOf, Fold, Hash, IsLegal, SameName, OffsetOf;
      var cd := classDecl;
      var n := cd.numProperties;
      ghost var ps, fs := Decls(), Fields();
      var pd := PropertyDecl(Decl(name, Hash(name)), t, OffsetOf(n));
      cd.properties[n] := pd;
      cd.numProperties := n + 1;
      SlotOfOffset(n, self.fields.Length);
      self.fields[Slot(pd.offset)] := Zero(t);
      SizeStep(n);
      cd.size := cd.size + FIELD;
      assert Decls() == ps + [pd];
      assert Fields()[..n] == fs[..n];
      LaidMore(ps, fs, pd, Fields());
    }

    /** `_FindPropertyDecl` on this instance's declaration. */
    method Find(name: Name) returns (r: int)
      requires Valid()
      ensures r == -1 || 0 <= r < classDecl.numProperties
      ensures r == -1 <==> Fold(name) !in Contents()
      ensures r == -1 ==> forall i | 0 <= i < |Decls()| :: !SameName(Decls()[i].decl.name, name)
      ensures r != -1 ==> Named(Decls(), name, r) && Contents()[Fold(name)] == Cell(r, Decls()[r].t, Fields()[r])
    {
      hide Laid, IsCapacity, MapOf, Fold, SameName, IsFirstCoded, Hash;
      r := FindProperty(DeclsOf(classDecl.properties[..classDecl.numProperties]), name);
      SearchIsLookup(Decls(), Fields(), name, r);
    }

    /** `SetElementAt`; the index just past the end is not checked by the code. */
    method SetElementAt(index: nat, t: Type, value: Option<Value>, flags: Flags) returns (r: Result)
      requires Valid() && index != classDecl.numProperties && (value.Some? ==> Fits(t, value.value))
      modifies self.fields
      ensures Valid()
      ensures index >= classDecl.numProperties ==> r == FAILED && Contents() == old(Contents())
      ensures index < classDecl.numProperties ==>
        (r, Contents()) == Set(old(Contents()), Decls()[index].decl.name, t, value, flags)
    {
      hide IsCapacity, MapOf, Fold, SameName, Construct, Hash, IsLegal;
      if index > classDecl.numProperties { return FAILED; }
      ghost var ps, fs := Decls(), Fields();
      var pd := classDecl.properties[index];
      OwnName(ps, fs, index);
      MapHas(ps, fs, pd.decl.name, index);
      if t != pd.t { return TYPE_MISMATCH; }
      r := SetField(index, t, value, flags);
    }

    /** `Field_Set` on the field of a property: the new value is built before the old one goes. */
    method SetField(index: nat, t: Type, value: Option<Value>, flags: Flags) returns (r: Result)
      requires Valid() && index < classDecl.numProperties && (value.Some? ==> Fits(t, value.value))
      requires Decls()[index].t == t
      modifies self.fields
      ensures Valid()
      ensures match Construct(t, value, flags)
        case None => r == FAILED && Contents() == old(Contents())
        case Some(f) =>
          r == OK && Contents() == old(Contents())[Fold(Decls()[index].decl.name) := Cell(index, t, f)]
    {
      hide Laid, IsCapacity, MapOf, Fold, SameName, Construct, Hash, IsLegal;
      ghost var ps, fs := Decls(), Fields();
      OffsetAt(ps, fs, index);
      var pd := classDecl.properties[index];
      var made := Construct(t, value, flags);
      if made.None? { return FAILED; }
      ConstructFits(t, value, flags);
      self.fields[Slot(pd.offset)] := made.value;
      assert Fields() == fs[index := made.value];
      LaidUpdate(ps, fs, index, made.value);
      MapUpdate(ps, fs, index, made.value);
      r := OK;
    }

    /** `SetElement`. */
    method SetElement(name: Name, t: Type, value: Option<Value>, flags: Flags) returns (r: Result)
      requires Valid() && (value.Some? ==> Fits(t, value.value))
      modifies self.fields
      ensures Valid() && (r, Contents()) == Set(old(Contents()), name, t, value, flags)
    {
      hide Laid, IsCapacity, MapOf, Fold, SameName, Construct;
      var index := Find(name);
      if index == -1 { return NO_SUCH_PROPERTY; }
      FoldOfNamed(Decls(), name, index);
      r := SetElementAt(index, t, value, flags);
    }

    /** `ClearElement`. */
    method ClearElement(name: Name) returns (r: Result)
      requires Valid()
      modifies self.fields
      ensures Valid() && (r, Contents()) == Clear(old(Contents()), name)
    {
      hide Laid, IsCapacity, MapOf, Fold, SameName, Hash, IsLegal;
      var index := Find(name);
      if index == -1 { return NO_SUCH_PROPERTY; }
      ghost var ps, fs := Decls(), Fields();
      FoldOfNamed(ps, name, index);
      OffsetAt(ps, fs, index);
      var pd := classDecl.properties[index];
      self.fields[Slot(pd.offset)] := Zero(pd.t);
      assert Fields() == fs[index := Zero(pd.t)];
      LaidUpdate(ps, fs, index, Zero(pd.t));
      MapUpdate(ps, fs, index, Zero(pd.t));
      r := OK;
    }

    /** `GetElement`: value, type, whether it is null, and position. */
    method GetElement(name: Name) returns (r: Result, value: Value, t: Type, isNull: bool, index: nat)
      requires Valid()
      ensures r == if Fold(name) in Contents() then OK else NO_SUCH_PROPERTY
      ensures r == OK ==> var c := Contents()[Fold(name)];
        value == c.field.value && t == c.t && isNull == !c.field.exists_ && index == c.index
    {
      hide Laid, IsCapacity, MapOf, Fold, SameName, Hash, IsLegal;
      var i := Find(name);
      if i == -1 { return NO_SUCH_PROPERTY, Number(0), StringT, true, 0; }
      OffsetAt(Decls(), Fields(), i);
      var pd := classDecl.properties[i];
      var f := self.fields[Slot(pd.offset)];
      r, value, t, isNull, index := OK, f.value, pd.t, !f.exists_, i;
    }
  }

  lemma {:induction false} SizeStep(n: nat)
    ensures OffsetOf(n) + FIELD == OffsetOf(n + 1)
  {
  }

  lemma {:induction false} OffsetAt(ps: seq<PropertyDecl>, fs: seq<Field>, i: nat)
    requires Laid(ps, fs) && i < |ps|
    ensures HEADER <= ps[i].offset && Slot(ps[i].offset) == i
  {
    hide SameName;
    assert LaidAt(ps[i], i, fs[i]);
    SlotOfOffset(i, |fs|);
  }

  lemma {:induction false} OwnName(ps: seq<PropertyDecl>, fs: seq<Field>, i: nat)
    requires i < |ps|
    ensures Named(ps, ps[i].decl.name, i)
  {
  }

  lemma {:induction false} FoldOfNamed(ps: seq<PropertyDecl>, name: Name, i: int)
    requires Named(ps, name, i)
    ensures Fold(ps[i].decl.name) == Fold(name)
  {
    FoldIffSame(ps[i].decl.name, name);
  }

  /** Adding is adding a null value and then setting it. */
  lemma {:induction false} AddIsSet(m: Cells, name: Name, t: Type, value: Option<Value>, flags: Flags)
    requires IsLegal(name) && Fold(name) !in m && (value.Some? ==> Fits(t, value.value))
    ensures Add(m, name, t, value, flags) == Set(m[Fold(name) := Cell(|m|, t, Zero(t))], name, t, value, flags)
  {
    hide Construct, Fold, IsLegal, Fits, Zero;
    var k := Fold(name);
    var n := m[k := Cell(|m|, t, Zero(t))];
    if Construct(t, value, flags).Some? {
      assert n[k := n[k].(field := Construct(t, value, flags).value)]
        == m[k := Cell(|m|, t, Construct(t, value, flags).value)];
    }
  }

  lemma {:induction false} ConstructFits(t: Type, value: Option<Value>, flags: Flags)
    requires value.Some? ==> Fits(t, value.value)
    ensures Construct(t, value, flags).Some? ==> Fits(t, Construct(t, value, flags).value.value)
  {
    if value.Some? { ConstructStores(t, value.value, flags); }
  }

  /** `Instance_NewDynamic`: the class name has to be legal. */
  method NewDynamic(className: Name) returns (r: Result, d: Dynamic?)
    ensures r == if IsLegal(className) then OK else INVALID_PARAMETER
    ensures r == OK <==> d != null
    ensures d != null ==>
      && fresh(d) && fresh(d.self) && fresh(d.self.fields) && fresh(d.classDecl) && fresh(d.classDecl.properties)
    ensures d != null ==> d.Valid() && d.Contents() == map[]
  {
    var legal := LegalName(className);
    if !legal { return INVALID_PARAMETER, null; }
    d := new Dynamic();
    r := OK;
  }

  /** Any run of operations on a new instance, through every relocation, leaves what the map says. */
  method Perform(ops: seq<Op>) returns (d: Dynamic)
    requires AreOps(ops) && |ops| < Bits.MAX / 2
    ensures fresh(d) && d.Valid() && d.Contents() == Run(map[], ops)
  {
    hide Laid, IsCapacity, MapOf, Add, Set, Clear, Fits, Dynamic.Consistent;
    d := new Dynamic();
    var i := 0;
    RunStart(ops);
    Empty(d);
    while i < |ops|
      invariant i <= |ops| && d.Valid() && d.classDecl.numProperties <= i && d.Contents() == Run(map[], ops[..i])
      invariant fresh(d) && fresh(d.self) && fresh(d.self.fields) && fresh(d.classDecl) && fresh(d.classDecl.properties)
    {
      RunStep(ops, i);
      var r;
      match ops[i] {
        case AddOp(name, t, value, flags) => r := d.AddElement(name, t, value, flags);
        case SetOp(name, t, value, flags) => r := d.SetElement(name, t, value, flags);
        case ClearOp(name) => r := d.ClearElement(name);
      }
      i := i + 1;
    }
    assert ops[..i] == ops;
  }

  /** After any run, reading a name gives what the last successful operation on it gave. */
  method PerformThenGet(ops: seq<Op>, name: Name)
    returns (r: Result, value: Value, t: Type, isNull: bool, index: nat)
    requires AreOps(ops) && |ops| < Bits.MAX / 2
    ensures r == if LastGiven(ops, Fold(name)).Present? then OK else NO_SUCH_PROPERTY
    ensures r == OK ==> var h := LastGiven(ops, Fold(name));
      && t == h.t && (isNull <==> h.value.None?) && (h.value.Some? ==> SameContent(value, h.value.value))
      && index < |Names(ops)| && Names(ops)[index] == Fold(name)
  {
    hide Names, LastGiven, Fold, SameContent;
    var d := Perform(ops);
    LastGivenIsRead(ops, Fold(name));
    PropertiesInOrder(ops);
    r, value, t, isNull, index := d.GetElement(name);
  }

  lemma {:induction false} Empty(d: Dynamic)
    requires d.Valid() && d.Contents() == map[]
    ensures d.classDecl.numProperties == 0
  {
    MapSize(d.Decls(), d.Fields());
  }

  lemma {:induction false} RunStart(ops: seq<Op>)
    requires AreOps(ops)
    ensures Run(map[], ops[..0]) == map[]
  {
  }

  lemma {:induction false} RunStep(ops: seq<Op>, i: nat)
    requires AreOps(ops) && i < |ops|
    ensures IsOp(ops[i]) && AreOps(ops[..i]) && AreOps(ops[..i + 1])
    ensures Run(map[], ops[..i + 1]) == Apply(Run(map[], ops[..i]), ops[i])
  {
    assert ops[..i + 1][..i] == ops[..i];
  }
}
