/**
  Dynamic instances, as their users see them: a case-insensitive map from names to typed, possibly
  null values.  The storage that implements it is in module `DynamicInstance`.
 */
module DynamicSpec {
  import opened Memory
  import opened Naming

  datatype Option<T> = None | Some(value: T)

  datatype Result = OK | FAILED | INVALID_PARAMETER | NO_SUCH_PROPERTY | TYPE_MISMATCH | ALREADY_EXISTS

  /** The CIM types, grouped by how a value of the type is stored. */
  datatype Type =
    | Scalar(t: nat) | StringT | InstanceT(reference: bool)
    | ArrayT(t: nat) | StringAT | InstanceAT(reference: bool)

  /** A value; None is a null pointer, and instances are told apart by their content. */
  datatype Value =
    | Number(n: int)
    | Str(s: Option<seq<byte>>)
    | Object(o: Option<nat>)
    | Numbers(numbers: Option<seq<int>>)
    | Strs(strs: Option<seq<Option<seq<byte>>>>)
    | Objects(objects: Option<seq<Option<nat>>>)

  predicate Fits(t: Type, v: Value) {
    match t
    case Scalar(_) => v.Number?
    case StringT => v.Str?
    case InstanceT(_) => v.Object?
    case ArrayT(_) => v.Numbers?
    case StringAT => v.Strs?
    case InstanceAT(_) => v.Objects?
  }

  /** The stored form: a value, whether it counts, and whether the instance owns it. */
  datatype Field = Field(value: Value, exists_: bool, borrowed: bool)

  function Zero(t: Type): (f: Field)
    ensures Fits(t, f.value)
  {
    Field(match t
      case Scalar(_) => Number(0)
      case StringT => Str(None)
      case InstanceT(_) => Object(None)
      case ArrayT(_) => Numbers(None)
      case StringAT => Strs(None)
      case InstanceAT(_) => Objects(None),
      false, false)
  }

  datatype Flags = Flags(null_: bool, borrow: bool)

  predicate NoNulls<T>(s: seq<Option<T>>) { forall i | 0 <= i < |s| :: s[i].Some? }

  /** `_CloneSimpleArray`, `CloneStringArray`, `_CloneInstanceArray`: an empty array is a null pointer. */
  function CloneArray<T>(data: seq<T>): Option<seq<T>> { if data == [] then None else Some(data) }

  function CloneChecked<T>(data: seq<Option<T>>): Option<seq<Option<T>>> {
    if NoNulls(data) then CloneArray(data) else None
  }

  /** `Field_Construct`; None is the failure to copy the value. */
  function Construct(t: Type, value: Option<Value>, flags: Flags): Option<Field>
    requires value.Some? ==> Fits(t, value.value)
  {
    if flags.null_ || value.None? then Some(Zero(t))
    else
      match value.value
      case Number(_) => Some(Field(value.value, true, false))
      case Str(s) => Some(if s.Some? then Field(value.value, true, flags.borrow) else Zero(t))
      case Object(o) => Some(if o.Some? then Field(value.value, true, flags.borrow) else Zero(t))
      case Numbers(None) => Some(Field(value.value, true, false))
      case Numbers(Some(s)) =>
        Some(if flags.borrow then Field(value.value, true, true) else Field(Numbers(CloneArray(s)), true, false))
      case Strs(None) => Some(Field(value.value, true, false))
      case Strs(Some(s)) =>
        if flags.borrow then Some(Field(value.value, true, true))
        else if CloneChecked(s).None? then None
        else Some(Field(Strs(CloneChecked(s)), true, false))
      case Objects(None) => Some(Field(value.value, true, false))
      case Objects(Some(s)) =>
        if flags.borrow then Some(Field(value.value, true, true))
        else if CloneChecked(s).None? then None
        else Some(Field(Objects(CloneChecked(s)), true, false))
  }

  /** The elements of an array value, where a null pointer stands for the empty array. */
  function ListOf<T>(data: Option<seq<T>>): seq<T> { if data.Some? then data.value else [] }

  /** The same content, however it is stored. */
  predicate SameContent(v: Value, w: Value) {
    match (v, w)
    case (Numbers(a), Numbers(b)) => ListOf(a) == ListOf(b)
    case (Strs(a), Strs(b)) => ListOf(a) == ListOf(b)
    case (Objects(a), Objects(b)) => ListOf(a) == ListOf(b)
    case _ => v == w
  }

  /** Whether the value counts as present once stored: null strings and instances do not, null arrays do. */
  predicate IsPresent(v: Value) {
    match v
    case Str(s) => s.Some?
    case Object(o) => o.Some?
    case _ => true
  }

  /** The value is at a memory address. */
  predicate IsPointer(v: Value) {
    match v
    case Number(_) => false
    case Str(s) => s.Some?
    case Object(o) => o.Some?
    case Numbers(s) => s.Some?
    case Strs(s) => s.Some?
    case Objects(s) => s.Some?
  }

  /** Copying a list of strings or instances needs at least one element and no null among them. */
  predicate Copyable(v: Value) {
    match v
    case Strs(Some(s)) => s != [] && NoNulls(s)
    case Objects(Some(s)) => s != [] && NoNulls(s)
    case _ => true
  }

  /** What is stored reads back as what was given; storing fails exactly on lists that cannot be copied. */
  lemma {:induction false} ConstructStores(t: Type, v: Value, flags: Flags)
    requires Fits(t, v)
    ensures var f := Construct(t, Some(v), flags);
      && (f == None <==> !flags.null_ && !flags.borrow && !Copyable(v))
      && (f.Some? ==> Fits(t, f.value.value) && (f.value.exists_ <==> !flags.null_ && IsPresent(v)))
      && (f.Some? && f.value.exists_ ==> SameContent(f.value.value, v))
      && (f.Some? ==> (f.value.borrowed <==> flags.borrow && !flags.null_ && IsPointer(v)))
  {
  }

  // ---------------------------------------------------------------------------------------
  // The map
  // ---------------------------------------------------------------------------------------

  /** A name as the map keys it. */
  function Fold(name: Name): (k: Name)
    ensures |k| == |name|
  {
    FoldHasNoZero(name);
    seq(|name|, i requires 0 <= i < |name| => ToLower(name[i]))
  }

  lemma {:induction false} FoldHasNoZero(name: Name)
    ensures 0 !in seq(|name|, i requires 0 <= i < |name| => ToLower(name[i]))
  {
  }

  lemma {:induction false} FoldIffSame(a: Name, b: Name)
    ensures Fold(a) == Fold(b) <==> SameName(a, b)
  {
    if Fold(a) == Fold(b) {
      forall i | 0 <= i < |a| ensures ToLower(a[i]) == ToLower(b[i]) {
        assert Fold(a)[i] == Fold(b)[i];
      }
    }
  }

  /** `LegalName`: a letter or underscore, then letters, digits and underscores. */
  predicate IsFirstChar(c: byte) { 65 <= c <= 90 || 97 <= c <= 122 || c == 95 }

  predicate IsInnerChar(c: byte) { IsFirstChar(c) || 48 <= c <= 57 }

  predicate IsLegal(name: Name) {
    name != [] && IsFirstChar(name[0]) && forall i | 0 < i < |name| :: IsInnerChar(name[i])
  }

  lemma {:induction false} LegalCharacters(c: byte)
    ensures IsFirstChar(c) <==> 'A' <= c as char <= 'Z' || 'a' <= c as char <= 'z' || c as char == '_'
    ensures IsInnerChar(c) <==> IsFirstChar(c) || '0' <= c as char <= '9'
  {
  }

  method LegalName(name: Name) returns (r: bool)
    ensures r == IsLegal(name)
  {
    var text := name + [0];
    if !IsFirstChar(text[0]) { return false; }
    var p := 1;
    while IsInnerChar(text[p])
      invariant 1 <= p <= |name|
      invariant forall i | 0 < i < p :: IsInnerChar(name[i])
      decreases |name| - p
    {
      p := p + 1;
    }
    r := text[p] == 0;
  }

  datatype Cell = Cell(index: nat, t: Type, field: Field)

  type Cells = map<Name, Cell>

  /** `AddElement`: a name that is new is added, with a null value if the given one cannot be stored. */
  function Add(m: Cells, name: Name, t: Type, value: Option<Value>, flags: Flags): (Result, Cells)
    requires value.Some? ==> Fits(t, value.value)
  {
    if !IsLegal(name) then (INVALID_PARAMETER, m)
    else if Fold(name) in m then (ALREADY_EXISTS, m)
    else
      match Construct(t, value, flags)
      case Some(f) => (OK, m[Fold(name) := Cell(|m|, t, f)])
      case None => (FAILED, m[Fold(name) := Cell(|m|, t, Zero(t))])
  }

  /** `SetElement`: type and position stay; a value that cannot be stored changes nothing. */
  function Set(m: Cells, name: Name, t: Type, value: Option<Value>, flags: Flags): (Result, Cells)
    requires value.Some? ==> Fits(t, value.value)
  {
    if Fold(name) !in m then (NO_SUCH_PROPERTY, m)
    else if m[Fold(name)].t != t then (TYPE_MISMATCH, m)
    else
      match Construct(t, value, flags)
      case Some(f) => (OK, m[Fold(name) := m[Fold(name)].(field := f)])
      case None => (FAILED, m)
  }

  /** `ClearElement`: the property stays, its value becomes null. */
  function Clear(m: Cells, name: Name): (Result, Cells) {
    if Fold(name) !in m then (NO_SUCH_PROPERTY, m)
    else (OK, m[Fold(name) := m[Fold(name)].(field := Zero(m[Fold(name)].t))])
  }

  // ---------------------------------------------------------------------------------------
  // Runs
  // ---------------------------------------------------------------------------------------

  datatype Op =
    | AddOp(name: Name, t: Type, value: Option<Value>, flags: Flags)
    | SetOp(name: Name, t: Type, value: Option<Value>, flags: Flags)
    | ClearOp(name: Name)

  predicate IsOp(op: Op) { !op.ClearOp? && op.value.Some? ==> Fits(op.t, op.value.value) }

  function Apply(m: Cells, op: Op): Cells
    requires IsOp(op)
  {
    match op
    case AddOp(name, t, value, flags) => Add(m, name, t, value, flags).1
    case SetOp(name, t, value, flags) => Set(m, name, t, value, flags).1
    case ClearOp(name) => Clear(m, name).1
  }

  predicate AreOps(ops: seq<Op>) { forall i | 0 <= i < |ops| :: IsOp(ops[i]) }

  function Run(m: Cells, ops: seq<Op>): Cells
    requires AreOps(ops)
  {
    if ops == [] then m else Apply(Run(m, ops[..|ops| - 1]), ops[|ops| - 1])
  }

  /** The operations of a run that concern one name, in any case. */
  function On(ops: seq<Op>, k: Name): seq<Op> {
    if ops == [] then []
    else
      var rest := On(ops[..|ops| - 1], k);
      if Fold(ops[|ops| - 1].name) == k then rest + [ops[|ops| - 1]] else rest
  }

  /** The same property up to its position. */
  predicate SameCell(m: Cells, n: Cells, k: Name) {
    (k in m <==> k in n) && (k in m ==> m[k].t == n[k].t && m[k].field == n[k].field)
  }

  lemma {:induction false} ApplySame(m: Cells, n: Cells, op: Op, k: Name)
    requires IsOp(op) && SameCell(m, n, k) && Fold(op.name) == k
    ensures SameCell(Apply(m, op), Apply(n, op), k)
  {
    hide Construct, IsLegal;
  }

  lemma {:induction false} ApplyOther(m: Cells, op: Op, k: Name)
    requires IsOp(op) && Fold(op.name) != k
    ensures SameCell(Apply(m, op), m, k)
  {
    hide Construct, IsLegal;
  }

  lemma {:induction false} OnAreOps(ops: seq<Op>, k: Name)
    requires AreOps(ops)
    ensures AreOps(On(ops, k))
  {
    hide IsOp;
    if ops != [] { OnAreOps(ops[..|ops| - 1], k); }
  }

  /** Names do not interfere: what a run leaves under a name is what the operations on that name leave. */
  lemma {:induction false} NamesAreIndependent(m: Cells, ops: seq<Op>, k: Name)
    requires AreOps(ops)
    ensures AreOps(On(ops, k)) && SameCell(Run(m, ops), Run(m, On(ops, k)), k)
  {
    hide Apply, SameCell, IsOp;
    OnAreOps(ops, k);
    if ops == [] {
      SameCellTransitive(m, m, m, k);
    } else {
      var before, op := ops[..|ops| - 1], ops[|ops| - 1];
      NamesAreIndependent(m, before, k);
      if Fold(op.name) == k {
        ApplySame(Run(m, before), Run(m, On(before, k)), op, k);
        assert On(ops, k)[..|On(ops, k)| - 1] == On(before, k);
      } else {
        ApplyOther(Run(m, before), op, k);
        SameCellTransitive(Run(m, ops), Run(m, before), Run(m, On(before, k)), k);
      }
    }
  }

  lemma {:induction false} SameCellTransitive(a: Cells, b: Cells, c: Cells, k: Name)
    ensures SameCell(a, a, k)
    ensures SameCell(a, b, k) && SameCell(b, c, k) ==> SameCell(a, c, k)
  {
  }

  /** Nothing removes a property, and nothing changes its type or position. */
  lemma {:induction false} PropertiesStay(m: Cells, ops: seq<Op>, k: Name)
    requires AreOps(ops) && k in m
    ensures k in Run(m, ops) && Run(m, ops)[k].t == m[k].t && Run(m, ops)[k].index == m[k].index
  {
    hide Construct, IsLegal;
    if ops != [] { PropertiesStay(m, ops[..|ops| - 1], k); }
  }
}
