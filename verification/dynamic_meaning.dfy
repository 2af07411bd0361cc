/** What the last operation on a name gave is what is read under it, over any run of operations. */
module DynamicMeaning {
  import opened Memory
  import opened Naming
  import opened DynamicSpec

  // ---------------------------------------------------------------------------------------
  // Read after write
  // ---------------------------------------------------------------------------------------

  /** What a caller gives: a value, or null. */
  function Given(value: Option<Value>, flags: Flags): Option<Value> {
    if flags.null_ || value.None? || !IsPresent(value.value) then None else value
  }

  /** The value can be stored: by reference, or by copying it. */
  predicate Storable(value: Option<Value>, flags: Flags) {
    flags.null_ || value.None? || flags.borrow || Copyable(value.value)
  }

  /** The cell reads back as `v` of type `t`; None is null. */
  predicate Reads(c: Cell, t: Type, v: Option<Value>) {
    && c.t == t && (c.field.exists_ <==> v.Some?)
    && (v.Some? ==> SameContent(c.field.value, v.value))
  }

  lemma {:induction false} ConstructReads(t: Type, value: Option<Value>, flags: Flags, index: nat)
    requires value.Some? ==> Fits(t, value.value)
    ensures Construct(t, value, flags).Some? <==> Storable(value, flags)
    ensures Construct(t, value, flags).Some? ==>
      Reads(Cell(index, t, Construct(t, value, flags).value), t, Given(value, flags))
    ensures Reads(Cell(index, t, Zero(t)), t, None)
  {
    hide Construct, Copyable, SameContent, IsPresent, Fits;
    if value.Some? { ConstructStores(t, value.value, flags); }
    NothingIsNull(t, flags);
  }

  lemma {:induction false} NothingIsNull(t: Type, flags: Flags)
    ensures Construct(t, None, flags) == Some(Zero(t)) && !Zero(t).exists_
  {
  }

  /** Every other name is as it was. */
  ghost predicate OthersStay(m: Cells, n: Cells, k: Name) {
    forall j | j != k :: (j in n <==> j in m) && (j in m ==> n[j] == m[j])
  }

  /**
    `AddElement` succeeds exactly on a new legal name with a value that can be stored, and that
    value is then read under the name, at the end; one that cannot be stored leaves a null.
   */
  lemma {:induction false} AddThenRead(m: Cells, name: Name, t: Type, value: Option<Value>, flags: Flags)
    requires value.Some? ==> Fits(t, value.value)
    ensures var (r, n) := Add(m, name, t, value, flags);
      && (r == INVALID_PARAMETER <==> !IsLegal(name))
      && (r == ALREADY_EXISTS <==> IsLegal(name) && Fold(name) in m)
      && (r == FAILED <==> IsLegal(name) && Fold(name) !in m && !Storable(value, flags))
      && (r == OK <==> IsLegal(name) && Fold(name) !in m && Storable(value, flags))
      && (r == OK || r == FAILED ==> Fold(name) in n && n[Fold(name)].index == |m|)
      && (r == OK ==> Reads(n[Fold(name)], t, Given(value, flags)))
      && (r == FAILED ==> Reads(n[Fold(name)], t, None))
      && (r == INVALID_PARAMETER || r == ALREADY_EXISTS ==> n == m)
      && OthersStay(m, n, Fold(name))
  {
    hide Construct, Storable, Reads, IsLegal, Fold, Given;
    ConstructReads(t, value, flags, |m|);
  }

  /**
    `SetElement` succeeds exactly on a name that is there, with its type and a value that can be
    stored, and that value is then read under the name; a failure changes nothing.
   */
  lemma {:induction false} SetThenRead(m: Cells, name: Name, t: Type, value: Option<Value>, flags: Flags)
    requires value.Some? ==> Fits(t, value.value)
    ensures var (r, n) := Set(m, name, t, value, flags); var k := Fold(name);
      && (r == NO_SUCH_PROPERTY <==> k !in m)
      && (r == TYPE_MISMATCH <==> k in m && m[k].t != t)
      && (r == FAILED <==> k in m && m[k].t == t && !Storable(value, flags))
      && (r == OK <==> k in m && m[k].t == t && Storable(value, flags))
      && (r == OK ==> k in n && Reads(n[k], t, Given(value, flags)) && n[k].index == m[k].index)
      && (r != OK ==> n == m)
      && OthersStay(m, n, k)
  {
    hide Construct, Storable, Reads, IsLegal, Fold, Given;
    if Fold(name) in m { ConstructReads(t, value, flags, m[Fold(name)].index); }
  }

  /** `ClearElement` succeeds exactly on a name that is there, which is then null. */
  lemma {:induction false} ClearThenRead(m: Cells, name: Name)
    ensures var (r, n) := Clear(m, name); var k := Fold(name);
      && (r == OK <==> k in m) && (r == NO_SUCH_PROPERTY <==> k !in m)
      && (r == OK ==> k in n && Reads(n[k], m[k].t, None) && n[k].index == m[k].index)
      && (r != OK ==> n == m)
      && OthersStay(m, n, k)
  {
    hide Fold;
    if Fold(name) in m { ConstructReads(m[Fold(name)].t, None, Flags(true, false), m[Fold(name)].index); }
  }

  // ---------------------------------------------------------------------------------------
  // Runs
  // ---------------------------------------------------------------------------------------

  /** What a run leaves under one name. */
  datatype Held = Absent | Present(t: Type, value: Option<Value>)

  /** Read off the operations on the name: the last one that succeeded, or the null that a failed addition leaves. */
  function LastGiven(ops: seq<Op>, k: Name): Held {
    if ops == [] then Absent
    else
      var before, op := LastGiven(ops[..|ops| - 1], k), ops[|ops| - 1];
      if Fold(op.name) != k then before
      else match op
        case AddOp(name, t, value, flags) =>
          if before.Present? || !IsLegal(name) then before
          else Present(t, if Storable(value, flags) then Given(value, flags) else None)
        case SetOp(_, t, value, flags) =>
          if before.Present? && before.t == t && Storable(value, flags) then Present(t, Given(value, flags)) else before
        case ClearOp(_) => if before.Present? then Present(before.t, None) else before
  }

  /** The names in the order in which they were added. */
  function Names(ops: seq<Op>): seq<Name> {
    if ops == [] then []
    else
      var before, op := Names(ops[..|ops| - 1]), ops[|ops| - 1];
      if op.AddOp? && IsLegal(op.name) && Fold(op.name) !in before then before + [Fold(op.name)] else before
  }

  ghost predicate Agrees(m: Cells, k: Name, h: Held) {
    && (k in m <==> h.Present?)
    && (k in m ==> Reads(m[k], h.t, h.value))
  }

  lemma {:induction false} OpAgrees(m: Cells, ops: seq<Op>, op: Op, k: Name)
    requires IsOp(op) && Agrees(m, k, LastGiven(ops, k))
    ensures Agrees(Apply(m, op), k, LastGiven(ops + [op], k))
  {
    hide SameContent, Construct, Storable, Given, IsLegal, Fold, Add, Set, Clear, Fits;
    assert (ops + [op])[..|ops|] == ops;
    match op
    case AddOp(name, t, value, flags) => AddThenRead(m, name, t, value, flags);
    case SetOp(name, t, value, flags) => SetThenRead(m, name, t, value, flags);
    case ClearOp(name) => ClearThenRead(m, name);
  }

  /**
    Over any run on a new instance: a name is there exactly when it was added, with the type it was
    added with, and what is read under it is what the last successful operation on it gave.
   */
  lemma {:induction false} LastGivenIsRead(ops: seq<Op>, k: Name)
    requires AreOps(ops)
    ensures Agrees(Run(map[], ops), k, LastGiven(ops, k))
  {
    hide Agrees, Apply, IsOp;
    if ops == [] {
      NothingHeld(k);
    } else {
      var before, op := ops[..|ops| - 1], ops[|ops| - 1];
      LastGivenIsRead(before, k);
      OpAgrees(Run(map[], before), before, op, k);
      assert ops == before + [op];
    }
  }

  lemma {:induction false} NothingHeld(k: Name)
    ensures Agrees(map[], k, LastGiven([], k))
  {
  }

  /** The cells are those of the names, each at its position. */
  ghost predicate InOrder(m: Cells, names: seq<Name>) {
    && |m| == |names| && (forall k :: k in m <==> k in names)
    && (forall k | k in m :: m[k].index < |names| && names[m[k].index] == k)
  }

  lemma {:induction false} OpInOrder(m: Cells, ops: seq<Op>, op: Op)
    requires IsOp(op) && InOrder(m, Names(ops))
    ensures InOrder(Apply(m, op), Names(ops + [op]))
  {
    hide Reads, Construct, Storable, Given, IsLegal, Fold, Add, Set, Clear, Fits, Names;
    var n, names := Apply(m, op), Names(ops);
    NextNames(ops, op);
    match op
    case AddOp(name, t, value, flags) =>
      AddThenRead(m, name, t, value, flags);
      if n != m { OneMoreCell(m, n, names, Fold(name)); }
    case SetOp(name, t, value, flags) =>
      SetThenRead(m, name, t, value, flags);
      if n != m { SameCells(m, n, names, Fold(name)); }
    case ClearOp(name) =>
      ClearThenRead(m, name);
      if n != m { SameCells(m, n, names, Fold(name)); }
  }

  lemma {:induction false} NextNames(ops: seq<Op>, op: Op)
    ensures Names(ops + [op]) ==
      if op.AddOp? && IsLegal(op.name) && Fold(op.name) !in Names(ops) then Names(ops) + [Fold(op.name)] else Names(ops)
  {
    hide IsLegal, Fold;
    assert (ops + [op])[..|ops|] == ops;
  }

  lemma {:induction false} OneMoreCell(m: Cells, n: Cells, names: seq<Name>, k: Name)
    requires InOrder(m, names) && k !in m && k in n && n[k].index == |m| && OthersStay(m, n, k)
    ensures InOrder(n, names + [k])
  {
    assert n.Keys == m.Keys + {k};
    assert |n.Keys| == |n| && |m.Keys| == |m|;
  }

  lemma {:induction false} SameCells(m: Cells, n: Cells, names: seq<Name>, k: Name)
    requires InOrder(m, names) && k in m && k in n && n[k].index == m[k].index && OthersStay(m, n, k)
    ensures InOrder(n, names)
  {
    assert n.Keys == m.Keys;
    assert |n.Keys| == |n| && |m.Keys| == |m|;
  }

  /** Over any run on a new instance the properties are in the order in which they were added. */
  lemma {:induction false} PropertiesInOrder(ops: seq<Op>)
    requires AreOps(ops)
    ensures InOrder(Run(map[], ops), Names(ops))
  {
    hide InOrder, Apply, IsOp, Names;
    if ops == [] {
      NoNames();
    } else {
      var before, op := ops[..|ops| - 1], ops[|ops| - 1];
      PropertiesInOrder(before);
      OpInOrder(Run(map[], before), before, op);
      assert ops == before + [op];
    }
  }

  lemma {:induction false} NoNames()
    ensures InOrder(map[], Names([]))
  {
  }
}
