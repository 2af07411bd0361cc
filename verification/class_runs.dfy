/** Every run of the class API, by clients that use only handles they hold. */
module ClassRuns {
  import opened Naming
  import opened ClassModel
  import opened ClassFrames
  import opened ClassBuild
  import opened ClassRefs

  datatype Op =
    | NewOp(parent: Option<nat>, name: Name, properties: nat, methods: nat)
    | ElementOp(c: nat, s: Spec)
    | MethodOp(c: nat, s: Spec)
    | QualifierOp(c: nat, i: nat, q: Qualifier, isTrue: bool)
    | MethodQualifierOp(c: nat, i: nat, q: Qualifier)
    | CloneOp(c: nat)
    | DeleteOp(c: nat)

  /** The qualifier is for a declaration that the class lists, and there is room for it. */
  ghost predicate CanQualify(w: World, c: nat, id: Id, q: Qualifier) {
    && Handles(w, c) > 0 && c in w.classes && Lists(w.classes[c], id) && q.owner == c
    && Points(w, id) && TakesQualifier(At(w, id), q)
  }

  /**
    A handle on every class that is named; room in its lists; a qualifier only where every user of
    the element may see it.
   */
  ghost predicate CanDo(w: World, op: Op) {
    match op
    case NewOp(parent, _, _, _) => parent.Some? ==> Handles(w, parent.value) > 0
    case ElementOp(c, s) =>
      && Handles(w, c) > 0 && c in w.classes && AllPoint(w, w.classes[c].props)
      && HasRoom(w, w.classes[c].props, w.classes[c].propRoom, s.name)
    case MethodOp(c, s) =>
      && Handles(w, c) > 0 && c in w.classes && AllPoint(w, w.classes[c].methods)
      && HasRoom(w, w.classes[c].methods, w.classes[c].methodRoom, s.name)
    case QualifierOp(c, i, q, _) =>
      && c in w.classes && i < |w.classes[c].props|
      && CanQualify(w, c, w.classes[c].props[i], q) && Harmless(w, w.classes[c].props[i], q)
    case MethodQualifierOp(c, i, q) =>
      && c in w.classes && i < |w.classes[c].methods|
      && CanQualify(w, c, w.classes[c].methods[i], q) && Harmless(w, w.classes[c].methods[i], q)
    case CloneOp(c) => Handles(w, c) > 0
    case DeleteOp(c) => Handles(w, c) > 0
  }

  /** What a client holds a handle on can be used: the pointers in it are valid. */
  lemma {:induction false} HeldIsUsable(w: World, c: nat)
    requires Inv(w) && Handles(w, c) > 0
    ensures c in w.classes && CanInherit(w, c)
  {
    hide ClassOk, CountOk, CanInherit;
    InvCanInherit(w, c);
  }

  ghost function Do(w: World, op: Op): World
    requires CanDo(w, op)
  {
    match op
    case NewOp(parent, name, properties, methods) =>
      if parent.Some? ==> CanInherit(w, parent.value) then NewClass(w, parent, name, properties, methods) else w
    case ElementOp(c, s) => AddElement(w, c, s)
    case MethodOp(c, s) => AddMethod(w, c, s)
    case QualifierOp(c, i, q, isTrue) => AddQualifier(w, w.classes[c].props[i], q, isTrue)
    case MethodQualifierOp(c, i, q) => AddQualifier(w, w.classes[c].methods[i], q, false)
    case CloneOp(c) => if c in w.classes then CloneHandle(w, c) else w
    case DeleteOp(c) => DeleteHandle(w, c)
  }

  lemma {:induction false} StepKeepsInv(w: World, op: Op)
    requires Inv(w) && CanDo(w, op)
    ensures Inv(Do(w, op))
  {
    hide Inv, HasRoom, TakesQualifier, Harmless, NewClass, AddElement, AddMethod, AddQualifier, CloneHandle,
      DeleteHandle, AllPoint, Points, CanInherit;
    match op
    case NewOp(parent, name, properties, methods) =>
      if parent.Some? { HeldIsUsable(w, parent.value); }
      NewKeepsInv(w, parent, name, properties, methods);
    case ElementOp(c, s) => AddElementKeepsInv(w, c, s);
    case MethodOp(c, s) => AddMethodKeepsInv(w, c, s);
    case QualifierOp(c, i, q, isTrue) => AddQualifierKeepsInv(w, c, w.classes[c].props[i], q, isTrue);
    case MethodQualifierOp(c, i, q) => AddQualifierKeepsInv(w, c, w.classes[c].methods[i], q, false);
    case CloneOp(c) => HeldIsUsable(w, c); CloneKeepsInv(w, c);
    case DeleteOp(c) => DeleteKeepsInv(w, c);
  }

  const START: World := World(map[], map[], 0)

  /** `w` is reached from nothing by the operations, each allowed when it happens. */
  ghost predicate Reaches(ops: seq<Op>, w: World) {
    if ops == [] then w == START
    else
      var n := |ops| - 1;
      exists u :: Reaches(ops[..n], u) && CanDo(u, ops[n]) && w == Do(u, ops[n])
  }

  /** In every reachable world all classes are in order and all counts exact. */
  lemma {:induction false} RunKeepsInv(ops: seq<Op>, w: World)
    requires Reaches(ops, w)
    ensures Inv(w)
  {
    hide Inv, CanDo, Do;
    if ops == [] {
      StartOk();
    } else {
      var n := |ops| - 1;
      var u :| Reaches(ops[..n], u) && CanDo(u, ops[n]) && w == Do(u, ops[n]);
      RunKeepsInv(ops[..n], u);
      StepKeepsInv(u, ops[n]);
    }
  }

  lemma {:induction false} StartOk()
    ensures Inv(START)
  {
  }

  /** What that means for any two elements of any reachable class. */
  lemma {:induction false} ReachableClassIsSound(ops: seq<Op>, w: World, c: nat, i: nat, j: nat)
    requires Reaches(ops, w) && c in w.classes && i < |w.classes[c].props| && j < |w.classes[c].props| && i != j
    ensures AllPoint(w, w.classes[c].props)
    ensures var e, f := At(w, w.classes[c].props[i]), At(w, w.classes[c].props[j]);
      && !SameName(e.name, f.name)
      && HEADER <= e.offset && e.offset + FIELD <= w.classes[c].size
      && (e.offset + FIELD <= f.offset || f.offset + FIELD <= e.offset)
      && forall q | q in e.quals && q.owner != c :: Propagates(q)
  {
    hide Reaches, ElementOk, QualsOk, CountOk, SameName;
    RunKeepsInv(ops, w);
    assert ClassOk(w, c);
    var ids := w.classes[c].props;
    SameNameIsEquivalence(At(w, ids[j]).name, At(w, ids[i]).name, At(w, ids[j]).name);
    SameNameIsEquivalence(At(w, ids[i]).name, At(w, ids[j]).name, At(w, ids[i]).name);
    OwnElement(w, c, i);
    QualifiersPropagate(w, c, ids[i]);
  }

  /** The same for the methods of any reachable class, which have no fields. */
  lemma {:induction false} ReachableMethodsAreSound(ops: seq<Op>, w: World, c: nat, i: nat, j: nat)
    requires Reaches(ops, w) && c in w.classes && i < |w.classes[c].methods| && j < |w.classes[c].methods| && i != j
    ensures var id, other := w.classes[c].methods[i], w.classes[c].methods[j];
      && Points(w, id) && Points(w, other) && !SameName(At(w, id).name, At(w, other).name)
      && forall q | q in At(w, id).quals && q.owner != c :: Propagates(q)
  {
    hide Reaches, ElementOk, QualsOk, CountOk, SameName, FieldsOk;
    RunKeepsInv(ops, w);
    assert ClassOk(w, c);
    var ids := w.classes[c].methods;
    assert ElementOk(w, c, ids[i]) && ElementOk(w, c, ids[j]);
    QualifiersPropagate(w, c, ids[i]);
    QualifiersPropagate(w, c, ids[j]);
    SameNameIsEquivalence(At(w, ids[j]).name, At(w, ids[i]).name, At(w, ids[j]).name);
    SameNameIsEquivalence(At(w, ids[i]).name, At(w, ids[j]).name, At(w, ids[i]).name);
  }

  lemma {:induction false} QualifiersPropagate(w: World, c: nat, id: Id)
    requires ElementOk(w, c, id)
    ensures Points(w, id) && forall q | q in At(w, id).quals && q.owner != c :: Propagates(q)
  {
    hide Propagates;
  }

  // ---------------------------------------------------------------------------------------
  // A run in which a subclass borrows
  // ---------------------------------------------------------------------------------------

  function PlainSpec(name: Name): Spec { Spec(name, false, false, 0, None, 1) }

  /** A class with one plain element, and its subclass. */
  function BorrowingRun(name: Name): seq<Op> {
    [NewOp(None, name, 1, 0), ElementOp(0, PlainSpec(name)), NewOp(Some(0), name, 0, 0)]
  }

  ghost function OneClass(name: Name): World {
    World(map[0 := Class(name, None, HEADER, [], 1, [], 0, [], [], 1)], map[0 := 1], 1)
  }

  ghost function OneElement(name: Name): World {
    World(map[0 := Class(name, None, HEADER + FIELD, [Id(0, 0)], 1, [], 0, [],
      [Declare(PlainSpec(name), name, HEADER, None)], 1)], map[0 := 1], 1)
  }

  lemma {:induction false} FirstStep(name: Name)
    ensures CanDo(START, NewOp(None, name, 1, 0)) && Do(START, NewOp(None, name, 1, 0)) == OneClass(name)
  {
  }

  lemma {:induction false} SecondStep(name: Name)
    ensures CanDo(OneClass(name), ElementOp(0, PlainSpec(name)))
    ensures Do(OneClass(name), ElementOp(0, PlainSpec(name))) == OneElement(name)
  {
    hide Declare;
    var w := OneClass(name);
    assert w.classes[0].props == [];
    assert Find(w, w.classes[0].props, name) == 0;
    var v, u := Do(w, ElementOp(0, PlainSpec(name))), OneElement(name);
    assert Put(w.classes[0].props, 0, Id(0, 0)) == [Id(0, 0)];
    assert v.classes[0] == u.classes[0];
    assert v.classes == u.classes;
  }

  lemma {:induction false} ThirdStep(name: Name)
    ensures CanDo(OneElement(name), NewOp(Some(0), name, 0, 0))
    ensures var v := Do(OneElement(name), NewOp(Some(0), name, 0, 0));
      && 0 in v.classes && 1 in v.classes && |v.classes[0].own| == 1
      && v.classes[0].props == [Id(0, 0)] && v.classes[1].props == [Id(0, 0)]
      && v.classes[0].own[0].quals == [] && v.classes[0].own[0].room == 1
  {
    var w := OneElement(name);
    var ids := w.classes[0].props;
    assert ids == [Id(0, 0)] && ids[..0] == [];
    assert AllPoint(w, ids) && CanInherit(w, 0);
    assert Inherit(w, ids[..0], 1, []) == ([], []);
    assert Inherit(w, ids, 1, []).0 == [Id(0, 0)];
  }

  lemma {:induction false} ReachesNext(ops: seq<Op>, u: World, op: Op)
    requires Reaches(ops, u) && CanDo(u, op)
    ensures Reaches(ops + [op], Do(u, op))
  {
    hide CanDo, Do;
    assert (ops + [op])[..|ops|] == ops;
  }

  /** Subclasses do borrow: after this run a late, non-propagating qualifier on the parent breaks the invariant. */
  lemma {:induction false} LateQualifierBreaksARun(name: Name, q: Qualifier) returns (w: World)
    requires q.owner == 0 && !Propagates(q)
    ensures Reaches(BorrowingRun(name), w) && 0 in w.classes && |w.classes[0].own| == 1
    ensures !Inv(AddQualifier(w, Id(0, 0), q, false))
  {
    hide Inv, CanDo, Do, Reaches, Propagates, AddQualifier, OneClass, OneElement, TakesQualifier;
    var ops := BorrowingRun(name);
    StartIsReached();
    FirstStep(name);
    ReachesNext([], START, ops[0]);
    SecondStep(name);
    ReachesNext([] + [ops[0]], OneClass(name), ops[1]);
    ThirdStep(name);
    ReachesNext([] + [ops[0]] + [ops[1]], OneElement(name), ops[2]);
    w := Do(OneElement(name), ops[2]);
    assert [] + [ops[0]] + [ops[1]] + [ops[2]] == ops;
    RunKeepsInv(ops, w);
    EmptyTakesOne(At(w, Id(0, 0)), q);
    OwnQualifierKeepsInv(w, 0, Id(0, 0), q, false);
  }

  lemma {:induction false} EmptyTakesOne(e: Element, q: Qualifier)
    requires e.quals == [] && e.room == 1
    ensures TakesQualifier(e, q)
  {
  }

  lemma {:induction false} StartIsReached()
    ensures Reaches([], START)
  {
  }
}
