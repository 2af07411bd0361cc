/** Building a class keeps every world invariant. */
module ClassBuild {
  import opened Memory
  import opened Naming
  import opened ClassModel
  import opened ClassFrames

  // ---------------------------------------------------------------------------------------
  // Inheriting
  // ---------------------------------------------------------------------------------------

  /** What the subclass sees in place of `e`. */
  ghost function AsInherited(e: Element): Element { if e.quals == [] then e else CopyFor(e) }

  /** `v` has class `c`, whose memory starts with `own`. */
  ghost predicate Holds(v: World, c: nat, own: seq<Element>) { c in v.classes && own <= v.classes[c].own }

  lemma {:induction false} InheritSees(w: World, v: World, ids: seq<Id>, c: nat, own: seq<Element>, i: nat)
    requires AllPoint(w, ids) && i < |ids| && c !in w.classes
    requires Holds(v, c, Inherit(w, ids, c, own).1)
    requires forall j | 0 <= j < |ids| :: Points(v, ids[j]) && At(v, ids[j]) == At(w, ids[j])
    ensures var id := Inherit(w, ids, c, own).0[i];
      && Points(v, id) && At(v, id) == AsInherited(At(w, ids[i]))
      && ((id == ids[i] && At(w, ids[i]).quals == []) || id.owner == c)
    decreases |ids|
  {
    hide CopyFor;
    var n := |ids| - 1;
    var (front, made) := Inherit(w, ids[..n], c, own);
    if i < n {
      InheritSees(w, v, ids[..n], c, own, i);
      assert Inherit(w, ids, c, own).0[i] == front[i];
    }
  }

  lemma {:induction false} InheritedQuals(w: World, v: World, p: nat, c: nat, quals: seq<Qualifier>)
    requires QualsOk(w, p, quals) && ParentsOk(w) && p in w.classes && Keeps(w, v, p)
    requires c in v.classes && v.classes[c].parent == Some(p) && p < c
    ensures QualsOk(v, c, Inherited(quals))
  {
    hide Keeps, ParentsOk, Propagates;
    var r := Inherited(quals);
    forall i | 0 <= i < |r| ensures IsAncestor(v, r[i].owner, c) && Propagates(r[i]) {
      InheritedIsFilter(quals, r[i]);
      assert r[i] in Inherited(quals);
      var j :| 0 <= j < |quals| && quals[j] == r[i];
      AncestorKept(w, v, quals[j].owner, p);
    }
  }

  lemma {:induction false} InheritedElement(w: World, v: World, p: nat, c: nat, id: Id, e: Element, new_: Id)
    requires ParentsOk(w) && p in w.classes && Keeps(w, v, p) && ElementOk(w, p, id) && e == At(w, id)
    requires c in v.classes && v.classes[c].parent == Some(p) && p < c && c !in w.classes
    requires Points(v, new_) && At(v, new_) == AsInherited(e) && ((new_ == id && e.quals == []) || new_.owner == c)
    ensures ElementOk(v, c, new_)
  {
    hide Keeps, ParentsOk, QualsOk, Hash, Inherited;
    InheritedQuals(w, v, p, c, e.quals);
    AncestorKept(w, v, id.owner, p);
    NoQuals(v, c);
  }

  lemma {:induction false} NoQuals(v: World, c: nat)
    ensures QualsOk(v, c, [])
  {
  }

  lemma {:induction false} InheritedList(w: World, v: World, p: nat, c: nat, ids: seq<Id>, room: nat,
      own: seq<Element>, more: nat)
    requires ParentsOk(w) && p in w.classes && Keeps(w, v, p) && ListOk(w, p, ids, room) && AllPoint(w, ids)
    requires c in v.classes && v.classes[c].parent == Some(p) && p < c && c !in w.classes
    requires Holds(v, c, Inherit(w, ids, c, own).1)
    ensures var r := Inherit(w, ids, c, own).0;
      && ListOk(v, c, r, more + |ids|) && AllPoint(v, r)
      && forall i | 0 <= i < |ids| :: At(v, r[i]) == AsInherited(At(w, ids[i]))
  {
    hide Keeps, ParentsOk, ElementOk, SameName, Inherit, AsInherited, Holds;
    ListKept(w, v, p, ids, room);
    var r := Inherit(w, ids, c, own).0;
    forall i | 0 <= i < |ids|
      ensures Points(v, r[i]) && ElementOk(v, c, r[i]) && At(v, r[i]) == AsInherited(At(w, ids[i]))
      ensures At(v, r[i]).name == At(w, ids[i]).name
    {
      InheritSees(w, v, ids, c, own, i);
      InheritedElement(w, v, p, c, ids[i], At(w, ids[i]), r[i]);
      SameFace(At(w, ids[i]));
    }
  }

  lemma {:induction false} SameFace(e: Element)
    ensures AsInherited(e).name == e.name && AsInherited(e).offset == e.offset && AsInherited(e).origin == e.origin
    ensures AsInherited(e) == e.(quals := AsInherited(e).quals, room := AsInherited(e).room)
  {
  }

  lemma {:induction false} InheritedFields(w: World, v: World, ids: seq<Id>, r: seq<Id>, size: nat)
    requires AllPoint(w, ids) && AllPoint(v, r) && |r| == |ids| && FieldsOk(w, ids, size)
    requires forall i | 0 <= i < |ids| :: At(v, r[i]) == AsInherited(At(w, ids[i]))
    ensures FieldsOk(v, r, size)
  {
    hide AsInherited;
    forall i | 0 <= i < |ids| ensures At(v, r[i]).offset == At(w, ids[i]).offset { SameFace(At(w, ids[i])); }
  }

  // ---------------------------------------------------------------------------------------
  // A new class
  // ---------------------------------------------------------------------------------------

  lemma {:induction false} ListPoints(w: World, c: nat, ids: seq<Id>, room: nat)
    requires ListOk(w, c, ids, room)
    ensures AllPoint(w, ids)
  {
    hide QualsOk, IsAncestor, SameName;
    forall i | 0 <= i < |ids| ensures Points(w, ids[i]) { assert ElementOk(w, c, ids[i]); }
  }

  lemma {:induction false} InvCanInherit(w: World, p: nat)
    requires Inv(w) && p in w.classes
    ensures CanInherit(w, p) && ClassOk(w, p)
  {
    hide ListOk, FieldsOk, QualsOk, CountOk;
    assert ClassOk(w, p);
    ListPoints(w, p, w.classes[p].methods, w.classes[p].methodRoom);
  }

  lemma {:induction false} ChildOk(w: World, v: World, p: nat, name: Name, properties: nat, methods: nat)
    requires Inv(w) && p in w.classes && CanInherit(w, p) && w.next !in w.classes && p < w.next
    requires w.next in v.classes && v.classes[w.next] == Child(w, p, name, properties, methods)
    requires p in v.classes && Keeps(w, v, p)
    ensures ClassOk(v, w.next)
    ensures var k := v.classes[w.next];
      |k.props| == |w.classes[p].props| && AllPoint(v, k.props)
      && forall i | 0 <= i < |k.props| :: At(v, k.props[i]) == AsInherited(At(w, w.classes[p].props[i]))
    ensures AllPoint(w, w.classes[p].props) && AllPoint(w, w.classes[p].methods)
    ensures var k := v.classes[w.next];
      |k.methods| == |w.classes[p].methods| && AllPoint(v, k.methods)
      && forall i | 0 <= i < |k.methods| :: At(v, k.methods[i]) == AsInherited(At(w, w.classes[p].methods[i]))
  {
    hide Keeps, ListOk, QualsOk, CountOk, FieldsOk, Inherit, AsInherited, Inherited;
    InvParents(w);
    assert ClassOk(w, p);
    var c, k := w.next, w.classes[p];
    var (props, made) := Inherit(w, k.props, c, []);
    var (meths, own) := Inherit(w, k.methods, c, made);
    InheritedList(w, v, p, c, k.props, k.propRoom, [], properties);
    InheritedList(w, v, p, c, k.methods, k.methodRoom, made, methods);
    InheritedFields(w, v, k.props, props, k.size);
    InheritedQuals(w, v, p, c, k.quals);
  }

  /** Which classes a change concerns: the others keep their shape, count and memory. */
  ghost predicate OthersSame(w: World, v: World, c: nat) {
    forall d | d in w.classes && d != c :: d in v.classes && v.classes[d] == w.classes[d]
  }

  lemma {:induction false} NewKeeps(w: World, v: World, parent: Option<nat>, name: Name, properties: nat,
      methods: nat, d: nat)
    requires Inv(w) && (parent.Some? ==> CanInherit(w, parent.value)) && d in w.classes
    requires v == NewClass(w, parent, name, properties, methods)
    ensures Keeps(w, v, d) && SameShape(w.classes[d], v.classes[d])
    ensures v.classes[d].own == w.classes[d].own
  {
    hide ClassOk, CountOk, Child, IsAncestor;
    forall a | a in w.classes && IsAncestor(w, a, d) ensures KeepsOne(w, v, a) {}
  }

  lemma {:induction false} SubclassesWithNew(w: World, v: World, c: nat, d: nat)
    requires c in v.classes && c !in w.classes && v.classes.Keys == w.classes.Keys + {c}
    requires forall a | a in w.classes :: v.classes[a].parent == w.classes[a].parent
    ensures v.classes[c].parent == Some(d) ==> |Subclasses(v, d)| == |Subclasses(w, d)| + 1
    ensures v.classes[c].parent != Some(d) ==> Subclasses(v, d) == Subclasses(w, d)
  {
    if v.classes[c].parent == Some(d) {
      assert Subclasses(v, d) == Subclasses(w, d) + {c};
    } else {
      assert Subclasses(v, d) == Subclasses(w, d);
    }
  }

  lemma {:induction false} SubclassesSame(w: World, v: World, d: nat)
    requires v.classes.Keys == w.classes.Keys
    requires forall a | a in w.classes :: v.classes[a].parent == w.classes[a].parent
    ensures Subclasses(v, d) == Subclasses(w, d)
  {
  }

  lemma {:induction false} NewParents(w: World, v: World, parent: Option<nat>, name: Name, properties: nat,
      methods: nat)
    requires w.next !in w.classes && (parent.Some? ==> CanInherit(w, parent.value))
    requires v == NewClass(w, parent, name, properties, methods)
    ensures w.next in v.classes && v.classes.Keys == w.classes.Keys + {w.next}
    ensures forall a | a in w.classes && a != w.next ::
      v.classes[a].parent == w.classes[a].parent && Handles(v, a) == Handles(w, a)
      && v.classes[a].refs == w.classes[a].refs + (if parent == Some(a) then 1 else 0)
    ensures v.classes[w.next].parent == parent && v.classes[w.next].refs == 1 && Handles(v, w.next) == 1
  {
    hide Child, CanInherit;
    ChildParent(w, parent, name, properties, methods);
    if parent.Some? { InheritingIsLive(w, parent.value); }
  }

  lemma {:induction false} InheritingIsLive(w: World, p: nat)
    requires CanInherit(w, p)
    ensures p in w.classes
  {
  }

  lemma {:induction false} NewCounts(w: World, v: World, parent: Option<nat>, name: Name, properties: nat,
      methods: nat, d: nat)
    requires Inv(w) && (parent.Some? ==> CanInherit(w, parent.value)) && d in v.classes
    requires v == NewClass(w, parent, name, properties, methods)
    ensures CountOk(v, d)
  {
    hide ClassOk, NewClass, CanInherit, Subclasses, Handles;
    NoYoungerParents(w);
    NewParents(w, v, parent, name, properties, methods);
    SubclassesWithNew(w, v, w.next, d);
    if parent.Some? { InheritingIsLive(w, parent.value); }
    if d == w.next {
      NoSubclasses(w, d);
    } else {
      assert CountOk(w, d);
    }
  }

  lemma {:induction false} NoSubclasses(w: World, c: nat)
    requires forall d | d in w.classes :: w.classes[d].parent != Some(c)
    ensures Subclasses(w, c) == {}
  {
  }

  lemma {:induction false} ChildParent(w: World, parent: Option<nat>, name: Name, properties: nat, methods: nat)
    requires parent.Some? ==> CanInherit(w, parent.value)
    ensures parent.Some? ==>
      Child(w, parent.value, name, properties, methods).parent == parent
      && Child(w, parent.value, name, properties, methods).refs == 1
  {
  }

  lemma {:induction false} NoYoungerParents(w: World)
    requires Inv(w)
    ensures forall d | d in w.classes :: w.classes[d].parent != Some(w.next)
    ensures w.next !in w.classes && Handles(w, w.next) == 0
  {
    hide ListOk, FieldsOk, QualsOk, CountOk;
    forall d | d in w.classes ensures w.classes[d].parent != Some(w.next) { assert ClassOk(w, d); }
  }

  /** Creating a class, with or without a parent, keeps the invariant. */
  lemma {:induction false} NewKeepsInv(w: World, parent: Option<nat>, name: Name, properties: nat, methods: nat)
    requires Inv(w) && (parent.Some? ==> parent.value in w.classes)
    ensures parent.Some? ==> CanInherit(w, parent.value)
    ensures Inv(NewClass(w, parent, name, properties, methods))
  {
    hide ClassOk, CountOk, Child, CanInherit;
    if parent.Some? { InvCanInherit(w, parent.value); }
    var v := NewClass(w, parent, name, properties, methods);
    InvParents(w);
    NoYoungerParents(w);
    forall d | d in v.classes ensures d < v.next && ClassOk(v, d) && CountOk(v, d) {
      NewCounts(w, v, parent, name, properties, methods, d);
      if d != w.next {
        NewKeeps(w, v, parent, name, properties, methods, d);
        ClassKept(w, v, d);
      } else if parent.Some? {
        NewKeeps(w, v, parent, name, properties, methods, parent.value);
        ChildOk(w, v, parent.value, name, properties, methods);
      } else {
        RootOk(v, d, name, properties, methods);
      }
    }
  }

  lemma {:induction false} RootOk(v: World, c: nat, name: Name, properties: nat, methods: nat)
    requires c in v.classes && v.classes[c] == Class(name, None, HEADER, [], properties, [], methods, [], [], 1)
    ensures ClassOk(v, c)
  {
  }

  // ---------------------------------------------------------------------------------------
  // Adding an element or a method
  // ---------------------------------------------------------------------------------------

  /** `v` is `w` with one more declaration `e` in the memory of `c`, and other changes to class `c` only. */
  ghost predicate Declares(w: World, v: World, c: nat, e: Element) {
    && c in w.classes && v.classes.Keys == w.classes.Keys && v.handles == w.handles && v.next == w.next
    && OthersSame(w, v, c)
    && v.classes[c].own == w.classes[c].own + [e] && v.classes[c].parent == w.classes[c].parent
    && v.classes[c].refs == w.classes[c].refs && v.classes[c].quals == w.classes[c].quals
  }

  lemma {:induction false} DeclaresKeeps(w: World, v: World, c: nat, e: Element, d: nat)
    requires Declares(w, v, c, e) && d in w.classes
    ensures Keeps(w, v, d) && (d != c ==> SameShape(w.classes[d], v.classes[d]))
  {
    hide IsAncestor;
    forall a | a in w.classes && IsAncestor(w, a, d) ensures KeepsOne(w, v, a) {}
  }

  lemma {:induction false} FilteredQuals(w: World, c: nat, quals: seq<Qualifier>)
    requires QualsOk(w, c, quals)
    ensures QualsOk(w, c, Inherited(quals))
  {
    hide Propagates, IsAncestor;
    var r := Inherited(quals);
    forall i | 0 <= i < |r| ensures IsAncestor(w, r[i].owner, c) && Propagates(r[i]) {
      InheritedIsFilter(quals, r[i]);
      assert r[i] in Inherited(quals);
      var j :| 0 <= j < |quals| && quals[j] == r[i];
    }
  }

  /** A new declaration of its own is in order, also when it overrides. */
  lemma {:induction false} DeclaredOk(w: World, v: World, c: nat, s: Spec, name: Name, offset: nat,
      o: Option<Element>, e: Element)
    requires ParentsOk(w) && Declares(w, v, c, e) && e == Declare(s, name, offset, o)
    requires o.Some? ==> QualsOk(w, c, o.value.quals)
    ensures ElementOk(v, c, Id(c, |w.classes[c].own|)) && At(v, Id(c, |w.classes[c].own|)) == e
  {
    hide ParentsOk, QualsOk, Hash, Inherited, OthersSame;
    DeclaresKeeps(w, v, c, e, c);
    if o.Some? {
      FilteredQuals(w, c, o.value.quals);
      QualsKept(w, v, c, Inherited(o.value.quals));
    } else {
      NoQuals(v, c);
    }
  }

  lemma {:induction false} PutNames(w: World, c: nat, ids: seq<Id>, room: nat, name: Name, j: nat)
    requires ListOk(w, c, ids, room) && AllPoint(w, ids) && j < |ids| && j != Find(w, ids, name)
    ensures !SameName(name, At(w, ids[j]).name)
  {
    hide ElementOk, SameName;
    var i := Find(w, ids, name);
    if i < j {
      var a, b := At(w, ids[i]).name, At(w, ids[j]).name;
      SameNameIsEquivalence(name, a, name);
      SameNameIsEquivalence(a, name, b);
    }
  }

  lemma {:induction false} PutOk(w: World, v: World, c: nat, ids: seq<Id>, room: nat, name: Name, e: Element)
    requires ParentsOk(w) && Declares(w, v, c, e) && ListOk(w, c, ids, room) && AllPoint(w, ids)
    requires HasRoom(w, ids, room, name) && e.name == name
    requires ElementOk(v, c, Id(c, |w.classes[c].own|)) && At(v, Id(c, |w.classes[c].own|)) == e
    ensures var i := Find(w, ids, name); var r := Put(ids, i, Id(c, |w.classes[c].own|));
      && ListOk(v, c, r, room) && AllPoint(v, r) && At(v, r[i]) == e
      && forall j | 0 <= j < |r| && j != i :: j < |ids| && At(v, r[j]) == At(w, ids[j])
  {
    hide ParentsOk, OthersSame, ElementOk, SameName, Find;
    DeclaresKeeps(w, v, c, e, c);
    ListKept(w, v, c, ids, room);
    var i := Find(w, ids, name);
    var id := Id(c, |w.classes[c].own|);
    var r := Put(ids, i, id);
    ElementPoints(v, c, id);
    forall j | 0 <= j < |ids| && j != i
      ensures !SameName(name, At(w, ids[j]).name) && !SameName(At(w, ids[j]).name, name)
    {
      PutNames(w, c, ids, room, name, j);
      SameNameIsEquivalence(At(w, ids[j]).name, name, name);
    }
  }

  lemma {:induction false} PutFields(w: World, v: World, ids: seq<Id>, r: seq<Id>, size: nat, i: nat, e: Element)
    requires AllPoint(w, ids) && AllPoint(v, r) && FieldsOk(w, ids, size)
    requires i < |r| && At(v, r[i]) == e && e.offset == size
    requires forall j | 0 <= j < |r| && j != i :: j < |ids| && At(v, r[j]) == At(w, ids[j])
    ensures FieldsOk(v, r, size + FIELD)
  {
    hide Points;
  }

  lemma {:induction false} OldQuals(w: World, c: nat, ids: seq<Id>, room: nat, i: nat)
    requires ListOk(w, c, ids, room) && AllPoint(w, ids) && i < |ids|
    ensures QualsOk(w, c, At(w, ids[i]).quals)
  {
    hide SameName, QualsOk;
    assert ElementOk(w, c, ids[i]);
  }

  lemma {:induction false} DeclaresCounts(w: World, v: World, c: nat, e: Element, d: nat)
    requires Declares(w, v, c, e) && d in w.classes && CountOk(w, d)
    ensures CountOk(v, d)
  {
    SubclassesSame(w, v, d);
  }

  lemma {:induction false} DeclaresInv(w: World, v: World, c: nat, e: Element)
    requires Inv(w) && Declares(w, v, c, e) && ClassOk(v, c)
    ensures Inv(v)
  {
    hide ClassOk, CountOk, Keeps, SameShape;
    InvParents(w);
    forall d | d in v.classes ensures d < v.next && ClassOk(v, d) && CountOk(v, d) {
      DeclaresCounts(w, v, c, e, d);
      if d != c {
        DeclaresKeeps(w, v, c, e, d);
        SameParent(w, v, d);
        ClassKept(w, v, d);
      }
    }
  }

  lemma {:induction false} SameParent(w: World, v: World, d: nat)
    requires Inv(w) && d in w.classes && v.classes.Keys == w.classes.Keys
    ensures w.classes[d].parent.Some? ==> w.classes[d].parent.value in v.classes
  {
    hide ListOk, FieldsOk, QualsOk, CountOk;
    assert ClassOk(w, d);
  }

  /** The declaration that `_AddElement` and `Class_AddMethod` make. */
  ghost function Declared(w: World, c: nat, ids: seq<Id>, offset: nat, s: Spec): Element
    requires c in w.classes && AllPoint(w, ids)
  {
    Declare(s, w.classes[c].name, offset, Overridden(w, ids, Find(w, ids, s.name)))
  }

  lemma {:induction false} DeclaredInList(w: World, v: World, c: nat, ids: seq<Id>, room: nat, offset: nat, s: Spec,
      e: Element)
    requires ParentsOk(w) && c in w.classes && AllPoint(w, ids)
    requires ListOk(w, c, ids, room) && HasRoom(w, ids, room, s.name)
    requires e == Declared(w, c, ids, offset, s) && Declares(w, v, c, e)
    ensures var i := Find(w, ids, s.name); var r := Put(ids, i, Id(c, |w.classes[c].own|));
      && ListOk(v, c, r, room) && AllPoint(v, r) && i < |r| && At(v, r[i]) == e && e.offset == offset
      && forall j | 0 <= j < |r| && j != i :: j < |ids| && At(v, r[j]) == At(w, ids[j])
  {
    hide ParentsOk, ListOk, QualsOk, Declare, HasRoom, Find, Declares, AllPoint;
    var i := Find(w, ids, s.name);
    var o := Overridden(w, ids, i);
    if i < |ids| { OldQuals(w, c, ids, room, i); }
    DeclareFace(s, w.classes[c].name, offset, o);
    DeclaredOk(w, v, c, s, w.classes[c].name, offset, o, e);
    PutOk(w, v, c, ids, room, s.name, e);
  }

  lemma {:induction false} AddElementDeclares(w: World, v: World, c: nat, s: Spec, e: Element)
    requires c in w.classes && AllPoint(w, w.classes[c].props)
    requires v == AddElement(w, c, s) && e == Declared(w, c, w.classes[c].props, w.classes[c].size, s)
    ensures Declares(w, v, c, e)
    ensures v.classes[c].props
      == Put(w.classes[c].props, Find(w, w.classes[c].props, s.name), Id(c, |w.classes[c].own|))
    ensures v.classes[c] == w.classes[c].(
      props := v.classes[c].props, own := w.classes[c].own + [e], size := w.classes[c].size + FIELD)
  {
    hide AllPoint, Find, Declare;
  }

  lemma {:induction false} AddElementClassOk(w: World, v: World, c: nat, s: Spec, e: Element)
    requires Inv(w) && c in w.classes && AllPoint(w, w.classes[c].props)
    requires HasRoom(w, w.classes[c].props, w.classes[c].propRoom, s.name)
    requires v == AddElement(w, c, s) && e == Declared(w, c, w.classes[c].props, w.classes[c].size, s)
    ensures Declares(w, v, c, e) && ClassOk(v, c)
  {
    hide ListOk, FieldsOk, QualsOk, CountOk, Declared, HasRoom, Find, AddElement, Declares, Put, AllPoint;
    InvParents(w);
    assert ClassOk(w, c);
    var k := w.classes[c];
    AddElementDeclares(w, v, c, s, e);
    ParentStays(w, v, c, e);
    DeclaredInList(w, v, c, k.props, k.propRoom, k.size, s, e);
    PutFields(w, v, k.props, v.classes[c].props, k.size, Find(w, k.props, s.name), e);
    DeclaresKeeps(w, v, c, e, c);
    ListKept(w, v, c, k.methods, k.methodRoom);
    QualsKept(w, v, c, k.quals);
  }

  lemma {:induction false} ParentStays(w: World, v: World, c: nat, e: Element)
    requires Declares(w, v, c, e)
    ensures v.classes.Keys == w.classes.Keys
  {
  }

  lemma {:induction false} DeclareFace(s: Spec, name: Name, offset: nat, o: Option<Element>)
    ensures Declare(s, name, offset, o).name == s.name && Declare(s, name, offset, o).offset == offset
  {
  }

  lemma {:induction false} AddMethodDeclares(w: World, v: World, c: nat, s: Spec, e: Element)
    requires c in w.classes && AllPoint(w, w.classes[c].methods)
    requires v == AddMethod(w, c, s) && e == Declared(w, c, w.classes[c].methods, 0, s)
    ensures Declares(w, v, c, e)
    ensures v.classes[c].methods
      == Put(w.classes[c].methods, Find(w, w.classes[c].methods, s.name), Id(c, |w.classes[c].own|))
    ensures v.classes[c] == w.classes[c].(methods := v.classes[c].methods, own := w.classes[c].own + [e])
  {
    hide AllPoint, Find, Declare;
  }

  lemma {:induction false} AddMethodClassOk(w: World, v: World, c: nat, s: Spec, e: Element)
    requires Inv(w) && c in w.classes && AllPoint(w, w.classes[c].methods)
    requires HasRoom(w, w.classes[c].methods, w.classes[c].methodRoom, s.name)
    requires v == AddMethod(w, c, s) && e == Declared(w, c, w.classes[c].methods, 0, s)
    ensures Declares(w, v, c, e) && ClassOk(v, c)
  {
    hide ListOk, QualsOk, CountOk, FieldsOk, Declared, HasRoom, Find, AddMethod, Declares, Put, AllPoint;
    InvParents(w);
    assert ClassOk(w, c);
    var k := w.classes[c];
    AddMethodDeclares(w, v, c, s, e);
    ParentStays(w, v, c, e);
    DeclaredInList(w, v, c, k.methods, k.methodRoom, 0, s, e);
    DeclaresKeeps(w, v, c, e, c);
    ListKept(w, v, c, k.props, k.propRoom);
    SameFields(w, v, k.props, k.size);
    QualsKept(w, v, c, k.quals);
  }

  lemma {:induction false} SameFields(w: World, v: World, ids: seq<Id>, size: nat)
    requires AllPoint(w, ids) && AllPoint(v, ids) && FieldsOk(w, ids, size)
    requires forall i | 0 <= i < |ids| :: At(v, ids[i]) == At(w, ids[i])
    ensures FieldsOk(v, ids, size)
  {
  }

  /** Adding an element, new or overriding, keeps the invariant. */
  lemma {:induction false} AddElementKeepsInv(w: World, c: nat, s: Spec)
    requires Inv(w) && c in w.classes && AllPoint(w, w.classes[c].props)
    requires HasRoom(w, w.classes[c].props, w.classes[c].propRoom, s.name)
    ensures Inv(AddElement(w, c, s))
  {
    hide Inv, HasRoom, Declares, AddElement, ClassOk, AllPoint, Declared;
    var e := Declared(w, c, w.classes[c].props, w.classes[c].size, s);
    AddElementClassOk(w, AddElement(w, c, s), c, s, e);
    DeclaresInv(w, AddElement(w, c, s), c, e);
  }

  lemma {:induction false} AddMethodKeepsInv(w: World, c: nat, s: Spec)
    requires Inv(w) && c in w.classes && AllPoint(w, w.classes[c].methods)
    requires HasRoom(w, w.classes[c].methods, w.classes[c].methodRoom, s.name)
    ensures Inv(AddMethod(w, c, s))
  {
    hide Inv, HasRoom, Declares, AddMethod, ClassOk, AllPoint, Declared;
    var e := Declared(w, c, w.classes[c].methods, 0, s);
    AddMethodClassOk(w, AddMethod(w, c, s), c, s, e);
    DeclaresInv(w, AddMethod(w, c, s), c, e);
  }

  // ---------------------------------------------------------------------------------------
  // Adding a qualifier
  // ---------------------------------------------------------------------------------------

  /** A class without subclasses is nobody else's ancestor. */
  lemma {:induction false} NoDescendants(w: World, c: nat, d: nat)
    requires ParentsOk(w) && Subclasses(w, c) == {} && d in w.classes && IsAncestor(w, c, d)
    ensures d == c
    decreases d
  {
    if d != c {
      var p := w.classes[d].parent.value;
      assert d in Subclasses(w, p);
      NoDescendants(w, c, p);
    }
  }

  lemma {:induction false} SameAncestors(w: World, v: World, a: nat, c: nat)
    requires v.classes.Keys == w.classes.Keys
    requires forall d | d in w.classes :: v.classes[d].parent == w.classes[d].parent
    ensures IsAncestor(v, a, c) == IsAncestor(w, a, c)
    decreases c
  {
    if c in w.classes && w.classes[c].parent.Some? && w.classes[c].parent.value < c {
      SameAncestors(w, v, a, w.classes[c].parent.value);
    }
  }

  /** The element may take one more qualifier, or has one of that name. */
  predicate TakesQualifier(e: Element, q: Qualifier) {
    FindQualifier(e.quals, q.name) < |e.quals| || |e.quals| < e.room
  }

  /** The qualifier may be seen by class `d`: it is its own, or an ancestor's that propagates. */
  ghost predicate MaySee(w: World, d: nat, q: Qualifier) {
    IsAncestor(w, q.owner, d) && (q.owner != d ==> Propagates(q))
  }

  lemma {:induction false} QualifyFace(e: Element, q: Qualifier, isTrue: bool)
    requires |e.quals| <= e.room && TakesQualifier(e, q)
    ensures var f := Qualify(e, q, isTrue);
      && |f.quals| <= f.room && q in f.quals
      && f.name == e.name && f.code == e.code && f.offset == e.offset && f.origin == e.origin
  {
    hide SameName;
    var f := Qualify(e, q, isTrue);
    assert f.quals[FindQualifier(e.quals, q.name)] == q;
  }

  /** What a class may see of the new qualifiers depends on the added one alone. */
  lemma {:induction false} QualifyOk(w: World, d: nat, e: Element, q: Qualifier, isTrue: bool)
    requires QualsOk(w, d, e.quals)
    ensures QualsOk(w, d, Qualify(e, q, isTrue).quals) <==> MaySee(w, d, q)
  {
    hide Propagates, SameName, IsAncestor;
    var f := Qualify(e, q, isTrue);
    assert f.quals[FindQualifier(e.quals, q.name)] == q;
    forall i | 0 <= i < |f.quals| && f.quals[i] != q ensures i < |e.quals| && f.quals[i] == e.quals[i] {}
  }

  lemma {:induction false} SameQuals(w: World, v: World, c: nat, quals: seq<Qualifier>)
    requires v.classes.Keys == w.classes.Keys
    requires forall d | d in w.classes :: v.classes[d].parent == w.classes[d].parent
    ensures QualsOk(v, c, quals) == QualsOk(w, c, quals)
  {
    hide Propagates, IsAncestor;
    forall i | 0 <= i < |quals| ensures IsAncestor(v, quals[i].owner, c) == IsAncestor(w, quals[i].owner, c) {
      SameAncestors(w, v, quals[i].owner, c);
    }
  }

  /** `v` is `w` with the declaration at `id` replaced by `f`, which differs in flags and qualifiers at most. */
  ghost predicate Replaces(w: World, v: World, id: Id, f: Element) {
    && Points(w, id) && v.handles == w.handles && v.next == w.next
    && v.classes == w.classes[id.owner := w.classes[id.owner].(own := w.classes[id.owner].own[id.k := f])]
    && f.name == At(w, id).name && f.code == At(w, id).code && f.offset == At(w, id).offset && |f.quals| <= f.room
  }

  lemma {:induction false} ReplacedAt(w: World, v: World, id: Id, f: Element, at: Id)
    requires Replaces(w, v, id, f) && Points(w, at)
    ensures Points(v, at) && At(v, at) == if at == id then f else At(w, at)
  {
  }

  lemma {:induction false} ReplacedElement(w: World, v: World, id: Id, f: Element, d: nat, at: Id)
    requires Replaces(w, v, id, f) && ElementOk(w, d, at) && (at == id ==> QualsOk(w, d, f.quals))
    ensures ElementOk(v, d, at)
  {
    hide QualsOk, Hash, IsAncestor;
    ReplacedAt(w, v, id, f, at);
    SameAncestors(w, v, at.owner, d);
    SameQuals(w, v, d, At(v, at).quals);
  }

  lemma {:induction false} ReplacedList(w: World, v: World, id: Id, f: Element, d: nat, ids: seq<Id>, room: nat)
    requires Replaces(w, v, id, f) && ListOk(w, d, ids, room) && (id in ids ==> QualsOk(w, d, f.quals))
    ensures ListOk(v, d, ids, room) && AllPoint(w, ids) && AllPoint(v, ids)
    ensures forall i | 0 <= i < |ids| :: At(v, ids[i]).offset == At(w, ids[i]).offset
  {
    hide ElementOk, SameName, QualsOk, Hash;
    ListPoints(w, d, ids, room);
    forall i | 0 <= i < |ids|
      ensures ElementOk(v, d, ids[i]) && Points(v, ids[i])
      ensures At(v, ids[i]).offset == At(w, ids[i]).offset && At(v, ids[i]).name == At(w, ids[i]).name
    {
      ReplacedElement(w, v, id, f, d, ids[i]);
      ReplacedAt(w, v, id, f, ids[i]);
    }
  }

  lemma {:induction false} ReplacedFields(w: World, v: World, ids: seq<Id>, size: nat)
    requires AllPoint(w, ids) && AllPoint(v, ids) && FieldsOk(w, ids, size)
    requires forall i | 0 <= i < |ids| :: At(v, ids[i]).offset == At(w, ids[i]).offset
    ensures FieldsOk(v, ids, size)
  {
  }

  lemma {:induction false} ReplacedLive(w: World, v: World, id: Id, f: Element)
    requires Replaces(w, v, id, f)
    ensures v.classes.Keys == w.classes.Keys
    ensures forall d | d in w.classes :: v.classes[d].parent == w.classes[d].parent
  {
  }

  lemma {:induction false} ReplacedClass(w: World, v: World, id: Id, f: Element, d: nat)
    requires Inv(w) && Replaces(w, v, id, f) && d in w.classes
    requires Lists(w.classes[d], id) ==> QualsOk(w, d, f.quals)
    ensures ClassOk(v, d)
  {
    hide ListOk, FieldsOk, QualsOk, CountOk, Hash, AllPoint;
    assert ClassOk(w, d);
    var cl := w.classes[d];
    ReplacedLive(w, v, id, f);
    ReplacedList(w, v, id, f, d, cl.props, cl.propRoom);
    ReplacedList(w, v, id, f, d, cl.methods, cl.methodRoom);
    ReplacedFields(w, v, cl.props, cl.size);
    SameQuals(w, v, d, cl.quals);
  }

  lemma {:induction false} ReplacedCounts(w: World, v: World, id: Id, f: Element, d: nat)
    requires Replaces(w, v, id, f) && d in w.classes && CountOk(w, d)
    ensures CountOk(v, d)
  {
    ReplacedLive(w, v, id, f);
    SubclassesSame(w, v, d);
  }

  lemma {:induction false} ListedElement(w: World, d: nat, id: Id)
    requires Inv(w) && d in w.classes && Lists(w.classes[d], id)
    ensures ElementOk(w, d, id)
  {
    hide FieldsOk, QualsOk, CountOk, ElementOk, SameName;
    assert ClassOk(w, d);
    if id in w.classes[d].props {
      var i :| 0 <= i < |w.classes[d].props| && w.classes[d].props[i] == id;
    } else {
      var i :| 0 <= i < |w.classes[d].methods| && w.classes[d].methods[i] == id;
    }
  }

  lemma {:induction false} ListedQuals(w: World, d: nat, id: Id)
    requires Inv(w) && d in w.classes && Lists(w.classes[d], id)
    ensures Points(w, id) && QualsOk(w, d, At(w, id).quals) && |At(w, id).quals| <= At(w, id).room
  {
    hide Inv, QualsOk, Lists;
    ListedElement(w, d, id);
  }

  /** Every class that uses the declaration may see the qualifier. */
  ghost predicate Harmless(w: World, id: Id, q: Qualifier) {
    forall d | d in w.classes && Lists(w.classes[d], id) :: MaySee(w, d, q)
  }

  lemma {:induction false} QualifierReplaces(w: World, v: World, c: nat, id: Id, q: Qualifier, isTrue: bool)
    requires Inv(w) && c in w.classes && Lists(w.classes[c], id) && Points(w, id) && TakesQualifier(At(w, id), q)
    requires v == AddQualifier(w, id, q, isTrue)
    ensures Replaces(w, v, id, Qualify(At(w, id), q, isTrue))
  {
    hide Inv, Qualify, TakesQualifier, Lists, QualsOk;
    ListedQuals(w, c, id);
    QualifyFace(At(w, id), q, isTrue);
  }

  lemma {:induction false} HarmlessKeepsInv(w: World, v: World, c: nat, id: Id, q: Qualifier, isTrue: bool)
    requires Inv(w) && c in w.classes && Lists(w.classes[c], id) && Points(w, id) && TakesQualifier(At(w, id), q)
    requires v == AddQualifier(w, id, q, isTrue) && Harmless(w, id, q)
    ensures Inv(v)
  {
    hide ClassOk, CountOk, Qualify, TakesQualifier, Lists, MaySee, QualsOk, Replaces, AddQualifier;
    var f := Qualify(At(w, id), q, isTrue);
    QualifierReplaces(w, v, c, id, q, isTrue);
    ReplacedLive(w, v, id, f);
    ReplacedHandles(w, v, id, f);
    forall d | d in v.classes ensures d < v.next && ClassOk(v, d) && CountOk(v, d) {
      ReplacedCounts(w, v, id, f, d);
      if Lists(w.classes[d], id) {
        ListedQuals(w, d, id);
        QualifyOk(w, d, At(w, id), q, isTrue);
      }
      ReplacedClass(w, v, id, f, d);
    }
  }

  lemma {:induction false} ReplacedHandles(w: World, v: World, id: Id, f: Element)
    requires Replaces(w, v, id, f)
    ensures v.handles == w.handles && v.next == w.next
    ensures forall d | d in w.classes ::
      v.classes[d].props == w.classes[d].props && v.classes[d].methods == w.classes[d].methods
  {
  }

  lemma {:induction false} KeptInvIsHarmless(w: World, v: World, c: nat, id: Id, q: Qualifier, isTrue: bool, d: nat)
    requires Inv(w) && c in w.classes && Lists(w.classes[c], id) && Points(w, id) && TakesQualifier(At(w, id), q)
    requires v == AddQualifier(w, id, q, isTrue) && Inv(v) && d in w.classes && Lists(w.classes[d], id)
    ensures MaySee(w, d, q)
  {
    hide Inv, Qualify, TakesQualifier, MaySee, QualsOk, Replaces, AddQualifier;
    var f := Qualify(At(w, id), q, isTrue);
    QualifierReplaces(w, v, c, id, q, isTrue);
    ReplacedLive(w, v, id, f);
    ReplacedHandles(w, v, id, f);
    ReplacedAt(w, v, id, f, id);
    ListedQuals(v, d, id);
    SameQuals(w, v, d, f.quals);
    ListedQuals(w, d, id);
    QualifyOk(w, d, At(w, id), q, isTrue);
  }

  /**
    A qualifier on any element that a class lists, its own or borrowed, keeps the invariant
    exactly when every class that uses the element may see the qualifier.
   */
  lemma {:induction false} AddQualifierKeepsInv(w: World, c: nat, id: Id, q: Qualifier, isTrue: bool)
    requires Inv(w) && c in w.classes && Lists(w.classes[c], id) && Points(w, id) && TakesQualifier(At(w, id), q)
    ensures Inv(AddQualifier(w, id, q, isTrue)) <==> Harmless(w, id, q)
  {
    hide Inv, TakesQualifier, MaySee, AddQualifier, Lists;
    var v := AddQualifier(w, id, q, isTrue);
    if Harmless(w, id, q) { HarmlessKeepsInv(w, v, c, id, q, isTrue); }
    if Inv(v) {
      forall d | d in w.classes && Lists(w.classes[d], id) ensures MaySee(w, d, q) {
        KeptInvIsHarmless(w, v, c, id, q, isTrue, d);
      }
    }
  }

  /**
    For an element in the class's own memory: exactly when the qualifier propagates or no other
    class has borrowed the element.
   */
  lemma {:induction false} OwnQualifierKeepsInv(w: World, c: nat, id: Id, q: Qualifier, isTrue: bool)
    requires Inv(w) && c in w.classes && Lists(w.classes[c], id) && Points(w, id) && TakesQualifier(At(w, id), q)
    requires id.owner == c && q.owner == c
    ensures Inv(AddQualifier(w, id, q, isTrue)) <==>
      (Propagates(q) || forall d | d in w.classes && d != c :: !Lists(w.classes[d], id))
  {
    hide Inv, TakesQualifier, AddQualifier, Lists, Propagates, IsAncestor;
    AddQualifierKeepsInv(w, c, id, q, isTrue);
    forall d | d in w.classes && Lists(w.classes[d], id) ensures IsAncestor(w, c, d) { ListedAncestor(w, d, id); }
    OwnAncestor(w, c);
  }

  lemma {:induction false} ListedAncestor(w: World, d: nat, id: Id)
    requires Inv(w) && d in w.classes && Lists(w.classes[d], id)
    ensures IsAncestor(w, id.owner, d)
  {
    hide Inv, Lists, IsAncestor, QualsOk;
    ListedElement(w, d, id);
  }

  lemma {:induction false} OwnAncestor(w: World, c: nat)
    ensures IsAncestor(w, c, c)
  {
  }

  /**
    A borrowed element takes no qualifier of the borrower: as long as its owner uses the element,
    the owner would hold a pointer into its subclass.
   */
  lemma {:induction false} BorrowedElementTakesNone(w: World, c: nat, id: Id, q: Qualifier, isTrue: bool)
    requires Inv(w) && c in w.classes && Lists(w.classes[c], id) && Points(w, id) && TakesQualifier(At(w, id), q)
    requires id.owner != c && q.owner == c && Lists(w.classes[id.owner], id)
    ensures !Inv(AddQualifier(w, id, q, isTrue))
  {
    hide TakesQualifier, AddQualifier, Lists, Propagates, CountOk, ClassOk;
    AddQualifierKeepsInv(w, c, id, q, isTrue);
    InvParents(w);
    ListedAncestor(w, c, id);
    AncestorsLive(w, id.owner, c);
    if IsAncestor(w, c, id.owner) { AncestorsLive(w, c, id.owner); }
  }

  lemma {:induction false} OwnElement(w: World, c: nat, i: nat)
    requires Inv(w) && c in w.classes && i < |w.classes[c].props|
    ensures ElementOk(w, c, w.classes[c].props[i])
  {
    hide FieldsOk, QualsOk, CountOk, ElementOk, SameName;
    assert ClassOk(w, c);
  }

  // ---------------------------------------------------------------------------------------
  // What building does not touch
  // ---------------------------------------------------------------------------------------

  /** An added element is at its index, and every other index still holds the same name, origin and offset. */
  lemma {:induction false} IndexesStay(w: World, c: nat, s: Spec, j: nat)
    requires Inv(w) && c in w.classes && AllPoint(w, w.classes[c].props)
    requires HasRoom(w, w.classes[c].props, w.classes[c].propRoom, s.name) && j < |w.classes[c].props|
    ensures var v := AddElement(w, c, s); var ids, r := w.classes[c].props, v.classes[c].props;
      && |ids| <= |r| && AllPoint(v, r) && AllPoint(w, ids)
      && SameName(At(v, r[j]).name, At(w, ids[j]).name) && At(v, r[j]).origin == At(w, ids[j]).origin
      && (j != Find(w, ids, s.name) ==> At(v, r[j]) == At(w, ids[j]))
  {
    hide Inv, ListOk, ClassOk, HasRoom, Find, SameName, Declares, AddElement, Declared;
    var v, k := AddElement(w, c, s), w.classes[c];
    var e := Declared(w, c, k.props, k.size, s);
    InvParents(w);
    InvClass(w, c);
    AddElementDeclares(w, v, c, s, e);
    DeclaredInList(w, v, c, k.props, k.propRoom, k.size, s, e);
    DeclaredName(w, c, k.props, k.size, s);
    SameNameIsEquivalence(At(w, k.props[j]).name, At(w, k.props[j]).name, At(w, k.props[j]).name);
  }

  lemma {:induction false} MethodIndexesStay(w: World, c: nat, s: Spec, j: nat)
    requires Inv(w) && c in w.classes && AllPoint(w, w.classes[c].methods)
    requires HasRoom(w, w.classes[c].methods, w.classes[c].methodRoom, s.name) && j < |w.classes[c].methods|
    ensures var v := AddMethod(w, c, s); var ids, r := w.classes[c].methods, v.classes[c].methods;
      && |ids| <= |r| && AllPoint(v, r) && AllPoint(w, ids)
      && SameName(At(v, r[j]).name, At(w, ids[j]).name) && At(v, r[j]).origin == At(w, ids[j]).origin
      && (j != Find(w, ids, s.name) ==> At(v, r[j]) == At(w, ids[j]))
  {
    hide Inv, ListOk, ClassOk, HasRoom, Find, SameName, Declares, AddMethod, Declared;
    var v, k := AddMethod(w, c, s), w.classes[c];
    var e := Declared(w, c, k.methods, 0, s);
    InvParents(w);
    InvClass(w, c);
    AddMethodDeclares(w, v, c, s, e);
    DeclaredInList(w, v, c, k.methods, k.methodRoom, 0, s, e);
    DeclaredName(w, c, k.methods, 0, s);
    SameNameIsEquivalence(At(w, k.methods[j]).name, At(w, k.methods[j]).name, At(w, k.methods[j]).name);
  }

  lemma {:induction false} DeclaredName(w: World, c: nat, ids: seq<Id>, offset: nat, s: Spec)
    requires c in w.classes && AllPoint(w, ids)
    ensures var i := Find(w, ids, s.name); var e := Declared(w, c, ids, offset, s);
      i < |ids| ==> SameName(e.name, At(w, ids[i]).name) && e.origin == At(w, ids[i]).origin
  {
    hide SameName;
  }

  lemma {:induction false} InvClass(w: World, c: nat)
    requires Inv(w) && c in w.classes
    ensures ClassOk(w, c) && ListOk(w, c, w.classes[c].props, w.classes[c].propRoom)
    ensures ListOk(w, c, w.classes[c].methods, w.classes[c].methodRoom)
  {
    hide ListOk, FieldsOk, QualsOk, CountOk;
    assert ClassOk(w, c);
  }

  /** Everything another class is and sees is as before. */
  ghost predicate Untouched(w: World, v: World, d: nat) {
    && d in w.classes && d in v.classes && v.classes[d] == w.classes[d]
    && AllPoint(w, w.classes[d].props) && AllPoint(v, w.classes[d].props)
    && View(v, w.classes[d].props) == View(w, w.classes[d].props)
    && AllPoint(w, w.classes[d].methods) && AllPoint(v, w.classes[d].methods)
    && View(v, w.classes[d].methods) == View(w, w.classes[d].methods)
  }

  lemma {:induction false} KeptIsUntouched(w: World, v: World, d: nat)
    requires Inv(w) && d in w.classes && d in v.classes && v.classes[d] == w.classes[d] && Keeps(w, v, d)
    ensures Untouched(w, v, d)
  {
    hide Inv, ListOk, ClassOk, Keeps, View;
    InvParents(w);
    InvClass(w, d);
    ViewKept(w, v, d, w.classes[d].props, w.classes[d].propRoom);
    ViewKept(w, v, d, w.classes[d].methods, w.classes[d].methodRoom);
  }

  /** Adding an element or a method changes no other class, its parent in particular. */
  lemma {:induction false} AddingTouchesNoOther(w: World, c: nat, s: Spec, d: nat)
    requires Inv(w) && c in w.classes && d in w.classes && d != c
    ensures AllPoint(w, w.classes[c].props) && Untouched(w, AddElement(w, c, s), d)
    ensures AllPoint(w, w.classes[c].methods) && Untouched(w, AddMethod(w, c, s), d)
  {
    hide Inv, ClassOk, Keeps, Untouched, Declared, ListOk, AddElement, AddMethod;
    InvClass(w, c);
    ListPoints(w, c, w.classes[c].props, w.classes[c].propRoom);
    ListPoints(w, c, w.classes[c].methods, w.classes[c].methodRoom);
    var e := Declared(w, c, w.classes[c].props, w.classes[c].size, s);
    var m := Declared(w, c, w.classes[c].methods, 0, s);
    AddElementDeclares(w, AddElement(w, c, s), c, s, e);
    AddMethodDeclares(w, AddMethod(w, c, s), c, s, m);
    DeclaresKeeps(w, AddElement(w, c, s), c, e, d);
    DeclaresKeeps(w, AddMethod(w, c, s), c, m, d);
    KeptIsUntouched(w, AddElement(w, c, s), d);
    KeptIsUntouched(w, AddMethod(w, c, s), d);
  }

  /** A qualifier changes nothing for a class that does not use the element. */
  lemma {:induction false} QualifyingTouchesNoOther(w: World, c: nat, id: Id, q: Qualifier, isTrue: bool, d: nat)
    requires Inv(w) && c in w.classes && Lists(w.classes[c], id) && Points(w, id) && TakesQualifier(At(w, id), q)
    requires d in w.classes && d != id.owner && !Lists(w.classes[d], id)
    ensures Untouched(w, AddQualifier(w, id, q, isTrue), d)
  {
    hide Inv, Qualify, TakesQualifier, ClassOk, ListOk, AllPoint;
    var v, f := AddQualifier(w, id, q, isTrue), Qualify(At(w, id), q, isTrue);
    QualifierReplaces(w, v, c, id, q, isTrue);
    InvClass(w, d);
    ReplacedView(w, v, id, f, d, w.classes[d].props, w.classes[d].propRoom);
    ReplacedView(w, v, id, f, d, w.classes[d].methods, w.classes[d].methodRoom);
  }

  lemma {:induction false} ReplacedView(w: World, v: World, id: Id, f: Element, d: nat, ids: seq<Id>, room: nat)
    requires Replaces(w, v, id, f) && ListOk(w, d, ids, room) && id !in ids
    ensures AllPoint(w, ids) && AllPoint(v, ids) && View(v, ids) == View(w, ids)
  {
    hide ElementOk, SameName;
    ListPoints(w, d, ids, room);
    forall i | 0 <= i < |ids| ensures Points(v, ids[i]) && At(v, ids[i]) == At(w, ids[i]) {
      ReplacedAt(w, v, id, f, ids[i]);
    }
  }

  /**
    Creating a class changes no other one but for the parent's count, and gives the child each
    element at its index.
   */
  lemma {:induction false} NewTouchesNoOther(w: World, v: World, parent: Option<nat>, name: Name, properties: nat,
      methods: nat, d: nat)
    requires Inv(w) && (parent.Some? ==> CanInherit(w, parent.value)) && d in w.classes
    requires v == NewClass(w, parent, name, properties, methods)
    ensures d in v.classes && SameShape(w.classes[d], v.classes[d]) && v.classes[d].own == w.classes[d].own
    ensures AllPoint(w, w.classes[d].props) && AllPoint(v, w.classes[d].props)
    ensures View(v, w.classes[d].props) == View(w, w.classes[d].props)
    ensures AllPoint(w, w.classes[d].methods) && AllPoint(v, w.classes[d].methods)
    ensures View(v, w.classes[d].methods) == View(w, w.classes[d].methods)
  {
    hide Inv, NewClass, CanInherit, ListOk, ClassOk, Keeps, View;
    InvParents(w);
    InvClass(w, d);
    NewKeeps(w, v, parent, name, properties, methods, d);
    NewLive(w, v, parent, name, properties, methods, d);
    ViewKept(w, v, d, w.classes[d].props, w.classes[d].propRoom);
    ViewKept(w, v, d, w.classes[d].methods, w.classes[d].methodRoom);
  }

  lemma {:induction false} NewLive(w: World, v: World, parent: Option<nat>, name: Name, properties: nat, methods: nat,
      d: nat)
    requires (parent.Some? ==> CanInherit(w, parent.value)) && d in w.classes
    requires v == NewClass(w, parent, name, properties, methods)
    ensures d in v.classes && w.next in v.classes
    ensures parent.Some? && w.next !in w.classes ==>
      v.classes[w.next] == Child(w, parent.value, name, properties, methods)
  {
    hide Child;
  }

  /** `id` in `v` is `from` in `w` as a subclass inherits it. */
  ghost predicate InheritedAs(w: World, from: Id, v: World, id: Id) {
    && Points(v, id) && Points(w, from)
    && At(v, id) == At(w, from).(quals := At(v, id).quals, room := At(v, id).room)
    && forall q :: q in At(v, id).quals <==> q in At(w, from).quals && Propagates(q)
  }

  /** A new class has each property and each method of its parent at the parent's index. */
  lemma {:induction false} ChildInheritsByIndex(w: World, v: World, p: nat, name: Name, properties: nat, methods: nat)
    requires Inv(w) && p in w.classes && CanInherit(w, p) && v == NewClass(w, Some(p), name, properties, methods)
    ensures w.next in v.classes
    ensures |v.classes[w.next].props| == |w.classes[p].props| && |v.classes[w.next].methods| == |w.classes[p].methods|
    ensures forall i | 0 <= i < |w.classes[p].props| ::
      InheritedAs(w, w.classes[p].props[i], v, v.classes[w.next].props[i])
    ensures forall i | 0 <= i < |w.classes[p].methods| ::
      InheritedAs(w, w.classes[p].methods[i], v, v.classes[w.next].methods[i])
  {
    hide Inv, NewClass, CanInherit, Child, ClassOk, Keeps, ListOk, Inherited, Propagates, AsInherited, SameShape,
      InheritedAs, QualsOk, FieldsOk;
    NoYoungerParents(w);
    InvNext(w, p);
    NewKeeps(w, v, Some(p), name, properties, methods, p);
    NewLive(w, v, Some(p), name, properties, methods, p);
    ChildOk(w, v, p, name, properties, methods);
    InvClass(w, p);
    forall i | 0 <= i < |w.classes[p].props|
      ensures InheritedAs(w, w.classes[p].props[i], v, v.classes[w.next].props[i])
    {
      AsInheritedIs(w, w.classes[p].props[i], v, v.classes[w.next].props[i]);
    }
    forall i | 0 <= i < |w.classes[p].methods|
      ensures InheritedAs(w, w.classes[p].methods[i], v, v.classes[w.next].methods[i])
    {
      AsInheritedIs(w, w.classes[p].methods[i], v, v.classes[w.next].methods[i]);
    }
  }

  lemma {:induction false} AsInheritedIs(w: World, from: Id, v: World, id: Id)
    requires Points(w, from) && Points(v, id) && At(v, id) == AsInherited(At(w, from))
    ensures InheritedAs(w, from, v, id)
  {
    hide Propagates, AsInherited;
    var e := At(w, from);
    SameFace(e);
    forall q ensures q in AsInherited(e).quals <==> q in e.quals && Propagates(q) { InheritedIsWhatPropagates(e, q); }
  }

  lemma {:induction false} InheritedIsWhatPropagates(e: Element, q: Qualifier)
    ensures q in AsInherited(e).quals <==> q in e.quals && Propagates(q)
  {
    hide Propagates, Inherited;
    InheritedIsFilter(e.quals, q);
  }

  lemma {:induction false} InvNext(w: World, p: nat)
    requires Inv(w) && p in w.classes
    ensures p < w.next
  {
    hide ClassOk, CountOk;
  }
}
