/** What a client finds after each call of the class API, in terms of what it asked for and what was there before. */
module ClassMeaning {
  import opened Naming
  import opened ClassModel
  import opened ClassFrames
  import opened ClassBuild

  // ---------------------------------------------------------------------------------------
  // New elements and methods
  // ---------------------------------------------------------------------------------------

  /** An element of that name was in the list. */
  predicate Had(w: World, ids: seq<Id>, i: nat) { i < |ids| && Points(w, ids[i]) }

  /**
    Declaration `id` of `v` is what a caller asked for by `s`, index `i` of the list `ids` of class
    `c` in `w` being the one it was put at.
   */
  ghost predicate AsAsked(w: World, c: nat, ids: seq<Id>, i: nat, v: World, id: Id, s: Spec) {
    && c in w.classes && Points(v, id) && id.owner == c
    && var e := At(v, id);
    && e.name == s.name && e.code == Hash(s.name) && e.t == s.t
    && (e.key <==> s.key || (Had(w, ids, i) && At(w, ids[i]).key))
    && (e.readOnly <==> s.readOnly || (Had(w, ids, i) && At(w, ids[i]).readOnly))
    && (Had(w, ids, i) ==> e.origin == At(w, ids[i]).origin)
    && (!Had(w, ids, i) && s.origin.Some? ==> e.origin == s.origin.value)
    && (!Had(w, ids, i) && s.origin.None? ==> e.origin == w.classes[c].name)
    && (forall q :: q in e.quals <==> Had(w, ids, i) && q in At(w, ids[i]).quals && Propagates(q))
    && e.room == s.qualifiers + if Had(w, ids, i) then |At(w, ids[i]).quals| else 0
  }

  /** Index `i` is that of the element of the name, or the end of the list if there is none. */
  ghost predicate Position(w: World, ids: seq<Id>, name: Name, i: nat) {
    && AllPoint(w, ids) && i <= |ids|
    && (i < |ids| ==> SameName(name, At(w, ids[i]).name))
    && forall j | 0 <= j < i :: !SameName(name, At(w, ids[j]).name)
  }

  /** The list `r` is `ids` with one entry replaced, or one more at its end. */
  predicate Replaced(ids: seq<Id>, r: seq<Id>, i: nat) {
    && i <= |ids| && |r| == (if i < |ids| then |ids| else |ids| + 1)
    && forall j | 0 <= j < |ids| && j != i :: r[j] == ids[j]
  }

  lemma {:induction false} DeclaredIsAsAsked(w: World, c: nat, ids: seq<Id>, v: World, id: Id, s: Spec, offset: nat)
    requires c in w.classes && AllPoint(w, ids) && Points(v, id) && id.owner == c
    requires At(v, id) == Declared(w, c, ids, offset, s)
    ensures AsAsked(w, c, ids, Find(w, ids, s.name), v, id, s) && At(v, id).offset == offset
  {
    hide Hash, Inherited, Propagates, Find, SameName;
    var i := Find(w, ids, s.name);
    if i < |ids| {
      forall q ensures q in Inherited(At(w, ids[i]).quals) <==> q in At(w, ids[i]).quals && Propagates(q) {
        InheritedIsFilter(At(w, ids[i]).quals, q);
      }
    }
  }

  /** Both at once, for class `c` and its list `ids` before and `r` after. */
  ghost predicate PutAsAsked(w: World, c: nat, ids: seq<Id>, i: nat, v: World, r: seq<Id>, s: Spec) {
    Position(w, ids, s.name, i) && Replaced(ids, r, i) && AsAsked(w, c, ids, i, v, r[i], s)
  }

  /**
    After `_AddElement` the class lists, at the index returned, a declaration as the caller asked
    for, joined with the one it overrides; it has the next field of the instance.
   */
  lemma {:induction false} ElementIsAsAsked(w: World, c: nat, s: Spec)
    requires c in w.classes && AllPoint(w, w.classes[c].props)
    ensures var v, i := AddElement(w, c, s), Find(w, w.classes[c].props, s.name);
      && c in v.classes && PutAsAsked(w, c, w.classes[c].props, i, v, v.classes[c].props, s)
      && At(v, v.classes[c].props[i]).offset == w.classes[c].size && v.classes[c].size == w.classes[c].size + FIELD
      && v.classes[c].methods == w.classes[c].methods
  {
    hide AsAsked, Find, Declare, SameName;
    var v, k := AddElement(w, c, s), w.classes[c];
    var e := Declared(w, c, k.props, k.size, s);
    AddElementDeclares(w, v, c, s, e);
    DeclaredIsAsAsked(w, c, k.props, v, Id(c, |k.own|), s, k.size);
  }

  /** The same for `Class_AddMethod`, which takes no field. */
  lemma {:induction false} MethodIsAsAsked(w: World, c: nat, s: Spec)
    requires c in w.classes && AllPoint(w, w.classes[c].methods)
    ensures var v, i := AddMethod(w, c, s), Find(w, w.classes[c].methods, s.name);
      && c in v.classes && PutAsAsked(w, c, w.classes[c].methods, i, v, v.classes[c].methods, s)
      && v.classes[c].size == w.classes[c].size && v.classes[c].props == w.classes[c].props
  {
    hide AsAsked, Find, Declare, SameName;
    var v, k := AddMethod(w, c, s), w.classes[c];
    var e := Declared(w, c, k.methods, 0, s);
    AddMethodDeclares(w, v, c, s, e);
    DeclaredIsAsAsked(w, c, k.methods, v, Id(c, |k.own|), s, 0);
  }

  // ---------------------------------------------------------------------------------------
  // Qualifiers
  // ---------------------------------------------------------------------------------------

  predicate Named(quals: seq<Qualifier>, name: Name) { exists i | 0 <= i < |quals| :: SameName(name, quals[i].name) }

  /** The qualifier `q` is at index `i` of `r`, the first of its name; everything else is as in `quals`. */
  predicate QualifierPut(quals: seq<Qualifier>, r: seq<Qualifier>, i: nat, q: Qualifier) {
    && i < |r| && r[i] == q
    && |r| == (if i < |quals| then |quals| else i + 1) && i <= |quals|
    && (forall j | 0 <= j < |quals| && j != i :: r[j] == quals[j])
    && (i < |quals| ==> SameName(q.name, quals[i].name))
    && (forall j | 0 <= j < i :: !SameName(q.name, quals[j].name))
  }

  /** What `_AddElementQualifier` makes of declaration `e`. */
  ghost predicate Qualified(e: Element, f: Element, i: nat, q: Qualifier, isTrue: bool) {
    && f == e.(key := f.key, readOnly := f.readOnly, quals := f.quals) && QualifierPut(e.quals, f.quals, i, q)
    && (f.key <==> e.key || (isTrue && SameName(q.name, KEY)))
    && (isTrue && SameName(q.name, WRITE) ==> !f.readOnly)
    && (isTrue && SameName(q.name, READ) ==> (f.readOnly <==> e.readOnly || !Named(e.quals, WRITE)))
    && (!isTrue || !(SameName(q.name, READ) || SameName(q.name, WRITE)) ==> f.readOnly == e.readOnly)
  }

  lemma {:induction false} ReservedNamesDiffer(name: Name)
    ensures !(SameName(name, KEY) && SameName(name, READ))
    ensures !(SameName(name, KEY) && SameName(name, WRITE))
    ensures !(SameName(name, READ) && SameName(name, WRITE))
  {
  }

  /** Replacing a qualifier by one of the same name does not change which names there are. */
  lemma {:induction false} NamesStay(quals: seq<Qualifier>, i: nat, q: Qualifier, name: Name)
    requires i < |quals| && SameName(q.name, quals[i].name)
    ensures Named(quals[i := q], name) <==> Named(quals, name)
  {
    hide SameName;
    SameNameIsEquivalence(name, q.name, quals[i].name);
    SameNameIsEquivalence(q.name, quals[i].name, q.name);
    SameNameIsEquivalence(name, quals[i].name, q.name);
    var r := quals[i := q];
    if j :| 0 <= j < |quals| && SameName(name, quals[j].name) { assert j == i || r[j] == quals[j]; assert r[i] == q; }
    if j :| 0 <= j < |r| && SameName(name, r[j].name) { assert j == i || r[j] == quals[j]; }
  }

  lemma {:induction false} NotFoundIsNotNamed(quals: seq<Qualifier>, name: Name)
    ensures FindQualifier(quals, name) == |quals| <==> !Named(quals, name)
  {
    hide SameName;
  }

  lemma {:induction false} QualifyMeans(e: Element, q: Qualifier, isTrue: bool)
    ensures Qualified(e, Qualify(e, q, isTrue), FindQualifier(e.quals, q.name), q, isTrue)
  {
    hide SameName, FindQualifier, Named;
    ReservedNamesDiffer(q.name);
    var i := FindQualifier(e.quals, q.name);
    var quals := if i < |e.quals| then e.quals[i := q] else e.quals + [q];
    NotFoundIsNotNamed(quals[..|e.quals|], WRITE);
    if i < |e.quals| {
      assert quals[..|e.quals|] == e.quals[i := q];
      NamesStay(e.quals, i, q, WRITE);
    } else {
      assert quals[..|e.quals|] == e.quals;
    }
  }

  /** `_AddElementQualifier` changes the one declaration, in the qualifier of the name and the two flags. */
  lemma {:induction false} QualifierIsAsAsked(w: World, id: Id, q: Qualifier, isTrue: bool)
    requires Points(w, id)
    ensures var v := AddQualifier(w, id, q, isTrue);
      && Points(v, id) && Qualified(At(w, id), At(v, id), FindQualifier(At(w, id).quals, q.name), q, isTrue)
      && (forall other | Points(w, other) && other != id :: Points(v, other) && At(v, other) == At(w, other))
  {
    hide Qualified, Qualify, FindQualifier;
    QualifyMeans(At(w, id), q, isTrue);
  }

  // ---------------------------------------------------------------------------------------
  // New classes, and what they inherit
  // ---------------------------------------------------------------------------------------

  /** What is inherited keeps its order. */
  lemma {:induction false} InheritedKeepsOrder(a: seq<Qualifier>, b: seq<Qualifier>)
    ensures Inherited(a + b) == Inherited(a) + Inherited(b)
    decreases |b|
  {
    hide Inherited, Propagates;
    NothingInherited();
    if b == [] {
      assert a + b == a;
    } else {
      var front, q := b[..|b| - 1], b[|b| - 1];
      InheritedKeepsOrder(a, front);
      InheritedSnoc(front, q);
      InheritedSnoc(a + front, q);
      assert b == front + [q] && a + b == a + front + [q];
    }
  }

  lemma {:induction false} NothingInherited()
    ensures Inherited([]) == []
  {
  }

  lemma {:induction false} InheritedSnoc(quals: seq<Qualifier>, q: Qualifier)
    ensures Inherited(quals + [q]) == Inherited(quals) + if Propagates(q) then [q] else []
  {
    hide Propagates;
    assert (quals + [q])[..|quals|] == quals;
  }

  lemma {:induction false} InheritedOne(q: Qualifier)
    ensures Inherited([q]) == if Propagates(q) then [q] else []
  {
    hide Propagates;
    assert [q][..0] == [];
  }

  /**
    A new class has the name, the parent and the room it was asked for, and one handle; without a
    parent it has nothing else, and with one it has the parent's size, as many elements, and
    exactly its qualifiers that propagate.
   */
  lemma {:induction false} ClassIsAsAsked(w: World, parent: Option<nat>, name: Name, properties: nat, methods: nat)
    requires parent.Some? ==> CanInherit(w, parent.value)
    ensures var v, c := NewClass(w, parent, name, properties, methods), w.next;
      && v.next == c + 1 && Handles(v, c) == 1 && c in v.classes
      && v.classes[c].name == name && v.classes[c].parent == parent && v.classes[c].refs == 1
      && v.classes[c].propRoom == properties + |v.classes[c].props|
      && v.classes[c].methodRoom == methods + |v.classes[c].methods|
    ensures var k := NewClass(w, parent, name, properties, methods).classes[w.next];
      parent.None? ==> k.size == HEADER && k.props == [] && k.methods == [] && k.quals == [] && k.own == []
    ensures var k := NewClass(w, parent, name, properties, methods).classes[w.next];
      parent.Some? ==>
        && k.size == w.classes[parent.value].size && |k.props| == |w.classes[parent.value].props|
        && |k.methods| == |w.classes[parent.value].methods|
        && forall q :: q in k.quals <==> q in w.classes[parent.value].quals && Propagates(q)
  {
    hide Inherit, Inherited, Propagates;
    if parent.Some? {
      forall q {
        InheritedIsFilter(w.classes[parent.value].quals, q);
      }
    }
  }

  // ---------------------------------------------------------------------------------------
  // The names that the code knows
  // ---------------------------------------------------------------------------------------

  predicate Spelled(name: Name, text: string) {
    |name| == |text| && forall i | 0 <= i < |name| :: name[i] as char == text[i]
  }

  /** The qualifiers that set flags. */
  lemma {:induction false} FlagNames()
    ensures Spelled(KEY, "key") && Spelled(READ, "read") && Spelled(WRITE, "write")
  {
  }

  /** The qualifiers that are never inherited. */
  lemma {:induction false} RestrictedNames()
    ensures |Restricted()| == 6
    ensures Spelled(Restricted()[0], "Abstract") && Spelled(Restricted()[1], "Deprecated")
    ensures Spelled(Restricted()[2], "Experimental") && Spelled(Restricted()[3], "Override")
    ensures Spelled(Restricted()[4], "Version") && Spelled(Restricted()[5], "ClassVersion")
  {
  }
}
