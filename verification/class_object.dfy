/** The class API as code: loops that fill arrays and bump counts, on the classes that exist. */
module ClassObject {
  import opened Naming
  import opened ClassModel
  import opened ClassBuild
  import opened ClassMeaning
  import opened ClassRefs
  import opened ClassRuns

  /** `CanQualifierBePropogated`. */
  method CanBePropagated(q: Qualifier) returns (r: bool)
    ensures r == Propagates(q)
  {
    hide SameName;
    if !q.toSubclass { return false; }
    var names := Restricted();
    var i := 0;
    while i < |names|
      invariant i <= |names| && forall j | 0 <= j < i :: !SameName(q.name, names[j])
    {
      if SameName(q.name, names[i]) { return false; }
      i := i + 1;
    }
    r := true;
  }

  /** The loops that copy the qualifiers a subclass inherits. */
  method PropagateQualifiers(quals: seq<Qualifier>) returns (r: seq<Qualifier>)
    ensures r == Inherited(quals)
  {
    hide Propagates;
    r := [];
    var i := 0;
    while i < |quals|
      invariant i <= |quals| && r == Inherited(quals[..i])
    {
      assert quals[..i + 1][..i] == quals[..i];
      var ok := CanBePropagated(quals[i]);
      if ok { r := r + [quals[i]]; }
      i := i + 1;
    }
    assert quals[..i] == quals;
  }

  /** All classes of the process. */
  class Classes {
    var classes: map<nat, Class>
    var next: nat

    /** The handles that clients hold; the code does not keep them. */
    ghost var handles: map<nat, nat>

    ghost function Now(): World
      reads this
    {
      World(classes, handles, next)
    }

    constructor ()
      ensures Now() == START
    {
      classes, next, handles := map[], 0, map[];
    }

    /** What a pointer points to. */
    function Get(id: Id): Element
      requires Points(Now(), id)
      reads this
    {
      classes[id.owner].own[id.k]
    }

    /** The loop over the elements of the parent, sharing or copying each. */
    method InheritList(ids: seq<Id>, c: nat, own: seq<Element>) returns (r: seq<Id>, made: seq<Element>)
      requires AllPoint(Now(), ids)
      ensures (r, made) == Inherit(Now(), ids, c, own)
    {
      hide Inherited;
      r, made := [], own;
      var i := 0;
      while i < |ids|
        invariant i <= |ids| && (r, made) == Inherit(Now(), ids[..i], c, own)
      {
        assert ids[..i + 1][..i] == ids[..i];
        var e := Get(ids[i]);
        if e.quals == [] {
          r := r + [ids[i]];
        } else {
          var quals := PropagateQualifiers(e.quals);
          r := r + [Id(c, |made|)];
          made := made + [e.(quals := quals, room := |e.quals|)];
        }
        i := i + 1;
      }
      assert ids[..i] == ids;
    }

    /** `ClassConstructor_New`: the parent gains a reference and nothing else. */
    method New(parent: Option<nat>, name: Name, properties: nat, methods: nat) returns (c: nat)
      requires Inv(Now()) && CanDo(Now(), NewOp(parent, name, properties, methods))
      modifies this
      ensures Inv(Now()) && Now() == Do(old(Now()), NewOp(parent, name, properties, methods)) && c == old(next)
    {
      hide Inv, CanDo, Inherit, CanInherit, Inherited, Child, AllPoint;
      ghost var w := Now();
      StepKeepsInv(w, NewOp(parent, name, properties, methods));
      NewIsUsable(w, parent, name, properties, methods);
      c := next;
      if parent.None? {
        classes := classes[c := Class(name, None, HEADER, [], properties, [], methods, [], [], 1)];
      } else {
        InheritableParts(w, parent.value);
        var p := classes[parent.value];
        var props, made := InheritList(p.props, c, []);
        var meths, own := InheritList(p.methods, c, made);
        var quals := PropagateQualifiers(p.quals);
        ChildIs(w, parent.value, name, properties, methods);
        classes := classes[parent.value := p.(refs := p.refs + 1)];
        classes := classes[c := Class(name, parent, p.size, props, properties + |p.props|, meths, methods + |p.methods|,
          quals, own, 1)];
      }
      handles := handles[c := 1];
      next := next + 1;
    }

    /** The search for an element to override. */
    method FindElement(ids: seq<Id>, name: Name) returns (i: nat)
      requires AllPoint(Now(), ids)
      ensures i == Find(Now(), ids, name)
    {
      hide SameName, Find;
      i := 0;
      while i < |ids|
        invariant i <= |ids| && forall j | 0 <= j < i :: !SameName(name, At(Now(), ids[j]).name)
      {
        if SameName(name, Get(ids[i]).name) { break; }
        i := i + 1;
      }
      FindIsFirst(Now(), ids, name, i);
    }

    /** `_AddElement`. */
    method AddElement(c: nat, s: Spec) returns (elementId: nat)
      requires Inv(Now()) && CanDo(Now(), ElementOp(c, s))
      modifies this
      ensures Inv(Now()) && Now() == Do(old(Now()), ElementOp(c, s))
      ensures c in classes && PutAsAsked(old(Now()), c, old(classes[c].props), elementId, Now(), classes[c].props, s)
    {
      hide Inv, HasRoom, Find, SameName, Hash, Inherited, AllPoint, PutAsAsked;
      StepKeepsInv(Now(), ElementOp(c, s));
      ElementIsAsAsked(Now(), c, s);
      var k := classes[c];
      elementId := FindElement(k.props, s.name);
      var e;
      if elementId < |k.props| {
        PointerAt(Now(), k.props, elementId);
        var o := Get(k.props[elementId]);
        var quals := PropagateQualifiers(o.quals);
        e := Element(s.name, Hash(s.name), s.key || o.key, s.readOnly || o.readOnly, s.t, k.size, o.origin,
          quals, s.qualifiers + |o.quals|);
      } else {
        e := Element(s.name, Hash(s.name), s.key, s.readOnly, s.t, k.size,
          if s.origin.Some? then s.origin.value else k.name, [], s.qualifiers);
      }
      var props := Put(k.props, elementId, Id(c, |k.own|));
      classes := classes[c := k.(props := props, own := k.own + [e], size := k.size + FIELD)];
    }

    /** `Class_AddMethod`. */
    method AddMethod(c: nat, s: Spec) returns (methodId: nat)
      requires Inv(Now()) && CanDo(Now(), MethodOp(c, s))
      modifies this
      ensures Inv(Now()) && Now() == Do(old(Now()), MethodOp(c, s))
      ensures c in classes && PutAsAsked(old(Now()), c, old(classes[c].methods), methodId, Now(), classes[c].methods, s)
    {
      hide Inv, HasRoom, Find, SameName, Hash, Inherited, AllPoint, PutAsAsked;
      StepKeepsInv(Now(), MethodOp(c, s));
      MethodIsAsAsked(Now(), c, s);
      var k := classes[c];
      methodId := FindElement(k.methods, s.name);
      var e;
      if methodId < |k.methods| {
        PointerAt(Now(), k.methods, methodId);
        var o := Get(k.methods[methodId]);
        var quals := PropagateQualifiers(o.quals);
        e := Element(s.name, Hash(s.name), s.key || o.key, s.readOnly || o.readOnly, s.t, 0, o.origin,
          quals, s.qualifiers + |o.quals|);
      } else {
        e := Element(s.name, Hash(s.name), s.key, s.readOnly, s.t, 0,
          if s.origin.Some? then s.origin.value else k.name, [], s.qualifiers);
      }
      var methods := Put(k.methods, methodId, Id(c, |k.own|));
      classes := classes[c := k.(methods := methods, own := k.own + [e])];
    }

    /** Writing the declaration back, and what that does to the invariant. */
    method Redeclare(c: nat, id: Id, f: Element, q: Qualifier, isTrue: bool)
      requires Inv(Now()) && CanQualify(Now(), c, id, q) && f == Qualify(At(Now(), id), q, isTrue)
      modifies this
      ensures Now() == AddQualifier(old(Now()), id, q, isTrue)
      ensures Inv(Now()) <==> Harmless(old(Now()), id, q)
    {
      hide Inv, Qualify, TakesQualifier, Harmless, Lists;
      AddQualifierKeepsInv(Now(), c, id, q, isTrue);
      var k := classes[id.owner];
      classes := classes[id.owner := k.(own := k.own[id.k := f])];
    }

    /** `_AddElementQualifier`: accepted whether or not another class that lists the element may see it. */
    method AddElementQualifier(c: nat, elementIndex: nat, q: Qualifier, isTrue: bool) returns (qualifierIndex: nat)
      requires Inv(Now()) && c in classes && elementIndex < |classes[c].props|
      requires CanQualify(Now(), c, classes[c].props[elementIndex], q)
      modifies this
      ensures Now() == AddQualifier(old(Now()), old(classes[c].props[elementIndex]), q, isTrue)
      ensures Inv(Now()) <==> Harmless(old(Now()), old(classes[c].props[elementIndex]), q)
      ensures qualifierIndex == FindQualifier(old(At(Now(), classes[c].props[elementIndex])).quals, q.name)
    {
      hide Inv, SameName, TakesQualifier, Harmless, FindQualifier, Lists;
      var id := classes[c].props[elementIndex];
      var e := classes[id.owner].own[id.k];
      qualifierIndex := FindQual(e.quals, q.name);
      var quals := if qualifierIndex < |e.quals| then e.quals[qualifierIndex := q] else e.quals + [q];
      var f := e;
      if isTrue {
        if SameName(q.name, KEY) {
          f := f.(key := true);
        } else if SameName(q.name, READ) {
          var found := FindQual(quals[..|e.quals|], WRITE);
          if found == |e.quals| { f := f.(readOnly := true); }
        } else if SameName(q.name, WRITE) {
          f := f.(readOnly := false);
        }
      }
      Redeclare(c, id, f.(quals := quals), q, isTrue);
    }

    /** `_AddMethodQualifier`. */
    method AddMethodQualifier(c: nat, methodIndex: nat, q: Qualifier) returns (qualifierIndex: nat)
      requires Inv(Now()) && c in classes && methodIndex < |classes[c].methods|
      requires CanQualify(Now(), c, classes[c].methods[methodIndex], q)
      modifies this
      ensures Now() == AddQualifier(old(Now()), old(classes[c].methods[methodIndex]), q, false)
      ensures Inv(Now()) <==> Harmless(old(Now()), old(classes[c].methods[methodIndex]), q)
      ensures qualifierIndex == FindQualifier(old(At(Now(), classes[c].methods[methodIndex])).quals, q.name)
    {
      hide Inv, SameName, TakesQualifier, Harmless, FindQualifier, Lists;
      var id := classes[c].methods[methodIndex];
      var e := classes[id.owner].own[id.k];
      qualifierIndex := FindQual(e.quals, q.name);
      var quals := if qualifierIndex < |e.quals| then e.quals[qualifierIndex := q] else e.quals + [q];
      Redeclare(c, id, e.(quals := quals), q, false);
    }

    /** `Class_Clone`. */
    method Clone(c: nat)
      requires Inv(Now()) && CanDo(Now(), CloneOp(c))
      modifies this
      ensures Inv(Now()) && Now() == Do(old(Now()), CloneOp(c))
    {
      hide Inv;
      StepKeepsInv(Now(), CloneOp(c));
      HeldIsUsable(Now(), c);
      var k := classes[c];
      classes := classes[c := k.(refs := k.refs + 1)];
      handles := handles[c := Handles(Now(), c) + 1];
    }

    /**
      The body of `Class_Delete`, which calls itself for the parent before it frees the class.  Every
      parent is older than its subclass, so the calls end; see `ClassFrames.ParentsOk`.
     */
    method Drop(c: nat)
      modifies this
      ensures Now() == Release(old(Now()), c)
      decreases c
    {
      if c in classes && classes[c].refs != 0 {
        var k := classes[c];
        if k.refs - 1 == 0 {
          if k.parent.Some? && k.parent.value < c { Drop(k.parent.value); }
          classes := classes - {c};
        } else {
          classes := classes[c := k.(refs := k.refs - 1)];
        }
      }
    }

    /** `Class_Delete` by a client. */
    method Delete(c: nat)
      requires Inv(Now()) && CanDo(Now(), DeleteOp(c))
      modifies this
      ensures Inv(Now()) && Now() == Do(old(Now()), DeleteOp(c))
    {
      hide Inv, Release;
      StepKeepsInv(Now(), DeleteOp(c));
      handles := handles[c := Handles(Now(), c) - 1];
      Drop(c);
    }
  }

  /** The search for a qualifier of the same name. */
  method FindQual(quals: seq<Qualifier>, name: Name) returns (i: nat)
    ensures i == FindQualifier(quals, name) && i <= |quals|
  {
    hide SameName, FindQualifier;
    i := 0;
    while i < |quals|
      invariant i <= |quals| && forall j | 0 <= j < i :: !SameName(name, quals[j].name)
    {
      if SameName(name, quals[i].name) { break; }
      i := i + 1;
    }
    assert !(i < FindQualifier(quals, name)) && !(FindQualifier(quals, name) < i);
  }

  lemma {:induction false} FindIsFirst(w: World, ids: seq<Id>, name: Name, i: nat)
    requires AllPoint(w, ids) && i <= |ids| && (i < |ids| ==> SameName(name, At(w, ids[i]).name))
    requires forall j | 0 <= j < i :: !SameName(name, At(w, ids[j]).name)
    ensures i == Find(w, ids, name)
  {
    hide SameName, Find;
    assert !(i < Find(w, ids, name)) && !(Find(w, ids, name) < i);
  }

  lemma {:induction false} PointerAt(w: World, ids: seq<Id>, i: nat)
    requires AllPoint(w, ids) && i < |ids|
    ensures Points(w, ids[i])
  {
  }

  lemma {:induction false} NewIsUsable(w: World, parent: Option<nat>, name: Name, properties: nat, methods: nat)
    requires Inv(w) && CanDo(w, NewOp(parent, name, properties, methods))
    ensures parent.Some? ==> CanInherit(w, parent.value)
  {
    hide Inv, CanInherit;
    if parent.Some? { HeldIsUsable(w, parent.value); }
  }

  lemma {:induction false} InheritableParts(w: World, p: nat)
    requires CanInherit(w, p)
    ensures p in w.classes && AllPoint(w, w.classes[p].props) && AllPoint(w, w.classes[p].methods)
  {
  }

  lemma {:induction false} ChildIs(w: World, p: nat, name: Name, properties: nat, methods: nat)
    requires CanInherit(w, p)
    ensures var k := w.classes[p];
      var props := Inherit(w, k.props, w.next, []);
      var meths := Inherit(w, k.methods, w.next, props.1);
      Child(w, p, name, properties, methods)
      == Class(name, Some(p), k.size, props.0, properties + |k.props|, meths.0, methods + |k.methods|,
        Inherited(k.quals), meths.1, 1)
  {
  }
}
