/**
  Classes built through the class API.  Each class owns the memory of the declarations it made and
  borrows those of its ancestors; an identifier (owner, k) is a pointer to the k-th declaration in
  the memory of `owner`, which dangles once that class is freed.
 */
module ClassModel {
  import opened Memory
  import opened Naming
  import Bits

  datatype Option<T> = None | Some(value: T)

  /** `sizeof(MI_Instance)` and `sizeof(Field)`. */
  const HEADER: nat := 64
  const FIELD: nat := 40

  datatype Qualifier = Qualifier(owner: nat, name: Name, toSubclass: bool)

  datatype Element = Element(
    name: Name, code: Bits.Word, key: bool, readOnly: bool, t: nat, offset: nat, origin: Name,
    quals: seq<Qualifier>, room: nat)

  datatype Id = Id(owner: nat, k: nat)

  datatype Class = Class(
    name: Name, parent: Option<nat>, size: nat,
    props: seq<Id>, propRoom: nat, methods: seq<Id>, methodRoom: nat, quals: seq<Qualifier>,
    own: seq<Element>, refs: nat)

  /** The live classes, the handles that clients hold, and the next address. */
  datatype World = World(classes: map<nat, Class>, handles: map<nat, nat>, next: nat)

  // ---------------------------------------------------------------------------------------
  // Qualifiers
  // ---------------------------------------------------------------------------------------

  /** Abstract, Deprecated, Experimental, Override, Version, ClassVersion. */
  function Restricted(): seq<Name> {
    [[65, 98, 115, 116, 114, 97, 99, 116],
     [68, 101, 112, 114, 101, 99, 97, 116, 101, 100],
     [69, 120, 112, 101, 114, 105, 109, 101, 110, 116, 97, 108],
     [79, 118, 101, 114, 114, 105, 100, 101],
     [86, 101, 114, 115, 105, 111, 110],
     [67, 108, 97, 115, 115, 86, 101, 114, 115, 105, 111, 110]]
  }

  predicate IsRestricted(name: Name) {
    exists i | 0 <= i < |Restricted()| :: SameName(name, Restricted()[i])
  }

  predicate Propagates(q: Qualifier) { q.toSubclass && !IsRestricted(q.name) }

  /** The qualifiers that a subclass inherits, in order. */
  function Inherited(quals: seq<Qualifier>): (r: seq<Qualifier>)
    ensures |r| <= |quals|
  {
    if quals == [] then []
    else
      var rest := Inherited(quals[..|quals| - 1]);
      if Propagates(quals[|quals| - 1]) then rest + [quals[|quals| - 1]] else rest
  }

  /** Exactly the qualifiers that propagate. */
  lemma {:induction false} InheritedIsFilter(quals: seq<Qualifier>, q: Qualifier)
    ensures q in Inherited(quals) <==> q in quals && Propagates(q)
  {
    hide Propagates;
    if quals != [] {
      InheritedIsFilter(quals[..|quals| - 1], q);
      assert quals == quals[..|quals| - 1] + [quals[|quals| - 1]];
    }
  }

  // ---------------------------------------------------------------------------------------
  // Pointers
  // ---------------------------------------------------------------------------------------

  predicate Points(w: World, id: Id) { id.owner in w.classes && id.k < |w.classes[id.owner].own| }

  function At(w: World, id: Id): Element
    requires Points(w, id)
  {
    w.classes[id.owner].own[id.k]
  }

  ghost predicate AllPoint(w: World, ids: seq<Id>) { forall i | 0 <= i < |ids| :: Points(w, ids[i]) }

  /** `a` is `c` or one of its ancestors; parents are older. */
  ghost predicate IsAncestor(w: World, a: nat, c: nat)
    decreases c
  {
    a == c || (c in w.classes && w.classes[c].parent.Some? && w.classes[c].parent.value < c
      && IsAncestor(w, a, w.classes[c].parent.value))
  }

  // ---------------------------------------------------------------------------------------
  // What is true of one class
  // ---------------------------------------------------------------------------------------

  /**
    A list of elements: all alive, owned by the class or an ancestor, with distinct names; inherited
    qualifiers propagate.
   */
  ghost predicate ListOk(w: World, c: nat, ids: seq<Id>, room: nat) {
    && |ids| <= room
    && (forall i | 0 <= i < |ids| :: ElementOk(w, c, ids[i]))
    && (forall i, j | 0 <= i < j < |ids| ::
      Points(w, ids[i]) && Points(w, ids[j]) && !SameName(At(w, ids[i]).name, At(w, ids[j]).name))
  }

  ghost predicate ElementOk(w: World, c: nat, id: Id) {
    && Points(w, id) && IsAncestor(w, id.owner, c)
    && At(w, id).code == Hash(At(w, id).name)
    && |At(w, id).quals| <= At(w, id).room
    && QualsOk(w, c, At(w, id).quals)
  }

  ghost predicate QualsOk(w: World, c: nat, quals: seq<Qualifier>) {
    forall i | 0 <= i < |quals| :: IsAncestor(w, quals[i].owner, c) && (quals[i].owner != c ==> Propagates(quals[i]))
  }

  /** Every field lies in the instance, apart from the others. */
  ghost predicate FieldsOk(w: World, ids: seq<Id>, size: nat)
    requires AllPoint(w, ids)
  {
    && HEADER <= size
    && (forall i | 0 <= i < |ids| :: HEADER <= At(w, ids[i]).offset && At(w, ids[i]).offset + FIELD <= size)
    && (forall i, j | 0 <= i < j < |ids| ::
      At(w, ids[i]).offset + FIELD <= At(w, ids[j]).offset || At(w, ids[j]).offset + FIELD <= At(w, ids[i]).offset)
  }

  ghost predicate ClassOk(w: World, c: nat)
    requires c in w.classes
  {
    var k := w.classes[c];
    && (k.parent.Some? ==> k.parent.value < c && k.parent.value in w.classes)
    && ListOk(w, c, k.props, k.propRoom) && ListOk(w, c, k.methods, k.methodRoom)
    && AllPoint(w, k.props) && FieldsOk(w, k.props, k.size)
    && QualsOk(w, c, k.quals)
  }

  /** Whether a class uses the declaration. */
  predicate Lists(k: Class, id: Id) { id in k.props || id in k.methods }

  // ---------------------------------------------------------------------------------------
  // Reference counts
  // ---------------------------------------------------------------------------------------

  ghost function Subclasses(w: World, c: nat): set<nat> {
    set d | d in w.classes && w.classes[d].parent == Some(c)
  }

  function Handles(w: World, c: nat): nat { if c in w.handles then w.handles[c] else 0 }

  ghost predicate CountOk(w: World, c: nat)
    requires c in w.classes
  {
    w.classes[c].refs == Handles(w, c) + |Subclasses(w, c)| && w.classes[c].refs > 0
  }

  /** What every reachable world satisfies. */
  ghost predicate Inv(w: World) {
    && (forall c | c in w.classes :: c < w.next && ClassOk(w, c) && CountOk(w, c))
    && (forall c | c in w.handles && w.handles[c] > 0 :: c in w.classes)
  }

  // ---------------------------------------------------------------------------------------
  // Creating a class
  // ---------------------------------------------------------------------------------------

  /** An inherited element: the parent's own if it has no qualifiers, else a copy with those that propagate. */
  function CopyFor(e: Element): Element { e.(quals := Inherited(e.quals), room := |e.quals|) }

  /** The list a new class `c` starts with, and the declarations it had to make for it after those in `own`. */
  function Inherit(w: World, ids: seq<Id>, c: nat, own: seq<Element>): (r: (seq<Id>, seq<Element>))
    requires AllPoint(w, ids)
    ensures |r.0| == |ids| && own <= r.1
  {
    if ids == [] then ([], own)
    else
      var n := |ids| - 1;
      var (front, made) := Inherit(w, ids[..n], c, own);
      var e := At(w, ids[n]);
      if e.quals == [] then (front + [ids[n]], made) else (front + [Id(c, |made|)], made + [CopyFor(e)])
  }

  ghost predicate CanInherit(w: World, p: nat) {
    p in w.classes && AllPoint(w, w.classes[p].props) && AllPoint(w, w.classes[p].methods)
  }

  /** `ClassConstructor_New`. */
  ghost function NewClass(w: World, parent: Option<nat>, name: Name, properties: nat, methods: nat): World
    requires parent.Some? ==> CanInherit(w, parent.value)
  {
    var c := w.next;
    if parent.None? then
      World(w.classes[c := Class(name, None, HEADER, [], properties, [], methods, [], [], 1)], w.handles[c := 1], c + 1)
    else
      var p := w.classes[parent.value];
      World(w.classes[parent.value := p.(refs := p.refs + 1)][c := Child(w, parent.value, name, properties, methods)],
        w.handles[c := 1], c + 1)
  }

  ghost function Child(w: World, p: nat, name: Name, properties: nat, methods: nat): Class
    requires CanInherit(w, p)
  {
    var k := w.classes[p];
    var (props, made) := Inherit(w, k.props, w.next, []);
    var (meths, own) := Inherit(w, k.methods, w.next, made);
    Class(name, Some(p), k.size, props, properties + |k.props|, meths, methods + |k.methods|,
      Inherited(k.quals), own, 1)
  }

  // ---------------------------------------------------------------------------------------
  // Adding elements
  // ---------------------------------------------------------------------------------------

  /** The first element of that name, or the length of the list. */
  function Find(w: World, ids: seq<Id>, name: Name): (r: nat)
    requires AllPoint(w, ids)
    ensures r <= |ids| && (r < |ids| ==> SameName(name, At(w, ids[r]).name))
    ensures forall i | 0 <= i < r :: !SameName(name, At(w, ids[i]).name)
  {
    if ids == [] then 0
    else if SameName(name, At(w, ids[0]).name) then 0
    else 1 + Find(w, ids[1..], name)
  }

  /** What a caller says about a new element. */
  datatype Spec = Spec(name: Name, key: bool, readOnly: bool, t: nat, origin: Option<Name>, qualifiers: nat)

  /** A new declaration; one that overrides keeps the origin, the key and read-only flags, and what propagates. */
  function Declare(s: Spec, className: Name, offset: nat, overridden: Option<Element>): Element {
    match overridden
    case None =>
      Element(s.name, Hash(s.name), s.key, s.readOnly, s.t, offset,
        if s.origin.Some? then s.origin.value else className, [], s.qualifiers)
    case Some(o) =>
      Element(s.name, Hash(s.name), s.key || o.key, s.readOnly || o.readOnly, s.t, offset, o.origin,
        Inherited(o.quals), s.qualifiers + |o.quals|)
  }

  /** Whether the element overrides, or there is a slot left. */
  ghost predicate HasRoom(w: World, ids: seq<Id>, room: nat, name: Name)
    requires AllPoint(w, ids)
  {
    Find(w, ids, name) < |ids| || |ids| < room
  }

  function Overridden(w: World, ids: seq<Id>, i: nat): Option<Element>
    requires AllPoint(w, ids)
  {
    if i < |ids| then Some(At(w, ids[i])) else None
  }

  function Put(ids: seq<Id>, i: nat, id: Id): seq<Id>
    requires i <= |ids|
  {
    if i < |ids| then ids[i := id] else ids + [id]
  }

  /** `_AddElement`. */
  ghost function AddElement(w: World, c: nat, s: Spec): World
    requires c in w.classes && AllPoint(w, w.classes[c].props)
  {
    var k := w.classes[c];
    var i := Find(w, k.props, s.name);
    var e := Declare(s, k.name, k.size, Overridden(w, k.props, i));
    w.(classes := w.classes[c :=
      k.(props := Put(k.props, i, Id(c, |k.own|)), own := k.own + [e], size := k.size + FIELD)])
  }

  /** `Class_AddMethod`. */
  ghost function AddMethod(w: World, c: nat, s: Spec): World
    requires c in w.classes && AllPoint(w, w.classes[c].methods)
  {
    var k := w.classes[c];
    var i := Find(w, k.methods, s.name);
    var e := Declare(s, k.name, 0, Overridden(w, k.methods, i));
    w.(classes := w.classes[c := k.(methods := Put(k.methods, i, Id(c, |k.own|)), own := k.own + [e])])
  }

  // ---------------------------------------------------------------------------------------
  // Adding a qualifier to an element
  // ---------------------------------------------------------------------------------------

  function FindQualifier(quals: seq<Qualifier>, name: Name): (r: nat)
    ensures r <= |quals| && (r < |quals| ==> SameName(name, quals[r].name))
    ensures forall i | 0 <= i < r :: !SameName(name, quals[i].name)
  {
    if quals == [] then 0 else if SameName(name, quals[0].name) then 0 else 1 + FindQualifier(quals[1..], name)
  }

  const KEY: Name := [107, 101, 121]
  const READ: Name := [114, 101, 97, 100]
  const WRITE: Name := [119, 114, 105, 116, 101]

  /** The flags that a true boolean qualifier sets: key, and read-only unless something is writable. */
  function Flagged(e: Element, quals: seq<Qualifier>, name: Name, isTrue: bool): Element {
    if !isTrue then e
    else if SameName(name, KEY) then e.(key := true)
    else if SameName(name, READ) then
      (if FindQualifier(quals, WRITE) == |quals| then e.(readOnly := true) else e)
    else if SameName(name, WRITE) then e.(readOnly := false)
    else e
  }

  function Qualify(e: Element, q: Qualifier, isTrue: bool): Element {
    var i := FindQualifier(e.quals, q.name);
    var quals := if i < |e.quals| then e.quals[i := q] else e.quals + [q];
    Flagged(e, quals[..|e.quals|], q.name, isTrue).(quals := quals)
  }

  /** `_AddElementQualifier`, which writes into the declaration that the class lists, whoever owns it. */
  function AddQualifier(w: World, id: Id, q: Qualifier, isTrue: bool): World
    requires Points(w, id)
  {
    var cl := w.classes[id.owner];
    w.(classes := w.classes[id.owner := cl.(own := cl.own[id.k := Qualify(cl.own[id.k], q, isTrue)])])
  }

  // ---------------------------------------------------------------------------------------
  // Handles
  // ---------------------------------------------------------------------------------------

  /** `Class_Clone`. */
  function CloneHandle(w: World, c: nat): World
    requires c in w.classes
  {
    var k := w.classes[c];
    w.(classes := w.classes[c := k.(refs := k.refs + 1)], handles := w.handles[c := Handles(w, c) + 1])
  }

  /** Dropping one reference: at zero the parent loses one too, and then the class is freed. */
  function Release(w: World, c: nat): World
    decreases c
  {
    if c !in w.classes || w.classes[c].refs == 0 then w
    else
      var k := w.classes[c];
      if k.refs > 1 then w.(classes := w.classes[c := k.(refs := k.refs - 1)])
      else
        var v := if k.parent.Some? && k.parent.value < c then Release(w, k.parent.value) else w;
        v.(classes := v.classes - {c})
  }

  /** `Class_Delete` by a client. */
  function DeleteHandle(w: World, c: nat): World {
    Release(if Handles(w, c) > 0 then w.(handles := w.handles[c := Handles(w, c) - 1]) else w, c)
  }
}
