/** What other classes' operations leave alone. */
module ClassFrames {
  import opened Memory
  import opened Naming
  import opened ClassModel

  ghost predicate ParentsOk(w: World) {
    forall c | c in w.classes && w.classes[c].parent.Some? ::
      w.classes[c].parent.value < c && w.classes[c].parent.value in w.classes
  }

  lemma {:induction false} InvParents(w: World)
    requires Inv(w)
    ensures ParentsOk(w)
  {
    hide ListOk, FieldsOk, QualsOk, CountOk;
    forall c | c in w.classes && w.classes[c].parent.Some?
      ensures w.classes[c].parent.value < c && w.classes[c].parent.value in w.classes
    {
      assert ClassOk(w, c);
    }
  }

  lemma {:induction false} AncestorsLive(w: World, a: nat, c: nat)
    requires ParentsOk(w) && c in w.classes && IsAncestor(w, a, c)
    ensures a in w.classes && a <= c
    decreases c
  {
    if a != c { AncestorsLive(w, a, w.classes[c].parent.value); }
  }

  lemma {:induction false} AncestorTransitive(w: World, a: nat, b: nat, c: nat)
    requires IsAncestor(w, a, b) && IsAncestor(w, b, c)
    ensures IsAncestor(w, a, c)
    decreases c
  {
    if b != c { AncestorTransitive(w, a, b, w.classes[c].parent.value); }
  }

  /** The ancestors of `c` are still there, with all the declarations they had. */
  ghost predicate Keeps(w: World, v: World, c: nat) {
    forall a | a in w.classes && IsAncestor(w, a, c) :: KeepsOne(w, v, a)
  }

  ghost predicate KeepsOne(w: World, v: World, a: nat)
    requires a in w.classes
  {
    a in v.classes && v.classes[a].parent == w.classes[a].parent && w.classes[a].own <= v.classes[a].own
  }

  lemma {:induction false} KeepsParent(w: World, v: World, c: nat)
    requires ParentsOk(w) && c in w.classes && w.classes[c].parent.Some? && Keeps(w, v, c)
    ensures Keeps(w, v, w.classes[c].parent.value)
  {
    hide KeepsOne;
    var p := w.classes[c].parent.value;
    forall a | a in w.classes && IsAncestor(w, a, p) ensures KeepsOne(w, v, a) {
      assert IsAncestor(w, a, c);
    }
  }

  lemma {:induction false} AncestorKept(w: World, v: World, a: nat, c: nat)
    requires ParentsOk(w) && c in w.classes && Keeps(w, v, c) && IsAncestor(w, a, c)
    ensures IsAncestor(v, a, c)
    decreases c
  {
    if a != c {
      assert KeepsOne(w, v, c);
      KeepsParent(w, v, c);
      AncestorKept(w, v, a, w.classes[c].parent.value);
    }
  }

  lemma {:induction false} QualsKept(w: World, v: World, c: nat, quals: seq<Qualifier>)
    requires ParentsOk(w) && c in w.classes && Keeps(w, v, c) && QualsOk(w, c, quals)
    ensures QualsOk(v, c, quals)
  {
    hide Keeps, ParentsOk, Propagates, IsAncestor;
    forall i | 0 <= i < |quals|
      ensures IsAncestor(v, quals[i].owner, c) && (quals[i].owner != c ==> Propagates(quals[i]))
    {
      AncestorKept(w, v, quals[i].owner, c);
    }
  }

  lemma {:induction false} PointsKept(w: World, v: World, c: nat, id: Id)
    requires ParentsOk(w) && c in w.classes && Keeps(w, v, c) && Points(w, id) && IsAncestor(w, id.owner, c)
    ensures Points(v, id) && At(v, id) == At(w, id)
  {
    assert KeepsOne(w, v, id.owner);
  }

  lemma {:induction false} ElementKept(w: World, v: World, c: nat, id: Id)
    requires ParentsOk(w) && c in w.classes && Keeps(w, v, c) && ElementOk(w, c, id)
    ensures ElementOk(v, c, id) && At(v, id) == At(w, id)
  {
    hide Keeps, ParentsOk, IsAncestor, QualsOk, Hash;
    PointsKept(w, v, c, id);
    AncestorKept(w, v, id.owner, c);
    QualsKept(w, v, c, At(w, id).quals);
  }

  lemma {:induction false} ListKept(w: World, v: World, c: nat, ids: seq<Id>, room: nat)
    requires ParentsOk(w) && c in w.classes && Keeps(w, v, c) && ListOk(w, c, ids, room)
    ensures ListOk(v, c, ids, room) && AllPoint(w, ids) && AllPoint(v, ids)
    ensures forall i | 0 <= i < |ids| :: At(v, ids[i]) == At(w, ids[i])
  {
    hide Keeps, ParentsOk, ElementOk, SameName;
    forall i | 0 <= i < |ids|
      ensures ElementOk(v, c, ids[i]) && Points(w, ids[i]) && Points(v, ids[i]) && At(v, ids[i]) == At(w, ids[i])
    {
      ElementKept(w, v, c, ids[i]);
      ElementPoints(w, c, ids[i]);
      ElementPoints(v, c, ids[i]);
    }
  }

  lemma {:induction false} ElementPoints(w: World, c: nat, id: Id)
    requires ElementOk(w, c, id)
    ensures Points(w, id)
  {
  }

  /** The parts of a class that only its own building changes. */
  ghost predicate SameShape(k: Class, l: Class) {
    && k.parent == l.parent && k.size == l.size && k.props == l.props && k.propRoom == l.propRoom
    && k.methods == l.methods && k.methodRoom == l.methodRoom && k.quals == l.quals && k.name == l.name
  }

  lemma {:induction false} ClassKept(w: World, v: World, c: nat)
    requires ParentsOk(w) && c in w.classes && ClassOk(w, c) && Keeps(w, v, c)
    requires c in v.classes && SameShape(w.classes[c], v.classes[c])
    requires w.classes[c].parent.Some? ==> w.classes[c].parent.value in v.classes
    ensures ClassOk(v, c)
  {
    hide Keeps, ParentsOk, ListOk, QualsOk;
    var k := w.classes[c];
    ListKept(w, v, c, k.props, k.propRoom);
    ListKept(w, v, c, k.methods, k.methodRoom);
    QualsKept(w, v, c, k.quals);
  }

  /** What a class sees: the content of its declarations. */
  ghost function View(w: World, ids: seq<Id>): seq<Element>
    requires AllPoint(w, ids)
  {
    seq(|ids|, i requires 0 <= i < |ids| => At(w, ids[i]))
  }

  lemma {:induction false} ViewKept(w: World, v: World, c: nat, ids: seq<Id>, room: nat)
    requires ParentsOk(w) && c in w.classes && Keeps(w, v, c) && ListOk(w, c, ids, room)
    ensures AllPoint(w, ids) && AllPoint(v, ids) && View(v, ids) == View(w, ids)
  {
    hide Keeps, ParentsOk, ListOk;
    ListKept(w, v, c, ids, room);
  }
}
