/** Reference counts: what cloning and deleting handles keep, and what a deletion frees. */
module ClassRefs {
  import opened ClassModel
  import opened ClassFrames
  import opened ClassBuild

  /** Only counts differ. */
  ghost predicate SameBesides(w: World, v: World) {
    && v.classes.Keys == w.classes.Keys && v.next == w.next
    && forall d | d in w.classes :: v.classes[d] == w.classes[d].(refs := v.classes[d].refs)
  }

  lemma {:induction false} RecountedClass(w: World, v: World, d: nat)
    requires SameBesides(w, v) && ParentsOk(w) && d in w.classes && ClassOk(w, d)
    ensures ClassOk(v, d)
  {
    hide IsAncestor, ListOk, FieldsOk, QualsOk;
    forall a | a in w.classes && IsAncestor(w, a, d) ensures KeepsOne(w, v, a) {}
    ClassKept(w, v, d);
  }

  lemma {:induction false} RecountedSubclasses(w: World, v: World, d: nat)
    requires SameBesides(w, v)
    ensures Subclasses(v, d) == Subclasses(w, d)
  {
    SubclassesSame(w, v, d);
  }

  /** Another handle to a class keeps the invariant. */
  lemma {:induction false} CloneKeepsInv(w: World, c: nat)
    requires Inv(w) && c in w.classes
    ensures Inv(CloneHandle(w, c))
  {
    hide ClassOk, Subclasses;
    var v := CloneHandle(w, c);
    InvParents(w);
    forall d | d in v.classes ensures d < v.next && ClassOk(v, d) && CountOk(v, d) {
      RecountedClass(w, v, d);
      RecountedSubclasses(w, v, d);
      assert CountOk(w, d);
    }
  }

  /** One reference to `c` has been given up, but its count not yet lowered. */
  ghost predicate Owes(w: World, c: nat) {
    && c in w.classes
    && (forall d | d in w.classes :: d < w.next && ClassOk(w, d) && (d != c ==> CountOk(w, d)))
    && w.classes[c].refs == Handles(w, c) + |Subclasses(w, c)| + 1
    && (forall d | d in w.handles && w.handles[d] > 0 :: d in w.classes)
  }

  lemma {:induction false} OwesParents(w: World, c: nat)
    requires Owes(w, c)
    ensures ParentsOk(w)
  {
    hide ListOk, FieldsOk, QualsOk, CountOk;
    forall d | d in w.classes && w.classes[d].parent.Some?
      ensures w.classes[d].parent.value < d && w.classes[d].parent.value in w.classes
    {
      assert ClassOk(w, d);
    }
  }

  function Without(w: World, c: nat): World { w.(classes := w.classes - {c}) }

  /** The release of an older class does not look at a younger one. */
  lemma {:induction false} ReleaseCommutes(w: World, p: nat, c: nat)
    requires p < c
    ensures Without(Release(w, p), c) == Release(Without(w, c), p)
    decreases p
  {
    if p in w.classes && w.classes[p].refs > 0 {
      var k := w.classes[p];
      if k.refs > 1 {
        assert (w.classes[p := k.(refs := k.refs - 1)]) - {c} == (w.classes - {c})[p := k.(refs := k.refs - 1)];
      } else {
        if k.parent.Some? && k.parent.value < p { ReleaseCommutes(w, k.parent.value, c); }
        var v := if k.parent.Some? && k.parent.value < p then Release(w, k.parent.value) else w;
        assert (v.classes - {p}) - {c} == (v.classes - {c}) - {p};
      }
    }
  }

  lemma {:induction false} RemovedClass(w: World, c: nat, d: nat)
    requires ParentsOk(w) && c in w.classes && Subclasses(w, c) == {} && d in w.classes && d != c && ClassOk(w, d)
    ensures ClassOk(Without(w, c), d)
  {
    hide IsAncestor, Subclasses, ListOk, FieldsOk, QualsOk;
    var v := Without(w, c);
    forall a | a in w.classes && IsAncestor(w, a, d) ensures KeepsOne(w, v, a) {
      if a == c { NoDescendants(w, c, d); }
    }
    if w.classes[d].parent.Some? { ParentSurvives(w, c, d); }
    ClassKept(w, v, d);
  }

  lemma {:induction false} ParentSurvives(w: World, c: nat, d: nat)
    requires Subclasses(w, c) == {} && d in w.classes && w.classes[d].parent.Some?
    ensures w.classes[d].parent.value != c
  {
    assert d in Subclasses(w, w.classes[d].parent.value);
  }

  lemma {:induction false} RemovedSubclasses(w: World, c: nat, d: nat)
    requires c in w.classes
    ensures w.classes[c].parent == Some(d) ==> |Subclasses(Without(w, c), d)| == |Subclasses(w, d)| - 1
    ensures w.classes[c].parent != Some(d) ==> Subclasses(Without(w, c), d) == Subclasses(w, d)
  {
    hide Subclasses;
    SubclassesWithNew(Without(w, c), w, c, d);
  }

  lemma {:induction false} NoneLeft(w: World, c: nat)
    requires Owes(w, c) && w.classes[c].refs == 1
    ensures Handles(w, c) == 0 && Subclasses(w, c) == {}
  {
    hide ClassOk, CountOk;
  }

  /** Freeing an unreferenced class leaves its parent owing one. */
  lemma {:induction false} RemovalOwes(w: World, c: nat)
    requires Owes(w, c) && w.classes[c].refs == 1
    ensures w.classes[c].parent.Some? ==> Owes(Without(w, c), w.classes[c].parent.value)
    ensures w.classes[c].parent.None? ==> Inv(Without(w, c))
  {
    hide ClassOk, Subclasses;
    OwesParents(w, c);
    NoneLeft(w, c);
    var v, parent := Without(w, c), w.classes[c].parent;
    forall d | d in v.classes
      ensures d < v.next && ClassOk(v, d) && (parent != Some(d) ==> CountOk(v, d))
      ensures parent == Some(d) ==> v.classes[d].refs == Handles(v, d) + |Subclasses(v, d)| + 1
    {
      RemovedClass(w, c, d);
      RemovedSubclasses(w, c, d);
      assert CountOk(w, d);
    }
  }

  lemma {:induction false} LoweredOk(w: World, c: nat)
    requires Owes(w, c) && w.classes[c].refs > 1
    ensures Inv(w.(classes := w.classes[c := w.classes[c].(refs := w.classes[c].refs - 1)]))
  {
    hide ClassOk, Subclasses;
    OwesParents(w, c);
    var v := w.(classes := w.classes[c := w.classes[c].(refs := w.classes[c].refs - 1)]);
    forall d | d in v.classes ensures d < v.next && ClassOk(v, d) && CountOk(v, d) {
      RecountedClass(w, v, d);
      RecountedSubclasses(w, v, d);
      if d != c { assert CountOk(w, d); }
    }
  }

  /** Giving up a reference, with the cascade up the ancestors, restores the invariant. */
  lemma {:induction false} ReleaseRestores(w: World, c: nat)
    requires Owes(w, c)
    ensures Inv(Release(w, c))
    decreases c
  {
    hide Inv, Owes, ParentsOk;
    OwesParents(w, c);
    OwesLive(w, c);
    var k := w.classes[c];
    if k.refs > 1 {
      LoweredOk(w, c);
    } else {
      RemovalOwes(w, c);
      if k.parent.Some? {
        var p := k.parent.value;
        ReleaseCommutes(w, p, c);
        ReleaseRestores(Without(w, c), p);
      }
    }
  }

  lemma {:induction false} OwesLive(w: World, c: nat)
    requires Owes(w, c) && ParentsOk(w)
    ensures c in w.classes && w.classes[c].refs > 0
    ensures w.classes[c].parent.Some? ==> w.classes[c].parent.value < c
  {
    hide ClassOk, CountOk;
  }

  /** Deleting a handle keeps the invariant. */
  lemma {:induction false} DeleteKeepsInv(w: World, c: nat)
    requires Inv(w) && Handles(w, c) > 0
    ensures Inv(DeleteHandle(w, c))
  {
    hide ClassOk, Subclasses, Release;
    var v := w.(handles := w.handles[c := Handles(w, c) - 1]);
    InvParents(w);
    forall d | d in v.classes ensures ClassOk(v, d) && (d != c ==> CountOk(v, d)) {
      RecountedClass(w, v, d);
      RecountedSubclasses(w, v, d);
      assert CountOk(w, d);
    }
    RecountedSubclasses(w, v, c);
    assert CountOk(w, c);
    ReleaseRestores(v, c);
  }

  // ---------------------------------------------------------------------------------------
  // What a deletion frees
  // ---------------------------------------------------------------------------------------

  /** Everything from `c` up to but not including the first class with another reference. */
  ghost predicate IsFreed(w: World, c: nat, d: nat)
    decreases c
  {
    && c in w.classes && w.classes[c].refs == 1
    && (d == c
      || (w.classes[c].parent.Some? && w.classes[c].parent.value < c && IsFreed(w, w.classes[c].parent.value, d)))
  }

  lemma {:induction false} FreedAreOlder(w: World, c: nat, d: nat)
    requires IsFreed(w, c, d)
    ensures d <= c && d in w.classes
    decreases c
  {
    if d != c { FreedAreOlder(w, w.classes[c].parent.value, d); }
  }

  /** The first class from `c` upwards that has another reference, if the chain has one. */
  ghost function FirstKept(w: World, c: nat): Option<nat>
    decreases c
  {
    if c !in w.classes then None
    else if w.classes[c].refs > 1 then Some(c)
    else if w.classes[c].parent.Some? && w.classes[c].parent.value < c then FirstKept(w, w.classes[c].parent.value)
    else None
  }

  lemma {:induction false} KeptIsOlder(w: World, c: nat)
    ensures FirstKept(w, c).Some? ==> FirstKept(w, c).value <= c
    decreases c
  {
    if c in w.classes && w.classes[c].parent.Some? && w.classes[c].parent.value < c {
      KeptIsOlder(w, w.classes[c].parent.value);
    }
  }

  /** The cascade frees exactly those classes, lowers the count of the class at which it stops, and changes no other. */
  lemma {:induction false} ReleaseFrees(w: World, c: nat, d: nat)
    requires c in w.classes && w.classes[c].refs > 0 && ParentsOk(w) && d in w.classes
    requires forall a | a in w.classes :: w.classes[a].refs > 0
    ensures d in Release(w, c).classes <==> !IsFreed(w, c, d)
    ensures d in Release(w, c).classes && FirstKept(w, c) == Some(d) ==>
      Release(w, c).classes[d] == w.classes[d].(refs := w.classes[d].refs - 1)
    ensures d in Release(w, c).classes && FirstKept(w, c) != Some(d) ==> Release(w, c).classes[d] == w.classes[d]
    decreases c
  {
    var k := w.classes[c];
    if k.refs == 1 && k.parent.Some? {
      var p := k.parent.value;
      ReleaseFrees(w, p, d);
      KeptIsOlder(w, p);
      if d == c && IsFreed(w, p, d) { FreedAreOlder(w, p, d); }
    }
  }

  /** A class goes with the deletion exactly when its count of handles and subclasses reaches zero in the cascade. */
  lemma {:induction false} FreedAtZero(w: World, c: nat)
    requires Inv(w) && Handles(w, c) > 0
    ensures c in w.classes
    ensures c !in DeleteHandle(w, c).classes <==> Handles(w, c) == 1 && Subclasses(w, c) == {}
  {
    hide ClassOk, Subclasses, Release;
    InvParents(w);
    var v := w.(handles := w.handles[c := Handles(w, c) - 1]);
    assert CountOk(w, c);
    forall a | a in v.classes ensures v.classes[a].refs > 0 { assert CountOk(w, a); }
    ReleaseFrees(v, c, c);
  }

  lemma {:induction false} QualsAreLive(w: World, c: nat, quals: seq<Qualifier>)
    requires ParentsOk(w) && c in w.classes && QualsOk(w, c, quals)
    ensures forall j | 0 <= j < |quals| :: quals[j].owner in w.classes
  {
    hide ParentsOk, IsAncestor;
    forall j | 0 <= j < |quals| ensures quals[j].owner in w.classes { AncestorsLive(w, quals[j].owner, c); }
  }

  /** Nothing that a live class uses is gone: its properties and methods, their qualifiers, and its own qualifiers. */
  lemma {:induction false} BorrowedIsLive(w: World, c: nat, id: Id)
    requires Inv(w) && c in w.classes && Lists(w.classes[c], id)
    ensures Points(w, id) && id.owner in w.classes
    ensures forall j | 0 <= j < |At(w, id).quals| :: At(w, id).quals[j].owner in w.classes
    ensures forall j | 0 <= j < |w.classes[c].quals| :: w.classes[c].quals[j].owner in w.classes
  {
    hide Inv, Lists, ListOk, FieldsOk, QualsOk;
    InvParents(w);
    ListedQuals(w, c, id);
    QualsAreLive(w, c, At(w, id).quals);
    InvClass(w, c);
    QualsAreLive(w, c, w.classes[c].quals);
  }

  lemma {:induction false} AncestryIsLive(w: World, c: nat, a: nat)
    requires Inv(w) && c in w.classes && IsAncestor(w, a, c)
    ensures a in w.classes && w.classes[a].refs > 0
  {
    hide ClassOk, IsAncestor;
    InvParents(w);
    AncestorsLive(w, a, c);
    assert CountOk(w, a);
  }
}
