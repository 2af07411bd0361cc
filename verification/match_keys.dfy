/** `Instance_MatchKeys`: when two instances name the same object. */
module InstanceKeys {
  import opened Memory
  import opened Naming

  datatype Option<T> = None | Some(value: T)

  /** A floating-point value under the comparison of IEEE 754. */
  datatype Float = NaN | Infinite(positive: bool) | Finite(r: real)

  datatype Datetime =
    | Timestamp(year: nat, month: nat, day: nat, hour: nat, minute: nat, second: nat, micros: nat, utc: int)
    | Interval(days: nat, hours: nat, minutes: nat, seconds: nat, micros: nat)

  /** The types whose values are compared as integers. */
  datatype IntType = Boolean | Uint8 | Sint8 | Uint16 | Sint16 | Uint32 | Sint32 | Uint64 | Sint64 | Char16

  datatype Type =
    | TInt(t: IntType) | TReal(wide: bool) | TDatetime | TString | TReference | TInstance | TArray(element: nat)

  datatype Value =
    | Int(t: IntType, n: int)
    | Real(wide: bool, f: Float)
    | Time(d: Datetime)
    | Text(s: Option<seq<byte>>)
    | Reference(to: Option<Instance>)
    | Embedded
    | Array(element: nat)

  datatype Property = Property(decl: Decl, key: bool, exists_: bool, value: Value)

  datatype Instance = Instance(props: seq<Property>)

  function TypeOf(v: Value): Type {
    match v
    case Int(t, _) => TInt(t)
    case Real(wide, _) => TReal(wide)
    case Time(_) => TDatetime
    case Text(_) => TString
    case Reference(_) => TReference
    case Embedded => TInstance
    case Array(element) => TArray(element)
  }

  /** `==` on floating-point numbers. */
  predicate SameFloat(x: Float, y: Float) { x != NaN && x == y }

  function Decls(a: Instance): (d: seq<Decl>)
    ensures |d| == |a.props|
  {
    seq(|a.props|, i requires 0 <= i < |a.props| => a.props[i].decl)
  }

  function KeyCount(props: seq<Property>): nat {
    if props == [] then 0 else KeyCount(props[..|props| - 1]) + if props[|props| - 1].key then 1 else 0
  }

  // ---------------------------------------------------------------------------------------
  // What the code decides
  // ---------------------------------------------------------------------------------------

  /** `Instance_MatchKeys` on two instances. */
  ghost predicate Matches(a: Instance, b: Instance)
    decreases a
  {
    && KeyCount(a.props) != 0 && KeyCount(a.props) == KeyCount(b.props)
    && forall i | 0 <= i < |a.props| && a.props[i].key :: MatchedIn(a.props[i], b)
  }

  /** The first property of that name in `b` is a key of the same type with a matching field. */
  ghost predicate MatchedIn(p: Property, b: Instance)
    decreases p, 2
  {
    exists j :: IsFirstCoded(Decls(b), p.decl.name, j) && 0 <= j < |b.props| && MatchedBy(p, b.props[j])
  }

  ghost predicate MatchedBy(p: Property, q: Property)
    decreases p, 1
  {
    q.key && TypeOf(p.value) == TypeOf(q.value) && FieldMatches(p, q)
  }

  /** `Field_MatchKey`. */
  ghost predicate FieldMatches(p: Property, q: Property)
    decreases p, 0
  {
    p.exists_ == q.exists_ && match (p.value, q.value)
    case (Int(_, x), Int(_, y)) => x == y
    case (Real(_, x), Real(_, y)) => SameFloat(x, y)
    case (Time(x), Time(y)) => x == y
    case (Text(x), Text(y)) => x == y
    case (Reference(x), Reference(y)) =>
      if x.None? && y.None? then true else x.Some? && y.Some? && Matches(x.value, y.value)
    case _ => false
  }

  // ---------------------------------------------------------------------------------------
  // What it means
  // ---------------------------------------------------------------------------------------

  /**
    The two instances have keys, and every key of either has a counterpart in the other.  Neither
    instance comes first, and the order of the properties is not mentioned.
   */
  ghost predicate Agree(a: Instance, b: Instance)
    decreases a, 1
  {
    && (exists i :: IsKey(a, i))
    && (forall i | IsKey(a, i) :: HasCounterpart(a.props[i], b))
    && (forall j | IsKey(b, j) :: HasOrigin(a, b.props[j]))
  }

  ghost predicate HasCounterpart(p: Property, b: Instance)
    decreases p, 2
  {
    exists j :: IsKey(b, j) && PropsAgree(p, b.props[j])
  }

  ghost predicate HasOrigin(a: Instance, q: Property)
    decreases a, 0
  {
    exists i :: IsKey(a, i) && PropsAgree(a.props[i], q)
  }

  predicate IsKey(a: Instance, i: int) { 0 <= i < |a.props| && a.props[i].key }

  ghost predicate PropsAgree(p: Property, q: Property)
    decreases p, 1
  {
    SameName(p.decl.name, q.decl.name) && TypeOf(p.value) == TypeOf(q.value) && FieldsAgree(p, q)
  }

  ghost predicate FieldsAgree(p: Property, q: Property)
    decreases p, 0
  {
    p.exists_ == q.exists_ && match (p.value, q.value)
    case (Int(_, x), Int(_, y)) => x == y
    case (Real(_, x), Real(_, y)) => SameFloat(x, y)
    case (Time(x), Time(y)) => x == y
    case (Text(x), Text(y)) => x == y
    case (Reference(None), Reference(None)) => true
    case (Reference(Some(x)), Reference(Some(y))) => Agree(x, y)
    case _ => false
  }

  /** Every key is the first property of its name; in particular no two keys share a name. */
  ghost predicate KeysFirst(a: Instance) {
    forall i, j | IsKey(a, i) && 0 <= j < i :: !SameName(a.props[j].decl.name, a.props[i].decl.name)
  }

  /** Codes are correct, and references lead to well-formed instances. */
  ghost predicate Sound(a: Instance)
    decreases a, 0
  {
    Coded(Decls(a)) && forall i | 0 <= i < |a.props| :: TargetWellFormed(a.props[i])
  }

  /** Sound, with every key the first property of its name, here and behind references. */
  ghost predicate WellFormed(a: Instance)
    decreases a, 1
  {
    Sound(a) && KeysFirst(a)
  }

  /** Case-insensitively distinct names are more than is needed. */
  lemma {:induction false} DistinctNamesSuffice(a: Instance)
    requires forall i, j | 0 <= i < j < |a.props| :: !SameName(a.props[i].decl.name, a.props[j].decl.name)
    ensures KeysFirst(a)
  {
    hide SameName;
  }

  ghost predicate TargetWellFormed(p: Property)
    decreases p
  {
    p.value.Reference? && p.value.to.Some? ==> WellFormed(p.value.to.value)
  }

  // ---------------------------------------------------------------------------------------
  // Counting: the pigeonhole step
  // ---------------------------------------------------------------------------------------

  /** The keys among the first `n` properties. */
  ghost function FirstKeys(a: Instance, n: nat): set<int> { set i | 0 <= i < n && IsKey(a, i) }

  ghost function Keys(a: Instance): set<int> { FirstKeys(a, |a.props|) }

  lemma {:induction false} KeyCountIsSize(a: Instance)
    ensures KeyCount(a.props) == |Keys(a)|
    decreases |a.props|
  {
    if a.props != [] {
      var n := |a.props| - 1;
      var b := Instance(a.props[..n]);
      KeyCountIsSize(b);
      if a.props[n].key {
        assert Keys(a) == Keys(b) + {n};
      } else {
        assert Keys(a) == Keys(b);
      }
    } else {
      assert Keys(a) == {};
    }
  }

  /** An injection from the keys of `a` into a set of the same size meets all of it. */
  lemma {:induction false} Pigeonhole(a: Instance, n: nat, f: int -> int, target: set<int>)
    requires forall i, j | i in FirstKeys(a, n) && j in FirstKeys(a, n) && i != j :: f(i) != f(j)
    requires forall i | i in FirstKeys(a, n) :: f(i) in target
    ensures |FirstKeys(a, n)| <= |target|
    ensures |FirstKeys(a, n)| == |target| ==> forall j | j in target :: exists i :: i in FirstKeys(a, n) && f(i) == j
    decreases n
  {
    if n == 0 {
      assert FirstKeys(a, n) == {};
    } else {
      var k := n - 1;
      assert FirstKeys(a, n) == FirstKeys(a, k) + if IsKey(a, k) then {k} else {};
      if IsKey(a, k) {
        assert k in FirstKeys(a, n);
        Pigeonhole(a, k, f, target - {f(k)});
        if |FirstKeys(a, n)| == |target| {
          forall j | j in target ensures exists i :: i in FirstKeys(a, n) && f(i) == j {
            if j != f(k) {
              assert j in target - {f(k)};
              var i :| i in FirstKeys(a, k) && f(i) == j;
              assert i in FirstKeys(a, n);
            }
          }
        }
      } else {
        Pigeonhole(a, k, f, target);
      }
    }
  }

  ghost predicate Paired(a: Instance, b: Instance, i: int, j: int) {
    IsKey(a, i) && IsKey(b, j) && SameName(a.props[i].decl.name, b.props[j].decl.name)
  }

  ghost function Partner(a: Instance, b: Instance, i: int): int {
    if j :| Paired(a, b, i, j) then j else -1
  }

  /** If every key of `a` has a namesake among the keys of `b`, then `b` has as many, and no others if as many. */
  lemma {:induction false} Namesakes(a: Instance, b: Instance)
    requires WellFormed(a) && forall i | IsKey(a, i) :: HasNamesake(a, b, i)
    ensures KeyCount(a.props) <= KeyCount(b.props)
    ensures KeyCount(a.props) == KeyCount(b.props) ==> forall j | IsKey(b, j) :: exists i :: Paired(a, b, i, j)
  {
    hide SameName, KeyCount;
    KeyCountIsSize(a);
    KeyCountIsSize(b);
    var f := (i: int) => Partner(a, b, i);
    forall i | i in Keys(a) ensures Paired(a, b, i, f(i)) { assert HasNamesake(a, b, i); }
    forall i, k | i in Keys(a) && k in Keys(a) && i != k ensures f(i) != f(k) {
      if f(i) == f(k) {
        var j := f(i);
        assert Paired(a, b, i, j) && Paired(a, b, k, j);
        SameNameIsEquivalence(a.props[k].decl.name, b.props[j].decl.name, a.props[i].decl.name);
        SameNameIsEquivalence(a.props[i].decl.name, b.props[j].decl.name, a.props[k].decl.name);
        Distinct(a, i, k);
      }
    }
    forall i | i in Keys(a) ensures f(i) in Keys(b) { assert Paired(a, b, i, f(i)); }
    Pigeonhole(a, |a.props|, f, Keys(b));
    if KeyCount(a.props) == KeyCount(b.props) {
      forall j | IsKey(b, j) ensures exists i :: Paired(a, b, i, j) {
        assert j in Keys(b);
        var i :| i in Keys(a) && f(i) == j;
        assert Paired(a, b, i, j);
      }
    }
  }

  // ---------------------------------------------------------------------------------------
  // The code decides agreement
  // ---------------------------------------------------------------------------------------

  // Witnesses of the quantifiers, one at a time.

  lemma {:induction false} Counterpart(p: Property, b: Instance) returns (j: int)
    requires HasCounterpart(p, b)
    ensures IsKey(b, j) && PropsAgree(p, b.props[j])
  {
    j :| IsKey(b, j) && PropsAgree(p, b.props[j]);
  }

  lemma {:induction false} IsCounterpart(p: Property, b: Instance, j: int)
    requires IsKey(b, j) && PropsAgree(p, b.props[j])
    ensures HasCounterpart(p, b)
  {
  }

  lemma {:induction false} Origin(a: Instance, q: Property) returns (i: int)
    requires HasOrigin(a, q)
    ensures IsKey(a, i) && PropsAgree(a.props[i], q)
  {
    i :| IsKey(a, i) && PropsAgree(a.props[i], q);
  }

  lemma {:induction false} IsOrigin(a: Instance, i: int, q: Property)
    requires IsKey(a, i) && PropsAgree(a.props[i], q)
    ensures HasOrigin(a, q)
  {
  }

  /** The key of a given name is what the search for that name finds. */
  lemma {:induction false} OnlyNamesake(b: Instance, name: Name, j: int)
    requires WellFormed(b) && IsKey(b, j) && SameName(b.props[j].decl.name, name)
    ensures IsFirstCoded(Decls(b), name, j)
  {
    hide SameName, Hash, TargetWellFormed;
    HashFoldsCase(b.props[j].decl.name, name);
    assert Decls(b)[j].code == Hash(Decls(b)[j].name);
    forall i | 0 <= i < j ensures !SameName(Decls(b)[i].name, name) {
      SameNameIsEquivalence(name, b.props[j].decl.name, name);
      SameNameIsEquivalence(b.props[j].decl.name, name, b.props[i].decl.name);
      SameNameIsEquivalence(b.props[i].decl.name, name, b.props[j].decl.name);
    }
  }

  lemma {:induction false} FieldIff(p: Property, q: Property)
    requires TargetWellFormed(p) && TargetWellFormed(q)
    ensures FieldMatches(p, q) <==> FieldsAgree(p, q)
    decreases p, 0
  {
    hide Matches, Agree, WellFormed;
    if p.value.Reference? && q.value.Reference? && p.value.to.Some? && q.value.to.Some? {
      MatchesIffAgree(p.value.to.value, q.value.to.value);
    }
  }

  lemma {:induction false} MatchedIff(p: Property, b: Instance)
    requires TargetWellFormed(p) && WellFormed(b)
    ensures MatchedIn(p, b) <==> HasCounterpart(p, b)
    decreases p, 1
  {
    hide SameName, FieldMatches, FieldsAgree, Hash, TypeOf, HasCounterpart;
    if MatchedIn(p, b) {
      var j :| IsFirstCoded(Decls(b), p.decl.name, j) && 0 <= j < |b.props| && MatchedBy(p, b.props[j]);
      FieldIff(p, b.props[j]);
      SameNameIsEquivalence(b.props[j].decl.name, p.decl.name, p.decl.name);
      IsCounterpart(p, b, j);
    }
    if HasCounterpart(p, b) {
      var j := Counterpart(p, b);
      FieldIff(p, b.props[j]);
      SameNameIsEquivalence(p.decl.name, b.props[j].decl.name, p.decl.name);
      OnlyNamesake(b, p.decl.name, j);
      assert MatchedBy(p, b.props[j]);
    }
  }

  lemma {:induction false} SomeKey(a: Instance)
    ensures KeyCount(a.props) != 0 <==> exists i :: IsKey(a, i)
  {
    KeyCountIsSize(a);
    if KeyCount(a.props) != 0 {
      var i :| i in Keys(a);
      assert IsKey(a, i);
    } else {
      forall i ensures !IsKey(a, i) { assert i !in Keys(a); }
    }
  }

  /** Equal counts turn the one-sided search into mutual agreement. */
  lemma {:induction false} MatchesIffAgree(a: Instance, b: Instance)
    requires WellFormed(a) && WellFormed(b)
    ensures Matches(a, b) <==> Agree(a, b)
    decreases a, 2
  {
    hide SameName, KeyCount, HasCounterpart, HasOrigin, MatchedIn, Coded, TargetWellFormed;
    SomeKey(a);
    forall i | IsKey(a, i) ensures MatchedIn(a.props[i], b) <==> HasCounterpart(a.props[i], b) {
      TargetOf(a, i);
      MatchedIff(a.props[i], b);
    }
    if Matches(a, b) { MutualFromCount(a, b); }
    if Agree(a, b) { CountFromMutual(a, b); }
  }

  lemma {:induction false} TargetOf(a: Instance, i: int)
    requires WellFormed(a) && 0 <= i < |a.props|
    ensures TargetWellFormed(a.props[i])
  {
  }

  lemma {:induction false} Distinct(a: Instance, i: int, j: int)
    requires WellFormed(a) && IsKey(a, i) && IsKey(a, j)
    requires SameName(a.props[i].decl.name, a.props[j].decl.name)
    ensures i == j
  {
    hide SameName, Coded, TargetWellFormed;
    SameNameIsEquivalence(a.props[i].decl.name, a.props[j].decl.name, a.props[i].decl.name);
  }

  lemma {:induction false} AgreeingNames(p: Property, q: Property)
    requires PropsAgree(p, q)
    ensures SameName(p.decl.name, q.decl.name)
  {
  }

  ghost predicate HasNamesake(a: Instance, b: Instance, i: int) { exists j :: Paired(a, b, i, j) }

  lemma {:induction false} Namesake(a: Instance, b: Instance, i: int)
    requires IsKey(a, i) && HasCounterpart(a.props[i], b)
    ensures HasNamesake(a, b, i)
  {
    hide SameName;
    var j := Counterpart(a.props[i], b);
    AgreeingNames(a.props[i], b.props[j]);
    assert Paired(a, b, i, j);
  }

  lemma {:induction false} NamesakeOfOrigin(a: Instance, b: Instance, j: int)
    requires IsKey(b, j) && HasOrigin(a, b.props[j])
    ensures HasNamesake(b, a, j)
  {
    hide SameName;
    var i := Origin(a, b.props[j]);
    AgreeingNames(a.props[i], b.props[j]);
    SameNameIsEquivalence(a.props[i].decl.name, b.props[j].decl.name, a.props[i].decl.name);
    assert Paired(b, a, j, i);
  }

  /** The counterpart of a key is the key of its name. */
  lemma {:induction false} CounterpartByName(a: Instance, b: Instance, i: int, j: int)
    requires WellFormed(b) && Paired(a, b, i, j) && HasCounterpart(a.props[i], b)
    ensures HasOrigin(a, b.props[j])
  {
    hide SameName, PropsAgree, WellFormed, HasCounterpart, HasOrigin;
    var k := Counterpart(a.props[i], b);
    AgreeingNames(a.props[i], b.props[k]);
    SameNameIsEquivalence(a.props[i].decl.name, b.props[j].decl.name, a.props[i].decl.name);
    SameNameIsEquivalence(b.props[j].decl.name, a.props[i].decl.name, b.props[k].decl.name);
    Distinct(b, j, k);
    IsOrigin(a, i, b.props[j]);
  }

  lemma {:induction false} MutualFromCount(a: Instance, b: Instance)
    requires WellFormed(a) && WellFormed(b) && KeyCount(a.props) == KeyCount(b.props)
    requires forall i | IsKey(a, i) :: HasCounterpart(a.props[i], b)
    ensures forall j | IsKey(b, j) :: HasOrigin(a, b.props[j])
  {
    hide Paired, KeyCount, HasCounterpart, HasOrigin, HasNamesake, WellFormed;
    forall i | IsKey(a, i) ensures HasNamesake(a, b, i) { Namesake(a, b, i); }
    Namesakes(a, b);
    forall j | IsKey(b, j) ensures HasOrigin(a, b.props[j]) {
      var i := NamesakeOf(a, b, j);
      CounterpartByName(a, b, i, j);
    }
  }

  lemma {:induction false} NamesakeOf(a: Instance, b: Instance, j: int) returns (i: int)
    requires exists i :: Paired(a, b, i, j)
    ensures Paired(a, b, i, j) && IsKey(a, i)
  {
    i :| Paired(a, b, i, j);
  }

  lemma {:induction false} CountFromMutual(a: Instance, b: Instance)
    requires WellFormed(a) && WellFormed(b) && Agree(a, b)
    ensures KeyCount(a.props) == KeyCount(b.props)
  {
    hide Paired, KeyCount, HasCounterpart, HasOrigin, HasNamesake, WellFormed;
    forall i | IsKey(a, i) ensures HasNamesake(a, b, i) { Namesake(a, b, i); }
    forall j | IsKey(b, j) ensures HasNamesake(b, a, j) { NamesakeOfOrigin(a, b, j); }
    Namesakes(a, b);
    Namesakes(b, a);
  }

  // ---------------------------------------------------------------------------------------
  // Agreement is symmetric and transitive
  // ---------------------------------------------------------------------------------------

  lemma {:induction false} PropsAgreeSymmetric(p: Property, q: Property)
    requires PropsAgree(p, q)
    ensures PropsAgree(q, p)
    decreases p, 0
  {
    hide Agree;
    SameNameIsEquivalence(p.decl.name, q.decl.name, p.decl.name);
    if p.value.Reference? && p.value.to.Some? { AgreeSymmetric(p.value.to.value, q.value.to.value); }
  }

  lemma {:induction false} AgreeSymmetric(a: Instance, b: Instance)
    requires Agree(a, b)
    ensures Agree(b, a)
    decreases a
  {
    hide PropsAgree, HasCounterpart, HasOrigin;
    forall j | IsKey(b, j) ensures HasCounterpart(b.props[j], a) {
      var i := Origin(a, b.props[j]);
      PropsAgreeSymmetric(a.props[i], b.props[j]);
      IsCounterpart(b.props[j], a, i);
    }
    forall i | IsKey(a, i) ensures HasOrigin(b, a.props[i]) {
      var j := Counterpart(a.props[i], b);
      PropsAgreeSymmetric(a.props[i], b.props[j]);
      IsOrigin(b, j, a.props[i]);
    }
    var i :| IsKey(a, i);
    var j := Counterpart(a.props[i], b);
  }

  lemma {:induction false} PropsAgreeTransitive(p: Property, q: Property, r: Property)
    requires PropsAgree(p, q) && PropsAgree(q, r)
    ensures PropsAgree(p, r)
    decreases p, 0
  {
    hide Agree;
    SameNameIsEquivalence(p.decl.name, q.decl.name, r.decl.name);
    if p.value.Reference? && p.value.to.Some? {
      AgreeTransitive(p.value.to.value, q.value.to.value, r.value.to.value);
    }
  }

  lemma {:induction false} AgreeTransitive(a: Instance, b: Instance, c: Instance)
    requires Agree(a, b) && Agree(b, c)
    ensures Agree(a, c)
    decreases a
  {
    hide PropsAgree, HasCounterpart, HasOrigin;
    forall i | IsKey(a, i) ensures HasCounterpart(a.props[i], c) {
      var j := Counterpart(a.props[i], b);
      var k := Counterpart(b.props[j], c);
      PropsAgreeTransitive(a.props[i], b.props[j], c.props[k]);
      IsCounterpart(a.props[i], c, k);
    }
    forall k | IsKey(c, k) ensures HasOrigin(a, c.props[k]) {
      var j := Origin(b, c.props[k]);
      var i := Origin(a, b.props[j]);
      PropsAgreeTransitive(a.props[i], b.props[j], c.props[k]);
      IsOrigin(a, i, c.props[k]);
    }
  }

  /** `Instance_MatchKeys` is symmetric and transitive. */
  lemma {:induction false} MatchIsSymmetric(a: Instance, b: Instance)
    requires WellFormed(a) && WellFormed(b)
    ensures Matches(a, b) <==> Matches(b, a)
  {
    hide *;
    MatchesIffAgree(a, b);
    MatchesIffAgree(b, a);
    if Agree(a, b) { AgreeSymmetric(a, b); }
    if Agree(b, a) { AgreeSymmetric(b, a); }
  }

  lemma {:induction false} MatchIsTransitive(a: Instance, b: Instance, c: Instance)
    requires WellFormed(a) && WellFormed(b) && WellFormed(c) && Matches(a, b) && Matches(b, c)
    ensures Matches(a, c)
  {
    hide *;
    MatchesIffAgree(a, b);
    MatchesIffAgree(b, c);
    MatchesIffAgree(a, c);
    AgreeTransitive(a, b, c);
  }

  // ---------------------------------------------------------------------------------------
  // Order
  // ---------------------------------------------------------------------------------------

  /** The same properties in any order, and so on behind every reference. */
  ghost predicate Reordered(a: Instance, b: Instance)
    decreases a, 1
  {
    && (forall i | 0 <= i < |a.props| :: OccursIn(a.props[i], b))
    && (forall j | 0 <= j < |b.props| :: StemsFrom(a, b.props[j]))
  }

  ghost predicate OccursIn(p: Property, b: Instance)
    decreases p, 1
  {
    exists j :: 0 <= j < |b.props| && SameProp(p, b.props[j])
  }

  ghost predicate StemsFrom(a: Instance, q: Property)
    decreases a, 0
  {
    exists i :: 0 <= i < |a.props| && SameProp(a.props[i], q)
  }

  lemma {:induction false} Occurrence(p: Property, b: Instance) returns (j: int)
    requires OccursIn(p, b)
    ensures 0 <= j < |b.props| && SameProp(p, b.props[j]) && p.key == b.props[j].key
  {
    j :| 0 <= j < |b.props| && SameProp(p, b.props[j]);
  }

  lemma {:induction false} Stem(a: Instance, q: Property) returns (i: int)
    requires StemsFrom(a, q)
    ensures 0 <= i < |a.props| && SameProp(a.props[i], q) && a.props[i].key == q.key
  {
    i :| 0 <= i < |a.props| && SameProp(a.props[i], q);
  }

  ghost predicate SameProp(p: Property, q: Property)
    decreases p, 0
  {
    && p.decl == q.decl && p.key == q.key && p.exists_ == q.exists_
    && if p.value.Reference? && p.value.to.Some? && q.value.Reference? && q.value.to.Some?
       then Reordered(p.value.to.value, q.value.to.value)
       else p.value == q.value
  }

  lemma {:induction false} PropsAgreeReordered(p: Property, p': Property, q: Property)
    requires PropsAgree(p, q) && SameProp(p, p')
    ensures PropsAgree(p', q)
    decreases p, 0
  {
    hide Agree, Reordered, SameName;
    if p.value.Reference? && p.value.to.Some? {
      AgreeReordered(p.value.to.value, p'.value.to.value, q.value.to.value);
    }
  }

  lemma {:induction false} AgreeReordered(a: Instance, a': Instance, b: Instance)
    requires Agree(a, b) && Reordered(a, a')
    ensures Agree(a', b)
    decreases a
  {
    hide PropsAgree, SameProp, HasCounterpart, HasOrigin, OccursIn, StemsFrom;
    forall i | IsKey(a', i) ensures HasCounterpart(a'.props[i], b) {
      var k := Stem(a, a'.props[i]);
      assert IsKey(a, k);
      var j := Counterpart(a.props[k], b);
      PropsAgreeReordered(a.props[k], a'.props[i], b.props[j]);
      IsCounterpart(a'.props[i], b, j);
    }
    forall j | IsKey(b, j) ensures HasOrigin(a', b.props[j]) {
      var k := Origin(a, b.props[j]);
      var i := Occurrence(a.props[k], a');
      PropsAgreeReordered(a.props[k], a'.props[i], b.props[j]);
      IsOrigin(a', i, b.props[j]);
    }
    var k :| IsKey(a, k);
    var i := Occurrence(a.props[k], a');
    assert IsKey(a', i);
  }

  /** The order of the properties, of either instance and behind references, does not matter. */
  lemma {:induction false} MatchIgnoresOrder(a: Instance, a': Instance, b: Instance, b': Instance)
    requires WellFormed(a) && WellFormed(a') && WellFormed(b) && WellFormed(b')
    requires Reordered(a, a') && Reordered(b, b') && Matches(a, b)
    ensures Matches(a', b')
  {
    hide *;
    MatchesIffAgree(a, b);
    AgreeReordered(a, a', b);
    AgreeSymmetric(a', b);
    AgreeReordered(b, b', a');
    AgreeSymmetric(b', a');
    MatchesIffAgree(a', b');
  }

  /** Which instances match themselves: a key, and no key that never compares equal. */
  ghost predicate Comparable(a: Instance)
    decreases a
  {
    (exists i :: IsKey(a, i)) && forall i | IsKey(a, i) :: ComparableField(a.props[i])
  }

  ghost predicate ComparableField(p: Property)
    decreases p
  {
    match p.value
    case Real(_, f) => f != NaN
    case Reference(Some(to)) => Comparable(to)
    case Embedded => false
    case Array(_) => false
    case _ => true
  }

  lemma {:induction false} FieldReflexive(p: Property)
    requires TargetWellFormed(p)
    ensures FieldsAgree(p, p) <==> ComparableField(p)
    decreases p, 0
  {
    hide Agree, Comparable, WellFormed;
    if p.value.Reference? && p.value.to.Some? { AgreesWithItselfIff(p.value.to.value); }
  }

  lemma {:induction false} KeyReflexive(a: Instance, i: int)
    requires WellFormed(a) && IsKey(a, i)
    ensures HasCounterpart(a.props[i], a) <==> ComparableField(a.props[i])
    ensures HasOrigin(a, a.props[i]) <==> ComparableField(a.props[i])
    decreases a, 0
  {
    hide SameName, FieldsAgree, ComparableField, WellFormed, HasCounterpart, HasOrigin;
    var p := a.props[i];
    TargetOf(a, i);
    FieldReflexive(p);
    SameNameIsEquivalence(p.decl.name, p.decl.name, p.decl.name);
    if ComparableField(p) { IsCounterpart(p, a, i); IsOrigin(a, i, p); }
    if HasCounterpart(p, a) { var j := Counterpart(p, a); Distinct(a, i, j); }
    if HasOrigin(a, p) { var j := Origin(a, p); Distinct(a, j, i); }
  }

  lemma {:induction false} AgreesWithItselfIff(a: Instance)
    requires WellFormed(a)
    ensures Agree(a, a) <==> Comparable(a)
    decreases a, 1
  {
    hide WellFormed, HasCounterpart, HasOrigin, ComparableField;
    forall i | IsKey(a, i)
      ensures HasCounterpart(a.props[i], a) <==> ComparableField(a.props[i])
      ensures HasOrigin(a, a.props[i]) <==> ComparableField(a.props[i])
    {
      KeyReflexive(a, i);
    }
  }

  /** An instance matches itself exactly when it has keys and all of them are comparable. */
  lemma {:induction false} ReflexiveIff(a: Instance)
    requires WellFormed(a)
    ensures Matches(a, a) <==> Comparable(a)
  {
    hide WellFormed, Matches, Agree, Comparable;
    MatchesIffAgree(a, a);
    AgreesWithItselfIff(a);
  }

  // ---------------------------------------------------------------------------------------
  // The code
  // ---------------------------------------------------------------------------------------

  /** String comparison is not defined on null pointers: every string key has a value. */
  ghost predicate StringsGiven(a: Instance)
    decreases a
  {
    forall i | IsKey(a, i) :: StringGiven(a.props[i])
  }

  ghost predicate StringGiven(p: Property)
    decreases p
  {
    match p.value
    case Text(s) => s.Some?
    case Reference(Some(to)) => StringsGiven(to)
    case _ => true
  }

  /** `_CountKeys`. */
  method CountKeys(a: Instance) returns (n: nat)
    ensures n == KeyCount(a.props)
  {
    n := 0;
    for i := 0 to |a.props|
      invariant n == KeyCount(a.props[..i])
    {
      assert a.props[..i + 1][..i] == a.props[..i];
      if a.props[i].key { n := n + 1; }
    }
    assert a.props[..|a.props|] == a.props;
  }

  /** `_MatchDatetime`: member by member, once both are of the same form. */
  method MatchDatetime(x: Datetime, y: Datetime) returns (r: bool)
    ensures r == (x == y)
  {
    if x.Timestamp? {
      if !y.Timestamp? { return false; }
      r := x.year == y.year && x.month == y.month && x.day == y.day && x.hour == y.hour &&
        x.minute == y.minute && x.second == y.second && x.micros == y.micros && x.utc == y.utc;
    } else {
      if y.Timestamp? { return false; }
      r := x.days == y.days && x.hours == y.hours && x.minutes == y.minutes &&
        x.seconds == y.seconds && x.micros == y.micros;
    }
  }

  /** `Field_MatchKey`. */
  method MatchField(p: Property, q: Property) returns (r: bool)
    requires TypeOf(p.value) == TypeOf(q.value) && StringGiven(p) && StringGiven(q)
    ensures r == FieldMatches(p, q)
    decreases p, 0
  {
    hide Matches, StringsGiven;
    if (p.exists_ && !q.exists_) || (q.exists_ && !p.exists_) { return false; }
    match p.value
    case Int(_, x) => r := x == q.value.n;
    case Real(_, x) => r := SameFloat(x, q.value.f);
    case Time(x) => r := MatchDatetime(x, q.value.d);
    case Text(x) => r := x.value == q.value.s.value;
    case Reference(x) =>
      if x.None? && q.value.to.None? { return true; }
      r := MatchKeys(x, q.value.to);
    case Embedded => r := false;
    case Array(_) => r := false;
  }

  /** `Instance_MatchKeys`, where a null instance matches nothing. */
  method MatchKeys(self: Option<Instance>, inst: Option<Instance>) returns (r: bool)
    requires (self.Some? ==> StringsGiven(self.value)) && (inst.Some? ==> StringsGiven(inst.value))
    ensures r == (self.Some? && inst.Some? && Matches(self.value, inst.value))
    decreases self
  {
    hide SameName, KeyCount, FieldMatches, TypeOf, Hash, StringGiven, IsFirstCoded;
    if self.None? || inst.None? { return false; }
    var a, b := self.value, inst.value;
    var n := CountKeys(a);
    var m := CountKeys(b);
    if n == 0 || n != m { return false; }
    var i := 0;
    while i < |a.props|
      invariant i <= |a.props|
      invariant forall k | 0 <= k < i && a.props[k].key :: MatchedIn(a.props[k], b)
    {
      var p := a.props[i];
      if p.key {
        var j := FindProperty(Decls(b), p.decl.name);
        Found(b, p, j);
        if j == -1 { return false; }
        var q := b.props[j];
        if !q.key { return false; }
        if TypeOf(p.value) != TypeOf(q.value) { return false; }
        assert IsKey(a, i) && IsKey(b, j);
        var same := MatchField(p, q);
        if !same { return false; }
      }
      i := i + 1;
    }
    r := true;
  }

  /** The search has one outcome, so it alone decides about this key. */
  lemma {:induction false} Found(b: Instance, p: Property, j: int)
    requires IsFirstCoded(Decls(b), p.decl.name, j)
    ensures -1 <= j < |b.props|
    ensures MatchedIn(p, b) <==> 0 <= j && MatchedBy(p, b.props[j])
  {
    hide SameName, Hash, MatchedBy;
  }
}
