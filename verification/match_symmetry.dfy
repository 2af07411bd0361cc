/** When key matching is symmetric: exactly for which instances, against every well-formed one. */
module KeySymmetry {
  import opened Memory
  import opened Naming
  import opened InstanceKeys

  // ---------------------------------------------------------------------------------------
  // Nothing well formed matches an instance that hides a key
  // ---------------------------------------------------------------------------------------

  /** The keys that a search by name finds. */
  ghost function Reachable(a: Instance): set<int> {
    set i | 0 <= i < |a.props| && IsKey(a, i) && IsFirstNamed(a, i)
  }

  ghost predicate IsFirstNamed(a: Instance, i: int) {
    0 <= i < |a.props| && forall j | 0 <= j < i :: !SameName(a.props[j].decl.name, a.props[i].decl.name)
  }

  lemma {:induction false} HiddenKeyIsMissing(a: Instance)
    requires !KeysFirst(a)
    ensures |Reachable(a)| < |Keys(a)|
  {
    hide SameName;
    var i, j :| IsKey(a, i) && 0 <= j < i && SameName(a.props[j].decl.name, a.props[i].decl.name);
    var rest := set k | 0 <= k < |a.props| && IsKey(a, k) && !IsFirstNamed(a, k);
    assert Keys(a) == Reachable(a) + rest && Reachable(a) !! rest;
    assert i in rest;
  }

  ghost predicate Finds(b: Instance, a: Instance, k: int, i: int) {
    IsKey(b, k) && IsKey(a, i) && IsFirstNamed(a, i) && SameName(a.props[i].decl.name, b.props[k].decl.name)
  }

  lemma {:induction false} MatchedFinds(b: Instance, a: Instance, k: int)
    requires Coded(Decls(a)) && Matches(b, a) && IsKey(b, k)
    ensures exists i :: Finds(b, a, k, i)
  {
    hide SameName, Hash, FieldMatches, KeyCount;
    assert MatchedIn(b.props[k], a);
    var i :| IsFirstCoded(Decls(a), b.props[k].decl.name, i) && 0 <= i < |a.props| && MatchedBy(b.props[k], a.props[i]);
    FilterIsPlain(Decls(a), b.props[k].decl.name, i);
    FirstIsFirstNamed(a, b.props[k].decl.name, i);
    assert Finds(b, a, k, i);
  }

  lemma {:induction false} FirstIsFirstNamed(a: Instance, name: Name, i: int)
    requires IsFirst(Decls(a), name, i) && 0 <= i < |a.props|
    ensures IsFirstNamed(a, i) && SameName(a.props[i].decl.name, name)
  {
    hide SameName;
    var n := a.props[i].decl.name;
    assert SameName(Decls(a)[i].name, name);
    forall j | 0 <= j < i ensures !SameName(a.props[j].decl.name, n) {
      assert !SameName(Decls(a)[j].name, name);
      SameNameIsEquivalence(a.props[j].decl.name, n, name);
    }
  }

  ghost function Target(b: Instance, a: Instance, k: int): int {
    if i :| Finds(b, a, k, i) then i else -1
  }

  /** A hidden key is one too many: no well-formed instance finds its keys in `a`. */
  lemma {:induction false} HiddenKeyIsNotMatched(b: Instance, a: Instance)
    requires WellFormed(b) && Coded(Decls(a)) && !KeysFirst(a)
    ensures !Matches(b, a)
  {
    hide SameName, KeyCount, Coded, Sound, KeysFirst, MatchedIn, IsFirstNamed;
    if Matches(b, a) {
      KeyCountIsSize(a);
      KeyCountIsSize(b);
      HiddenKeyIsMissing(a);
      var f := (k: int) => Target(b, a, k);
      forall k | k in Keys(b) ensures Finds(b, a, k, f(k)) && f(k) in Reachable(a) { MatchedFinds(b, a, k); }
      forall k, l | k in Keys(b) && l in Keys(b) && k != l ensures f(k) != f(l) {
        if f(k) == f(l) { FindsOnce(b, a, k, l, f(k)); }
      }
      Pigeonhole(b, |b.props|, f, Reachable(a));
    }
  }

  lemma {:induction false} FindsOnce(b: Instance, a: Instance, k: int, l: int, i: int)
    requires WellFormed(b) && Finds(b, a, k, i) && Finds(b, a, l, i)
    ensures k == l
  {
    hide SameName, Coded, Sound, KeysFirst, IsFirstNamed;
    var n := a.props[i].decl.name;
    SameNameIsEquivalence(n, b.props[k].decl.name, n);
    SameNameIsEquivalence(b.props[k].decl.name, n, b.props[l].decl.name);
    Distinct(b, k, l);
  }

  // ---------------------------------------------------------------------------------------
  // What matches something
  // ---------------------------------------------------------------------------------------

  /** There are keys, and keys of one name agree with each other; each with itself in particular. */
  ghost predicate Matchable(a: Instance) {
    && (exists i :: IsKey(a, i))
    && forall i, j | IsKey(a, i) && IsKey(a, j) && SameName(a.props[i].decl.name, a.props[j].decl.name) ::
      PropsAgree(a.props[i], a.props[j])
  }

  lemma {:induction false} MatchedIsMatchable(a: Instance, b: Instance)
    requires Sound(a) && WellFormed(b) && Matches(a, b)
    ensures Matchable(a)
  {
    hide SameName, KeyCount, PropsAgree, MatchedIn, WellFormed, HasCounterpart;
    SomeKey(a);
    forall i, j | IsKey(a, i) && IsKey(a, j) && SameName(a.props[i].decl.name, a.props[j].decl.name)
      ensures PropsAgree(a.props[i], a.props[j])
    {
      SameCounterpart(a, b, i, j);
    }
  }

  lemma {:induction false} SameCounterpart(a: Instance, b: Instance, i: int, j: int)
    requires Sound(a) && WellFormed(b) && Matches(a, b) && IsKey(a, i) && IsKey(a, j)
    requires SameName(a.props[i].decl.name, a.props[j].decl.name)
    ensures PropsAgree(a.props[i], a.props[j])
  {
    hide SameName, KeyCount, PropsAgree, MatchedIn, WellFormed, HasCounterpart, Coded;
    assert MatchedIn(a.props[i], b) && MatchedIn(a.props[j], b);
    MatchedIff(a.props[i], b);
    MatchedIff(a.props[j], b);
    var r := Counterpart(a.props[i], b);
    var s := Counterpart(a.props[j], b);
    AgreeingNames(a.props[i], b.props[r]);
    AgreeingNames(a.props[j], b.props[s]);
    var m, n := a.props[i].decl.name, a.props[j].decl.name;
    SameNameIsEquivalence(m, b.props[r].decl.name, m);
    SameNameIsEquivalence(b.props[r].decl.name, m, n);
    SameNameIsEquivalence(b.props[r].decl.name, n, b.props[s].decl.name);
    Distinct(b, r, s);
    PropsAgreeSymmetric(a.props[j], b.props[s]);
    PropsAgreeTransitive(a.props[i], b.props[r], a.props[j]);
  }

  // ---------------------------------------------------------------------------------------
  // A well-formed instance that a matchable one matches
  // ---------------------------------------------------------------------------------------

  ghost predicate IsNewKey(a: Instance, n: int) {
    IsKey(a, n) && forall i | IsKey(a, i) && i < n :: !SameName(a.props[i].decl.name, a.props[n].decl.name)
  }

  /** One key for each name among the first `n` properties. */
  ghost function Representatives(a: Instance, n: nat): seq<Property>
    requires n <= |a.props|
  {
    if n == 0 then []
    else Representatives(a, n - 1) + if IsNewKey(a, n - 1) then [a.props[n - 1]] else []
  }

  ghost predicate From(a: Instance, n: nat, p: Property) {
    exists i :: IsKey(a, i) && i < n && a.props[i] == p
  }

  lemma {:induction false} RepresentativesAreKeys(a: Instance, n: nat, k: nat)
    requires n <= |a.props| && k < |Representatives(a, n)|
    ensures From(a, n, Representatives(a, n)[k])
    decreases n
  {
    hide SameName;
    var before := Representatives(a, n - 1);
    if k < |before| {
      RepresentativesAreKeys(a, n - 1, k);
      var i :| IsKey(a, i) && i < n - 1 && a.props[i] == before[k];
      assert IsKey(a, i) && i < n;
    } else {
      assert IsKey(a, n - 1);
    }
  }

  lemma {:induction false} RepresentativesAreDistinct(a: Instance, n: nat, k: nat, l: nat)
    requires n <= |a.props| && k < l < |Representatives(a, n)|
    ensures !SameName(Representatives(a, n)[k].decl.name, Representatives(a, n)[l].decl.name)
    decreases n
  {
    hide SameName;
    var before := Representatives(a, n - 1);
    if l < |before| {
      RepresentativesAreDistinct(a, n - 1, k, l);
    } else {
      RepresentativesAreKeys(a, n - 1, k);
      var i :| IsKey(a, i) && i < n - 1 && a.props[i] == before[k];
    }
  }

  ghost predicate Represented(a: Instance, n: nat, i: int, k: int)
    requires n <= |a.props|
  {
    && 0 <= k < |Representatives(a, n)| && IsKey(a, i)
    && SameName(a.props[i].decl.name, Representatives(a, n)[k].decl.name)
  }

  lemma {:induction false} EveryKeyIsRepresented(a: Instance, n: nat, i: int) returns (k: int)
    requires n <= |a.props| && IsKey(a, i) && i < n
    ensures Represented(a, n, i, k)
    decreases n
  {
    hide SameName;
    var name := a.props[i].decl.name;
    SameNameIsEquivalence(name, name, name);
    if i < n - 1 {
      k := EveryKeyIsRepresented(a, n - 1, i);
    } else if IsNewKey(a, i) {
      k := |Representatives(a, n - 1)|;
    } else {
      var j :| IsKey(a, j) && j < i && SameName(a.props[j].decl.name, name);
      k := EveryKeyIsRepresented(a, n - 1, j);
      SameNameIsEquivalence(a.props[j].decl.name, name, name);
      SameNameIsEquivalence(name, a.props[j].decl.name, Representatives(a, n - 1)[k].decl.name);
    }
  }

  lemma {:induction false} NoMoreThanKeys(a: Instance, n: nat)
    requires n <= |a.props|
    ensures |Representatives(a, n)| <= KeyCount(a.props[..n])
    decreases n
  {
    hide SameName;
    if n > 0 {
      NoMoreThanKeys(a, n - 1);
      assert a.props[..n][..n - 1] == a.props[..n - 1];
    }
  }

  /** A length that no name of `a` has or exceeds. */
  ghost function Longest(a: Instance, n: nat): nat
    requires n <= |a.props|
  {
    if n == 0 then 1
    else if |a.props[n - 1].decl.name| >= Longest(a, n - 1) then |a.props[n - 1].decl.name| + 1
    else Longest(a, n - 1)
  }

  lemma {:induction false} ShorterThanLongest(a: Instance, n: nat, i: nat)
    requires i < n <= |a.props|
    ensures |a.props[i].decl.name| < Longest(a, n)
    decreases n
  {
    if i < n - 1 { ShorterThanLongest(a, n - 1, i); }
  }

  function Stretched(k: nat): (name: Name)
    ensures |name| == k
  {
    var s: seq<byte> := seq(k, _ => 120);
    s
  }

  /** A key that `a` does not have. */
  function Filler(k: nat): Property {
    Property(Decl(Stretched(k), Hash(Stretched(k))), true, true, Int(Uint8, 0))
  }

  ghost function Fillers(from: nat, n: nat): seq<Property> { seq(n, k requires 0 <= k < n => Filler(from + k)) }

  /** The representatives, and as many fillers as keys were repeated. */
  ghost function Twin(a: Instance): Instance {
    var reps := Representatives(a, |a.props|);
    NoMoreThanKeys(a, |a.props|);
    assert a.props[..|a.props|] == a.props;
    Instance(reps + Fillers(Longest(a, |a.props|), KeyCount(a.props) - |reps|))
  }

  lemma {:induction false} TwinShape(a: Instance)
    ensures |Twin(a).props| == KeyCount(a.props)
    ensures forall i | 0 <= i < |Representatives(a, |a.props|)| <= |Twin(a).props| ::
      Twin(a).props[i] == Representatives(a, |a.props|)[i]
    ensures |Representatives(a, |a.props|)| <= |Twin(a).props|
    ensures forall i | |Representatives(a, |a.props|)| <= i < |Twin(a).props| ::
      Twin(a).props[i] == Filler(Longest(a, |a.props|) + (i - |Representatives(a, |a.props|)|))
  {
    hide Representatives, Longest, Filler, KeyCount;
    NoMoreThanKeys(a, |a.props|);
    assert a.props[..|a.props|] == a.props;
  }

  /** Each property of the twin is a key, of `a` or a filler, and in order. */
  lemma {:induction false} TwinProperty(a: Instance, i: nat)
    requires Sound(a) && i < |Twin(a).props|
    ensures var p := Twin(a).props[i];
      && p.key && p.decl.code == Hash(p.decl.name) && TargetWellFormed(p)
      && (i < |Representatives(a, |a.props|)| <==> |p.decl.name| < Longest(a, |a.props|))
      && (i >= |Representatives(a, |a.props|)| ==>
        |p.decl.name| == Longest(a, |a.props|) + (i - |Representatives(a, |a.props|)|))
  {
    hide Twin, Representatives, Longest, WellFormed, Hash;
    TwinShape(a);
    var n := |a.props|;
    if i < |Representatives(a, n)| {
      RepresentativesAreKeys(a, n, i);
      var j :| IsKey(a, j) && j < n && a.props[j] == Representatives(a, n)[i];
      ShorterThanLongest(a, n, j);
      assert Decls(a)[j].code == Hash(Decls(a)[j].name);
    }
  }

  lemma {:induction false} TwinIsDistinct(a: Instance, i: nat, j: nat)
    requires Sound(a) && j < i < |Twin(a).props|
    ensures !SameName(Twin(a).props[j].decl.name, Twin(a).props[i].decl.name)
  {
    hide Twin, Representatives, Longest, Sound, TargetWellFormed, Hash;
    TwinShape(a);
    TwinProperty(a, i);
    TwinProperty(a, j);
    if i < |Representatives(a, |a.props|)| { RepresentativesAreDistinct(a, |a.props|, j, i); }
  }

  lemma {:induction false} TwinIsWellFormed(a: Instance)
    requires Sound(a)
    ensures WellFormed(Twin(a)) && KeyCount(Twin(a).props) == KeyCount(a.props)
  {
    hide Twin, SameName, Hash, Representatives, Longest, KeyCount;
    var b := Twin(a);
    TwinShape(a);
    forall i | 0 <= i < |b.props|
      ensures b.props[i].key && TargetWellFormed(b.props[i]) && Decls(b)[i].code == Hash(Decls(b)[i].name)
    {
      TwinProperty(a, i);
    }
    forall i, j | IsKey(b, i) && 0 <= j < i ensures !SameName(b.props[j].decl.name, b.props[i].decl.name) {
      TwinIsDistinct(a, i, j);
    }
    AllKeys(b.props);
  }

  lemma {:induction false} AllKeys(props: seq<Property>)
    requires forall i | 0 <= i < |props| :: props[i].key
    ensures KeyCount(props) == |props|
  {
    if props != [] { AllKeys(props[..|props| - 1]); }
  }

  /** A matchable instance matches its twin. */
  lemma {:induction false} MatchesTwin(a: Instance)
    requires Sound(a) && Matchable(a)
    ensures WellFormed(Twin(a)) && Matches(a, Twin(a))
  {
    hide Twin, KeyCount, MatchedIn, WellFormed, Coded, TargetWellFormed, Matchable;
    var b := Twin(a);
    TwinIsWellFormed(a);
    HasSomeKey(a);
    forall i | 0 <= i < |a.props| && a.props[i].key ensures MatchedIn(a.props[i], b) { MatchedInTwin(a, i); }
  }

  lemma {:induction false} HasSomeKey(a: Instance)
    requires Matchable(a)
    ensures KeyCount(a.props) != 0
  {
    hide KeyCount, PropsAgree, SameName;
    SomeKey(a);
  }

  lemma {:induction false} MatchedInTwin(a: Instance, i: int)
    requires Sound(a) && Matchable(a) && WellFormed(Twin(a)) && IsKey(a, i)
    ensures MatchedIn(a.props[i], Twin(a))
  {
    hide Twin, PropsAgree, MatchedIn, WellFormed, Coded, Representatives, SameName, HasCounterpart, Longest, Hash;
    var b, n := Twin(a), |a.props|;
    var k := EveryKeyIsRepresented(a, n, i);
    RepresentativesAreKeys(a, n, k);
    var j :| IsKey(a, j) && j < n && a.props[j] == Representatives(a, n)[k];
    TwinShape(a);
    TwinProperty(a, k);
    IsCounterpart(a.props[i], b, k);
    MatchedIff(a.props[i], b);
  }

  // ---------------------------------------------------------------------------------------
  // Exactly when
  // ---------------------------------------------------------------------------------------

  ghost predicate SymmetricAgainstAll(a: Instance) {
    forall b | WellFormed(b) :: Matches(a, b) == Matches(b, a)
  }

  /** With a repeated or hidden key name, matching goes one way only, as soon as anything matches. */
  lemma {:induction false} HiddenKeyBreaksSymmetry(a: Instance)
    requires Sound(a) && !KeysFirst(a) && Matchable(a)
    ensures WellFormed(Twin(a)) && Matches(a, Twin(a)) && !Matches(Twin(a), a)
  {
    hide Twin, Matches, WellFormed, KeysFirst, Matchable;
    MatchesTwin(a);
    HiddenKeyIsNotMatched(Twin(a), a);
  }

  /**
    Matching `a` is symmetric against every well-formed instance exactly when every key of `a` is
    the first property of its name, or `a` matches nothing because a key never compares equal or
    keys of one name disagree.
   */
  lemma {:induction false} SymmetricIff(a: Instance)
    requires Sound(a)
    ensures SymmetricAgainstAll(a) <==> KeysFirst(a) || !Matchable(a)
  {
    hide Matches, KeysFirst, Matchable, Sound, Twin;
    if KeysFirst(a) || !Matchable(a) {
      forall b | WellFormed(b) ensures Matches(a, b) == Matches(b, a) {
        if KeysFirst(a) {
          MatchIsSymmetric(a, b);
        } else {
          NotKeysFirst(a, b);
        }
      }
    } else {
      HiddenKeyBreaksSymmetry(a);
    }
  }

  lemma {:induction false} NotKeysFirst(a: Instance, b: Instance)
    requires Sound(a) && !KeysFirst(a) && !Matchable(a) && WellFormed(b)
    ensures !Matches(a, b) && !Matches(b, a)
  {
    hide Matches, KeysFirst, Matchable, WellFormed, TargetWellFormed;
    HiddenKeyIsNotMatched(b, a);
    if Matches(a, b) { MatchedIsMatchable(a, b); }
  }
}
