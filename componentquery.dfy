/**
 * `ComponentQuery`: a flat list of type ids split into four consecutive ranges
 * (component includes, component excludes, shared includes, shared excludes), the
 * builders that insert into it, and the range-by-range archetype test.
 */
module ComponentQueries {
  import opened Types
  import opened EntityArchetypes

  /** What a builder term asks of an archetype's members. */
  datatype Kind = Component | Shared

  datatype ComponentQuery = ComponentQuery(
    types: seq<TypeId>,
    includes: nat,
    excludes: nat,
    sharedIncludes: nat,
    sharedExcludes: nat)
  {
    /** The four counts describe the whole list, as every builder keeps them. */
    predicate WellFormed() {
      |types| == includes + excludes + sharedIncludes + sharedExcludes
    }

    /** The four ranges fit inside the list, which is what `Matches` indexes. */
    predicate InBounds() {
      includes + excludes + sharedIncludes + sharedExcludes <= |types|
    }

    /**
     * The meaning of a query: every type of the first range is a component of the
     * archetype, none of the second is, every type of the third is one of its shared
     * types, none of the fourth is.
     */
    ghost predicate Satisfies(archetype: EntityArchetype)
      requires InBounds()
    {
      var e, si := includes + excludes, includes + excludes + sharedIncludes;
      && (forall j :: 0 <= j < includes ==> archetype.HasComponentType(types[j]))
      && (forall j :: includes <= j < e ==> !archetype.HasComponentType(types[j]))
      && (forall j :: e <= j < si ==> archetype.HasSharedComponentType(types[j]))
      && (forall j :: si <= j < si + sharedExcludes ==> !archetype.HasSharedComponentType(types[j]))
    }

    /**
     * `Matches`: one index runs through the four ranges in turn, returning false at the
     * first type that fails its range's test.
     */
    method Matches(archetype: EntityArchetype) returns (r: bool)
      requires InBounds()
      ensures r <==> Satisfies(archetype)
    {
      var i := 0;
      var includesEnd := includes;
      while i < includesEnd
        invariant 0 <= i <= includesEnd
        invariant forall j :: 0 <= j < i ==> archetype.HasComponentType(types[j])
      {
        if !archetype.HasComponentType(types[i]) {
          return false;
        }
        i := i + 1;
      }
      var excludesEnd := includesEnd + excludes;
      while i < excludesEnd
        invariant includesEnd <= i <= excludesEnd
        invariant forall j :: includesEnd <= j < i ==> !archetype.HasComponentType(types[j])
      {
        if archetype.HasComponentType(types[i]) {
          return false;
        }
        i := i + 1;
      }
      var sharedIncludesEnd := excludesEnd + sharedIncludes;
      while i < sharedIncludesEnd
        invariant excludesEnd <= i <= sharedIncludesEnd
        invariant forall j :: excludesEnd <= j < i ==> archetype.HasSharedComponentType(types[j])
      {
        if !archetype.HasSharedComponentType(types[i]) {
          return false;
        }
        i := i + 1;
      }
      var sharedExcludesEnd := sharedIncludesEnd + sharedExcludes;
      while i < sharedExcludesEnd
        invariant sharedIncludesEnd <= i <= sharedExcludesEnd
        invariant forall j :: sharedIncludesEnd <= j < i ==> !archetype.HasSharedComponentType(types[j])
      {
        if archetype.HasSharedComponentType(types[i]) {
          return false;
        }
        i := i + 1;
      }
      return true;
    }
  }

  /** A query built from no terms: every count zero. */
  const EmptyQuery: ComponentQuery := ComponentQuery([], 0, 0, 0, 0)

  /** With all four counts zero there is nothing to test: every archetype matches. */
  lemma EmptyQueryMatchesAll(q: ComponentQuery, archetype: EntityArchetype)
    requires q.includes == 0 && q.excludes == 0 && q.sharedIncludes == 0 && q.sharedExcludes == 0
    ensures q.InBounds() && q.Satisfies(archetype)
  {
  }

  /** The four ranges of a query as separate lists. */
  datatype Ranges = Ranges(includes: seq<TypeId>, excludes: seq<TypeId>,
                           sharedIncludes: seq<TypeId>, sharedExcludes: seq<TypeId>)

  /** The flat query holding `r`'s four lists one after another. */
  function Flatten(r: Ranges): (q: ComponentQuery)
    ensures q.WellFormed()
  {
    ComponentQuery(r.includes + r.excludes + r.sharedIncludes + r.sharedExcludes,
                   |r.includes|, |r.excludes|, |r.sharedIncludes|, |r.sharedExcludes|)
  }

  /** The four ranges of a query that fits its counts. */
  function Split(q: ComponentQuery): (r: Ranges)
    requires q.InBounds()
    ensures q.WellFormed() ==> Flatten(r) == q
  {
    var e, si := q.includes + q.excludes, q.includes + q.excludes + q.sharedIncludes;
    var r := Ranges(q.types[..q.includes], q.types[q.includes..e], q.types[e..si],
                    q.types[si..si + q.sharedExcludes]);
    assert q.WellFormed() ==> q.types == r.includes + r.excludes + r.sharedIncludes + r.sharedExcludes by {
      if q.WellFormed() {
        assert q.types == q.types[..q.includes] + q.types[q.includes..e] + q.types[e..si] + q.types[si..];
      }
    }
    r
  }

  /** What the four lists ask of an archetype, kind by kind. */
  ghost predicate Admits(r: Ranges, archetype: EntityArchetype) {
    && (forall t :: t in r.includes ==> archetype.HasComponentType(t))
    && (forall t :: t in r.excludes ==> !archetype.HasComponentType(t))
    && (forall t :: t in r.sharedIncludes ==> archetype.HasSharedComponentType(t))
    && (forall t :: t in r.sharedExcludes ==> !archetype.HasSharedComponentType(t))
  }

  /** The index-range reading of a flat query agrees with the list-by-list reading. */
  lemma FlattenSatisfies(r: Ranges, archetype: EntityArchetype)
    ensures Flatten(r).InBounds()
    ensures Flatten(r).Satisfies(archetype) <==> Admits(r, archetype)
  {
    if Flatten(r).Satisfies(archetype) {
      SatisfiesAdmits(r, archetype);
    }
    if Admits(r, archetype) {
      AdmitsSatisfies(r, archetype);
    }
  }

  /** The four ranges of a flattened query are the four lists. */
  lemma FlattenSlices(r: Ranges)
    ensures var q, a := Flatten(r), |r.includes|;
      var e, si := a + |r.excludes|, a + |r.excludes| + |r.sharedIncludes|;
      && q.types[..a] == r.includes && q.types[a..e] == r.excludes
      && q.types[e..si] == r.sharedIncludes && q.types[si..si + |r.sharedExcludes|] == r.sharedExcludes
  {
    var x1 := r.includes + r.excludes;
    var x2 := x1 + r.sharedIncludes;
    var t := Flatten(r).types;
    assert t == x2 + r.sharedExcludes;
    assert t[..|x2|] == x2 && t[|x2|..] == r.sharedExcludes;
    assert t[|x1|..|x2|] == x2[|x1|..] == r.sharedIncludes;
    assert t[..|x1|] == x1;
    assert t[|r.includes|..|x1|] == x1[|r.includes|..] == r.excludes;
    assert t[..|r.includes|] == x1[..|r.includes|] == r.includes;
  }

  /** A flat query's test passed means each list's demand is met. */
  lemma SatisfiesAdmits(r: Ranges, archetype: EntityArchetype)
    requires Flatten(r).Satisfies(archetype)
    ensures Admits(r, archetype)
  {
    var q := Flatten(r);
    var a, e, si := |r.includes|, |r.includes| + |r.excludes|, |r.includes| + |r.excludes| + |r.sharedIncludes|;
    FlattenSlices(r);
    RangeMembers(q.types, 0, r.includes);
    RangeMembers(q.types, a, r.excludes);
    RangeMembers(q.types, e, r.sharedIncludes);
    RangeMembers(q.types, si, r.sharedExcludes);
  }

  /** Each list's demand met means the flat query's test passes. */
  lemma AdmitsSatisfies(r: Ranges, archetype: EntityArchetype)
    requires Admits(r, archetype)
    ensures Flatten(r).Satisfies(archetype)
  {
    var q := Flatten(r);
    var a, e, si := |r.includes|, |r.includes| + |r.excludes|, |r.includes| + |r.excludes| + |r.sharedIncludes|;
    FlattenSlices(r);
    RangeMembers(q.types, 0, r.includes);
    RangeMembers(q.types, a, r.excludes);
    RangeMembers(q.types, e, r.sharedIncludes);
    RangeMembers(q.types, si, r.sharedExcludes);
  }

  /** A slice of `types` that equals `s`: its positions hold exactly the members of `s`. */
  lemma RangeMembers(types: seq<TypeId>, lo: nat, s: seq<TypeId>)
    requires lo + |s| <= |types| && types[lo..lo + |s|] == s
    ensures forall j :: lo <= j < lo + |s| ==> types[j] in s
    ensures forall k :: 0 <= k < |s| ==> types[lo + k] == s[k]
  {
    forall j | lo <= j < lo + |s| ensures types[j] in s {
      assert types[j] == s[j - lo];
    }
  }

  /** `IncludeType<T>::Add` for a component: `t` goes to the front of the list. */
  function IncludeComponent(q: ComponentQuery, t: TypeId): (r: ComponentQuery)
    requires q.WellFormed()
    ensures r.WellFormed()
  {
    q.(types := [t] + q.types, includes := q.includes + 1)
  }

  /** `types` with `t` inserted at position `at`, shifting the tail right. */
  function Insert(types: seq<TypeId>, at: nat, t: TypeId): (r: seq<TypeId>)
    requires at <= |types|
    ensures |r| == |types| + 1
  {
    types[..at] + [t] + types[at..]
  }

  /** `ExcludeType<T>::Add` for a component: `t` is inserted at position `includes`. */
  function ExcludeComponent(q: ComponentQuery, t: TypeId): (r: ComponentQuery)
    requires q.WellFormed()
    ensures r.WellFormed()
  {
    q.(types := Insert(q.types, q.includes, t), excludes := q.excludes + 1)
  }

  /** `IncludeType<T>::Add` for a shared component: `t` is inserted at `includes + excludes`. */
  function IncludeShared(q: ComponentQuery, t: TypeId): (r: ComponentQuery)
    requires q.WellFormed()
    ensures r.WellFormed()
  {
    q.(types := Insert(q.types, q.includes + q.excludes, t), sharedIncludes := q.sharedIncludes + 1)
  }

  /** `ExcludeType<T>::Add` for a shared component: `t` goes to the head of the last range. */
  function ExcludeShared(q: ComponentQuery, t: TypeId): (r: ComponentQuery)
    requires q.WellFormed()
    ensures r.WellFormed()
  {
    q.(types := Insert(q.types, q.includes + q.excludes + q.sharedIncludes, t), sharedExcludes := q.sharedExcludes + 1)
  }

  /** One `IncludeType<T>` or `ExcludeType<T>` of a `ComponentQueryTemplate`. */
  datatype QueryTerm = Include(kind: Kind, typeId: TypeId) | Exclude(kind: Kind, typeId: TypeId)

  /** The test one term puts on an archetype. */
  predicate TermHolds(term: QueryTerm, archetype: EntityArchetype) {
    match term
    case Include(Component, t) => archetype.HasComponentType(t)
    case Include(Shared, t) => archetype.HasSharedComponentType(t)
    case Exclude(Component, t) => !archetype.HasComponentType(t)
    case Exclude(Shared, t) => !archetype.HasSharedComponentType(t)
  }

  /** `Add` of one term: the builder the term's kind and polarity select. */
  function AddTerm(q: ComponentQuery, term: QueryTerm): (r: ComponentQuery)
    requires q.WellFormed()
    ensures r.WellFormed() && |r.types| == |q.types| + 1
  {
    match term
    case Include(Component, t) => IncludeComponent(q, t)
    case Include(Shared, t) => IncludeShared(q, t)
    case Exclude(Component, t) => ExcludeComponent(q, t)
    case Exclude(Shared, t) => ExcludeShared(q, t)
  }

  /** A term added to its own list, at the front, as its builder inserts it. */
  function AddToRanges(r: Ranges, term: QueryTerm): Ranges {
    match term
    case Include(Component, t) => r.(includes := [t] + r.includes)
    case Include(Shared, t) => r.(sharedIncludes := [t] + r.sharedIncludes)
    case Exclude(Component, t) => r.(excludes := [t] + r.excludes)
    case Exclude(Shared, t) => r.(sharedExcludes := [t] + r.sharedExcludes)
  }

  /** The four lists a sequence of terms builds. */
  function RangesOf(terms: seq<QueryTerm>): Ranges
    decreases |terms|
  {
    if terms == [] then Ranges([], [], [], []) else AddToRanges(RangesOf(terms[..|terms| - 1]), terms[|terms| - 1])
  }

  /** Splitting a flattened query gives back its lists. */
  lemma SplitFlatten(r: Ranges)
    ensures Split(Flatten(r)) == r
  {
    var q := Flatten(r);
    var a, e := |r.includes|, |r.includes| + |r.excludes|;
    var si := e + |r.sharedIncludes|;
    assert q.types[..a] == r.includes;
    assert q.types[a..e] == r.excludes;
    assert q.types[e..si] == r.sharedIncludes;
    assert q.types[si..si + |r.sharedExcludes|] == r.sharedExcludes;
  }

  /** Adding a term to a flat query adds it to the front of its own list. */
  lemma AddTermFlattens(r: Ranges, term: QueryTerm)
    ensures AddTerm(Flatten(r), term) == Flatten(AddToRanges(r, term))
  {
    var q := Flatten(r);
    var a, e := |r.includes|, |r.includes| + |r.excludes|;
    var si := e + |r.sharedIncludes|;
    match term
    case Include(Component, t) =>
      assert [t] + q.types == ([t] + r.includes) + r.excludes + r.sharedIncludes + r.sharedExcludes;
    case Exclude(Component, t) =>
      var tail := r.excludes + r.sharedIncludes + r.sharedExcludes;
      assert q.types == r.includes + tail;
      assert q.types[..a] == r.includes && q.types[a..] == tail;
      assert Insert(q.types, a, t) == r.includes + ([t] + r.excludes) + r.sharedIncludes + r.sharedExcludes;
    case Include(Shared, t) =>
      var head, tail := r.includes + r.excludes, r.sharedIncludes + r.sharedExcludes;
      assert q.types == head + tail;
      assert q.types[..e] == head && q.types[e..] == tail;
      assert Insert(q.types, e, t) == r.includes + r.excludes + ([t] + r.sharedIncludes) + r.sharedExcludes;
    case Exclude(Shared, t) =>
      var head := r.includes + r.excludes + r.sharedIncludes;
      assert q.types == head + r.sharedExcludes;
      assert q.types[..si] == head && q.types[si..] == r.sharedExcludes;
      assert Insert(q.types, si, t) == r.includes + r.excludes + r.sharedIncludes + ([t] + r.sharedExcludes);
  }

  /** The query a sequence of terms describes: each term's type in its own range. */
  function BuiltQuery(terms: seq<QueryTerm>): (q: ComponentQuery)
    ensures q.WellFormed() && |q.types| == |terms|
  {
    BuiltQueryLength(terms);
    Flatten(RangesOf(terms))
  }

  lemma {:induction false} BuiltQueryLength(terms: seq<QueryTerm>)
    ensures |Flatten(RangesOf(terms)).types| == |terms|
    decreases |terms|
  {
    if terms != [] {
      BuiltQueryLength(terms[..|terms| - 1]);
    }
  }

  /** No terms build the empty query. */
  lemma BuildStart()
    ensures BuiltQuery([]) == EmptyQuery
  {
  }

  /**
   * `ComponentQueryTemplate<Types...>::Build` expands to one `Add` per term, in
   * order, on an empty query: each further `Add` extends the query of the terms so
   * far to the query of one more term, so the expansion yields `BuiltQuery(terms)`.
   */
  lemma BuildStep(done: seq<QueryTerm>, term: QueryTerm)
    ensures AddTerm(BuiltQuery(done), term) == BuiltQuery(done + [term])
  {
    assert (done + [term])[..|done|] == done;
    AddTermFlattens(RangesOf(done), term);
  }

  /** The lists built from some terms admit an archetype exactly when each term holds. */
  lemma {:induction false} RangesOfAdmits(terms: seq<QueryTerm>, archetype: EntityArchetype)
    ensures Admits(RangesOf(terms), archetype) <==> forall i :: 0 <= i < |terms| ==> TermHolds(terms[i], archetype)
    decreases |terms|
  {
    if terms != [] {
      var init, last := terms[..|terms| - 1], terms[|terms| - 1];
      RangesOfAdmits(init, archetype);
      var r := RangesOf(init);
      assert last.typeId in [last.typeId];
      assert Admits(AddToRanges(r, last), archetype) <==> Admits(r, archetype) && TermHolds(last, archetype);
      assert forall i :: 0 <= i < |init| ==> init[i] == terms[i];
    }
  }

  /** A built query matches exactly the archetypes that pass every one of its terms. */
  lemma BuildSatisfies(terms: seq<QueryTerm>, archetype: EntityArchetype)
    ensures BuiltQuery(terms).InBounds()
    ensures BuiltQuery(terms).Satisfies(archetype) <==> forall i :: 0 <= i < |terms| ==> TermHolds(terms[i], archetype)
  {
    FlattenSatisfies(RangesOf(terms), archetype);
    RangesOfAdmits(terms, archetype);
  }

  /** Adding a term narrows the query by exactly that term's test. */
  lemma AddTermSatisfies(q: ComponentQuery, term: QueryTerm, archetype: EntityArchetype)
    requires q.WellFormed()
    ensures AddTerm(q, term).InBounds()
    ensures AddTerm(q, term).Satisfies(archetype) <==> q.Satisfies(archetype) && TermHolds(term, archetype)
  {
    var parts := Split(q);
    AddTermFlattens(parts, term);
    FlattenSatisfies(parts, archetype);
    FlattenSatisfies(AddToRanges(parts, term), archetype);
    assert term.typeId in [term.typeId];
  }

  /**
   * `Include<T1, S1>().Exclude<S2>().Exclude<T2>()` lays the list out as
   * `[T1, T2, S1, S2]`: including, then excluding, each in its own range.
   */
  lemma BuildOrder(t1: TypeId, t2: TypeId, s1: TypeId, s2: TypeId)
    ensures var q := BuiltQuery([Include(Component, t1), Include(Shared, s1), Exclude(Shared, s2), Exclude(Component, t2)]);
      && q.types == [t1, t2, s1, s2]
      && q.includes == 1 && q.excludes == 1 && q.sharedIncludes == 1 && q.sharedExcludes == 1
  {
    var terms := [Include(Component, t1), Include(Shared, s1), Exclude(Shared, s2), Exclude(Component, t2)];
    assert terms[..3][..2][..1][..0] == [];
    assert RangesOf(terms[..3][..2][..1]) == Ranges([t1], [], [], []);
    assert RangesOf(terms[..3][..2]) == Ranges([t1], [], [s1], []);
    assert RangesOf(terms[..3]) == Ranges([t1], [], [s1], [s2]);
    assert RangesOf(terms) == Ranges([t1], [t2], [s1], [s2]);
  }

  /**
   * The matching scenario: an archetype with two components and two shared
   * components, one with the two components only and one with the two shared
   * components only, and four queries over them.
   */
  lemma MatchScenario(t1: ComponentType, t2: ComponentType, s1: TypeId, s2: TypeId,
                      p1: Ptr, p2: Ptr, hasher: PtrHasher)
    requires t1.typeId != t2.typeId && s1 != s2
    requires s1 != t1.typeId && s1 != t2.typeId && s2 != t1.typeId && s2 != t2.typeId
    ensures
      var components := FromComponent(t1).AddComponent(t2);
      var all := components.AddSharedComponent(s1, p1, hasher).AddSharedComponent(s2, p2, hasher);
      var sharedOnly := EmptyArchetype().AddSharedComponent(s1, p1, hasher).AddSharedComponent(s2, p2, hasher);
      var q1 := BuiltQuery([Include(Component, t1.typeId), Include(Component, t2.typeId), Include(Shared, s1), Include(Shared, s2)]);
      var q2 := BuiltQuery([Include(Component, t1.typeId)]);
      var q3 := BuiltQuery([Include(Component, t2.typeId), Exclude(Shared, s1)]);
      var q4 := BuiltQuery([Include(Shared, s1), Exclude(Component, t1.typeId)]);
      && q1.Satisfies(all) && !q1.Satisfies(components) && !q1.Satisfies(sharedOnly)
      && q2.Satisfies(all) && q2.Satisfies(components) && !q2.Satisfies(sharedOnly)
      && !q3.Satisfies(all) && q3.Satisfies(components) && !q3.Satisfies(sharedOnly)
      && !q4.Satisfies(all) && !q4.Satisfies(components) && q4.Satisfies(sharedOnly)
  {
    var components := FromComponent(t1).AddComponent(t2);
    var all := components.AddSharedComponent(s1, p1, hasher).AddSharedComponent(s2, p2, hasher);
    var sharedOnly := EmptyArchetype().AddSharedComponent(s1, p1, hasher).AddSharedComponent(s2, p2, hasher);
    assert components.componentTypesMemory.Keys == {t1.typeId, t2.typeId} && components.sharedComponents.Keys == {};
    assert all.componentTypesMemory.Keys == {t1.typeId, t2.typeId} && all.sharedComponents.Keys == {s1, s2};
    assert sharedOnly.componentTypesMemory.Keys == {} && sharedOnly.sharedComponents.Keys == {s1, s2};
    ScenarioQuery1(t1.typeId, t2.typeId, s1, s2, all, components, sharedOnly);
    ScenarioQuery2(t1.typeId, t2.typeId, s1, s2, all, components, sharedOnly);
    ScenarioQuery3(t1.typeId, t2.typeId, s1, s2, all, components, sharedOnly);
    ScenarioQuery4(t1.typeId, t2.typeId, s1, s2, all, components, sharedOnly);
  }

  /** The members of the scenario's three archetypes, over which its queries are tested. */
  ghost predicate Scenario(t1: TypeId, t2: TypeId, s1: TypeId, s2: TypeId,
                           all: EntityArchetype, components: EntityArchetype, sharedOnly: EntityArchetype)
  {
    && t1 != t2 && s1 != s2 && s1 != t1 && s1 != t2 && s2 != t1 && s2 != t2
    && all.componentTypesMemory.Keys == {t1, t2} && all.sharedComponents.Keys == {s1, s2}
    && components.componentTypesMemory.Keys == {t1, t2} && components.sharedComponents.Keys == {}
    && sharedOnly.componentTypesMemory.Keys == {} && sharedOnly.sharedComponents.Keys == {s1, s2}
  }

  /** Including all four members matches only the archetype that has all four. */
  lemma ScenarioQuery1(t1: TypeId, t2: TypeId, s1: TypeId, s2: TypeId,
                       all: EntityArchetype, components: EntityArchetype, sharedOnly: EntityArchetype)
    requires Scenario(t1, t2, s1, s2, all, components, sharedOnly)
    ensures var q := BuiltQuery([Include(Component, t1), Include(Component, t2), Include(Shared, s1), Include(Shared, s2)]);
      q.Satisfies(all) && !q.Satisfies(components) && !q.Satisfies(sharedOnly)
  {
    var terms := [Include(Component, t1), Include(Component, t2), Include(Shared, s1), Include(Shared, s2)];
    BuildSatisfies(terms, all);
    BuildSatisfies(terms, components);
    BuildSatisfies(terms, sharedOnly);
    assert !TermHolds(terms[0], sharedOnly) && !TermHolds(terms[2], components);
  }

  /** Including one component matches both archetypes that have it. */
  lemma ScenarioQuery2(t1: TypeId, t2: TypeId, s1: TypeId, s2: TypeId,
                       all: EntityArchetype, components: EntityArchetype, sharedOnly: EntityArchetype)
    requires Scenario(t1, t2, s1, s2, all, components, sharedOnly)
    ensures var q := BuiltQuery([Include(Component, t1)]);
      q.Satisfies(all) && q.Satisfies(components) && !q.Satisfies(sharedOnly)
  {
    var terms := [Include(Component, t1)];
    BuildSatisfies(terms, all);
    BuildSatisfies(terms, components);
    BuildSatisfies(terms, sharedOnly);
    assert !TermHolds(terms[0], sharedOnly);
  }

  /** Including a component and excluding a shared type matches the components-only archetype. */
  lemma ScenarioQuery3(t1: TypeId, t2: TypeId, s1: TypeId, s2: TypeId,
                       all: EntityArchetype, components: EntityArchetype, sharedOnly: EntityArchetype)
    requires Scenario(t1, t2, s1, s2, all, components, sharedOnly)
    ensures var q := BuiltQuery([Include(Component, t2), Exclude(Shared, s1)]);
      !q.Satisfies(all) && q.Satisfies(components) && !q.Satisfies(sharedOnly)
  {
    var terms := [Include(Component, t2), Exclude(Shared, s1)];
    BuildSatisfies(terms, all);
    BuildSatisfies(terms, components);
    BuildSatisfies(terms, sharedOnly);
    assert !TermHolds(terms[1], all) && !TermHolds(terms[0], sharedOnly);
  }

  /** Including a shared type and excluding a component matches the shared-only archetype. */
  lemma ScenarioQuery4(t1: TypeId, t2: TypeId, s1: TypeId, s2: TypeId,
                       all: EntityArchetype, components: EntityArchetype, sharedOnly: EntityArchetype)
    requires Scenario(t1, t2, s1, s2, all, components, sharedOnly)
    ensures var q := BuiltQuery([Include(Shared, s1), Exclude(Component, t1)]);
      !q.Satisfies(all) && !q.Satisfies(components) && q.Satisfies(sharedOnly)
  {
    var terms := [Include(Shared, s1), Exclude(Component, t1)];
    BuildSatisfies(terms, all);
    BuildSatisfies(terms, components);
    BuildSatisfies(terms, sharedOnly);
    assert !TermHolds(terms[1], all) && !TermHolds(terms[0], components);
  }
}
