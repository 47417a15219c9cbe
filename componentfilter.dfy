/**
 * `ComponentFilter`: the older archetype matcher, four lists of type ids (components
 * to include, shared types to include, components to exclude, shared types to
 * exclude) that `Include` and `Exclude` append to and `Matches` checks in turn.
 */
module ComponentFilters {
  import opened Types
  import opened EntityArchetypes

  /**
   * The meaning of four constraint lists: every included type is a component, every
   * included shared type is bound, no excluded type is a component and no excluded
   * shared type is bound.
   */
  ghost predicate Admits(includes: seq<TypeId>, sharedIncludes: seq<TypeId>, excludes: seq<TypeId>,
                         sharedExcludes: seq<TypeId>, archetype: EntityArchetype) {
    && (forall t :: t in includes ==> archetype.HasComponentType(t))
    && (forall t :: t in sharedIncludes ==> archetype.HasSharedComponentType(t))
    && (forall t :: t in excludes ==> !archetype.HasComponentType(t))
    && (forall t :: t in sharedExcludes ==> !archetype.HasSharedComponentType(t))
  }

  /** Every element of `s` passes `test`: the shape of each of the four loops of `Matches`. */
  ghost predicate AllHave(s: seq<TypeId>, archetype: EntityArchetype, shared: bool, present: bool) {
    forall t :: t in s ==> Has(archetype, t, shared) == present
  }

  /** `HasComponentType` or `HasSharedComponentType`. */
  predicate Has(archetype: EntityArchetype, t: TypeId, shared: bool) {
    if shared then archetype.HasSharedComponentType(t) else archetype.HasComponentType(t)
  }

  /**
   * One loop of `Matches`: the first type of `s` whose presence differs from `present`
   * stops it with false.
   */
  method CheckAll(s: seq<TypeId>, archetype: EntityArchetype, shared: bool, present: bool) returns (ok: bool)
    ensures ok <==> AllHave(s, archetype, shared, present)
  {
    var i := 0;
    while i < |s|
      invariant 0 <= i <= |s|
      invariant forall j :: 0 <= j < i ==> Has(archetype, s[j], shared) == present
    {
      if Has(archetype, s[i], shared) != present {
        return false;
      }
      i := i + 1;
    }
    return true;
  }

  /** An archetype passes the four loops exactly when it satisfies the four lists. */
  lemma AllHaveAdmits(includes: seq<TypeId>, sharedIncludes: seq<TypeId>, excludes: seq<TypeId>,
                      sharedExcludes: seq<TypeId>, archetype: EntityArchetype)
    ensures Admits(includes, sharedIncludes, excludes, sharedExcludes, archetype) <==>
      && AllHave(includes, archetype, false, true)
      && AllHave(sharedIncludes, archetype, true, true)
      && AllHave(excludes, archetype, false, false)
      && AllHave(sharedExcludes, archetype, true, false)
  {
  }

  /** A filter with no constraints matches every archetype. */
  lemma EmptyFilterAdmitsAll(archetype: EntityArchetype)
    ensures Admits([], [], [], [], archetype)
  {
  }

  /**
   * Appending a constraint of any of the four kinds never turns a non-match into a
   * match: whatever the longer filter admits, the shorter one admits.
   */
  lemma MoreConstraintsAdmitLess(includes: seq<TypeId>, sharedIncludes: seq<TypeId>, excludes: seq<TypeId>,
                                 sharedExcludes: seq<TypeId>, t: TypeId, archetype: EntityArchetype)
    ensures Admits(includes + [t], sharedIncludes, excludes, sharedExcludes, archetype) ==>
      Admits(includes, sharedIncludes, excludes, sharedExcludes, archetype)
    ensures Admits(includes, sharedIncludes + [t], excludes, sharedExcludes, archetype) ==>
      Admits(includes, sharedIncludes, excludes, sharedExcludes, archetype)
    ensures Admits(includes, sharedIncludes, excludes + [t], sharedExcludes, archetype) ==>
      Admits(includes, sharedIncludes, excludes, sharedExcludes, archetype)
    ensures Admits(includes, sharedIncludes, excludes, sharedExcludes + [t], archetype) ==>
      Admits(includes, sharedIncludes, excludes, sharedExcludes, archetype)
  {
    assert forall u :: u in includes ==> u in includes + [t];
    assert forall u :: u in sharedIncludes ==> u in sharedIncludes + [t];
    assert forall u :: u in excludes ==> u in excludes + [t];
    assert forall u :: u in sharedExcludes ==> u in sharedExcludes + [t];
  }

  /** A type both included and excluded, as a component or as a shared type, admits nothing. */
  lemma ContradictoryFilterAdmitsNothing(includes: seq<TypeId>, sharedIncludes: seq<TypeId>, excludes: seq<TypeId>,
                                         sharedExcludes: seq<TypeId>, archetype: EntityArchetype)
    requires (exists t :: t in includes && t in excludes) || (exists t :: t in sharedIncludes && t in sharedExcludes)
    ensures !Admits(includes, sharedIncludes, excludes, sharedExcludes, archetype)
  {
  }

  class ComponentFilter {
    /** `includeTypes`. */
    var includeTypes: seq<TypeId>
    /** `includeSharedTypes`. */
    var includeSharedTypes: seq<TypeId>
    /** `excludeTypes`. */
    var excludeTypes: seq<TypeId>
    /** `excludeSharedTypes`. */
    var excludeSharedTypes: seq<TypeId>

    /** What the filter currently admits. */
    ghost predicate Satisfies(archetype: EntityArchetype)
      reads this
    {
      Admits(includeTypes, includeSharedTypes, excludeTypes, excludeSharedTypes, archetype)
    }

    /** A new filter has no constraints, so it matches every archetype. */
    constructor ()
      ensures includeTypes == [] && includeSharedTypes == [] && excludeTypes == [] && excludeSharedTypes == []
      ensures forall a :: Satisfies(a)
    {
      includeTypes, includeSharedTypes, excludeTypes, excludeSharedTypes := [], [], [], [];
    }

    /** `Include<T>` for a component type: `t` appended to the includes. */
    method IncludeComponent(t: TypeId)
      modifies this
      ensures includeTypes == old(includeTypes) + [t]
      ensures includeSharedTypes == old(includeSharedTypes) && excludeTypes == old(excludeTypes)
      ensures excludeSharedTypes == old(excludeSharedTypes)
      ensures forall a :: Satisfies(a) <==> old(Satisfies(a)) && a.HasComponentType(t)
    {
      includeTypes := includeTypes + [t];
    }

    /** `Include<T>` for a shared type: `t` appended to the shared includes. */
    method IncludeShared(t: TypeId)
      modifies this
      ensures includeSharedTypes == old(includeSharedTypes) + [t]
      ensures includeTypes == old(includeTypes) && excludeTypes == old(excludeTypes)
      ensures excludeSharedTypes == old(excludeSharedTypes)
      ensures forall a :: Satisfies(a) <==> old(Satisfies(a)) && a.HasSharedComponentType(t)
    {
      includeSharedTypes := includeSharedTypes + [t];
    }

    /** `Exclude<T>` for a component type: `t` appended to the excludes. */
    method ExcludeComponent(t: TypeId)
      modifies this
      ensures excludeTypes == old(excludeTypes) + [t]
      ensures includeTypes == old(includeTypes) && includeSharedTypes == old(includeSharedTypes)
      ensures excludeSharedTypes == old(excludeSharedTypes)
      ensures forall a :: Satisfies(a) <==> old(Satisfies(a)) && !a.HasComponentType(t)
    {
      excludeTypes := excludeTypes + [t];
    }

    /** `Exclude<T>` for a shared type: `t` appended to the shared excludes. */
    method ExcludeShared(t: TypeId)
      modifies this
      ensures excludeSharedTypes == old(excludeSharedTypes) + [t]
      ensures includeTypes == old(includeTypes) && includeSharedTypes == old(includeSharedTypes)
      ensures excludeTypes == old(excludeTypes)
      ensures forall a :: Satisfies(a) <==> old(Satisfies(a)) && !a.HasSharedComponentType(t)
    {
      excludeSharedTypes := excludeSharedTypes + [t];
    }

    /**
     * `Matches`: the include loop, the shared-include loop, the exclude loop and the
     * shared-exclude loop, each returning false at its first failing type.
     */
    method Matches(archetype: EntityArchetype) returns (r: bool)
      ensures r <==> Satisfies(archetype)
    {
      AllHaveAdmits(includeTypes, includeSharedTypes, excludeTypes, excludeSharedTypes, archetype);
      r := CheckAll(includeTypes, archetype, false, true);
      if !r {
        return;
      }
      r := CheckAll(includeSharedTypes, archetype, true, true);
      if !r {
        return;
      }
      r := CheckAll(excludeTypes, archetype, false, false);
      if !r {
        return;
      }
      r := CheckAll(excludeSharedTypes, archetype, true, false);
    }
  }
}
