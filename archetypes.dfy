/**
 * The schema descriptor (`EntityArchetype`): an immutable value holding the
 * component types of an archetype with their byte sizes, the shared-component
 * bindings (type id to an externally owned instance) and a hash that is the XOR
 * fold of all of these.
 */
module EntityArchetypes {
  import opened Types
  import opened Folds

  /** What each component type adds to the hash: its own id. */
  function ComponentHashes(components: map<TypeId, ByteSize>): (m: map<TypeId, TypeHash>)
    ensures m.Keys == components.Keys
    ensures forall t :: t in m ==> m[t] == t
  {
    map t | t in components :: t
  }

  /** What each shared binding adds to the hash: its type id XOR the hash of the bound pointer. */
  function SharedHashes(shared: map<TypeId, Ptr>, hasher: PtrHasher): (m: map<TypeId, TypeHash>)
    ensures m.Keys == shared.Keys
    ensures forall t :: t in m ==> m[t] == t.Xor(hasher(shared[t]))
  {
    map t | t in shared :: t.Xor(hasher(shared[t]))
  }

  /** The hash `GenerateHash` computes for a membership: everything XOR-ed together. */
  ghost function HashOf(components: map<TypeId, ByteSize>, shared: map<TypeId, Ptr>, hasher: PtrHasher): TypeHash
  {
    XorValues(ComponentHashes(components)).Xor(XorValues(SharedHashes(shared, hasher)))
  }

  datatype EntityArchetype = EntityArchetype(
    componentTypesMemory: map<TypeId, ByteSize>,
    sharedComponents: map<TypeId, Ptr>,
    archetypeHash: TypeHash)
  {
    /** The stored hash is the one `GenerateHash` computes for the membership. */
    ghost predicate Valid(hasher: PtrHasher) {
      archetypeHash == HashOf(componentTypesMemory, sharedComponents, hasher)
    }

    function HasComponentType(componentType: TypeId): bool {
      componentType in componentTypesMemory
    }

    function HasSharedComponentType(sharedComponentType: TypeId): bool {
      sharedComponentType in sharedComponents
    }

    function GetComponentTypes(): map<TypeId, ByteSize> {
      componentTypesMemory
    }

    function ArchetypeHash(): TypeHash {
      archetypeHash
    }

    /** The bound instance of a shared type, or `nullptr` when the type is not bound. */
    function GetSharedComponent(sharedComponentType: TypeId): (p: Ptr)
      ensures HasSharedComponentType(sharedComponentType) ==> p == sharedComponents[sharedComponentType]
      ensures !HasSharedComponentType(sharedComponentType) ==> p == NullPtr
    {
      if sharedComponentType in sharedComponents then sharedComponents[sharedComponentType] else NullPtr
    }

    /**
     * A copy with the component type emplaced: an already present type keeps its
     * size (emplace does not overwrite); the receiver is unchanged (a value).
     */
    function AddComponent(component: ComponentType): (r: EntityArchetype)
      ensures r.componentTypesMemory.Keys == componentTypesMemory.Keys + {component.typeId}
      ensures forall t :: t in componentTypesMemory ==> r.componentTypesMemory[t] == componentTypesMemory[t]
      ensures component.typeId !in componentTypesMemory ==> r.componentTypesMemory[component.typeId] == component.memorySize
      ensures r.sharedComponents == sharedComponents
    {
      if component.typeId in componentTypesMemory then this
      else
        EntityArchetype(componentTypesMemory[component.typeId := component.memorySize],
                        sharedComponents,
                        archetypeHash.Xor(component.typeId))
    }

    /** A copy with the component type erased; a no-op when it is absent. */
    function RemoveComponent(component: ComponentType): (r: EntityArchetype)
      ensures r.componentTypesMemory.Keys == componentTypesMemory.Keys - {component.typeId}
      ensures forall t :: t in r.componentTypesMemory ==> r.componentTypesMemory[t] == componentTypesMemory[t]
      ensures r.sharedComponents == sharedComponents
      ensures !HasComponentType(component.typeId) ==> r == this
    {
      if component.typeId in componentTypesMemory then
        EntityArchetype(componentTypesMemory - {component.typeId},
                        sharedComponents,
                        archetypeHash.Xor(component.typeId))
      else this
    }

    /** A copy with the shared binding emplaced: an existing binding of that type is kept. */
    function AddSharedComponent(sharedType: TypeId, component: Ptr, hasher: PtrHasher): (r: EntityArchetype)
      ensures r.sharedComponents.Keys == sharedComponents.Keys + {sharedType}
      ensures forall t :: HasSharedComponentType(t) ==> r.GetSharedComponent(t) == GetSharedComponent(t)
      ensures !HasSharedComponentType(sharedType) ==> r.GetSharedComponent(sharedType) == component
      ensures r.componentTypesMemory == componentTypesMemory
    {
      if sharedType in sharedComponents then this
      else
        EntityArchetype(componentTypesMemory,
                        sharedComponents[sharedType := component],
                        archetypeHash.Xor(sharedType.Xor(hasher(component))))
    }

    /** A copy with the shared binding erased; a no-op when the type is not bound. */
    function RemoveSharedComponent(sharedType: TypeId, hasher: PtrHasher): (r: EntityArchetype)
      ensures r.sharedComponents.Keys == sharedComponents.Keys - {sharedType}
      ensures forall t :: r.HasSharedComponentType(t) ==> r.GetSharedComponent(t) == GetSharedComponent(t)
      ensures !r.HasSharedComponentType(sharedType) && r.GetSharedComponent(sharedType) == NullPtr
      ensures r.componentTypesMemory == componentTypesMemory
    {
      if sharedType in sharedComponents then
        EntityArchetype(componentTypesMemory,
                        sharedComponents - {sharedType},
                        archetypeHash.Xor(sharedType.Xor(hasher(sharedComponents[sharedType]))))
      else this
    }
  }

  /** `EntityArchetype()`: no members and hash 0. */
  function EmptyArchetype(): (r: EntityArchetype)
    ensures forall t :: !r.HasComponentType(t) && !r.HasSharedComponentType(t)
    ensures r.ArchetypeHash() == ZeroHash
  {
    EntityArchetype(map[], map[], ZeroHash)
  }

  /** `EntityArchetype(const ComponentType&)`: just that one component type. */
  function FromComponent(component: ComponentType): (r: EntityArchetype)
    ensures r.componentTypesMemory.Keys == {component.typeId}
    ensures r.componentTypesMemory[component.typeId] == component.memorySize
    ensures r.sharedComponents == map[]
  {
    EntityArchetype(map[component.typeId := component.memorySize], map[], component.typeId)
  }

  /**
   * `GenerateHash`: XOR every component type id, then every shared type id and the
   * hash of its bound pointer, visiting the map entries in whatever order they come.
   */
  method GenerateHash(components: map<TypeId, ByteSize>, shared: map<TypeId, Ptr>, hasher: PtrHasher)
    returns (finalHash: TypeHash)
    ensures finalHash == HashOf(components, shared, hasher)
  {
    finalHash := XorComponentTypes(ZeroHash, components);
    XorZero(XorValues(ComponentHashes(components)));
    finalHash := XorSharedComponents(finalHash, shared, hasher);
  }

  /** The first loop of `GenerateHash`: XOR each component type id into `start`. */
  method XorComponentTypes(start: TypeHash, components: map<TypeId, ByteSize>) returns (finalHash: TypeHash)
    ensures finalHash == start.Xor(XorValues(ComponentHashes(components)))
  {
    finalHash := start;
    var rest: map<TypeId, ByteSize> := components;
    while rest != map[]
      invariant finalHash.Xor(XorValues(ComponentHashes(rest))) == start.Xor(XorValues(ComponentHashes(components)))
      decreases |rest|
    {
      var t: TypeId :| t in rest;
      ComponentHashesRemove(rest, t);
      XorAssoc(finalHash, t, XorValues(ComponentHashes(rest - {t})));
      finalHash := finalHash.Xor(t);
      rest := rest - {t};
    }
    ComponentHashesEmpty(rest);
    XorZero(finalHash);
  }

  /** The second loop of `GenerateHash`: XOR each shared type id and its pointer's hash into `start`. */
  method XorSharedComponents(start: TypeHash, shared: map<TypeId, Ptr>, hasher: PtrHasher) returns (finalHash: TypeHash)
    ensures finalHash == start.Xor(XorValues(SharedHashes(shared, hasher)))
  {
    finalHash := start;
    var restShared: map<TypeId, Ptr> := shared;
    while restShared != map[]
      invariant finalHash.Xor(XorValues(SharedHashes(restShared, hasher)))
             == start.Xor(XorValues(SharedHashes(shared, hasher)))
      decreases |restShared|
    {
      var t: TypeId :| t in restShared;
      var valueHash := hasher(restShared[t]);
      SharedHashesRemove(restShared, t, hasher);
      XorRegroup(finalHash, t, valueHash, XorValues(SharedHashes(restShared - {t}, hasher)));
      finalHash := finalHash.Xor(t);
      finalHash := finalHash.Xor(valueHash);
      restShared := restShared - {t};
    }
    SharedHashesEmpty(restShared, hasher);
    XorZero(finalHash);
  }

  lemma ComponentHashesEmpty(components: map<TypeId, ByteSize>)
    requires components == map[]
    ensures XorValues(ComponentHashes(components)) == ZeroHash
  {
    assert ComponentHashes(components) == map[];
  }

  lemma SharedHashesEmpty(shared: map<TypeId, Ptr>, hasher: PtrHasher)
    requires shared == map[]
    ensures XorValues(SharedHashes(shared, hasher)) == ZeroHash
  {
    assert SharedHashes(shared, hasher) == map[];
  }

  lemma ComponentHashesRemove(components: map<TypeId, ByteSize>, t: TypeId)
    requires t in components
    ensures XorValues(ComponentHashes(components)) == t.Xor(XorValues(ComponentHashes(components - {t})))
  {
    XorValuesRemove(ComponentHashes(components), t);
    assert ComponentHashes(components) - {t} == ComponentHashes(components - {t});
  }

  lemma SharedHashesRemove(shared: map<TypeId, Ptr>, t: TypeId, hasher: PtrHasher)
    requires t in shared
    ensures XorValues(SharedHashes(shared, hasher))
         == t.Xor(hasher(shared[t])).Xor(XorValues(SharedHashes(shared - {t}, hasher)))
  {
    XorValuesRemove(SharedHashes(shared, hasher), t);
    assert SharedHashes(shared, hasher) - {t} == SharedHashes(shared - {t}, hasher);
  }

  // ---------------------------------------------------------------------------
  // The stored hash agrees with the XOR fold after every transformation.

  lemma EmptyArchetypeValid(hasher: PtrHasher)
    ensures EmptyArchetype().Valid(hasher)
  {
    assert ComponentHashes(map[]) == map[];
    assert SharedHashes(map[], hasher) == map[];
    XorZero(ZeroHash);
  }

  lemma FromComponentValid(component: ComponentType, hasher: PtrHasher)
    ensures FromComponent(component).Valid(hasher)
    ensures FromComponent(component).ArchetypeHash() == component.typeId
  {
    var c := FromComponent(component).componentTypesMemory;
    assert ComponentHashes(c) == map[][component.typeId := TypeHash(component.typeId.bits)];
    XorValuesAdd(map[], component.typeId, component.typeId);
    assert SharedHashes(map[], hasher) == map[];
    XorZero(component.typeId);
  }

  lemma AddComponentValid(a: EntityArchetype, component: ComponentType, hasher: PtrHasher)
    requires a.Valid(hasher)
    ensures a.AddComponent(component).Valid(hasher)
  {
    var t := component.typeId;
    if t !in a.componentTypesMemory {
      var c: map<TypeId, ByteSize> := a.componentTypesMemory;
      assert ComponentHashes(c[t := component.memorySize]) == ComponentHashes(c)[t := TypeHash(t.bits)];
      XorValuesAdd(ComponentHashes(c), t, t);
      var xc, xs := XorValues(ComponentHashes(c)), XorValues(SharedHashes(a.sharedComponents, hasher));
      XorAssoc(xc, xs, t);
      XorComm(xs, t);
      XorAssoc(xc, t, xs);
      XorComm(xc, t);
    }
  }

  lemma RemoveComponentValid(a: EntityArchetype, component: ComponentType, hasher: PtrHasher)
    requires a.Valid(hasher)
    ensures a.RemoveComponent(component).Valid(hasher)
  {
    var t := component.typeId;
    if t in a.componentTypesMemory {
      var c: map<TypeId, ByteSize> := a.componentTypesMemory;
      assert ComponentHashes(c - {t}) == ComponentHashes(c) - {t};
      XorValuesRemove(ComponentHashes(c), t);
      var xc, xs := XorValues(ComponentHashes(c - {t})), XorValues(SharedHashes(a.sharedComponents, hasher));
      // a.archetypeHash == (t ^ xc) ^ xs; removing t leaves xc ^ xs
      XorAssoc(t, xc, xs);
      XorComm(t, xc.Xor(xs));
      XorCancel(xc.Xor(xs), t);
    }
  }

  lemma AddSharedComponentValid(a: EntityArchetype, sharedType: TypeId, component: Ptr, hasher: PtrHasher)
    requires a.Valid(hasher)
    ensures a.AddSharedComponent(sharedType, component, hasher).Valid(hasher)
  {
    if sharedType !in a.sharedComponents {
      var s: map<TypeId, Ptr> := a.sharedComponents;
      var v := sharedType.Xor(hasher(component));
      assert SharedHashes(s[sharedType := component], hasher) == SharedHashes(s, hasher)[sharedType := v];
      XorValuesAdd(SharedHashes(s, hasher), sharedType, v);
      var xc, xs := XorValues(ComponentHashes(a.componentTypesMemory)), XorValues(SharedHashes(s, hasher));
      XorAssoc(xc, xs, v);
      XorComm(xs, v);
    }
  }

  lemma RemoveSharedComponentValid(a: EntityArchetype, sharedType: TypeId, hasher: PtrHasher)
    requires a.Valid(hasher)
    ensures a.RemoveSharedComponent(sharedType, hasher).Valid(hasher)
  {
    if sharedType in a.sharedComponents {
      var s: map<TypeId, Ptr> := a.sharedComponents;
      assert SharedHashes(s - {sharedType}, hasher) == SharedHashes(s, hasher) - {sharedType};
      XorValuesRemove(SharedHashes(s, hasher), sharedType);
      var v := sharedType.Xor(hasher(s[sharedType]));
      var xc, xs := XorValues(ComponentHashes(a.componentTypesMemory)), XorValues(SharedHashes(s - {sharedType}, hasher));
      // a.archetypeHash == xc ^ (v ^ xs); removing v leaves xc ^ xs
      XorComm(v, xs);
      XorAssoc(xc, xs, v);
      XorCancel(xc.Xor(xs), v);
    }
  }

  // ---------------------------------------------------------------------------
  // Properties of the hash and of the transformations.

  /** Equal memberships give equal hashes, however they were built. */
  lemma HashDependsOnlyOnMembership(a: EntityArchetype, b: EntityArchetype, hasher: PtrHasher)
    requires a.Valid(hasher) && b.Valid(hasher)
    requires a.componentTypesMemory.Keys == b.componentTypesMemory.Keys
    requires a.sharedComponents == b.sharedComponents
    ensures a.ArchetypeHash() == b.ArchetypeHash()
  {
    assert ComponentHashes(a.componentTypesMemory) == ComponentHashes(b.componentTypesMemory);
  }

  /** Adding A then B gives the same membership and hash as adding B then A. */
  lemma AddComponentCommutes(a: EntityArchetype, c1: ComponentType, c2: ComponentType)
    ensures var ab, ba := a.AddComponent(c1).AddComponent(c2), a.AddComponent(c2).AddComponent(c1);
      && ab.componentTypesMemory.Keys == ba.componentTypesMemory.Keys
      && ab.sharedComponents == ba.sharedComponents
      && ab.ArchetypeHash() == ba.ArchetypeHash()
  {
    var t1, t2, h := c1.typeId, c2.typeId, a.archetypeHash;
    if t1 != t2 && !a.HasComponentType(t1) && !a.HasComponentType(t2) {
      XorAssoc(h, t1, t2);
      XorAssoc(h, t2, t1);
      XorComm(t1, t2);
    }
  }

  /** Adding an already present type changes neither the stored size nor the hash. */
  lemma AddPresentComponentIsNoOp(a: EntityArchetype, component: ComponentType)
    requires a.HasComponentType(component.typeId)
    ensures a.AddComponent(component) == a
  {
  }

  /** Adding an absent type XORs its id into the hash; removing it again restores the archetype. */
  lemma AddThenRemoveComponent(a: EntityArchetype, component: ComponentType)
    requires !a.HasComponentType(component.typeId)
    ensures a.AddComponent(component).ArchetypeHash() == a.ArchetypeHash().Xor(component.typeId)
    ensures a.AddComponent(component).RemoveComponent(component) == a
  {
    var c: map<TypeId, ByteSize> := a.componentTypesMemory;
    assert c[component.typeId := component.memorySize] - {component.typeId} == c;
  }

  /** Removing a present type XORs its id out of the hash; removing an absent one changes nothing. */
  lemma RemoveComponentHash(a: EntityArchetype, component: ComponentType)
    ensures a.HasComponentType(component.typeId) ==>
      a.RemoveComponent(component).ArchetypeHash() == a.ArchetypeHash().Xor(component.typeId)
    ensures !a.HasComponentType(component.typeId) ==>
      a.RemoveComponent(component).ArchetypeHash() == a.ArchetypeHash()
  {
  }

  /** A type id is never 0, so adding or removing a component always changes the hash. */
  lemma ComponentChangeChangesHash(a: EntityArchetype, component: ComponentType)
    ensures !a.HasComponentType(component.typeId) ==>
      a.AddComponent(component).ArchetypeHash() != a.ArchetypeHash()
    ensures a.HasComponentType(component.typeId) ==>
      a.RemoveComponent(component).ArchetypeHash() != a.ArchetypeHash()
  {
  }

  /** Binding then looking up a shared type returns the bound pointer; removing erases the binding. */
  lemma SharedBindingRoundTrip(a: EntityArchetype, sharedType: TypeId, component: Ptr, hasher: PtrHasher)
    requires !a.HasSharedComponentType(sharedType)
    ensures var b := a.AddSharedComponent(sharedType, component, hasher);
      && b.HasSharedComponentType(sharedType)
      && b.GetSharedComponent(sharedType) == component
      && b.ArchetypeHash() == a.ArchetypeHash().Xor(sharedType).Xor(hasher(component))
      && b.RemoveSharedComponent(sharedType, hasher) == a
  {
    var s: map<TypeId, Ptr> := a.sharedComponents;
    assert s[sharedType := component] - {sharedType} == s;
    var v := sharedType.Xor(hasher(component));
    XorAssoc(a.archetypeHash, sharedType, hasher(component));
    XorCancel(a.archetypeHash, v);
  }

  /** The hash test of the engine's own suite: two distinct types, added in either order. */
  lemma TwoComponentHashes(t1: ComponentType, t2: ComponentType, hasher: PtrHasher)
    requires t1.typeId != t2.typeId
    ensures var a1, a2 := EmptyArchetype().AddComponent(t1), EmptyArchetype().AddComponent(t2);
      && a1.ArchetypeHash() != ZeroHash && a2.ArchetypeHash() != ZeroHash
      && a1.ArchetypeHash() != a2.ArchetypeHash()
      && a1.AddComponent(t2).ArchetypeHash() == a2.AddComponent(t1).ArchetypeHash()
      && a1.AddComponent(t2).ArchetypeHash() != a1.ArchetypeHash()
      && a1.AddComponent(t2).ArchetypeHash() != a2.ArchetypeHash()
      && a1.AddComponent(t2).RemoveComponent(t2).ArchetypeHash() == t1.typeId
  {
    XorZero(t1.typeId);
    XorZero(t2.typeId);
    XorComm(t1.typeId, t2.typeId);
    XorNonZeroChanges(t1.typeId, t2.typeId);
    XorNonZeroChanges(t2.typeId, t1.typeId);
    XorCancel(t1.typeId, t2.typeId);
  }
}
