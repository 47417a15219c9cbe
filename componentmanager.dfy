/**
 * `ComponentManager`: the archetype groups, the per-entity location index and the
 * hash-to-group table, updated in place. Every chunk is held as a `Chunk` value, so
 * each method is proved against the pure functions of the Locations and ManagerState
 * modules.
 */
module ComponentManagers {
  import opened Types
  import opened EntityArchetypes
  import opened MemoryBlocks
  import opened Locations
  import opened ComponentQueries
  import opened Events
  import opened ManagerState

  /**
   * Group `gi` of `groups'` is where a hash lookup for `target` lands: the group the
   * table already mapped its hash to, with nothing added, or a new group for `target`
   * appended. The lookup compares hashes only, so the group holds `target` itself
   * whenever no group shared its hash with different members.
   */
  ghost predicate LookedUp(groups: seq<EntityArchetypeBlock>, table: map<TypeHash, nat>,
                           groups': seq<EntityArchetypeBlock>, gi: nat, target: EntityArchetype) {
    && gi < |groups'|
    && groups'[gi].archetype.archetypeHash == target.archetypeHash
    && (target.archetypeHash in table ==> gi == table[target.archetypeHash] && groups' == groups)
    && (target.archetypeHash !in table ==> gi == |groups| && groups' == groups + [EntityArchetypeBlock(target, [], -1)])
    && (IdentifiedIn(groups, target) ==> groups'[gi].archetype == target)
  }

  /**
   * After a lookup for `target` and a move of `id` into the group found, the entity's
   * group carries `target`'s hash; when the lookup could not confuse `target` with
   * another archetype, the group holds `target` and the entity's cells are its old
   * cells migrated to `target`'s columns.
   */
  lemma Landed(g0: seq<EntityArchetypeBlock>, em0: seq<ArchetypeBlockIndex>, table: map<TypeHash, nat>, hasher: PtrHasher,
               g1: seq<EntityArchetypeBlock>, gi: nat, g2: seq<EntityArchetypeBlock>, em2: seq<ArchetypeBlockIndex>,
               id: EntityId, target: EntityArchetype)
    requires Consistent(g0, em0, table, hasher) && IsValid(em0, id)
    requires LookedUp(g0, table, g1, gi, target) && Grown(g0, g1)
    requires Archetypes(g2) == Archetypes(g1) && Migrated(g1, em0, g2, em2, id) && em2[id].archetypeIndex == gi
    ensures Migrated(g0, em0, g2, em2, id)
    ensures GroupArchetype(g2, em2[id]).archetypeHash == target.archetypeHash
    ensures IdentifiedIn(g0, target) ==>
      && GroupArchetype(g2, em2[id]) == target
      && CellsAt(LayoutOf(g2), em2[id]) == MigrateRow(CellsAt(LayoutOf(g0), em0[id]), target.componentTypesMemory.Keys)
  {
    ComposeMigration(g0, em0, table, hasher, g1, g2, em2, id);
    assert Archetypes(g2)[gi] == g2[gi].archetype;
  }

  /** `Landed` for an attach: the cells gain a zero cell for the new type. */
  lemma AttachLanded(g0: seq<EntityArchetypeBlock>, em0: seq<ArchetypeBlockIndex>, table: map<TypeHash, nat>, hasher: PtrHasher,
                     g1: seq<EntityArchetypeBlock>, gi: nat, g2: seq<EntityArchetypeBlock>, em2: seq<ArchetypeBlockIndex>,
                     id: EntityId, component: ComponentType)
    requires Consistent(g0, em0, table, hasher) && IsValid(em0, id)
    requires !GroupArchetype(g0, em0[id]).HasComponentType(component.typeId)
    requires LookedUp(g0, table, g1, gi, GroupArchetype(g0, em0[id]).AddComponent(component)) && Grown(g0, g1)
    requires Archetypes(g2) == Archetypes(g1) && Migrated(g1, em0, g2, em2, id) && em2[id].archetypeIndex == gi
    ensures Migrated(g0, em0, g2, em2, id)
    ensures var target := GroupArchetype(g0, em0[id]).AddComponent(component);
      && GroupArchetype(g2, em2[id]).archetypeHash == target.archetypeHash
      && (IdentifiedIn(g0, target) ==>
            && GroupArchetype(g2, em2[id]) == target
            && CellsAt(LayoutOf(g2), em2[id]) == CellsAt(LayoutOf(g0), em0[id])[component.typeId := 0])
  {
    var target := GroupArchetype(g0, em0[id]).AddComponent(component);
    GroupOf(g0, em0, table, hasher, id);
    Landed(g0, em0, table, hasher, g1, gi, g2, em2, id, target);
    AttachCells(CellsAt(LayoutOf(g0), em0[id]), component.typeId);
  }

  /** `Landed` for a detach: the cells lose the removed type's cell. */
  lemma DetachLanded(g0: seq<EntityArchetypeBlock>, em0: seq<ArchetypeBlockIndex>, table: map<TypeHash, nat>, hasher: PtrHasher,
                     g1: seq<EntityArchetypeBlock>, gi: nat, g2: seq<EntityArchetypeBlock>, em2: seq<ArchetypeBlockIndex>,
                     id: EntityId, component: ComponentType)
    requires Consistent(g0, em0, table, hasher) && IsValid(em0, id)
    requires LookedUp(g0, table, g1, gi, GroupArchetype(g0, em0[id]).RemoveComponent(component)) && Grown(g0, g1)
    requires Archetypes(g2) == Archetypes(g1) && Migrated(g1, em0, g2, em2, id) && em2[id].archetypeIndex == gi
    ensures Migrated(g0, em0, g2, em2, id)
    ensures var target := GroupArchetype(g0, em0[id]).RemoveComponent(component);
      && GroupArchetype(g2, em2[id]).archetypeHash == target.archetypeHash
      && (IdentifiedIn(g0, target) ==>
            && GroupArchetype(g2, em2[id]) == target
            && CellsAt(LayoutOf(g2), em2[id]) == CellsAt(LayoutOf(g0), em0[id]) - {component.typeId})
  {
    var target := GroupArchetype(g0, em0[id]).RemoveComponent(component);
    GroupOf(g0, em0, table, hasher, id);
    Landed(g0, em0, table, hasher, g1, gi, g2, em2, id, target);
    DetachCells(CellsAt(LayoutOf(g0), em0[id]), component.typeId);
  }

  /** `Landed` for a change of shared bindings only: the cells are kept. */
  lemma RebindLanded(g0: seq<EntityArchetypeBlock>, em0: seq<ArchetypeBlockIndex>, table: map<TypeHash, nat>, hasher: PtrHasher,
                     g1: seq<EntityArchetypeBlock>, gi: nat, g2: seq<EntityArchetypeBlock>, em2: seq<ArchetypeBlockIndex>,
                     id: EntityId, target: EntityArchetype)
    requires Consistent(g0, em0, table, hasher) && IsValid(em0, id)
    requires target.componentTypesMemory == GroupArchetype(g0, em0[id]).componentTypesMemory
    requires LookedUp(g0, table, g1, gi, target) && Grown(g0, g1)
    requires Archetypes(g2) == Archetypes(g1) && Migrated(g1, em0, g2, em2, id) && em2[id].archetypeIndex == gi
    ensures Migrated(g0, em0, g2, em2, id)
    ensures GroupArchetype(g2, em2[id]).archetypeHash == target.archetypeHash
    ensures IdentifiedIn(g0, target) ==>
      && GroupArchetype(g2, em2[id]) == target
      && CellsAt(LayoutOf(g2), em2[id]) == CellsAt(LayoutOf(g0), em0[id])
  {
    GroupOf(g0, em0, table, hasher, id);
    Landed(g0, em0, table, hasher, g1, gi, g2, em2, id, target);
    SameCells(CellsAt(LayoutOf(g0), em0[id]));
  }

  /**
   * The notifications of a move from `before` to `after`, in the order of the four
   * loops that hand them to the event spawner: component types dropped, component types gained, shared
   * bindings dropped (naming the old instance), shared bindings gained.
   */
  function MoveEvents(e: Entity, before: EntityArchetype, after: EntityArchetype): (phases: seq<set<Event>>)
    ensures |phases| == 4
    ensures forall t :: ComponentRemoved(e, t) in phases[0] <==> before.HasComponentType(t) && !after.HasComponentType(t)
    ensures forall t :: ComponentAdded(e, t) in phases[1] <==> after.HasComponentType(t) && !before.HasComponentType(t)
    ensures forall t, p :: SharedComponentRemoved(e, t, p) in phases[2] <==>
      before.HasSharedComponentType(t) && !after.HasSharedComponentType(t) && p == before.GetSharedComponent(t)
    ensures forall t, p :: SharedComponentAdded(e, t, p) in phases[3] <==>
      after.HasSharedComponentType(t) && !before.HasSharedComponentType(t) && p == after.GetSharedComponent(t)
  {
    var oldTypes, newTypes := before.componentTypesMemory.Keys, after.componentTypesMemory.Keys;
    [ComponentsRemoved(e, oldTypes - newTypes),
     ComponentsAdded(e, newTypes - oldTypes),
     SharedRemoved(e, OnlyIn(before.sharedComponents, after.sharedComponents)),
     SharedAdded(e, OnlyIn(after.sharedComponents, before.sharedComponents))]
  }

  /**
   * The notifications of `AddEntity(e, archetype)`: one `ComponentAdded` per component
   * type, then one `SharedComponentAdded` per shared binding, and nothing else.
   */
  function AddEvents(e: Entity, a: EntityArchetype): (phases: seq<set<Event>>)
    ensures |phases| == 2
    ensures forall t :: ComponentAdded(e, t) in phases[0] <==> a.HasComponentType(t)
    ensures forall ev :: ev in phases[0] ==> ev.ComponentAdded? && ev.entity == e
    ensures forall t, p :: SharedComponentAdded(e, t, p) in phases[1] <==>
      a.HasSharedComponentType(t) && p == a.GetSharedComponent(t)
    ensures forall ev :: ev in phases[1] ==> ev.SharedComponentAdded? && ev.entity == e
  {
    [ComponentsAdded(e, a.componentTypesMemory.Keys), SharedAdded(e, a.sharedComponents)]
  }

  /**
   * The notifications of `RemoveEntity(e)`: one `ComponentRemoved` per component type
   * of its archetype, then one `SharedComponentRemoved` per shared binding.
   */
  function RemoveEvents(e: Entity, a: EntityArchetype): (phases: seq<set<Event>>)
    ensures |phases| == 2
    ensures forall t :: ComponentRemoved(e, t) in phases[0] <==> a.HasComponentType(t)
    ensures forall ev :: ev in phases[0] ==> ev.ComponentRemoved? && ev.entity == e
    ensures forall t, p :: SharedComponentRemoved(e, t, p) in phases[1] <==>
      a.HasSharedComponentType(t) && p == a.GetSharedComponent(t)
    ensures forall ev :: ev in phases[1] ==> ev.SharedComponentRemoved? && ev.entity == e
  {
    [ComponentsRemoved(e, a.componentTypesMemory.Keys), SharedRemoved(e, a.sharedComponents)]
  }

  /**
   * The chunks `GetMemoryBlocks` collects: those of every group whose archetype `q`
   * matches, group by group.
   */
  ghost function MatchingChunks(groups: seq<EntityArchetypeBlock>, q: ComponentQuery): seq<Chunk>
    requires q.InBounds()
  {
    if groups == [] then []
    else
      var last := groups[|groups| - 1];
      MatchingChunks(groups[..|groups| - 1], q) + (if q.Satisfies(last.archetype) then last.archetypeBlocks else [])
  }

  /** The chunks of the groups `mask` selects, group by group. */
  function Collect(groups: seq<EntityArchetypeBlock>, mask: seq<bool>): seq<Chunk>
    requires |mask| == |groups|
  {
    if groups == [] then []
    else
      var n := |groups| - 1;
      Collect(groups[..n], mask[..n]) + (if mask[n] then groups[n].archetypeBlocks else [])
  }

  /** A collected chunk comes from a selected group: the returned index names it. */
  lemma {:induction false} CollectSound(groups: seq<EntityArchetypeBlock>, mask: seq<bool>, c: Chunk) returns (g: nat)
    requires |mask| == |groups| && c in Collect(groups, mask)
    ensures g < |groups| && mask[g] && c in groups[g].archetypeBlocks
  {
    var n := |groups| - 1;
    if c in Collect(groups[..n], mask[..n]) {
      g := CollectSound(groups[..n], mask[..n], c);
      assert groups[..n][g] == groups[g] && mask[..n][g] == mask[g];
    } else {
      g := n;
    }
  }

  /** Every chunk of a selected group is collected. */
  lemma {:induction false} CollectComplete(groups: seq<EntityArchetypeBlock>, mask: seq<bool>, c: Chunk, g: nat)
    requires |mask| == |groups| && g < |groups| && mask[g] && c in groups[g].archetypeBlocks
    ensures c in Collect(groups, mask)
  {
    var n := |groups| - 1;
    if g < n {
      assert groups[..n][g] == groups[g] && mask[..n][g] == mask[g];
      CollectComplete(groups[..n], mask[..n], c, g);
    }
  }

  /** Which groups the query matches, one flag per group. */
  ghost function Mask(groups: seq<EntityArchetypeBlock>, q: ComponentQuery): (m: seq<bool>)
    requires q.InBounds()
    ensures |m| == |groups| && forall g :: 0 <= g < |groups| ==> (m[g] <==> q.Satisfies(groups[g].archetype))
  {
    seq(|groups|, g requires 0 <= g < |groups| => q.Satisfies(groups[g].archetype))
  }

  /** Collecting group by group under the query is collecting under its mask. */
  lemma {:induction false} MatchingIsCollect(groups: seq<EntityArchetypeBlock>, q: ComponentQuery)
    requires q.InBounds()
    ensures MatchingChunks(groups, q) == Collect(groups, Mask(groups, q))
  {
    if groups != [] {
      var n := |groups| - 1;
      MatchingIsCollect(groups[..n], q);
      assert Mask(groups, q)[..n] == Mask(groups[..n], q);
    }
  }

  /** A chunk is collected exactly when some group the query matches holds it. */
  lemma MatchingChunksMembers(groups: seq<EntityArchetypeBlock>, q: ComponentQuery, c: Chunk)
    requires q.InBounds()
    ensures c in MatchingChunks(groups, q) <==>
      exists g :: 0 <= g < |groups| && q.Satisfies(groups[g].archetype) && c in groups[g].archetypeBlocks
  {
    MatchingIsCollect(groups, q);
    var mask := Mask(groups, q);
    if c in MatchingChunks(groups, q) {
      var g := CollectSound(groups, mask, c);
    }
    if exists g :: 0 <= g < |groups| && q.Satisfies(groups[g].archetype) && c in groups[g].archetypeBlocks {
      var g :| 0 <= g < |groups| && q.Satisfies(groups[g].archetype) && c in groups[g].archetypeBlocks;
      CollectComplete(groups, mask, c, g);
    }
  }

  class ComponentManager {
    /** `std::hash<void*>`, the pointer hash every archetype hash folds in. */
    const hasher: PtrHasher
    /** `_eventmanager`. */
    const eventManager: EventLog
    /** `_archetypes`: the groups, each with its archetype and its chunks. */
    var archetypes: seq<EntityArchetypeBlock>
    /** `_entityMap`: where each entity id lives. */
    var entityMap: seq<ArchetypeBlockIndex>
    /** `_archetypeHashIndices`: archetype hash to group index. */
    var archetypeHashIndices: map<TypeHash, nat>

    /** The groups, chunks, location index and hash table agree. */
    ghost predicate Valid()
      reads this
    {
      Consistent(archetypes, entityMap, archetypeHashIndices, hasher)
    }

    /** Every chunk, indexed by group and position in the group. */
    ghost function Chunks(): Layout
      reads this
    {
      LayoutOf(archetypes)
    }

    /** The archetype of the group `e`'s entry names (the empty one for an unknown id). */
    function ArchetypeOf(e: Entity): EntityArchetype
      reads this
    {
      if e.id < |entityMap| then GroupArchetype(archetypes, entityMap[e.id]) else EmptyArchetype()
    }

    /** The cells of `e`'s row, one per component type of its archetype. */
    ghost function RowOf(e: Entity): map<TypeId, int>
      reads this
    {
      if e.id < |entityMap| then CellsAt(Chunks(), entityMap[e.id]) else map[]
    }

    /** No group shares `a`'s hash while holding different members. */
    ghost predicate Identifies(a: EntityArchetype)
      reads this
    {
      IdentifiedIn(archetypes, a)
    }

    /** A group for `a` exists already, or a new one would fit rows in a chunk. */
    ghost predicate CanHost(a: EntityArchetype)
      reads this
    {
      a.archetypeHash in archetypeHashIndices || Fits(a)
    }

    constructor (hasher: PtrHasher, eventManager: EventLog)
      ensures this.hasher == hasher && this.eventManager == eventManager
      ensures archetypes == [] && entityMap == [] && archetypeHashIndices == map[]
      ensures Valid()
    {
      this.hasher := hasher;
      this.eventManager := eventManager;
      archetypes := [];
      entityMap := [];
      archetypeHashIndices := map[];
    }

    /** `CreateNewArchetypeBlock`: a group for `a` with no chunks yet, its hash mapped to it. */
    method CreateNewArchetypeBlock(a: EntityArchetype) returns (idx: nat)
      requires Valid() && a.Valid(hasher) && Fits(a) && a.archetypeHash !in archetypeHashIndices
      modifies this
      ensures Valid() && idx == old(|archetypes|)
      ensures archetypes == old(archetypes) + [EntityArchetypeBlock(a, [], -1)]
      ensures archetypeHashIndices == old(archetypeHashIndices)[a.archetypeHash := idx]
      ensures entityMap == old(entityMap) && Grown(old(archetypes), archetypes)
    {
      AppendGroupConsistent(archetypes, entityMap, archetypeHashIndices, hasher, a);
      archetypes := archetypes + [EntityArchetypeBlock(a, [], -1)];
      idx := |archetypes| - 1;
      archetypeHashIndices := archetypeHashIndices[a.archetypeHash := idx];
    }

    /**
     * `FindOrCreateArchetypeBlock`: the group the table maps `a`'s hash to, or a new
     * group for `a`.
     */
    method FindOrCreateArchetypeBlock(a: EntityArchetype) returns (gi: nat)
      requires Valid() && a.Valid(hasher) && CanHost(a)
      modifies this
      ensures Valid() && LookedUp(old(archetypes), old(archetypeHashIndices), archetypes, gi, a)
      ensures entityMap == old(entityMap) && Grown(old(archetypes), archetypes)
    {
      var newHash := a.ArchetypeHash();
      if newHash in archetypeHashIndices {
        gi := archetypeHashIndices[newHash];
      } else {
        gi := CreateNewArchetypeBlock(a);
      }
    }

    /**
     * `ArchetypeAddComponent`: the group for `a` plus `component`, looked up by the old
     * hash XOR the type id, which is that archetype's hash because the type is absent.
     */
    method ArchetypeAddComponent(a: EntityArchetype, component: ComponentType) returns (gi: nat)
      requires Valid() && a.Valid(hasher) && !a.HasComponentType(component.typeId)
      requires CanHost(a.AddComponent(component))
      modifies this
      ensures Valid() && LookedUp(old(archetypes), old(archetypeHashIndices), archetypes, gi, a.AddComponent(component))
      ensures entityMap == old(entityMap) && Grown(old(archetypes), archetypes)
    {
      var newHash := a.ArchetypeHash().Xor(component.typeId);
      AddThenRemoveComponent(a, component);
      if newHash in archetypeHashIndices {
        gi := archetypeHashIndices[newHash];
      } else {
        var newArchetype := a.AddComponent(component);
        AddComponentValid(a, component, hasher);
        gi := CreateNewArchetypeBlock(newArchetype);
      }
    }

    /**
     * `ArchetypeRemoveComponent`: the group for `a` minus `component`, looked up by the
     * old hash XOR the type id, which is that archetype's hash because the type is present.
     */
    method ArchetypeRemoveComponent(a: EntityArchetype, component: ComponentType) returns (gi: nat)
      requires Valid() && a.Valid(hasher) && a.HasComponentType(component.typeId)
      requires CanHost(a.RemoveComponent(component))
      modifies this
      ensures Valid() && LookedUp(old(archetypes), old(archetypeHashIndices), archetypes, gi, a.RemoveComponent(component))
      ensures entityMap == old(entityMap) && Grown(old(archetypes), archetypes)
    {
      var newHash := a.ArchetypeHash().Xor(component.typeId);
      RemoveComponentHash(a, component);
      if newHash in archetypeHashIndices {
        gi := archetypeHashIndices[newHash];
      } else {
        var newArchetype := a.RemoveComponent(component);
        RemoveComponentValid(a, component, hasher);
        gi := CreateNewArchetypeBlock(newArchetype);
      }
    }

    /**
     * `ArchetypeAddSharedComponent`: the group for `a` with `sharedType` bound to
     * `component`, looked up by the old hash XOR the type id XOR the pointer's hash.
     */
    method ArchetypeAddSharedComponent(a: EntityArchetype, sharedType: TypeId, component: Ptr) returns (gi: nat)
      requires Valid() && a.Valid(hasher) && !a.HasSharedComponentType(sharedType)
      requires CanHost(a.AddSharedComponent(sharedType, component, hasher))
      modifies this
      ensures Valid()
      ensures LookedUp(old(archetypes), old(archetypeHashIndices), archetypes, gi, a.AddSharedComponent(sharedType, component, hasher))
      ensures entityMap == old(entityMap) && Grown(old(archetypes), archetypes)
    {
      var newHash := a.ArchetypeHash().Xor(sharedType).Xor(hasher(component));
      SharedBindingRoundTrip(a, sharedType, component, hasher);
      if newHash in archetypeHashIndices {
        gi := archetypeHashIndices[newHash];
      } else {
        var newArchetype := a.AddSharedComponent(sharedType, component, hasher);
        AddSharedComponentValid(a, sharedType, component, hasher);
        gi := CreateNewArchetypeBlock(newArchetype);
      }
    }

    /** `ArchetypeRemoveSharedComponent`: the group for `a` without its `sharedType` binding. */
    method ArchetypeRemoveSharedComponent(a: EntityArchetype, sharedType: TypeId) returns (gi: nat)
      requires Valid() && a.Valid(hasher) && CanHost(a.RemoveSharedComponent(sharedType, hasher))
      modifies this
      ensures Valid()
      ensures LookedUp(old(archetypes), old(archetypeHashIndices), archetypes, gi, a.RemoveSharedComponent(sharedType, hasher))
      ensures entityMap == old(entityMap) && Grown(old(archetypes), archetypes)
    {
      var newArchetype := a.RemoveSharedComponent(sharedType, hasher);
      RemoveSharedComponentValid(a, sharedType, hasher);
      var newHash := newArchetype.ArchetypeHash();
      if newHash in archetypeHashIndices {
        gi := archetypeHashIndices[newHash];
      } else {
        gi := CreateNewArchetypeBlock(newArchetype);
      }
    }

    /**
     * `_archetypes[g].GetOrCreateFreeBlockIndex()`: group `g` updated in place to the
     * group its own method returns.
     */
    method UseFreeBlock(g: nat) returns (b: nat)
      requires Valid() && g < |archetypes|
      modifies this
      ensures Valid() && archetypes == old(archetypes[g := WithFreeBlock(archetypes[g])])
      ensures b == archetypes[g].lastUsedIdx
      ensures b < |archetypes[g].archetypeBlocks| && HasRoomFor(archetypes[g].archetypeBlocks[b])
      ensures entityMap == old(entityMap) && archetypeHashIndices == old(archetypeHashIndices)
      ensures Grown(old(archetypes), archetypes)
    {
      var grp;
      grp, b := archetypes[g].GetOrCreateFreeBlockIndex();
      FreeBlockConsistent(archetypes, entityMap, archetypeHashIndices, hasher, g);
      archetypes := archetypes[g := grp];
    }

    /** `GetFreeBlockOf`: a chunk with room in the group for `a`'s hash, the group created if needed. */
    method GetFreeBlockOf(a: EntityArchetype) returns (idx: ArchetypeBlockIndex)
      requires Valid() && a.Valid(hasher) && CanHost(a)
      modifies this
      ensures Valid() && idx.valid && idx.elementIndex == 0
      ensures idx.archetypeIndex < |archetypes| && idx.blockIndex < |archetypes[idx.archetypeIndex].archetypeBlocks|
      ensures HasRoomFor(archetypes[idx.archetypeIndex].archetypeBlocks[idx.blockIndex])
      ensures archetypes[idx.archetypeIndex].archetype.archetypeHash == a.archetypeHash
      ensures old(a.archetypeHash in archetypeHashIndices) ==>
        idx.archetypeIndex == old(archetypeHashIndices[a.archetypeHash]) && |archetypes| == old(|archetypes|)
      ensures old(a.archetypeHash !in archetypeHashIndices) ==>
        idx.archetypeIndex == old(|archetypes|) && |archetypes| == old(|archetypes|) + 1
      ensures old(Identifies(a)) ==> archetypes[idx.archetypeIndex].archetype == a
      ensures entityMap == old(entityMap) && Grown(old(archetypes), archetypes)
    {
      var gi := FindOrCreateArchetypeBlock(a);
      ghost var found := archetypes;
      var b := UseFreeBlock(gi);
      GrownTrans(old(archetypes), found, archetypes);
      idx := ArchetypeBlockIndex(true, gi, b, 0);
    }

    /**
     * The row transfer every attach, detach and move performs: `CopyEntityTo` into the
     * free chunk `(g2, b2)`, `RemoveEntityMoveLast` on the old row, the entry of the
     * entity swapped into that row repaired, and `e`'s entry naming its new row. When
     * the free chunk is `e`'s own chunk the entity stays where it is (the code as
     * written moves it anyway and leaves its entry one past the chunk's end).
     */
    method TransferEntity(e: Entity, g2: nat, b2: nat)
      requires Valid() && IsValid(entityMap, e.id)
      requires g2 < |archetypes| && b2 < |archetypes[g2].archetypeBlocks| && HasRoomFor(archetypes[g2].archetypeBlocks[b2])
      modifies this
      ensures Valid() && old(Holds(Chunks(), entityMap[e.id], e.id))
      ensures (archetypes, entityMap) == TransferRow(old(archetypes), old(entityMap), e.id, g2, b2)
      ensures archetypeHashIndices == old(archetypeHashIndices)
    {
      assert Holds(Chunks(), entityMap[e.id], e.id);
      var (groups, em) := TransferRow(archetypes, entityMap, e.id, g2, b2);
      TransferKeeps(archetypes, entityMap, archetypeHashIndices, hasher, e.id, g2, b2);
      archetypes, entityMap := groups, em;
    }

    /**
     * Lines shared by every attach, detach and move once the destination group `gi` is
     * known: a free chunk of `gi` is chosen, then the row is transferred there.
     */
    method MoveTo(e: Entity, gi: nat)
      requires Valid() && IsValid(entityMap, e.id) && gi < |archetypes|
      modifies this
      ensures Valid() && Migrated(old(archetypes), old(entityMap), archetypes, entityMap, e.id)
      ensures entityMap[e.id].archetypeIndex == gi && Archetypes(archetypes) == old(Archetypes(archetypes))
      ensures archetypeHashIndices == old(archetypeHashIndices)
    {
      ghost var groups0, em0 := archetypes, entityMap;
      var b := UseFreeBlock(gi);
      ghost var groups1 := archetypes;
      TransferEntity(e, gi, b);
      FreeThenTransfer(groups0, groups1, em0, archetypeHashIndices, hasher, e.id, gi, b);
    }

    /**
     * `AddComponent<T>`: `e` moves to the group of its archetype with `T` added, keeping
     * every cell it had and a zero cell for `T`; one `ComponentAdded` notification is
     * handed to the event spawner. Handing it on only appends to the log and reads none
     * of the moved state, so doing it before the move is the same as doing it after.
     */
    method AddComponent(e: Entity, component: ComponentType)
      requires Valid() && IsValid(entityMap, e.id) && !ArchetypeOf(e).HasComponentType(component.typeId)
      requires CanHost(ArchetypeOf(e).AddComponent(component))
      modifies this, eventManager
      ensures Valid() && Migrated(old(archetypes), old(entityMap), archetypes, entityMap, e.id)
      ensures ArchetypeOf(e).archetypeHash == old(ArchetypeOf(e).AddComponent(component).archetypeHash)
      ensures old(Identifies(ArchetypeOf(e).AddComponent(component))) ==>
        ArchetypeOf(e) == old(ArchetypeOf(e).AddComponent(component)) && RowOf(e) == old(RowOf(e)[component.typeId := 0])
      ensures eventManager.events == old(eventManager.events) + [ComponentAdded(e, component.typeId)]
    {
      eventManager.Post(ComponentAdded(e, component.typeId));
      var oldBlock := entityMap[e.id];
      GroupOf(archetypes, entityMap, archetypeHashIndices, hasher, e.id);
      ghost var groups0, em0, table0 := archetypes, entityMap, archetypeHashIndices;
      var gi := ArchetypeAddComponent(archetypes[oldBlock.archetypeIndex].archetype, component);
      ghost var groups1 := archetypes;
      MoveTo(e, gi);
      AttachLanded(groups0, em0, table0, hasher, groups1, gi, archetypes, entityMap, e.id, component);
    }

    /**
     * `RemoveComponent<T>`: `e` moves to the group of its archetype without `T`, keeping
     * every other cell; one `ComponentRemoved` notification is handed to the event spawner.
     */
    method RemoveComponent(e: Entity, component: ComponentType)
      requires Valid() && IsValid(entityMap, e.id) && ArchetypeOf(e).HasComponentType(component.typeId)
      requires CanHost(ArchetypeOf(e).RemoveComponent(component))
      modifies this, eventManager
      ensures Valid() && Migrated(old(archetypes), old(entityMap), archetypes, entityMap, e.id)
      ensures ArchetypeOf(e).archetypeHash == old(ArchetypeOf(e).RemoveComponent(component).archetypeHash)
      ensures old(Identifies(ArchetypeOf(e).RemoveComponent(component))) ==>
        ArchetypeOf(e) == old(ArchetypeOf(e).RemoveComponent(component)) && RowOf(e) == old(RowOf(e) - {component.typeId})
      ensures eventManager.events == old(eventManager.events) + [ComponentRemoved(e, component.typeId)]
    {
      eventManager.Post(ComponentRemoved(e, component.typeId));
      var oldBlock := entityMap[e.id];
      GroupOf(archetypes, entityMap, archetypeHashIndices, hasher, e.id);
      ghost var groups0, em0, table0 := archetypes, entityMap, archetypeHashIndices;
      var gi := ArchetypeRemoveComponent(archetypes[oldBlock.archetypeIndex].archetype, component);
      ghost var groups1 := archetypes;
      MoveTo(e, gi);
      DetachLanded(groups0, em0, table0, hasher, groups1, gi, archetypes, entityMap, e.id, component);
    }

    /**
     * `AddSharedComponent<T>`: `e` moves to the group of its archetype with `T` bound
     * to `component`, keeping all its cells; one `SharedComponentAdded` notification is
     * handed to the event spawner.
     */
    method AddSharedComponent(e: Entity, sharedType: TypeId, component: Ptr)
      requires Valid() && IsValid(entityMap, e.id) && !ArchetypeOf(e).HasSharedComponentType(sharedType)
      requires CanHost(ArchetypeOf(e).AddSharedComponent(sharedType, component, hasher))
      modifies this, eventManager
      ensures Valid() && Migrated(old(archetypes), old(entityMap), archetypes, entityMap, e.id)
      ensures ArchetypeOf(e).archetypeHash == old(ArchetypeOf(e).AddSharedComponent(sharedType, component, hasher).archetypeHash)
      ensures old(Identifies(ArchetypeOf(e).AddSharedComponent(sharedType, component, hasher))) ==>
        ArchetypeOf(e) == old(ArchetypeOf(e).AddSharedComponent(sharedType, component, hasher)) && RowOf(e) == old(RowOf(e))
      ensures eventManager.events == old(eventManager.events) + [SharedComponentAdded(e, sharedType, component)]
    {
      eventManager.Post(SharedComponentAdded(e, sharedType, component));
      var oldBlock := entityMap[e.id];
      GroupOf(archetypes, entityMap, archetypeHashIndices, hasher, e.id);
      ghost var groups0, em0, table0 := archetypes, entityMap, archetypeHashIndices;
      var a := archetypes[oldBlock.archetypeIndex].archetype;
      var gi := ArchetypeAddSharedComponent(a, sharedType, component);
      ghost var groups1 := archetypes;
      MoveTo(e, gi);
      RebindLanded(groups0, em0, table0, hasher, groups1, gi, archetypes, entityMap, e.id, a.AddSharedComponent(sharedType, component, hasher));
    }

    /**
     * `RemoveSharedComponent<T>`: `e` moves to the group of its archetype without its `T`
     * binding, keeping all its cells; one `SharedComponentRemoved` notification, naming
     * the instance that was bound, is handed to the event spawner.
     */
    method RemoveSharedComponent(e: Entity, sharedType: TypeId)
      requires Valid() && IsValid(entityMap, e.id) && ArchetypeOf(e).HasSharedComponentType(sharedType)
      requires CanHost(ArchetypeOf(e).RemoveSharedComponent(sharedType, hasher))
      modifies this, eventManager
      ensures Valid() && Migrated(old(archetypes), old(entityMap), archetypes, entityMap, e.id)
      ensures ArchetypeOf(e).archetypeHash == old(ArchetypeOf(e).RemoveSharedComponent(sharedType, hasher).archetypeHash)
      ensures old(Identifies(ArchetypeOf(e).RemoveSharedComponent(sharedType, hasher))) ==>
        ArchetypeOf(e) == old(ArchetypeOf(e).RemoveSharedComponent(sharedType, hasher)) && RowOf(e) == old(RowOf(e))
      ensures eventManager.events
        == old(eventManager.events) + [SharedComponentRemoved(e, sharedType, old(ArchetypeOf(e).GetSharedComponent(sharedType)))]
    {
      eventManager.Post(SharedComponentRemoved(e, sharedType, ArchetypeOf(e).GetSharedComponent(sharedType)));
      var oldBlock := entityMap[e.id];
      GroupOf(archetypes, entityMap, archetypeHashIndices, hasher, e.id);
      var a := archetypes[oldBlock.archetypeIndex].archetype;
      ghost var groups0, em0, table0 := archetypes, entityMap, archetypeHashIndices;
      var gi := ArchetypeRemoveSharedComponent(a, sharedType);
      ghost var groups1 := archetypes;
      MoveTo(e, gi);
      RebindLanded(groups0, em0, table0, hasher, groups1, gi, archetypes, entityMap, e.id, a.RemoveSharedComponent(sharedType, hasher));
    }

    /**
     * `MoveTo` after a lookup for `target` that left the groups at `g0` grown to the
     * current ones: where the entity lands and what its cells become.
     */
    method MoveToFound(e: Entity, gi: nat, ghost g0: seq<EntityArchetypeBlock>, ghost em0: seq<ArchetypeBlockIndex>,
                       ghost table0: map<TypeHash, nat>, ghost target: EntityArchetype)
      requires Valid() && Consistent(g0, em0, table0, hasher) && IsValid(em0, e.id) && entityMap == em0
      requires LookedUp(g0, table0, archetypes, gi, target) && Grown(g0, archetypes)
      modifies this
      ensures Valid() && Migrated(g0, em0, archetypes, entityMap, e.id)
      ensures ArchetypeOf(e) == old(archetypes[gi].archetype) && ArchetypeOf(e).archetypeHash == target.archetypeHash
      ensures IdentifiedIn(g0, target) ==>
        ArchetypeOf(e) == target && RowOf(e) == MigrateRow(CellsAt(LayoutOf(g0), em0[e.id]), target.componentTypesMemory.Keys)
    {
      ghost var groups1 := archetypes;
      MoveTo(e, gi);
      Landed(g0, em0, table0, hasher, groups1, gi, archetypes, entityMap, e.id, target);
    }

    /**
     * `MoveToArchetype`: `e` moves to the group for `a`'s hash, its cells migrated to
     * that group's columns (common columns keep their values, new ones are zero), and
     * the differences between the old and the new archetype are handed to the event
     * spawner. Handing them on only appends to the log, so doing it before the row
     * moves, as here, leaves the same state and log as doing it after.
     */
    method MoveToArchetype(e: Entity, a: EntityArchetype)
      requires Valid() && IsValid(entityMap, e.id) && a.Valid(hasher) && CanHost(a)
      modifies this, eventManager
      ensures Valid() && Migrated(old(archetypes), old(entityMap), archetypes, entityMap, e.id)
      ensures ArchetypeOf(e).archetypeHash == a.archetypeHash
      ensures old(Identifies(a)) ==>
        ArchetypeOf(e) == a && RowOf(e) == MigrateRow(old(RowOf(e)), a.componentTypesMemory.Keys)
      ensures Logged(old(eventManager.events), eventManager.events, MoveEvents(e, old(ArchetypeOf(e)), ArchetypeOf(e)))
    {
      ghost var groups0, em0, table0 := archetypes, entityMap, archetypeHashIndices;
      ghost var row0 := RowOf(e);
      assert row0 == CellsAt(LayoutOf(groups0), em0[e.id]);
      var before := ArchetypeOf(e);
      var gi := FindOrCreateArchetypeBlock(a);
      eventManager.PostPhases(MoveEvents(e, before, archetypes[gi].archetype));
      MoveToFound(e, gi, groups0, em0, table0, a);
    }

    // -------------------------------------------------------------------------
    // Entities in and out.

    /** `_entityMap.resize(e.ID + 1)` when the map does not hold `id` yet. */
    method ReserveEntry(id: EntityId)
      requires Valid()
      modifies this
      ensures Valid() && entityMap == Reserved(old(entityMap), id)
      ensures archetypes == old(archetypes) && archetypeHashIndices == old(archetypeHashIndices)
    {
      if |entityMap| <= id {
        var n := id + 1 - |entityMap|;
        GrowConsistent(archetypes, entityMap, archetypeHashIndices, hasher, n, id);
        entityMap := entityMap + seq(n, _ => InvalidIndex);
      }
    }

    /**
     * `AddEntity` on chunk `(g, b)` of a map already resized to hold `e`, with the
     * groups grown from `g0` by the choice of the chunk: `e` takes the chunk's first
     * free row.
     */
    method PlaceAt(e: Entity, g: nat, b: nat, ghost g0: seq<EntityArchetypeBlock>, ghost em0: seq<ArchetypeBlockIndex>,
                   ghost table0: map<TypeHash, nat>)
      requires Valid() && Consistent(g0, em0, table0, hasher) && e.id != ENTITY_NULL_ID && !IsValid(em0, e.id)
      requires entityMap == Reserved(em0, e.id) && Grown(g0, archetypes)
      requires g < |archetypes| && b < |archetypes[g].archetypeBlocks| && HasRoomFor(archetypes[g].archetypeBlocks[b])
      modifies this
      ensures Valid() && Placed(g0, em0, archetypes, entityMap, e.id)
      ensures ArchetypeOf(e) == old(archetypes[g].archetype)
    {
      ReserveThenPlace(g0, em0, table0, hasher, archetypes, archetypeHashIndices, e.id, g, b);
      var placed := PlaceRow(archetypes, entityMap, e.id, g, b);
      archetypes, entityMap := placed.0, placed.1;
    }

    /**
     * The lines both `AddEntity` overloads share: the map resized to hold `e`, a chunk
     * with room chosen in the group for `a`'s hash, and `e` placed in its first free
     * row, whose cells are zero.
     */
    method PlaceEntity(e: Entity, a: EntityArchetype)
      requires Valid() && e.id != ENTITY_NULL_ID && !IsValid(entityMap, e.id) && a.Valid(hasher) && CanHost(a)
      modifies this
      ensures Valid() && Placed(old(archetypes), old(entityMap), archetypes, entityMap, e.id)
      ensures ArchetypeOf(e).archetypeHash == a.archetypeHash
      ensures old(Identifies(a)) ==> ArchetypeOf(e) == a
    {
      ghost var groups0, em0, table0 := archetypes, entityMap, archetypeHashIndices;
      ReserveEntry(e.id);
      var idx := GetFreeBlockOf(a);
      PlaceAt(e, idx.archetypeIndex, idx.blockIndex, groups0, em0, table0);
    }

    /**
     * `AddEntity(e)`: `e` placed in a zero row of the group for the empty archetype;
     * no notifications.
     */
    method AddEntity(e: Entity)
      requires Valid() && e.id != ENTITY_NULL_ID && !IsValid(entityMap, e.id)
      modifies this
      ensures Valid() && Placed(old(archetypes), old(entityMap), archetypes, entityMap, e.id)
      ensures ArchetypeOf(e).archetypeHash == ZeroHash
      ensures old(Identifies(EmptyArchetype())) ==> ArchetypeOf(e) == EmptyArchetype() && RowOf(e) == map[]
    {
      EmptyArchetypeValid(hasher);
      EmptyFits();
      PlaceEntity(e, EmptyArchetype());
    }

    /**
     * `AddEntity(e, archetype)`: `e` placed in a zero row of the group for the
     * archetype's hash, then one `ComponentAdded` per component type and one
     * `SharedComponentAdded` per shared binding of that group's archetype.
     */
    method AddEntityWithArchetype(e: Entity, a: EntityArchetype)
      requires Valid() && e.id != ENTITY_NULL_ID && !IsValid(entityMap, e.id) && a.Valid(hasher) && CanHost(a)
      modifies this, eventManager
      ensures Valid() && Placed(old(archetypes), old(entityMap), archetypes, entityMap, e.id)
      ensures ArchetypeOf(e).archetypeHash == a.archetypeHash
      ensures old(Identifies(a)) ==> ArchetypeOf(e) == a
      ensures Logged(old(eventManager.events), eventManager.events, AddEvents(e, ArchetypeOf(e)))
    {
      PlaceEntity(e, a);
      var idx := entityMap[e.id];
      GroupOf(archetypes, entityMap, archetypeHashIndices, hasher, e.id);
      eventManager.PostPhases(AddEvents(e, archetypes[idx.archetypeIndex].archetype));
    }

    /**
     * `RemoveEntityMoveLast` on `e`'s row, the entry of the entity moved into that row
     * repaired, and `e`'s entry `Invalid()`.
     */
    method UnplaceEntity(e: Entity)
      requires Valid() && IsValid(entityMap, e.id)
      modifies this
      ensures Valid() && Unplaced(old(archetypes), old(entityMap), archetypes, entityMap, e.id)
      ensures old(Holds(Chunks(), entityMap[e.id], e.id))
      ensures (archetypes, entityMap) == UnplaceRow(old(archetypes), old(entityMap), e.id)
    {
      UnplaceKeeps(archetypes, entityMap, archetypeHashIndices, hasher, e.id);
      var removed := UnplaceRow(archetypes, entityMap, e.id);
      archetypes, entityMap := removed.0, removed.1;
    }

    /**
     * `RemoveEntity`: the removal notifications for `e`'s archetype, then `e`'s row
     * removed as `UnplaceEntity` does.
     */
    method RemoveEntity(e: Entity)
      requires Valid() && IsValid(entityMap, e.id)
      modifies this, eventManager
      ensures Valid() && Unplaced(old(archetypes), old(entityMap), archetypes, entityMap, e.id)
      ensures old(Holds(Chunks(), entityMap[e.id], e.id))
      ensures (archetypes, entityMap) == UnplaceRow(old(archetypes), old(entityMap), e.id)
      ensures Logged(old(eventManager.events), eventManager.events, RemoveEvents(e, old(ArchetypeOf(e))))
    {
      var idx := entityMap[e.id];
      GroupOf(archetypes, entityMap, archetypeHashIndices, hasher, e.id);
      eventManager.PostPhases(RemoveEvents(e, archetypes[idx.archetypeIndex].archetype));
      UnplaceEntity(e);
    }

    /** `IsEntityValid`: `e`'s entry exists and is flagged valid, so some chunk holds `e`. */
    method IsEntityValid(e: Entity) returns (r: bool)
      requires Valid()
      ensures r <==> IsValid(entityMap, e.id)
      ensures r <==> e in Population(Chunks())
    {
      ValidIffStored(Chunks(), entityMap, e.id);
      if e.id < |entityMap| {
        r := entityMap[e.id].valid;
      } else {
        r := false;
      }
    }

    // -------------------------------------------------------------------------
    // Reading and writing one entity's components.

    /**
     * `HasComponent<T>`: false for the null entity, otherwise whether the group `e`'s
     * entry names has component type `t`; for a valid entity, whether its row has a
     * `t` cell. (An `Invalid()` entry names group 0, so a removed entity is answered
     * for group 0.)
     */
    method HasComponent(e: Entity, t: TypeId) returns (r: bool)
      requires Valid()
      requires e.id == ENTITY_NULL_ID || (e.id < |entityMap| && entityMap[e.id].archetypeIndex < |archetypes|)
      ensures r <==> e.id != ENTITY_NULL_ID && ArchetypeOf(e).HasComponentType(t)
      ensures IsValid(entityMap, e.id) ==> (r <==> t in RowOf(e))
    {
      if e.id == ENTITY_NULL_ID {
        ValidIsNonNull(Chunks(), entityMap, e.id);
        return false;
      }
      if IsValid(entityMap, e.id) {
        GroupOf(archetypes, entityMap, archetypeHashIndices, hasher, e.id);
      }
      r := archetypes[entityMap[e.id].archetypeIndex].archetype.HasComponentType(t);
    }

    /** `GetComponent<T>`, read side: the value of `e`'s `t` cell. */
    method GetComponent(e: Entity, t: TypeId) returns (v: int)
      requires Valid() && IsValid(entityMap, e.id) && ArchetypeOf(e).HasComponentType(t)
      ensures t in RowOf(e) && v == RowOf(e)[t]
    {
      var idx := entityMap[e.id];
      GroupOf(archetypes, entityMap, archetypeHashIndices, hasher, e.id);
      RowKeys(archetypes, entityMap, e.id);
      v := archetypes[idx.archetypeIndex].archetypeBlocks[idx.blockIndex].rows[idx.elementIndex][t];
    }

    /** `HasSharedComponent<T>`: whether the group `e`'s entry names binds shared type `t`. */
    method HasSharedComponent(e: Entity, t: TypeId) returns (r: bool)
      requires e.id < |entityMap| && entityMap[e.id].archetypeIndex < |archetypes|
      ensures r <==> ArchetypeOf(e).HasSharedComponentType(t)
    {
      r := archetypes[entityMap[e.id].archetypeIndex].archetype.HasSharedComponentType(t);
    }

    /** `GetSharedComponent<T>`: the instance `e`'s group binds to `t`, which must not be null. */
    method GetSharedComponent(e: Entity, t: TypeId) returns (p: Ptr)
      requires e.id < |entityMap| && entityMap[e.id].archetypeIndex < |archetypes|
      requires ArchetypeOf(e).GetSharedComponent(t) != NullPtr
      ensures ArchetypeOf(e).HasSharedComponentType(t) && p == ArchetypeOf(e).sharedComponents[t] && p != NullPtr
    {
      p := archetypes[entityMap[e.id].archetypeIndex].archetype.GetSharedComponent(t);
    }

    /**
     * `GetComponent<T>(e) = value`, write side: `e`'s `t` cell set to `value` through
     * the reference `GetComponent` returns; nothing else changes.
     */
    method SetComponent(e: Entity, t: TypeId, value: int)
      requires Valid() && IsValid(entityMap, e.id) && t in RowOf(e)
      modifies this
      ensures Valid() && entityMap == old(entityMap) && ArchetypeOf(e) == old(ArchetypeOf(e))
      ensures RowOf(e) == SetCell(old(RowOf(e)), t, value)
      ensures OthersKept(old(archetypes), entityMap, archetypes, entityMap, e.id)
    {
      ghost var row0 := RowOf(e);
      assert row0 == CellsAt(LayoutOf(archetypes), entityMap[e.id]);
      WriteEffect(archetypes, entityMap, archetypeHashIndices, hasher, e.id, t, value);
      WriteKeeps(archetypes, entityMap, archetypeHashIndices, hasher, e.id, t, value);
      archetypes := WriteCell(archetypes, entityMap, e.id, t, value);
    }

    /**
     * `AddComponentCopy<T>`: `AddComponent<T>(e)`, then the new cell set to `value`
     * through the reference it returns. The write needs the group found to have a `t`
     * column, which holds when the lookup could not confuse the target archetype.
     */
    method AddComponentCopy(e: Entity, component: ComponentType, value: int)
      requires Valid() && IsValid(entityMap, e.id) && !ArchetypeOf(e).HasComponentType(component.typeId)
      requires CanHost(ArchetypeOf(e).AddComponent(component)) && Identifies(ArchetypeOf(e).AddComponent(component))
      modifies this, eventManager
      ensures Valid() && IsValid(entityMap, e.id) && |entityMap| == old(|entityMap|)
      ensures ArchetypeOf(e) == old(ArchetypeOf(e).AddComponent(component))
      ensures RowOf(e) == old(RowOf(e))[component.typeId := value]
      ensures OthersKept(old(archetypes), old(entityMap), archetypes, entityMap, e.id)
      ensures eventManager.events == old(eventManager.events) + [ComponentAdded(e, component.typeId)]
    {
      ghost var groups0, em0, row0 := archetypes, entityMap, RowOf(e);
      AddComponent(e, component);
      ghost var groups1 := archetypes;
      SetComponent(e, component.typeId, value);
      SetCellTwice(row0, component.typeId, 0, value);
      OthersKeptTrans(groups0, em0, groups1, entityMap, archetypes, entityMap, e.id);
    }

    // -------------------------------------------------------------------------
    // Queries over the whole store.

    /**
     * `GetMemoryBlocks`: every chunk of every group whose archetype the query matches,
     * group by group, each group's chunks in order.
     */
    method GetMemoryBlocks(q: ComponentQuery) returns (result: seq<Chunk>)
      requires q.InBounds()
      ensures result == MatchingChunks(archetypes, q)
    {
      result := [];
      var i := 0;
      while i < |archetypes|
        invariant 0 <= i <= |archetypes| && result == MatchingChunks(archetypes[..i], q)
      {
        var matches := q.Matches(archetypes[i].archetype);
        if matches {
          var blocks := archetypes[i].archetypeBlocks;
          ghost var before := result;
          var j := 0;
          while j < |blocks|
            invariant 0 <= j <= |blocks| && result == before + blocks[..j]
          {
            result := result + [blocks[j]];
            j := j + 1;
          }
          assert blocks[..j] == blocks;
        }
        assert archetypes[..i + 1][..i] == archetypes[..i];
        i := i + 1;
      }
      assert archetypes[..i] == archetypes;
    }

    /** `Clear`: no groups, no entries, no hashes; every entity is invalid. */
    method Clear()
      modifies this
      ensures Valid() && archetypes == [] && entityMap == [] && archetypeHashIndices == map[]
      ensures forall id: EntityId :: !IsValid(entityMap, id)
    {
      archetypes := [];
      entityMap := [];
      archetypeHashIndices := map[];
    }

  }
}
