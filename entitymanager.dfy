/**
 * `EntityManager`: hands out entity ids, from a `uint32_t` counter starting at 1 and a
 * last-in first-out list of released ids, registers each new entity with the
 * component manager and queues `EntityCreated` / `EntityDestroyed` notifications.
 */
module EntityManagers {
  import opened Types
  import opened EntityArchetypes
  import opened Locations
  import opened ManagerState
  import opened Events
  import opened ComponentManagers

  /** The range of `uint32_t`: ids and the counter wrap here. */
  const IdLimit: nat := 0x1_0000_0000

  /** `nextid++` on a `uint32_t`: one more, wrapping from the largest id to 0. */
  function Advance(next: EntityId): (r: EntityId)
    ensures next + 1 < IdLimit ==> r == next + 1
    ensures next + 1 == IdLimit ==> r == ENTITY_NULL_ID
  {
    (next + 1) % IdLimit
  }

  /**
   * What `NextID` does to the free list and the counter: the most recently released id
   * is popped when there is one, otherwise the counter's value is taken and the
   * counter advanced.
   */
  predicate Allocated(free: seq<EntityId>, next: EntityId, free': seq<EntityId>, next': EntityId, id: EntityId) {
    if |free| > 0 then id == free[|free| - 1] && free' == free[..|free| - 1] && next' == next
    else id == next && next' == Advance(next) && free' == []
  }

  /**
   * The free list and the counter agree with the component manager's index: the free
   * ids are distinct, non-null, not valid and below the counter, and no id at or above
   * the counter is valid. A counter that wrapped to 0 bounds nothing.
   */
  ghost predicate IdsOk(free: seq<EntityId>, next: EntityId, em: seq<ArchetypeBlockIndex>) {
    && (forall i, j :: 0 <= i < j < |free| ==> free[i] != free[j])
    && (forall i :: 0 <= i < |free| ==>
          free[i] != ENTITY_NULL_ID && !IsValid(em, free[i]) && (next == ENTITY_NULL_ID || free[i] < next))
    && (next != ENTITY_NULL_ID ==> forall id: EntityId :: next <= id ==> !IsValid(em, id))
  }

  /** Ids `NextID` can still hand out before the counter reaches the null id. */
  function Remaining(free: seq<EntityId>, next: EntityId): nat {
    |free| + (if next == ENTITY_NULL_ID then 0 else IdLimit - next)
  }

  /**
   * While ids remain, `NextID` hands out a non-null id that no entity holds, keeps the
   * agreement, and the id is neither free nor at or above the counter any more.
   */
  lemma AllocatedIsUnused(free: seq<EntityId>, next: EntityId, em: seq<ArchetypeBlockIndex>,
                          free': seq<EntityId>, next': EntityId, id: EntityId)
    requires IdsOk(free, next, em) && Remaining(free, next) > 0 && Allocated(free, next, free', next', id)
    ensures id != ENTITY_NULL_ID && !IsValid(em, id)
    ensures id !in free' && (next' == ENTITY_NULL_ID || id < next')
    ensures IdsOk(free', next', em) && Remaining(free', next') == Remaining(free, next) - 1
  {
    if |free| > 0 {
      var n := |free| - 1;
      assert free[n] == id;
      forall j | 0 <= j < |free'|
        ensures free'[j] != id
      {
        assert free'[j] == free[j];
      }
    } else {
      assert next != ENTITY_NULL_ID;
    }
  }

  /** A released id goes to the top of the free list, keeping the agreement. */
  lemma ReleasedIsFree(free: seq<EntityId>, next: EntityId, em: seq<ArchetypeBlockIndex>, id: EntityId)
    requires IdsOk(free, next, em) && id != ENTITY_NULL_ID && !IsValid(em, id)
    requires id !in free && (next == ENTITY_NULL_ID || id < next)
    ensures IdsOk(free + [id], next, em) && Remaining(free + [id], next) == Remaining(free, next) + 1
  {
    var free' := free + [id];
    forall i, j | 0 <= i < j < |free'|
      ensures free'[i] != free'[j]
    {
      if j == |free| {
        assert free'[i] == free[i] && free[i] in free;
      } else {
        assert free'[i] == free[i] && free'[j] == free[j];
      }
    }
  }

  /**
   * Releasing an id and then asking for one gives the same id back and restores the
   * free list and the counter: reuse is last in, first out.
   */
  lemma ReleaseThenAllocate(free: seq<EntityId>, next: EntityId, id: EntityId,
                            free': seq<EntityId>, next': EntityId, got: EntityId)
    requires Allocated(free + [id], next, free', next', got)
    ensures got == id && free' == free && next' == next
  {
    assert (free + [id])[..|free|] == free;
  }

  /** Fresh ids come in increasing order until the counter wraps to the null id. */
  lemma FreshIdsIncrease(next: EntityId, next': EntityId, id: EntityId, free': seq<EntityId>)
    requires Allocated([], next, free', next', id)
    ensures next' == ENTITY_NULL_ID || id < next'
    ensures next' == ENTITY_NULL_ID <==> id == IdLimit - 1
  {
  }

  /**
   * The agreement survives a change in the component manager that makes only `id`
   * change validity, when `id` is neither free nor at or above the counter.
   */
  lemma IdsKept(free: seq<EntityId>, next: EntityId, em: seq<ArchetypeBlockIndex>, em': seq<ArchetypeBlockIndex>, id: EntityId)
    requires IdsOk(free, next, em)
    requires forall x: EntityId :: x != id ==> (IsValid(em', x) <==> IsValid(em, x))
    requires id !in free && (next == ENTITY_NULL_ID || id < next)
    ensures IdsOk(free, next, em')
  {
    forall i | 0 <= i < |free|
      ensures !IsValid(em', free[i])
    {
      assert free[i] in free;
    }
  }

  /**
   * Removing a live entity from the component manager and pushing its id keeps the
   * agreement, with one more id available.
   */
  lemma UnplacedIsFree(free: seq<EntityId>, next: EntityId, groups: seq<EntityArchetypeBlock>, em: seq<ArchetypeBlockIndex>,
                       groups': seq<EntityArchetypeBlock>, em': seq<ArchetypeBlockIndex>, id: EntityId)
    requires IdsOk(free, next, em) && id != ENTITY_NULL_ID && Unplaced(groups, em, groups', em', id)
    ensures IdsOk(free + [id], next, em') && Remaining(free + [id], next) == Remaining(free, next) + 1
  {
    assert id !in free;
    OthersKeptValidity(groups, em, groups', em', id);
    IdsKept(free, next, em, em', id);
    ReleasedIsFree(free, next, em', id);
  }

  /** The notifications of `CreateEntity(archetype)`: the component manager's, then `EntityCreated`. */
  function CreatedWith(e: Entity, a: EntityArchetype): (phases: seq<set<Event>>)
    ensures |phases| == 3 && phases[..2] == AddEvents(e, a) && phases[2] == {EntityCreated(e)}
  {
    AddEvents(e, a) + [{EntityCreated(e)}]
  }

  /** `CreatedWith` for each entity of `es` in turn, `archs[k]` being the archetype `es[k]` got. */
  function CreatedPhases(es: seq<Entity>, archs: seq<EntityArchetype>): (phases: seq<set<Event>>)
    requires |archs| == |es|
    ensures |phases| == 3 * |es|
  {
    if es == [] then []
    else CreatedPhases(es[..|es| - 1], archs[..|es| - 1]) + CreatedWith(es[|es| - 1], archs[|es| - 1])
  }

  /** The notifications of `DestroyEntity`: the component manager's, then `EntityDestroyed`. */
  function DestroyedWith(e: Entity, a: EntityArchetype): (phases: seq<set<Event>>)
    ensures |phases| == 3 && phases[..2] == RemoveEvents(e, a) && phases[2] == {EntityDestroyed(e)}
  {
    RemoveEvents(e, a) + [{EntityDestroyed(e)}]
  }

  /** `DestroyedWith` for each entity of `es` in turn, `archs[k]` being the archetype `es[k]` had. */
  function DestroyedPhases(es: seq<Entity>, archs: seq<EntityArchetype>): (phases: seq<set<Event>>)
    requires |archs| == |es|
    ensures |phases| == 3 * |es|
  {
    if es == [] then []
    else DestroyedPhases(es[..|es| - 1], archs[..|es| - 1]) + DestroyedWith(es[|es| - 1], archs[|es| - 1])
  }

  /** One `EntityCreated` per entity of `es`, in order. */
  function Created(es: seq<Entity>): (evs: seq<Event>)
    ensures |evs| == |es| && forall k :: 0 <= k < |es| ==> evs[k] == EntityCreated(es[k])
  {
    seq(|es|, k requires 0 <= k < |es| => EntityCreated(es[k]))
  }

  /** The ids of `es`, in order. */
  function Ids(es: seq<Entity>): (ids: seq<EntityId>)
    ensures |ids| == |es| && forall k :: 0 <= k < |es| ==> ids[k] == es[k].id
  {
    seq(|es|, k requires 0 <= k < |es| => es[k].id)
  }

  class EntityManager {
    /** `freeIDs`: released ids, reused last in, first out. */
    var freeIDs: seq<EntityId>
    /** `nextid`: the next id never handed out. */
    var nextid: EntityId
    /** `_componentmanager`. */
    const componentManager: ComponentManager
    /** `_eventmanager`, the same event manager the component manager queues on. */
    const eventManager: EventLog

    /** The component manager is consistent and the ids agree with its index. */
    ghost predicate Valid()
      reads this, componentManager
    {
      && componentManager.Valid()
      && componentManager.eventManager == eventManager
      && IdsOk(freeIDs, nextid, componentManager.entityMap)
    }

    /** Ids still available. */
    function Available(): nat
      reads this
    {
      Remaining(freeIDs, nextid)
    }

    /** The archetype each entity of `es` has in the component manager. */
    function ArchetypesOf(es: seq<Entity>): (archs: seq<EntityArchetype>)
      reads this, componentManager
      ensures |archs| == |es| && forall k :: 0 <= k < |es| ==> archs[k] == componentManager.ArchetypeOf(es[k])
    {
      if es == [] then [] else ArchetypesOf(es[..|es| - 1]) + [componentManager.ArchetypeOf(es[|es| - 1])]
    }

    /** A manager over a component manager that holds no entities yet; the counter starts at 1. */
    constructor (cm: ComponentManager, em: EventLog)
      requires cm.Valid() && cm.eventManager == em
      requires forall id: EntityId :: !IsValid(cm.entityMap, id)
      ensures componentManager == cm && eventManager == em
      ensures freeIDs == [] && nextid == 1 && Valid()
    {
      componentManager := cm;
      eventManager := em;
      freeIDs := [];
      nextid := 1;
    }

    /** `NextID`: the last released id, or else the counter's value with the counter advanced. */
    method NextID() returns (id: EntityId)
      requires Valid() && Available() > 0
      modifies this
      ensures Allocated(old(freeIDs), old(nextid), freeIDs, nextid, id)
      ensures Valid() && Available() == old(Available()) - 1
      ensures id != ENTITY_NULL_ID && !IsValid(componentManager.entityMap, id)
      ensures id !in freeIDs && (nextid == ENTITY_NULL_ID || id < nextid)
    {
      if |freeIDs| > 0 {
        id := freeIDs[|freeIDs| - 1];
        freeIDs := freeIDs[..|freeIDs| - 1];
      } else {
        id := nextid;
        nextid := (nextid + 1) % IdLimit;
      }
      AllocatedIsUnused(old(freeIDs), old(nextid), componentManager.entityMap, freeIDs, nextid, id);
    }

    /**
     * The lines of `CreateEntity()` after `NextID`: the new entity placed in the group
     * for the empty archetype, then `EntityCreated` queued.
     */
    method Register(e: Entity)
      requires Valid() && e.id != ENTITY_NULL_ID && !IsValid(componentManager.entityMap, e.id)
      requires e.id !in freeIDs && (nextid == ENTITY_NULL_ID || e.id < nextid)
      modifies componentManager, eventManager
      ensures Valid()
      ensures Placed(old(componentManager.archetypes), old(componentManager.entityMap),
                     componentManager.archetypes, componentManager.entityMap, e.id)
      ensures componentManager.ArchetypeOf(e).archetypeHash == ZeroHash
      ensures eventManager.events == old(eventManager.events) + [EntityCreated(e)]
    {
      ghost var groups1, em1 := componentManager.archetypes, componentManager.entityMap;
      componentManager.AddEntity(e);
      OthersKeptValidity(groups1, em1, componentManager.archetypes, componentManager.entityMap, e.id);
      IdsKept(freeIDs, nextid, em1, componentManager.entityMap, e.id);
      eventManager.Post(EntityCreated(e));
    }

    /**
     * `CreateEntity()`: a new id placed in the group for the empty archetype, then one
     * `EntityCreated` notification.
     */
    method CreateEntity() returns (e: Entity)
      requires Valid() && Available() > 0
      modifies this, componentManager, eventManager
      ensures Allocated(old(freeIDs), old(nextid), freeIDs, nextid, e.id)
      ensures Valid() && Available() == old(Available()) - 1
      ensures e.id != ENTITY_NULL_ID && !IsValid(old(componentManager.entityMap), e.id)
      ensures Placed(old(componentManager.archetypes), old(componentManager.entityMap),
                     componentManager.archetypes, componentManager.entityMap, e.id)
      ensures componentManager.ArchetypeOf(e).archetypeHash == ZeroHash
      ensures eventManager.events == old(eventManager.events) + [EntityCreated(e)]
    {
      var id := NextID();
      e := Entity(id);
      Register(e);
    }

    /**
     * The lines of `CreateEntity(archetype)` after `NextID`: the new entity placed in
     * the group for `a`'s hash, the component manager's notifications, `EntityCreated`.
     */
    method RegisterWith(e: Entity, a: EntityArchetype)
      requires Valid() && e.id != ENTITY_NULL_ID && !IsValid(componentManager.entityMap, e.id)
      requires e.id !in freeIDs && (nextid == ENTITY_NULL_ID || e.id < nextid)
      requires a.Valid(componentManager.hasher) && componentManager.CanHost(a)
      modifies componentManager, eventManager
      ensures Valid()
      ensures Placed(old(componentManager.archetypes), old(componentManager.entityMap),
                     componentManager.archetypes, componentManager.entityMap, e.id)
      ensures componentManager.ArchetypeOf(e).archetypeHash == a.archetypeHash
      ensures old(componentManager.Identifies(a)) ==> componentManager.ArchetypeOf(e) == a
      ensures Logged(old(eventManager.events), eventManager.events, CreatedWith(e, componentManager.ArchetypeOf(e)))
    {
      ghost var groups1, em1 := componentManager.archetypes, componentManager.entityMap;
      ghost var log0 := eventManager.events;
      componentManager.AddEntityWithArchetype(e, a);
      OthersKeptValidity(groups1, em1, componentManager.archetypes, componentManager.entityMap, e.id);
      IdsKept(freeIDs, nextid, em1, componentManager.entityMap, e.id);
      ghost var log1 := eventManager.events;
      eventManager.Post(EntityCreated(e));
      LoggedOne(log1, EntityCreated(e));
      LoggedThen(log0, log1, eventManager.events, AddEvents(e, componentManager.ArchetypeOf(e)), [{EntityCreated(e)}]);
    }

    /**
     * `CreateEntity(archetype)`: a new id placed in the group for the archetype's hash,
     * the component manager's notifications, then `EntityCreated`.
     */
    method CreateEntityWith(a: EntityArchetype) returns (e: Entity)
      requires Valid() && Available() > 0 && a.Valid(componentManager.hasher) && componentManager.CanHost(a)
      modifies this, componentManager, eventManager
      ensures Allocated(old(freeIDs), old(nextid), freeIDs, nextid, e.id)
      ensures Valid() && Available() == old(Available()) - 1
      ensures e.id != ENTITY_NULL_ID && !IsValid(old(componentManager.entityMap), e.id)
      ensures Placed(old(componentManager.archetypes), old(componentManager.entityMap),
                     componentManager.archetypes, componentManager.entityMap, e.id)
      ensures componentManager.ArchetypeOf(e).archetypeHash == a.archetypeHash
      ensures old(componentManager.Identifies(a)) ==> componentManager.ArchetypeOf(e) == a
      ensures Logged(old(eventManager.events), eventManager.events, CreatedWith(e, componentManager.ArchetypeOf(e)))
    {
      var id := NextID();
      e := Entity(id);
      RegisterWith(e, a);
    }

    /**
     * `done` are entities created by `CreateEntity()` since the log read `start`: each
     * non-null, valid and distinct from the others, one `EntityCreated` each, in order.
     */
    ghost predicate NewEntities(done: seq<Entity>, start: seq<Event>)
      reads componentManager, eventManager
    {
      && (forall k :: 0 <= k < |done| ==> done[k].id != ENTITY_NULL_ID && IsValid(componentManager.entityMap, done[k].id))
      && (forall j, k :: 0 <= j < k < |done| ==> done[j] != done[k])
      && eventManager.events == start + Created(done)
    }

    /** One turn of the `CreateEntities()` loop: `CreateEntity()` once more. */
    method CreateNext(ghost done: seq<Entity>, ghost start: seq<Event>) returns (e: Entity)
      requires Valid() && NewEntities(done, start) && Available() > 0
      modifies this, componentManager, eventManager
      ensures Valid() && NewEntities(done + [e], start) && Available() == old(Available()) - 1
    {
      ghost var groups0, em0, log0 := componentManager.archetypes, componentManager.entityMap, eventManager.events;
      e := CreateEntity();
      CreatedExtends(done, start, log0, groups0, em0, e);
    }

    /** Helper for `CreateNext`: the loop's state after one more entity. */
    lemma CreatedExtends(done: seq<Entity>, start: seq<Event>, log0: seq<Event>,
                         groups0: seq<EntityArchetypeBlock>, em0: seq<ArchetypeBlockIndex>, e: Entity)
      requires forall k :: 0 <= k < |done| ==> done[k].id != ENTITY_NULL_ID && IsValid(em0, done[k].id)
      requires forall j, k :: 0 <= j < k < |done| ==> done[j] != done[k]
      requires log0 == start + Created(done)
      requires e.id != ENTITY_NULL_ID
      requires Placed(groups0, em0, componentManager.archetypes, componentManager.entityMap, e.id)
      requires eventManager.events == log0 + [EntityCreated(e)]
      ensures NewEntities(done + [e], start)
    {
      OthersKeptValidity(groups0, em0, componentManager.archetypes, componentManager.entityMap, e.id);
      assert Created(done + [e]) == Created(done) + [EntityCreated(e)];
      var done' := done + [e];
      forall j, k | 0 <= j < k < |done'|
        ensures done'[j] != done'[k]
      {
        if k == |done| {
          assert IsValid(em0, done[j].id);
        }
      }
    }

    /**
     * `CreateEntities(number)`: `number` entities created one after the other as
     * `CreateEntity()` creates them, returned in a new array.
     */
    method CreateEntities(number: nat) returns (arr: array<Entity>)
      requires Valid() && number <= Available()
      modifies this, componentManager, eventManager
      ensures fresh(arr) && arr.Length == number
      ensures Valid() && Available() == old(Available()) - number
      ensures NewEntities(arr[..], old(eventManager.events))
    {
      arr := new Entity[number](_ => NullEntity);
      ghost var done: seq<Entity> := [];
      ghost var start := eventManager.events;
      var i := 0;
      while i < number
        invariant 0 <= i <= number && |done| == i && arr[..i] == done
        invariant Valid() && NewEntities(done, start) && Available() == old(Available()) - i
      {
        var e := CreateNext(done, start);
        arr[i] := e;
        done := done + [e];
        i := i + 1;
      }
      assert arr[..] == done;
    }

    /**
     * `done` are entities created by `CreateEntity(a)` since the log read `start`, and
     * `archs` the archetypes they got: each entity non-null, valid, distinct from the
     * others and holding its archetype, whose hash is `a`'s; their notifications logged
     * in turn.
     */
    ghost predicate NewEntitiesWith(a: EntityArchetype, done: seq<Entity>, archs: seq<EntityArchetype>, start: seq<Event>)
      reads componentManager, eventManager
    {
      && |archs| == |done|
      && (forall k :: 0 <= k < |done| ==> done[k].id != ENTITY_NULL_ID && archs[k].archetypeHash == a.archetypeHash)
      && (forall k :: 0 <= k < |done| ==>
            IsValid(componentManager.entityMap, done[k].id) && componentManager.ArchetypeOf(done[k]) == archs[k])
      && (forall j, k :: 0 <= j < k < |done| ==> done[j] != done[k])
      && Logged(start, eventManager.events, CreatedPhases(done, archs))
    }

    /** One turn of the `CreateEntities(archetype)` loop: `CreateEntity(archetype)` once more. */
    method CreateNextWith(a: EntityArchetype, ghost done: seq<Entity>, ghost archs: seq<EntityArchetype>,
                          ghost start: seq<Event>) returns (e: Entity, ghost arch: EntityArchetype)
      requires Valid() && NewEntitiesWith(a, done, archs, start) && Available() > 0
      requires a.Valid(componentManager.hasher) && componentManager.CanHost(a)
      modifies this, componentManager, eventManager
      ensures Valid() && NewEntitiesWith(a, done + [e], archs + [arch], start) && Available() == old(Available()) - 1
      ensures componentManager.CanHost(a)
    {
      ghost var groups0, em0, log0 := componentManager.archetypes, componentManager.entityMap, eventManager.events;
      assert forall k :: 0 <= k < |done| ==>
        IsValid(em0, done[k].id) && GroupArchetype(groups0, em0[done[k].id]) == archs[k];
      e := CreateEntityWith(a);
      arch := componentManager.ArchetypeOf(e);
      CreatedWithExtends(a, done, archs, start, log0, groups0, em0, e);
      GroupOf(componentManager.archetypes, componentManager.entityMap, componentManager.archetypeHashIndices,
              componentManager.hasher, e.id);
    }

    /** Helper for `CreateNextWith`: the loop's state after one more entity. */
    lemma CreatedWithExtends(a: EntityArchetype, done: seq<Entity>, archs: seq<EntityArchetype>, start: seq<Event>,
                             log0: seq<Event>, groups0: seq<EntityArchetypeBlock>, em0: seq<ArchetypeBlockIndex>, e: Entity)
      requires |archs| == |done|
      requires forall k :: 0 <= k < |done| ==> done[k].id != ENTITY_NULL_ID && archs[k].archetypeHash == a.archetypeHash
      requires forall k :: 0 <= k < |done| ==>
        IsValid(em0, done[k].id) && GroupArchetype(groups0, em0[done[k].id]) == archs[k]
      requires forall j, k :: 0 <= j < k < |done| ==> done[j] != done[k]
      requires Logged(start, log0, CreatedPhases(done, archs))
      requires e.id != ENTITY_NULL_ID
      requires Placed(groups0, em0, componentManager.archetypes, componentManager.entityMap, e.id)
      requires componentManager.ArchetypeOf(e).archetypeHash == a.archetypeHash
      requires Logged(log0, eventManager.events, CreatedWith(e, componentManager.ArchetypeOf(e)))
      ensures NewEntitiesWith(a, done + [e], archs + [componentManager.ArchetypeOf(e)], start)
    {
      var arch := componentManager.ArchetypeOf(e);
      var done', archs' := done + [e], archs + [arch];
      KeptArchetypes(groups0, em0, done, archs, e.id);
      KeptAppended(done, archs, e);
      assert done'[..|done|] == done && archs'[..|done|] == archs;
      LoggedThen(start, log0, eventManager.events, CreatedPhases(done, archs), CreatedWith(e, arch));
      forall j, k | 0 <= j < k < |done'|
        ensures done'[j] != done'[k]
      {
        if k == |done| {
          assert IsValid(em0, done[j].id);
        }
      }
    }

    /**
     * `CreateEntities(number, archetype)`: `number` entities created one after the
     * other as `CreateEntity(archetype)` creates them, returned in a new array;
     * `archs[k]` is the archetype `arr[k]` got.
     */
    method CreateEntitiesWith(number: nat, a: EntityArchetype) returns (arr: array<Entity>, ghost archs: seq<EntityArchetype>)
      requires Valid() && number <= Available() && a.Valid(componentManager.hasher) && componentManager.CanHost(a)
      modifies this, componentManager, eventManager
      ensures fresh(arr) && arr.Length == number
      ensures Valid() && Available() == old(Available()) - number
      ensures NewEntitiesWith(a, arr[..], archs, old(eventManager.events))
    {
      var es;
      es, archs := CreateAllWith(number, a);
      arr := new Entity[number](k requires 0 <= k < number => es[k]);
      assert arr[..] == es;
    }

    /** The loop of `CreateEntities(number, archetype)`, the entities collected in order. */
    method CreateAllWith(number: nat, a: EntityArchetype) returns (es: seq<Entity>, ghost archs: seq<EntityArchetype>)
      requires Valid() && number <= Available() && a.Valid(componentManager.hasher) && componentManager.CanHost(a)
      modifies this, componentManager, eventManager
      ensures |es| == number
      ensures Valid() && Available() == old(Available()) - number
      ensures NewEntitiesWith(a, es, archs, old(eventManager.events))
    {
      es, archs := [], [];
      ghost var start := eventManager.events;
      assert Logged(start, start, []) by {
        assert start[..|start|] == start && start[|start|..] == [];
      }
      var i := 0;
      while i < number
        invariant 0 <= i <= number && |es| == i
        invariant Valid() && NewEntitiesWith(a, es, archs, start) && Available() == old(Available()) - i
        invariant componentManager.CanHost(a)
      {
        var e;
        ghost var arch;
        e, arch := CreateNextWith(a, es, archs, start);
        es, archs := es + [e], archs + [arch];
        i := i + 1;
      }
    }

    /**
     * Helper for the creation loop: entities other than `id` that were valid keep their
     * validity and their archetype across a change that keeps the others.
     */
    lemma KeptArchetypes(groups0: seq<EntityArchetypeBlock>, em0: seq<ArchetypeBlockIndex>, es: seq<Entity>,
                         archs: seq<EntityArchetype>, id: EntityId)
      requires OthersKept(groups0, em0, componentManager.archetypes, componentManager.entityMap, id)
      requires |archs| == |es|
      requires forall k :: 0 <= k < |es| ==>
        es[k].id != id && IsValid(em0, es[k].id) && GroupArchetype(groups0, em0[es[k].id]) == archs[k]
      ensures forall k :: 0 <= k < |es| ==>
        IsValid(componentManager.entityMap, es[k].id) && componentManager.ArchetypeOf(es[k]) == archs[k]
    {
      forall k | 0 <= k < |es|
        ensures IsValid(componentManager.entityMap, es[k].id) && componentManager.ArchetypeOf(es[k]) == archs[k]
      {
        var x := es[k].id;
        assert x < |em0| && em0[x].valid;
      }
    }

    /** Helper for the creation loop: the facts about the earlier entities extend to the new one. */
    lemma KeptAppended(done: seq<Entity>, archs: seq<EntityArchetype>, e: Entity)
      requires |archs| == |done| && IsValid(componentManager.entityMap, e.id)
      requires forall k :: 0 <= k < |done| ==>
        IsValid(componentManager.entityMap, done[k].id) && componentManager.ArchetypeOf(done[k]) == archs[k]
      ensures forall k :: 0 <= k < |done| + 1 ==>
        && IsValid(componentManager.entityMap, (done + [e])[k].id)
        && componentManager.ArchetypeOf((done + [e])[k]) == (archs + [componentManager.ArchetypeOf(e)])[k]
    {
    }

    /**
     * The lines of `DestroyEntity` before the notification: the entity removed from the
     * component manager and its id pushed on the free list.
     */
    method Release(e: Entity)
      requires Valid() && IsValid(componentManager.entityMap, e.id)
      modifies this, componentManager, eventManager
      ensures Valid() && freeIDs == old(freeIDs) + [e.id] && nextid == old(nextid)
      ensures Available() == old(Available()) + 1
      ensures Unplaced(old(componentManager.archetypes), old(componentManager.entityMap),
                       componentManager.archetypes, componentManager.entityMap, e.id)
      ensures Logged(old(eventManager.events), eventManager.events, RemoveEvents(e, old(componentManager.ArchetypeOf(e))))
    {
      ValidIsNonNull(componentManager.Chunks(), componentManager.entityMap, e.id);
      ghost var groups0, em0 := componentManager.archetypes, componentManager.entityMap;
      componentManager.RemoveEntity(e);
      UnplacedIsFree(freeIDs, nextid, groups0, em0, componentManager.archetypes, componentManager.entityMap, e.id);
      freeIDs := freeIDs + [e.id];
    }

    /**
     * `DestroyEntity`: the entity removed from the component manager, its id pushed on
     * the free list, then one `EntityDestroyed` notification.
     */
    method DestroyEntity(e: Entity)
      requires Valid() && IsValid(componentManager.entityMap, e.id)
      modifies this, componentManager, eventManager
      ensures Valid() && freeIDs == old(freeIDs) + [e.id] && nextid == old(nextid)
      ensures Available() == old(Available()) + 1
      ensures Unplaced(old(componentManager.archetypes), old(componentManager.entityMap),
                       componentManager.archetypes, componentManager.entityMap, e.id)
      ensures Logged(old(eventManager.events), eventManager.events, DestroyedWith(e, old(componentManager.ArchetypeOf(e))))
    {
      ghost var log0 := eventManager.events;
      ghost var before := componentManager.ArchetypeOf(e);
      Release(e);
      ghost var log1 := eventManager.events;
      eventManager.Post(EntityDestroyed(e));
      LoggedOne(log1, EntityDestroyed(e));
      LoggedThen(log0, log1, eventManager.events, RemoveEvents(e, before), [{EntityDestroyed(e)}]);
    }

    /**
     * Where the `DestroyEntities` loop stands after destroying the first `i` of
     * `entities`, which had the archetypes `archs0`, since the free list read `free0` and
     * the log `start`: their ids pushed in turn and no longer valid, the rest still valid
     * with their archetypes, the notifications logged in turn.
     */
    ghost predicate DestroyedSoFar(entities: seq<Entity>, i: nat, archs0: seq<EntityArchetype>,
                                   free0: seq<EntityId>, start: seq<Event>)
      reads this, componentManager, eventManager
    {
      && i <= |entities| && |archs0| == |entities|
      && freeIDs == free0 + Ids(entities[..i])
      && (forall k :: 0 <= k < i ==> !IsValid(componentManager.entityMap, entities[k].id))
      && (forall k :: i <= k < |entities| ==>
            IsValid(componentManager.entityMap, entities[k].id) && componentManager.ArchetypeOf(entities[k]) == archs0[k])
      && Logged(start, eventManager.events, DestroyedPhases(entities[..i], archs0[..i]))
    }

    /** One turn of the `DestroyEntities` loop: `DestroyEntity(entities[i])`. */
    method DestroyNext(entities: seq<Entity>, i: nat, ghost archs0: seq<EntityArchetype>,
                       ghost free0: seq<EntityId>, ghost start: seq<Event>)
      requires Valid() && DestroyedSoFar(entities, i, archs0, free0, start) && i < |entities|
      requires forall j, k :: 0 <= j < k < |entities| ==> entities[j].id != entities[k].id
      modifies this, componentManager, eventManager
      ensures Valid() && DestroyedSoFar(entities, i + 1, archs0, free0, start)
      ensures nextid == old(nextid) && Available() == old(Available()) + 1
    {
      var e := entities[i];
      ghost var groups0, em0, log0 := componentManager.archetypes, componentManager.entityMap, eventManager.events;
      assert forall k :: i <= k < |entities| ==>
        IsValid(em0, entities[k].id) && GroupArchetype(groups0, em0[entities[k].id]) == archs0[k];
      DestroyEntity(e);
      DestroyedExtends(entities, i, archs0, free0, start, log0, groups0, em0);
    }

    /** Helper for `DestroyNext`: the loop's state after one more entity. */
    lemma DestroyedExtends(entities: seq<Entity>, i: nat, archs0: seq<EntityArchetype>, free0: seq<EntityId>,
                           start: seq<Event>, log0: seq<Event>, groups0: seq<EntityArchetypeBlock>, em0: seq<ArchetypeBlockIndex>)
      requires i < |entities| && |archs0| == |entities|
      requires forall j, k :: 0 <= j < k < |entities| ==> entities[j].id != entities[k].id
      requires freeIDs == free0 + Ids(entities[..i]) + [entities[i].id]
      requires forall k :: 0 <= k < i ==> !IsValid(em0, entities[k].id)
      requires forall k :: i <= k < |entities| ==>
        IsValid(em0, entities[k].id) && GroupArchetype(groups0, em0[entities[k].id]) == archs0[k]
      requires Unplaced(groups0, em0, componentManager.archetypes, componentManager.entityMap, entities[i].id)
      requires Logged(start, log0, DestroyedPhases(entities[..i], archs0[..i]))
      requires Logged(log0, eventManager.events, DestroyedWith(entities[i], archs0[i]))
      ensures DestroyedSoFar(entities, i + 1, archs0, free0, start)
    {
      var id := entities[i].id;
      assert Ids(entities[..i + 1]) == Ids(entities[..i]) + [id];
      assert entities[..i + 1] == entities[..i] + [entities[i]] && archs0[..i + 1] == archs0[..i] + [archs0[i]];
      LoggedThen(start, log0, eventManager.events, DestroyedPhases(entities[..i], archs0[..i]),
                 DestroyedWith(entities[i], archs0[i]));
      forall k | 0 <= k < i + 1
        ensures !IsValid(componentManager.entityMap, entities[k].id)
      {
        var x := entities[k].id;
        if k < i && x < |em0| {
          assert x != id;
        }
      }
      forall k | i + 1 <= k < |entities|
        ensures IsValid(componentManager.entityMap, entities[k].id) && componentManager.ArchetypeOf(entities[k]) == archs0[k]
      {
        var x := entities[k].id;
        assert x != id && x < |em0| && em0[x].valid;
      }
    }

    /**
     * `DestroyEntities`: each entity destroyed in turn as `DestroyEntity` destroys it;
     * every one must be valid at its turn, so no entity appears twice.
     */
    method DestroyEntities(entities: seq<Entity>)
      requires Valid()
      requires forall k :: 0 <= k < |entities| ==> IsValid(componentManager.entityMap, entities[k].id)
      requires forall j, k :: 0 <= j < k < |entities| ==> entities[j].id != entities[k].id
      modifies this, componentManager, eventManager
      ensures Valid() && freeIDs == old(freeIDs) + Ids(entities) && nextid == old(nextid)
      ensures Available() == old(Available()) + |entities|
      ensures forall k :: 0 <= k < |entities| ==> !IsValid(componentManager.entityMap, entities[k].id)
      ensures Logged(old(eventManager.events), eventManager.events, DestroyedPhases(entities, old(ArchetypesOf(entities))))
    {
      ghost var start := eventManager.events;
      ghost var archs0 := ArchetypesOf(entities);
      assert Logged(start, start, []) by {
        assert start[..|start|] == start && start[|start|..] == [];
      }
      assert entities[..0] == [] && archs0[..0] == [];
      DestroyAll(entities, archs0, freeIDs, start);
      assert entities[..|entities|] == entities && archs0[..|entities|] == archs0;
    }

    /** The loop of `DestroyEntities`. */
    method DestroyAll(entities: seq<Entity>, ghost archs0: seq<EntityArchetype>,
                      ghost free0: seq<EntityId>, ghost start: seq<Event>)
      requires Valid() && DestroyedSoFar(entities, 0, archs0, free0, start)
      requires forall j, k :: 0 <= j < k < |entities| ==> entities[j].id != entities[k].id
      modifies this, componentManager, eventManager
      ensures Valid() && DestroyedSoFar(entities, |entities|, archs0, free0, start)
      ensures nextid == old(nextid) && Available() == old(Available()) + |entities|
    {
      var i := 0;
      while i < |entities|
        invariant i <= |entities| && Valid() && DestroyedSoFar(entities, i, archs0, free0, start)
        invariant nextid == old(nextid) && Available() == old(Available()) + i
      {
        DestroyNext(entities, i, archs0, free0, start);
        i := i + 1;
      }
    }


    /** `IsAlive`: whether the component manager holds `e`. */
    method IsAlive(e: Entity) returns (r: bool)
      requires Valid()
      ensures r <==> IsValid(componentManager.entityMap, e.id)
      ensures r <==> e in Population(componentManager.Chunks())
    {
      r := componentManager.IsEntityValid(e);
    }

    /**
     * `Clear`: the counter back to 1 and no free ids. The component manager is not
     * cleared here, so the ids agree with it again only once it holds no entity.
     */
    method Clear()
      modifies this
      ensures nextid == 1 && freeIDs == [] && Available() == IdLimit - 1
      ensures (&& componentManager.Valid() && componentManager.eventManager == eventManager
               && forall id: EntityId :: !IsValid(componentManager.entityMap, id)) ==> Valid()
    {
      nextid := 1;
      freeIDs := [];
    }
  }
}
