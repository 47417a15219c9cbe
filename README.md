# OpenGL-ECS entity store, modelled in Dafny

This project models the storage core of the OpenGL-ECS engine, an
entity-component-system.

- **Entities** are 32-bit ids. The entity manager hands ids out, recycling freed
  ones first.
- **Archetypes.** Each entity belongs to an archetype: a set of component types,
  each with a byte size, plus a set of shared-component bindings (type id to
  instance pointer). An archetype is identified by a 64-bit hash, the XOR of its
  type ids and of `type id XOR hash(pointer)` for each binding.
- **Chunks.** Entities of one archetype live in 16 KiB chunks. Each chunk holds
  an entity column followed by one column per component type, sized to fit as
  many rows as possible.
- **The component manager** keeps three things:
  - one group of chunks per archetype;
  - a table from archetype hash to group;
  - an entity map from id to (group, chunk, row).

  Adding or removing a component or a shared binding moves the entity's row to
  the group of the new archetype. Cells in common keep their values and new
  cells are zero. The old row is filled by moving the chunk's last row into it.
- **Queries and filters** select archetypes by included and excluded component
  and shared types. `GetMemoryBlocks` returns the chunks of every matching group.
- **Notifications.** Every component change hands notifications (component
  added or removed, shared component added or removed) to the component event
  spawner. Entity creation and destruction queue their notifications on the
  event manager directly.

Modules, one per source concept:

- `Types`: hashes with XOR, type ids, sizes, pointers, the pointer hasher and
  entities.
- `Folds`: order-free XOR and sum over a map's values.
- `EntityArchetypes`: `entityarchetypes.h`.
- `MemoryBlocks`: `memoryblocks.h` and `memoryblocks.cpp`. The chunk is a class
  over two arrays: the entity column and one cell map per row. Its `Abstract`
  value is the `Chunk` the manager holds.
- `Locations`: the entity map and the chunks as values, with the invariant that
  ties them together.
- `ManagerState`: `EntityArchetypeBlock` and the manager's whole invariant.
- `Events`: the notifications, as an append-only log.
- `ComponentQueries`: `componentquery.h`.
- `ComponentFilters`: `componentfilter.h`.
- `ComponentManagers`: `componentmanager.h`, as a class whose fields are the
  groups, the entity map and the hash table.
- `EntityManagers`: `entitymanager.h`.

The manager's invariant (`ManagerState.Consistent`) has three parts:

- every group's archetype hash is correct and the table maps it to that group;
- every chunk has its archetype's columns and capacity, and its rows past the
  live ones are zero;
- an entity's entry is valid exactly when the row it names holds that entity.

Every state-changing method keeps this invariant. Each one says how every
entity's archetype and cells change: the entity operated on changes as the
source intends, and every other entity keeps its validity, archetype and cells.
Each one also says which notifications it logs.

## Model

| member | source | states |
|---|---|---|
| EntityArchetypes.ComponentHashes | OpenGLEngine/include/gleng/entityarchetypes.h:57-59 | each component type contributes its own id to the hash, and only the component types contribute |
| EntityArchetypes.SharedHashes | OpenGLEngine/include/gleng/entityarchetypes.h:61-65 | each shared binding contributes its type id XOR the hash of its pointer, and only bindings contribute |
| EntityArchetypes.GenerateHash | OpenGLEngine/include/gleng/entityarchetypes.h:55-67 | the two loops compute the XOR of every component and binding term, whatever order the maps are visited in |
| EntityArchetypes.XorComponentTypes | OpenGLEngine/include/gleng/entityarchetypes.h:56-59 | the component loop XORs the start value with every component type id |
| EntityArchetypes.XorSharedComponents | OpenGLEngine/include/gleng/entityarchetypes.h:60-65 | the shared loop XORs the start value with every binding's term |
| EntityArchetypes.EntityArchetype.GetSharedComponent | OpenGLEngine/include/gleng/entityarchetypes.h:139-148 | the pointer bound to the type, or null when the type is not bound |
| EntityArchetypes.EntityArchetype.AddComponent | OpenGLEngine/include/gleng/entityarchetypes.h:100-105 | the component types gain the type; an already present type keeps its size (emplace does not overwrite); bindings are unchanged |
| EntityArchetypes.EntityArchetype.RemoveComponent | OpenGLEngine/include/gleng/entityarchetypes.h:107-117 | the component types lose the type and keep their sizes; removing an absent type returns the archetype unchanged |
| EntityArchetypes.EntityArchetype.AddSharedComponent | OpenGLEngine/include/gleng/entityarchetypes.h:119-126 | the bound types gain the type; an existing binding is kept, a new one names the given pointer; components unchanged |
| EntityArchetypes.EntityArchetype.RemoveSharedComponent | OpenGLEngine/include/gleng/entityarchetypes.h:128-138 | the type is no longer bound and reads back as null; the other bindings and the components are unchanged |
| EntityArchetypes.EmptyArchetype | OpenGLEngine/include/gleng/entityarchetypes.h:70-72 | no component or shared type, hash zero |
| EntityArchetypes.FromComponent | OpenGLEngine/include/gleng/entityarchetypes.h:74-77 | exactly the given component type with its size, no bindings |
| EntityArchetypes.EmptyArchetypeValid | OpenGLEngine/include/gleng/entityarchetypes.h:70-72 | the empty archetype's stored hash is the hash of its members |
| EntityArchetypes.FromComponentValid | OpenGLEngine/include/gleng/entityarchetypes.h:74-77 | the single-component archetype's stored hash is correct and equals the type id |
| EntityArchetypes.AddComponentValid | OpenGLEngine/include/gleng/entityarchetypes.h:100-105 | adding a component (present or not) leaves a correct stored hash |
| EntityArchetypes.RemoveComponentValid | OpenGLEngine/include/gleng/entityarchetypes.h:107-117 | removing a component (present or not) leaves a correct stored hash |
| EntityArchetypes.AddSharedComponentValid | OpenGLEngine/include/gleng/entityarchetypes.h:119-126 | adding a binding (new or existing) leaves a correct stored hash |
| EntityArchetypes.RemoveSharedComponentValid | OpenGLEngine/include/gleng/entityarchetypes.h:128-138 | removing a binding (bound or not) leaves a correct stored hash |
| EntityArchetypes.HashDependsOnlyOnMembership | OpenGLEngine/include/gleng/entityarchetypes.h:55-67 | two archetypes with the same component types and bindings have the same hash, whatever the sizes |
| EntityArchetypes.AddComponentCommutes | OpenGLEngine/include/gleng/entityarchetypes.h:100-105 | adding two components in either order gives the same component types, bindings and hash |
| EntityArchetypes.AddPresentComponentIsNoOp | OpenGLEngine/include/gleng/entityarchetypes.h:100-105 | adding a component type already present changes nothing |
| EntityArchetypes.AddThenRemoveComponent | OpenGLEngine/include/gleng/entityarchetypes.h:100-117 | adding an absent type XORs its id into the hash (the shortcut `ArchetypeAddComponent` relies on), and removing it again restores the archetype |
| EntityArchetypes.RemoveComponentHash | OpenGLEngine/include/gleng/componentmanager.h:137-149 | removing a present type XORs its id out of the hash; removing an absent one keeps the hash |
| EntityArchetypes.ComponentChangeChangesHash | OpenGLEngine/include/gleng/entityarchetypes.h:100-117 | adding an absent type or removing a present one always changes the hash |
| EntityArchetypes.SharedBindingRoundTrip | OpenGLEngine/include/gleng/componentmanager.h:171-187 | binding an unbound type XORs `type XOR hash(pointer)` into the hash, reads back the pointer, and unbinding restores the archetype |
| EntityArchetypes.TwoComponentHashes | EngineTests/entitytests.cpp:65-132 | with two distinct types: each single-type archetype has a non-zero hash different from the other, adding them in either order gives the same hash, different from either single one, and removing the second type leaves the first type's id as the hash |
| Folds.XorValuesRemove | OpenGLEngine/include/gleng/entityarchetypes.h:55-67 | the XOR over a map's values can be split at any key, so the fold does not depend on iteration order |
| Folds.SumValuesRemove | OpenGLEngine/include/gleng/memoryblocks.h:37-47 | the sum over a map's values can be split at any key |
| MemoryBlocks.CombinedSize | OpenGLEngine/include/gleng/memoryblocks.h:37-47 | the loop sums every component size plus the entity's own size |
| MemoryBlocks.LayOutColumns | OpenGLEngine/include/gleng/memoryblocks.h:51-61 | the columns start after the entity column, one per component type, each `rows * size` bytes, pairwise disjoint, gap-free and inside the 16 KiB arena |
| MemoryBlocks.PlanArena | OpenGLEngine/include/gleng/memoryblocks.h:34-61 | the row count is 16384 divided by the row footprint, rounded down, and the layout for that count is well laid out |
| MemoryBlocks.ZeroRow | OpenGLEngine/include/gleng/memoryblocks.h:63-65 | a zero cell for exactly the given columns |
| MemoryBlocks.MigrateRow | OpenGLEngine/include/gleng/memoryblocks.h:158-172 | exactly the destination's columns; columns in common keep their values, the rest are zero |
| MemoryBlocks.SetCell | OpenGLEngine/include/gleng/memoryblocks.h:83-88 | the one cell holds the new value and every other cell is kept |
| MemoryBlocks.SwapRemove | OpenGLEngine/include/gleng/memoryblocks.h:106-144 | one entry shorter; the removed slot holds the former last entry; every other slot is kept |
| MemoryBlocks.SwapRemovePermutes | OpenGLEngine/include/gleng/memoryblocks.h:106-144 | swap-removal is a permutation minus exactly the removed entry |
| MemoryBlocks.MoveLastRowInto | OpenGLEngine/include/gleng/memoryblocks.h:116-134 | the vacated row receives the last row's cells, the last row becomes zero, the other rows are kept |
| MemoryBlocks.IndexOf | OpenGLEngine/include/gleng/memoryblocks.h:182-188 | the first position holding the entity |
| MemoryBlocks.ComponentMemoryBlock.constructor | OpenGLEngine/gleng/src/memoryblocks.cpp:4-34 | a chunk laid out for the archetype, with no live rows, every slot null and every cell zero |
| MemoryBlocks.ComponentMemoryBlock.HasRoom | OpenGLEngine/include/gleng/memoryblocks.h:198-200 | true exactly when fewer rows are live than the capacity |
| MemoryBlocks.ComponentMemoryBlock.GetEntityArray | OpenGLEngine/include/gleng/memoryblocks.h:68-70 | the entity column: the live entities in order, then null entities |
| MemoryBlocks.ComponentMemoryBlock.GetComponentArray | OpenGLEngine/include/gleng/memoryblocks.h:72-81 | one cell per row for the type; cells past the live rows are zero |
| MemoryBlocks.ComponentMemoryBlock.GetComponent | OpenGLEngine/include/gleng/memoryblocks.h:83-88 | the cell of the type in the given live row |
| MemoryBlocks.ComponentMemoryBlock.SetComponent | OpenGLEngine/include/gleng/memoryblocks.h:83-88 | writing through the reference changes exactly that cell and keeps the chunk valid |
| MemoryBlocks.ComponentMemoryBlock.HasEntity | OpenGLEngine/include/gleng/memoryblocks.h:176-180 | true exactly when the entity is among the live rows |
| MemoryBlocks.ComponentMemoryBlock.GetEntityIndex | OpenGLEngine/include/gleng/memoryblocks.h:182-188 | the first live row holding the entity |
| MemoryBlocks.ComponentMemoryBlock.GetComponentOf | OpenGLEngine/include/gleng/memoryblocks.h:90-95 | the cell of the type in the entity's row |
| MemoryBlocks.ComponentMemoryBlock.AddEntity | OpenGLEngine/gleng/src/memoryblocks.cpp:36-42 | the entity is appended as the new last live row, whose index is returned; the cells are not touched; as a chunk value, this is the `AddRow` that the manager's placement uses |
| MemoryBlocks.ComponentMemoryBlock.MoveCells | OpenGLEngine/include/gleng/memoryblocks.h:116-124 | the last row's cells are copied into the vacated row and the last row is zeroed |
| MemoryBlocks.ComponentMemoryBlock.ZeroCells | OpenGLEngine/include/gleng/memoryblocks.h:130-134 | removing the last row itself only zeroes it |
| MemoryBlocks.ComponentMemoryBlock.RemoveEntityMoveLast | OpenGLEngine/gleng/src/memoryblocks.cpp:44-82 | the live entities are swap-removed, the cells follow their rows, the freed last row is zero, and the entity now in the vacated row is returned (null when the last row was removed); as a chunk value, this is the `RemoveRow` and `MovedInto` that the manager's removal and migration use |
| MemoryBlocks.ComponentMemoryBlock.CopyEntityTo | OpenGLEngine/gleng/src/memoryblocks.cpp:84-111 | the entity is appended to the destination with its cells migrated to the destination's columns; the source is unchanged when it is another chunk; the destination's chunk value changes by the `AppendRow` that the manager's migration uses |
| MemoryBlocks.ComponentMemoryBlock.CopyCells | OpenGLEngine/include/gleng/memoryblocks.h:158-172 | the destination row receives the common columns' values and keeps zero in the others |
| Locations.EmptyChunk | OpenGLEngine/include/gleng/memoryblocks.h:63-65 | a fresh chunk is well formed, empty, of the given capacity, and all zero |
| Locations.MovedIntoLast | OpenGLEngine/include/gleng/memoryblocks.h:139-143 | after swap-removal the vacated row holds the former last entity, or null when the last row itself was removed |
| Locations.MigrateLocated | OpenGLEngine/include/gleng/componentmanager.h:292-303 | moving an entity's row to another chunk keeps every entry naming the row that holds its entity |
| Locations.MigrateEffect | OpenGLEngine/include/gleng/componentmanager.h:292-303 | the moved entity lands in the destination's first free row with its cells migrated; every other entity keeps its chunk and cells, and only the one swapped into the old row changes row |
| Locations.MigrateRows | OpenGLEngine/include/gleng/componentmanager.h:292-303 | every entity other than the moved one keeps its cells |
| Locations.MigrateIntoOwnChunkBreaksLocation | OpenGLEngine/include/gleng/componentmanager.h:356-365 | as written, migrating into the entity's own chunk leaves its entry one past the live rows, so the location invariant fails |
| Locations.RelocateLocated | OpenGLEngine/include/gleng/componentmanager.h:356-365 | the corrected migration keeps the location invariant for every destination with room, the entity's own chunk included |
| Locations.RelocateEffect | OpenGLEngine/include/gleng/componentmanager.h:356-365 | the corrected migration leaves the entity in the destination chunk with migrated cells and keeps everyone else; the layout is left untouched exactly when the destination is the entity's own chunk |
| Locations.AddAtLocated | OpenGLEngine/include/gleng/componentmanager.h:210-219 | adding a not-yet-valid entity to a chunk with room keeps the invariant; the map grows with invalid entries; other entries and cells are kept |
| Locations.RemoveAtLocated | OpenGLEngine/include/gleng/componentmanager.h:240-259 | removing a valid entity keeps the invariant, invalidates its entry and repairs only the entry of the entity swapped into its row |
| Locations.AddChunkLocated | OpenGLEngine/include/gleng/componentmanager.h:41-51 | appending an empty chunk to a group keeps the invariant |
| Locations.AddGroupLocated | OpenGLEngine/include/gleng/componentmanager.h:116-121 | appending an empty group keeps the invariant |
| Locations.GrowLocated | OpenGLEngine/include/gleng/componentmanager.h:213-215 | resizing the entity map with invalid entries keeps the invariant |
| Locations.SetRowCellRows | OpenGLEngine/include/gleng/componentmanager.h:402-413 | writing one cell of an entity's row keeps every other entity's cells |
| Locations.RowOpsZeroed | OpenGLEngine/include/gleng/memoryblocks.h:97-144 | the first free row of a chunk is zero, and appending or swap-removing rows keeps every row past the live ones zero |
| Locations.RelocateZeroed | OpenGLEngine/include/gleng/componentmanager.h:292-303 | a migration keeps the free rows zero |
| Locations.AddAtZeroed | OpenGLEngine/include/gleng/componentmanager.h:210-219 | an added entity takes a zero row, and the free rows stay zero |
| Locations.RemoveAtZeroed | OpenGLEngine/include/gleng/componentmanager.h:240-259 | removing an entity keeps the free rows zero |
| Locations.ValidIsNonNull | OpenGLEngine/include/gleng/componentmanager.h:261-268 | the null id is never valid |
| Locations.ValidIffStored | OpenGLEngine/include/gleng/componentmanager.h:261-268 | an entity is valid exactly when some chunk holds it in a live row |
| ManagerState.EntityArchetypeBlock.CreateNewBlockIndex | OpenGLEngine/include/gleng/componentmanager.h:41-51 | a fresh chunk for the group's archetype is appended and its index returned |
| ManagerState.EntityArchetypeBlock.GetOrCreateFreeBlockIndex | OpenGLEngine/include/gleng/componentmanager.h:53-67 | the last-used chunk when it has room; otherwise the first chunk with room, remembered as last used; otherwise a new chunk; the group only grows |
| ManagerState.FirstFreeBlock | OpenGLEngine/include/gleng/componentmanager.h:57-63 | the scan returns the first chunk with room, or the count when none has room |
| ManagerState.FirstWithRoom | OpenGLEngine/include/gleng/componentmanager.h:57-63 | the first index with room, with no index before it having room |
| ManagerState.FitsHasRoom | OpenGLEngine/include/gleng/componentmanager.h:53-67 | a new chunk has room whenever one row of the archetype fits in 16 KiB |
| ManagerState.FreeBlockConsistent | OpenGLEngine/include/gleng/componentmanager.h:53-67 | choosing a free chunk keeps the manager invariant, only grows the groups, and yields a chunk with room |
| ManagerState.AppendGroupConsistent | OpenGLEngine/include/gleng/componentmanager.h:116-121 | a new group for a correctly hashed, unindexed archetype keeps the invariant |
| ManagerState.AddChunkConsistent | OpenGLEngine/include/gleng/componentmanager.h:41-51 | appending a fresh chunk to a group keeps the invariant |
| ManagerState.GrowConsistent | OpenGLEngine/include/gleng/componentmanager.h:213-215 | resizing the entity map keeps the invariant |
| ManagerState.Reserved | OpenGLEngine/include/gleng/componentmanager.h:213-215 | the map holds the id afterwards, the old entries are kept and the new ones are invalid |
| ManagerState.TransferRow | OpenGLEngine/include/gleng/componentmanager.h:356-365 | the entity ends valid in the destination chunk; the groups keep their archetypes and chunk counts |
| ManagerState.TransferRowRelocates | OpenGLEngine/include/gleng/componentmanager.h:356-365 | the transfer on groups is the corrected migration on the layout |
| ManagerState.TransferKeeps | OpenGLEngine/include/gleng/componentmanager.h:292-303 | the row transfer keeps the manager invariant |
| ManagerState.TransferMoves | OpenGLEngine/include/gleng/componentmanager.h:292-303 | the row transfer moves the entity to the destination group with its cells migrated to that archetype's columns, and changes nobody else |
| ManagerState.RemoveAtConsistent | OpenGLEngine/include/gleng/componentmanager.h:240-259 | removing an entity's row keeps the invariant, invalidates it and keeps everyone else |
| ManagerState.UnplaceRow | OpenGLEngine/include/gleng/componentmanager.h:253-258 | removal on the groups is removal on the layout |
| ManagerState.UnplaceKeeps | OpenGLEngine/include/gleng/componentmanager.h:240-259 | removing a valid entity keeps the invariant and removes only that entity |
| ManagerState.AddAtConsistent | OpenGLEngine/include/gleng/componentmanager.h:210-219 | placing a new entity keeps the invariant; its cells are zero for every component of its group |
| ManagerState.PlaceRow | OpenGLEngine/include/gleng/componentmanager.h:217-218 | placement on the groups is placement on the layout |
| ManagerState.ReserveThenPlace | OpenGLEngine/include/gleng/componentmanager.h:210-219 | resize, choice of a free chunk and placement together keep the invariant and place the entity in a zero row of the chosen group |
| ManagerState.PlaceThenUnplace | OpenGLEngine/include/gleng/componentmanager.h:210-259 | removing an entity right after adding it restores every chunk and every other entry |
| ManagerState.WriteCell | OpenGLEngine/include/gleng/componentmanager.h:402-413 | writing a cell on the groups is the cell write on the layout |
| ManagerState.WriteKeeps | OpenGLEngine/include/gleng/componentmanager.h:402-413 | writing a cell the row has keeps the invariant |
| ManagerState.WriteEffect | OpenGLEngine/include/gleng/componentmanager.h:402-413 | the entity's cells change in exactly that value; its archetype and everybody else are kept |
| ManagerState.AttachCells | OpenGLEngine/include/gleng/memoryblocks.h:158-172 | migrating to one more column keeps every cell and adds a zero one |
| ManagerState.DetachCells | OpenGLEngine/include/gleng/memoryblocks.h:158-172 | migrating to one column fewer drops exactly that cell |
| ManagerState.SameCells | OpenGLEngine/include/gleng/memoryblocks.h:158-172 | migrating to the same columns keeps every cell |
| ManagerState.WithChunk | OpenGLEngine/include/gleng/componentmanager.h:163-165 | replacing one chunk keeps the groups and their counters, and is the chunk replacement on the layout |
| ComponentManagers.Landed | OpenGLEngine/include/gleng/componentmanager.h:346-365 | after a hash lookup and a row move, the entity's group has the target's hash; when the lookup cannot confuse archetypes, the group holds the target and the cells are migrated to its columns |
| ComponentManagers.AttachLanded | OpenGLEngine/include/gleng/componentmanager.h:276-311 | after an attach, the entity keeps every cell and gains a zero cell for the new type |
| ComponentManagers.DetachLanded | OpenGLEngine/include/gleng/componentmanager.h:313-344 | after a detach, the entity keeps every cell except the removed type's |
| ComponentManagers.RebindLanded | OpenGLEngine/include/gleng/componentmanager.h:439-503 | after a change of shared bindings only, the entity keeps all its cells |
| ComponentManagers.MoveEvents | OpenGLEngine/include/gleng/componentmanager.h:368-399 | four phases: component types dropped, component types gained, bindings dropped (old pointer), bindings gained (new pointer); an event is in a phase exactly when its difference holds |
| ComponentManagers.AddEvents | OpenGLEngine/include/gleng/componentmanager.h:229-237 | one added event per component type, then one per shared binding with its pointer, and nothing else |
| ComponentManagers.RemoveEvents | OpenGLEngine/include/gleng/componentmanager.h:243-251 | one removed event per component type, then one per shared binding with its pointer, and nothing else |
| ComponentManagers.CollectSound | OpenGLEngine/include/gleng/componentmanager.h:519-529 | every collected chunk comes from a selected group |
| ComponentManagers.CollectComplete | OpenGLEngine/include/gleng/componentmanager.h:519-529 | every chunk of a selected group is collected |
| ComponentManagers.Mask | OpenGLEngine/include/gleng/componentmanager.h:522 | a group is selected exactly when the query matches its archetype |
| ComponentManagers.MatchingIsCollect | OpenGLEngine/include/gleng/componentmanager.h:519-529 | collecting group by group under the query is collecting under its mask |
| ComponentManagers.MatchingChunksMembers | OpenGLEngine/include/gleng/componentmanager.h:519-529 | a chunk is returned exactly when some group the query matches holds it |
| ComponentManagers.ComponentManager.constructor | OpenGLEngine/include/gleng/componentmanager.h:206-208 | a manager with no groups, entries or hashes satisfies the invariant |
| ComponentManagers.ComponentManager.CreateNewArchetypeBlock | OpenGLEngine/include/gleng/componentmanager.h:116-121 | an empty group is appended, its hash maps to it, and the invariant holds |
| ComponentManagers.ComponentManager.FindOrCreateArchetypeBlock | OpenGLEngine/include/gleng/componentmanager.h:151-161 | the group the table maps the hash to, with nothing changed, or a new group for the archetype |
| ComponentManagers.ComponentManager.ArchetypeAddComponent | OpenGLEngine/include/gleng/componentmanager.h:123-135 | a lookup by the old hash XOR the type id lands on the group of the archetype with the type added |
| ComponentManagers.ComponentManager.ArchetypeRemoveComponent | OpenGLEngine/include/gleng/componentmanager.h:137-149 | a lookup by the old hash XOR the type id lands on the group of the archetype with the type removed |
| ComponentManagers.ComponentManager.ArchetypeAddSharedComponent | OpenGLEngine/include/gleng/componentmanager.h:171-187 | a lookup by the old hash XOR the binding's term lands on the group of the archetype with the binding added |
| ComponentManagers.ComponentManager.ArchetypeRemoveSharedComponent | OpenGLEngine/include/gleng/componentmanager.h:189-202 | a lookup by the hash of the archetype without the binding lands on its group |
| ComponentManagers.ComponentManager.UseFreeBlock | OpenGLEngine/include/gleng/componentmanager.h:53-67 | the group is updated to its free-block choice; the chosen chunk has room and the invariant holds |
| ComponentManagers.ComponentManager.GetFreeBlockOf | OpenGLEngine/include/gleng/componentmanager.h:83-98 | a chunk with room in the group for the archetype's hash, creating the group when the hash is new; the groups only grow |
| ComponentManagers.ComponentManager.TransferEntity | OpenGLEngine/include/gleng/componentmanager.h:292-303 | the row transfer: copy, swap-remove, repair of the swapped entity's entry, new entry; the invariant holds |
| ComponentManagers.ComponentManager.MoveTo | OpenGLEngine/include/gleng/componentmanager.h:287-303 | a free chunk of the destination group is chosen and the entity migrates there; nobody else changes |
| ComponentManagers.ComponentManager.AddComponent | OpenGLEngine/include/gleng/componentmanager.h:276-311 | the entity moves to the group for its archetype plus the type, keeps every cell and gains a zero cell for it; one added event is logged |
| ComponentManagers.ComponentManager.RemoveComponent | OpenGLEngine/include/gleng/componentmanager.h:313-344 | the entity moves to the group for its archetype minus the type and loses only that cell; one removed event is logged |
| ComponentManagers.ComponentManager.AddSharedComponent | OpenGLEngine/include/gleng/componentmanager.h:439-470 | the entity moves to the group with the binding added, keeping all its cells; one shared-added event with the pointer is logged |
| ComponentManagers.ComponentManager.RemoveSharedComponent | OpenGLEngine/include/gleng/componentmanager.h:472-503 | the entity moves to the group without the binding, keeping all its cells; one shared-removed event naming the old pointer is logged |
| ComponentManagers.ComponentManager.MoveToFound | OpenGLEngine/include/gleng/componentmanager.h:346-365 | after a lookup, the entity lands in the group found, whose hash is the target's |
| ComponentManagers.ComponentManager.MoveToArchetype | OpenGLEngine/include/gleng/componentmanager.h:346-400 | the entity moves to the group for the archetype's hash with its cells migrated, and the four phases of difference events are logged |
| ComponentManagers.ComponentManager.ReserveEntry | OpenGLEngine/include/gleng/componentmanager.h:213-215 | the map is resized to hold the id with invalid new entries; the invariant holds |
| ComponentManagers.ComponentManager.PlaceAt | OpenGLEngine/include/gleng/componentmanager.h:217-218 | the entity takes the chosen chunk's first free row, a zero row, and nobody else changes |
| ComponentManagers.ComponentManager.PlaceEntity | OpenGLEngine/include/gleng/componentmanager.h:221-228 | the map resized, a free chunk in the archetype's group chosen, the entity placed in a zero row |
| ComponentManagers.ComponentManager.AddEntity | OpenGLEngine/include/gleng/componentmanager.h:210-219 | the entity is placed in a zero row of the empty archetype's group; nothing is logged |
| ComponentManagers.ComponentManager.AddEntityWithArchetype | OpenGLEngine/include/gleng/componentmanager.h:221-238 | the entity is placed in a zero row of the archetype's group, and one added event per component type and binding is logged |
| ComponentManagers.ComponentManager.UnplaceEntity | OpenGLEngine/include/gleng/componentmanager.h:253-258 | the entity's row is swap-removed, the swapped entity's entry repaired, the entity invalid; nobody else changes |
| ComponentManagers.ComponentManager.RemoveEntity | OpenGLEngine/include/gleng/componentmanager.h:240-259 | removal events for the entity's archetype are logged and the entity is removed as above |
| ComponentManagers.ComponentManager.IsEntityValid | OpenGLEngine/include/gleng/componentmanager.h:261-268 | true exactly when the entry is valid, which is exactly when some chunk holds the entity |
| ComponentManagers.ComponentManager.HasComponent | OpenGLEngine/include/gleng/componentmanager.h:415-421 | false for the null entity, otherwise whether the entity's group has the type; for a valid entity, whether its row has that cell |
| ComponentManagers.ComponentManager.GetComponent | OpenGLEngine/include/gleng/componentmanager.h:402-413 | the value of the entity's cell for the type |
| ComponentManagers.ComponentManager.HasSharedComponent | OpenGLEngine/include/gleng/componentmanager.h:513-517 | whether the entity's group binds the type |
| ComponentManagers.ComponentManager.GetSharedComponent | OpenGLEngine/include/gleng/componentmanager.h:505-511 | the non-null pointer the entity's group binds to the type |
| ComponentManagers.ComponentManager.SetComponent | OpenGLEngine/include/gleng/componentmanager.h:402-413 | writing through the returned reference changes exactly that cell of the entity; nobody else changes |
| ComponentManagers.ComponentManager.AddComponentCopy | OpenGLEngine/include/gleng/componentmanager.h:270-274 | the entity gains the type holding the given value, keeps its other cells, and one added event is logged |
| ComponentManagers.ComponentManager.GetMemoryBlocks | OpenGLEngine/include/gleng/componentmanager.h:519-529 | the chunks of every group the query matches, group by group and in order |
| ComponentManagers.ComponentManager.Clear | OpenGLEngine/include/gleng/componentmanager.h:531-537 | no groups, entries or hashes; no entity is valid |
| ComponentQueries.ComponentQuery.Matches | OpenGLEngine/include/gleng/componentquery.h:19-53 | the four loops return true exactly when every included type is present, every excluded one absent, every shared include bound and every shared exclude unbound |
| ComponentQueries.EmptyQueryMatchesAll | OpenGLEngine/include/gleng/componentquery.h:12-17 | a query with no terms matches every archetype |
| ComponentQueries.Split | OpenGLEngine/include/gleng/componentquery.h:8-17 | the four ranges of a well-formed type list flatten back to the list |
| ComponentQueries.SplitFlatten | OpenGLEngine/include/gleng/componentquery.h:8-17 | splitting a flattened list gives back its four ranges |
| ComponentQueries.FlattenSatisfies | OpenGLEngine/include/gleng/componentquery.h:19-53 | the single list with its counts means exactly the four ranges' constraints |
| ComponentQueries.IncludeComponent | OpenGLEngine/include/gleng/componentquery.h:62-67 | inserting the type at the front of the includes keeps the list well formed |
| ComponentQueries.IncludeShared | OpenGLEngine/include/gleng/componentquery.h:70-76 | inserting the type at the front of the shared includes keeps the list well formed |
| ComponentQueries.ExcludeComponent | OpenGLEngine/include/gleng/componentquery.h:80-86 | inserting the type at the front of the excludes keeps the list well formed |
| ComponentQueries.ExcludeShared | OpenGLEngine/include/gleng/componentquery.h:88-94 | inserting the type at the front of the shared excludes keeps the list well formed |
| ComponentQueries.AddTermFlattens | OpenGLEngine/include/gleng/componentquery.h:59-95 | each insertion puts the type at the front of its own range and leaves the other three unchanged |
| ComponentQueries.AddTermSatisfies | OpenGLEngine/include/gleng/componentquery.h:59-95 | a query with one more term matches exactly what the old query matched and the term admits |
| ComponentQueries.BuiltQuery | OpenGLEngine/include/gleng/componentquery.h:97-128 | the built query is well formed with one type per term |
| ComponentQueries.BuildStart | OpenGLEngine/include/gleng/componentquery.h:110-113 | building starts from the empty query |
| ComponentQueries.BuildStep | OpenGLEngine/include/gleng/componentquery.h:97-108 | each template argument adds its term to the query built so far |
| ComponentQueries.RangesOfAdmits | OpenGLEngine/include/gleng/componentquery.h:97-128 | the ranges built from the terms admit an archetype exactly when every term holds |
| ComponentQueries.BuildSatisfies | OpenGLEngine/include/gleng/componentquery.h:97-128 | the built query matches an archetype exactly when every term holds, whatever their order |
| ComponentQueries.BuildOrder | EngineTests/componentquerytests.cpp:4-17 | terms given in mixed order are laid out as includes, excludes, shared includes, shared excludes, with one of each |
| ComponentQueries.MatchScenario | EngineTests/componentquerytests.cpp:19-65 | the four queries of the matching test accept and reject the three archetypes as the test expects |
| ComponentQueries.ScenarioQuery1 | EngineTests/componentquerytests.cpp:19-65 | the query for both components and both shared types matches only the full archetype |
| ComponentQueries.ScenarioQuery2 | EngineTests/componentquerytests.cpp:19-65 | the query for the first component matches the full and the components-only archetypes |
| ComponentQueries.ScenarioQuery3 | EngineTests/componentquerytests.cpp:19-65 | including the second component and excluding the first shared type matches only the components-only archetype |
| ComponentQueries.ScenarioQuery4 | EngineTests/componentquerytests.cpp:19-65 | including the first shared type and excluding the first component matches only the shared-only archetype |
| ComponentFilters.CheckAll | OpenGLEngine/gleng/include/componentfilter.h:50-54 | one loop returns true exactly when every listed type's presence is as required |
| ComponentFilters.AllHaveAdmits | OpenGLEngine/gleng/include/componentfilter.h:49-75 | passing the four loops is exactly satisfying the four lists |
| ComponentFilters.EmptyFilterAdmitsAll | OpenGLEngine/gleng/include/componentfilter.h:49-75 | a filter with no constraints matches every archetype |
| ComponentFilters.MoreConstraintsAdmitLess | OpenGLEngine/gleng/include/componentfilter.h:21-47 | appending any constraint never turns a non-match into a match |
| ComponentFilters.ContradictoryFilterAdmitsNothing | OpenGLEngine/gleng/include/componentfilter.h:49-75 | a type both included and excluded, in the same kind, admits nothing |
| ComponentFilters.ComponentFilter.constructor | OpenGLEngine/gleng/include/componentfilter.h:7-11 | a new filter's four lists are empty, so it matches everything |
| ComponentFilters.ComponentFilter.IncludeComponent | OpenGLEngine/gleng/include/componentfilter.h:21-26 | the type is appended to the includes; the filter now also demands the component |
| ComponentFilters.ComponentFilter.IncludeShared | OpenGLEngine/gleng/include/componentfilter.h:28-33 | the type is appended to the shared includes; the filter now also demands the binding |
| ComponentFilters.ComponentFilter.ExcludeComponent | OpenGLEngine/gleng/include/componentfilter.h:35-40 | the type is appended to the excludes; the filter now also rejects the component |
| ComponentFilters.ComponentFilter.ExcludeShared | OpenGLEngine/gleng/include/componentfilter.h:42-47 | the type is appended to the shared excludes; the filter now also rejects the binding |
| ComponentFilters.ComponentFilter.Matches | OpenGLEngine/gleng/include/componentfilter.h:49-75 | true exactly when the archetype satisfies all four lists |
| Events.InPhasesAppend | OpenGLEngine/include/gleng/componentmanager.h:368-399 | events queued phase after phase concatenate into one phased log |
| Events.LoggedThen | OpenGLEngine/include/glecs/entitymanager.h:75-84 | two queued stretches make one stretch with both phase lists |
| Events.EventLog.Post | OpenGLEngine/include/gleng/componentmanager.h:229-237 | queueing appends exactly the event |
| Events.EventLog.PostAll | OpenGLEngine/include/gleng/componentmanager.h:229-237 | queueing a set appends each of its events exactly once, in some order |
| Events.EventLog.PostPhases | OpenGLEngine/include/gleng/componentmanager.h:368-399 | queueing phases appends each phase's events exactly once, phase after phase |
| Events.OnlyIn | OpenGLEngine/include/gleng/componentmanager.h:386-398 | the bindings of one map whose type the other map does not bind, with their pointers |
| EntityManagers.Advance | OpenGLEngine/include/glecs/entitymanager.h:19 | the next fresh id is one more, wrapping to the null id after the largest 32-bit value |
| EntityManagers.AllocatedIsUnused | OpenGLEngine/include/glecs/entitymanager.h:13-20 | an allocated id is non-null, not valid and not free any more, and one fewer id remains |
| EntityManagers.ReleasedIsFree | OpenGLEngine/include/glecs/entitymanager.h:86-95 | returning an invalid id to the free list keeps the id bookkeeping and one more id remains |
| EntityManagers.ReleaseThenAllocate | OpenGLEngine/include/glecs/entitymanager.h:13-20 | the id released last is the next one handed out, and the rest of the state is restored |
| EntityManagers.FreshIdsIncrease | EngineTests/entitytests.cpp:3-13 | with no free ids, ids are handed out in increasing order until the wrap to null |
| EntityManagers.IdsKept | OpenGLEngine/include/glecs/entitymanager.h:31-39 | a change that keeps every other entity's validity keeps the id bookkeeping |
| EntityManagers.UnplacedIsFree | OpenGLEngine/include/glecs/entitymanager.h:86-95 | removing an entity and freeing its id keeps the id bookkeeping |
| EntityManagers.CreatedWith | OpenGLEngine/include/glecs/entitymanager.h:75-84 | creating with an archetype queues its added events, then the created event |
| EntityManagers.DestroyedWith | OpenGLEngine/include/glecs/entitymanager.h:86-95 | destroying queues the removed events, then the destroyed event |
| EntityManagers.EntityManager.ArchetypesOf | OpenGLEngine/include/glecs/entitymanager.h:97-108 | each entity's current archetype, in order |
| EntityManagers.EntityManager.constructor | OpenGLEngine/include/glecs/entitymanager.h:26-29 | no free ids and next id 1, over a manager holding no entity |
| EntityManagers.EntityManager.NextID | OpenGLEngine/include/glecs/entitymanager.h:13-20 | the last freed id when there is one, otherwise the next fresh id; it is non-null and unused, and one fewer id remains |
| EntityManagers.EntityManager.Register | OpenGLEngine/include/glecs/entitymanager.h:31-39 | the entity is added to the empty archetype's group and one created event is queued |
| EntityManagers.EntityManager.CreateEntity | OpenGLEngine/include/glecs/entitymanager.h:31-39 | a new id is allocated, placed in a zero row of the empty archetype's group, and one created event is queued |
| EntityManagers.EntityManager.RegisterWith | OpenGLEngine/include/glecs/entitymanager.h:75-84 | the entity is added to the archetype's group with its added events, then the created event |
| EntityManagers.EntityManager.CreateEntityWith | OpenGLEngine/include/glecs/entitymanager.h:75-84 | a new id is allocated and placed in the archetype's group; its added events, then the created event, are queued |
| EntityManagers.EntityManager.CreateNext | OpenGLEngine/include/glecs/entitymanager.h:41-56 | one loop step: one more distinct new entity, valid, with its created event |
| EntityManagers.EntityManager.CreatedExtends | OpenGLEngine/include/glecs/entitymanager.h:41-56 | the loop invariant of bulk creation survives one more entity |
| EntityManagers.EntityManager.CreateEntities | OpenGLEngine/include/glecs/entitymanager.h:41-56 | the requested number of distinct, valid new entities, with one created event each, in order |
| EntityManagers.EntityManager.CreateNextWith | OpenGLEngine/include/glecs/entitymanager.h:58-73 | one loop step: one more distinct new entity in the archetype's group, with its events; the manager can still host the archetype afterwards |
| EntityManagers.EntityManager.CreatedWithExtends | OpenGLEngine/include/glecs/entitymanager.h:58-73 | the loop invariant of bulk creation with an archetype survives one more entity |
| EntityManagers.EntityManager.CreateAllWith | OpenGLEngine/include/glecs/entitymanager.h:58-73 | the loop creating entities in the archetype's group, each with its added and created events |
| EntityManagers.EntityManager.CreateEntitiesWith | OpenGLEngine/include/glecs/entitymanager.h:58-73 | the requested number of distinct, valid new entities in the archetype's group, each with its events |
| EntityManagers.EntityManager.KeptArchetypes | OpenGLEngine/include/glecs/entitymanager.h:58-73 | entities other than the one changed keep their validity and archetypes |
| EntityManagers.EntityManager.Release | OpenGLEngine/include/glecs/entitymanager.h:86-95 | the entity's removal and events, and its id pushed on the free list |
| EntityManagers.EntityManager.DestroyEntity | OpenGLEngine/include/glecs/entitymanager.h:86-95 | removal events, then the destroyed event; the entity is invalid and its id is free |
| EntityManagers.EntityManager.DestroyNext | OpenGLEngine/include/glecs/entitymanager.h:97-108 | one loop step: one more entity destroyed with its events, the rest still valid |
| EntityManagers.EntityManager.DestroyedExtends | OpenGLEngine/include/glecs/entitymanager.h:97-108 | the loop invariant of bulk destruction survives one more entity |
| EntityManagers.EntityManager.DestroyAll | OpenGLEngine/include/glecs/entitymanager.h:97-108 | the destruction loop runs to the end of the list |
| EntityManagers.EntityManager.DestroyEntities | OpenGLEngine/include/glecs/entitymanager.h:97-108 | every listed entity is invalid, its id freed in order, and each one's events are queued in order |
| EntityManagers.EntityManager.IsAlive | OpenGLEngine/include/glecs/entitymanager.h:110-112 | true exactly when the entity's entry is valid, which is exactly when a chunk holds it |
| EntityManagers.EntityManager.Clear | OpenGLEngine/include/glecs/entitymanager.h:114-117 | next id 1 and no free ids, so every id but null is available again; the manager is consistent again once the component manager holds no entity |

## Left out

- The event bus and the component event spawner are not part of this model. Notifications are `Event` values appended to a log; delivery is out of scope.
- The spawner forwards a component notification to the event manager only for a type registered with `RegisterEventSpawnerForComponent` (OpenGLEngine/include/gleng/componenteventspawner.h:48-80). The model does not capture this per-type filter. Its log holds every notification the managers hand on, which is what the event manager receives when every type involved is registered.
- ComponentManagers.ComponentManager.AddComponent, RemoveComponent, AddSharedComponent, RemoveSharedComponent and MoveToArchetype hand on their notifications before the row moves, where the source does so after. Queueing only appends to the log and reads none of the moved state, so the final state and log are the same.
- The memory-block allocator, the shared-component allocator and `CreateSharedComponent`/`DestroySharedComponent` are left out. Chunks are fresh values and shared instances are opaque pointers.
- Chunks inside the manager are values, not pointers. `MemoryBlocks.ComponentMemoryBlock.Abstract` maps a block to its value, and the block's `AddEntity`, `RemoveEntityMoveLast` and `CopyEntityTo` are proved to change that value exactly as the manager's row functions do. The pointers `GetMemoryBlocks` returns and their aliasing are not modelled; it returns the chunk values.
- Bytes are abstracted to one integer per cell. Component copies by `memcpy` are cell copies; alignment and `sizeof` beyond the sizes given are not modelled.
- `std::hash<void*>` is a parameter (`PtrHasher`); its values are not modelled.
- The float `floor(datasize / combined size)` is integer division, equal for the sizes involved.
- The `Optional<T>` query term used in the query tests is not defined in `componentquery.h` and is not modelled.
- The system manager, the world accessor, systems, rendering and the legacy `glecs` component code besides the entity manager are not part of this model.
- ComponentManagers.ComponentManager.AddComponent: requires `CanHost`, i.e. the target group exists or one row of it fits in 16 KiB. Otherwise the source creates one chunk with no room, returns it, and that chunk's `AddEntity` fails its `_size < _maxSize` assertion.
- ComponentManagers.ComponentManager.AddComponent: lookups compare hashes only, as the source does. The group found is proved to hold the target archetype only under `Identifies` (no other group shares its hash). The same holds for the other attach, detach, move and add operations.
- ComponentManagers.ComponentManager.AddEntity: requires a fresh, non-null id, which the entity manager guarantees. The source asserts only that the id is non-null; it does not check freshness and would overwrite a live entry.
- ComponentManagers.ComponentManager.GetComponent: the source returns `T&`. The read is `GetComponent` and the write through the reference is `SetComponent`.
- ComponentManagers.ComponentManager.AddComponentCopy: requires `Identifies` for the target, so that the group found has the new column to write.
- ComponentManagers.ComponentManager.HasComponent: requires the entry to name an existing group. An entry past the map or naming a missing group is undefined behaviour in the source.
- EntityManagers.EntityManager.NextID: requires at least one id available. The `uint32_t` wrap after 2^32-1 ids would hand out the null id, and `Advance` states that wrap.
- EntityManagers.EntityManager.constructor: requires a component manager holding no entity.
- EntityManagers.EntityManager.Clear: resets the id bookkeeping only, as the source does. The component manager is not cleared, so entities it still holds keep their ids.
- EntityManagers.EntityManager.CreateEntitiesWith: collects the entities in a sequence and then copies them into the returned array. The archetypes each entity got are a ghost output.
- EntityManagers.EntityManager.DestroyEntities: requires distinct, valid entities. Destroying the same entity twice is undefined behaviour in the source.
- ComponentQueries.BuiltQuery: the variadic `Build` template is modelled by a function over a list of terms, with lemmas for each step.

## Findings

| source | as written | input that shows it | evidently intended | confidence | as-written member | corrected member |
|---|---|---|---|---|---|---|
| OpenGLEngine/include/gleng/componentmanager.h:356-365 | When the free chunk chosen for the new archetype is the entity's own chunk, `CopyEntityTo` appends a copy and `RemoveEntityMoveLast` then moves that copy back into the old row. The entity's entry is still overwritten with the copy's index, the chunk's old size, which is one past the live rows. | `MoveToArchetype(e, a)` where `a` is `e`'s own archetype and `e`'s chunk has room, e.g. the only entity in its group | the entity stays in its row and its entry is unchanged | not executed | Locations.MigrateIntoOwnChunkBreaksLocation | ManagerState.TransferRow (with Locations.RelocateEffect and ComponentManagers.ComponentManager.TransferEntity) |
