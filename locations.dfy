/**
 * The manager's view of its chunks and of the per-entity location index, as plain
 * values: each chunk reduced to its column types, its live entities and its rows of
 * cells. The location invariant, the row migration every attach/detach/move performs
 * and the removal of an entity are stated and proved here, on values; the manager
 * class then shows that its heap changes exactly as these functions say.
 */
module Locations {
  import opened Types
  import opened MemoryBlocks

  /** `ArchetypeBlockIndex`: group, block within the group and row within the block. */
  datatype ArchetypeBlockIndex = ArchetypeBlockIndex(valid: bool, archetypeIndex: nat, blockIndex: nat, elementIndex: nat)

  /** `ArchetypeBlockIndex::Invalid()`: the flag cleared, every index 0. */
  const InvalidIndex: ArchetypeBlockIndex := ArchetypeBlockIndex(false, 0, 0, 0)

  /** Every chunk of every group, indexed like `_archetypes[g].archetypeBlocks[b]`. */
  type Layout = seq<seq<Chunk>>

  /** `_entityMap` has one entry per id, so it never outgrows the 32-bit id space. */
  const IdSpace: nat := 0x1_0000_0000

  /** The live rows fit and every row has exactly the chunk's columns. */
  ghost predicate ChunkOk(c: Chunk) {
    && |c.live| <= |c.rows|
    && forall i :: 0 <= i < |c.rows| ==> c.rows[i].Keys == c.keys
  }

  ghost predicate Shaped(cs: Layout) {
    forall g, b :: 0 <= g < |cs| && 0 <= b < |cs[g]| ==> ChunkOk(cs[g][b])
  }

  /** `loc` names a live row that holds entity `id`. */
  ghost predicate Holds(cs: Layout, loc: ArchetypeBlockIndex, id: int) {
    && loc.archetypeIndex < |cs|
    && loc.blockIndex < |cs[loc.archetypeIndex]|
    && loc.elementIndex < |cs[loc.archetypeIndex][loc.blockIndex].live|
    && cs[loc.archetypeIndex][loc.blockIndex].live[loc.elementIndex].id == id
  }

  /** The entity in live row `r` of chunk `(g, b)` is non-null and its entry names that row. */
  ghost predicate Pointed(cs: Layout, em: seq<ArchetypeBlockIndex>, g: nat, b: nat, r: nat)
    requires g < |cs| && b < |cs[g]| && r < |cs[g][b].live|
  {
    var x := cs[g][b].live[r];
    x != NullEntity && x.id < |em| && em[x.id] == ArchetypeBlockIndex(true, g, b, r)
  }

  /**
   * The location invariant: every valid entry names a live row holding its entity, and
   * every live row's entity has a valid entry naming that row. Together these make the
   * entries and the live rows correspond one to one.
   */
  ghost predicate Located(cs: Layout, em: seq<ArchetypeBlockIndex>) {
    && |em| <= IdSpace
    && (forall id :: 0 <= id < |em| && em[id].valid ==> Holds(cs, em[id], id))
    && (forall g, b, r :: 0 <= g < |cs| && 0 <= b < |cs[g]| && 0 <= r < |cs[g][b].live| ==> Pointed(cs, em, g, b, r))
  }

  /** `IsEntityValid` on the index alone: inside the map and flagged valid. */
  predicate IsValid(em: seq<ArchetypeBlockIndex>, id: EntityId) {
    id < |em| && em[id].valid
  }

  /** The cells of the row an entry names. */
  ghost function RowAt(cs: Layout, loc: ArchetypeBlockIndex): map<TypeId, int>
    requires Shaped(cs) && loc.archetypeIndex < |cs| && loc.blockIndex < |cs[loc.archetypeIndex]|
    requires loc.elementIndex < |cs[loc.archetypeIndex][loc.blockIndex].live|
  {
    cs[loc.archetypeIndex][loc.blockIndex].rows[loc.elementIndex]
  }

  /** Chunk `(g, b)` replaced by `c`. */
  function SetChunk(cs: Layout, g: nat, b: nat, c: Chunk): (r: Layout)
    requires g < |cs| && b < |cs[g]|
    ensures |r| == |cs| && (forall h :: 0 <= h < |cs| ==> |r[h]| == |cs[h]|)
    ensures r[g][b] == c
    ensures forall h, k :: 0 <= h < |cs| && 0 <= k < |cs[h]| && (h != g || k != b) ==> r[h][k] == cs[h][k]
  {
    cs[g := cs[g][b := c]]
  }

  /** The entry of the entity moved into row `r` gets that row; nothing happens for the null entity. */
  function Repair(em: seq<ArchetypeBlockIndex>, moved: Entity, r: nat): seq<ArchetypeBlockIndex> {
    if moved.id != ENTITY_NULL_ID && moved.id < |em| then em[moved.id := em[moved.id].(elementIndex := r)] else em
  }

  /** An empty chunk of `capacity` zero rows, as `Initialize` leaves it. */
  function EmptyChunk(keys: set<TypeId>, capacity: nat): (c: Chunk)
    ensures ChunkOk(c) && ZeroTail(c) && c.live == [] && |c.rows| == capacity && c.keys == keys
  {
    Chunk(keys, [], seq(capacity, _ => ZeroRow(keys)))
  }

  // ---------------------------------------------------------------------------
  // Migration: `CopyEntityTo`, `RemoveEntityMoveLast`, the repair, the new entry.

  /**
   * The migration step shared by `AddComponent`, `RemoveComponent`,
   * `AddSharedComponent`, `RemoveSharedComponent` and `MoveToArchetype`, as written:
   * entity `id` is copied into the free chunk `(g2, b2)` (columns in common keep their
   * values), its old row is swap-removed, the entity moved into that row gets the
   * row's index, and `id`'s entry names the new row, whose index is the destination's
   * size before the copy.
   */
  function Migrate(cs: Layout, em: seq<ArchetypeBlockIndex>, id: EntityId, g2: nat, b2: nat)
    : (result: (Layout, seq<ArchetypeBlockIndex>))
    requires Shaped(cs) && IsValid(em, id) && Holds(cs, em[id], id)
    requires g2 < |cs| && b2 < |cs[g2]| && |cs[g2][b2].live| < |cs[g2][b2].rows|
  {
    var src := em[id];
    var g, b, r := src.archetypeIndex, src.blockIndex, src.elementIndex;
    var dst := cs[g2][b2];
    var cs1 := SetChunk(cs, g2, b2, AppendRow(dst, Entity(id), MigrateRow(cs[g][b].rows[r], dst.keys)));
    assert ChunkOk(cs[g][b]);
    var removed := RemoveRow(cs1[g][b], r);
    var cs2 := SetChunk(cs1, g, b, removed);
    var em1 := Repair(em, MovedInto(removed, r), r);
    (cs2, em1[id := ArchetypeBlockIndex(true, g2, b2, |dst.live|)])
  }

  /** The migration with the evident intent kept: when the free chunk is the entity's own, it stays. */
  function Relocate(cs: Layout, em: seq<ArchetypeBlockIndex>, id: EntityId, g2: nat, b2: nat)
    : (result: (Layout, seq<ArchetypeBlockIndex>))
    requires Shaped(cs) && IsValid(em, id) && Holds(cs, em[id], id)
    requires g2 < |cs| && b2 < |cs[g2]| && |cs[g2][b2].live| < |cs[g2][b2].rows|
  {
    if em[id].archetypeIndex == g2 && em[id].blockIndex == b2 then (cs, em) else Migrate(cs, em, id, g2, b2)
  }

  /** Inside `Migrate`: the two chunks it rewrites and what the rest keeps. */
  lemma MigrateParts(cs: Layout, em: seq<ArchetypeBlockIndex>, id: EntityId, g2: nat, b2: nat)
    requires Shaped(cs) && IsValid(em, id) && Holds(cs, em[id], id)
    requires g2 < |cs| && b2 < |cs[g2]| && |cs[g2][b2].live| < |cs[g2][b2].rows|
    requires em[id].archetypeIndex != g2 || em[id].blockIndex != b2
    ensures var (cs', em') := Migrate(cs, em, id, g2, b2);
      var g, b, r := em[id].archetypeIndex, em[id].blockIndex, em[id].elementIndex;
      var moved := MovedInto(RemoveRow(cs[g][b], r), r);
      && |cs'| == |cs| && (forall h :: 0 <= h < |cs| ==> |cs'[h]| == |cs[h]|)
      && cs'[g2][b2] == AppendRow(cs[g2][b2], Entity(id), MigrateRow(cs[g][b].rows[r], cs[g2][b2].keys))
      && cs'[g][b] == RemoveRow(cs[g][b], r)
      && (forall h, k :: 0 <= h < |cs| && 0 <= k < |cs[h]| && (h != g || k != b) && (h != g2 || k != b2) ==>
            cs'[h][k] == cs[h][k])
      && em' == Repair(em, moved, r)[id := ArchetypeBlockIndex(true, g2, b2, |cs[g2][b2].live|)]
  {
  }

  /** What the swap-removal of row `r` of a chunk reports, in terms of the chunk before it. */
  lemma MovedIntoLast(c: Chunk, r: nat)
    requires r < |c.live| <= |c.rows|
    ensures MovedInto(RemoveRow(c, r), r) == if r < |c.live| - 1 then c.live[|c.live| - 1] else NullEntity
  {
  }

  /** Entries name distinct rows: two valid entries naming the same row belong to the same id. */
  lemma EntriesInjective(cs: Layout, em: seq<ArchetypeBlockIndex>, id1: int, id2: int)
    requires Located(cs, em)
    requires 0 <= id1 < |em| && em[id1].valid && 0 <= id2 < |em| && em[id2].valid
    requires em[id1] == em[id2]
    ensures id1 == id2
  {
  }

  /** A chunk that gets a new row and a chunk that loses one stay well shaped. */
  lemma RowOpsShaped(c: Chunk, e: Entity, row: map<TypeId, int>, r: nat)
    requires ChunkOk(c)
    ensures |c.live| < |c.rows| && row.Keys == c.keys ==> ChunkOk(AppendRow(c, e, row))
    ensures r < |c.live| ==> ChunkOk(RemoveRow(c, r))
    ensures |c.live| < |c.rows| ==> ChunkOk(AddRow(c, e))
  {
    if r < |c.live| {
      var rows' := RemoveRow(c, r).rows;
      forall i | 0 <= i < |rows'| ensures rows'[i].Keys == c.keys {
      }
    }
  }

  /**
   * Migrating to another chunk keeps every valid entry pointing at a live row that
   * holds its entity.
   */
  lemma MigrateForward(cs: Layout, em: seq<ArchetypeBlockIndex>, id: EntityId, g2: nat, b2: nat)
    requires Shaped(cs) && Located(cs, em) && IsValid(em, id)
    requires g2 < |cs| && b2 < |cs[g2]| && |cs[g2][b2].live| < |cs[g2][b2].rows|
    requires em[id].archetypeIndex != g2 || em[id].blockIndex != b2
    ensures var (cs', em') := Migrate(cs, em, id, g2, b2);
      forall x :: 0 <= x < |em'| && em'[x].valid ==> Holds(cs', em'[x], x)
  {
    var (cs', em') := Migrate(cs, em, id, g2, b2);
    forall x | 0 <= x < |em'| && em'[x].valid
      ensures Holds(cs', em'[x], x)
    {
      MigrateHolds(cs, em, id, g2, b2, x);
    }
  }

  /** One valid entry after a migration: it names a live row holding its entity. */
  lemma MigrateHolds(cs: Layout, em: seq<ArchetypeBlockIndex>, id: EntityId, g2: nat, b2: nat, x: nat)
    requires Shaped(cs) && Located(cs, em) && IsValid(em, id)
    requires g2 < |cs| && b2 < |cs[g2]| && |cs[g2][b2].live| < |cs[g2][b2].rows|
    requires em[id].archetypeIndex != g2 || em[id].blockIndex != b2
    requires var em' := Migrate(cs, em, id, g2, b2).1; x < |em'| && em'[x].valid
    ensures var (cs', em') := Migrate(cs, em, id, g2, b2); Holds(cs', em'[x], x)
  {
    var (cs', em') := Migrate(cs, em, id, g2, b2);
    MigrateParts(cs, em, id, g2, b2);
    var g, b, r := em[id].archetypeIndex, em[id].blockIndex, em[id].elementIndex;
    var last := |cs[g][b].live| - 1;
    var moved := MovedInto(RemoveRow(cs[g][b], r), r);
    MovedIntoLast(cs[g][b], r);
    assert ChunkOk(cs[g][b]);
    if r < last {
      assert Pointed(cs, em, g, b, last);
      assert moved.id != id;
    }
    if x == id {
    } else if moved != NullEntity && x == moved.id {
      assert cs'[g][b].live[r] == moved;
    } else {
      assert em'[x] == em[x];
      var loc := em[x];
      assert Holds(cs, loc, x);
      if loc.archetypeIndex == g && loc.blockIndex == b {
        assert loc.elementIndex != r;
        assert Pointed(cs, em, g, b, loc.elementIndex);
        assert loc.elementIndex != last;
      }
    }
  }

  /** Migrating to another chunk keeps every live row's entity pointing back at it. */
  lemma MigrateBackward(cs: Layout, em: seq<ArchetypeBlockIndex>, id: EntityId, g2: nat, b2: nat)
    requires Shaped(cs) && Located(cs, em) && IsValid(em, id)
    requires g2 < |cs| && b2 < |cs[g2]| && |cs[g2][b2].live| < |cs[g2][b2].rows|
    requires em[id].archetypeIndex != g2 || em[id].blockIndex != b2
    ensures var (cs', em') := Migrate(cs, em, id, g2, b2);
      forall h, k, i :: 0 <= h < |cs'| && 0 <= k < |cs'[h]| && 0 <= i < |cs'[h][k].live| ==> Pointed(cs', em', h, k, i)
  {
    var (cs', em') := Migrate(cs, em, id, g2, b2);
    forall h, k, i | 0 <= h < |cs'| && 0 <= k < |cs'[h]| && 0 <= i < |cs'[h][k].live|
      ensures Pointed(cs', em', h, k, i)
    {
      MigratePointed(cs, em, id, g2, b2, h, k, i);
    }
  }

  /** One live row after a migration: its entity's entry names it. */
  lemma MigratePointed(cs: Layout, em: seq<ArchetypeBlockIndex>, id: EntityId, g2: nat, b2: nat, h: nat, k: nat, i: nat)
    requires Shaped(cs) && Located(cs, em) && IsValid(em, id)
    requires g2 < |cs| && b2 < |cs[g2]| && |cs[g2][b2].live| < |cs[g2][b2].rows|
    requires em[id].archetypeIndex != g2 || em[id].blockIndex != b2
    requires var cs' := Migrate(cs, em, id, g2, b2).0; h < |cs'| && k < |cs'[h]| && i < |cs'[h][k].live|
    ensures var (cs', em') := Migrate(cs, em, id, g2, b2); Pointed(cs', em', h, k, i)
  {
    var (cs', em') := Migrate(cs, em, id, g2, b2);
    MigrateParts(cs, em, id, g2, b2);
    var g, b, r := em[id].archetypeIndex, em[id].blockIndex, em[id].elementIndex;
    var last := |cs[g][b].live| - 1;
    MovedIntoLast(cs[g][b], r);
    assert ChunkOk(cs[g][b]);
    assert Pointed(cs, em, g, b, r);
    if r < last {
      assert Pointed(cs, em, g, b, last);
    }
    if h == g2 && k == b2 {
      if i < |cs[g2][b2].live| {
        assert Pointed(cs, em, h, k, i);
      }
    } else if h == g && k == b {
      if i != r {
        assert Pointed(cs, em, h, k, i);
      }
    } else {
      assert Pointed(cs, em, h, k, i);
    }
  }

  /** Migrating to another chunk keeps the location invariant and the chunks' shape. */
  lemma MigrateLocated(cs: Layout, em: seq<ArchetypeBlockIndex>, id: EntityId, g2: nat, b2: nat)
    requires Shaped(cs) && Located(cs, em) && IsValid(em, id)
    requires g2 < |cs| && b2 < |cs[g2]| && |cs[g2][b2].live| < |cs[g2][b2].rows|
    requires em[id].archetypeIndex != g2 || em[id].blockIndex != b2
    ensures var (cs', em') := Migrate(cs, em, id, g2, b2);
      Shaped(cs') && Located(cs', em')
  {
    var (cs', em') := Migrate(cs, em, id, g2, b2);
    MigrateParts(cs, em, id, g2, b2);
    var g, b, r := em[id].archetypeIndex, em[id].blockIndex, em[id].elementIndex;
    assert ChunkOk(cs[g][b]) && ChunkOk(cs[g2][b2]);
    RowOpsShaped(cs[g2][b2], Entity(id), MigrateRow(cs[g][b].rows[r], cs[g2][b2].keys), 0);
    RowOpsShaped(cs[g][b], Entity(id), map[], r);
    MigrateForward(cs, em, id, g2, b2);
    MigrateBackward(cs, em, id, g2, b2);
  }

  /**
   * What a migration does to the entities: `id` is now in row `|live|` of chunk
   * `(g2, b2)` holding its old cells restricted or zero-extended to the destination's
   * columns; every other entity keeps its chunk and its cells, and only the one moved
   * into `id`'s old row changes its row index; the set of valid ids is unchanged.
   */
  lemma MigrateEffect(cs: Layout, em: seq<ArchetypeBlockIndex>, id: EntityId, g2: nat, b2: nat)
    requires Shaped(cs) && Located(cs, em) && IsValid(em, id)
    requires g2 < |cs| && b2 < |cs[g2]| && |cs[g2][b2].live| < |cs[g2][b2].rows|
    requires em[id].archetypeIndex != g2 || em[id].blockIndex != b2
    ensures var (cs', em') := Migrate(cs, em, id, g2, b2);
      && Shaped(cs') && Located(cs', em') && |em'| == |em|
      && em'[id] == ArchetypeBlockIndex(true, g2, b2, |cs[g2][b2].live|)
      && RowAt(cs', em'[id]) == MigrateRow(RowAt(cs, em[id]), cs[g2][b2].keys)
      && (forall x :: 0 <= x < |em| && x != id ==>
            && em'[x].valid == em[x].valid
            && em'[x].archetypeIndex == em[x].archetypeIndex
            && em'[x].blockIndex == em[x].blockIndex)
      && (forall x :: 0 <= x < |em| && x != id && em[x].valid ==> RowAt(cs', em'[x]) == RowAt(cs, em[x]))
  {
    MigrateLocated(cs, em, id, g2, b2);
    MigrateParts(cs, em, id, g2, b2);
    assert ChunkOk(cs[em[id].archetypeIndex][em[id].blockIndex]);
    MigrateRows(cs, em, id, g2, b2);
  }

  /** The cells of every entity other than `id` survive a migration. */
  lemma MigrateRows(cs: Layout, em: seq<ArchetypeBlockIndex>, id: EntityId, g2: nat, b2: nat)
    requires Shaped(cs) && Located(cs, em) && IsValid(em, id)
    requires g2 < |cs| && b2 < |cs[g2]| && |cs[g2][b2].live| < |cs[g2][b2].rows|
    requires em[id].archetypeIndex != g2 || em[id].blockIndex != b2
    ensures var (cs', em') := Migrate(cs, em, id, g2, b2);
      Shaped(cs') && Located(cs', em') &&
      forall x :: 0 <= x < |em| && x != id && em[x].valid ==> RowAt(cs', em'[x]) == RowAt(cs, em[x])
  {
    var (cs', em') := Migrate(cs, em, id, g2, b2);
    MigrateLocated(cs, em, id, g2, b2);
    forall x | 0 <= x < |em| && x != id && em[x].valid
      ensures RowAt(cs', em'[x]) == RowAt(cs, em[x])
    {
      MigrateRowOf(cs, em, id, g2, b2, x);
    }
  }

  /** The cells of one entity other than `id` survive a migration. */
  lemma MigrateRowOf(cs: Layout, em: seq<ArchetypeBlockIndex>, id: EntityId, g2: nat, b2: nat, x: int)
    requires Shaped(cs) && Located(cs, em) && IsValid(em, id)
    requires g2 < |cs| && b2 < |cs[g2]| && |cs[g2][b2].live| < |cs[g2][b2].rows|
    requires em[id].archetypeIndex != g2 || em[id].blockIndex != b2
    requires 0 <= x < |em| && x != id && em[x].valid
    requires var (cs', em') := Migrate(cs, em, id, g2, b2); Shaped(cs') && Located(cs', em')
    ensures var (cs', em') := Migrate(cs, em, id, g2, b2); RowAt(cs', em'[x]) == RowAt(cs, em[x])
  {
    var (cs', em') := Migrate(cs, em, id, g2, b2);
    MigrateParts(cs, em, id, g2, b2);
    var g, b, r := em[id].archetypeIndex, em[id].blockIndex, em[id].elementIndex;
    var last := |cs[g][b].live| - 1;
    var moved := MovedInto(RemoveRow(cs[g][b], r), r);
    MovedIntoLast(cs[g][b], r);
    assert ChunkOk(cs[g][b]);
    assert Holds(cs, em[x], x);
    var loc := em[x];
    assert Pointed(cs, em, loc.archetypeIndex, loc.blockIndex, loc.elementIndex);
    assert x != ENTITY_NULL_ID;
    if r < last {
      assert Pointed(cs, em, g, b, last);
    }
    if loc.archetypeIndex == g && loc.blockIndex == b {
      assert loc.elementIndex != r;
      if r < last && loc.elementIndex == last {
        assert x == moved.id;
        assert em'[x] == ArchetypeBlockIndex(true, g, b, r);
      } else {
        assert x != moved.id;
        assert em'[x] == loc;
      }
    } else {
      assert x != moved.id;
      assert em'[x] == loc;
    }
  }

  /**
   * The corrected migration keeps the location invariant for every target chunk with
   * room, the entity's own chunk included, and leaves `id` in chunk `(g2, b2)`.
   */
  lemma RelocateLocated(cs: Layout, em: seq<ArchetypeBlockIndex>, id: EntityId, g2: nat, b2: nat)
    requires Shaped(cs) && Located(cs, em) && IsValid(em, id)
    requires g2 < |cs| && b2 < |cs[g2]| && |cs[g2][b2].live| < |cs[g2][b2].rows|
    ensures var (cs', em') := Relocate(cs, em, id, g2, b2);
      && Shaped(cs') && Located(cs', em') && |em'| == |em|
      && IsValid(em', id) && em'[id].archetypeIndex == g2 && em'[id].blockIndex == b2
  {
    if em[id].archetypeIndex != g2 || em[id].blockIndex != b2 {
      MigrateLocated(cs, em, id, g2, b2);
      MigrateParts(cs, em, id, g2, b2);
    }
  }

  /**
   * Migrating into the entity's own chunk, as written: the copy becomes the last row,
   * the swap-removal moves it into the old row and repairs that entry, and then the
   * entry is overwritten with the copy's old index, which is now one past the live
   * rows. The location invariant is broken.
   */
  lemma MigrateIntoOwnChunkBreaksLocation(cs: Layout, em: seq<ArchetypeBlockIndex>, id: EntityId)
    requires Shaped(cs) && Located(cs, em) && IsValid(em, id)
    requires var c := cs[em[id].archetypeIndex][em[id].blockIndex]; |c.live| < |c.rows|
    ensures var (cs', em') := Migrate(cs, em, id, em[id].archetypeIndex, em[id].blockIndex);
      && em'[id].elementIndex == |cs'[em[id].archetypeIndex][em[id].blockIndex].live|
      && !Located(cs', em')
  {
    var g, b, r := em[id].archetypeIndex, em[id].blockIndex, em[id].elementIndex;
    var (cs', em') := Migrate(cs, em, id, g, b);
    assert ChunkOk(cs[g][b]);
    var c1 := AppendRow(cs[g][b], Entity(id), MigrateRow(cs[g][b].rows[r], cs[g][b].keys));
    assert cs'[g][b] == RemoveRow(c1, r);
    assert |cs'[g][b].live| == |cs[g][b].live|;
    assert em'[id].elementIndex == |cs[g][b].live|;
    assert !Holds(cs', em'[id], id);
  }

  // ---------------------------------------------------------------------------
  // Adding and removing entities, and growing the layout.

  /** `AddEntity`: the map grows to hold `id`, which takes the first free row of chunk `(g, b)`. */
  function AddAt(cs: Layout, em: seq<ArchetypeBlockIndex>, id: EntityId, g: nat, b: nat)
    : (result: (Layout, seq<ArchetypeBlockIndex>))
    requires g < |cs| && b < |cs[g]|
  {
    var em1 := if |em| <= id then em + seq(id + 1 - |em|, _ => InvalidIndex) else em;
    (SetChunk(cs, g, b, AddRow(cs[g][b], Entity(id))), em1[id := ArchetypeBlockIndex(true, g, b, |cs[g][b].live|)])
  }

  /**
   * Adding an entity that is not valid yet to a chunk with room keeps the invariant;
   * the new entity is valid, every other entry is unchanged, and entries past the old
   * end of the map are invalid.
   */
  lemma AddAtLocated(cs: Layout, em: seq<ArchetypeBlockIndex>, id: EntityId, g: nat, b: nat)
    requires Shaped(cs) && Located(cs, em)
    requires id != ENTITY_NULL_ID && !IsValid(em, id)
    requires g < |cs| && b < |cs[g]| && |cs[g][b].live| < |cs[g][b].rows|
    ensures var (cs', em') := AddAt(cs, em, id, g, b);
      && Shaped(cs') && Located(cs', em')
      && |em'| == (if |em| <= id then id + 1 else |em|)
      && em'[id] == ArchetypeBlockIndex(true, g, b, |cs[g][b].live|)
      && (forall x :: 0 <= x < |em| && x != id ==> em'[x] == em[x])
      && (forall x :: |em| <= x < |em'| && x != id ==> !em'[x].valid)
      && (forall x :: 0 <= x < |em| && x != id && em[x].valid ==> RowAt(cs', em'[x]) == RowAt(cs, em[x]))
  {
    var (cs', em') := AddAt(cs, em, id, g, b);
    assert ChunkOk(cs[g][b]);
    RowOpsShaped(cs[g][b], Entity(id), map[], 0);
    forall x | 0 <= x < |em'| && em'[x].valid
      ensures Holds(cs', em'[x], x)
    {
      if x != id {
        assert x < |em| && em'[x] == em[x];
        assert Holds(cs, em[x], x);
      }
    }
    forall h, k, i | 0 <= h < |cs'| && 0 <= k < |cs'[h]| && 0 <= i < |cs'[h][k].live|
      ensures Pointed(cs', em', h, k, i)
    {
      if h != g || k != b || i < |cs[g][b].live| {
        assert Pointed(cs, em, h, k, i);
      }
    }
  }

  /**
   * `RemoveEntity`: the entity's row is swap-removed, the entity moved into it gets
   * the row's index, and the entity's entry becomes `Invalid()`.
   */
  function RemoveAt(cs: Layout, em: seq<ArchetypeBlockIndex>, id: EntityId): (result: (Layout, seq<ArchetypeBlockIndex>))
    requires Shaped(cs) && IsValid(em, id) && Holds(cs, em[id], id)
  {
    var g, b, r := em[id].archetypeIndex, em[id].blockIndex, em[id].elementIndex;
    assert ChunkOk(cs[g][b]);
    var removed := RemoveRow(cs[g][b], r);
    (SetChunk(cs, g, b, removed), Repair(em, MovedInto(removed, r), r)[id := InvalidIndex])
  }

  /**
   * Removing a valid entity keeps the invariant; the entity is no longer valid, every
   * other entity keeps its chunk and cells, and only the one moved into the vacated
   * row changes its row index.
   */
  lemma RemoveAtLocated(cs: Layout, em: seq<ArchetypeBlockIndex>, id: EntityId)
    requires Shaped(cs) && Located(cs, em) && IsValid(em, id)
    ensures var (cs', em') := RemoveAt(cs, em, id);
      && Shaped(cs') && Located(cs', em') && |em'| == |em|
      && em'[id] == InvalidIndex
      && (forall x :: 0 <= x < |em| && x != id ==>
            && em'[x].valid == em[x].valid
            && em'[x].archetypeIndex == em[x].archetypeIndex
            && em'[x].blockIndex == em[x].blockIndex)
      && (forall x :: 0 <= x < |em| && x != id && em[x].valid ==> RowAt(cs', em'[x]) == RowAt(cs, em[x]))
  {
    var (cs', em') := RemoveAt(cs, em, id);
    var g, b, r := em[id].archetypeIndex, em[id].blockIndex, em[id].elementIndex;
    assert Holds(cs, em[id], id);
    assert ChunkOk(cs[g][b]);
    RowOpsShaped(cs[g][b], Entity(id), map[], r);
    forall x | 0 <= x < |em'| && em'[x].valid
      ensures Holds(cs', em'[x], x) && RowAt(cs', em'[x]) == RowAt(cs, em[x])
    {
      RemoveAtHolds(cs, em, id, x);
    }
    forall h, k, i | 0 <= h < |cs'| && 0 <= k < |cs'[h]| && 0 <= i < |cs'[h][k].live|
      ensures Pointed(cs', em', h, k, i)
    {
      RemoveAtPointed(cs, em, id, h, k, i);
    }
  }

  /** One entry that stays valid after a removal still names its entity's row, with the same cells. */
  lemma RemoveAtHolds(cs: Layout, em: seq<ArchetypeBlockIndex>, id: EntityId, x: int)
    requires Shaped(cs) && Located(cs, em) && IsValid(em, id)
    requires Shaped(RemoveAt(cs, em, id).0)
    requires var em' := RemoveAt(cs, em, id).1; 0 <= x < |em'| && em'[x].valid
    ensures var (cs', em') := RemoveAt(cs, em, id);
      Holds(cs', em'[x], x) && RowAt(cs', em'[x]) == RowAt(cs, em[x])
  {
    var (cs', em') := RemoveAt(cs, em, id);
    var g, b, r := em[id].archetypeIndex, em[id].blockIndex, em[id].elementIndex;
    var last := |cs[g][b].live| - 1;
    var moved := MovedInto(RemoveRow(cs[g][b], r), r);
    MovedIntoLast(cs[g][b], r);
    assert ChunkOk(cs[g][b]);
    assert Pointed(cs, em, g, b, r);
    if r < last {
      assert Pointed(cs, em, g, b, last);
    }
    assert Holds(cs, em[x], x);
    if moved == NullEntity || x != moved.id {
      var loc := em[x];
      if loc.archetypeIndex == g && loc.blockIndex == b {
        assert loc.elementIndex != r;
        assert Pointed(cs, em, g, b, loc.elementIndex);
      }
    }
  }

  /** One live row after a removal: its entity's entry names it. */
  lemma RemoveAtPointed(cs: Layout, em: seq<ArchetypeBlockIndex>, id: EntityId, h: nat, k: nat, i: nat)
    requires Shaped(cs) && Located(cs, em) && IsValid(em, id)
    requires var cs' := RemoveAt(cs, em, id).0; h < |cs'| && k < |cs'[h]| && i < |cs'[h][k].live|
    ensures var (cs', em') := RemoveAt(cs, em, id); Pointed(cs', em', h, k, i)
  {
    var (cs', em') := RemoveAt(cs, em, id);
    var g, b, r := em[id].archetypeIndex, em[id].blockIndex, em[id].elementIndex;
    var last := |cs[g][b].live| - 1;
    MovedIntoLast(cs[g][b], r);
    assert ChunkOk(cs[g][b]);
    assert Pointed(cs, em, g, b, r);
    if r < last {
      assert Pointed(cs, em, g, b, last);
    }
    if h != g || k != b || i != r {
      assert Pointed(cs, em, h, k, i);
    }
  }

  /** A new empty chunk at the end of group `g` (`CreateNewBlockIndex`) keeps the invariant. */
  lemma AddChunkLocated(cs: Layout, em: seq<ArchetypeBlockIndex>, g: nat, c: Chunk)
    requires Shaped(cs) && Located(cs, em) && g < |cs| && ChunkOk(c) && c.live == []
    ensures Shaped(cs[g := cs[g] + [c]]) && Located(cs[g := cs[g] + [c]], em)
  {
    var cs' := cs[g := cs[g] + [c]];
    forall x | 0 <= x < |em| && em[x].valid
      ensures Holds(cs', em[x], x)
    {
      assert Holds(cs, em[x], x);
    }
    forall h, k, i | 0 <= h < |cs'| && 0 <= k < |cs'[h]| && 0 <= i < |cs'[h][k].live|
      ensures Pointed(cs', em, h, k, i)
    {
      assert Pointed(cs, em, h, k, i);
    }
  }

  /** A new group without chunks (`CreateNewArchetypeBlock`) keeps the invariant. */
  lemma AddGroupLocated(cs: Layout, em: seq<ArchetypeBlockIndex>)
    requires Shaped(cs) && Located(cs, em)
    ensures Shaped(cs + [[]]) && Located(cs + [[]], em)
  {
    var cs' := cs + [[]];
    forall x | 0 <= x < |em| && em[x].valid
      ensures Holds(cs', em[x], x)
    {
      assert Holds(cs, em[x], x);
    }
    forall h, k, i | 0 <= h < |cs'| && 0 <= k < |cs'[h]| && 0 <= i < |cs'[h][k].live|
      ensures Pointed(cs', em, h, k, i)
    {
      assert Pointed(cs, em, h, k, i);
    }
  }

  // ---------------------------------------------------------------------------
  // Growth that leaves every existing chunk in place.

  /** `cs'` keeps every chunk of `cs` at its indices, possibly with more groups and chunks. */
  ghost predicate Extends(cs: Layout, cs': Layout) {
    && |cs| <= |cs'|
    && (forall g :: 0 <= g < |cs| ==> |cs[g]| <= |cs'[g]|)
    && (forall g, b :: 0 <= g < |cs| && 0 <= b < |cs[g]| ==> cs'[g][b] == cs[g][b])
  }

  /** After growth every valid entry still names the row it named, holding the same cells. */
  lemma ExtendsKeepsRows(cs: Layout, cs': Layout, em: seq<ArchetypeBlockIndex>)
    requires Shaped(cs) && Shaped(cs') && Located(cs, em) && Extends(cs, cs')
    ensures forall x :: 0 <= x < |em| && em[x].valid ==> Holds(cs', em[x], x) && RowAt(cs', em[x]) == RowAt(cs, em[x])
  {
    forall x | 0 <= x < |em| && em[x].valid
      ensures Holds(cs', em[x], x) && RowAt(cs', em[x]) == RowAt(cs, em[x])
    {
      assert Holds(cs, em[x], x);
    }
  }

  /** `_entityMap.resize(id + 1)`: the new entries are `Invalid()`, and the invariant survives. */
  lemma GrowLocated(cs: Layout, em: seq<ArchetypeBlockIndex>, n: nat)
    requires Located(cs, em) && |em| + n <= IdSpace
    ensures Located(cs, em + seq(n, _ => InvalidIndex))
  {
    var em' := em + seq(n, _ => InvalidIndex);
    forall x | 0 <= x < |em'| && em'[x].valid
      ensures Holds(cs, em'[x], x)
    {
      assert x < |em| && em'[x] == em[x];
    }
    forall h, k, i | 0 <= h < |cs| && 0 <= k < |cs[h]| && 0 <= i < |cs[h][k].live|
      ensures Pointed(cs, em', h, k, i)
    {
      assert Pointed(cs, em, h, k, i);
    }
  }

  /**
   * What the corrected migration does, in both cases: `id` ends in chunk `(g2, b2)`
   * holding its old cells restricted or zero-extended to that chunk's columns, and every
   * other entity keeps its chunk and its cells.
   */
  lemma RelocateEffect(cs: Layout, em: seq<ArchetypeBlockIndex>, id: EntityId, g2: nat, b2: nat)
    requires Shaped(cs) && Located(cs, em) && IsValid(em, id)
    requires g2 < |cs| && b2 < |cs[g2]| && |cs[g2][b2].live| < |cs[g2][b2].rows|
    ensures var (cs', em') := Relocate(cs, em, id, g2, b2);
      && Shaped(cs') && Located(cs', em') && |em'| == |em| && IsValid(em', id)
      && em'[id].archetypeIndex == g2 && em'[id].blockIndex == b2
      && Extends(cs, cs') == (em[id].archetypeIndex == g2 && em[id].blockIndex == b2)
      && RowAt(cs', em'[id]) == MigrateRow(RowAt(cs, em[id]), cs[g2][b2].keys)
      && (forall x :: 0 <= x < |em| && x != id ==>
            && em'[x].valid == em[x].valid
            && em'[x].archetypeIndex == em[x].archetypeIndex
            && em'[x].blockIndex == em[x].blockIndex)
      && (forall x :: 0 <= x < |em| && x != id && em[x].valid ==> RowAt(cs', em'[x]) == RowAt(cs, em[x]))
  {
    assert Holds(cs, em[id], id);
    var g, b := em[id].archetypeIndex, em[id].blockIndex;
    if g == g2 && b == b2 {
      var row := RowAt(cs, em[id]);
      assert ChunkOk(cs[g][b]);
      assert row.Keys == cs[g2][b2].keys;
      assert MigrateRow(row, cs[g2][b2].keys) == row;
    } else {
      MigrateEffect(cs, em, id, g2, b2);
      MigrateParts(cs, em, id, g2, b2);
      var cs': Layout := Migrate(cs, em, id, g2, b2).0;
      assert |cs'[g][b].live| < |cs[g][b].live|;
      assert cs'[g][b] != cs[g][b];
    }
  }

  /** Changing only the cells of a layout, never its live entities, keeps the location invariant. */
  lemma SameLiveLocated(cs: Layout, cs': Layout, em: seq<ArchetypeBlockIndex>)
    requires Located(cs, em) && |cs'| == |cs|
    requires forall g :: 0 <= g < |cs| ==> |cs'[g]| == |cs[g]|
    requires forall g, b :: 0 <= g < |cs| && 0 <= b < |cs[g]| ==> cs'[g][b].live == cs[g][b].live
    ensures Located(cs', em)
  {
    forall x | 0 <= x < |em| && em[x].valid
      ensures Holds(cs', em[x], x)
    {
      assert Holds(cs, em[x], x);
    }
    forall h, k, i | 0 <= h < |cs'| && 0 <= k < |cs'[h]| && 0 <= i < |cs'[h][k].live|
      ensures Pointed(cs', em, h, k, i)
    {
      assert Pointed(cs, em, h, k, i);
    }
  }

  /** `GetComponent<T>(e) = value` on the layout: one cell of the live row `loc` names overwritten. */
  function SetRowCell(cs: Layout, loc: ArchetypeBlockIndex, t: TypeId, value: int): (cs': Layout)
    requires loc.archetypeIndex < |cs| && loc.blockIndex < |cs[loc.archetypeIndex]|
    requires loc.elementIndex < |cs[loc.archetypeIndex][loc.blockIndex].rows|
  {
    var c := cs[loc.archetypeIndex][loc.blockIndex];
    SetChunk(cs, loc.archetypeIndex, loc.blockIndex,
             Chunk(c.keys, c.live, c.rows[loc.elementIndex := SetCell(c.rows[loc.elementIndex], t, value)]))
  }

  /**
   * Overwriting a cell of a valid entity's row, in a column the row has, keeps the
   * invariant and every chunk's columns and row count.
   */
  lemma SetRowCellShaped(cs: Layout, em: seq<ArchetypeBlockIndex>, id: EntityId, t: TypeId, value: int)
    requires Shaped(cs) && Zeroed(cs) && Located(cs, em) && IsValid(em, id)
    ensures Holds(cs, em[id], id)
    requires t in cs[em[id].archetypeIndex][em[id].blockIndex].keys
    ensures var cs' := SetRowCell(cs, em[id], t, value);
      && Shaped(cs') && Zeroed(cs') && Located(cs', em)
      && forall g, b :: 0 <= g < |cs| && 0 <= b < |cs[g]| ==>
           cs'[g][b].keys == cs[g][b].keys && |cs'[g][b].rows| == |cs[g][b].rows|
  {
    var g, b := em[id].archetypeIndex, em[id].blockIndex;
    assert ChunkOk(cs[g][b]) && ZeroTail(cs[g][b]);
    var cs' := SetRowCell(cs, em[id], t, value);
    assert ChunkOk(cs'[g][b]) && ZeroTail(cs'[g][b]);
    SameLiveLocated(cs, cs', em);
  }

  /** Overwriting a cell changes that one value of the entity's row and no other entity's row. */
  lemma SetRowCellRows(cs: Layout, em: seq<ArchetypeBlockIndex>, id: EntityId, t: TypeId, value: int)
    requires Shaped(cs) && Zeroed(cs) && Located(cs, em) && IsValid(em, id)
    ensures Holds(cs, em[id], id)
    requires t in cs[em[id].archetypeIndex][em[id].blockIndex].keys
    ensures var cs' := SetRowCell(cs, em[id], t, value);
      && Shaped(cs') && Holds(cs', em[id], id)
      && RowAt(cs', em[id]) == SetCell(RowAt(cs, em[id]), t, value)
      && forall x :: 0 <= x < |em| && x != id && em[x].valid ==> Holds(cs', em[x], x) && RowAt(cs', em[x]) == RowAt(cs, em[x])
  {
    var g, b, r := em[id].archetypeIndex, em[id].blockIndex, em[id].elementIndex;
    SetRowCellShaped(cs, em, id, t, value);
    forall x | 0 <= x < |em| && x != id && em[x].valid
      ensures Holds(SetRowCell(cs, em[id], t, value), em[x], x)
      ensures RowAt(SetRowCell(cs, em[id], t, value), em[x]) == RowAt(cs, em[x])
    {
      assert Holds(cs, em[x], x);
      if em[x].archetypeIndex == g && em[x].blockIndex == b && em[x].elementIndex == r {
        EntriesInjective(cs, em, x, id);
      }
    }
  }

  // ---------------------------------------------------------------------------
  // The rows past the live ones stay zero.

  /** The rows past the live ones hold zero cells, as `Initialize` and every removal leave them. */
  ghost predicate ZeroTail(c: Chunk) {
    forall i :: |c.live| <= i < |c.rows| ==> c.rows[i] == ZeroRow(c.keys)
  }

  ghost predicate Zeroed(cs: Layout) {
    forall g, b :: 0 <= g < |cs| && 0 <= b < |cs[g]| ==> ZeroTail(cs[g][b])
  }

  /** Every row operation keeps the tail zero, so the row a new entity takes is all zeros. */
  lemma RowOpsZeroed(c: Chunk, e: Entity, row: map<TypeId, int>, r: nat)
    requires ChunkOk(c) && ZeroTail(c)
    ensures |c.live| < |c.rows| ==> c.rows[|c.live|] == ZeroRow(c.keys)
    ensures |c.live| < |c.rows| ==> ZeroTail(AppendRow(c, e, row)) && ZeroTail(AddRow(c, e))
    ensures r < |c.live| ==> ZeroTail(RemoveRow(c, r))
  {
  }

  /** The corrected migration keeps every tail zero. */
  lemma RelocateZeroed(cs: Layout, em: seq<ArchetypeBlockIndex>, id: EntityId, g2: nat, b2: nat)
    requires Shaped(cs) && Zeroed(cs) && Located(cs, em) && IsValid(em, id)
    requires g2 < |cs| && b2 < |cs[g2]| && |cs[g2][b2].live| < |cs[g2][b2].rows|
    ensures Zeroed(Relocate(cs, em, id, g2, b2).0)
  {
    assert Holds(cs, em[id], id);
    var g, b, r := em[id].archetypeIndex, em[id].blockIndex, em[id].elementIndex;
    if g != g2 || b != b2 {
      MigrateParts(cs, em, id, g2, b2);
      assert ChunkOk(cs[g][b]) && ZeroTail(cs[g][b]) && ChunkOk(cs[g2][b2]) && ZeroTail(cs[g2][b2]);
      RowOpsZeroed(cs[g2][b2], Entity(id), MigrateRow(cs[g][b].rows[r], cs[g2][b2].keys), 0);
      RowOpsZeroed(cs[g][b], Entity(id), map[], r);
    }
  }

  /** Adding an entity keeps every tail zero, and the entity's cells are all zero. */
  lemma AddAtZeroed(cs: Layout, em: seq<ArchetypeBlockIndex>, id: EntityId, g: nat, b: nat)
    requires Shaped(cs) && Zeroed(cs)
    requires g < |cs| && b < |cs[g]| && |cs[g][b].live| < |cs[g][b].rows|
    ensures Zeroed(AddAt(cs, em, id, g, b).0)
    ensures cs[g][b].rows[|cs[g][b].live|] == ZeroRow(cs[g][b].keys)
  {
    assert ChunkOk(cs[g][b]) && ZeroTail(cs[g][b]);
    RowOpsZeroed(cs[g][b], Entity(id), map[], 0);
  }

  /** Removing an entity keeps every tail zero. */
  lemma RemoveAtZeroed(cs: Layout, em: seq<ArchetypeBlockIndex>, id: EntityId)
    requires Shaped(cs) && Zeroed(cs) && Located(cs, em) && IsValid(em, id)
    ensures Zeroed(RemoveAt(cs, em, id).0)
  {
    assert Holds(cs, em[id], id);
    var g, b, r := em[id].archetypeIndex, em[id].blockIndex, em[id].elementIndex;
    assert ChunkOk(cs[g][b]) && ZeroTail(cs[g][b]);
    RowOpsZeroed(cs[g][b], Entity(id), map[], r);
  }

  // ---------------------------------------------------------------------------
  // The entities the chunks hold.

  /** Every entity in a live row of some chunk. */
  ghost function Population(cs: Layout): set<Entity> {
    set g, b, i | 0 <= g < |cs| && 0 <= b < |cs[g]| && 0 <= i < |cs[g][b].live| :: cs[g][b].live[i]
  }

  /** A valid entry belongs to a non-null entity: the null entity is in no live row. */
  lemma ValidIsNonNull(cs: Layout, em: seq<ArchetypeBlockIndex>, id: EntityId)
    requires Located(cs, em)
    ensures IsValid(em, id) ==> id != ENTITY_NULL_ID
  {
    if IsValid(em, id) {
      var l := em[id];
      assert Pointed(cs, em, l.archetypeIndex, l.blockIndex, l.elementIndex);
    }
  }

  /** Under the location invariant the valid entries are exactly the entities the chunks hold. */
  lemma ValidIffStored(cs: Layout, em: seq<ArchetypeBlockIndex>, id: EntityId)
    requires Located(cs, em)
    ensures IsValid(em, id) <==> Entity(id) in Population(cs)
  {
    if IsValid(em, id) {
      var l := em[id];
      assert Holds(cs, l, id);
      assert cs[l.archetypeIndex][l.blockIndex].live[l.elementIndex] == Entity(id);
    }
    if Entity(id) in Population(cs) {
      var g, b, i :| 0 <= g < |cs| && 0 <= b < |cs[g]| && 0 <= i < |cs[g][b].live| && cs[g][b].live[i] == Entity(id);
      assert Pointed(cs, em, g, b, i);
    }
  }
}
