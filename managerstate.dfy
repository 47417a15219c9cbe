/**
 * The component manager's state as values: the archetype groups
 * (`EntityArchetypeBlock`) with their chunks, the per-entity location index and the
 * hash-to-group table; the representation invariant over them, and how it survives
 * each kind of change the manager makes.
 */
module ManagerState {
  import opened Types
  import opened EntityArchetypes
  import opened MemoryBlocks
  import opened Locations

  /** `EntityArchetypeBlock`: a group's archetype, its chunks and the chunk handed out last. */
  datatype EntityArchetypeBlock = EntityArchetypeBlock(
    archetype: EntityArchetype,
    archetypeBlocks: seq<Chunk>,
    lastUsedIdx: int)
  {
    /** `CreateNewBlockIndex`: the group with a freshly initialised chunk appended, and its index. */
    method CreateNewBlockIndex() returns (grp: EntityArchetypeBlock, b: nat)
      ensures grp == this.(archetypeBlocks := archetypeBlocks + [NewChunk(archetype)])
      ensures b == |archetypeBlocks| && grp.archetypeBlocks[b] == NewChunk(archetype)
    {
      var rows, _ := PlanArena(archetype.componentTypesMemory);
      grp := this.(archetypeBlocks := archetypeBlocks + [EmptyChunk(archetype.componentTypesMemory.Keys, rows)]);
      b := |grp.archetypeBlocks| - 1;
    }

    /**
     * `GetOrCreateFreeBlockIndex`: the chunk used last when it still has room, else the
     * lowest chunk with room, else exactly one new chunk; the answer becomes the chunk
     * used last. A new chunk has room whenever a row of the archetype fits in a chunk.
     */
    method GetOrCreateFreeBlockIndex() returns (grp: EntityArchetypeBlock, b: nat)
      requires -1 <= lastUsedIdx < |archetypeBlocks|
      ensures grp == WithFreeBlock(this) && b == grp.lastUsedIdx && b < |grp.archetypeBlocks|
      ensures grp.archetype == archetype && archetypeBlocks <= grp.archetypeBlocks
      ensures 0 <= lastUsedIdx && HasRoomFor(archetypeBlocks[lastUsedIdx]) ==> grp == this
      ensures b < |archetypeBlocks| ==> grp == this.(lastUsedIdx := b) && HasRoomFor(archetypeBlocks[b])
      ensures b == lastUsedIdx || forall j :: 0 <= j < b && j < |archetypeBlocks| ==> !HasRoomFor(archetypeBlocks[j])
      ensures b == |archetypeBlocks| ==> grp.archetypeBlocks == archetypeBlocks + [NewChunk(archetype)]
      ensures Fits(archetype) ==> HasRoomFor(grp.archetypeBlocks[b])
    {
      if lastUsedIdx != -1 && HasRoomFor(archetypeBlocks[lastUsedIdx]) {
        return this, lastUsedIdx;
      }
      var i := FirstFreeBlock(archetypeBlocks);
      WithFreeBlockScan(this);
      if i < |archetypeBlocks| {
        return this.(lastUsedIdx := i), i;
      }
      grp, b := CreateNewBlockIndex();
      if Fits(archetype) {
        FitsHasRoom(archetype);
      }
      grp := grp.(lastUsedIdx := b);
    }
  }

  // ---------------------------------------------------------------------------
  // Choosing a chunk with room.

  /** `HasRoom`: a free row is left. */
  predicate HasRoomFor(c: Chunk) {
    |c.live| < |c.rows|
  }

  /** Which chunks of a group have room. */
  ghost function Rooms(cs: seq<Chunk>): (room: seq<bool>)
    ensures |room| == |cs| && forall i :: 0 <= i < |cs| ==> room[i] == HasRoomFor(cs[i])
  {
    seq(|cs|, i requires 0 <= i < |cs| => HasRoomFor(cs[i]))
  }

  /** The lowest index with room, or the length when there is none. */
  function FirstWithRoom(room: seq<bool>): (i: nat)
    ensures i <= |room| && (i < |room| ==> room[i])
    ensures forall j :: 0 <= j < i ==> !room[j]
  {
    if room == [] then 0
    else if room[0] then 0
    else 1 + FirstWithRoom(room[1..])
  }

  /**
   * The chunk `GetOrCreateFreeBlockIndex` settles on: the one used last when it still
   * has room, else the lowest one with room, else a new one at the end.
   */
  function ChosenBlock(room: seq<bool>, lastUsedIdx: int): nat {
    if 0 <= lastUsedIdx < |room| && room[lastUsedIdx] then lastUsedIdx else FirstWithRoom(room)
  }

  /** A fresh chunk for archetype `a`, as `Initialize(a)` leaves it. */
  ghost function NewChunk(a: EntityArchetype): Chunk {
    EmptyChunk(a.componentTypesMemory.Keys, MaxRows(a.componentTypesMemory))
  }

  /** A row of this archetype fits in one chunk, so a new chunk has room for an entity. */
  ghost predicate Fits(a: EntityArchetype) {
    RowFootprint(a.componentTypesMemory) <= DataSize
  }

  /** The empty archetype fits: a row holds just the entity. */
  lemma EmptyFits()
    ensures Fits(EmptyArchetype())
  {
    assert EmptyArchetype().componentTypesMemory == map[];
  }

  /** An archetype that fits a chunk gets chunks with at least one row. */
  lemma FitsHasRoom(a: EntityArchetype)
    requires Fits(a)
    ensures HasRoomFor(NewChunk(a))
  {
    var f := RowFootprint(a.componentTypesMemory);
    assert 0 < f <= DataSize;
    assert DataSize == (DataSize / f) * f + DataSize % f;
  }

  /** The scan in `GetOrCreateFreeBlockIndex`: the lowest chunk with room, or the count when none has. */
  method FirstFreeBlock(blocks: seq<Chunk>) returns (i: nat)
    ensures i == FirstWithRoom(Rooms(blocks))
  {
    ghost var room := Rooms(blocks);
    i := 0;
    while i < |blocks|
      invariant 0 <= i <= |blocks|
      invariant forall j :: 0 <= j < i ==> !room[j]
    {
      if HasRoomFor(blocks[i]) {
        return;
      }
      i := i + 1;
    }
  }

  /**
   * The group as `GetOrCreateFreeBlockIndex` leaves it: the chosen chunk recorded as
   * the one used last, a new chunk appended when none had room.
   */
  ghost function WithFreeBlock(grp: EntityArchetypeBlock): EntityArchetypeBlock {
    var b := ChosenBlock(Rooms(grp.archetypeBlocks), grp.lastUsedIdx);
    grp.(archetypeBlocks := if b < |grp.archetypeBlocks| then grp.archetypeBlocks
                            else grp.archetypeBlocks + [NewChunk(grp.archetype)],
         lastUsedIdx := b)
  }

  /** When the chunk used last has no room, the scan's answer decides the new group. */
  lemma WithFreeBlockScan(grp: EntityArchetypeBlock)
    requires !(0 <= grp.lastUsedIdx < |grp.archetypeBlocks| && HasRoomFor(grp.archetypeBlocks[grp.lastUsedIdx]))
    ensures var i := FirstWithRoom(Rooms(grp.archetypeBlocks));
      WithFreeBlock(grp) == if i < |grp.archetypeBlocks| then grp.(lastUsedIdx := i)
                            else grp.(archetypeBlocks := grp.archetypeBlocks + [NewChunk(grp.archetype)], lastUsedIdx := i)
  {
  }

  lemma FreeBlockGrown(groups: seq<EntityArchetypeBlock>, g: nat)
    requires g < |groups|
    ensures Grown(groups, groups[g := WithFreeBlock(groups[g])])
  {
  }

  /** Two writes to the same position leave only the second. */
  lemma UpdateTwice(groups: seq<EntityArchetypeBlock>, g: nat, first: EntityArchetypeBlock, second: EntityArchetypeBlock)
    requires g < |groups|
    ensures groups[g := first][g := second] == groups[g := second]
  {
  }

  /** Handing out a free chunk of group `g` keeps the invariant and only grows the groups. */
  lemma FreeBlockConsistent(groups: seq<EntityArchetypeBlock>, em: seq<ArchetypeBlockIndex>,
                            table: map<TypeHash, nat>, hasher: PtrHasher, g: nat)
    requires Consistent(groups, em, table, hasher) && g < |groups|
    ensures var groups' := groups[g := WithFreeBlock(groups[g])];
      && Consistent(groups', em, table, hasher) && Grown(groups, groups')
      && WithFreeBlock(groups[g]).lastUsedIdx < |WithFreeBlock(groups[g]).archetypeBlocks|
      && HasRoomFor(WithFreeBlock(groups[g]).archetypeBlocks[WithFreeBlock(groups[g]).lastUsedIdx])
  {
    var grp := groups[g];
    var b := WithFreeBlock(grp).lastUsedIdx;
    if 0 <= grp.lastUsedIdx < |grp.archetypeBlocks| && HasRoomFor(grp.archetypeBlocks[grp.lastUsedIdx]) {
      assert WithFreeBlock(grp) == grp;
      assert groups[g := grp] == groups;
    } else {
      WithFreeBlockScan(grp);
      if b < |grp.archetypeBlocks| {
        SetLastUsedConsistent(groups, em, table, hasher, g, b);
      } else {
        var added := grp.(archetypeBlocks := grp.archetypeBlocks + [NewChunk(grp.archetype)]);
        var grown := groups[g := added];
        AddChunkConsistent(groups, em, table, hasher, g);
        SetLastUsedConsistent(grown, em, table, hasher, g, b);
        UpdateTwice(groups, g, added, added.(lastUsedIdx := b));
        GrownTrans(groups, grown, groups[g := WithFreeBlock(grp)]);
        FitsHasRoom(grp.archetype);
      }
    }
  }

  // ---------------------------------------------------------------------------
  // The representation invariant, over the manager's three fields as values.

  /** Every chunk of every group, as the Locations module indexes them. */
  ghost function LayoutOf(groups: seq<EntityArchetypeBlock>): (cs: Layout)
    ensures |cs| == |groups| && forall g :: 0 <= g < |groups| ==> cs[g] == groups[g].archetypeBlocks
  {
    seq(|groups|, g requires 0 <= g < |groups| => groups[g].archetypeBlocks)
  }

  /**
   * The groups' archetypes carry their true hashes and fit a chunk, `lastUsedIdx` is -1
   * or a chunk index, and the table maps each group's hash to the group and nothing else.
   */
  ghost predicate Indexed(groups: seq<EntityArchetypeBlock>, table: map<TypeHash, nat>, hasher: PtrHasher) {
    && (forall a :: a in Archetypes(groups) ==> a.Valid(hasher))
    && (forall g :: 0 <= g < |groups| ==>
          && Fits(groups[g].archetype)
          && -1 <= groups[g].lastUsedIdx < |groups[g].archetypeBlocks|
          && groups[g].archetype.archetypeHash in table
          && table[groups[g].archetype.archetypeHash] == g)
    && (forall h :: h in table ==> table[h] < |groups| && groups[table[h]].archetype.archetypeHash == h)
  }

  /** The groups' archetypes, in group order. */
  ghost function Archetypes(groups: seq<EntityArchetypeBlock>): (r: seq<EntityArchetype>)
    ensures |r| == |groups| && forall g :: 0 <= g < |groups| ==> r[g] == groups[g].archetype
  {
    seq(|groups|, g requires 0 <= g < |groups| => groups[g].archetype)
  }

  /** Every chunk was initialised for its group's archetype: its columns and its row count. */
  ghost predicate Initialised(groups: seq<EntityArchetypeBlock>) {
    forall g, b :: 0 <= g < |groups| && 0 <= b < |groups[g].archetypeBlocks| ==>
      && groups[g].archetypeBlocks[b].keys == groups[g].archetype.componentTypesMemory.Keys
      && |groups[g].archetypeBlocks[b].rows| == MaxRows(groups[g].archetype.componentTypesMemory)
  }

  /** The whole invariant: the table, the chunks and the location index agree. */
  ghost predicate Consistent(groups: seq<EntityArchetypeBlock>, em: seq<ArchetypeBlockIndex>,
                             table: map<TypeHash, nat>, hasher: PtrHasher) {
    && Indexed(groups, table, hasher)
    && Initialised(groups)
    && LayoutOk(LayoutOf(groups), em)
  }

  /** The chunks are well shaped with zero tails, and the location index matches them. */
  ghost predicate LayoutOk(cs: Layout, em: seq<ArchetypeBlockIndex>) {
    Shaped(cs) && Zeroed(cs) && Located(cs, em)
  }

  // ---------------------------------------------------------------------------
  // What one entity sees: its archetype and its cells.

  /** The archetype of the group an entry names; the empty one when it names none. */
  function GroupArchetype(groups: seq<EntityArchetypeBlock>, loc: ArchetypeBlockIndex): EntityArchetype {
    if loc.archetypeIndex < |groups| then groups[loc.archetypeIndex].archetype else EmptyArchetype()
  }

  /** The cells of the row an entry names; none when it names no row. */
  ghost function CellsAt(cs: Layout, loc: ArchetypeBlockIndex): map<TypeId, int> {
    if loc.archetypeIndex < |cs| && loc.blockIndex < |cs[loc.archetypeIndex]|
       && loc.elementIndex < |cs[loc.archetypeIndex][loc.blockIndex].rows|
    then cs[loc.archetypeIndex][loc.blockIndex].rows[loc.elementIndex]
    else map[]
  }

  /**
   * Every entity other than `id` keeps its validity, its archetype and its cells, and
   * the entries the map gained are invalid.
   */
  ghost predicate OthersKept(groups: seq<EntityArchetypeBlock>, em: seq<ArchetypeBlockIndex>,
                             groups': seq<EntityArchetypeBlock>, em': seq<ArchetypeBlockIndex>, id: int) {
    && |em| <= |em'|
    && (forall x :: |em| <= x < |em'| && x != id ==> !em'[x].valid)
    && forall x :: 0 <= x < |em| && x != id ==>
         && em'[x].valid == em[x].valid
         && (em[x].valid ==>
               && GroupArchetype(groups', em'[x]) == GroupArchetype(groups, em[x])
               && CellsAt(LayoutOf(groups'), em'[x]) == CellsAt(LayoutOf(groups), em[x]))
  }

  /**
   * Entity `id` is valid after an attach, detach or move, holding its old cells
   * restricted or zero-extended to its new archetype's columns; nobody else changes.
   */
  ghost predicate Migrated(groups: seq<EntityArchetypeBlock>, em: seq<ArchetypeBlockIndex>,
                           groups': seq<EntityArchetypeBlock>, em': seq<ArchetypeBlockIndex>, id: EntityId) {
    && |em'| == |em|
    && IsValid(em', id)
    && CellsAt(LayoutOf(groups'), em'[id])
       == MigrateRow(CellsAt(LayoutOf(groups), em[id]), GroupArchetype(groups', em'[id]).componentTypesMemory.Keys)
    && OthersKept(groups, em, groups', em', id)
  }

  /** A migration whose destination is group `g2`, with no group created. */
  ghost predicate Transferred(groups: seq<EntityArchetypeBlock>, em: seq<ArchetypeBlockIndex>,
                              groups': seq<EntityArchetypeBlock>, em': seq<ArchetypeBlockIndex>, id: EntityId, g2: nat) {
    && Regrouped(groups, groups')
    && Migrated(groups, em, groups', em', id)
    && em'[id].archetypeIndex == g2
  }

  /** Groups are only appended and chunks only appended to groups; archetypes never change. */
  ghost predicate Grown(groups: seq<EntityArchetypeBlock>, groups': seq<EntityArchetypeBlock>) {
    && |groups| <= |groups'|
    && forall g :: 0 <= g < |groups| ==>
         groups'[g].archetype == groups[g].archetype && groups[g].archetypeBlocks <= groups'[g].archetypeBlocks
  }

  /** The same groups with the same chunk counts; only the chunks' contents may differ. */
  ghost predicate Regrouped(groups: seq<EntityArchetypeBlock>, groups': seq<EntityArchetypeBlock>) {
    && |groups'| == |groups|
    && forall g :: 0 <= g < |groups| ==>
         && groups'[g].archetype == groups[g].archetype
         && groups'[g].lastUsedIdx == groups[g].lastUsedIdx
         && |groups'[g].archetypeBlocks| == |groups[g].archetypeBlocks|
  }

  /** Every chunk keeps its columns and its row count. */
  ghost predicate SameFrames(cs: Layout, cs': Layout) {
    && |cs'| == |cs|
    && (forall g :: 0 <= g < |cs| ==> |cs'[g]| == |cs[g]|)
    && forall g, b :: 0 <= g < |cs| && 0 <= b < |cs[g]| ==>
         cs'[g][b].keys == cs[g][b].keys && |cs'[g][b].rows| == |cs[g][b].rows|
  }

  /** Every group whose hash is `a`'s holds exactly `a`: hash lookups find `a` itself. */
  ghost predicate IdentifiedIn(groups: seq<EntityArchetypeBlock>, a: EntityArchetype) {
    forall g :: 0 <= g < |groups| && groups[g].archetype.archetypeHash == a.archetypeHash ==> groups[g].archetype == a
  }

  // ---------------------------------------------------------------------------
  // The invariant under each kind of change.

  /** Chunk `b` of group `g` replaced by `c`; the groups' archetypes and counters stay. */
  function WithChunk(groups: seq<EntityArchetypeBlock>, g: nat, b: nat, c: Chunk): (r: seq<EntityArchetypeBlock>)
    requires g < |groups| && b < |groups[g].archetypeBlocks|
    ensures Regrouped(groups, r)
    ensures LayoutOf(r) == SetChunk(LayoutOf(groups), g, b, c)
  {
    var r := groups[g := groups[g].(archetypeBlocks := groups[g].archetypeBlocks[b := c])];
    assert LayoutOf(r) == LayoutOf(groups)[g := LayoutOf(groups)[g][b := c]];
    r
  }

  lemma LayoutOfSet(groups: seq<EntityArchetypeBlock>, g: nat, grp: EntityArchetypeBlock)
    requires g < |groups|
    ensures LayoutOf(groups[g := grp]) == LayoutOf(groups)[g := grp.archetypeBlocks]
  {
  }

  /** `CreateNewArchetypeBlock`: a new group without chunks, its hash mapped to it. */
  lemma AppendGroupConsistent(groups: seq<EntityArchetypeBlock>, em: seq<ArchetypeBlockIndex>,
                              table: map<TypeHash, nat>, hasher: PtrHasher, a: EntityArchetype)
    requires Consistent(groups, em, table, hasher)
    requires a.Valid(hasher) && Fits(a) && a.archetypeHash !in table
    ensures var groups' := groups + [EntityArchetypeBlock(a, [], -1)];
      && Consistent(groups', em, table[a.archetypeHash := |groups|], hasher)
      && Grown(groups, groups')
  {
    AppendGroupIndexed(groups, table, hasher, a);
    AppendGroupInitialised(groups, a);
    AppendGroupLayout(groups, em, a);
  }

  lemma AppendGroupIndexed(groups: seq<EntityArchetypeBlock>, table: map<TypeHash, nat>, hasher: PtrHasher, a: EntityArchetype)
    requires Indexed(groups, table, hasher)
    requires a.Valid(hasher) && Fits(a) && a.archetypeHash !in table
    ensures Indexed(groups + [EntityArchetypeBlock(a, [], -1)], table[a.archetypeHash := |groups|], hasher)
  {
    var groups' := groups + [EntityArchetypeBlock(a, [], -1)];
    var table' := table[a.archetypeHash := |groups|];
    forall g | 0 <= g < |groups'|
      ensures groups'[g].archetype.Valid(hasher) && Fits(groups'[g].archetype)
      ensures -1 <= groups'[g].lastUsedIdx < |groups'[g].archetypeBlocks|
      ensures groups'[g].archetype.archetypeHash in table' && table'[groups'[g].archetype.archetypeHash] == g
    {
      if g < |groups| {
        assert groups'[g] == groups[g];
      }
    }
    forall h | h in table'
      ensures table'[h] < |groups'| && groups'[table'[h]].archetype.archetypeHash == h
    {
      if h != a.archetypeHash {
        assert groups'[table[h]] == groups[table[h]];
      }
    }
  }

  lemma AppendGroupInitialised(groups: seq<EntityArchetypeBlock>, a: EntityArchetype)
    requires Initialised(groups)
    ensures var groups' := groups + [EntityArchetypeBlock(a, [], -1)];
      Initialised(groups') && Grown(groups, groups')
  {
    var groups' := groups + [EntityArchetypeBlock(a, [], -1)];
    assert forall g :: 0 <= g < |groups| ==> groups'[g] == groups[g];
  }

  lemma AppendGroupLayout(groups: seq<EntityArchetypeBlock>, em: seq<ArchetypeBlockIndex>, a: EntityArchetype)
    requires LayoutOk(LayoutOf(groups), em)
    ensures LayoutOk(LayoutOf(groups + [EntityArchetypeBlock(a, [], -1)]), em)
  {
    assert LayoutOf(groups + [EntityArchetypeBlock(a, [], -1)]) == LayoutOf(groups) + [[]];
    AddGroupLocated(LayoutOf(groups), em);
  }

  /** `CreateNewBlockIndex`: group `g` gets a fresh chunk at the end. */
  lemma AddChunkConsistent(groups: seq<EntityArchetypeBlock>, em: seq<ArchetypeBlockIndex>,
                           table: map<TypeHash, nat>, hasher: PtrHasher, g: nat)
    requires Consistent(groups, em, table, hasher) && g < |groups|
    ensures var grp := groups[g];
      var groups' := groups[g := grp.(archetypeBlocks := grp.archetypeBlocks + [NewChunk(grp.archetype)])];
      Consistent(groups', em, table, hasher) && Grown(groups, groups')
  {
    AddChunkIndexed(groups, table, hasher, g);
    AddChunkInitialised(groups, g);
    AddChunkLayout(groups, em, g);
  }

  lemma AddChunkIndexed(groups: seq<EntityArchetypeBlock>, table: map<TypeHash, nat>, hasher: PtrHasher, g: nat)
    requires Indexed(groups, table, hasher) && g < |groups|
    ensures var grp := groups[g];
      Indexed(groups[g := grp.(archetypeBlocks := grp.archetypeBlocks + [NewChunk(grp.archetype)])], table, hasher)
  {
  }

  lemma AddChunkInitialised(groups: seq<EntityArchetypeBlock>, g: nat)
    requires Initialised(groups) && g < |groups|
    ensures var grp := groups[g];
      var groups' := groups[g := grp.(archetypeBlocks := grp.archetypeBlocks + [NewChunk(grp.archetype)])];
      Initialised(groups') && Grown(groups, groups')
  {
  }

  lemma AddChunkLayout(groups: seq<EntityArchetypeBlock>, em: seq<ArchetypeBlockIndex>, g: nat)
    requires LayoutOk(LayoutOf(groups), em) && g < |groups|
    ensures var grp := groups[g];
      LayoutOk(LayoutOf(groups[g := grp.(archetypeBlocks := grp.archetypeBlocks + [NewChunk(grp.archetype)])]), em)
  {
    var grp := groups[g];
    var grp' := grp.(archetypeBlocks := grp.archetypeBlocks + [NewChunk(grp.archetype)]);
    var cs := LayoutOf(groups);
    LayoutOfSet(groups, g, grp');
    assert LayoutOf(groups[g := grp']) == cs[g := cs[g] + [NewChunk(grp.archetype)]];
    AddChunkLocated(cs, em, g, NewChunk(grp.archetype));
  }

  /** Recording the chunk handed out last changes no chunk. */
  lemma SetLastUsedConsistent(groups: seq<EntityArchetypeBlock>, em: seq<ArchetypeBlockIndex>,
                              table: map<TypeHash, nat>, hasher: PtrHasher, g: nat, i: nat)
    requires Consistent(groups, em, table, hasher) && g < |groups| && i < |groups[g].archetypeBlocks|
    ensures var groups' := groups[g := groups[g].(lastUsedIdx := i)];
      Consistent(groups', em, table, hasher) && Grown(groups, groups')
  {
    SetLastUsedIndexed(groups, table, hasher, g, i);
    SetLastUsedLayout(groups, em, g, i);
  }

  lemma SetLastUsedLayout(groups: seq<EntityArchetypeBlock>, em: seq<ArchetypeBlockIndex>, g: nat, i: int)
    requires Initialised(groups) && LayoutOk(LayoutOf(groups), em) && g < |groups|
    ensures var groups' := groups[g := groups[g].(lastUsedIdx := i)];
      Initialised(groups') && LayoutOk(LayoutOf(groups'), em) && Grown(groups, groups')
  {
    LayoutOfSet(groups, g, groups[g].(lastUsedIdx := i));
    assert LayoutOf(groups[g := groups[g].(lastUsedIdx := i)]) == LayoutOf(groups);
  }

  lemma SetLastUsedIndexed(groups: seq<EntityArchetypeBlock>, table: map<TypeHash, nat>, hasher: PtrHasher, g: nat, i: nat)
    requires Indexed(groups, table, hasher) && g < |groups| && i < |groups[g].archetypeBlocks|
    ensures Indexed(groups[g := groups[g].(lastUsedIdx := i)], table, hasher)
  {
    var groups' := groups[g := groups[g].(lastUsedIdx := i)];
    assert forall h :: 0 <= h < |groups| ==> groups'[h].archetype == groups[h].archetype;
  }

  /** Growth keeps every entity where it was, with the same archetype and cells. */
  lemma GrownKeeps(groups: seq<EntityArchetypeBlock>, groups': seq<EntityArchetypeBlock>,
                   em: seq<ArchetypeBlockIndex>, id: int)
    requires Located(LayoutOf(groups), em) && Grown(groups, groups')
    ensures Extends(LayoutOf(groups), LayoutOf(groups'))
    ensures OthersKept(groups, em, groups', em, id)
  {
    var cs, cs' := LayoutOf(groups), LayoutOf(groups');
    forall x | 0 <= x < |em| && em[x].valid
      ensures GroupArchetype(groups', em[x]) == GroupArchetype(groups, em[x])
      ensures CellsAt(cs', em[x]) == CellsAt(cs, em[x])
    {
      assert Holds(cs, em[x], x);
      var g, b := em[x].archetypeIndex, em[x].blockIndex;
      assert groups'[g].archetypeBlocks[b] == groups[g].archetypeBlocks[b];
    }
  }

  /** Across a change that keeps the others, only `id` can change validity. */
  lemma OthersKeptValidity(groups: seq<EntityArchetypeBlock>, em: seq<ArchetypeBlockIndex>,
                           groups': seq<EntityArchetypeBlock>, em': seq<ArchetypeBlockIndex>, id: int)
    requires OthersKept(groups, em, groups', em', id)
    ensures forall x: EntityId :: x != id ==> (IsValid(em', x) <==> IsValid(em, x))
  {
    forall x: EntityId | x != id
      ensures IsValid(em', x) <==> IsValid(em, x)
    {
      if x < |em| {
        assert em'[x].valid == em[x].valid;
      } else if x < |em'| {
        assert !em'[x].valid;
      }
    }
  }

  lemma OthersKeptTrans(g0: seq<EntityArchetypeBlock>, e0: seq<ArchetypeBlockIndex>,
                        g1: seq<EntityArchetypeBlock>, e1: seq<ArchetypeBlockIndex>,
                        g2: seq<EntityArchetypeBlock>, e2: seq<ArchetypeBlockIndex>, id: int)
    requires OthersKept(g0, e0, g1, e1, id) && OthersKept(g1, e1, g2, e2, id)
    ensures OthersKept(g0, e0, g2, e2, id)
  {
  }

  lemma GrownTrans(g0: seq<EntityArchetypeBlock>, g1: seq<EntityArchetypeBlock>, g2: seq<EntityArchetypeBlock>)
    requires Grown(g0, g1) && Grown(g1, g2)
    ensures Grown(g0, g2)
  {
    forall g | 0 <= g < |g0|
      ensures g0[g].archetypeBlocks <= g2[g].archetypeBlocks
    {
      assert g1[g].archetypeBlocks <= g2[g].archetypeBlocks;
    }
  }

  /** `_entityMap.resize(id + 1)`: invalid entries appended, nobody changes. */
  lemma GrowConsistent(groups: seq<EntityArchetypeBlock>, em: seq<ArchetypeBlockIndex>,
                       table: map<TypeHash, nat>, hasher: PtrHasher, n: nat, id: int)
    requires Consistent(groups, em, table, hasher) && |em| + n <= IdSpace
    ensures var em' := em + seq(n, _ => InvalidIndex);
      Consistent(groups, em', table, hasher) && OthersKept(groups, em, groups, em', id)
  {
    GrowLocated(LayoutOf(groups), em, n);
  }

  /** A valid entity's cells are its row, whose columns are its archetype's component types. */
  lemma RowKeys(groups: seq<EntityArchetypeBlock>, em: seq<ArchetypeBlockIndex>, x: EntityId)
    requires Initialised(groups) && LayoutOk(LayoutOf(groups), em) && IsValid(em, x)
    ensures Holds(LayoutOf(groups), em[x], x)
    ensures em[x].archetypeIndex < |groups|
    ensures CellsAt(LayoutOf(groups), em[x]) == RowAt(LayoutOf(groups), em[x])
    ensures CellsAt(LayoutOf(groups), em[x]).Keys == GroupArchetype(groups, em[x]).componentTypesMemory.Keys
  {
    var cs := LayoutOf(groups);
    assert Holds(cs, em[x], x);
    var g, b := em[x].archetypeIndex, em[x].blockIndex;
    assert ChunkOk(cs[g][b]);
  }

  /** Chunks that keep their columns and row counts stay initialised; the table stays right. */
  /** A valid entity's group exists, carries its true hash, and names the entity's columns. */
  lemma GroupOf(groups: seq<EntityArchetypeBlock>, em: seq<ArchetypeBlockIndex>,
                table: map<TypeHash, nat>, hasher: PtrHasher, x: EntityId)
    requires Consistent(groups, em, table, hasher) && IsValid(em, x)
    ensures em[x].archetypeIndex < |groups| && GroupArchetype(groups, em[x]) == groups[em[x].archetypeIndex].archetype
    ensures groups[em[x].archetypeIndex].archetype.Valid(hasher)
    ensures CellsAt(LayoutOf(groups), em[x]).Keys == GroupArchetype(groups, em[x]).componentTypesMemory.Keys
  {
    RowKeys(groups, em, x);
    assert groups[em[x].archetypeIndex].archetype in Archetypes(groups);
  }

  lemma RegroupedKeeps(groups: seq<EntityArchetypeBlock>, groups': seq<EntityArchetypeBlock>,
                       table: map<TypeHash, nat>, hasher: PtrHasher)
    requires Indexed(groups, table, hasher) && Initialised(groups) && Regrouped(groups, groups')
    requires SameFrames(LayoutOf(groups), LayoutOf(groups'))
    ensures Indexed(groups', table, hasher) && Initialised(groups')
  {
    var cs, cs' := LayoutOf(groups), LayoutOf(groups');
    forall g, b | 0 <= g < |groups'| && 0 <= b < |groups'[g].archetypeBlocks|
      ensures groups'[g].archetypeBlocks[b].keys == groups'[g].archetype.componentTypesMemory.Keys
      ensures |groups'[g].archetypeBlocks[b].rows| == MaxRows(groups'[g].archetype.componentTypesMemory)
    {
      assert cs'[g][b] == groups'[g].archetypeBlocks[b] && cs[g][b] == groups[g].archetypeBlocks[b];
    }
  }

  /** Every other valid entity keeps its archetype and its cells, given that it keeps its row. */
  lemma RowsKept(groups: seq<EntityArchetypeBlock>, em: seq<ArchetypeBlockIndex>,
                 groups': seq<EntityArchetypeBlock>, em': seq<ArchetypeBlockIndex>, id: EntityId)
    requires Initialised(groups) && LayoutOk(LayoutOf(groups), em)
    requires Initialised(groups') && LayoutOk(LayoutOf(groups'), em')
    requires Regrouped(groups, groups') && |em'| == |em|
    requires forall x :: 0 <= x < |em| && x != id ==>
      && em'[x].valid == em[x].valid
      && em'[x].archetypeIndex == em[x].archetypeIndex
    requires forall x :: 0 <= x < |em| && x != id && em[x].valid ==>
      RowAt(LayoutOf(groups'), em'[x]) == RowAt(LayoutOf(groups), em[x])
    ensures OthersKept(groups, em, groups', em', id)
  {
    forall x | 0 <= x < |em| && x != id && em[x].valid
      ensures GroupArchetype(groups', em'[x]) == GroupArchetype(groups, em[x])
      ensures CellsAt(LayoutOf(groups'), em'[x]) == CellsAt(LayoutOf(groups), em[x])
    {
      RowKeys(groups, em, x);
      RowKeys(groups', em', x);
    }
  }

  /** The corrected migration into chunk `(g2, b2)` keeps the invariant and is a transfer to `g2`. */
  lemma RelocateConsistent(groups: seq<EntityArchetypeBlock>, em: seq<ArchetypeBlockIndex>,
                           table: map<TypeHash, nat>, hasher: PtrHasher, id: EntityId, g2: nat, b2: nat,
                           groups': seq<EntityArchetypeBlock>, em': seq<ArchetypeBlockIndex>)
    requires Consistent(groups, em, table, hasher) && IsValid(em, id)
    requires g2 < |groups| && b2 < |groups[g2].archetypeBlocks| && HasRoomFor(groups[g2].archetypeBlocks[b2])
    requires Holds(LayoutOf(groups), em[id], id)
    requires (LayoutOf(groups'), em') == Relocate(LayoutOf(groups), em, id, g2, b2)
    requires Regrouped(groups, groups')
    ensures Consistent(groups', em', table, hasher)
    ensures Transferred(groups, em, groups', em', id, g2)
  {
    var cs := LayoutOf(groups);
    RelocateEffect(cs, em, id, g2, b2);
    RelocateZeroed(cs, em, id, g2, b2);
    RelocateFrames(cs, em, id, g2, b2);
    RegroupedKeeps(groups, groups', table, hasher);
    RowsKept(groups, em, groups', em', id);
    RelocateCells(groups, em, id, g2, b2, groups', em');
  }

  /**
   * The manager's row transfer, step by step: copy the row into `(g2, b2)`, swap-remove
   * the old row, repair the entry of the entity swapped in, point `id` at its new row.
   * When `(g2, b2)` is the entity's own chunk nothing is done (the corrected migration).
   */
  function TransferRow(groups: seq<EntityArchetypeBlock>, em: seq<ArchetypeBlockIndex>, id: EntityId, g2: nat, b2: nat)
    : (result: (seq<EntityArchetypeBlock>, seq<ArchetypeBlockIndex>))
    requires Shaped(LayoutOf(groups)) && IsValid(em, id) && Holds(LayoutOf(groups), em[id], id)
    requires g2 < |groups| && b2 < |groups[g2].archetypeBlocks| && HasRoomFor(groups[g2].archetypeBlocks[b2])
    ensures Regrouped(groups, result.0) && |result.1| == |em|
    ensures IsValid(result.1, id) && result.1[id].archetypeIndex == g2 && result.1[id].blockIndex == b2
  {
    var g, b, r := em[id].archetypeIndex, em[id].blockIndex, em[id].elementIndex;
    if g == g2 && b == b2 then (groups, em)
    else
      var ob, nb := groups[g].archetypeBlocks[b], groups[g2].archetypeBlocks[b2];
      assert ChunkOk(LayoutOf(groups)[g][b]);
      var groups1 := WithChunk(groups, g2, b2, AppendRow(nb, Entity(id), MigrateRow(ob.rows[r], nb.keys)));
      var removed := RemoveRow(ob, r);
      (WithChunk(groups1, g, b, removed), Repair(em, MovedInto(removed, r), r)[id := ArchetypeBlockIndex(true, g2, b2, |nb.live|)])
  }

  /** The manager's row transfer is the corrected migration of the layout model. */
  lemma TransferRowRelocates(groups: seq<EntityArchetypeBlock>, em: seq<ArchetypeBlockIndex>, id: EntityId, g2: nat, b2: nat)
    requires Shaped(LayoutOf(groups)) && IsValid(em, id) && Holds(LayoutOf(groups), em[id], id)
    requires g2 < |groups| && b2 < |groups[g2].archetypeBlocks| && HasRoomFor(groups[g2].archetypeBlocks[b2])
    ensures var (groups', em') := TransferRow(groups, em, id, g2, b2);
      (LayoutOf(groups'), em') == Relocate(LayoutOf(groups), em, id, g2, b2)
  {
    if em[id].archetypeIndex != g2 || em[id].blockIndex != b2 {
      MigrateParts(LayoutOf(groups), em, id, g2, b2);
    }
  }

  /** The row transfer keeps the manager's invariant. */
  lemma TransferKeeps(groups: seq<EntityArchetypeBlock>, em: seq<ArchetypeBlockIndex>,
                      table: map<TypeHash, nat>, hasher: PtrHasher, id: EntityId, g2: nat, b2: nat)
    requires Consistent(groups, em, table, hasher) && IsValid(em, id) && Holds(LayoutOf(groups), em[id], id)
    requires g2 < |groups| && b2 < |groups[g2].archetypeBlocks| && HasRoomFor(groups[g2].archetypeBlocks[b2])
    ensures var (groups', em') := TransferRow(groups, em, id, g2, b2);
      Consistent(groups', em', table, hasher)
  {
    var (groups', em') := TransferRow(groups, em, id, g2, b2);
    TransferRowRelocates(groups, em, id, g2, b2);
    RelocateConsistent(groups, em, table, hasher, id, g2, b2, groups', em');
  }

  /** The row transfer moves `id` to group `g2` with its cells migrated, and nobody else. */
  lemma TransferMoves(groups: seq<EntityArchetypeBlock>, em: seq<ArchetypeBlockIndex>,
                      table: map<TypeHash, nat>, hasher: PtrHasher, id: EntityId, g2: nat, b2: nat)
    requires Consistent(groups, em, table, hasher) && IsValid(em, id) && Holds(LayoutOf(groups), em[id], id)
    requires g2 < |groups| && b2 < |groups[g2].archetypeBlocks| && HasRoomFor(groups[g2].archetypeBlocks[b2])
    ensures var (groups', em') := TransferRow(groups, em, id, g2, b2);
      Transferred(groups, em, groups', em', id, g2)
  {
    var (groups', em') := TransferRow(groups, em, id, g2, b2);
    TransferRowRelocates(groups, em, id, g2, b2);
    RelocateConsistent(groups, em, table, hasher, id, g2, b2, groups', em');
  }

  /** The migrating entity's cells, seen through its archetype. */
  lemma RelocateCells(groups: seq<EntityArchetypeBlock>, em: seq<ArchetypeBlockIndex>, id: EntityId, g2: nat, b2: nat,
                      groups': seq<EntityArchetypeBlock>, em': seq<ArchetypeBlockIndex>)
    requires Initialised(groups) && LayoutOk(LayoutOf(groups), em) && IsValid(em, id)
    requires Initialised(groups') && LayoutOk(LayoutOf(groups'), em') && Regrouped(groups, groups')
    requires g2 < |groups| && b2 < |groups[g2].archetypeBlocks| && HasRoomFor(groups[g2].archetypeBlocks[b2])
    requires |em'| == |em| && IsValid(em', id) && em'[id].archetypeIndex == g2
    requires RowAt(LayoutOf(groups'), em'[id]) == MigrateRow(RowAt(LayoutOf(groups), em[id]), LayoutOf(groups)[g2][b2].keys)
    ensures CellsAt(LayoutOf(groups'), em'[id])
       == MigrateRow(CellsAt(LayoutOf(groups), em[id]), GroupArchetype(groups', em'[id]).componentTypesMemory.Keys)
  {
    RowKeys(groups, em, id);
    RowKeys(groups', em', id);
  }

  /** The corrected migration keeps every chunk's columns and row count. */
  lemma RelocateFrames(cs: Layout, em: seq<ArchetypeBlockIndex>, id: EntityId, g2: nat, b2: nat)
    requires Shaped(cs) && Located(cs, em) && IsValid(em, id)
    requires g2 < |cs| && b2 < |cs[g2]| && |cs[g2][b2].live| < |cs[g2][b2].rows|
    ensures SameFrames(cs, Relocate(cs, em, id, g2, b2).0)
  {
    assert Holds(cs, em[id], id);
    if em[id].archetypeIndex != g2 || em[id].blockIndex != b2 {
      MigrateParts(cs, em, id, g2, b2);
    }
  }

  /** `RemoveEntity` keeps the invariant; nobody else changes. */
  lemma RemoveAtConsistent(groups: seq<EntityArchetypeBlock>, em: seq<ArchetypeBlockIndex>,
                           table: map<TypeHash, nat>, hasher: PtrHasher, id: EntityId,
                           groups': seq<EntityArchetypeBlock>, em': seq<ArchetypeBlockIndex>)
    requires Consistent(groups, em, table, hasher) && IsValid(em, id)
    requires Holds(LayoutOf(groups), em[id], id)
    requires (LayoutOf(groups'), em') == RemoveAt(LayoutOf(groups), em, id)
    requires Regrouped(groups, groups')
    ensures Consistent(groups', em', table, hasher)
    ensures |em'| == |em| && !IsValid(em', id)
    ensures OthersKept(groups, em, groups', em', id)
  {
    var cs := LayoutOf(groups);
    RemoveAtLocated(cs, em, id);
    RemoveAtZeroed(cs, em, id);
    assert SameFrames(cs, LayoutOf(groups'));
    RegroupedKeeps(groups, groups', table, hasher);
    RowsKept(groups, em, groups', em', id);
  }

  /** `AddEntity` into chunk `(g, b)` keeps the invariant; the new row is all zeros. */
  lemma AddAtConsistent(groups: seq<EntityArchetypeBlock>, em: seq<ArchetypeBlockIndex>,
                        table: map<TypeHash, nat>, hasher: PtrHasher, id: EntityId, g: nat, b: nat,
                        groups': seq<EntityArchetypeBlock>, em': seq<ArchetypeBlockIndex>)
    requires Consistent(groups, em, table, hasher)
    requires id != ENTITY_NULL_ID && !IsValid(em, id) && id < |em|
    requires g < |groups| && b < |groups[g].archetypeBlocks| && HasRoomFor(groups[g].archetypeBlocks[b])
    requires (LayoutOf(groups'), em') == AddAt(LayoutOf(groups), em, id, g, b)
    requires Regrouped(groups, groups')
    ensures Consistent(groups', em', table, hasher)
    ensures |em'| == |em| && IsValid(em', id) && em'[id].archetypeIndex == g
    ensures CellsAt(LayoutOf(groups'), em'[id]) == ZeroRow(groups[g].archetype.componentTypesMemory.Keys)
    ensures OthersKept(groups, em, groups', em', id)
  {
    var cs := LayoutOf(groups);
    AddAtLocated(cs, em, id, g, b);
    AddAtZeroed(cs, em, id, g, b);
    assert SameFrames(cs, LayoutOf(groups'));
    RegroupedKeeps(groups, groups', table, hasher);
    RowsKept(groups, em, groups', em', id);
    RowKeys(groups', em', id);
  }

  /** Growing the groups and then migrating is a migration from the start. */
  lemma ComposeMigration(g0: seq<EntityArchetypeBlock>, em: seq<ArchetypeBlockIndex>,
                         table: map<TypeHash, nat>, hasher: PtrHasher,
                         g1: seq<EntityArchetypeBlock>, g2: seq<EntityArchetypeBlock>, em2: seq<ArchetypeBlockIndex>,
                         id: EntityId)
    requires Consistent(g0, em, table, hasher) && IsValid(em, id) && Grown(g0, g1)
    requires Migrated(g1, em, g2, em2, id)
    ensures Migrated(g0, em, g2, em2, id)
  {
    GrownKeeps(g0, g1, em, id);
    RowKeys(g0, em, id);
    var g, b := em[id].archetypeIndex, em[id].blockIndex;
    assert g1[g].archetypeBlocks[b] == g0[g].archetypeBlocks[b];
    OthersKeptTrans(g0, em, g1, em, g2, em2, id);
  }

  /**
   * Choosing a free chunk (which only grows the groups) and then transferring the row
   * there is a migration of the entity from the groups before the choice.
   */
  lemma FreeThenTransfer(g0: seq<EntityArchetypeBlock>, g1: seq<EntityArchetypeBlock>, em: seq<ArchetypeBlockIndex>,
                         table: map<TypeHash, nat>, hasher: PtrHasher, id: EntityId, gi: nat, b: nat)
    requires Consistent(g0, em, table, hasher) && Consistent(g1, em, table, hasher)
    requires IsValid(em, id) && Grown(g0, g1) && Holds(LayoutOf(g1), em[id], id)
    requires gi < |g1| && b < |g1[gi].archetypeBlocks| && HasRoomFor(g1[gi].archetypeBlocks[b])
    ensures var (g2, em2) := TransferRow(g1, em, id, gi, b);
      Migrated(g0, em, g2, em2, id)
  {
    var (g2, em2) := TransferRow(g1, em, id, gi, b);
    TransferMoves(g1, em, table, hasher, id, gi, b);
    ComposeMigration(g0, em, table, hasher, g1, g2, em2, id);
  }

  // ---------------------------------------------------------------------------
  // Adding and removing entities, and writing a cell, on the groups.

  /**
   * The entries `_entityMap.resize(id + 1)` leaves: `em` itself when it already holds
   * `id`, otherwise `em` followed by `Invalid()` entries up to `id`.
   */
  function Reserved(em: seq<ArchetypeBlockIndex>, id: EntityId): (em': seq<ArchetypeBlockIndex>)
    ensures id < |em'| && |em'| == (if |em| <= id then id + 1 else |em|)
    ensures em'[..|em|] == em && forall x :: |em| <= x < |em'| ==> em'[x] == InvalidIndex
  {
    if |em| <= id then em + seq(id + 1 - |em|, _ => InvalidIndex) else em
  }

  /**
   * `AddEntity` into chunk `(g, b)`: `id` takes the chunk's first free row and its
   * entry names that row.
   */
  function PlaceRow(groups: seq<EntityArchetypeBlock>, em: seq<ArchetypeBlockIndex>, id: EntityId, g: nat, b: nat)
    : (result: (seq<EntityArchetypeBlock>, seq<ArchetypeBlockIndex>))
    requires g < |groups| && b < |groups[g].archetypeBlocks| && id < |em|
    ensures Regrouped(groups, result.0)
    ensures (LayoutOf(result.0), result.1) == AddAt(LayoutOf(groups), em, id, g, b)
  {
    var c := groups[g].archetypeBlocks[b];
    (WithChunk(groups, g, b, AddRow(c, Entity(id))), em[id := ArchetypeBlockIndex(true, g, b, |c.live|)])
  }

  /**
   * Entity `id` was not valid and now is, in a row of zeros over its group's columns;
   * the map was resized to hold `id`; every other entity is unchanged.
   */
  ghost predicate Placed(groups: seq<EntityArchetypeBlock>, em: seq<ArchetypeBlockIndex>,
                         groups': seq<EntityArchetypeBlock>, em': seq<ArchetypeBlockIndex>, id: EntityId) {
    && !IsValid(em, id)
    && |em'| == |Reserved(em, id)|
    && IsValid(em', id)
    && CellsAt(LayoutOf(groups'), em'[id]) == ZeroRow(GroupArchetype(groups', em'[id]).componentTypesMemory.Keys)
    && OthersKept(groups, em, groups', em', id)
  }

  /**
   * `AddEntity` from start to end: resizing the map, choosing a free chunk `(g, b)`
   * (which only grows the groups) and placing the row there keeps the invariant and
   * places `id` in group `g`.
   */
  lemma ReserveThenPlace(g0: seq<EntityArchetypeBlock>, em0: seq<ArchetypeBlockIndex>, table0: map<TypeHash, nat>,
                         hasher: PtrHasher, g1: seq<EntityArchetypeBlock>, table1: map<TypeHash, nat>,
                         id: EntityId, g: nat, b: nat)
    requires Consistent(g0, em0, table0, hasher) && id != ENTITY_NULL_ID && !IsValid(em0, id)
    requires Consistent(g1, Reserved(em0, id), table1, hasher) && Grown(g0, g1)
    requires g < |g1| && b < |g1[g].archetypeBlocks| && HasRoomFor(g1[g].archetypeBlocks[b])
    ensures var (g2, em2) := PlaceRow(g1, Reserved(em0, id), id, g, b);
      && Consistent(g2, em2, table1, hasher) && Placed(g0, em0, g2, em2, id)
      && em2[id].archetypeIndex == g && GroupArchetype(g2, em2[id]) == g1[g].archetype
  {
    var em1 := Reserved(em0, id);
    var (g2, em2) := PlaceRow(g1, em1, id, g, b);
    var n := |em1| - |em0|;
    assert em1 == em0 + seq(n, _ => InvalidIndex);
    GrowConsistent(g0, em0, table0, hasher, n, id);
    GrownKeeps(g0, g1, em1, id);
    OthersKeptTrans(g0, em0, g0, em1, g1, em1, id);
    AddAtConsistent(g1, em1, table1, hasher, id, g, b, g2, em2);
    OthersKeptTrans(g0, em0, g1, em1, g2, em2, id);
  }

  /**
   * `RemoveEntity` on the groups: the entity's row swap-removed, the entry of the
   * entity swapped into it repaired, the entity's own entry `Invalid()`.
   */
  function UnplaceRow(groups: seq<EntityArchetypeBlock>, em: seq<ArchetypeBlockIndex>, id: EntityId)
    : (result: (seq<EntityArchetypeBlock>, seq<ArchetypeBlockIndex>))
    requires Shaped(LayoutOf(groups)) && IsValid(em, id) && Holds(LayoutOf(groups), em[id], id)
    ensures Regrouped(groups, result.0)
    ensures (LayoutOf(result.0), result.1) == RemoveAt(LayoutOf(groups), em, id)
  {
    var g, b, r := em[id].archetypeIndex, em[id].blockIndex, em[id].elementIndex;
    assert ChunkOk(LayoutOf(groups)[g][b]);
    var removed := RemoveRow(groups[g].archetypeBlocks[b], r);
    (WithChunk(groups, g, b, removed), Repair(em, MovedInto(removed, r), r)[id := InvalidIndex])
  }

  /** Entity `id` was valid and its entry is now `Invalid()`; every other entity is unchanged. */
  ghost predicate Unplaced(groups: seq<EntityArchetypeBlock>, em: seq<ArchetypeBlockIndex>,
                           groups': seq<EntityArchetypeBlock>, em': seq<ArchetypeBlockIndex>, id: EntityId) {
    && IsValid(em, id)
    && |em'| == |em| && em'[id] == InvalidIndex
    && OthersKept(groups, em, groups', em', id)
  }

  /** Removing a valid entity keeps the invariant and removes only that entity. */
  lemma UnplaceKeeps(groups: seq<EntityArchetypeBlock>, em: seq<ArchetypeBlockIndex>,
                     table: map<TypeHash, nat>, hasher: PtrHasher, id: EntityId)
    requires Consistent(groups, em, table, hasher) && IsValid(em, id)
    ensures Holds(LayoutOf(groups), em[id], id)
    ensures var (groups', em') := UnplaceRow(groups, em, id);
      Consistent(groups', em', table, hasher) && Unplaced(groups, em, groups', em', id)
  {
    assert Holds(LayoutOf(groups), em[id], id);
    var (groups', em') := UnplaceRow(groups, em, id);
    RemoveAtConsistent(groups, em, table, hasher, id, groups', em');
  }

  /**
   * Removing an entity right after adding it restores every chunk and every entry
   * except the entity's own, which is left `Invalid()`.
   */
  lemma PlaceThenUnplace(groups: seq<EntityArchetypeBlock>, em: seq<ArchetypeBlockIndex>,
                         table: map<TypeHash, nat>, hasher: PtrHasher, id: EntityId, g: nat, b: nat)
    requires Consistent(groups, em, table, hasher) && id != ENTITY_NULL_ID && id < |em| && !IsValid(em, id)
    requires g < |groups| && b < |groups[g].archetypeBlocks| && HasRoomFor(groups[g].archetypeBlocks[b])
    ensures var (g1, em1) := PlaceRow(groups, em, id, g, b);
      && Shaped(LayoutOf(g1)) && IsValid(em1, id) && Holds(LayoutOf(g1), em1[id], id)
      && UnplaceRow(g1, em1, id) == (groups, em[id := InvalidIndex])
  {
    var (g1, em1) := PlaceRow(groups, em, id, g, b);
    AddAtConsistent(groups, em, table, hasher, id, g, b, g1, em1);
    assert Holds(LayoutOf(g1), em1[id], id);
    var c := groups[g].archetypeBlocks[b];
    var n := |c.live|;
    assert ChunkOk(LayoutOf(groups)[g][b]) && ZeroTail(LayoutOf(groups)[g][b]);
    var removed := RemoveRow(AddRow(c, Entity(id)), n);
    assert removed.live == c.live;
    assert removed.rows == c.rows;
    assert removed == c && MovedInto(removed, n) == NullEntity;
    assert g1[g].archetypeBlocks[b] == AddRow(c, Entity(id));
    assert g1[g].archetypeBlocks[b := c] == groups[g].archetypeBlocks;
    assert WithChunk(g1, g, b, removed) == groups;
    assert em1[id := InvalidIndex] == em[id := InvalidIndex];
  }

  /** `GetComponent<T>(e) = value`: the cell of type `t` in `id`'s row overwritten. */
  function WriteCell(groups: seq<EntityArchetypeBlock>, em: seq<ArchetypeBlockIndex>, id: EntityId, t: TypeId, value: int)
    : (groups': seq<EntityArchetypeBlock>)
    requires Shaped(LayoutOf(groups)) && IsValid(em, id) && Holds(LayoutOf(groups), em[id], id)
    ensures Regrouped(groups, groups')
    ensures LayoutOf(groups') == SetRowCell(LayoutOf(groups), em[id], t, value)
  {
    var g, b, r := em[id].archetypeIndex, em[id].blockIndex, em[id].elementIndex;
    var c := groups[g].archetypeBlocks[b];
    assert ChunkOk(LayoutOf(groups)[g][b]);
    WithChunk(groups, g, b, Chunk(c.keys, c.live, c.rows[r := SetCell(c.rows[r], t, value)]))
  }

  /** Writing a cell the entity's row has keeps the invariant. */
  lemma WriteKeeps(groups: seq<EntityArchetypeBlock>, em: seq<ArchetypeBlockIndex>,
                   table: map<TypeHash, nat>, hasher: PtrHasher, id: EntityId, t: TypeId, value: int)
    requires Consistent(groups, em, table, hasher) && IsValid(em, id) && t in CellsAt(LayoutOf(groups), em[id])
    ensures Holds(LayoutOf(groups), em[id], id)
    ensures Consistent(WriteCell(groups, em, id, t, value), em, table, hasher)
  {
    RowKeys(groups, em, id);
    var cs := LayoutOf(groups);
    assert ChunkOk(cs[em[id].archetypeIndex][em[id].blockIndex]);
    var groups' := WriteCell(groups, em, id, t, value);
    SetRowCellShaped(cs, em, id, t, value);
    RegroupedKeeps(groups, groups', table, hasher);
  }

  /** Writing a cell changes the entity's cells in that one value; nobody else changes. */
  lemma WriteEffect(groups: seq<EntityArchetypeBlock>, em: seq<ArchetypeBlockIndex>,
                    table: map<TypeHash, nat>, hasher: PtrHasher, id: EntityId, t: TypeId, value: int)
    requires Consistent(groups, em, table, hasher) && IsValid(em, id) && t in CellsAt(LayoutOf(groups), em[id])
    ensures Holds(LayoutOf(groups), em[id], id)
    ensures var groups' := WriteCell(groups, em, id, t, value);
      && GroupArchetype(groups', em[id]) == GroupArchetype(groups, em[id])
      && CellsAt(LayoutOf(groups'), em[id]) == SetCell(CellsAt(LayoutOf(groups), em[id]), t, value)
      && OthersKept(groups, em, groups', em, id)
  {
    WriteKeeps(groups, em, table, hasher, id, t, value);
    var cs := LayoutOf(groups);
    assert ChunkOk(cs[em[id].archetypeIndex][em[id].blockIndex]);
    SetRowCellRows(cs, em, id, t, value);
    RowKeys(WriteCell(groups, em, id, t, value), em, id);
    RowsKept(groups, em, WriteCell(groups, em, id, t, value), em, id);
  }

  // ---------------------------------------------------------------------------
  // The cells an attach or detach leaves.

  /** Attaching a type the row lacks: every other value kept, the new one zero. */
  lemma AttachCells(row: map<TypeId, int>, t: TypeId)
    requires t !in row
    ensures MigrateRow(row, row.Keys + {t}) == row[t := 0]
  {
  }

  /** Detaching a type: every other value kept. */
  lemma DetachCells(row: map<TypeId, int>, t: TypeId)
    ensures MigrateRow(row, row.Keys - {t}) == row - {t}
  {
  }

  /** Moving to a group with the same component types keeps the cells. */
  lemma SameCells(row: map<TypeId, int>)
    ensures MigrateRow(row, row.Keys) == row
  {
  }
}
