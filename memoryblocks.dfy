/**
 * A storage chunk (`ComponentMemoryBlock`): a fixed 16 KiB arena holding up to
 * `maxSize` rows, laid out as an entity column followed by one dense column per
 * component type of the chunk's archetype. Rows `[0, size)` are live; every other
 * row is zero and holds the null entity.
 *
 * Component payloads are abstracted to one value per (row, type) cell, 0 standing
 * for the zero-filled bytes; the byte layout of the columns is kept as offsets and
 * proved disjoint, gap-free and inside the arena.
 */
module MemoryBlocks {
  import opened Types
  import opened Folds
  import opened EntityArchetypes

  /** `ComponentMemoryBlock::datasize`, `KB(16)`. */
  const DataSize: nat := 16384

  /**
   * `MemoryPtr`: where a component column lives, as the byte offset of the column in
   * the arena (the source keeps `&data[offset]`) and the per-row byte size.
   */
  datatype MemoryPtr = MemoryPtr(offset: nat, size: ByteSize)

  /** Bytes one row takes in a chunk with these component types: the entity plus each component. */
  ghost function RowFootprint(components: map<TypeId, ByteSize>): nat
  {
    EntitySize + SumValues(components)
  }

  /**
   * The number of rows of a chunk: `floor((float)16384 / (float)footprint)`. The float
   * quotient of 16384 by a positive integer never rounds up across an integer, so the
   * floor is the integer quotient.
   */
  ghost function MaxRows(components: map<TypeId, ByteSize>): nat
  {
    DataSize / RowFootprint(components)
  }

  /**
   * `a * b`, written out so that the layout's byte arithmetic stays linear for the
   * solver; `MulIsProduct` ties it to `*`.
   */
  function Mul(a: nat, b: nat): nat
  {
    if b == 0 then 0 else a + Mul(a, b - 1)
  }

  lemma {:induction false} MulIsProduct(a: nat, b: nat)
    ensures Mul(a, b) == a * b
  {
    if b != 0 {
      MulIsProduct(a, b - 1);
    }
  }

  lemma {:induction false} MulDistributes(a: nat, b: nat, c: nat)
    ensures Mul(a, b + c) == Mul(a, b) + Mul(a, c)
  {
    if c != 0 {
      MulDistributes(a, b, c - 1);
    }
  }

  /** The entity column takes `maxSize` entities at the start of the arena. */
  function EntityColumnEnd(maxSize: nat): nat
  {
    Mul(maxSize, EntitySize)
  }

  /** The byte range `[offset, offset + maxSize * size)` of a column ends here. */
  function ColumnEnd(p: MemoryPtr, maxSize: nat): nat
  {
    p.offset + Mul(maxSize, p.size)
  }

  /**
   * The column table `Initialize` builds: one entry per component type with its size;
   * the columns lie after the entity column and inside the arena, overlap neither each
   * other nor the entity column, and leave no gap (each starts where the entity column
   * or another column ends).
   */
  ghost predicate WellLaidOut(locs: map<TypeId, MemoryPtr>, components: map<TypeId, ByteSize>, maxSize: nat)
  {
    && locs.Keys == components.Keys
    && Sized(locs, components)
    && Within(locs, maxSize, DataSize)
    && Disjoint(locs, maxSize)
    && NoGaps(locs, maxSize)
  }

  /** Every column has its component's size. */
  ghost predicate Sized(locs: map<TypeId, MemoryPtr>, components: map<TypeId, ByteSize>)
  {
    forall t :: t in locs ==> t in components && locs[t].size == components[t]
  }

  /** Every column starts after the entity column and ends by `limit`. */
  ghost predicate Within(locs: map<TypeId, MemoryPtr>, maxSize: nat, limit: nat)
  {
    forall t :: t in locs ==> EntityColumnEnd(maxSize) <= locs[t].offset && ColumnEnd(locs[t], maxSize) <= limit
  }

  /** No two columns overlap. */
  ghost predicate Disjoint(locs: map<TypeId, MemoryPtr>, maxSize: nat)
  {
    forall t, u :: t in locs && u in locs && t != u ==>
      ColumnEnd(locs[t], maxSize) <= locs[u].offset || ColumnEnd(locs[u], maxSize) <= locs[t].offset
  }

  /** `offset` is where the entity column or one of the columns ends. */
  ghost predicate Abuts(locs: map<TypeId, MemoryPtr>, maxSize: nat, offset: nat)
  {
    offset == EntityColumnEnd(maxSize) || exists u :: u in locs && ColumnEnd(locs[u], maxSize) == offset
  }

  /** Every column starts where the entity column or another column ends. */
  ghost predicate NoGaps(locs: map<TypeId, MemoryPtr>, maxSize: nat)
  {
    forall t :: t in locs ==> Abuts(locs, maxSize, locs[t].offset)
  }

  /** A row with every listed column at zero. */
  function ZeroRow(keys: set<TypeId>): (row: map<TypeId, int>)
    ensures row.Keys == keys
    ensures forall t :: t in row ==> row[t] == 0
  {
    map t | t in keys :: 0
  }

  /**
   * The row a copy into a fresh destination row produces: the destination's columns,
   * holding the source value where the source has that type and zero elsewhere.
   */
  function MigrateRow(src: map<TypeId, int>, keys: set<TypeId>): (row: map<TypeId, int>)
    ensures row.Keys == keys
    ensures forall t :: t in keys && t in src ==> row[t] == src[t]
    ensures forall t :: t in keys && t !in src ==> row[t] == 0
  {
    map t | t in keys :: if t in src then src[t] else 0
  }

  /** Row `row` with the value of `t` replaced. */
  function SetCell(row: map<TypeId, int>, t: TypeId, value: int): (r: map<TypeId, int>)
    ensures r.Keys == row.Keys + {t} && r[t] == value
    ensures forall u :: u in row && u != t ==> r[u] == row[u]
  {
    row[t := value]
  }

  /** A second write to the same cell replaces the first. */
  lemma SetCellTwice(row: map<TypeId, int>, t: TypeId, first: int, value: int)
    ensures SetCell(row[t := first], t, value) == row[t := value]
  {
  }

  /** Swap-with-last removal on a sequence: the last element takes position `i`. */
  function SwapRemove<T>(s: seq<T>, i: nat): (r: seq<T>)
    requires i < |s|
    ensures |r| == |s| - 1
    ensures forall j :: 0 <= j < |r| && j != i ==> r[j] == s[j]
    ensures i < |r| ==> r[i] == s[|s| - 1]
  {
    if i == |s| - 1 then s[..i] else s[..i] + [s[|s| - 1]] + s[i + 1..|s| - 1]
  }

  /** Swap-with-last removal takes out exactly the element at `i`. */
  lemma SwapRemovePermutes<T>(s: seq<T>, i: nat)
    requires i < |s|
    ensures multiset(SwapRemove(s, i)) + multiset{s[i]} == multiset(s)
  {
    if i == |s| - 1 {
      assert s == s[..i] + [s[i]];
    } else {
      assert s == s[..i] + [s[i]] + s[i + 1..|s| - 1] + [s[|s| - 1]];
    }
  }

  /** Row-level removal: the last row's values move into row `i`, the last row becomes `zero`. */
  function MoveLastRowInto(rows: seq<map<TypeId, int>>, i: nat, last: nat, zero: map<TypeId, int>)
    : (r: seq<map<TypeId, int>>)
    requires i <= last < |rows|
    ensures |r| == |rows|
    ensures forall j :: 0 <= j < |r| && j != i && j != last ==> r[j] == rows[j]
    ensures i != last ==> r[i] == rows[last]
    ensures r[last] == zero
  {
    rows[i := rows[last]][last := zero]
  }

  /** The first position of `e` in `s`. */
  function IndexOf(s: seq<Entity>, e: Entity): (i: nat)
    requires e in s
    ensures i < |s| && s[i] == e && e !in s[..i]
  {
    if s[0] == e then 0
    else
      var j := IndexOf(s[1..], e);
      assert s[..j + 1] == [s[0]] + s[1..][..j];
      j + 1
  }

  /** The first loop of `Initialize`: the entity size plus every component size. */
  method CombinedSize(components: map<TypeId, ByteSize>) returns (combined: nat)
    ensures combined == RowFootprint(components)
  {
    combined := EntitySize;
    var rest: map<TypeId, ByteSize> := components;
    while rest != map[]
      invariant combined + SumValues(rest) == RowFootprint(components)
      decreases |rest|
    {
      var t: TypeId :| t in rest;
      SumValuesRemove(rest, t);
      combined := combined + rest[t];
      rest := rest - {t};
    }
  }

  /** The column table built so far by the second loop of `Initialize`, which continues at `nextLoc`. */
  ghost predicate PartialLayout(locs: map<TypeId, MemoryPtr>, components: map<TypeId, ByteSize>,
                                maxSize: nat, nextLoc: nat)
  {
    && Sized(locs, components)
    && EntityColumnEnd(maxSize) <= nextLoc
    && Within(locs, maxSize, nextLoc)
    && Disjoint(locs, maxSize)
    && NoGaps(locs, maxSize)
    && Abuts(locs, maxSize, nextLoc)
  }

  /** A column placed after every existing column's end overlaps none of them. */
  lemma PlaceDisjoint(locs: map<TypeId, MemoryPtr>, maxSize: nat, nextLoc: nat, t: TypeId, p: MemoryPtr)
    requires Disjoint(locs, maxSize) && Within(locs, maxSize, nextLoc) && t !in locs
    requires p.offset == nextLoc
    ensures Disjoint(locs[t := p], maxSize)
  {
  }

  /** The new column ends the table so far. */
  lemma PlaceWithin(locs: map<TypeId, MemoryPtr>, maxSize: nat, nextLoc: nat, t: TypeId, p: MemoryPtr)
    requires Within(locs, maxSize, nextLoc) && EntityColumnEnd(maxSize) <= nextLoc
    requires p.offset == nextLoc
    ensures Within(locs[t := p], maxSize, ColumnEnd(p, maxSize))
  {
  }

  /** Old columns keep their neighbours; the new one starts where the table ended. */
  lemma PlaceNoGaps(locs: map<TypeId, MemoryPtr>, maxSize: nat, nextLoc: nat, t: TypeId, p: MemoryPtr)
    requires NoGaps(locs, maxSize) && Abuts(locs, maxSize, nextLoc) && t !in locs
    requires p.offset == nextLoc
    ensures NoGaps(locs[t := p], maxSize) && Abuts(locs[t := p], maxSize, ColumnEnd(p, maxSize))
  {
    var locs' := locs[t := p];
    forall v | v in locs'
      ensures Abuts(locs', maxSize, locs'[v].offset)
    {
      var o := locs'[v].offset;
      if o != EntityColumnEnd(maxSize) {
        var u :| u in locs && ColumnEnd(locs[u], maxSize) == o;
        assert u in locs' && locs'[u] == locs[u];
      }
    }
    assert t in locs' && locs'[t] == p;
  }

  /** One step of the second loop of `Initialize`: the next column starts at `nextLoc`. */
  lemma PlaceColumn(locs: map<TypeId, MemoryPtr>, components: map<TypeId, ByteSize>,
                    maxSize: nat, nextLoc: nat, t: TypeId)
    requires PartialLayout(locs, components, maxSize, nextLoc)
    requires t in components && t !in locs
    ensures var p := MemoryPtr(nextLoc, components[t]);
      PartialLayout(locs[t := p], components, maxSize, ColumnEnd(p, maxSize))
  {
    var p := MemoryPtr(nextLoc, components[t]);
    PlaceDisjoint(locs, maxSize, nextLoc, t, p);
    PlaceWithin(locs, maxSize, nextLoc, t, p);
    PlaceNoGaps(locs, maxSize, nextLoc, t, p);
  }

  /** The types placed so far and the types still to place split the component types. */
  ghost predicate KeysSplit(locs: map<TypeId, MemoryPtr>, rest: map<TypeId, ByteSize>,
                            components: map<TypeId, ByteSize>)
  {
    && (forall u :: u in components ==> (u in rest <==> u !in locs))
    && (forall u :: u in rest ==> u in components && rest[u] == components[u])
    && (forall u :: u in locs ==> u in components)
  }

  lemma KeysSplitStep(locs: map<TypeId, MemoryPtr>, rest: map<TypeId, ByteSize>,
                      components: map<TypeId, ByteSize>, t: TypeId, p: MemoryPtr)
    requires KeysSplit(locs, rest, components) && t in rest
    ensures KeysSplit(locs[t := p], rest - {t}, components)
  {
  }

  /**
   * The next free byte: what is left of the arena's share of the component columns is
   * `maxSize` rows of the sizes still to place.
   */
  ghost predicate Advance(rest: map<TypeId, ByteSize>, components: map<TypeId, ByteSize>,
                          maxSize: nat, nextLoc: nat)
  {
    nextLoc + Mul(maxSize, SumValues(rest)) == Mul(maxSize, RowFootprint(components))
  }

  lemma AdvanceStart(components: map<TypeId, ByteSize>, maxSize: nat)
    ensures Advance(components, components, maxSize, EntityColumnEnd(maxSize))
  {
    MulDistributes(maxSize, EntitySize, SumValues(components));
  }

  lemma AdvanceStep(rest: map<TypeId, ByteSize>, components: map<TypeId, ByteSize>,
                    maxSize: nat, nextLoc: nat, t: TypeId)
    requires Advance(rest, components, maxSize, nextLoc) && t in rest
    ensures Advance(rest - {t}, components, maxSize, nextLoc + Mul(maxSize, rest[t]))
  {
    SumValuesRemove(rest, t);
    MulDistributes(maxSize, rest[t], SumValues(rest - {t}));
  }

  /** Once every type is placed and the last column ends inside the arena, the table is well laid out. */
  lemma LayoutDone(locs: map<TypeId, MemoryPtr>, components: map<TypeId, ByteSize>, maxSize: nat, nextLoc: nat)
    requires PartialLayout(locs, components, maxSize, nextLoc) && KeysSplit(locs, map[], components)
    requires Advance(map[], components, maxSize, nextLoc)
    requires Mul(maxSize, RowFootprint(components)) <= DataSize
    ensures WellLaidOut(locs, components, maxSize)
  {
    assert locs.Keys == components.Keys;
  }

  /** The second loop of `Initialize`: place the columns one after another after the entity column. */
  method LayOutColumns(components: map<TypeId, ByteSize>, maxSize: nat) returns (locs: map<TypeId, MemoryPtr>)
    requires Mul(maxSize, RowFootprint(components)) <= DataSize
    ensures WellLaidOut(locs, components, maxSize)
  {
    locs := map[];
    var nextLoc: nat := Mul(maxSize, EntitySize);
    var rest: map<TypeId, ByteSize> := components;
    AdvanceStart(components, maxSize);
    while rest != map[]
      invariant KeysSplit(locs, rest, components)
      invariant PartialLayout(locs, components, maxSize, nextLoc)
      invariant Advance(rest, components, maxSize, nextLoc)
      decreases |rest|
    {
      var t: TypeId :| t in rest;
      var ptr := MemoryPtr(nextLoc, rest[t]);
      KeysSplitStep(locs, rest, components, t, ptr);
      PlaceColumn(locs, components, maxSize, nextLoc, t);
      AdvanceStep(rest, components, maxSize, nextLoc, t);
      locs := locs[t := ptr];
      nextLoc := nextLoc + Mul(maxSize, rest[t]);
      rest := rest - {t};
    }
    LayoutDone(locs, components, maxSize, nextLoc);
  }

  /** The sizing part of `Initialize`: the row count and the column table. */
  method PlanArena(components: map<TypeId, ByteSize>) returns (rows: nat, locs: map<TypeId, MemoryPtr>)
    ensures rows == MaxRows(components)
    ensures WellLaidOut(locs, components, rows)
  {
    var combined := CombinedSize(components);
    rows := DataSize / combined;
    assert rows * combined <= DataSize;
    MulIsProduct(rows, combined);
    locs := LayOutColumns(components, rows);
  }

  /** One chunk: its column types, its live entities and all `maxSize` rows of cells. */
  datatype Chunk = Chunk(keys: set<TypeId>, live: seq<Entity>, rows: seq<map<TypeId, int>>)

  /** `AddEntity` on a chunk: `e` takes the first free row, whose cells are already zero. */
  function AddRow(c: Chunk, e: Entity): Chunk {
    Chunk(c.keys, c.live + [e], c.rows)
  }

  /** `CopyEntityTo` seen from the destination: `e` takes the first free row, filled with `row`. */
  function AppendRow(c: Chunk, e: Entity, row: map<TypeId, int>): Chunk
    requires |c.live| < |c.rows|
  {
    Chunk(c.keys, c.live + [e], c.rows[|c.live| := row])
  }

  /** `RemoveEntityMoveLast(r)`: swap-with-last on the entities and on the rows. */
  function RemoveRow(c: Chunk, r: nat): Chunk
    requires r < |c.live| <= |c.rows|
  {
    Chunk(c.keys, SwapRemove(c.live, r), MoveLastRowInto(c.rows, r, |c.live| - 1, ZeroRow(c.keys)))
  }

  /** What `RemoveEntityMoveLast(r)` returns, read off the chunk after the removal. */
  function MovedInto(c: Chunk, r: nat): Entity {
    if r < |c.live| then c.live[r] else NullEntity
  }

  class ComponentMemoryBlock {
    /** `type`: the archetype the chunk was initialised for. */
    const archetype: EntityArchetype
    /** `_maxSize`: how many rows the arena holds. */
    const maxSize: nat
    /** `dataLocations`: the column of each component type. */
    const dataLocations: map<TypeId, MemoryPtr>
    /** The entity column at the start of the arena. */
    const entities: array<Entity>
    /** The component cells: `data[row][t]` is row `row`'s value of `t`. */
    const data: array<map<TypeId, int>>
    /** `_size`: rows `[0, size)` are live. */
    var size: nat

    /** The live entities, `entities[..size]`. */
    ghost var Live: seq<Entity>

    ghost predicate Valid()
      reads this, entities, data
    {
      && entities.Length == maxSize
      && data.Length == maxSize
      && dataLocations.Keys == archetype.componentTypesMemory.Keys
      && size <= maxSize
      && |Live| == size
      && (forall i :: 0 <= i < size ==> entities[i] == Live[i] && Live[i] != NullEntity)
      && (forall i :: size <= i < maxSize ==> entities[i] == NullEntity)
      && (forall i :: 0 <= i < maxSize ==> data[i].Keys == dataLocations.Keys)
      && (forall i :: size <= i < maxSize ==> data[i] == ZeroRow(dataLocations.Keys))
    }

    /**
     * The chunk value this block stands for: its column types, its live entities and
     * all of its rows of cells. The manager holds its chunks as such values.
     */
    ghost function Abstract(): Chunk
      reads this, data
    {
      Chunk(dataLocations.Keys, Live, data[..])
    }

    /**
     * What `Initialize` fixes about the arena: as many rows as fit in 16 KiB and the
     * columns laid out one after another inside it. It depends only on constants.
     */
    ghost predicate LaidOut()
    {
      && maxSize == MaxRows(archetype.componentTypesMemory)
      && WellLaidOut(dataLocations, archetype.componentTypesMemory, maxSize)
    }

    /** `Initialize(type)`: an empty, zero-filled chunk for `archetype`. */
    constructor (archetype: EntityArchetype)
      ensures Valid() && fresh(entities) && fresh(data)
      ensures this.archetype == archetype && LaidOut()
      ensures size == 0 && Live == []
    {
      var rows, locs := PlanArena(archetype.componentTypesMemory);
      this.archetype := archetype;
      maxSize := rows;
      dataLocations := locs;
      entities := new Entity[rows](_ => NullEntity);
      data := new map<TypeId, int>[rows](_ => ZeroRow(archetype.componentTypesMemory.Keys));
      size := 0;
      Live := [];
    }

    /** `HasRoom`: another row fits. */
    function HasRoom(): (r: bool)
      reads this, entities, data
      requires Valid()
      ensures r <==> |Live| < maxSize
    {
      size < maxSize
    }

    /** `GetEntityArray`: the whole entity column, null past the live rows. */
    function GetEntityArray(): (column: seq<Entity>)
      reads this, entities, data
      requires Valid()
      ensures |column| == maxSize && column[..size] == Live
      ensures forall i :: size <= i < maxSize ==> column[i] == NullEntity
    {
      entities[..]
    }

    /** `GetComponentArray<T>`: the whole column of `t`, zero past the live rows. */
    function GetComponentArray(t: TypeId): (column: seq<int>)
      reads this, entities, data
      requires Valid() && t in dataLocations
      ensures |column| == maxSize
      ensures forall i :: size <= i < maxSize ==> column[i] == 0
    {
      seq(maxSize, i requires 0 <= i < data.Length && t in data[i] reads data => data[i][t])
    }

    /** `GetComponent<T>(idx)`: the value of `t` in live row `idx`, an element of its column. */
    function GetComponent(idx: nat, t: TypeId): (value: int)
      reads this, entities, data
      requires Valid() && idx < size && t in dataLocations
      ensures value == GetComponentArray(t)[idx]
    {
      data[idx][t]
    }

    /** A write through the reference `GetComponent<T>(idx)` returns. */
    method SetComponent(idx: nat, t: TypeId, value: int)
      requires Valid() && idx < size && t in dataLocations
      modifies data
      ensures Valid()
      ensures data[..] == old(data[..])[idx := SetCell(old(data[idx]), t, value)]
    {
      data[idx] := SetCell(data[idx], t, value);
    }

    /** `HasEntity`: a scan of the live rows. */
    method HasEntity(e: Entity) returns (found: bool)
      requires Valid()
      ensures found <==> e in Live
    {
      var i := 0;
      while i < size
        invariant 0 <= i <= size
        invariant e !in Live[..i]
      {
        if entities[i] == e {
          return true;
        }
        assert Live[..i + 1] == Live[..i] + [Live[i]];
        i := i + 1;
      }
      assert Live[..i] == Live;
      return false;
    }

    /** `GetEntityIndex`: the row of a live entity, found by a scan; its presence is asserted. */
    method GetEntityIndex(e: Entity) returns (idx: nat)
      requires Valid() && e in Live
      ensures idx == IndexOf(Live, e)
    {
      idx := 0;
      while entities[idx] != e
        invariant idx <= IndexOf(Live, e)
        invariant e !in Live[..idx]
        decreases IndexOf(Live, e) - idx
      {
        assert Live[..idx + 1] == Live[..idx] + [Live[idx]];
        idx := idx + 1;
      }
    }

    /** `GetComponent<T>(e)`: the value of `t` in the row holding `e`. */
    method GetComponentOf(e: Entity, t: TypeId) returns (value: int)
      requires Valid() && e in Live && t in dataLocations
      ensures value == data[IndexOf(Live, e)][t]
    {
      var idx := GetEntityIndex(e);
      value := GetComponent(idx, t);
    }

    /** `AddEntity`: `e` takes the first free row, whose cells are already zero. */
    method AddEntity(e: Entity) returns (idx: nat)
      requires Valid()
      requires e != NullEntity && size < maxSize
      modifies this, entities
      ensures Valid()
      ensures idx == old(size) && size == old(size) + 1
      ensures Live == old(Live) + [e]
      ensures Abstract() == AddRow(old(Abstract()), e)
    {
      entities[size] := e;
      idx := size;
      size := size + 1;
      Live := Live + [e];
    }

    /**
     * The `memcpy`/`memset` loop of a removal: column by column, row `from`'s cell moves
     * to row `to` and is zeroed. The two rows are assembled column by column, then stored.
     */
    method MoveCells(to: nat, from: nat)
      requires data.Length == maxSize && to < from < maxSize
      requires data[to].Keys == dataLocations.Keys && data[from].Keys == dataLocations.Keys
      modifies data
      ensures data[..] == MoveLastRowInto(old(data[..]), to, from, ZeroRow(dataLocations.Keys))
    {
      var toRow, fromRow := data[to], data[from];
      var todo := dataLocations.Keys;
      while todo != {}
        invariant todo <= dataLocations.Keys
        invariant toRow.Keys == dataLocations.Keys && fromRow.Keys == dataLocations.Keys
        invariant forall t :: t in dataLocations ==>
          toRow[t] == if t in todo then data[to][t] else data[from][t]
        invariant forall t :: t in dataLocations ==>
          fromRow[t] == if t in todo then data[from][t] else 0
        decreases |todo|
      {
        var t :| t in todo;
        toRow := SetCell(toRow, t, fromRow[t]);
        fromRow := SetCell(fromRow, t, 0);
        todo := todo - {t};
      }
      assert toRow == data[from];
      assert fromRow == ZeroRow(dataLocations.Keys);
      data[to] := toRow;
      data[from] := fromRow;
    }

    /** The `memset` loop of a removal of the last row: row `last`'s cells are zeroed. */
    method ZeroCells(last: nat)
      requires data.Length == maxSize && last < maxSize && data[last].Keys == dataLocations.Keys
      modifies data
      ensures data[..] == MoveLastRowInto(old(data[..]), last, last, ZeroRow(dataLocations.Keys))
    {
      var row := data[last];
      var todo := dataLocations.Keys;
      while todo != {}
        invariant todo <= dataLocations.Keys
        invariant row.Keys == dataLocations.Keys
        invariant forall t :: t in dataLocations ==> row[t] == if t in todo then data[last][t] else 0
        decreases |todo|
      {
        var t :| t in todo;
        row := SetCell(row, t, 0);
        todo := todo - {t};
      }
      assert row == ZeroRow(dataLocations.Keys);
      data[last] := row;
    }

    /**
     * `RemoveEntityMoveLast(eidx)`: the last row moves into row `eidx`, the vacated last
     * row is zeroed and nulled; the result is the entity now at row `eidx`, or the null
     * entity when there is none.
     */
    method RemoveEntityMoveLast(eidx: nat) returns (moved: Entity)
      requires Valid() && eidx < size
      modifies this, entities, data
      ensures Valid()
      ensures size == old(size) - 1
      ensures Live == SwapRemove(old(Live), eidx)
      ensures data[..] == MoveLastRowInto(old(data[..]), eidx, old(size) - 1, ZeroRow(dataLocations.Keys))
      ensures moved == if eidx < size then Live[eidx] else NullEntity
      ensures Abstract() == RemoveRow(old(Abstract()), eidx) && moved == MovedInto(Abstract(), eidx)
    {
      var lastIdx := size - 1;
      if eidx != lastIdx {
        MoveCells(eidx, lastIdx);
        entities[eidx] := entities[lastIdx];
        entities[lastIdx] := NullEntity;
      } else {
        ZeroCells(lastIdx);
        entities[lastIdx] := NullEntity;
      }
      size := size - 1;
      Live := SwapRemove(Live, eidx);
      assert forall i :: 0 <= i < size ==> entities[i] == Live[i];
      assert forall i :: size <= i < maxSize ==> data[i] == ZeroRow(dataLocations.Keys);
      if size == 0 {
        moved := NullEntity;
      } else {
        moved := entities[eidx];
      }
    }

    /**
     * `CopyEntityTo(eidx, e, dest)`: `e` is appended to `dest`, and each column of
     * `dest` whose type this chunk also has receives row `eidx`'s value; the other
     * columns of the new row stay zero. `dest` may be this chunk itself.
     */
    method CopyEntityTo(eidx: nat, e: Entity, dest: ComponentMemoryBlock) returns (newIdx: nat)
      requires Valid() && dest.Valid()
      requires dest == this || (dest.entities != entities && dest.data != data)
      requires eidx < size && e != NullEntity && dest.size < dest.maxSize
      modifies dest, dest.entities, dest.data
      ensures Valid() && dest.Valid()
      ensures newIdx == old(dest.size) && dest.size == old(dest.size) + 1
      ensures dest.Live == old(dest.Live) + [e]
      ensures dest.data[..] == old(dest.data[..])[newIdx := MigrateRow(old(data[eidx]), dest.dataLocations.Keys)]
      ensures dest != this ==> size == old(size) && Live == old(Live) && data[..] == old(data[..])
      ensures dest.Abstract() == AppendRow(old(dest.Abstract()), e, MigrateRow(old(data[eidx]), dest.dataLocations.Keys))
    {
      newIdx := dest.AddEntity(e);
      CopyCells(eidx, dest, newIdx);
    }

    /**
     * The copy loop of `CopyEntityTo`: for each column of `dest`, row `eidx`'s value of
     * that type, when this chunk has one, is copied into row `newIdx` of `dest`.
     */
    method CopyCells(eidx: nat, dest: ComponentMemoryBlock, newIdx: nat)
      requires data.Length == maxSize && eidx < maxSize && data[eidx].Keys == dataLocations.Keys
      requires dest.data.Length == dest.maxSize && newIdx < dest.maxSize
      requires dest.data[newIdx] == ZeroRow(dest.dataLocations.Keys)
      requires dest.data == data ==> eidx != newIdx
      modifies dest.data
      ensures dest.data[..] == old(dest.data[..])[newIdx := MigrateRow(old(data[eidx]), dest.dataLocations.Keys)]
    {
      var row := dest.data[newIdx];
      var todo := dest.dataLocations.Keys;
      while todo != {}
        invariant todo <= dest.dataLocations.Keys
        invariant row.Keys == dest.dataLocations.Keys
        invariant forall t :: t in dest.dataLocations ==>
          row[t] == if t !in todo && t in data[eidx] then data[eidx][t] else 0
        decreases |todo|
      {
        var t :| t in todo;
        if t in dataLocations {
          row := SetCell(row, t, data[eidx][t]);
        }
        todo := todo - {t};
      }
      assert row == MigrateRow(data[eidx], dest.dataLocations.Keys);
      dest.data[newIdx] := row;
    }
  }
}
