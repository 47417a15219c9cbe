/**
 * Plain data shared by the whole storage engine: type identities, byte sizes,
 * opaque shared-instance pointers and entity identifiers.
 */
module Types {

  /**
   * A `type_hash` (a 64-bit `size_t`): the identity of a component type and every
   * hash built from such identities by XOR.
   */
  datatype TypeHash = TypeHash(bits: bv64) {
    function Xor(other: TypeHash): TypeHash {
      TypeHash(bits ^ other.bits)
    }
  }

  const ZeroHash: TypeHash := TypeHash(0)

  /** XOR on hashes: an abelian group with 0 as identity, each element its own inverse. */
  lemma XorAssoc(a: TypeHash, b: TypeHash, c: TypeHash)
    ensures a.Xor(b).Xor(c) == a.Xor(b.Xor(c))
  {
  }

  lemma XorComm(a: TypeHash, b: TypeHash)
    ensures a.Xor(b) == b.Xor(a)
  {
  }

  lemma XorCancel(a: TypeHash, b: TypeHash)
    ensures a.Xor(b).Xor(b) == a
  {
  }

  lemma XorRegroup(a: TypeHash, b: TypeHash, c: TypeHash, d: TypeHash)
    ensures a.Xor(b).Xor(c).Xor(d) == a.Xor(b.Xor(c).Xor(d))
  {
    XorAssoc(a.Xor(b), c, d);
    XorAssoc(a, b, c.Xor(d));
    XorAssoc(b, c, d);
  }

  lemma XorZero(a: TypeHash)
    ensures a.Xor(TypeHash(0)) == a && TypeHash(0).Xor(a) == a
  {
  }

  /** XOR-ing in a non-zero value always changes the hash. */
  lemma XorNonZeroChanges(a: TypeHash, b: TypeHash)
    requires b.bits != 0
    ensures a.Xor(b) != a
  {
  }

  /** Type ids are opaque, non-zero values (`typeid(T).hash_code()`). */
  type TypeId = t: TypeHash | t.bits != 0 witness TypeHash(1)

  /** `sizeof(T)`, which is never zero in C++. */
  type ByteSize = n: nat | 0 < n witness 1

  /** An address of an externally owned shared-component instance; 0 is `nullptr`. */
  type Ptr = p: int | 0 <= p < 0x1_0000_0000_0000_0000

  const NullPtr: Ptr := 0

  /** `std::hash<void*>`: left uninterpreted, so it is passed in wherever it is used. */
  type PtrHasher = Ptr -> TypeHash

  /** `Entity::ID`, a `uint32_t`. */
  type EntityId = x: int | 0 <= x < 0x1_0000_0000

  const ENTITY_NULL_ID: EntityId := 0

  /** `struct Entity { uint32_t ID = ENTITY_NULL_ID; }`; equality compares the ids. */
  datatype Entity = Entity(id: EntityId)

  const NullEntity: Entity := Entity(ENTITY_NULL_ID)

  /** `ComponentType`: a component's identity and per-instance byte size. */
  datatype ComponentType = ComponentType(typeId: TypeId, memorySize: ByteSize)

  /** `sizeof(Entity)`. */
  const EntitySize: nat := 4
}
