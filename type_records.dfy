/**
 * A type record (src/type/TypeImpl.java): immutable once built. The item
 * count and the byte size are Java `short` fields, so every value stored in
 * them has first passed a narrowing cast.
 */
module TypeRecords {
  import opened SymbolTables

  /** The values of a Java `short`. */
  type Short = x: int | -0x8000 <= x < 0x8000

  /**
   * Java's `(short)` cast: keeps the low 16 bits, read as two's complement.
   * Only values already in range come back unchanged.
   */
  function ToShort(x: int): (r: Short)
    ensures r == x <==> -0x8000 <= x < 0x8000
    ensures (x - r) % 0x1_0000 == 0
  {
    (x + 0x8000) % 0x1_0000 - 0x8000
  }

  /**
   * `items` is 1 for non-arrays, `parentId` is -1 when there is no element
   * type, and `members` is `null` for everything but structs.
   */
  datatype TypeRec = TypeRec(name: string, items: Short, size: Short, parentId: int, members: SymbolTable?)
}
