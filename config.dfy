/**
 * Constants shared by the type table and the symbol tables: the reserved
 * type ids, the sizes of the primitive types and their default names
 * (src/main/Config.java).
 */
module Config {
  // Reserved type ids.
  const IntId: int := 0
  const FloatId: int := 1
  const VoidId: int := 2
  const FirstArrayType: int := 4
  const FirstStructType: int := 8

  // Sizes in bytes.
  const IntSize: int := 4
  const FloatSize: int := 4
  const PointerSize: int := 4

  // Default primitive type names.
  const IntName: string := "int"
  const FloatName: string := "float"
  const VoidName: string := "void"

  /** The layout of the id space the type table relies on. */
  lemma ReservedLayout()
    ensures IntId != FloatId && FloatId != VoidId && IntId != VoidId
    ensures VoidId < FirstArrayType < FirstStructType
    ensures IntSize == FloatSize == PointerSize == 4
    ensures IntName != FloatName && FloatName != VoidName && IntName != VoidName
  {
  }
}
