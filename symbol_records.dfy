/**
 * A declared identifier's record (src/symbol/SymbolImpl.java): offset,
 * type id and category are fixed at construction; only the list of argument
 * type ids grows, one id at a time.
 */
module SymbolRecords {

  /** The category string that marks a function symbol. */
  const FunctionCategory: string := "function"

  class Symbol {
    /** Storage offset (the source's `dir`). */
    const dir: int
    /** Type id, a reference into the type table. */
    const typ: int
    /** Category tag, such as "function", "struct", "Variable" or "Miembro". */
    const cat: string
    /** Parameter type ids, in declaration order. */
    var args: seq<int>

    constructor (dir: int, typ: int, cat: string)
      ensures this.dir == dir && this.typ == typ && this.cat == cat
      ensures args == []
    {
      this.dir := dir;
      this.typ := typ;
      this.cat := cat;
      args := [];
    }

    method AddArgument(typeId: int)
      modifies this
      ensures args == old(args) + [typeId]
    {
      args := args + [typeId];
    }

    predicate IsFunction(): (b: bool)
      ensures b <==> cat == FunctionCategory
    {
      FunctionCategory == cat
    }
  }
}
