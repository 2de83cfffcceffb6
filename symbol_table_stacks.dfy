/**
 * The stack of scopes (src/symbol/SymbolTableStackImpl.java). The bottom
 * frame is the global scope, the top frame the active one, and name
 * resolution consults exactly these two.
 */
module SymbolTableStacks {
  import opened Options
  import opened SymbolTables

  class SymbolTableStack {
    /** Bottom first: `frames[0]` is the first table pushed. */
    var frames: seq<SymbolTable>

    constructor ()
      ensures frames == []
    {
      frames := [];
    }

    method Push(table: SymbolTable)
      modifies this
      ensures frames == old(frames) + [table]
    {
      frames := frames + [table];
    }

    /** Removes and returns the top frame; `null` on an empty stack. */
    method Pop() returns (table: SymbolTable?)
      modifies this
      ensures old(frames) == [] ==> table == null && frames == []
      ensures old(frames) != [] ==>
        table == old(frames)[|old(frames)| - 1] && frames == old(frames)[..|old(frames)| - 1]
    {
      if frames == [] {
        return null;
      }
      table := frames[|frames| - 1];
      frames := frames[..|frames| - 1];
    }

    /** The active (top) frame, if any. */
    function Peek(): (r: Option<SymbolTable>)
      reads this
      ensures r.None? <==> frames == []
      ensures r.Some? ==> r.value == frames[|frames| - 1]
    {
      if frames == [] then None else Some(frames[|frames| - 1])
    }

    /** The global (bottom) frame, if any. */
    function Base(): (r: Option<SymbolTable>)
      reads this
      ensures r.None? <==> frames == []
      ensures r.Some? ==> r.value == frames[0]
    {
      if frames == [] then None else Some(frames[0])
    }

    /**
     * The frame that resolves `id`: the top if its lookup finds it (local
     * shadows global), otherwise the bottom if its lookup finds it.
     */
    function Lookup(id: string): (r: Option<SymbolTable>)
      reads this
      reads if frames == [] then {} else {frames[|frames| - 1], frames[0]}
      reads if frames == [] then {} else frames[|frames| - 1].Repr + frames[0].Repr
      requires frames != [] ==> frames[|frames| - 1].Valid() && frames[0].Valid()
      ensures r.Some? ==>
        && frames != []
        && (r.value == frames[|frames| - 1] || r.value == frames[0])
        && r.value.Lookup(id).Some?
      ensures r.None? <==>
        frames == [] || (frames[|frames| - 1].Lookup(id).None? && frames[0].Lookup(id).None?)
      ensures frames != [] && frames[|frames| - 1].Lookup(id).Some? ==> r == Some(frames[|frames| - 1])
    {
      if frames == [] then None
      else if frames[|frames| - 1].Lookup(id).Some? then Some(frames[|frames| - 1])
      else if frames[0].Lookup(id).Some? then Some(frames[0])
      else None
    }
  }

  /** Frames strictly between the bottom and the top never affect a lookup. */
  lemma LookupIgnoresMiddleFrames(s: SymbolTableStack, t: SymbolTableStack, id: string)
    requires s.frames != [] && t.frames != []
    requires t.frames[0] == s.frames[0] && t.frames[|t.frames| - 1] == s.frames[|s.frames| - 1]
    requires s.frames[0].Valid() && s.frames[|s.frames| - 1].Valid()
    ensures s.Lookup(id) == t.Lookup(id)
  {
  }
}
