/**
 * Client-level consequences of the contracts: what a compiler front end
 * driving the tables can rely on across several calls.
 */
module Scenarios {
  import opened Options
  import opened Config
  import opened TypeRecords
  import opened SymbolRecords
  import opened SymbolTables
  import opened SymbolTableStacks
  import opened TypeTables

  /** Bytes that a run of `insert` calls adds to a scope, in order. */
  function SizesSum(entries: seq<(string, Symbol)>, tam: int --> int): int
    requires forall k :: 0 <= k < |entries| ==> (!entries[k].1.IsFunction() ==> tam.requires(entries[k].1.typ))
    decreases |entries|
  {
    if entries == [] then 0
    else SizesSum(entries[..|entries| - 1], tam) + CalculateSize(entries[|entries| - 1].1, tam)
  }

  /** With no negative type size, a run of inserts never lowers the offset. */
  lemma {:induction false} SizesSumNonNegative(entries: seq<(string, Symbol)>, tam: int --> int)
    requires forall k :: 0 <= k < |entries| ==> (!entries[k].1.IsFunction() ==> tam.requires(entries[k].1.typ))
    requires forall k :: 0 <= k < |entries| ==> (!entries[k].1.IsFunction() ==> tam(entries[k].1.typ) >= 0)
    ensures SizesSum(entries, tam) >= 0
    decreases |entries|
  {
    if entries != [] {
      var prefix := entries[..|entries| - 1];
      assert forall k :: 0 <= k < |prefix| ==> prefix[k] == entries[k];
      SizesSumNonNegative(prefix, tam);
    }
  }

  /** Inserting each entry in turn leaves every name bound and the offset grown by their sizes. */
  method InsertAll(table: SymbolTable, entries: seq<(string, Symbol)>, tam: int --> int)
    requires table.Valid()
    requires forall k :: 0 <= k < |entries| ==> (!entries[k].1.IsFunction() ==> tam.requires(entries[k].1.typ))
    modifies table
    ensures table.Valid()
    ensures table.offset == old(table.offset) + SizesSum(entries, tam)
    ensures forall k :: 0 <= k < |entries| ==> entries[k].0 in table.symbols
  {
    for i := 0 to |entries|
      invariant table.Valid()
      invariant table.offset == old(table.offset) + SizesSum(entries[..i], tam)
      invariant forall k :: 0 <= k < i ==> entries[k].0 in table.symbols
    {
      assert entries[..i + 1][..i] == entries[..i];
      table.Insert(entries[i].0, entries[i].1, tam);
    }
    assert entries[..|entries|] == entries;
  }

  /** A push followed by a pop returns the pushed table and restores the stack. */
  method PushThenPop(s: SymbolTableStack, t: SymbolTable) returns (r: SymbolTable?)
    modifies s
    ensures r == t && s.frames == old(s.frames)
  {
    s.Push(t);
    r := s.Pop();
  }

  /** Pushing onto a non-empty stack changes the top but not the bottom. */
  method PushKeepsBase(s: SymbolTableStack, t: SymbolTable)
    requires s.frames != []
    modifies s
    ensures s.Base() == old(s.Base()) && s.Peek() == Some(t)
  {
    s.Push(t);
  }

  /**
   * A local `x` shadows a global `x` while its scope is on the stack; once
   * it is popped the global one resolves the name again.
   */
  method Shadowing() returns (global: SymbolTable, local: SymbolTable, inside: Option<SymbolTable>, outside: Option<SymbolTable>)
    ensures inside == Some(local) && outside == Some(global) && local != global
  {
    var tam := (t: int) => 0;
    global := new SymbolTable(null);
    var g := new Symbol(0, IntId, "variable");
    global.Insert("x", g, tam);
    local := new SymbolTable(null);
    var l := new Symbol(0, FloatId, "variable");
    local.Insert("x", l, tam);
    var stack := new SymbolTableStack();
    stack.Push(global);
    stack.Push(local);
    inside := stack.Lookup("x");
    var popped := stack.Pop();
    outside := stack.Lookup("x");
  }

  /** Two tables in their initial state agree slot for slot. */
  lemma FreshTablesAgree(a: TypeTable, b: TypeTable)
    requires a.IsFresh() && b.IsFresh()
    ensures a.slots == b.slots && a.index == b.index
  {
    assert forall j :: 0 <= j < |a.slots| ==> a.slots[j] == b.slots[j];
  }

  /** Registering one name twice through the table variant of `addType` gives two slots. */
  method RegisterTwice(t: TypeTable, name: string, table: SymbolTable?) returns (a: int, b: int)
    requires t.Valid()
    modifies t
    ensures 0 <= a < b < |t.slots| && t.slots[a] == t.slots[b]
  {
    a := t.CreateRegisterType(name, table);
    b := t.CreateRegisterType(name, table);
  }

  /** A repeated multi-dimensional array request returns the same id. */
  method MultiDimTwice(t: TypeTable, base: string, dims: seq<int>) returns (a: int, b: int)
    requires t.Valid()
    modifies t
    ensures a == b
  {
    a := t.CreateMultiDimArrayType(base, dims);
    b := t.CreateMultiDimArrayType(base, dims);
  }

  /** `int[3][4]` has 12 items, byte size 0, base `int`, and an appended id. */
  method Matrix() returns (t: TypeTable, id: int)
    ensures t.Valid() && id == FirstStructType + 1 && |t.slots| == id + 1 && t.slots[id].Some?
    ensures t.slots[id].value == TypeRec("int[3][4]", 12, 0, IntId, null)
  {
    t := new TypeTable();
    id := t.CreateMultiDimArrayType("int", [3, 4]);
  }

  /** A struct `Point { int x; float y; }` takes slot 8, has size 8 and members at 0 and 4. */
  method Point() returns (t: TypeTable, id: int)
    ensures t.Valid() && id == FirstStructType && |t.slots| == id + 1 && t.slots[id].Some?
    ensures t.slots[id].value.size == 8 && t.slots[id].value.members != null
    ensures "x" in t.slots[id].value.members.symbols && t.slots[id].value.members.symbols["x"].dir == 0
    ensures "y" in t.slots[id].value.members.symbols && t.slots[id].value.members.symbols["y"].dir == 4
    ensures t.slots[id].value.members.offset == 8
  {
    t := new TypeTable();
    var x := new Symbol(0, IntId, "variable");
    var y := new Symbol(0, FloatId, "variable");
    var fields: seq<(string, Symbol)> := [("x", x), ("y", y)];
    ghost var s := t.slots;
    assert fields[..0] == [] && fields[..1] == [("x", x)];
    assert FieldsSize(s, fields[..1]) == IntSize;
    assert FieldsSize(s, fields) == IntSize + FloatSize;
    id := t.CreateStructType("Point", fields);
    assert MemberAt(t.slots[id].value.members, s, fields, 0);
    assert MemberAt(t.slots[id].value.members, s, fields, 1);
  }

  /**
   * When slots 4 to 8 are all occupied and slot 8 holds an indexed type, a
   * new one-dimensional array overwrites slot 8: the old name stays indexed
   * at 8 while slot 8 now carries the array's name.
   */
  method SlotEightOverwrite(t: TypeTable, base: string, n: int) returns (id: int)
    requires t.Valid() && t.NamesMatchIndex()
    requires base in t.index
    requires forall j :: FirstArrayType <= j <= FirstStructType ==> t.slots[j].Some?
    requires t.slots[FirstStructType].value.name in t.index
    requires t.index[t.slots[FirstStructType].value.name] == FirstStructType
    requires ArrayTypeName(base, n) !in t.index
    modifies t
    ensures id == FirstStructType && t.Valid() && !t.NamesMatchIndex()
  {
    ghost var evicted := t.slots[FirstStructType].value.name;
    id := t.CreateArrayType(base, n);
    assert t.index[evicted] == FirstStructType;
  }
}
