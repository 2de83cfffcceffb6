/**
 * The type table (src/type/TypeTableImpl.java): a list of type slots indexed
 * by id, some of them empty, and a name-to-id index.
 *
 * Layout: ids 0 and 1 hold `int` and `float`; ids 2 and 3 stay empty for the
 * table's whole life (so `void` is never registered); ids 4 to 7 take
 * one-dimensional arrays, with 8 as their overflow slot; structs take the
 * lowest empty slot from 8 on. Everything else is appended.
 */
module TypeTables {
  import opened Options
  import opened Config
  import opened Text
  import opened SymbolRecords
  import opened SymbolTables
  import opened TypeRecords

  type Slots = seq<Option<TypeRec>>

  const IntRec: TypeRec := TypeRec(IntName, 1, IntSize, -1, null)
  const FloatRec: TypeRec := TypeRec(FloatName, 1, FloatSize, -1, null)

  /** Category of the symbols in a struct's member table. */
  const MemberCategory: string := "Miembro"

  /**
   * The Java accessors dereference the slot of any in-range id, so they are
   * defined for an id that is out of range or names an occupied slot.
   */
  predicate Readable(s: Slots, id: int) {
    !(0 <= id < |s|) || s[id].Some?
  }

  /** `getTam` on a snapshot of the slots. */
  function SlotSize(s: Slots, id: int): int
    requires Readable(s, id)
  {
    if 0 <= id < |s| then s[id].value.size else 0
  }

  /** Bytes per item of a type by its name: only the exact primitive names have a size. */
  function BaseSize(name: string): (r: int)
    ensures r == 4 <==> name == IntName || name == FloatName
    ensures r == 0 <==> name != IntName && name != FloatName
  {
    if name == IntName then IntSize else if name == FloatName then FloatSize else 0
  }

  /** The name of a one-dimensional array type, such as "int[10]". */
  function ArrayTypeName(base: string, n: int): string {
    base + Bracketed(n)
  }

  /** One dimension as written in an array type name, such as "[10]". */
  function Bracketed(d: int): (s: string)
    ensures |s| >= 3 && s[0] == '[' && s[|s| - 1] == ']'
  {
    "[" + IntToString(d) + "]"
  }

  /** "[d]" for each dimension, in order. */
  function DimsSuffix(dims: seq<int>): (s: string)
    ensures dims != [] ==> |s| > 0 && s[|s| - 1] == ']'
    decreases |dims|
  {
    if dims == [] then ""
    else DimsSuffix(dims[..|dims| - 1]) + Bracketed(dims[|dims| - 1])
  }

  function Product(dims: seq<int>): int
    decreases |dims|
  {
    if dims == [] then 1 else Product(dims[..|dims| - 1]) * dims[|dims| - 1]
  }

  /**
   * A composed array name is never a primitive name, so a multi-dimensional
   * array type gets byte size 0 from `addType`.
   */
  lemma ComposedNameHasNoBaseSize(base: string, dims: seq<int>)
    requires dims != []
    ensures |base + DimsSuffix(dims)| > |base|
    ensures BaseSize(base + DimsSuffix(dims)) == 0
  {
    var nm := base + DimsSuffix(dims);
    assert nm[|nm| - 1] == ']';
  }

  predicate NamedAt(s: Slots, j: int, name: string) {
    0 <= j < |s| && s[j].Some? && s[j].value.name == name
  }

  /** The lowest occupied slot at or after `from` named `name`, or -1. */
  ghost function FirstNamed(s: Slots, name: string, from: nat): (r: int)
    requires from <= |s|
    ensures r == -1 || (from <= r && NamedAt(s, r, name))
    ensures forall j :: from <= j < |s| && (r == -1 || j < r) ==> !NamedAt(s, j, name)
    decreases |s| - from
  {
    if from == |s| then -1
    else if NamedAt(s, from, name) then from
    else FirstNamed(s, name, from + 1)
  }

  /** The lowest empty slot in [from, to), or `to` when there is none. */
  ghost function FirstFree(s: Slots, lo: nat, hi: nat): (r: nat)
    requires lo <= hi <= |s|
    ensures lo <= r <= hi
    ensures r < hi ==> s[r].None?
    ensures forall j :: lo <= j < r ==> s[j].Some?
    decreases hi - lo
  {
    if lo == hi then hi
    else if s[lo].None? then lo
    else FirstFree(s, lo + 1, hi)
  }

  /** The id `findTypeByName` returns: the indexed one, else the first slot with that name. */
  ghost function FindSpec(s: Slots, index: map<string, int>, name: string): int {
    if name in index then index[name] else FirstNamed(s, name, 0)
  }

  /** The index after `findTypeByName`: a name found by scanning is cached. */
  ghost function FoundIndex(s: Slots, index: map<string, int>, name: string): map<string, int> {
    if name in index || FirstNamed(s, name, 0) < 0 then index
    else index[name := FirstNamed(s, name, 0)]
  }

  /** The slots after `addType(name, items, parent)`. */
  ghost function AddSlots(s: Slots, index: map<string, int>, name: string, items: int, parent: int): Slots {
    if name in index then s
    else s + [Some(TypeRec(name, ToShort(items), ToShort(BaseSize(name) * items), parent, null))]
  }

  /** The index after `addType(name, ...)`. */
  ghost function AddIndex(s: Slots, index: map<string, int>, name: string): map<string, int> {
    if name in index then index else index[name := |s|]
  }

  /** The id `addType(name, ...)` returns. */
  ghost function AddId(s: Slots, index: map<string, int>, name: string): int {
    if name in index then index[name] else |s|
  }

  /**
   * The lookup fails exactly when the name is neither indexed nor the name
   * of any occupied slot.
   */
  lemma FindSpecFails(s: Slots, index: map<string, int>, name: string)
    requires forall k :: k in index ==> 0 <= index[k] < |s|
    ensures FindSpec(s, index, name) == -1 <==>
      name !in index && forall j :: 0 <= j < |s| ==> !NamedAt(s, j, name)
  {
    if name !in index && FirstNamed(s, name, 0) != -1 {
      assert NamedAt(s, FirstNamed(s, name, 0), name);
    }
  }

  /** `addType` is idempotent: a second identical call changes nothing and returns the same id. */
  lemma AddTypeIdempotent(s: Slots, index: map<string, int>, name: string, items: int, parent: int)
    ensures var s1, i1 := AddSlots(s, index, name, items, parent), AddIndex(s, index, name);
      && AddSlots(s1, i1, name, items, parent) == s1
      && AddIndex(s1, i1, name) == i1
      && AddId(s1, i1, name) == AddId(s, index, name)
  {
  }

  predicate DistinctNames(fields: seq<(string, Symbol)>) {
    forall i, j :: 0 <= i < j < |fields| ==> fields[i].0 != fields[j].0
  }

  ghost predicate FieldsReadable(s: Slots, fields: seq<(string, Symbol)>) {
    forall k :: 0 <= k < |fields| ==> Readable(s, fields[k].1.typ)
  }

  /** Sum of the fields' type sizes, in order. */
  ghost function FieldsSize(s: Slots, fields: seq<(string, Symbol)>): int
    requires FieldsReadable(s, fields)
    decreases |fields|
  {
    if fields == [] then 0
    else FieldsSize(s, fields[..|fields| - 1]) + SlotSize(s, fields[|fields| - 1].1.typ)
  }

  /** Field `k` is a member at the sum of the sizes of the fields before it. */
  ghost predicate MemberAt(table: SymbolTable, s: Slots, fields: seq<(string, Symbol)>, k: int)
    reads table, table.symbols.Values
    requires 0 <= k < |fields| && FieldsReadable(s, fields)
  {
    && fields[k].0 in table.symbols
    && var m := table.symbols[fields[k].0];
      && m.dir == FieldsSize(s, fields[..k])
      && m.typ == fields[k].1.typ
      && m.cat == MemberCategory
      && m.args == []
  }

  /** The first `n` fields are laid out in `table`, in order, and nothing else is. */
  ghost predicate MembersLaidOut(table: SymbolTable, s: Slots, fields: seq<(string, Symbol)>, n: int)
    reads table, table.symbols.Values
    requires 0 <= n <= |fields| && FieldsReadable(s, fields)
  {
    && KeysInOrder(table.order, table.symbols) && table.parent == null && table.Repr == {table} && table.byName == map[]
    && |table.order| == n
    && (forall k :: 0 <= k < n ==> table.order[k] == fields[k].0)
    && table.offset == FieldsSize(s, fields[..n])
    && forall k :: 0 <= k < n ==> MemberAt(table, s, fields, k)
  }

  lemma PrefixStep(base: string, dims: seq<int>, i: int)
    requires 0 <= i < |dims|
    ensures base + DimsSuffix(dims[..i + 1]) == base + DimsSuffix(dims[..i]) + Bracketed(dims[i])
    ensures Product(dims[..i + 1]) == Product(dims[..i]) * dims[i]
  {
    var p := dims[..i + 1];
    assert p[..|p| - 1] == dims[..i] && p[|p| - 1] == dims[i];
    var item := Bracketed(dims[i]);
    assert DimsSuffix(p) == DimsSuffix(dims[..i]) + item;
    assert base + (DimsSuffix(dims[..i]) + item) == base + DimsSuffix(dims[..i]) + item;
  }

  /**
   * The name and item count of the array of `base` with dimensions `dims`,
   * built the way `createMultiDimArrayType` builds them.
   */
  method ComposeArray(base: string, dims: seq<int>) returns (arrayName: string, totalSize: int)
    ensures arrayName == base + DimsSuffix(dims)
    ensures totalSize == Product(dims)
  {
    totalSize := 1;
    arrayName := base;
    for i := 0 to |dims|
      invariant totalSize == Product(dims[..i])
      invariant arrayName == base + DimsSuffix(dims[..i])
    {
      PrefixStep(base, dims, i);
      totalSize := totalSize * dims[i];
      arrayName := arrayName + Bracketed(dims[i]);
    }
    assert dims[..|dims|] == dims;
  }

  lemma FieldsSizeStep(s: Slots, fields: seq<(string, Symbol)>, k: int)
    requires 0 <= k < |fields| && FieldsReadable(s, fields)
    ensures FieldsReadable(s, fields[..k]) && FieldsReadable(s, fields[..k + 1])
    ensures FieldsSize(s, fields[..k + 1]) == FieldsSize(s, fields[..k]) + SlotSize(s, fields[k].1.typ)
  {
    assert fields[..k + 1][..k] == fields[..k];
  }

  /** One step of `LayOutMembers`: field `k` goes in at the table's current offset. */
  method PlaceMember(table: SymbolTable, s: Slots, fields: seq<(string, Symbol)>, k: int, tam: int --> int)
    requires DistinctNames(fields) && FieldsReadable(s, fields) && 0 <= k < |fields|
    requires MembersLaidOut(table, s, fields, k)
    requires forall t :: Readable(s, t) ==> tam.requires(t) && tam(t) == SlotSize(s, t)
    modifies table
    ensures MembersLaidOut(table, s, fields, k + 1)
    ensures table.symbols.Values <= old(table.symbols.Values) + {table.symbols[fields[k].0]}
    ensures fresh(table.symbols[fields[k].0])
  {
    FieldsSizeStep(s, fields, k);
    var fieldSymbol := new Symbol(table.offset, fields[k].1.typ, MemberCategory);
    assert fields[k].0 !in table.symbols;
    label Before:
    table.Insert(fields[k].0, fieldSymbol, tam);
    forall j | 0 <= j < k
      ensures MemberAt(table, s, fields, j)
    {
      assert fields[j].0 != fields[k].0;
      assert old@Before(MemberAt(table, s, fields, j));
      assert table.symbols[fields[j].0] == old@Before(table.symbols[fields[j].0]);
    }
  }

  /**
   * The member table of a new struct: one "Miembro" symbol per field, in
   * order, each at the running offset, which grows by the size of the
   * field's type as looked up in `s`.
   */
  method LayOutMembers(s: Slots, fields: seq<(string, Symbol)>) returns (table: SymbolTable, offset: int)
    requires DistinctNames(fields) && FieldsReadable(s, fields)
    ensures fresh(table)
    ensures MembersLaidOut(table, s, fields, |fields|)
    ensures offset == FieldsSize(s, fields)
    ensures fresh(table.symbols.Values)
  {
    var tam := (typeId: int) requires Readable(s, typeId) => SlotSize(s, typeId);
    table := new SymbolTable(null);
    offset := 0;
    for k := 0 to |fields|
      invariant fresh(table)
      invariant MembersLaidOut(table, s, fields, k)
      invariant offset == FieldsSize(s, fields[..k])
      invariant fresh(table.symbols.Values)
    {
      PlaceMember(table, s, fields, k, tam);
      FieldsSizeStep(s, fields, k);
      offset := offset + SlotSize(s, fields[k].1.typ);
    }
    assert fields[..|fields|] == fields;
  }

  /**
   * The record of struct `name`: one item, no parent, a member table laid
   * out from `fields` against the sizes in `s`, and a byte size equal to the
   * fields' total, cut to 16 bits.
   */
  ghost predicate StructRecord(t: TypeRec, s: Slots, name: string, fields: seq<(string, Symbol)>)
    reads t.members, if t.members == null then {} else t.members.symbols.Values
  {
    && t.name == name && t.items == 1 && t.parentId == -1 && t.members != null
    && FieldsReadable(s, fields)
    && t.size == ToShort(FieldsSize(s, fields))
    && MembersLaidOut(t.members, s, fields, |fields|)
    && t.members.offset == FieldsSize(s, fields)
  }

  class TypeTable {
    var slots: Slots
    var index: map<string, int>

    ghost predicate Valid()
      reads this
    {
      && |slots| > FirstStructType
      && slots[IntId] == Some(IntRec) && slots[FloatId] == Some(FloatRec)
      && (forall j :: VoidId <= j < FirstArrayType ==> slots[j].None?)
      && IntName in index && index[IntName] == IntId
      && FloatName in index && index[FloatName] == FloatId
      && forall k :: k in index ==> 0 <= index[k] < |slots| && slots[index[k]].Some?
    }

    /** The state right after construction or `Reset`. */
    ghost predicate IsFresh()
      reads this
    {
      && |slots| == FirstStructType + 1
      && slots[IntId] == Some(IntRec) && slots[FloatId] == Some(FloatRec)
      && (forall j :: VoidId <= j < |slots| ==> slots[j].None?)
      && index == map[IntName := IntId, FloatName := FloatId]
    }

    /**
     * Every indexed name is the name of the slot it points to. This holds
     * until `CreateArrayType` overwrites an occupied slot 8.
     */
    ghost predicate NamesMatchIndex()
      reads this
      requires Valid()
    {
      forall k :: k in index ==> slots[index[k]].value.name == k
    }

    constructor ()
      ensures Valid() && IsFresh()
    {
      slots := [];
      index := map[];
      new;
      InitializeBasicTypes();
    }

    /** Pads the empty table to 9 slots and registers `int` and `float`. */
    method InitializeBasicTypes()
      requires slots == [] && index == map[]
      modifies this
      ensures Valid() && IsFresh()
    {
      while |slots| <= FirstStructType
        invariant |slots| <= FirstStructType + 1
        invariant forall j :: 0 <= j < |slots| ==> slots[j].None?
        invariant index == map[]
      {
        slots := slots + [None];
      }
      slots := slots[IntId := Some(IntRec)][FloatId := Some(FloatRec)];
      index := index[IntName := IntId][FloatName := FloatId];
    }

    method Reset()
      modifies this
      ensures Valid() && IsFresh()
    {
      slots := [];
      index := map[];
      InitializeBasicTypes();
    }

    function GetTam(id: int): (r: int)
      reads this
      requires Readable(slots, id)
      ensures !(0 <= id < |slots|) ==> r == 0
      ensures 0 <= id < |slots| ==> r == slots[id].value.size
    {
      SlotSize(slots, id)
    }

    function GetItems(id: int): (r: int)
      reads this
      requires Readable(slots, id)
      ensures !(0 <= id < |slots|) ==> r == 0
      ensures 0 <= id < |slots| ==> r == slots[id].value.items
    {
      if 0 <= id < |slots| then slots[id].value.items else 0
    }

    function GetName(id: int): (r: string)
      reads this
      requires Readable(slots, id)
      ensures !(0 <= id < |slots|) ==> r == ""
      ensures 0 <= id < |slots| ==> r == slots[id].value.name
    {
      if 0 <= id < |slots| then slots[id].value.name else ""
    }

    function GetParenId(id: int): (r: int)
      reads this
      requires Readable(slots, id)
      ensures !(0 <= id < |slots|) ==> r == -1
      ensures 0 <= id < |slots| ==> r == slots[id].value.parentId
    {
      if 0 <= id < |slots| then slots[id].value.parentId else -1
    }

    function GetParentStruct(id: int): (r: SymbolTable?)
      reads this
      requires Readable(slots, id)
      ensures !(0 <= id < |slots|) ==> r == null
      ensures 0 <= id < |slots| ==> r == slots[id].value.members
    {
      if 0 <= id < |slots| then slots[id].value.members else null
    }

    /** Unlike the other accessors, also safe on an empty slot. */
    function GetType(id: int): (r: Option<TypeRec>)
      reads this
      ensures r.Some? <==> 0 <= id < |slots| && slots[id].Some?
      ensures r.Some? ==> r.value == slots[id].value
    {
      if 0 <= id < |slots| then slots[id] else None
    }

    function GetTypeSize(id: int): (r: int)
      reads this
      requires Readable(slots, id)
      ensures r == GetTam(id)
    {
      if 0 <= id < |slots| then slots[id].value.size else 0
    }

    /**
     * Returns the id of `name` if it is indexed; otherwise appends a slot
     * sized by the name's base size times `items` and indexes it.
     */
    method AddType(name: string, items: int, parent: int) returns (id: int)
      requires Valid()
      modifies this
      ensures Valid()
      ensures id == AddId(old(slots), old(index), name)
      ensures slots == AddSlots(old(slots), old(index), name, items, parent)
      ensures index == AddIndex(old(slots), old(index), name)
      ensures name in old(index) ==> id == old(index)[name] && slots == old(slots) && index == old(index)
      ensures name !in old(index) ==> id == |old(slots)| && slots[id].Some? && slots[id].value.name == name
      ensures old(NamesMatchIndex()) ==> NamesMatchIndex()
    {
      if name in index {
        return index[name];
      }
      var baseSize := BaseSize(name);
      var t := TypeRec(name, ToShort(items), ToShort(baseSize * items), parent, null);
      slots := slots + [Some(t)];
      id := |slots| - 1;
      index := index[name := id];
    }

    /** Always appends a struct-like slot; neither deduplicates nor indexes. */
    method AddTypeWithTable(name: string, table: SymbolTable?) returns (id: int)
      requires Valid()
      modifies this
      ensures Valid()
      ensures id == |old(slots)|
      ensures slots == old(slots) + [Some(TypeRec(name, 1, 0, -1, table))]
      ensures index == old(index)
      ensures old(NamesMatchIndex()) ==> NamesMatchIndex()
    {
      slots := slots + [Some(TypeRec(name, 1, 0, -1, table))];
      id := |slots| - 1;
    }

    method CreateRegisterType(name: string, table: SymbolTable?) returns (id: int)
      requires Valid()
      modifies this
      ensures Valid()
      ensures id == |old(slots)|
      ensures slots == old(slots) + [Some(TypeRec(name, 1, 0, -1, table))]
      ensures index == old(index)
    {
      id := AddTypeWithTable(name, table);
    }

    /**
     * The indexed id of `name`, else the lowest occupied slot with that name
     * (which is then cached in the index), else -1.
     */
    method FindTypeByName(name: string) returns (id: int)
      requires Valid()
      modifies this
      ensures Valid()
      ensures slots == old(slots)
      ensures id == FindSpec(old(slots), old(index), name)
      ensures index == FoundIndex(old(slots), old(index), name)
      ensures old(NamesMatchIndex()) ==> NamesMatchIndex()
    {
      if name in index {
        return index[name];
      }
      var i := 0;
      while i < |slots|
        invariant 0 <= i <= |slots|
        invariant slots == old(slots) && index == old(index)
        invariant forall j :: 0 <= j < i ==> !NamedAt(slots, j, name)
      {
        if slots[i].Some? && name == slots[i].value.name {
          assert NamedAt(slots, i, name);
          index := index[name := i];
          return i;
        }
        i := i + 1;
      }
      return -1;
    }

    /**
     * The one-dimensional array `base[n]`: -1 if `base` is unknown, the
     * existing id if `base[n]` is indexed, otherwise a new slot at the lowest
     * empty id in 4..7, or at 8 (whatever is there) when those are full.
     */
    method CreateArrayType(base: string, n: int) returns (id: int)
      requires Valid()
      modifies this
      ensures Valid()
      ensures var b := FindSpec(old(slots), old(index), base);
              var found := FoundIndex(old(slots), old(index), base);
              var name := ArrayTypeName(base, n);
        if b < 0 then id == -1 && slots == old(slots) && index == old(index)
        else if name in found then id == found[name] && slots == old(slots) && index == found
        else
          && id == FirstFree(old(slots), FirstArrayType, FirstStructType)
          && slots == old(slots)[id := Some(TypeRec(name, ToShort(n), ToShort(SlotSize(old(slots), b) * n), b, null))]
          && index == found[name := id]
      ensures old(NamesMatchIndex()) && (slots == old(slots) || old(slots)[id].None?) ==> NamesMatchIndex()
    {
      var baseTypeId := FindTypeByName(base);
      if baseTypeId < 0 {
        return -1;
      }
      var arrayName := ArrayTypeName(base, n);
      if arrayName in index {
        return index[arrayName];
      }
      ghost var s1 := index;
      id := FirstArrayType;
      while id < FirstStructType && slots[id].Some?
        invariant FirstArrayType <= id <= FirstStructType
        invariant slots == old(slots) && index == s1
        invariant forall j :: FirstArrayType <= j < id ==> slots[j].Some?
      {
        id := id + 1;
      }
      var baseSize := GetTam(baseTypeId);
      var t := TypeRec(arrayName, ToShort(n), ToShort(baseSize * n), baseTypeId, null);
      slots := slots[id := Some(t)];
      index := index[arrayName := id];
    }

    /**
     * The array type named `base` followed by "[d]" per dimension, through
     * `AddType`: the item count is the product of the dimensions, and the
     * byte size is computed from the composed name, hence 0.
     */
    method CreateMultiDimArrayType(base: string, dims: seq<int>) returns (id: int)
      requires Valid()
      modifies this
      ensures Valid()
      ensures var b0 := FindSpec(old(slots), old(index), base);
              var s1 := if b0 >= 0 then old(slots) else AddSlots(old(slots), old(index), base, 1, -1);
              var i1 := if b0 >= 0 then FoundIndex(old(slots), old(index), base)
                        else AddIndex(old(slots), old(index), base);
              var b1 := if b0 >= 0 then b0 else AddId(old(slots), old(index), base);
              var name := base + DimsSuffix(dims);
        && id == AddId(s1, i1, name)
        && slots == AddSlots(s1, i1, name, Product(dims), b1)
        && index == AddIndex(s1, i1, name)
      ensures dims != [] && base + DimsSuffix(dims) !in old(index) ==>
        id >= |old(slots)| && slots[id].value.size == 0 && slots[id].value.items == ToShort(Product(dims))
      ensures old(NamesMatchIndex()) ==> NamesMatchIndex()
    {
      var baseTypeId := FindTypeByName(base);
      if baseTypeId < 0 {
        baseTypeId := AddType(base, 1, -1);
      }
      ghost var s1, i1 := slots, index;
      var arrayName, totalSize := ComposeArray(base, dims);
      id := AddType(arrayName, totalSize, baseTypeId);
      if dims != [] && arrayName !in old(index) {
        ComposedNameHasNoBaseSize(base, dims);
        assert arrayName !in i1 && |s1| >= |old(slots)|;
        assert ToShort(0 * totalSize) == 0;
      }
    }

    /** Pads the slots with empty ones up to `id`, then stores `t` there. */
    method PlaceAt(id: int, t: TypeRec)
      requires Valid() && FirstStructType <= id <= |slots|
      modifies this
      ensures Valid() && index == old(index)
      ensures slots == (if id < |old(slots)| then old(slots) else old(slots) + [None])[id := Some(t)]
    {
      while |slots| <= id
        invariant slots == old(slots) || (id == |old(slots)| && slots == old(slots) + [None])
        invariant index == old(index)
      {
        slots := slots + [None];
      }
      slots := slots[id := Some(t)];
    }

    /**
     * The struct `name`: its indexed id if it is already known (the new
     * fields are ignored); otherwise a slot at the lowest empty id from 8 on
     * (appended if there is none) holding a fresh member table in which each
     * field sits at the sum of the sizes of the fields before it, and a byte
     * size equal to their total.
     */
    method CreateStructType(name: string, fields: seq<(string, Symbol)>) returns (id: int)
      requires Valid()
      requires DistinctNames(fields)
      requires name !in index ==> FieldsReadable(slots, fields)
      modifies this
      ensures Valid()
      ensures name in old(index) ==> id == old(index)[name] && slots == old(slots) && index == old(index)
      ensures name !in old(index) ==>
        && id == FirstFree(old(slots), FirstStructType, |old(slots)|)
        && id < |slots| && slots[id].Some?
        && slots == (if id < |old(slots)| then old(slots) else old(slots) + [None])[id := slots[id]]
        && index == old(index)[name := id]
        && StructRecord(slots[id].value, old(slots), name, fields)
        && fresh(slots[id].value.members)
        && fresh(slots[id].value.members.symbols.Values)
      ensures old(NamesMatchIndex()) ==> NamesMatchIndex()
    {
      if name in index {
        return index[name];
      }
      id := FirstStructType;
      while id < |slots| && slots[id].Some?
        invariant FirstStructType <= id <= |slots|
        invariant slots == old(slots) && index == old(index)
        invariant forall j :: FirstStructType <= j < id ==> slots[j].Some?
      {
        id := id + 1;
      }
      var structTable, offset := LayOutMembers(slots, fields);
      var t := TypeRec(name, 1, ToShort(offset), -1, structTable);
      assert fields[..|fields|] == fields;
      assert StructRecord(t, old(slots), name, fields);
      PlaceAt(id, t);
      index := index[name := id];
    }
  }
}
