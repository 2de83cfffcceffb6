/**
 * One lexical scope (src/symbol/SymbolTableImpl.java): an insertion-ordered
 * map from names to symbols, a running storage offset, a name-to-overloads
 * map that is written but never read, and an optional parent scope.
 *
 * The Java table keeps a reference to the type table only to ask it for the
 * size of a symbol's type. Here that question is a function `tam` passed to
 * `Insert`, so that a struct's member table (which the type table owns) does
 * not point back at the type table.
 */
module SymbolTables {
  import opened Options
  import opened Text
  import opened SymbolRecords

  /**
   * Bytes a symbol occupies in its scope: a pointer-sized 4 for functions,
   * otherwise the type table's size of the symbol's type. The type table is
   * not consulted at all for a function symbol.
   */
  function CalculateSize(sym: Symbol, tam: int --> int): (r: int)
    requires !sym.IsFunction() ==> tam.requires(sym.typ)
    ensures sym.IsFunction() ==> r == 4
    ensures !sym.IsFunction() ==> r == tam(sym.typ)
  {
    if sym.IsFunction() then 4 else tam(sym.typ)
  }

  /** "_" followed by the decimal type id, for each parameter in order. */
  function ParamSuffix(params: seq<int>): string {
    if params == [] then "" else "_" + IntToString(params[0]) + ParamSuffix(params[1..])
  }

  /** The binding key of a function: its name, then "_<id>" per parameter. */
  function MangledName(base: string, params: seq<int>): (key: string)
    ensures |key| >= |base| && key[..|base|] == base
    ensures params == [] <==> key == base
  {
    ParamSuffixShape(params);
    base + ParamSuffix(params)
  }

  /** A suffix is empty exactly for no parameters, and otherwise starts with '_'. */
  lemma ParamSuffixShape(params: seq<int>)
    ensures params == [] <==> ParamSuffix(params) == ""
    ensures params != [] ==> ParamSuffix(params)[0] == '_'
  {
  }

  /** Length of the leading run of characters that are not '_'. */
  function SegmentLength(s: string): (n: nat)
    ensures n <= |s|
  {
    if s == [] || s[0] == '_' then 0 else 1 + SegmentLength(s[1..])
  }

  /** A '_'-free segment followed by nothing or by '_' is read back whole. */
  lemma {:induction false} SeparatorAt(a: string, rest: string)
    requires forall i :: 0 <= i < |a| ==> a[i] != '_'
    requires rest == [] || rest[0] == '_'
    ensures SegmentLength(a + rest) == |a|
    decreases |a|
  {
    if a != [] {
      assert (a + rest)[1..] == a[1..] + rest;
      SeparatorAt(a[1..], rest);
    }
  }

  /** Two '_'-free segments, each followed by nothing or by '_', split alike. */
  lemma SplitAtSeparator(a: string, r1: string, b: string, r2: string)
    requires forall i :: 0 <= i < |a| ==> a[i] != '_'
    requires forall i :: 0 <= i < |b| ==> b[i] != '_'
    requires r1 == [] || r1[0] == '_'
    requires r2 == [] || r2[0] == '_'
    requires a + r1 == b + r2
    ensures a == b && r1 == r2
  {
    SeparatorAt(a, r1);
    SeparatorAt(b, r2);
    var s := a + r1;
    assert a == s[..|a|] && b == s[..|b|];
    assert r1 == s[|a|..] && r2 == s[|b|..];
  }

  /** One "_<id>" segment followed by the rest of a suffix is read back uniquely. */
  lemma SplitParam(x: int, r1: string, y: int, r2: string)
    requires r1 == [] || r1[0] == '_'
    requires r2 == [] || r2[0] == '_'
    requires "_" + IntToString(x) + r1 == "_" + IntToString(y) + r2
    ensures x == y && r1 == r2
  {
    var a, b := IntToString(x), IntToString(y);
    var s := "_" + a + r1;
    assert s[1..] == a + r1;
    assert s[1..] == b + r2;
    SplitAtSeparator(a, r1, b, r2);
    IntToStringInjective(x, y);
  }

  /** Equal suffixes of two non-empty lists agree on the first id and on the rest. */
  lemma ParamSuffixHead(p: seq<int>, q: seq<int>)
    requires p != [] && q != []
    requires ParamSuffix(p) == ParamSuffix(q)
    ensures p[0] == q[0] && ParamSuffix(p[1..]) == ParamSuffix(q[1..])
  {
    ParamSuffixShape(p[1..]);
    ParamSuffixShape(q[1..]);
    SplitParam(p[0], ParamSuffix(p[1..]), q[0], ParamSuffix(q[1..]));
  }

  lemma {:induction false} ParamSuffixInjective(p: seq<int>, q: seq<int>)
    requires ParamSuffix(p) == ParamSuffix(q)
    ensures p == q
    decreases |p|
  {
    ParamSuffixShape(p);
    ParamSuffixShape(q);
    if p != [] && q != [] {
      ParamSuffixHead(p, q);
      ParamSuffixInjective(p[1..], q[1..]);
      assert p == [p[0]] + p[1..] && q == [q[0]] + q[1..];
    }
  }

  /**
   * For one function name, distinct parameter lists give distinct keys, so
   * overloads that differ in their parameters never overwrite each other.
   */
  lemma MangledNameInjective(base: string, p: seq<int>, q: seq<int>)
    requires MangledName(base, p) == MangledName(base, q)
    ensures p == q
  {
    var k := MangledName(base, p);
    assert ParamSuffix(p) == k[|base|..] == ParamSuffix(q);
    ParamSuffixInjective(p, q);
  }

  /** The keys of `symbols`, each exactly once, in the order first inserted. */
  ghost predicate KeysInOrder(order: seq<string>, symbols: map<string, Symbol>) {
    && (forall k :: k in symbols <==> k in order)
    && (forall i, j :: 0 <= i < j < |order| ==> order[i] != order[j])
  }

  class SymbolTable {
    /** Key order of the Java LinkedHashMap, for display. */
    var order: seq<string>
    var symbols: map<string, Symbol>
    /** The source's `symbolsByName`: every function symbol under its plain name. */
    var byName: map<string, seq<Symbol>>
    var offset: int
    const parent: SymbolTable?
    /** This table and its parent chain. */
    ghost const Repr: set<object>

    ghost predicate Valid()
      reads this, Repr
      decreases Repr
    {
      && this in Repr
      && (parent != null ==>
            parent in Repr && parent.Repr <= Repr && this !in parent.Repr && parent.Valid())
      && KeysInOrder(order, symbols)
    }

    /** An empty scope at offset 0; a top-level scope passes `null`. */
    constructor (parent: SymbolTable?)
      requires parent != null ==> parent.Valid()
      ensures Valid() && this.parent == parent
      ensures order == [] && symbols == map[] && byName == map[] && offset == 0
      ensures Repr == if parent == null then {this} else {this} + parent.Repr
    {
      this.parent := parent;
      order := [];
      symbols := map[];
      byName := map[];
      offset := 0;
      Repr := if parent == null then {this} else {this} + parent.Repr;
    }

    /** The tables searched by `Lookup`, this one first. */
    ghost function Chain(): (c: seq<SymbolTable>)
      reads this, Repr
      requires Valid()
      ensures |c| >= 1 && c[0] == this
      decreases Repr
    {
      [this] + if parent == null then [] else parent.Chain()
    }

    function Lookup(id: string): (r: Option<Symbol>)
      reads this, Repr
      requires Valid()
      ensures id in symbols ==> r == Some(symbols[id])
      ensures id !in symbols && parent == null ==> r == None
      ensures id !in symbols && parent != null ==> r == parent.Lookup(id)
      decreases Repr
    {
      if id in symbols then Some(symbols[id])
      else if parent != null then parent.Lookup(id)
      else None
    }

    /** Binds `id` to `sym`, replacing any earlier binding, and grows the offset. */
    method Insert(id: string, sym: Symbol, tam: int --> int)
      requires Valid()
      requires !sym.IsFunction() ==> tam.requires(sym.typ)
      modifies this
      ensures Valid()
      ensures symbols == old(symbols)[id := sym]
      ensures order == if id in old(symbols) then old(order) else old(order) + [id]
      ensures offset == old(offset) + CalculateSize(sym, tam)
      ensures byName == old(byName)
    {
      if id !in symbols {
        order := order + [id];
      }
      symbols := symbols[id := sym];
      offset := offset + CalculateSize(sym, tam);
    }

    /**
     * Binds the mangled key of `id` to a new function symbol at the current
     * offset and appends it to `id`'s overload list; the offset is unchanged.
     */
    method InsertFunction(id: string, returnType: int, params: seq<int>)
      requires Valid()
      modifies this
      ensures Valid()
      ensures var key := MangledName(id, params);
        && key in symbols && fresh(symbols[key])
        && symbols[key].dir == old(offset) && symbols[key].typ == returnType
        && symbols[key].cat == FunctionCategory && symbols[key].args == params
        && symbols == old(symbols)[key := symbols[key]]
        && order == (if key in old(symbols) then old(order) else old(order) + [key])
        && byName == old(byName)[id := (if id in old(byName) then old(byName)[id] else []) + [symbols[key]]]
      ensures offset == old(offset)
    {
      var sym := new Symbol(offset, returnType, FunctionCategory);
      for i := 0 to |params|
        invariant sym.args == params[..i]
        modifies sym
      {
        sym.AddArgument(params[i]);
      }
      assert params[..|params|] == params;
      var overloads := if id in byName then byName[id] else [];
      byName := byName[id := overloads + [sym]];
      var key := MangledName(id, params);
      if key !in symbols {
        order := order + [key];
      }
      symbols := symbols[key := sym];
    }

    /** Binds `id` to a new "struct" symbol at the current offset; the offset is unchanged. */
    method InsertStruct(id: string, typeId: int)
      requires Valid()
      modifies this
      ensures Valid()
      ensures id in symbols && fresh(symbols[id])
      ensures symbols[id].dir == old(offset) && symbols[id].typ == typeId
      ensures symbols[id].cat == "struct" && symbols[id].args == []
      ensures symbols == old(symbols)[id := symbols[id]]
      ensures order == if id in old(symbols) then old(order) else old(order) + [id]
      ensures offset == old(offset) && byName == old(byName)
    {
      var sym := new Symbol(offset, typeId, "struct");
      if id !in symbols {
        order := order + [id];
      }
      symbols := symbols[id := sym];
    }

  }

  /** `Lookup` finds nothing exactly when no table of the chain binds the name. */
  lemma {:induction false} LookupNoneIffUnbound(t: SymbolTable, id: string)
    requires t.Valid()
    ensures t.Lookup(id).None? <==> forall u :: u in t.Chain() ==> id !in u.symbols
    decreases t.Repr
  {
    if t.parent != null {
      LookupNoneIffUnbound(t.parent, id);
    }
  }
}
