# Type and symbol tables of a toy compiler front end

This project models the semantic bookkeeping of a small compiler front end written in Java, and proves properties of the model in Dafny. It has three stateful components:

- **The type table** (`TypeTables.TypeTable`). It holds a list of type slots, some empty, and a name-to-id index. It has:
  - two `addType` variants;
  - one-dimensional and multi-dimensional array construction;
  - struct construction with cumulative member offsets;
  - a name lookup that scans and caches;
  - a reset.
- **A scope** (`SymbolTables.SymbolTable`). It is an insertion-ordered map from names to symbols, with a running storage offset. Functions are stored under parameter-mangled keys, and every function symbol is also kept in a write-only per-name overload list. Lookup walks an optional parent chain.
- **The scope stack** (`SymbolTableStacks.SymbolTableStack`). Name resolution asks the top frame, then the bottom frame, and nothing in between.

The records and constants:

- `SymbolRecords.Symbol`: fixed offset, type and category; append-only argument list.
- `TypeRecords.TypeRec`: an immutable type record whose item count and byte size are Java `short` values.
- `Config`: reserved type ids, primitive sizes and primitive names.

Each class keeps the source's own form. Its fields are updated in place by methods with `modifies` clauses. Each method's `ensures` clause states the whole new state in terms of specification functions on the old state:

- `FindSpec`/`FoundIndex` for the lookup and its cache;
- `FirstFree` for slot placement;
- `AddSlots`/`AddIndex`/`AddId` for `addType`;
- `DimsSuffix`/`Product` for composed array names;
- `FieldsSize`/`MembersLaidOut` for struct layout;
- `MangledName` for function keys.

Properties relating several calls are lemmas about those functions, or client methods in module `Scenarios`.

Where the code differs from what its documentation suggests, the model follows the code:

- The array name composed by `createMultiDimArrayType` is what `addType` sizes, so `int[3][4]` gets byte size 0, not 48. It is also appended after slot 8 rather than put in slots 4 to 7 (`Scenarios.Matrix`).
- Type sizes are cut to 16 bits and can come out negative. `createArrayType("int", 10000)` stores the size `(short) 40000`, which is -25536. A struct whose fields total more than 32767 bytes wraps the same way. A scope that then inserts a variable of such a type lowers its offset (src/symbol/SymbolTableImpl.java:72). `Scenarios.SizesSumNonNegative` therefore requires non-negative sizes.
- The scope stack asks the top frame's `lookup`, which itself follows that frame's parent chain. So "top then bottom" holds for the frames on the stack, not for the scopes reachable from them.
- When slots 4 to 7 are full, `createArrayType` writes slot 8 whatever it holds. After that, an index entry can point at a slot with another name (`Scenarios.SlotEightOverwrite`). `NamesMatchIndex` is therefore preserved by every operation except that one.

## Model

| member | source | states |
|---|---|---|
| Config.ReservedLayout | src/main/Config.java:18-51 | The primitive ids 0, 1 and 2 are distinct and below the first array id 4, which is below the first struct id 8. All primitive sizes are 4, and the three primitive names are distinct. |
| Text.NatToString | src/symbol/SymbolTableImpl.java:128 | The decimal form of a natural number is a non-empty run of digits, of length one exactly for numbers below 10. |
| Text.IntToString | src/symbol/SymbolTableImpl.java:128 | Java's decimal form of an int is non-empty and starts with '-' exactly for negative numbers. '-' appears only there, and every other character is a digit. |
| Text.NatToStringInjective | src/symbol/SymbolTableImpl.java:125-131 | Different natural numbers have different decimal forms. |
| Text.IntToStringInjective | src/symbol/SymbolTableImpl.java:125-131 | Different ints have different decimal forms. |
| SymbolRecords.Symbol.constructor | src/symbol/SymbolImpl.java:28-33 | Offset, type and category are stored as given, and the argument list starts empty. Those three fields are `const`, so they never change later. |
| SymbolRecords.Symbol.AddArgument | src/symbol/SymbolImpl.java:80-82 | Appends exactly the given type id at the end of the arguments. |
| SymbolRecords.Symbol.IsFunction | src/symbol/SymbolImpl.java:89-91 | True exactly when the category is "function". |
| SymbolTables.CalculateSize | src/symbol/SymbolTableImpl.java:91-99 | A function symbol occupies 4 bytes without consulting the type table. Any other symbol occupies the type table's size for its type. |
| SymbolTables.MangledName | src/symbol/SymbolTableImpl.java:125-131 | The key starts with the base name, and equals it exactly when there are no parameters. |
| SymbolTables.ParamSuffixInjective | src/symbol/SymbolTableImpl.java:125-131 | Equal "_<id>" suffixes come from equal parameter lists. |
| SymbolTables.MangledNameInjective | src/symbol/SymbolTableImpl.java:117-131 | For one function name, distinct parameter lists give distinct keys, as the method's documentation claims. |
| SymbolTables.SymbolTable.constructor | src/symbol/SymbolTableImpl.java:31-46 | A new scope has no bindings, no overload lists and offset 0, and keeps the given parent. |
| SymbolTables.SymbolTable.Lookup | src/symbol/SymbolTableImpl.java:55-61 | A local binding wins. With no local binding and no parent the result is empty. With no local binding and a parent, the result is the parent's lookup. The lookup is a function, so it changes nothing. |
| SymbolTables.LookupNoneIffUnbound | src/symbol/SymbolTableImpl.java:55-61 | The lookup finds nothing exactly when no scope on the parent chain binds the name. |
| SymbolTables.SymbolTable.Insert | src/symbol/SymbolTableImpl.java:70-73 | The name is bound to the symbol, replacing any earlier binding, and every other binding stays. Key order grows only for a new name. The offset grows by exactly `CalculateSize`, even on an overwrite. |
| SymbolTables.SymbolTable.InsertFunction | src/symbol/SymbolTableImpl.java:109-115 | The mangled key is bound to a new "function" symbol at the current offset, with the return type and the parameters in order. That symbol is appended to the name's overload list, and the offset is unchanged. |
| SymbolTables.SymbolTable.InsertStruct | src/symbol/SymbolTableImpl.java:139-142 | The name is bound to a new "struct" symbol at the current offset, and the offset is unchanged. |
| SymbolTableStacks.SymbolTableStack.constructor | src/symbol/SymbolTableStackImpl.java:19-21 | A new stack is empty. |
| SymbolTableStacks.SymbolTableStack.Push | src/symbol/SymbolTableStackImpl.java:29-31 | The table becomes the new top above the unchanged earlier frames. |
| SymbolTableStacks.SymbolTableStack.Pop | src/symbol/SymbolTableStackImpl.java:39-43 | On an empty stack, returns null and leaves the stack empty. Otherwise returns the top and leaves the frames below it. |
| SymbolTableStacks.SymbolTableStack.Peek | src/symbol/SymbolTableStackImpl.java:52-56 | Empty exactly on an empty stack, otherwise the top frame. |
| SymbolTableStacks.SymbolTableStack.Base | src/symbol/SymbolTableStackImpl.java:65-69 | Empty exactly on an empty stack, otherwise the first frame pushed. |
| SymbolTableStacks.SymbolTableStack.Lookup | src/symbol/SymbolTableStackImpl.java:81-96 | Empty on an empty stack. The top wins whenever its lookup finds the name, even if the bottom also has it. Otherwise the bottom wins if it finds the name, else the result is empty. Its reads clause covers only the top and bottom frames and their parent chains. |
| SymbolTableStacks.LookupIgnoresMiddleFrames | src/symbol/SymbolTableStackImpl.java:81-96 | Any two non-empty stacks with the same bottom and the same top give the same lookup, whatever lies between and however many frames each holds. |
| TypeRecords.ToShort | src/type/TypeImpl.java:15-17 | The `(short)` cast returns its argument exactly when it is in [-32768, 32767], and always agrees with it modulo 2^16. |
| TypeTables.BaseSize | src/type/TypeTableImpl.java:169-176 | 4 exactly for the names "int" and "float", and 0 for every other name. |
| TypeTables.DimsSuffix | src/type/TypeTableImpl.java:261-265 | A non-empty dimension list gives a suffix ending in ']'. |
| TypeTables.ComposedNameHasNoBaseSize | src/type/TypeTableImpl.java:254-268 | A composed multi-dimensional array name is longer than its base and has base size 0. |
| TypeTables.FirstNamed | src/type/TypeTableImpl.java:238-244 | The result is -1 or an occupied slot carrying the name, and no earlier slot carries it. |
| TypeTables.FirstFree | src/type/TypeTableImpl.java:194-197 | The lowest empty slot of the range, or its end when every slot in it is occupied. |
| TypeTables.FindSpecFails | src/type/TypeTableImpl.java:232-245 | The lookup fails exactly when the name is neither indexed nor the name of any occupied slot. |
| TypeTables.AddTypeIdempotent | src/type/TypeTableImpl.java:134-145 | A second identical `addType` returns the same id and changes neither the slots nor the index. |
| TypeTables.ComposeArray | src/type/TypeTableImpl.java:260-265 | The loop builds the base name followed by "[d]" for each dimension in order, and the product of the dimensions. |
| TypeTables.LayOutMembers | src/type/TypeTableImpl.java:289-298 | A fresh parentless member table binds each field, in order, to a new "Miembro" symbol at the sum of the sizes of the fields before it. The returned offset is the sum over all fields. |
| TypeTables.PlaceMember | src/type/TypeTableImpl.java:294-298 | One field goes in at the table's running offset, and the earlier members are kept. |
| TypeTables.TypeTable.constructor | src/type/TypeTableImpl.java:26-30 | A new table is in the initial state `IsFresh`. |
| TypeTables.TypeTable.InitializeBasicTypes | src/type/TypeTableImpl.java:35-47 | Produces 9 slots: 0 is `int` and 1 is `float` (items 1, size 4, no base, no members), 2 to 8 are empty, and the index is exactly {int: 0, float: 1}. |
| TypeTables.TypeTable.Reset | src/type/TypeTableImpl.java:327-331 | Returns the table to the initial state `IsFresh`. |
| Scenarios.FreshTablesAgree | src/type/TypeTableImpl.java:327-331 | Any two tables in the initial state agree slot for slot, so reset is idempotent and equals fresh construction. |
| TypeTables.TypeTable.GetTam | src/type/TypeTableImpl.java:56-59 | 0 outside the slot range, otherwise the slot's byte size. The slot must be occupied. |
| TypeTables.TypeTable.GetItems | src/type/TypeTableImpl.java:68-71 | 0 outside the slot range, otherwise the slot's item count. |
| TypeTables.TypeTable.GetName | src/type/TypeTableImpl.java:80-83 | "" outside the slot range, otherwise the slot's name. |
| TypeTables.TypeTable.GetParenId | src/type/TypeTableImpl.java:92-95 | -1 outside the slot range, otherwise the slot's base id. |
| TypeTables.TypeTable.GetParentStruct | src/type/TypeTableImpl.java:104-107 | null outside the slot range, otherwise the slot's member table. |
| TypeTables.TypeTable.GetType | src/type/TypeTableImpl.java:117-122 | Present exactly for an occupied in-range slot, and then that slot's record. |
| TypeTables.TypeTable.GetTypeSize | src/type/TypeTableImpl.java:317-321 | Always equals `GetTam`. |
| TypeTables.TypeTable.AddType | src/type/TypeTableImpl.java:134-145 | An indexed name returns its id and changes nothing. Otherwise one slot is appended at the old slot count, with the truncated items, the truncated `BaseSize(name) * items` and the given base, and the name is indexed there. |
| TypeTables.TypeTable.AddTypeWithTable | src/type/TypeTableImpl.java:156-160 | Always appends a slot with items 1, size 0, no base and the given member table, and leaves the index unchanged. |
| TypeTables.TypeTable.CreateRegisterType | src/type/TypeTableImpl.java:219-221 | Same effect as `AddTypeWithTable`. |
| Scenarios.RegisterTwice | src/type/TypeTableImpl.java:156-160 | Two registrations under one name give two distinct ids with equal records. |
| TypeTables.TypeTable.FindTypeByName | src/type/TypeTableImpl.java:232-245 | Returns the indexed id if there is one. Otherwise returns the lowest occupied slot with the name and caches it in the index, or -1 with nothing changed. The slots never change. |
| TypeTables.TypeTable.CreateArrayType | src/type/TypeTableImpl.java:185-210 | -1 with nothing changed for an unknown base. The existing id if `base[n]` is indexed. Otherwise `base[n]` is stored at the lowest empty slot in 4 to 7, or at 8 when those are full. It gets items n, size getTam(base)*n (both truncated) and the base's id, and the name is indexed. |
| Scenarios.SlotEightOverwrite | src/type/TypeTableImpl.java:194-209 | With slots 4 to 8 occupied, a new array lands on slot 8, and an index entry then names a slot that carries another name. |
| TypeTables.TypeTable.CreateMultiDimArrayType | src/type/TypeTableImpl.java:254-268 | The base is found or added with one item. The result is then `addType(base + "[d]"..., product of dims, base id)`. For non-empty dims the new type has byte size 0 and is appended. |
| Scenarios.MultiDimTwice | src/type/TypeTableImpl.java:254-268 | A repeated identical multi-dimensional request returns the same id. |
| Scenarios.Matrix | src/type/TypeTableImpl.java:254-268 | On a fresh table `int[3][4]` gets id 9, items 12, size 0 and base `int`. |
| TypeTables.TypeTable.PlaceAt | src/type/TypeTableImpl.java:302-305 | Pads with empty slots up to the id, then stores the record there. |
| TypeTables.TypeTable.CreateStructType | src/type/TypeTableImpl.java:277-309 | An indexed name returns its id, ignores the new fields and changes nothing. Otherwise the struct goes to the lowest empty slot from 8 on, or is appended. Its member table is laid out field by field at cumulative offsets, its size is the truncated total, the member table's offset equals that total, and the name is indexed. |
| Scenarios.Point | src/type/TypeTableImpl.java:277-309 | On a fresh table, `Point { int x; float y; }` takes slot 8 with members at 0 and 4 and size 8. |
| Scenarios.InsertAll | src/symbol/SymbolTableImpl.java:70-73 | After a run of inserts every name is bound, and the offset has grown by the sum of their sizes. |
| Scenarios.SizesSumNonNegative | src/symbol/SymbolTableImpl.java:70-73 | With no negative type size, that sum is non-negative, so the offset never decreases. |
| Scenarios.PushThenPop | src/symbol/SymbolTableStackImpl.java:29-43 | A pop right after a push returns the pushed table and restores the earlier stack. |
| Scenarios.PushKeepsBase | src/symbol/SymbolTableStackImpl.java:65-69 | Pushing onto a non-empty stack leaves the base unchanged and makes the pushed table the top. |
| Scenarios.Shadowing | src/symbol/SymbolTableStackImpl.java:81-96 | A local binding shadows a global one while its scope is on top, and the global one resolves again after the pop. |

## Left out

- src/main/Main.java, src/util/TablePrinter.java, src/util/Colors.java and src/util/InputReader.java are console, file and display code. They are not part of this model, and neither is Main's `getTypeId`.
- src/type/TypeTable.java, src/symbol/SymbolTable.java, src/symbol/SymbolTableStack.java and src/type/Type.java only declare signatures. Their methods are those of the implementing classes here.
- The Java scope's reference to the type table: `SymbolTable.Insert` takes the type table's size lookup as an argument `tam` instead. This avoids a reference cycle between a struct's member table and the type table that owns it. `CreateStructType` passes a snapshot of the slots, which do not change while the members are inserted.
- The two Java scope constructors are one constructor. The one-argument Java form is `new SymbolTable(null)`.
- The plain getters (`getSymbols`, `getCurrentOffset`, `getDir`, `getType`, `getCat`, `getArgs` and the `TypeImpl` getters) are field reads of the records here.
- Null-pointer faults on an empty in-range slot are preconditions (`Readable`) rather than modelled exceptions.
- TypeTables.TypeTable.CreateArrayType: the padding loop before the store is not modelled. The table always has more than 8 slots and the id is at most 8, so that loop never runs.
- SymbolTables.SymbolTable.Insert: the offset is an unbounded integer. Java's 32-bit wrap-around of `currentOffset` is not modelled.
- TypeTables.TypeTable.AddType: `BaseSize(name) * items` is computed on unbounded integers. Java computes it in 32 bits before the `short` cast, with the same low 16 bits, so the stored value agrees.
- TypeTables.TypeTable.CreateMultiDimArrayType: the product of the dimensions is unbounded. Java's intermediate `int` overflow, which the `short` cast then truncates, agrees modulo 2^16 with the value stored.
- SymbolTableStacks.SymbolTableStack.Push: takes a non-null table, while the Java `push` accepts `null`. No caller in src/main/Main.java pushes `null`. Lines 48 and 124 push the global scope created just before. Lines 194 and 470 push a function scope created with `new`.
- The Java container classes (`Stack`, `HashMap`, `LinkedHashMap`) are sequences and maps. A scope's key order is kept in its own sequence.
- The overload lists (`symbolsByName`) are kept and updated, but nothing reads them, as in the source.
