# Snow verification

Snow is a small game engine in C that carries its own copy of Lua 5.2.0. This project models the
algorithms of both that are hardest to get right, in the form the C code gives them (objects that
are updated in place, loops over linked structures), and proves what they are for:

- **The incremental garbage collector** (`lgc.c`): objects, colours, gray lists and sweep positions
  as one object that the collector and the program take turns to change. Nothing that the program
  can reach is ever freed, over every interleaving; a full collection leaves exactly what is
  reachable or fixed; and what the program stores it loads again. Files `gc_*.dfy`; the laws of
  fields and commands are in `gc_fields.dfy`.
- **The expression compiler and the virtual machine** (`lcode.c`, `lparser.c`, `lvm.c`): the
  one-pass generator with delayed registers and with jump lists threaded through the code. The code
  of an expression computes the value of its tree. Files `lua_*.dfy`: the functions of `LuaCodegen`
  say what the generator does to its state, the `LuaCode*` modules prove what such code means, the
  `LuaJump*` modules that the lists are chains, and `LuaFuncState`, `LuaFuncExprs`, `LuaFuncOps`,
  `LuaFuncBinary`, `LuaSubexpr` and `LuaVM` are the imperative code, which is proved to do the same.
  `LuaPrecedence` ties the parser to the manual's list of precedences, `LuaAccepts` says which
  expressions are compiled at all, `LuaCodeEncodes` that their code fits the instruction format, and
  `LuaCodeShort` what needs no code.
- **Tables** (`ltable.c`): array part and chained scatter table with Brent's variation; they refine
  a finite map through every rehash. Files `table_*.dfy`.
- **The red-black map** of the engine (`structs/map.c`). Files `map_*.dfy`.
- **The pool allocator** of the engine (`memory/memory_pool.c`). Files `pool_*.dfy`.
- **The pattern matcher** (`lstrlib.c`), **the sort** (`ltablib.c`), **open upvalues** (`lfunc.c`),
  **quoting and the lexer's strings** (`lstrlib.c`, `llex.c`), **precompiled chunks** (`ldump.c`,
  `lundump.c`, `lzio.c`) and **string interning** (`lstring.c`). Files `match_*.dfy`, `sort_*.dfy`,
  `upval_*.dfy`, `quote_*.dfy`, `chunk_*.dfy`, `string_intern.dfy`. `MatchClasses`, `MatchWritten`,
  `QuoteEscapes` and `ChunkHeader` state what the manual and the format say of single characters,
  escapes and bytes.

`dafny verify dfyconfig.toml` checks the whole project.

## Model

| member | source | states |
|---|---|---|
| GcInvariant.ReachableIsAlive | src/lua/lgc.c:687-725 | Under the collector's invariant every object that can be reached from the roots exists and fails the test by which the sweep picks what it frees |
| GcInvariant.CollectsKeepsReachable | src/lua/lgc.c:946-1005 | A step that frees only dead objects, and of the others changes at most cleared table entries and unused stack slots, frees nothing reachable and leaves the set of reachable objects the same |
| GcInvariant.CollectsSpares | src/lua/lgc.c:946-1005 | Such a step also keeps the fixed objects, the bodies of the survivors and the roots: the relation that whole runs of steps are proved to keep |
| GcCollector.GlobalState.ReallyMarkObject | src/lua/lgc.c:248-290 | Marking a white object makes it non-white and keeps the marking invariant, whatever chain of userdata and closed upvalues hangs on it; only colours change, and listable objects come to the front of the gray list |
| GcCollector.GlobalState.TraverseTable | src/lua/lgc.c:411-453 | After the visit of a table every object it mentions is marked; entries without a value have lost their collectable key, and nothing else in the heap has changed but colours |
| GcCollector.GlobalState.RemoveEntry | src/lua/lgc.c:112-116 | An entry without a value no longer refers to its key; the other entries and objects stay |
| GcCollector.GlobalState.TraverseStack | src/lua/lgc.c:490-502 | All used stack slots are marked; in the atomic phase the unused part is cleared, so that afterwards every slot of the whole stack is marked |
| GcCollector.GlobalState.PropagateMark | src/lua/lgc.c:510-540 | One gray object is visited: the tri-colour invariant holds again, threads go back to grayagain, and the number of white and gray objects gets smaller, so that propagation ends |
| GcCollector.GlobalState.MarkRoot | src/lua/lgc.c:332-339 | A cycle begins with the main thread and the roots marked and with the marking invariant established |
| GcCollector.GlobalState.RetraverseGrays | src/lua/lgc.c:559-568 | After the atomic revisit no gray object is left, including those that barriers had put on grayagain |
| GcCollector.GlobalState.AtomicStep | src/lua/lgc.c:910-943 | No marked object refers to a white one, stacks included; the roots are marked, and the current white has been flipped |
| GcCollector.GlobalState.SweepList | src/lua/lgc.c:687-725 | Of the cells swept exactly the dead ones are unlinked and freed, the others become the current white; the rest of the list, the new position and the rest of the heap are given exactly |
| GcCollector.GlobalState.SweepSomeCells | src/lua/lgc.c:978-993 | A step of the sweep visits 40 cells, or as many as are left |
| GcCollector.GlobalState.SingleStep | src/lua/lgc.c:946-1005 | In every phase a step keeps the invariant, frees only dead objects, and makes progress towards the pause, which it leaves at once |
| GcCollector.GlobalState.RunUntilPause | src/lua/lgc.c:1012-1016 | From every state the steps reach the pause, and nothing reachable is lost on the way |
| GcCollector.GlobalState.FullGC | src/lua/lgc.c:1073-1099 | From every valid state it ends paused, and an object is in the heap if and only if it was reachable or is fixed |
| GcCollector.GlobalState.BarrierBack | src/lua/lgc.c:160-166 | A black table becomes gray and goes to the front of grayagain; all else stays |
| GcCollector.GlobalState.Barrier | src/lua/lgc.c:140-151 | While marking, the white object is marked and the marking invariant kept; while sweeping, the black object becomes white and nothing else changes |
| GcCollector.GlobalState.SetField | src/lua/lgc.c:140-166 | Writing a reference into any object but a stack, followed by the barrier of its kind, keeps the whole invariant in every phase and changes this one body |
| GcCollector.GlobalState.SetStack | src/lua/lgc.c:510-540 | Writing into a stack needs no barrier: the invariant holds all the same |
| GcCollector.GlobalState.NewObj | src/lua/lgc.c:217-228 | A new object enters in the current white and keeps the invariant in every phase, a sweep in progress included |
| GcCollector.GlobalState.NewStr | src/lua/lstring.c:53-73 | The same for a string, in any list of the string table |
| GcCollector.GlobalState.FindStr | src/lua/lstring.c:76-96 | A string that is found again while it is dead and not yet swept is alive afterwards |
| GcCollector.GlobalState.ResizeStrings | src/lua/lstring.c:22-50 | A resize first runs the collector out of the sweep of the strings; it then has the wanted number of lists, each string in the list of its hash, and nothing reachable was lost |
| GcCollector.GlobalState.Rehash | src/lua/lstring.c:22-50 | The loops move every string to the list of its hash for the new size: none is lost, none is there twice |
| GcStrings.VanishingEmpty | src/lua/lstring.c:44-47 | When the table shrinks, every list in the slice that is cut off is empty by then |
| GcCollector.GlobalState.constructor | src/lua/lgc.c:332-339 | The state that lua_newstate sets up is valid and paused, and the main thread and the globals are reachable |
| GcCollector.GlobalState.Execute | src/lua/lgc.c:946-1005 | One command of the program or the collector does what the laws of GcFields say of it, keeps the invariant, and loses nothing that was reachable before it |
| GcCollector.GlobalState.Run | src/lua/lgc.c:910-1005 | Every sequence of allocations, loads, stores, stack and root changes, collector steps, full collections and string-table resizes: the invariant holds after each command, each command is what separates two states of the trace (GcFields says what that means for registers and fields), and no reachable object is ever freed |
| GcStores.StoreThenLoad | src/lua/lvm.c:128-163 | What the program stores into a field of an object it loads again, the very object if it is one, and that has not been freed: after any commands that leave the register and such fields alone, collections in any phase among them |
| GcStores.StoreEntryThenLoad | src/lua/ltable.c:397-432 | The same for a new entry of a table, its key and its value |
| GcStores.LeftHolds | src/lua/lgc.c:140-166 | No command that leaves the register and the field alone makes the object hold anything else |
| GcFields.ReadsWritten | src/lua/lvm.c:146-148 | For every kind of object and every field it accepts a value in: what is written is read |
| GcFields.ReadsOthers | src/lua/lvm.c:146-148 | Every other field reads what it did |
| GcFields.ReadsEntry | src/lua/ltable.c:425-431 | A new key has no value, and is read back once it gets one |
| GcFields.WriteRefused | src/lua/lvm.c:128-163 | A write that is not accepted changes nothing, and none makes or takes away a field |
| GcFields.FreshFields | src/lua/lfunc.c:23-48 | A new object has the fields that were asked for, and nothing in them |
| GcFields.ReadsEvolved | src/lua/lgc.c:411-453 | What a collection does to the bodies of objects is not seen by any read, except above the top of a stack |
| GcFields.ReadIsReachable | src/lua/lgc.c:248-290 | What can be read from a reachable object is reachable |
| GcFields.MoveMeans | src/lua/lvm.c:543-545 | A move between registers changes the one register to the value of the other, and nothing else |
| GcFields.LoadMeans | src/lua/lvm.c:102-124 | A load changes the one register to what the field of the object holds |
| GcFields.NewMeans | src/lua/lgc.c:217-228 | An allocation puts a new object of the shape asked for into the one register; all other objects stay |
| GcFields.NewStringMeans | src/lua/lstring.c:53-73 | The same for a string |
| GcFields.InternMeans | src/lua/lstring.c:76-96 | A string that is found again is the one that the table has there |
| GcFields.StoreMeans | src/lua/lvm.c:146-148 | A store changes the one field of the one object to the value of the register; its other fields and all other objects are what they were |
| GcFields.RootsMean | src/lua/lgc.c:332-339 | Setting the registry, the metatable of a type or the running thread changes that root alone |
| LuaCodeCompile.CompileMeans | src/lua/lcode.c:714-860 | For every expression, with any other jumps pending: the generated code and the descriptor together say where the value of the expression is, in a register, a constant, an instruction yet to be completed or a set of exits, and the registers in use before keep their values |
| LuaCodeCorrect.NextRegCorrect | src/lua/lcode.c:493-498 | The code of an expression, run on the machine, puts its value into the first free register, keeps all registers below, takes exactly one register, and raises an error exactly if evaluating the tree does |
| LuaAccepts.Accepted | src/lua/lcode.c:80-87 | In a function with at most 200 locals every expression of at most 10000 tokens that is not nested too deeply for 250 registers is compiled without an error |
| LuaCodeFits.CompileFits | src/lua/lcode.c:261-274 | Where that comes from: at most 12 instructions for each token and a register for each level of nesting, so that no jump is longer than 131071 and no register above 249 |
| LuaCodeEncodes.CompileEncodes | src/lua/lopcodes.h:38-76 | Whatever is compiled without an error can be encoded: each operand fits into its 8, 9, 18 or 26 bits |
| LuaAccepts.FinishedEncodes | src/lua/lopcodes.h:38-76 | The same for the finished code of an expression in a new function, its last jumps patched |
| LuaCodeShort.NoCode | src/lua/lcode.c:714-722 | A constant expression (literals but for strings, not, unary minus, arithmetic but for a division or modulo by zero) is its value: no instruction, no constant, no register |
| LuaCodeShort.OneInstruction | src/lua/lcode.c:529-556 | Other arithmetic on locals and constants is one instruction that names them, as long as constants have indices up to 255 |
| LuaCodeShort.OneLoad | src/lua/lcode.c:250-258 | A number or string is loaded by one instruction, as long as its index is at most 262143 |
| LuaCodeCorrect.AssignCorrect | src/lua/lcode.c:559-583 | Assigning an expression to a local variable changes that variable to the value and no other register, and leaves no register taken |
| LuaCodeLists.ListCorrect | src/lua/lparser.c:815-825 | The code of a list of expressions leaves their values in consecutive registers, evaluated from left to right, or ends in the error of the first one that has none |
| LuaJumpCompile.CompileTidy | src/lua/lcode.c:80-209 | While an expression is compiled every list of pending jumps is a finite chain through the offsets of the jumps, no two lists share a jump, and the jumps of anything else are untouched |
| LuaJumpLists.FollowLinks | src/lua/lcode.c:100-106 | Following the offsets visits the members of a list in order and stops behind the last: no member is linked to itself, which is how the end is encoded |
| LuaJumpLists.ConcatLinks | src/lua/lcode.c:198-209 | Concatenating two disjoint chains gives one chain of both, and changes no jump outside the first |
| LuaFuncState.FuncState.Concat | src/lua/lcode.c:198-209 | The walk to the end of the first list links exactly the second list there, as ConcatLinks and CompileMeans assume of it |
| LuaFuncState.FuncState.PatchListAux | src/lua/lcode.c:150-160 | Following the chain while its links are overwritten patches each member once: those that produce a value to one target, the others to the other |
| LuaFuncState.FuncState.DischargeJpc | src/lua/lcode.c:163-166 | The jumps that wait for the next instruction are patched to it and wait no more |
| LuaFuncState.FuncState.Code | src/lua/lcode.c:212-224 | An instruction is emitted behind the waiting jumps, and the invariant that ties heads, chains and constants together is kept |
| LuaFuncState.FuncState.LoadNil | src/lua/lcode.c:37-56 | A LOADNIL is merged with the one before exactly where that is no jump target and the ranges connect; the LuaCode lemmas prove the merge harmless |
| LuaFuncState.FuncState.AddK | src/lua/lcode.c:291-316 | A constant is entered once: the cached index is always the first place of that value in the vector |
| LuaFuncState.FuncState.constructor | src/lua/lparser.c:515-544 | A new function with its parameters in the first registers satisfies what code generation needs to begin |
| LuaFuncExprs.DischargeToReg | src/lua/lcode.c:422-458 | Does to code and descriptor what CompileMeans assumes of discharge2reg, for every kind of descriptor |
| LuaFuncExprs.Exp2Reg | src/lua/lcode.c:469-490 | The same for exp2reg: the two extra loads appear exactly if some exit comes without a value, and all exits are patched |
| LuaFuncOps.Exp2NextReg | src/lua/lcode.c:493-498 | The same, with the register discipline and the chains kept and no list left pending |
| LuaFuncOps.Exp2RK | src/lua/lcode.c:529-556 | The operand is a constant index if it fits, else a register, and is the descriptor's own operand |
| LuaFuncOps.JumpOnCond | src/lua/lcode.c:607-619 | A trailing NOT is taken back and the test inverted, else a TESTSET is emitted; the result is the jump taken on the condition |
| LuaFuncOps.GoIfTrue | src/lua/lcode.c:622-643 | Falls through when the value is true; the list of exits when true has been patched to here |
| LuaFuncOps.GoIfFalse | src/lua/lcode.c:646-666 | Falls through when the value is false; the list of exits when false has been patched to here |
| LuaFuncOps.CodeNot | src/lua/lcode.c:669-701 | Negation by folding, inverting or a NOT, with both lists exchanged and stripped of their values |
| LuaFuncBinary.ConstFolding | src/lua/lcode.c:714-722 | Folds exactly two numerals without exits, never a division or modulo by zero |
| LuaFuncBinary.CodeArith | src/lua/lcode.c:725-744 | An arithmetic operator with its operands' registers given back in the right order |
| LuaFuncBinary.CodeComp | src/lua/lcode.c:747-760 | A comparison, exchanged for the operators that have no instruction, and its jump |
| LuaFuncBinary.Infix | src/lua/lcode.c:787-811 | After the left operand the descriptor is ready for the right one, and its pending exits are kept apart from it |
| LuaFuncBinary.Posfix | src/lua/lcode.c:814-860 | After the right operand the operator is coded as CompileMeans assumes of it, lists of exits joined for 'and' and 'or' |
| LuaParse.SubexprSound | src/lua/lparser.c:1022-1069 | What precedence climbing finds is a tree whose tokens stand there and whose operators bind as the priority table says |
| LuaParse.SubexprComplete | src/lua/lparser.c:1022-1069 | Every such tree within the nesting limit is found |
| LuaParse.SubexprDecides | src/lua/lparser.c:1022-1069 | Together: a tree is the result if and only if it is one that the grammar with its priorities allows at this place; LuaPrecedence says which that is without the priorities |
| LuaPrecedence.ManualDecides | src/lua/lparser.c:1022-1069 | The parser finds a tree for a whole expression if and only if the manual's list of precedences (section 3.4.7), written as a grammar of levels, gives it |
| LuaPrecedence.GroupedStands | src/lua/lparser.c:1024-1034 | The table of left and right priorities groups exactly as those levels do |
| LuaPrecedence.TwoOperators | src/lua/lparser.c:1024-1034 | x o1 y o2 z: the second operator takes y if and only if it is on a higher level or both are ^ |
| LuaPrecedence.UnaryFirst | src/lua/lparser.c:1036 | A unary operator in front of x o y takes all of it if and only if o is ^ |
| LuaParse.Unambiguous | src/lua/lparser.c:1022-1034 | The priority table makes the grammar unambiguous: one tree, one end |
| LuaParse.ParsePrinted | src/lua/lparser.c:1042-1069 | Printing a tree with the parentheses its priorities need and parsing it gives the tree back |
| LuaSubexpr.Subexpr | src/lua/lparser.c:1042-1069 | The recursive loop that reads operators while it generates code accepts exactly what the grammar allows, and leaves the state and descriptor that compiling the tree gives |
| LuaSubexpr.SimpleExp | src/lua/lparser.c:942-989 | The same for literals, local variables and expressions in parentheses |
| LuaVM.CallInfo.Execute | src/lua/lvm.c:520-700 | The interpreter loop stops with the registers, the error or the illegal jump that the definition of runs gives |
| LuaVM.ExprToNextReg | src/lua/lparser.c:815-825 | Parsing and exp2nextreg accept exactly the expressions whose code fits, and leave the state NextRegCorrect speaks of |
| LuaVM.Evaluate | src/lua/lvm.c:520-700 | From tokens to the result: the parsed, compiled and executed expression yields the value of its tree in the first free register, all registers below unchanged, or raises an error exactly where the tree has no value; LuaAccepts.NextRegAccepted says which expressions are not rejected |
| LuaVM.Interpret | src/lua/lparser.c:515-544 | The same from nothing but tokens, in a new function |
| LuaAccepts.InterpretTree | src/lua/lparser.c:515-544 | From the text of a tree to its value: the text of every tree that the manual's precedences allow, of at most 10000 tokens and 200 levels, is not rejected and gives the value of this tree, or an error exactly if it has none |
| LuaAccepts.NextRegAccepted | src/lua/lcode.c:80-87 | An expression is accepted wherever there are 12 instructions left for each of its tokens and a register for each of its levels |
| TableNodes.ChainIsWalk | src/lua/ltable.c:472-494 | A node is on a key's chain if and only if following the links from the main position gets there, within as many steps as there are nodes: chains have no cycles |
| TableNodes.PlaceHere | src/lua/ltable.c:397-432 | A key that enters its main position, empty or holding a removed entry, keeps every chain as it must be |
| TableNodes.InsertBehind | src/lua/ltable.c:397-432 | The same for a key that goes to a free node behind a colliding one that is at home |
| TableNodes.MoveAway | src/lua/ltable.c:397-432 | The same where the colliding node is not at home and moves to the free node |
| TableHash.Table.FindNode | src/lua/ltable.c:472-494 | The search of a chain finds the node of the key if and only if there is one |
| TableHash.Table.Get | src/lua/ltable.c:438-494 | Finds the cell of a key in the array or the hash part, with the value the table has for it |
| TableHash.Table.GetFreePos | src/lua/ltable.c:379-386 | Returns a node that was never used and behind which all have been, or none exactly when no such node is left |
| TableHash.Table.NewKey | src/lua/ltable.c:397-432 | Enters an absent key without changing any value; after at most one rehash there is room, and the mutual recursion with rehash and set ends |
| TableHash.Table.SetCell | src/lua/ltable.c:501-506 | Gives the cell of the key and changes no value; a nil or NaN key is refused, and nothing else is |
| TableHash.Table.Set | src/lua/ltable.c:501-506 | Afterwards this key has the new value and every other key the value it had |
| TableHash.Table.Resize | src/lua/ltable.c:296-326 | To any sizes that all keys fit in: every value stays, and no re-insertion rehashes again |
| TableHash.Table.Rehash | src/lua/ltable.c:335-351 | Every value stays, the array part gets the optimal size for all keys and the new one, and there is a free place for that |
| TableHash.Table.NumUseHash | src/lua/ltable.c:246-259 | Counts the keys of the hash part, and its array candidates slice by slice |
| TableHash.Table.RemoveEntry | src/lua/lgc.c:112-116 | The collector's removal of a dead key changes no value |
| TableHash.Table.Run | src/lua/ltable.c:379-520 | Any sequence of assignments, removals and lookups: every lookup returns what the finite map of the assignments so far holds, and the table ends as that map |
| TableHash.Table.GetN | src/lua/ltable.c:551-567 | The length is a border: 0 or an index with a value, and the next one has none |
| TableHash.Table.UnboundSearch | src/lua/ltable.c:523-544 | The doubling and the binary search beyond the array part end at a border, and so does the linear search that replaces them near the largest integer |
| TableSizes.CeilLog2 | src/lua/lobject.c:55-70 | The loop over the table of logarithms gives the least power of two that is not smaller |
| TableSizes.CeilLog2Unique | src/lua/lobject.c:55-70 | There is only one |
| TableSizes.CountInt | src/lua/ltable.c:210-218 | A key is counted in its slice if and only if it can be an array index |
| TableSizes.NumUseArray | src/lua/ltable.c:221-243 | The nested loops count the array part's keys, slice by slice |
| TableSizes.ComputeSizes | src/lua/ltable.c:188-207 | The size is 0 or the largest power of two n with more than n/2 of 1..n in use, with their exact number |
| TableSizes.OptimalUnique | src/lua/ltable.c:188-207 | That describes one size only |
| TableRoom.RoomLeft | src/lua/ltable.c:335-351 | The counts of rehash leave exactly the room in the hash part that the remaining keys and the new one need |
| TableRoom.SizeChosen | src/lua/ltable.c:188-207 | Said of the keys alone: the size of the array part is the largest of 2^0 to 2^30 such that more than half of the integers up to it are keys, or 0 |
| TableNext.FindMatch | src/lua/ltable.c:136-158 | Finds the first node on the chain that holds the key or what is left of it after it has died |
| TableNext.FindIndex | src/lua/ltable.c:136-158 | Finds the place of a traversal's key if and only if it has one, dead keys included |
| TableNext.TableNext | src/lua/ltable.c:161-178 | Returns the first entry with a value behind that place, or the end, and fails exactly for a key without a place |
| TableNext.StaysFirst | src/lua/ltable.c:136-158 | Clearing entries and removing dead keys does not move the place of a traversal |
| TableNext.Traverse | src/lua/ltable.c:161-178 | A traversal during which fields are cleared or changed and the collector removes dead keys never fails, visits each entry at most once with the value it has at its turn, and leaves out only what was cleared before |
| RedBlack.RedBlackMap.constructor | src/structs/map.c:248-264 | A new map is empty |
| RedBlack.RedBlackMap.RotateLeft | src/structs/map.c:80-101 | The pointer assignments make exactly the rotated tree, the new root included |
| RedBlack.RedBlackMap.RotateRight | src/structs/map.c:103-124 | The mirror image |
| RedBlack.RedBlackMap.Find | src/structs/map.c:231-246 | Finds the node with the key if and only if the map has it, after at most twice the logarithm of size + 1 comparisons |
| RedBlack.RedBlackMap.Get | src/structs/map.c:430-438 | The value of the finite map, or none |
| RedBlack.RedBlackMap.Insert | src/structs/map.c:327-403 | The map becomes the old one with this key set; search order, parent links, colours, heights, size and sentinel are kept, and after a new key the root is black |
| RedBlack.RedBlackMap.RepairInsertion | src/structs/map.c:369-397 | From two red nodes in a row the loop restores the colours and heights, and changes no entry |
| RedBlack.RedBlackMap.Remove | src/structs/map.c:405-423 | The map becomes the old one without this key and tells whether it was there; the root is red afterwards if and only if the key was at a root with one child |
| RedBlack.RedBlackMap.RemoveNode | src/structs/map.c:149-229 | The same for a node: with two children its entry is replaced by that of the largest node on its left, which goes in its stead |
| RedBlack.RedBlackMap.RepairRemoval | src/structs/map.c:185-219 | From a subtree that is one black node short the loop restores the heights, and changes no entry |
| RedBlack.RedBlackMap.Wellformed | src/structs/map.c:149-403 | At all times the size is the number of entries, the sentinel is as it was made, and the height is at most twice the logarithm of size + 1 |
| MapHeight.HeightIsLogarithmic | src/structs/map.c:327-403 | Equal black heights and no two red nodes in a row bound the height by twice the logarithm of the number of nodes plus one |
| MapRoot.OnlyKidRed | src/structs/map.c:174-177 | An only child is a red leaf, so that removing its parent without any repair keeps all heights |
| PoolBlocks.MaskClears | src/memory/memory_pool.c:39 | With the precedence the macro has, the mask clears bits 0, 1 and 3 and not 2 |
| PoolBlocks.FitsExactly | src/memory/memory_pool.c:39 | For headers of every size: header, payload and guard fit into the size computed if and only if the sum in the macro does not wrap around |
| PoolBlocks.NeededFits | src/memory/memory_pool.c:39 | The same for this build's header, with the waste bounded |
| PoolBlocks.WrappedRequest | src/memory/memory_pool.c:39 | Every request for which it wraps around is met by the smallest block there is |
| PoolBlocks.LargestRequest | src/memory/memory_pool.c:39 | One such request: SIZE_MAX bytes, met by a block with room for 20 |
| PoolBlocks.Disjoint | src/memory/memory_pool.c:253-309 | Blocks do not overlap, lie within the buffer and have the smallest size at least |
| PoolBlocks.Conserved | src/memory/memory_pool.c:253-309 | The bytes in used and in free blocks add up to the size of the pool |
| PoolAlloc.Pool.SetUp | src/memory/memory_pool.c:106-145 | A pool of sufficient size begins as one aligned free block |
| PoolAlloc.Pool.Malloc | src/memory/memory_pool.c:315-421 | Takes the first free block that fits, in ring order from the next unused one, split if it is much larger; all other live blocks stay; it fails only if no free block is large enough (or for tag 0, or before set-up) |
| PoolAlloc.Pool.Search | src/memory/memory_pool.c:351-365 | The loop that stops before the block in front of the next unused one misses nothing, because that block is always in use |
| PoolAlloc.Pool.SplitBlock | src/memory/memory_pool.c:253-281 | The assignments make exactly the split ring |
| PoolAlloc.Pool.MergeBlocks | src/memory/memory_pool.c:284-309 | The assignments make exactly the merged ring |
| PoolAlloc.Pool.Free | src/memory/memory_pool.c:574-647 | Exactly this block is no longer live, coalesced on both sides, and the next search begins at the coalesced block; freeing nothing, the head or a free block changes nothing |
| PoolAlloc.Pool.Shrink | src/memory/memory_pool.c:445-505 | A block that is large enough stays where it is, with the size the code's comparisons give it; the rest joins a free block behind it |
| PoolAlloc.ShrinksExactly | src/memory/memory_pool.c:479-489 | Exactly which surpluses make a block shrink, given that the 64-bit difference is cut to an int before it is compared |
| MatchPatterns.PreferredMatches | src/lua/lstrlib.c:393-467 | The match the manual prefers (longest for '*', '+' and '?', shortest for '-') is in the language of the pattern |
| MatchPatterns.PreferredUnique | src/lua/lstrlib.c:393-467 | It is the only one |
| MatchPatterns.PreferredThere | src/lua/lstrlib.c:393-467 | Where there is any match there is a preferred one |
| MatchPatterns.LongestThere | src/lua/lstrlib.c:329-341 | Some number of repetitions is the largest after which the rest of the pattern matches |
| MatchPatterns.ShortestThere | src/lua/lstrlib.c:344-354 | Some number is the smallest |
| MatchPatterns.BalancedUnique | src/lua/lstrlib.c:308-326 | At most one stretch from a place on is balanced |
| MatchPatterns.MatchInside | src/lua/lstrlib.c:393-467 | Matches stay within the subject |
| MatchSearch.MatchState.EndOfClass | src/lua/lstrlib.c:228-249 | Finds the end of a class, or that the pattern is malformed |
| MatchSearch.MatchState.MatchBracketClass | src/lua/lstrlib.c:272-292 | Decides membership in a set of characters, ranges and classes, complemented or not |
| MatchSearch.MatchState.SingleMatch | src/lua/lstrlib.c:295-302 | Decides whether a character is in the class that stands there; MatchClasses says what the classes are |
| MatchSearch.MatchState.MatchBalance | src/lua/lstrlib.c:308-326 | Finds the balanced stretch if and only if there is one |
| MatchSearch.MatchState.MaxExpand | src/lua/lstrlib.c:329-341 | Returns the match with the most repetitions after which the rest matches, none if there is no such number |
| MatchSearch.MatchState.MinExpand | src/lua/lstrlib.c:344-354 | The same with the fewest |
| MatchSearch.MatchState.Match | src/lua/lstrlib.c:393-467 | For every well-formed pattern without captures: the result is the preferred match, and NULL if and only if no prefix is in the language; the recursion ends because the pattern gets shorter; MatchWritten says which language a text stands for |
| MatchSearch.FindFrom | src/lua/lstrlib.c:554-580 | The first place from the start on where the pattern matches, or the start only if it is anchored, with the preferred match there |
| MatchWritten.FindWritten | src/lua/lstrlib.c:554-580 | A search for the text of a list of items finds the first place with a match of these items, and the preferred one there |
| MatchWritten.TextRead | src/lua/lstrlib.c:393-467 | Reading the text of items, magic characters escaped, gives the items back: classes, sets, suffixes, balances, frontiers and the anchor at the end |
| MatchClasses.Lower | src/lua/lstrlib.c:252-269 | %l stands for the 26 lower-case letters |
| MatchClasses.Upper | src/lua/lstrlib.c:252-269 | %u for the 26 upper-case letters |
| MatchClasses.Digit | src/lua/lstrlib.c:252-269 | %d for the ten digits |
| MatchClasses.Punctuation | src/lua/lstrlib.c:252-269 | %p for the 32 punctuation characters |
| MatchClasses.Space | src/lua/lstrlib.c:252-269 | %s for the six white-space characters |
| MatchClasses.Related | src/lua/lstrlib.c:252-269 | The other classes are made of these: %a, %w, %g, %x, %c and %z |
| MatchClasses.Complement | src/lua/lstrlib.c:252-269 | An upper-case class letter stands for the complement |
| MatchClasses.Itself | src/lua/lstrlib.c:252-269 | Every other character behind the % stands for itself |
| MatchClasses.Cases | src/lua/lstrlib.c:252-269 | Lowering a letter of %u gives its counterpart in %l, and changes no other character |
| SortTable.Partition | src/lua/ltablib.c:209-231 | The scans stay within the stretch whatever the order function answers; with a strict weak order they divide it around the pivot without an error |
| SortTable.Divide | src/lua/ltablib.c:184-236 | A round sorts up to three elements, or puts a pivot in its place with the others on their sides |
| SortTable.AuxSort | src/lua/ltablib.c:184-245 | A permutation of the stretch for every function, sorted and without an error for every strict weak order, with nested calls at most the logarithm of its length deep |
| SortTable.Sort | src/lua/ltablib.c:247-255 | The table ends as a sorted permutation, and nested calls stay below 40, as the code assumes |
| SortOrder.DepthBound | src/lua/ltablib.c:247-255 | A logarithmic depth bound for a size gives the numeric one |
| UpvalList.LuaState.FindUpval | src/lua/lfunc.c:50-75 | Returns the one upvalue of the slot, creating or resurrecting it; the open list stays strictly descending, and what variables and closures hold does not change |
| UpvalList.LuaState.Unlink | src/lua/lfunc.c:78-82 | Takes an upvalue out of the double list |
| UpvalList.LuaState.Release | src/lua/lfunc.c:92-110 | The first upvalue of the list is freed if it is dead, and else keeps its value for itself |
| UpvalList.LuaState.Close | src/lua/lfunc.c:92-110 | Closes exactly the open upvalues at or above the level, each with the value of its slot; what closures read does not change |
| UpvalList.LuaState.Sweep | src/lua/lgc.c:666-673 | Frees exactly the dead ones among a thread's open upvalues |
| UpvalList.LuaState.MakeClosure | src/lua/lvm.c:392-407 | A new closure captures the cells of its enclosing function's variables and upvalues |
| UpvalList.LuaState.Cached | src/lua/lvm.c:370-383 | Comparing pointers decides whether a closure has captured the very cells that a new one would |
| UpvalList.LuaState.SetUpval | src/lua/lvm.c:581-585 | Assigning to an upvalue changes the one cell it stands for, wherever the value lies |
| UpvalList.LuaState.GetUpval | src/lua/lvm.c:566-569 | Reading an upvalue gives what its cell holds |
| UpvalList.LuaState.Leave | src/lua/lfunc.c:92-110 | When a block ends its variables go, and closures keep what they captured |
| UpvalList.LuaState.Execute | src/lua/lfunc.c:50-110 | Each operation does on the upvalues what it does on one cell per captured variable |
| UpvalList.LuaState.Run | src/lua/lfunc.c:50-110 | So does every sequence of them, garbage collection between them included: all that is read is what the cells would give |
| UpvalLinks.NewLinks | src/lua/lfunc.c:64-74 | The links of a new upvalue put it into its thread's list and behind the head of the double list |
| UpvalLinks.OldLinks | src/lua/lfunc.c:78-82 | The links when one leaves keep both lists whole |
| UpvalRefine.ClosedRefines | src/lua/lfunc.c:101-104 | Copying the value when the variable goes out of scope keeps one cell per upvalue |
| UpvalRefine.NewRefines | src/lua/lfunc.c:64-74 | A new open upvalue is its variable's cell |
| QuoteStrings.ReadsBack | src/lua/lstrlib.c:787-809 | Quoting a string and reading it gives the string, its end and the number of lines, if and only if the locale counts the carriage return as a control character or there is none, and the lexer can count the lines |
| QuoteStrings.NoReturn | src/lua/lstrlib.c:787-809 | Where it does not, no carriage return is ever read back |
| QuoteLexer.AddQuoted | src/lua/lstrlib.c:787-809 | The loop appends the quoted string, escapes chosen by the character that follows |
| QuoteLexer.LexState.ReadString | src/lua/llex.c:329-384 | The loop over the input reads what the definition of string literals says, with every escape and every error; QuoteEscapes says what each of them stands for |
| QuoteEscapes.LetterEscape | src/lua/llex.c:344-350 | A backslash and one of a b t n v f r is the byte 7 to 13 |
| QuoteEscapes.SelfEscape | src/lua/llex.c:354 | A backslash and a backslash or a quote is that character |
| QuoteEscapes.HexEscape | src/lua/llex.c:301-312 | \x and the two hexadecimal digits of a byte, in either case, is that byte |
| QuoteEscapes.NoHexEscape | src/lua/llex.c:301-312 | It is an error unless two such digits are there |
| QuoteEscapes.DecimalEscape | src/lua/llex.c:315-326 | A backslash and one to three decimal digits, as many as there are, is the byte with this number, or an error if it is over 255 |
| QuoteEscapes.BreakEscape | src/lua/llex.c:352-353 | A backslash and any of the four line breaks is one newline |
| QuoteEscapes.ZapEscape | src/lua/llex.c:356-363 | \z stands for nothing and skips the white space behind it |
| QuoteEscapes.OtherEscape | src/lua/llex.c:365-371 | There is no other escape |
| QuoteEscapes.PlainByte | src/lua/llex.c:329-384 | Every other byte stands for itself, but for the delimiter, which ends the string, and line breaks, which are errors |
| QuoteEscapes.TextEnds | src/lua/llex.c:333-335 | A text that ends inside a string is an error |
| QuoteLexer.LexState.ReadDecEsc | src/lua/llex.c:315-326 | Reads up to three digits; an error if and only if the value is over 255 |
| QuoteLexer.LexState.ReadHexaEsc | src/lua/llex.c:301-312 | The value of two hexadecimal digits, or an error if one is missing |
| QuoteLexer.LexState.IncLineNumber | src/lua/llex.c:145-153 | Skips one newline, of one or two characters, and counts it |
| QuoteLexer.LexState.SkipSpaces | src/lua/llex.c:356-363 | The escape \z skips all white space and counts its lines |
| QuoteLexer.QuoteAndRead | src/lua/lstrlib.c:787-809 | Quoting a string and lexing the result returns the string; with an unescaped carriage return it does not |
| ChunkRoundTrip.FunctionFirst | src/lua/lundump.c:166-181 | Loading what was dumped for a function gives the function (without its debug information if stripped) and leaves exactly the bytes behind it, nested functions included |
| ChunkRoundTrip.UndumpDump | src/lua/lundump.c:205-219 | The same for a whole chunk with its header |
| ChunkRoundTrip.FunctionPersists | src/lua/lundump.c:166-181 | What has been loaded from bytes is loaded from every longer sequence, and so is every error but the end of input |
| ChunkRoundTrip.CutShort | src/lua/lundump.c:45-48 | Every proper beginning of a chunk is refused as truncated |
| ChunkHeader.LuaHeader | src/lua/lundump.c:230-244 | The header of a chunk: signature, version 5.2, official format, byte order and sizes of this build, tail |
| ChunkHeader.HeaderRefused | src/lua/lundump.c:189-200 | A header that differs is refused for the first part that does |
| ChunkHeader.HeaderAccepted | src/lua/lundump.c:189-200 | No other header is |
| ChunkHeader.HeaderMissing | src/lua/lundump.c:189-200 | Where there are fewer bytes than a header has, the chunk is refused as truncated |
| ChunkHeader.FunctionBegins | src/lua/ldump.c:138-149 | Where a chunk has the lines, parameters and stack size of its main function |
| ChunkHeader.WordBytes | src/lua/ldump.c:45-48 | The bytes of a word, the lowest first |
| ChunkStream.ZIO.Fill | src/lua/lzio.c:21-33 | Returns the next byte however the reader cuts the stream, or the end if and only if there is nothing left |
| ChunkStream.ZIO.Read | src/lua/lzio.c:46-65 | Returns the next bytes across pieces, and how many are missing at the end |
| ChunkStream.NoneEmpty | src/lua/lzio.c:21-33 | A reader that never returns an empty piece delivers all of them |
| ChunkStream.LoadFunctionFrom | src/lua/lundump.c:86-181 | Loading from the stream gives what loading from its bytes gives, and leaves the stream behind them |
| ChunkStream.UndumpFrom | src/lua/lundump.c:205-219 | The same for a whole chunk |
| ChunkStream.Reload | src/lua/lundump.c:205-219 | However a dumped chunk is cut into pieces, and whatever follows it, the function is loaded again |
| ChunkDump.DumpState.DumpFunctionTo | src/lua/ldump.c:138-149 | The writer gets the function's bytes, or up to the piece that it refuses a beginning of them and nothing afterwards |
| ChunkDump.DumpTo | src/lua/ldump.c:161-172 | Status 0 if and only if the writer took every piece, and then it has the whole chunk; else its answer, and it has a beginning of the chunk |
| StringIntern.LmodIs | src/lua/lobject.h:567-568 | The mask is the remainder, as sizes are powers of two |
| StringIntern.StringTable.NewLStr | src/lua/lstring.c:76-96 | Returns the one live object with these bytes, found, resurrected or new, and keeps all others that are alive |
| StringIntern.StringTable.NewString | src/lua/lstring.c:53-73 | A string that is not there enters the list of its hash, in a table that was doubled if it was full |
| StringIntern.StringTable.Resize | src/lua/lstring.c:22-50 | Relinking the chains in place loses no string and puts each into the chain of its hash for the new size |
| StringIntern.StringTable.RehashChain | src/lua/lstring.c:33-43 | The inner loop moves the strings of a chain that hangs in the air, one after the other |
| StringIntern.StringTable.SweepList | src/lua/lgc.c:687-725 | Exactly the dead strings of a chain are unlinked and freed |
| StringIntern.StringTable.CheckSizes | src/lua/lgc.c:736-744 | The table is halved if and only if it is less than half full, and no string is lost |
| StringIntern.SameIffEqual | src/lua/lstring.c:76-96 | Two strings that are held are the same object if and only if their bytes are equal |
| StringIntern.StringTable.Run | src/lua/lstring.c:22-96 | That holds after any mix of interning, dropping, marking, sweeping, growing and shrinking |

## Findings

Where the code does not do what its comments or its documentation say, or what one would expect of it.

| where | what |
|---|---|
| src/memory/memory_pool.c:39 | The macro adds the guard to the mask, not to the size (`&` binds weaker than `+`), so sizes are multiples of 4 and not of 16. All the same header, payload and guard fit, except for the last 56 sizes below 2^64, where the sum wraps around: such a request gets a 64-byte block (`PoolBlocks.FitsExactly`, `WrappedRequest`, `LargestRequest`) |
| src/lua/lstrlib.c:793-805 | The carriage return is escaped only because `iscntrl` counts it. In a locale where it does not, quoting and reading a string that contains one never gives the string back (`QuoteStrings.ReadsBack`, `NoReturn`) |
| src/structs/map.c:174-177 | Removing a root with one child makes that child the root and leaves it red; the next new key makes it black again, and no other root is red (`RedBlack.RedBlackMap.Remove`, `Insert`) |
| src/memory/memory_pool.c:479-483 | The difference of sizes goes through `abs` of an `int`. A block whose surplus is within a smallest block of a multiple of 2^32, 2^32 itself for one, is left as it is, however large the surplus (`PoolAlloc.ShrinksExactly`) |

## Left out

Collector:

- Weak and ephemeron tables, finalizers, generational mode and the closure cache of prototypes.
- Open upvalues in the collector: `remarkupvals` and `sweepthread` have no counterpart in `GcCollector`, where upvalues are closed. Sharing, closing and sweeping open upvalues is modelled by itself in `UpvalList`.
- Pacing (`GCdebt`, work units), when the program or the string table calls the collector (in the model at any time), stack shrinking, and memory errors.
- GcStores.StoreThenLoad: for the stack slots of other threads; a slot of the running thread is written and read by moves (`GcFields.MoveMeans`).
- The rehash of a table is a sequence of writes to the collector; a string's hash is an arbitrary function of its address there.

Compiler and virtual machine:

- Calls, indexing and other suffixes, concatenation, upvalues, globals, table constructors, statements, line information.
- Numbers are abstract: arithmetic is any total function; metamethods and errors of operators are any partial functions of the operand values.
- A syntax error or a limit that is exceeded is a flag that stays set, in place of a `longjmp`; the state of the generator after it is not specified.
- LuaAccepts.Accepted: sufficient for ordinary sizes, not necessary; longer expressions are accepted too as long as every single limit is kept (`LuaVM.Evaluate`).
- LuaAccepts.FinishedEncodes: for at most 2^26 constants; the limit that the code sets to their number belongs to the growing of its vectors, which is left out.
- `luaO_int2fb` and `luaO_fb2int`, which belong to table constructors.

Tables:

- Float keys are exact integers or opaque keys with any hash; the cast of a float to an array index is not modelled. "table overflow" beyond 2^30 nodes and memory errors are left out.
- TableHash.Table.Resize: for sizes that all keys fit in, as rehash calls it; a smaller hash part, as `lua_createtable` might leave it, would rehash again.

Red-black map:

- The comparison and the copying of keys and values by client functions (keys and values are integers here), `map_get_values`, `map_destroy`, and the checks of `map_test`.
- The record that is freed is gone before the colours are repaired, not after; nothing reads it in between. Each map has its own copy of the sentinel, which is proved never to change.

Pool:

- The growing branches of `pool_realloc`, `pool_destroy`, locking, debug information, the check of the guard on release, and the wrap-around of the `sequence` counter. The header has the 40 bytes of a release build on a 64-bit machine; the buffer is assumed to hold the pool behind its aligned base.

Matcher, sort:

- MatchWritten.TextRead: for texts in which every magic character that stands for itself is escaped; `MatchSearch.MatchState.Match` is for all texts.
- Captures, back references, `gsub` and `gmatch`, plain searches, and locales other than C. The order function is a total function without effects, and l + u does not overflow.

Upvalues, lexer, chunks, interning:

- Colours of upvalues beyond dead and alive, and the order of `allgc`. Calls and returns appear as the beginning and end of blocks.
- Tokens other than strings in quotes, long strings, the limit of the token buffer. `iscntrl` is any predicate.
- Memory errors, the C stack in nested functions, chunks of other byte orders or sizes, and malformed chunks with more names than upvalues or with a string constant that has no size.
- The hash function is any function of the bytes. The collector's run that `luaS_resize` may need is in `GcCollector.GlobalState.ResizeStrings`, not in `StringIntern`. `luaS_fix` is left out.
