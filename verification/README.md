# python-binexport loader, modelled in Dafny

BinExport stores a disassembled program as flat arrays of records that refer to each other
by index. These arrays hold:

- instructions, only some of which carry an address;
- raw basic blocks, each a list of instruction index ranges;
- one flow graph per function;
- a call graph;
- operand expressions, which point to their parents by index;
- cross-reference tables.

The loader of python-binexport rebuilds a program model from these arrays:

- it resolves every instruction's address;
- it splits each raw block into one true basic block per range;
- it links the true blocks into a control-flow graph;
- it gathers the functions by address and lays the call graph over them;
- it renders each operand from its expression tree.

This project models that reconstruction as pure functions over immutable record datatypes.
It proves what each stage computes. The modules follow the loader's structure:

| module | file | what it models |
|---|---|---|
| `Records` | records.dfy | the decoded record arrays, the range bound `RangeEnd`, and the faults the loader raises |
| `PyDict` | pydict.dfy | Python's insertion-ordered `dict`, where a rewritten key keeps its position |
| `Hex` | hex.dfy | `%X` and `hex()` formatting, with a proved reading back |
| `Address` | address.dfy | `_get_instruction_address`, `_backtrack_instruction_address`, `_get_basic_block_addr` |
| `CrossRefs` | crossrefs.dfy | the `data_refs`, `addr_refs` and `string_refs` tables |
| `Walk` | walk.dfy | `BasicBlockBinExport.__init__` of loader.py: the carry `[cur_addr, prev_idx]` threaded over a range |
| `Functions` | function.dfy | `FunctionBinExport.__init__`, `name`, `is_import` |
| `Programs` | program.dfy | `ProgramBinExport.__init__` after the parse, and `addr_mask` |
| `Instructions` | instruction.dfy | `InstructionBinExport.comment` |
| `Operands` | operand.dfy | `__iter_expressions`, `byte_size`, and the tree that `__str__` builds and renders |
| `OperandTrees` | operand_tree.dfy | a reference renderer for well-formed expression lists, proved equal to `__str__` |
| `MergedBlocks` | merged_block.dfy | the newer `BasicBlockBinExport` of basic_block.py |
| `Scenarios` | scenarios.dfy | worked cases on concrete records |

## Error handling

When an index into a record array comes from the structure itself and the loader follows it
without a check, the model makes it a precondition. Examples are a flow graph naming a raw
block, or a range naming an instruction. `Loadable`, `FlowGraphInBounds` and `RangeInBounds`
collect these preconditions. They ask only that the indices exist. Where an address is
resolved, the operations accept any instructions. The lemmas that relate the walk to the
resolver's specification `InstructionAddress` ask in addition that every resolved instruction
is anchored, meaning some instruction at or before it stores an address
(`RangeResolvable`, `FlowGraphResolvable`).

When the loader raises on record contents, the model returns `Err` with a `Fault` instead:

- `NoStoredAddress`: backtracking from an instruction when no instruction of the whole array
  stores an address. The walk back reaches index `-n-1` and raises IndexError.
- `EntryWithoutRange`: an entry block without ranges.
- `NoneBlockNode`: an empty range, whose `None` address networkx refuses as a node.
- `UnknownFlowBlock`: a flow edge to a raw block the function did not build.
- `MissingFunction`: a call-graph vertex without a function that is not IMPORTED.
- `UnknownVertex`: a call edge past the vertex array.
- `UnknownSizePrefix`: an unknown SIZE_PREFIX symbol.
- `DataLabelWithoutSize`: a data label before any size.
- `NoExpression` and `NotSizePrefix`: the two failures of `byte_size`.

## Behaviour kept as the code has it

The model keeps these quirks of the code:

- **Missing call-graph vertex.** A NORMAL vertex with no function is not skipped.
  `self[node.address]` at loader.py:122 raises, so the load fails with `MissingFunction`.
- **Operand root.** The rendered root is the object kept under the smallest *parent* index
  seen, `min_idx`. It is not the node with the smallest own index.
- **Comma redirect.** The redirect goes through one removed comma only, via
  `removed_nodes.get(p_idx, p_idx)`. It does not follow a chain of nested commas.
- **Block address.** A true block's address is the first *non-zero* address its walk assigns,
  because `if not self._addr` treats 0 as unset.
- **String references.** `string_refs` keeps the *last* record for an instruction.
- **Data label without size.** An immediate found in the data references with no SIZE_PREFIX
  before it raises, because it looks up `__sz_name[None]`.
- **Child before parent.** A token listed before its parent's token loses its link. The
  parent's own token replaces the placeholder object it hung under (`Scenarios.ChildBeforeParent`).
- **Comment at a function entry.** At an entry whose last address comment is not the
  function's name, `comment` falls off the end and returns `None`.
- **Backtracking wraps round.** `_backtrack_instruction_address` decrements its index without
  a lower bound (loader.py:37-41). From an instruction with no stored address before it, the
  walk passes index 0 and reads Python's negative indices from the end of the array. It stops
  at the array's last stored address, having summed the raw lengths before the instruction
  and from that record to the end (`Address.ResolveWraps`). The first instruction alone
  reads its own field, which is 0 when unset.
- **Falsy zero in the walk.** `if not state[0]` also recomputes a carried address of 0. For
  an anchored instruction this is unobservable: `Walk.PlaceAddressResolves` shows that the
  recomputed address equals the carried one. After an unaddressed first instruction with no
  raw bytes, the next unaddressed instruction is not anchored, so the recompute wraps round.

## Model

| member | source | states |
|---|---|---|
| Address.GetInstructionAddress | binexport/loader.py:12-24 | an instruction gets its stored address when it has one and the backtracked one otherwise; for an anchored instruction that is the resolver specification `InstructionAddress` |
| Address.BacktrackInstructionAddress | binexport/loader.py:27-44 | the backward loop returns the nearest earlier stored address plus the raw lengths from there up to the target; at index 0 it returns the stored default; with no earlier stored address it wraps to the last one in the array; with none at all it fails with NoStoredAddress |
| Address.ResolveAnchored | binexport/loader.py:12-44 | an instruction with a stored address at or before it resolves to `InstructionAddress`, the nearest earlier stored address plus the raw lengths in between |
| Address.ResolveFails | binexport/loader.py:27-44 | resolution fails iff the instruction is not the first and no instruction of the array stores an address, and then with NoStoredAddress |
| Address.ResolveWraps | binexport/loader.py:36-44 | an instruction with no stored address before it resolves to the array's last stored address plus the raw lengths from that record to the end and from the start up to the instruction |
| Address.AddressNoDrift | binexport/loader.py:20-44 | an instruction without an address sits exactly at the previous instruction's resolved address plus that instruction's raw length |
| Records.RangeIndices | binexport/loader.py:365 | a range walks `begin, begin+1, ...` up to `end_index`, or up to `begin+1` when `end_index` is 0; it is empty when that bound is not above `begin` |
| CrossRefs.GroupReversedSpec | binexport/loader.py:82-94 | after grouping the reversed records, an index has an entry iff some record names it, and the entry is that index's values in reverse record order |
| CrossRefs.DataRefsLatestFirst | binexport/loader.py:81-86 | an instruction's `data_refs` are the addresses of its data-reference records, latest record first |
| CrossRefs.AddrRefsLatestFirst | binexport/loader.py:89-94 | an instruction's `addr_refs` are the string-table strings of its address comments, latest record first |
| CrossRefs.StringRefTableLastWins | binexport/loader.py:97-99 | an instruction has a string reference iff some record names it, and then it is the last such record |
| Walk.WalkIndices | binexport/loader.py:365-396 | the walk gives one address per index, or fails only for want of a stored address to backtrack to; after a non-empty walk the carry holds the last address plus its raw length and the last index |
| Walk.WalkIndicesOk | binexport/loader.py:365-396 | a walk over anchored indices goes through, whatever the carry |
| Walk.PlaceAddressCarried | binexport/loader.py:367-381 | an instruction without a stored address that directly follows the carried index takes the carried non-zero address without resolving anything |
| Walk.PlaceAddressResolves | binexport/loader.py:367-381 | when the carried address agrees with the previous instruction, the walk gives each instruction exactly its resolved address, whether the carry is reset, overridden or kept |
| Walk.WalkResolves | binexport/loader.py:365-396 | every address the walk of a range gives equals the resolver's address for that index, and the carry stays coherent for the next range |
| Walk.BlockAddressFirstNonZero | binexport/loader.py:384-385 | a block takes the first non-zero address its walk gives |
| Walk.BlockAddressAllZero | binexport/loader.py:384-385 | when every address the walk gives is 0, the block's address is 0, or stays unset for an empty range |
| Walk.BuildBlock | binexport/loader.py:351-396 | building fails only for want of a stored address; an empty range builds a block without an address and leaves the carry alone; a non-empty one builds an addressed, unlinked block and moves the carry's index to the range's last instruction |
| Walk.BuildBlockOk | binexport/loader.py:351-396 | a range of anchored instructions always builds |
| Walk.BuildBlockEntries | binexport/loader.py:388-393 | every instruction of a block sits under its resolved address, comes from the range, and carries exactly its index's `data_refs` and `addr_refs` |
| Walk.BuildBlockCovers | binexport/loader.py:365-389 | every instruction of the range appears in the block under its resolved address |
| Walk.BuildBlockAddress | binexport/loader.py:384-385 | a block whose first instruction resolves to a non-zero address has that address |
| Walk.BuildBlockCarry | binexport/loader.py:395-396 | the carry a block hands to the next range is coherent, which is what lets one carry serve the whole function |
| Functions.ImportFunction | binexport/loader.py:229-237 | a function made for an imported vertex has its address and no blocks, edges, links or type |
| Functions.DefaultNamesDistinct | binexport/loader.py:294 | two functions at different addresses that fall back to the default name, because they have no name or an empty one, get different `sub_%X` names |
| Functions.DefaultNameSpellsAddress | binexport/loader.py:294 | an unnamed function's name is `sub_` followed by hex digits that read back as its address |
| Functions.AddEdgeEffect | binexport/loader.py:277-279 | adding an edge adds exactly that pair to the graph, gives the source the target as a child and the target the source as a parent, and changes nothing else |
| Functions.AddEdgeLinks | binexport/loader.py:260-262 | after an edge is added, the pair is in the graph with both blocks linked, and every earlier link survives |
| Functions.LinkChain | binexport/loader.py:259-262 | linking a chain of true blocks adds exactly the fallthrough pairs between consecutive blocks and keeps the set of blocks |
| Functions.LinkChainLinks | binexport/loader.py:258-262 | every consecutive pair of the chain ends up linked both ways, and no earlier link is lost |
| Functions.WalkRanges | binexport/loader.py:247-256 | walking a raw block's ranges yields one block and one address per range, or fails with NoneBlockNode for that raw block or for want of a stored address |
| Functions.WalkRangesOk | binexport/loader.py:247-256 | for ranges whose instructions all resolve, walking a raw block's ranges fails iff one of its ranges is empty |
| Functions.WalkRangesFresh | binexport/loader.py:247-256 | each true block of a raw block sits at its range's first non-zero address with its instructions resolved, and is not yet linked |
| Functions.InsertBlock | binexport/loader.py:251-256 | inserting a block puts it under its address, adds that address to the keys, and counts it |
| Functions.AttachMaps | binexport/loader.py:254-263 | a raw block with k ranges adds k to the block count; `bb_map` takes its last true block; `rng_map` takes (first, last) and is touched only when k > 1 |
| Functions.AttachChain | binexport/loader.py:258-262 | the true blocks of a raw block are in the function, linked by exactly the fallthrough edges between consecutive ranges |
| Functions.SplitRawBlockShape | binexport/loader.py:245-263 | a raw block with k ranges yields k true blocks and k-1 fallthrough edges, with the `bb_map` and `rng_map` entries described above |
| Functions.SplitRawBlockHead | binexport/loader.py:247-256 | after a raw block is split, the resolved address of its first instruction, when non-zero, holds a block of the function |
| Functions.SplitAllHead | binexport/loader.py:245-263 | after all raw blocks are split, the non-zero address of each one's first instruction holds a block of the function |
| Functions.SplitAllSound | binexport/loader.py:245-263 | after all raw blocks are split, each block sits under its own address, its instructions are resolved, its links follow graph edges, and every edge joins two blocks of the function |
| Functions.EdgeEndpoints | binexport/loader.py:272-275 | a flow-edge endpoint resolves iff its raw block was built; a split raw block is left from its last true block and entered at its first |
| Functions.FlowEdgesResolve | binexport/loader.py:270-275 | adding the flow edges succeeds iff every edge's two raw blocks were built, and fails with UnknownFlowBlock otherwise |
| Functions.FlowEdgesLinked | binexport/loader.py:270-279 | after the flow edges are added, the remapped endpoints of every flow edge are linked both ways |
| Functions.FlowEdgesInGraph | binexport/loader.py:270-279 | every flow edge, remapped to its last-source and first-target true blocks, is an edge of the graph between two blocks of the function |
| Functions.BuildFunction | binexport/loader.py:239-279 | a function sits at `_get_basic_block_addr` of its entry block and fails with that call's error; it starts untyped, unnamed and unlinked, and fails with EntryWithoutRange when the entry block has no range |
| Functions.BuildFunctionEntryBlock | binexport/loader.py:239-263 | when the entry is one of the flow graph's raw blocks and the function's address is non-zero, the function's address is a key of its block dict. The block there may not be the entry's own first true block, because a later range that resolves to the same address replaces it |
| Functions.BuildFunctionSound | binexport/loader.py:239-279 | a built function's blocks sit under their own addresses with resolved instructions, and its links and edges stay within the function |
| Functions.BuildFunctionFlowEdges | binexport/loader.py:270-279 | every flow edge of the record becomes a graph edge between the remapped true blocks of the built function |
| Programs.AddrMaskWidth | binexport/loader.py:174-182 | and-ing with the mask keeps a value modulo 2^32 for an architecture whose name ends in "32", and modulo 2^64 otherwise |
| Programs.LoadProgramMask | binexport/loader.py:77 | the loaded program's `addr_mask` truncates to 32 bits exactly when the architecture name ends in "32" |
| Programs.BuildAllEach | binexport/loader.py:104-105 | building all functions succeeds iff every flow graph builds, and then yields each one's function in record order |
| Programs.BuildAllFirstError | binexport/loader.py:104-105 | a failed build reports the error of the first flow graph that fails |
| Programs.LoadFunctionsKeys | binexport/loader.py:104-109 | the program dict holds an address iff some built function has it |
| Programs.LoadFunctionsLastWins | binexport/loader.py:106-109 | on an address collision, the last function built at that address is the one kept |
| Programs.OverlayVertexEffect | binexport/loader.py:115-123 | a vertex fails with MissingFunction iff its address has no function and it is not IMPORTED; otherwise only its address changes, taking the vertex's type and name, and an imported one gets a bare function |
| Programs.OverlayOk | binexport/loader.py:115-123 | the vertex pass succeeds iff every vertex finds a function, either already present or synthesised for an IMPORTED vertex |
| Programs.OverlayFirstError | binexport/loader.py:119-122 | the vertex pass fails with MissingFunction at the first vertex that finds no function |
| Programs.OverlayLastWins | binexport/loader.py:122-123 | a function named by several vertices takes the type and name of the last one |
| Programs.OverlayBody | binexport/loader.py:115-123 | the vertex pass changes only types and names; a function no vertex names is left as built |
| Programs.LinkCallEffect | binexport/loader.py:124-128 | a call edge fails iff an index is out of range or an address has no function, reporting the first failing lookup; otherwise it adds exactly the callee to the caller's children and the caller to the callee's parents |
| Programs.LinkCallsOk | binexport/loader.py:124-128 | the edge pass succeeds iff every call edge can be linked |
| Programs.LinkCallsFirstError | binexport/loader.py:124-128 | a failed edge pass reports the error of the first edge that cannot be linked |
| Programs.LinkCallsLinks | binexport/loader.py:124-128 | after the edge pass, c is a child of a iff it was before or some call edge runs from a to c; parents likewise in the other direction |
| Programs.NamesLastWins | binexport/loader.py:130-131 | a name is in `fun_names` iff some function has it, and it maps to the last such function in dict order |
| Programs.NameTableSpec | binexport/loader.py:130-131 | every name in the table names a function of the program, every function's name is in the table, and the table sends a name to a function bearing it |
| Programs.LoadProgramStages | binexport/loader.py:77-131 | a successful load ran every stage successfully: its functions are the linked dict, its mask is the architecture's, its tables are the cross-reference tables, and its names are the name table of its functions |
| Programs.LoadProgramOk | binexport/loader.py:101-128 | the load succeeds iff every flow graph builds, every vertex finds a function, and every call edge names existing vertices |
| Programs.LoadProgramBuildError | binexport/loader.py:104-105 | a load with a failing flow graph fails with the first such graph's error |
| Programs.LoadProgramVertexError | binexport/loader.py:119-122 | a load with a vertex lacking a function fails with MissingFunction at the first such vertex |
| Programs.LoadProgramEdgeError | binexport/loader.py:124-126 | once the vertices pass, the only way left to fail is a call edge past the vertex array |
| Programs.LoadProgramFunctions | binexport/loader.py:104-123 | the program holds an address iff some flow graph's entry block resolves to it or some vertex names it |
| Programs.LoadProgramKeyed | binexport/loader.py:104-123 | every function of the program sits under its own address |
| Programs.LoadProgramLinks | binexport/loader.py:124-128 | c is a child of a iff some call edge runs from a to c, and a parent iff one runs from c to a |
| Programs.LoadProgramVertexType | binexport/loader.py:122-123 | the function at a vertex's address has that vertex's type and mangled name, when no later vertex shares the address |
| Programs.LoadProgramUnnamed | binexport/loader.py:289-294 | a function no vertex names has no type and is called `sub_` followed by its address in upper-case hex |
| Programs.LoadProgramBody | binexport/loader.py:104-123 | a function keeps the blocks and edges its flow graph built, when no later flow graph shares its address |
| Programs.LoadProgramImport | binexport/loader.py:116-117 | a function that no flow graph built has no blocks or edges, and its address was first named by an IMPORTED vertex |
| Programs.LoadProgramIsImport | binexport/loader.py:334-339 | `is_import` holds for a loaded function iff the last call-graph vertex at its address is IMPORTED; a function no vertex names is never an import |
| Programs.LoadProgramNames | binexport/loader.py:130-131 | a name is in `fun_names` iff some function of the loaded program bears it, and it leads to a function bearing it |
| Instructions.Comment | binexport/loader.py:494-516 | the comment is "" when there are no more address comments than data references; otherwise it is the last address comment away from an entry; it is None exactly at an entry whose last comment differs from the function's name |
| Instructions.CommentFromRecords | binexport/loader.py:501-516 | for an instruction carrying its records' cross-references, the comment is the earliest address-comment record; at an entry named by that comment, it is the second-earliest, or "" when there is none |
| Operands.SizeTablesAgree | binexport/loader.py:552-553 | every size a SIZE_PREFIX can set has a name, and no two prefix symbols give the same size |
| Operands.LoadProgramNamesResolve | binexport/loader.py:130-131 | every name in a loaded program's `fun_names` refers to one of its functions, so symbol lookups never miss |
| Operands.Classify | binexport/loader.py:591-631 | one expression yields at most one token, and that token carries the expression's index and parent index |
| Operands.ClassifyEmits | binexport/loader.py:591-631 | an expression yields a token exactly when it is an emitting kind; only a SIZE_PREFIX changes the size; an operator or dereference yields its symbol as a 'symbol' token and a register its name as a 'reg' token |
| Operands.ClassifyImmediate | binexport/loader.py:610-620 | an immediate becomes a data label iff it is a data reference; else a code label iff it is a function or block address, `sub_` before `loc_`; else a number masked to the architecture's width; labels spell the immediate in upper-case hex that reads back |
| Operands.ClassifySymbol | binexport/loader.py:594-608 | a symbol not in `fun_names` is a local name; otherwise its kind follows the function's type, and a function without a known type yields nothing |
| Operands.IterateSpec | binexport/loader.py:585-631 | the walk over an operand's expressions leaves the size of the last SIZE_PREFIX, and yields tokens for exactly the emitting expressions, in order |
| Operands.IteratePrefix | binexport/loader.py:585-631 | a walk that goes through went through every prefix of the operand's expressions, whose tokens begin its own |
| Operands.IterateTokenAt | binexport/loader.py:585-631 | the token yielded for an emitting expression comes right after those of the emitting expressions before it, and is that expression's classification under the size of the latest SIZE_PREFIX before it |
| Operands.IterateDataLabel | binexport/loader.py:610-631 | a data label is named after the width of the latest SIZE_PREFIX before it, with no SIZE_PREFIX in between |
| Operands.IterateSizeSet | binexport/loader.py:630-631 | a size is set after the walk iff the operand has a SIZE_PREFIX |
| Operands.IterateOk | binexport/loader.py:591-631 | the walk succeeds iff every SIZE_PREFIX is known and every data label has a size before it |
| Operands.IterateFirstError | binexport/loader.py:591-631 | a failed walk reports the first expression that fails: UnknownSizePrefix or DataLabelWithoutSize |
| Operands.ByteSize | binexport/loader.py:646-656 | `byte_size` is the size of the first expression when that is a known SIZE_PREFIX; it fails with NoExpression for an operand without expressions and with NotSizePrefix when the first expression is another kind |
| Operands.ByteSizeMatchesWalk | binexport/loader.py:646-656 | `byte_size` agrees with the size the expression walk sets at its first step, and is the operand's size when no later prefix overrides it |
| Operands.OperandStringOk | binexport/loader.py:679-737 | `__str__` renders iff every SIZE_PREFIX is known and every data label has a size before it, and then it renders the tree of one token per emitting expression, in order |
| Operands.OperandStringFault | binexport/loader.py:679-737 | `__str__` raises the fault of the first expression that is not fine |
| Operands.PlaceAttach | binexport/loader.py:723-731 | a non-comma token gets a new leaf under its redirected parent's object, made as an empty placeholder when missing; it takes over `tree[idx]` and lowers `min_idx` to the parent index, and no other object changes |
| Operands.PlaceComma | binexport/loader.py:719-721 | a comma token makes no object and only records that its index redirects to its parent |
| Operands.PlaceMin | binexport/loader.py:724 | `min_idx` drops to the redirected parent index of a non-comma token when that is smaller |
| Operands.TokenHung | binexport/loader.py:715-731 | every non-comma token has an object with its value and operator flag, placed among its parent object's children |
| Operands.BuildOneParent | binexport/loader.py:715-731 | the objects form a forest: each is the child of at most one object, once, and only of an object created before it |
| Operands.BuildNoComma | binexport/loader.py:719-721 | no comma operator ever becomes an object of the tree |
| Operands.BuildRemoved | binexport/loader.py:719-723 | an index is redirected iff some comma token has it, and it redirects to the parent of the last such comma |
| Operands.BuildMinIdx | binexport/loader.py:715-724 | `min_idx` is the smallest redirected parent index of the non-comma tokens, or 999999 when there are none |
| Operands.TreeStringRoot | binexport/loader.py:733-737 | the operand renders as "" when no token has a parent index below 999999; otherwise it renders the object kept under `min_idx` |
| OperandTrees.BuildMirrors | binexport/loader.py:713-731 | on a well-formed list, object k+1 holds token k with, as its children, exactly the later tokens naming it as parent, in order; object 0 holds the top-level tokens |
| OperandTrees.RenderMirrors | binexport/loader.py:685-711 | `Tree.__str__` of a token's object equals the reference rendering: value, `(` unless the value is a brace, bracket or `!`, comma-joined children, closing glyph |
| OperandTrees.TreeStringReference | binexport/loader.py:679-737 | on a well-formed list, the operand string is its top-level tokens rendered in pre-order and joined by commas, and "" when the list is empty |
| MergedBlocks.VisitAllSpec | binexport/basic_block.py:44-50 | the visit resolves an address only while it has none, so it fails only when the first instruction cannot be resolved; it keeps the first resolved address and appends every instruction's raw bytes in order |
| MergedBlocks.MergedHeaderSpec | binexport/basic_block.py:19-50 | a merged block fails iff its first covered instruction cannot be resolved; its address is that instruction's resolved address, or None when nothing is covered; its bytes are every range's raw bytes in turn |
| MergedBlocks.ResolveAllSpec | binexport/basic_block.py:102-106 | resolving a list of instructions succeeds iff each one resolves, and gives each one's address in order |
| MergedBlocks.UncachedOk | binexport/basic_block.py:102-108 | `uncached_instructions` succeeds iff every covered instruction resolves |
| MergedBlocks.CoveredBytes | binexport/basic_block.py:44-46 | the bytes of the covered indices in order equal the concatenation of each range's bytes |
| MergedBlocks.RangeLayout | binexport/basic_block.py:44-50 | inside a range whose later instructions carry no address, each instruction sits at the range start plus the raw lengths before it |
| MergedBlocks.UncachedKeys | binexport/basic_block.py:102-108 | `uncached_instructions` has a key iff some covered instruction resolves to it; each value has its key as address and comes from a covered index |
| MergedBlocks.UncachedLastWins | binexport/basic_block.py:104-106 | on an address collision, the instruction of the later index is the one kept |
| MergedBlocks.UncachedFirstKey | binexport/basic_block.py:96-110 | the block has an address iff the dict is non-empty, and then its first key is the block's address |
| MergedBlocks.Instructions | binexport/basic_block.py:112-122 | `instructions` is the same dict as `uncached_instructions` |
| Hex.DigitsRoundTrip | binexport/loader.py:294 | the hex digits of a number read back as that number |
| Hex.DigitsInjective | binexport/loader.py:294 | different numbers have different hex spellings |
| PyDict.PutAllKeys | binexport/loader.py:109 | a dict after a series of assignments holds a key iff it held it before or some assignment wrote it |
| PyDict.PutAllLastWins | binexport/loader.py:109 | a key holds the value of its last assignment |
| PyDict.PutAllFirstKey | binexport/basic_block.py:106 | the first key of a dict filled from empty is the first key assigned, even when it is reassigned later |
| Scenarios.ChildBeforeParent | binexport/loader.py:726-731 | a register listed before its operator parent is lost: the operand prints as `+()` |
| Scenarios.CommaElided | binexport/loader.py:719-723 | a register list `{`, `,`, `r1`, `r2` prints as `{r1,r2}`, the comma dropped and its registers hung under the brace |
| Scenarios.DataLabelNeedsSize | binexport/loader.py:610-631 | walking an operand of a bare data-referenced immediate fails with DataLabelWithoutSize; walking `b4` and then the immediate yields one `dword` label |
| Scenarios.DataLabelSpelling | binexport/loader.py:612 | the data label for size 4 at 0xAB reads `dword_AB` |
| Scenarios.EntryComments | binexport/loader.py:501-516 | at an entry named "b", comments ["a","b"] give "a" and ["b"] give ""; at an entry named "c" they give None; away from an entry they give "b"; with as many data references as comments they give "" |
| Scenarios.UnaddressedRange | binexport/loader.py:365-396 | a range over two unaddressed instructions of 4 and 1 bytes places them at 0 (the unset first address) and 4, and the block takes 4, its first non-zero address; the second instruction alone does not resolve |
| Scenarios.MissingVertexFunction | binexport/loader.py:115-123 | a lone NORMAL vertex without a flow graph makes the load fail with MissingFunction |
| Scenarios.ImportedVertexFunction | binexport/loader.py:115-131 | a lone IMPORTED vertex gives a program with one function at its address, typed IMPORTED and listed in `fun_names` under the vertex's name |

## Left out

- Reading the file and `ParseFromString` (loader.py:74-76). The model starts from the decoded records; there is no wire decoding.
- `from_binary_file` (loader.py:137-172). It runs an external disassembler and touches the filesystem.
- networkx. The control-flow graph is modelled as a set of address pairs.
- Object identity of links. Block and function links are modelled as sets of addresses. Python sets hold the objects and compare them by hash and `__eq__`. When a block address collides (loader.py:251-253), a link made earlier still holds the replaced block, which is no longer in the function. In the model that address leads to the new block, whose own `parents` and `children` do not have the link.
- Logging, `print`, the collision counters and the block-count check (loader.py:107, 120, 133, 265-267, 623, 633). They only produce diagnostics.
- IMMEDIATE_FLOAT and unknown expression kinds are skipped without a token. The floating-point payload is not modelled.
- `OperandBinExport.type`, `mnemonic`, `operands`, `InstructionBinExport.string_references`, the operand's `string_reference`, `__str__` of instructions, `__repr__`, `__hash__` and the `string_references` sets. These are accessors, formatting or identity helpers outside the reconstruction.
- `weakref`, `cached_property`, and the `program`/`function` wrappers of basic_block.py. `MergedBlocks.Instructions` is the uncached dict, which is what the cache returns the first time.
- `BasicBlockBinExport.__str__` in basic_block.py. It calls a `values()` method the class does not have.
- `binexport.utils` is not part of this model. `MergedBlocks` takes its `instruction_index_range` to be the range bound of loader.py:365, and its `get_instruction_address` to be the resolver of loader.py:12-44.
- `binexport.instruction` is not part of this model. `MergedBlocks` takes the instruction that basic_block.py builds with the plain constructor to carry no cross-references.
- Record indices that the loader follows without a check are preconditions, not errors. They are collected in `Loadable`.
- Negative record indices. Range, edge, vertex, operand and parent indices are naturals. The protobuf fields are signed 32-bit, and Python would read a negative index from the end of its list. The model leaves that case out.
- The `expressions` generator (loader.py:636-644) only relabels the tuples of `__iter_expressions`; `Operands.Iterate` returns them as a list.
- OperandTrees.TreeStringReference: the reference rendering is proved equal to `__str__` only for well-formed lists. Those have no commas, distinct indices, and every parent listed before its children. Other lists are covered by the `Operands` lemmas about the built tree and by `Scenarios`.
- Instructions.CommentFromRecords: it does not state the comment at an entry whose last comment is not the function's name; `Instructions.Comment` states that this case gives None.
- The addresses are unbounded naturals. Only `addr_mask` truncates, as the loader does.
