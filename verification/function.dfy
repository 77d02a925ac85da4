/** Functions (loader.py:211-342): every range of every raw block of a flow graph becomes a
    true basic block; the ranges of one raw block are chained by fallthrough edges, and the
    flow graph's edges are remapped onto the true blocks. */
module Functions {
  import opened Wrappers
  import opened Records
  import opened Address
  import opened CrossRefs
  import opened PyDict
  import opened Walk
  import Hex

  /** `FunctionBinExport`: a dict from block address to block, the control-flow graph as a set
      of address pairs, the call-graph type and name backfilled by the program, and callers and
      callees as function addresses. */
  datatype Func = Func(
    addr: nat,
    blocks: Dict<nat, Block>,
    edges: set<(nat, nat)>,
    ftype: Option<VertexType>,
    name: Option<string>,
    parents: set<nat>,
    children: set<nat>)

  /** The `name` property (loader.py:294): the call-graph name unless it is missing or empty,
      otherwise `sub_` and the address in upper-case hex. */
  function FunctionName(f: Func): string {
    if f.name.Some? && f.name.value != "" then f.name.value else "sub_" + Hex.Upper(f.addr)
  }

  /** `is_import` (loader.py:334-339). */
  predicate IsImport(f: Func) {
    f.ftype == Some(Imported)
  }

  /** A function synthesised for an imported call-graph vertex (loader.py:117, 236-237). */
  function ImportFunction(addr: nat): (f: Func)
    ensures f.addr == addr && f.blocks.entries == map[] && f.edges == {}
    ensures f.ftype.None? && f.parents == {} && f.children == {}
  {
    Func(addr, Empty(), {}, None, None, {}, {})
  }

  /** Two functions that fall back to the default name (no call-graph name, or an empty
      mangled one) never share it. */
  lemma DefaultNamesDistinct(f: Func, g: Func)
    requires f.name.None? || f.name == Some("")
    requires g.name.None? || g.name == Some("")
    requires f.addr != g.addr
    ensures FunctionName(f) != FunctionName(g)
  {
    if FunctionName(f) == FunctionName(g) {
      assert FunctionName(f)[4..] == Hex.Upper(f.addr);
      assert FunctionName(g)[4..] == Hex.Upper(g.addr);
      Hex.DigitsInjective(f.addr, g.addr, true);
    }
  }

  /** The default name spells the function's address: reading its hex digits gives it back. */
  lemma DefaultNameSpellsAddress(f: Func)
    requires f.name.None? || f.name == Some("")
    ensures FunctionName(f)[..4] == "sub_"
    ensures var digits := FunctionName(f)[4..];
            (forall i | 0 <= i < |digits| :: Hex.IsHexDigit(digits[i])) && Hex.Value(digits) == f.addr
  {
    assert FunctionName(f)[4..] == Hex.Upper(f.addr);
    Hex.DigitsRoundTrip(f.addr, true);
  }

  // ---------------------------------------------------------------------------------------
  // Assembly state and its invariants

  /** The locals of `FunctionBinExport.__init__` while it runs: the carry, the block dict, the
      graph's edges, `bb_map`, `rng_map` and `bb_count`. */
  datatype Assembly = Assembly(
    carry: Carry,
    blocks: Dict<nat, Block>,
    edges: set<(nat, nat)>,
    bbMap: map<nat, nat>,
    rngMap: map<nat, (nat, nat)>,
    count: nat)

  const InitialAssembly: Assembly := Assembly(InitialCarry, Empty(), {}, map[], map[], 0)

  /** The dict is well formed, and `bb_map` and `rng_map` only name blocks already built, a
      raw block in `rng_map` being in `bb_map` too. */
  ghost predicate Wired(st: Assembly) {
    && Valid(st.blocks)
    && (forall i | i in st.bbMap :: st.bbMap[i] in st.blocks.entries)
    && (forall i | i in st.rngMap ::
          && i in st.bbMap
          && st.rngMap[i].0 in st.blocks.entries
          && st.rngMap[i].1 in st.blocks.entries)
  }

  /** Every instruction of the block sits under its resolved address. */
  predicate BlockResolved(insts: seq<Instruction>, m: Dict<nat, Instr>) {
    forall a | a in m.entries ::
      && m.entries[a].addr == a
      && m.entries[a].index < |insts|
      && Anchored(insts, m.entries[a].index)
      && a == InstructionAddress(insts, m.entries[a].index)
  }

  /** A block sits under its own address, its instructions are resolved, and its neighbours
      are recorded only along graph edges. */
  ghost predicate BlockSound(insts: seq<Instruction>, a: nat, b: Block, edges: set<(nat, nat)>) {
    && b.addr == Some(a)
    && BlockResolved(insts, b.instrs)
    && (forall c | c in b.children :: (a, c) in edges)
    && (forall p | p in b.parents :: (p, a) in edges)
  }

  /** Every graph edge runs between blocks of the function. */
  ghost predicate EdgesWithin(blocks: Dict<nat, Block>, edges: set<(nat, nat)>) {
    forall e | e in edges :: e.0 in blocks.entries && e.1 in blocks.entries
  }

  /** What holds of a finished function's blocks and graph. */
  ghost predicate BlocksSound(insts: seq<Instruction>, blocks: Dict<nat, Block>, edges: set<(nat, nat)>) {
    && Valid(blocks)
    && (forall a {:trigger blocks.entries[a]} | a in blocks.entries :: BlockSound(insts, a, blocks.entries[a], edges))
    && EdgesWithin(blocks, edges)
  }

  ghost predicate Sound(insts: seq<Instruction>, st: Assembly) {
    BlocksSound(insts, st.blocks, st.edges) && Coherent(insts, st.carry)
  }

  /** A freshly built true block, not yet linked to any other. */
  ghost predicate Fresh(insts: seq<Instruction>, b: Block, addr: nat) {
    b.addr == Some(addr) && BlockResolved(insts, b.instrs) && b.parents == {} && b.children == {}
  }

  lemma InitialAssemblySound(insts: seq<Instruction>)
    ensures Wired(InitialAssembly) && Sound(insts, InitialAssembly)
  {
  }

  // ---------------------------------------------------------------------------------------
  // Edges

  /** How a block's neighbour sets change when edge `(s, d)` is added. */
  ghost predicate Linked(old_: Block, new_: Block, a: nat, s: nat, d: nat) {
    && new_.addr == old_.addr
    && new_.instrs == old_.instrs
    && new_.children == old_.children + (if a == s then {d} else {})
    && new_.parents == old_.parents + (if a == d then {s} else {})
  }

  /** Edge `(s, d)` is in the graph, with `d` among the children of `s` and `s` among the
      parents of `d`. */
  ghost predicate InGraph(blocks: Dict<nat, Block>, edges: set<(nat, nat)>, s: nat, d: nat) {
    && (s, d) in edges
    && s in blocks.entries && d in blocks.entries
    && d in blocks.entries[s].children
    && s in blocks.entries[d].parents
  }

  ghost predicate EdgeLinked(st: Assembly, s: nat, d: nat) {
    InGraph(st.blocks, st.edges, s, d)
  }

  /** Later steps only add: no block disappears, no edge or neighbour is dropped. */
  ghost predicate Grows(st: Assembly, r: Assembly) {
    && st.blocks.entries.Keys <= r.blocks.entries.Keys
    && st.edges <= r.edges
    && (forall a | a in st.blocks.entries ::
          && st.blocks.entries[a].children <= r.blocks.entries[a].children
          && st.blocks.entries[a].parents <= r.blocks.entries[a].parents)
  }

  lemma GrowsKeepsLinks(st: Assembly, r: Assembly, s: nat, d: nat)
    requires Grows(st, r) && EdgeLinked(st, s, d)
    ensures EdgeLinked(r, s, d)
  {
  }

  lemma GrowsTransitive(st: Assembly, mid: Assembly, r: Assembly)
    requires Grows(st, mid) && Grows(mid, r)
    ensures Grows(st, r)
  {
  }

  /** `graph.add_edge(s, d)` plus `self[s].children.add(self[d])` and
      `self[d].parents.add(self[s])` (loader.py:260-262, 277-279): the blocks are updated in
      place, so the dict keeps its order. */
  function AddEdge(st: Assembly, s: nat, d: nat): (r: Assembly)
    requires Valid(st.blocks) && s in st.blocks.entries && d in st.blocks.entries
    ensures Valid(r.blocks) && r.blocks.entries.Keys == st.blocks.entries.Keys
  {
    var e1 := st.blocks.entries[s := st.blocks.entries[s].(children := st.blocks.entries[s].children + {d})];
    var e2 := e1[d := e1[d].(parents := e1[d].parents + {s})];
    assert e2.Keys == st.blocks.entries.Keys;
    st.(blocks := Dict(st.blocks.order, e2), edges := st.edges + {(s, d)})
  }

  /** Adding an edge adds it to the graph and to the two neighbour sets, and changes nothing
      else. */
  lemma AddEdgeEffect(st: Assembly, s: nat, d: nat)
    requires Valid(st.blocks) && s in st.blocks.entries && d in st.blocks.entries
    ensures var r := AddEdge(st, s, d);
            && r.edges == st.edges + {(s, d)}
            && r.carry == st.carry && r.bbMap == st.bbMap && r.rngMap == st.rngMap && r.count == st.count
            && (forall a | a in r.blocks.entries :: Linked(st.blocks.entries[a], r.blocks.entries[a], a, s, d))
            && (Wired(st) ==> Wired(r))
  {
  }

  /** Adding an edge links it both ways and only adds. */
  lemma AddEdgeLinks(st: Assembly, s: nat, d: nat)
    requires Valid(st.blocks) && s in st.blocks.entries && d in st.blocks.entries
    ensures EdgeLinked(AddEdge(st, s, d), s, d)
    ensures Grows(st, AddEdge(st, s, d))
  {
    var r := AddEdge(st, s, d);
    AddEdgeEffect(st, s, d);
    assert Linked(st.blocks.entries[s], r.blocks.entries[s], s, s, d);
    assert Linked(st.blocks.entries[d], r.blocks.entries[d], d, s, d);
    forall a | a in st.blocks.entries
      ensures st.blocks.entries[a].children <= r.blocks.entries[a].children
      ensures st.blocks.entries[a].parents <= r.blocks.entries[a].parents
    {
      assert Linked(st.blocks.entries[a], r.blocks.entries[a], a, s, d);
    }
  }

  /** A block that was sound stays sound when edge `(s, d)` is added and its neighbour sets
      change accordingly. */
  lemma LinkedBlockSound(insts: seq<Instruction>, a: nat, ob: Block, nb: Block, edges: set<(nat, nat)>, s: nat, d: nat)
    requires BlockSound(insts, a, ob, edges) && Linked(ob, nb, a, s, d)
    ensures BlockSound(insts, a, nb, edges + {(s, d)})
  {
    forall c | c in nb.children
      ensures (a, c) in edges + {(s, d)}
    {
      if c !in ob.children {
        assert a == s && c == d;
      }
    }
    forall p | p in nb.parents
      ensures (p, a) in edges + {(s, d)}
    {
      if p !in ob.parents {
        assert a == d && p == s;
      }
    }
  }

  lemma AddEdgeSound(insts: seq<Instruction>, st: Assembly, s: nat, d: nat)
    requires Sound(insts, st) && s in st.blocks.entries && d in st.blocks.entries
    ensures Sound(insts, AddEdge(st, s, d))
  {
    var r := AddEdge(st, s, d);
    AddEdgeEffect(st, s, d);
    forall a | a in r.blocks.entries
      ensures BlockSound(insts, a, r.blocks.entries[a], r.edges)
    {
      LinkedBlockSound(insts, a, st.blocks.entries[a], r.blocks.entries[a], st.edges, s, d);
    }
  }


  /** The fallthrough edge from the `i`-th to the next true block. */
  function FallThrough(addrs: seq<nat>, i: nat): (nat, nat)
    requires i + 1 < |addrs|
  {
    (addrs[i], addrs[i + 1])
  }

  /** The fallthrough edges between consecutive true blocks of one raw block. */
  function ChainEdges(addrs: seq<nat>): set<(nat, nat)> {
    set i | 0 <= i < |addrs| - 1 :: FallThrough(addrs, i)
  }

  lemma ChainEdgesCons(addrs: seq<nat>)
    requires |addrs| >= 2
    ensures ChainEdges(addrs) == {FallThrough(addrs, 0)} + ChainEdges(addrs[1..])
  {
    forall e | e in ChainEdges(addrs)
      ensures e in {FallThrough(addrs, 0)} + ChainEdges(addrs[1..])
    {
      var i :| 0 <= i < |addrs| - 1 && e == FallThrough(addrs, i);
      if i > 0 {
        assert e == FallThrough(addrs[1..], i - 1);
      }
    }
    forall e | e in ChainEdges(addrs[1..])
      ensures e in ChainEdges(addrs)
    {
      var i :| 0 <= i < |addrs[1..]| - 1 && e == FallThrough(addrs[1..], i);
      assert e == FallThrough(addrs, i + 1);
    }
  }

  predicate AllIn(addrs: seq<nat>, blocks: Dict<nat, Block>) {
    forall k | 0 <= k < |addrs| :: addrs[k] in blocks.entries
  }

  /** `for node1, node2 in zip(splitted, splitted[1:])` (loader.py:259-262). */
  function LinkChain(st: Assembly, addrs: seq<nat>): (r: Assembly)
    requires Wired(st) && AllIn(addrs, st.blocks)
    ensures Wired(r)
    ensures r.blocks.entries.Keys == st.blocks.entries.Keys
    ensures r.edges == st.edges + ChainEdges(addrs)
    ensures r.carry == st.carry && r.bbMap == st.bbMap && r.rngMap == st.rngMap && r.count == st.count
    decreases |addrs|
  {
    if |addrs| < 2 then st
    else
      ChainEdgesCons(addrs);
      AddEdgeEffect(st, addrs[0], addrs[1]);
      LinkChain(AddEdge(st, addrs[0], addrs[1]), addrs[1..])
  }

  lemma {:induction false} LinkChainSound(insts: seq<Instruction>, st: Assembly, addrs: seq<nat>)
    requires Wired(st) && AllIn(addrs, st.blocks) && Sound(insts, st)
    ensures Sound(insts, LinkChain(st, addrs))
    decreases |addrs|
  {
    if |addrs| >= 2 {
      AddEdgeSound(insts, st, addrs[0], addrs[1]);
      AddEdgeEffect(st, addrs[0], addrs[1]);
      LinkChainSound(insts, AddEdge(st, addrs[0], addrs[1]), addrs[1..]);
    }
  }

  /** Every consecutive pair of the chain ends up linked both ways, and nothing is dropped. */
  lemma {:induction false} LinkChainLinks(st: Assembly, addrs: seq<nat>)
    requires Wired(st) && AllIn(addrs, st.blocks)
    ensures Grows(st, LinkChain(st, addrs))
    ensures forall i | 0 <= i < |addrs| - 1 :: EdgeLinked(LinkChain(st, addrs), addrs[i], addrs[i + 1])
    decreases |addrs|
  {
    if |addrs| >= 2 {
      var st1 := AddEdge(st, addrs[0], addrs[1]);
      AddEdgeEffect(st, addrs[0], addrs[1]);
      AddEdgeLinks(st, addrs[0], addrs[1]);
      LinkChainLinks(st1, addrs[1..]);
      var r := LinkChain(st, addrs);
      assert r == LinkChain(st1, addrs[1..]);
      GrowsTransitive(st, st1, r);
      GrowsKeepsLinks(st1, r, addrs[0], addrs[1]);
      forall i | 1 <= i < |addrs| - 1
        ensures EdgeLinked(r, addrs[i], addrs[i + 1])
      {
        assert addrs[1..][i - 1] == addrs[i] && addrs[1..][i] == addrs[i + 1];
      }
    }
  }

  // ---------------------------------------------------------------------------------------
  // Splitting raw blocks

  /** The true blocks of one raw block's ranges, their addresses, and the carry after them. */
  datatype Split = Split(blocks: seq<Block>, addrs: seq<nat>, carry: Carry)

  predicate RangesInBounds(insts: seq<Instruction>, ranges: seq<IndexRange>) {
    forall k | 0 <= k < |ranges| :: RangeInBounds(insts, ranges[k])
  }

  predicate RangesResolvable(insts: seq<Instruction>, ranges: seq<IndexRange>) {
    RangesInBounds(insts, ranges) && forall k | 0 <= k < |ranges| :: RangeResolvable(insts, ranges[k])
  }

  /** One `BasicBlockBinExport` per range, threading the carry; an empty range leaves its block
      address `None`, which `graph.add_node` refuses (loader.py:247-255). */
  function WalkRanges(insts: seq<Instruction>, x: XrefTables, c: Carry, rawIdx: nat, ranges: seq<IndexRange>)
    : (r: Result<Split, Fault>)
    requires RangesInBounds(insts, ranges)
    ensures r.Err? ==> r.error == NoneBlockNode(rawIdx) || r.error.NoStoredAddress?
    ensures r.Ok? ==> |r.value.blocks| == |r.value.addrs| == |ranges|
    decreases |ranges|
  {
    if |ranges| == 0 then Ok(Split([], [], c))
    else
      var b :- BuildBlock(insts, x, c, ranges[0]);
      if b.block.addr.None? then Err(NoneBlockNode(rawIdx))
      else
        var rest :- WalkRanges(insts, x, b.carry, rawIdx, ranges[1..]);
        Ok(Split([b.block] + rest.blocks, [b.block.addr.value] + rest.addrs, rest.carry))
  }

  /** Block `b`, placed at `addr`, is fresh and sits at the first address of range `r`
      unless that address is 0. */
  ghost predicate PlacedAt(insts: seq<Instruction>, r: IndexRange, b: Block, addr: nat)
    requires RangeResolvable(insts, r)
  {
    Fresh(insts, b, addr) && (RangeStart(insts, r) != Some(0) ==> Some(addr) == RangeStart(insts, r))
  }

  /** A block built from a non-empty range is fresh and sits at the range's first address
      unless that is 0; the carry after it stays coherent. */
  lemma BuiltFresh(insts: seq<Instruction>, x: XrefTables, c: Carry, r: IndexRange)
    requires Coherent(insts, c)
    requires RangeResolvable(insts, r)
    ensures RangeInBounds(insts, r) && BuildBlock(insts, x, c, r).Ok?
    ensures var b := BuildBlock(insts, x, c, r).value;
            && Coherent(insts, b.carry)
            && (b.block.addr.Some? <==> r.begin < RangeEnd(r))
            && (b.block.addr.Some? ==> PlacedAt(insts, r, b.block, b.block.addr.value))
  {
    BuildBlockCarry(insts, x, c, r);
    var b := BuildBlock(insts, x, c, r).value;
    BuildBlockEntries(insts, x, c, r);
    if b.block.addr.Some? {
      assert BlockResolved(insts, b.block.instrs);
      if RangeStart(insts, r) != Some(0) {
        BuildBlockAddress(insts, x, c, r);
      }
    }
  }

  /** No range of `ranges` is empty. */
  predicate NoEmptyRange(ranges: seq<IndexRange>)
    decreases |ranges|
  {
    |ranges| == 0 || (ranges[0].begin < RangeEnd(ranges[0]) && NoEmptyRange(ranges[1..]))
  }

  lemma {:induction false} NoEmptyRangeEach(ranges: seq<IndexRange>)
    ensures NoEmptyRange(ranges) <==> forall k | 0 <= k < |ranges| :: ranges[k].begin < RangeEnd(ranges[k])
    decreases |ranges|
  {
    if |ranges| > 0 {
      NoEmptyRangeEach(ranges[1..]);
      assert forall k | 1 <= k < |ranges| :: ranges[k] == ranges[1..][k - 1];
    }
  }

  lemma {:induction false} WalkRangesNoEmpty(insts: seq<Instruction>, x: XrefTables, c: Carry, rawIdx: nat, ranges: seq<IndexRange>)
    requires RangesResolvable(insts, ranges)
    ensures WalkRanges(insts, x, c, rawIdx, ranges).Ok? <==> NoEmptyRange(ranges)
    decreases |ranges|
  {
    if |ranges| > 0 {
      BuildBlockOk(insts, x, c, ranges[0]);
      var b := BuildBlock(insts, x, c, ranges[0]).value;
      assert b.block.addr.Some? <==> ranges[0].begin < RangeEnd(ranges[0]);
      if b.block.addr.Some? {
        WalkRangesNoEmpty(insts, x, b.carry, rawIdx, ranges[1..]);
      }
    }
  }

  /** Splitting succeeds exactly when no range of the raw block is empty. */
  lemma WalkRangesOk(insts: seq<Instruction>, x: XrefTables, c: Carry, rawIdx: nat, ranges: seq<IndexRange>)
    requires RangesResolvable(insts, ranges)
    ensures WalkRanges(insts, x, c, rawIdx, ranges).Ok? <==>
              forall k | 0 <= k < |ranges| :: ranges[k].begin < RangeEnd(ranges[k])
  {
    WalkRangesNoEmpty(insts, x, c, rawIdx, ranges);
    NoEmptyRangeEach(ranges);
  }

  /** The carry stays coherent across a successful split. */
  lemma {:induction false} WalkRangesCarry(insts: seq<Instruction>, x: XrefTables, c: Carry, rawIdx: nat, ranges: seq<IndexRange>)
    requires Coherent(insts, c)
    requires RangesResolvable(insts, ranges)
    requires WalkRanges(insts, x, c, rawIdx, ranges).Ok?
    ensures Coherent(insts, WalkRanges(insts, x, c, rawIdx, ranges).value.carry)
    decreases |ranges|
  {
    if |ranges| > 0 {
      BuiltFresh(insts, x, c, ranges[0]);
      var b := BuildBlock(insts, x, c, ranges[0]).value;
      var rest := WalkRanges(insts, x, b.carry, rawIdx, ranges[1..]);
      assert WalkRanges(insts, x, c, rawIdx, ranges).value.carry == rest.value.carry;
      WalkRangesCarry(insts, x, b.carry, rawIdx, ranges[1..]);
    }
  }

  /** Every block of `blocks`, at the matching address, is placed for the matching range. */
  ghost predicate AllPlaced(insts: seq<Instruction>, ranges: seq<IndexRange>, blocks: seq<Block>, addrs: seq<nat>)
    requires RangesResolvable(insts, ranges)
    requires |blocks| == |ranges| && |addrs| == |ranges|
    decreases |ranges|
  {
    |ranges| == 0
    || (PlacedAt(insts, ranges[0], blocks[0], addrs[0]) && AllPlaced(insts, ranges[1..], blocks[1..], addrs[1..]))
  }

  lemma {:induction false} AllPlacedEach(insts: seq<Instruction>, ranges: seq<IndexRange>, blocks: seq<Block>, addrs: seq<nat>)
    requires RangesResolvable(insts, ranges)
    requires |blocks| == |ranges| && |addrs| == |ranges|
    requires AllPlaced(insts, ranges, blocks, addrs)
    ensures forall k | 0 <= k < |ranges| :: PlacedAt(insts, ranges[k], blocks[k], addrs[k])
    decreases |ranges|
  {
    if |ranges| > 0 {
      AllPlacedEach(insts, ranges[1..], blocks[1..], addrs[1..]);
      forall k | 0 <= k < |ranges|
        ensures PlacedAt(insts, ranges[k], blocks[k], addrs[k])
      {
        if k > 0 {
          assert ranges[k] == ranges[1..][k - 1] && blocks[k] == blocks[1..][k - 1] && addrs[k] == addrs[1..][k - 1];
        }
      }
    }
  }

  lemma {:induction false} WalkRangesPlaced(insts: seq<Instruction>, x: XrefTables, c: Carry, rawIdx: nat, ranges: seq<IndexRange>)
    requires Coherent(insts, c)
    requires RangesResolvable(insts, ranges)
    requires WalkRanges(insts, x, c, rawIdx, ranges).Ok?
    ensures var sp := WalkRanges(insts, x, c, rawIdx, ranges).value;
            AllPlaced(insts, ranges, sp.blocks, sp.addrs)
    decreases |ranges|
  {
    if |ranges| > 0 {
      BuiltFresh(insts, x, c, ranges[0]);
      var b := BuildBlock(insts, x, c, ranges[0]).value;
      var rest := WalkRanges(insts, x, b.carry, rawIdx, ranges[1..]).value;
      var sp := WalkRanges(insts, x, c, rawIdx, ranges).value;
      assert sp == Split([b.block] + rest.blocks, [b.block.addr.value] + rest.addrs, rest.carry);
      WalkRangesPlaced(insts, x, b.carry, rawIdx, ranges[1..]);
      assert sp.blocks[1..] == rest.blocks && sp.addrs[1..] == rest.addrs;
    }
  }

  /** Each true block of a successful split is fresh and sits at its range's first address
      unless that is 0. */
  lemma WalkRangesFresh(insts: seq<Instruction>, x: XrefTables, c: Carry, rawIdx: nat, ranges: seq<IndexRange>)
    requires Coherent(insts, c)
    requires RangesResolvable(insts, ranges)
    requires WalkRanges(insts, x, c, rawIdx, ranges).Ok?
    ensures var sp := WalkRanges(insts, x, c, rawIdx, ranges).value;
            forall k | 0 <= k < |ranges| :: PlacedAt(insts, ranges[k], sp.blocks[k], sp.addrs[k])
  {
    var sp := WalkRanges(insts, x, c, rawIdx, ranges).value;
    WalkRangesPlaced(insts, x, c, rawIdx, ranges);
    AllPlacedEach(insts, ranges, sp.blocks, sp.addrs);
  }

  /** `self[bb.addr] = bb` and `bb_count += 1` (loader.py:248-256): a block already at that
      address is replaced, links and all. */
  function InsertBlock(st: Assembly, b: Block, addr: nat): (r: Assembly)
    requires Wired(st)
    ensures Wired(r)
    ensures r.edges == st.edges && r.bbMap == st.bbMap && r.rngMap == st.rngMap && r.carry == st.carry
    ensures r.count == st.count + 1
    ensures r.blocks.entries.Keys == st.blocks.entries.Keys + {addr}
    ensures r.blocks.entries[addr] == b
  {
    st.(blocks := Put(st.blocks, addr, b), count := st.count + 1)
  }

  lemma InsertBlockSound(insts: seq<Instruction>, st: Assembly, b: Block, addr: nat)
    requires Wired(st) && Sound(insts, st) && Fresh(insts, b, addr)
    ensures Sound(insts, InsertBlock(st, b, addr))
  {
    var r := InsertBlock(st, b, addr);
    forall a | a in r.blocks.entries
      ensures BlockSound(insts, a, r.blocks.entries[a], r.edges)
    {
      if a != addr {
        assert BlockSound(insts, a, st.blocks.entries[a], st.edges);
      }
    }
  }

  /** Inserting the true blocks of one raw block in order. */
  function InsertBlocks(st: Assembly, blocks: seq<Block>, addrs: seq<nat>): (r: Assembly)
    requires Wired(st)
    requires |blocks| == |addrs|
    ensures Wired(r)
    ensures r.edges == st.edges && r.bbMap == st.bbMap && r.rngMap == st.rngMap && r.carry == st.carry
    ensures r.count == st.count + |blocks|
    ensures st.blocks.entries.Keys <= r.blocks.entries.Keys
    ensures AllIn(addrs, r.blocks)
    decreases |blocks|
  {
    if |blocks| == 0 then st
    else
      var r := InsertBlocks(InsertBlock(st, blocks[0], addrs[0]), blocks[1..], addrs[1..]);
      assert forall k | 1 <= k < |addrs| :: addrs[k] == addrs[1..][k - 1];
      r
  }

  lemma {:induction false} InsertBlocksSound(insts: seq<Instruction>, st: Assembly, blocks: seq<Block>, addrs: seq<nat>)
    requires Wired(st) && Sound(insts, st)
    requires |blocks| == |addrs|
    requires forall k | 0 <= k < |blocks| :: Fresh(insts, blocks[k], addrs[k])
    ensures Sound(insts, InsertBlocks(st, blocks, addrs))
    decreases |blocks|
  {
    if |blocks| > 0 {
      InsertBlockSound(insts, st, blocks[0], addrs[0]);
      assert forall k | 1 <= k < |addrs| :: blocks[k] == blocks[1..][k - 1] && addrs[k] == addrs[1..][k - 1];
      InsertBlocksSound(insts, InsertBlock(st, blocks[0], addrs[0]), blocks[1..], addrs[1..]);
    }
  }

  /** What `FunctionBinExport.__init__` does with the true blocks of one raw block once they
      are built (loader.py:248-263): each goes into the function under its address, consecutive
      ones are joined by a fallthrough edge, `bb_map` names the last one and, when there are
      several, `rng_map` records the first and the last. The source reassigns `bb_map` after
      every true block; only the last assignment survives, so one update is made. */
  function Attach(st: Assembly, sp: Split, rawIdx: nat): (r: Assembly)
    requires Wired(st) && |sp.blocks| == |sp.addrs|
    ensures Wired(r)
  {
    var st1 := InsertBlocks(st.(carry := sp.carry), sp.blocks, sp.addrs);
    if |sp.addrs| == 0 then st1
    else
      var last := sp.addrs[|sp.addrs| - 1];
      var st2 := st1.(bbMap := st1.bbMap[rawIdx := last]);
      if |sp.addrs| == 1 then st2
      else
        var st3 := LinkChain(st2, sp.addrs);
        st3.(rngMap := st3.rngMap[rawIdx := (sp.addrs[0], last)])
  }

  /** Attaching fresh blocks keeps the assembly sound. */
  lemma AttachSound(insts: seq<Instruction>, st: Assembly, sp: Split, rawIdx: nat)
    requires Wired(st) && Sound(insts, st) && |sp.blocks| == |sp.addrs|
    requires Coherent(insts, sp.carry)
    requires forall k | 0 <= k < |sp.blocks| :: Fresh(insts, sp.blocks[k], sp.addrs[k])
    ensures Sound(insts, Attach(st, sp, rawIdx))
  {
    var st1 := InsertBlocks(st.(carry := sp.carry), sp.blocks, sp.addrs);
    InsertBlocksSound(insts, st.(carry := sp.carry), sp.blocks, sp.addrs);
    if |sp.addrs| > 0 {
      var last := sp.addrs[|sp.addrs| - 1];
      var st2 := st1.(bbMap := st1.bbMap[rawIdx := last]);
      assert Sound(insts, st2);
      if |sp.addrs| > 1 {
        LinkChainSound(insts, st2, sp.addrs);
      }
    }
  }

  /** Attaching k true blocks counts k blocks and leaves `bb_map` naming the last one and
      `rng_map` holding the first and the last exactly when k > 1. */
  lemma AttachMaps(st: Assembly, sp: Split, rawIdx: nat)
    requires Wired(st) && |sp.blocks| == |sp.addrs|
    ensures var r := Attach(st, sp, rawIdx);
            var k := |sp.addrs|;
            && r.count == st.count + k
            && (k > 1 ==> r.rngMap == st.rngMap[rawIdx := (sp.addrs[0], sp.addrs[k - 1])])
            && (k <= 1 ==> r.rngMap == st.rngMap)
            && (k > 0 ==> r.bbMap == st.bbMap[rawIdx := sp.addrs[k - 1]])
            && (k == 0 ==> r.bbMap == st.bbMap)
  {
    var st1 := InsertBlocks(st.(carry := sp.carry), sp.blocks, sp.addrs);
    if |sp.addrs| > 0 {
      var last := sp.addrs[|sp.addrs| - 1];
      var st2 := st1.(bbMap := st1.bbMap[rawIdx := last]);
      if |sp.addrs| > 1 {
        var st3 := LinkChain(st2, sp.addrs);
        assert Attach(st, sp, rawIdx) == st3.(rngMap := st3.rngMap[rawIdx := (sp.addrs[0], last)]);
      } else {
        assert Attach(st, sp, rawIdx) == st2;
      }
    } else {
      assert Attach(st, sp, rawIdx) == st1;
    }
  }

  /** Attaching adds exactly the fallthrough edges between consecutive true blocks, each linked
      both ways, and every true block ends up in the function. */
  lemma AttachChain(st: Assembly, sp: Split, rawIdx: nat)
    requires Wired(st) && |sp.blocks| == |sp.addrs|
    ensures var r := Attach(st, sp, rawIdx);
            && r.edges == st.edges + ChainEdges(sp.addrs)
            && AllIn(sp.addrs, r.blocks)
            && (forall i | 0 <= i < |sp.addrs| - 1 :: EdgeLinked(r, sp.addrs[i], sp.addrs[i + 1]))
  {
    var st1 := InsertBlocks(st.(carry := sp.carry), sp.blocks, sp.addrs);
    if |sp.addrs| > 1 {
      var st2 := st1.(bbMap := st1.bbMap[rawIdx := sp.addrs[|sp.addrs| - 1]]);
      LinkChainLinks(st2, sp.addrs);
    } else {
      assert ChainEdges(sp.addrs) == {};
    }
  }

  /** One raw block of the flow graph (loader.py:245-263): its ranges are walked, then the
      true blocks attached. */
  function SplitRawBlock(a: Artifact, x: XrefTables, st: Assembly, rawIdx: nat): (r: Result<Assembly, Fault>)
    requires Wired(st)
    requires rawIdx < |a.basicBlocks| && RangesInBounds(a.instructions, a.basicBlocks[rawIdx].ranges)
    ensures r.Ok? ==> Wired(r.value)
  {
    var sp :- WalkRanges(a.instructions, x, st.carry, rawIdx, a.basicBlocks[rawIdx].ranges);
    Ok(Attach(st, sp, rawIdx))
  }

  lemma SplitRawBlockSound(a: Artifact, x: XrefTables, st: Assembly, rawIdx: nat)
    requires Wired(st) && Sound(a.instructions, st)
    requires rawIdx < |a.basicBlocks| && RangesResolvable(a.instructions, a.basicBlocks[rawIdx].ranges)
    ensures SplitRawBlock(a, x, st, rawIdx).Ok? ==> Sound(a.instructions, SplitRawBlock(a, x, st, rawIdx).value)
  {
    var ranges := a.basicBlocks[rawIdx].ranges;
    var w := WalkRanges(a.instructions, x, st.carry, rawIdx, ranges);
    if w.Ok? {
      WalkRangesCarry(a.instructions, x, st.carry, rawIdx, ranges);
      WalkRangesFresh(a.instructions, x, st.carry, rawIdx, ranges);
      AttachSound(a.instructions, st, w.value, rawIdx);
    }
  }

  /** A raw block of k ranges yields k true blocks, adds exactly the k-1 fallthrough edges
      between consecutive ones with both neighbour links, and gets a `rng_map` entry holding
      its first and last true block exactly when k > 1; `bb_map` names the last one. */
  lemma SplitRawBlockShape(a: Artifact, x: XrefTables, st: Assembly, rawIdx: nat)
    requires Wired(st)
    requires rawIdx < |a.basicBlocks| && RangesInBounds(a.instructions, a.basicBlocks[rawIdx].ranges)
    requires SplitRawBlock(a, x, st, rawIdx).Ok?
    ensures var ranges := a.basicBlocks[rawIdx].ranges;
            var sp := WalkRanges(a.instructions, x, st.carry, rawIdx, ranges).value;
            var r := SplitRawBlock(a, x, st, rawIdx).value;
            && |sp.addrs| == |ranges|
            && r.count == st.count + |ranges|
            && r.edges == st.edges + ChainEdges(sp.addrs)
            && AllIn(sp.addrs, r.blocks)
            && (forall i | 0 <= i < |ranges| - 1 :: EdgeLinked(r, sp.addrs[i], sp.addrs[i + 1]))
            && (|ranges| > 1 ==> r.rngMap == st.rngMap[rawIdx := (sp.addrs[0], sp.addrs[|ranges| - 1])])
            && (|ranges| <= 1 ==> r.rngMap == st.rngMap)
            && (|ranges| > 0 ==> r.bbMap == st.bbMap[rawIdx := sp.addrs[|ranges| - 1]])
  {
    var ranges := a.basicBlocks[rawIdx].ranges;
    var sp := WalkRanges(a.instructions, x, st.carry, rawIdx, ranges).value;
    assert SplitRawBlock(a, x, st, rawIdx).value == Attach(st, sp, rawIdx);
    AttachMaps(st, sp, rawIdx);
    AttachChain(st, sp, rawIdx);
  }

  /** The outer loop over `pb_fun.basic_block_index`, sharing one carry across the function. */
  /** Every raw block listed exists, and so does every instruction of its ranges. */
  predicate RawBlocksInBounds(a: Artifact, rawIdxs: seq<nat>) {
    forall k | 0 <= k < |rawIdxs| ::
      rawIdxs[k] < |a.basicBlocks| && RangesInBounds(a.instructions, a.basicBlocks[rawIdxs[k]].ranges)
  }

  /** Moreover every instruction of their ranges can be resolved without wrapping round. */
  predicate RawBlocksResolvable(a: Artifact, rawIdxs: seq<nat>) {
    && RawBlocksInBounds(a, rawIdxs)
    && forall k | 0 <= k < |rawIdxs| ::
         rawIdxs[k] < |a.basicBlocks| && RangesResolvable(a.instructions, a.basicBlocks[rawIdxs[k]].ranges)
  }

  function SplitAll(a: Artifact, x: XrefTables, st: Assembly, rawIdxs: seq<nat>): (r: Result<Assembly, Fault>)
    requires Wired(st)
    requires RawBlocksInBounds(a, rawIdxs)
    ensures r.Ok? ==> Wired(r.value)
    decreases |rawIdxs|
  {
    if |rawIdxs| == 0 then Ok(st)
    else
      var st1 :- SplitRawBlock(a, x, st, rawIdxs[0]);
      SplitAll(a, x, st1, rawIdxs[1..])
  }

  lemma {:induction false} SplitAllSound(a: Artifact, x: XrefTables, st: Assembly, rawIdxs: seq<nat>)
    requires Wired(st) && Sound(a.instructions, st)
    requires RawBlocksResolvable(a, rawIdxs)
    ensures SplitAll(a, x, st, rawIdxs).Ok? ==> Sound(a.instructions, SplitAll(a, x, st, rawIdxs).value)
    decreases |rawIdxs|
  {
    if |rawIdxs| > 0 {
      SplitRawBlockSound(a, x, st, rawIdxs[0]);
      var st1 := SplitRawBlock(a, x, st, rawIdxs[0]);
      if st1.Ok? {
        SplitAllSound(a, x, st1.value, rawIdxs[1..]);
      }
    }
  }

  /** Splitting a raw block puts a block under the resolved address of its first instruction,
      unless that is 0 (`_get_basic_block_addr`, loader.py:47-57). */
  lemma SplitRawBlockHead(a: Artifact, x: XrefTables, st: Assembly, rawIdx: nat)
    requires Wired(st) && Coherent(a.instructions, st.carry)
    requires rawIdx < |a.basicBlocks| && RangesResolvable(a.instructions, a.basicBlocks[rawIdx].ranges)
    requires |a.basicBlocks[rawIdx].ranges| > 0
    requires Resolvable(a.instructions, a.basicBlocks[rawIdx].ranges[0].begin)
    requires InstructionAddress(a.instructions, a.basicBlocks[rawIdx].ranges[0].begin) != 0
    requires SplitRawBlock(a, x, st, rawIdx).Ok?
    ensures InstructionAddress(a.instructions, a.basicBlocks[rawIdx].ranges[0].begin)
            in SplitRawBlock(a, x, st, rawIdx).value.blocks.entries
  {
    var insts := a.instructions;
    var ranges := a.basicBlocks[rawIdx].ranges;
    var sp := WalkRanges(insts, x, st.carry, rawIdx, ranges).value;
    var head := InstructionAddress(insts, ranges[0].begin);
    assert sp.addrs[0] == head by {
      WalkRangesOk(insts, x, st.carry, rawIdx, ranges);
      WalkRangesFresh(insts, x, st.carry, rawIdx, ranges);
      assert RangeResolvable(insts, ranges[0]) && PlacedAt(insts, ranges[0], sp.blocks[0], sp.addrs[0]);
      assert RangeStart(insts, ranges[0]) == Some(head);
    }
    assert SplitRawBlock(a, x, st, rawIdx).value == Attach(st, sp, rawIdx);
    AttachChain(st, sp, rawIdx);
  }

  /** Splitting drops no block address. */
  lemma {:induction false} SplitAllKeepsKeys(a: Artifact, x: XrefTables, st: Assembly, rawIdxs: seq<nat>)
    requires Wired(st) && RawBlocksInBounds(a, rawIdxs)
    requires SplitAll(a, x, st, rawIdxs).Ok?
    ensures st.blocks.entries.Keys <= SplitAll(a, x, st, rawIdxs).value.blocks.entries.Keys
    decreases |rawIdxs|
  {
    if |rawIdxs| > 0 {
      var ranges := a.basicBlocks[rawIdxs[0]].ranges;
      var sp := WalkRanges(a.instructions, x, st.carry, rawIdxs[0], ranges).value;
      var st1 := SplitRawBlock(a, x, st, rawIdxs[0]).value;
      assert st1 == Attach(st, sp, rawIdxs[0]);
      SplitAllKeepsKeys(a, x, st1, rawIdxs[1..]);
    }
  }

  lemma RawBlocksResolvableTail(a: Artifact, rawIdxs: seq<nat>)
    requires |rawIdxs| > 0 && RawBlocksResolvable(a, rawIdxs)
    ensures rawIdxs[0] < |a.basicBlocks| && RangesResolvable(a.instructions, a.basicBlocks[rawIdxs[0]].ranges)
    ensures RawBlocksResolvable(a, rawIdxs[1..])
  {
    assert forall k | 1 <= k < |rawIdxs| :: rawIdxs[1..][k - 1] == rawIdxs[k];
  }

  /** After splitting, the resolved address of every listed raw block's first instruction holds
      a block of the function, unless that address is 0. A later block at the same address may
      have replaced the raw block's own. */
  lemma {:induction false} SplitAllHead(a: Artifact, x: XrefTables, st: Assembly, rawIdxs: seq<nat>, k: nat)
    requires Wired(st) && Sound(a.instructions, st)
    requires RawBlocksResolvable(a, rawIdxs)
    requires k < |rawIdxs| && |a.basicBlocks[rawIdxs[k]].ranges| > 0
    requires Resolvable(a.instructions, a.basicBlocks[rawIdxs[k]].ranges[0].begin)
    requires InstructionAddress(a.instructions, a.basicBlocks[rawIdxs[k]].ranges[0].begin) != 0
    requires SplitAll(a, x, st, rawIdxs).Ok?
    ensures InstructionAddress(a.instructions, a.basicBlocks[rawIdxs[k]].ranges[0].begin)
            in SplitAll(a, x, st, rawIdxs).value.blocks.entries
    decreases k
  {
    RawBlocksResolvableTail(a, rawIdxs);
    var st1 := SplitRawBlock(a, x, st, rawIdxs[0]).value;
    assert SplitAll(a, x, st, rawIdxs) == SplitAll(a, x, st1, rawIdxs[1..]);
    if k == 0 {
      SplitRawBlockHead(a, x, st, rawIdxs[0]);
      SplitAllKeepsKeys(a, x, st1, rawIdxs[1..]);
    } else {
      SplitRawBlockSound(a, x, st, rawIdxs[0]);
      assert rawIdxs[1..][k - 1] == rawIdxs[k];
      SplitAllHead(a, x, st1, rawIdxs[1..], k - 1);
    }
  }

  // ---------------------------------------------------------------------------------------
  // Flow-graph edges

  /** `rng_map[i][1] if i in rng_map else bb_map[i]` (loader.py:273): a split block is left
      from its last true block. */
  function EdgeSource(st: Assembly, i: nat): Result<nat, Fault> {
    if i in st.rngMap then Ok(st.rngMap[i].1)
    else if i in st.bbMap then Ok(st.bbMap[i])
    else Err(UnknownFlowBlock(i))
  }

  /** `rng_map[i][0] if i in rng_map else bb_map[i]` (loader.py:275): a split block is entered
      at its first true block. */
  function EdgeTarget(st: Assembly, i: nat): Result<nat, Fault> {
    if i in st.rngMap then Ok(st.rngMap[i].0)
    else if i in st.bbMap then Ok(st.bbMap[i])
    else Err(UnknownFlowBlock(i))
  }

  /** An edge endpoint resolves exactly when its raw block was built, and then to a block of
      the function. */
  lemma EdgeEndpoints(st: Assembly, i: nat)
    requires Wired(st)
    ensures EdgeSource(st, i).Ok? <==> i in st.bbMap
    ensures EdgeTarget(st, i).Ok? <==> i in st.bbMap
    ensures i in st.bbMap ==>
              EdgeSource(st, i).value in st.blocks.entries && EdgeTarget(st, i).value in st.blocks.entries
  {
  }

  /** `for edge in pb_fun.edge` (loader.py:270-279). */
  function AddFlowEdges(st: Assembly, es: seq<FlowEdge>): (r: Result<Assembly, Fault>)
    requires Wired(st)
    ensures r.Ok? ==> Wired(r.value) && r.value.bbMap == st.bbMap && r.value.rngMap == st.rngMap
    decreases |es|
  {
    if |es| == 0 then Ok(st)
    else
      var s :- EdgeSource(st, es[0].source);
      var d :- EdgeTarget(st, es[0].target);
      EdgeEndpoints(st, es[0].source);
      EdgeEndpoints(st, es[0].target);
      AddEdgeEffect(st, s, d);
      AddFlowEdges(AddEdge(st, s, d), es[1..])
  }

  lemma {:induction false} AddFlowEdgesSound(insts: seq<Instruction>, st: Assembly, es: seq<FlowEdge>)
    requires Wired(st) && Sound(insts, st)
    ensures AddFlowEdges(st, es).Ok? ==> Sound(insts, AddFlowEdges(st, es).value)
    decreases |es|
  {
    if |es| > 0 && es[0].source in st.bbMap && es[0].target in st.bbMap {
      EdgeEndpoints(st, es[0].source);
      EdgeEndpoints(st, es[0].target);
      var s := EdgeSource(st, es[0].source).value;
      var d := EdgeTarget(st, es[0].target).value;
      AddEdgeSound(insts, st, s, d);
      AddEdgeEffect(st, s, d);
      assert AddFlowEdges(st, es) == AddFlowEdges(AddEdge(st, s, d), es[1..]);
      AddFlowEdgesSound(insts, AddEdge(st, s, d), es[1..]);
    }
  }

  /** Both ends of flow edge `e` name raw blocks that were built. */
  predicate EndsBuilt(bbMap: map<nat, nat>, e: FlowEdge) {
    e.source in bbMap && e.target in bbMap
  }

  /** Every flow edge of `es` has both ends built. */
  predicate AllEndsBuilt(bbMap: map<nat, nat>, es: seq<FlowEdge>)
    decreases |es|
  {
    |es| == 0 || (EndsBuilt(bbMap, es[0]) && AllEndsBuilt(bbMap, es[1..]))
  }

  lemma {:induction false} AllEndsBuiltEach(bbMap: map<nat, nat>, es: seq<FlowEdge>)
    ensures AllEndsBuilt(bbMap, es) <==> forall j | 0 <= j < |es| :: EndsBuilt(bbMap, es[j])
    decreases |es|
  {
    if |es| > 0 {
      AllEndsBuiltEach(bbMap, es[1..]);
      assert forall j | 1 <= j < |es| :: es[j] == es[1..][j - 1];
    }
  }

  lemma {:induction false} FlowEdgesResolveStep(st: Assembly, es: seq<FlowEdge>)
    requires Wired(st)
    ensures AddFlowEdges(st, es).Ok? <==> AllEndsBuilt(st.bbMap, es)
    ensures AddFlowEdges(st, es).Err? ==> AddFlowEdges(st, es).error.UnknownFlowBlock?
    decreases |es|
  {
    if |es| > 0 {
      EdgeEndpoints(st, es[0].source);
      EdgeEndpoints(st, es[0].target);
      if EndsBuilt(st.bbMap, es[0]) {
        var s := EdgeSource(st, es[0].source).value;
        var d := EdgeTarget(st, es[0].target).value;
        var st1 := AddEdge(st, s, d);
        AddEdgeEffect(st, s, d);
        FlowEdgesResolveStep(st1, es[1..]);
        assert AddFlowEdges(st, es) == AddFlowEdges(st1, es[1..]);
      }
    }
  }

  /** Adding the flow edges fails exactly when one names a raw block the function did not
      build. */
  lemma FlowEdgesResolve(st: Assembly, es: seq<FlowEdge>)
    requires Wired(st)
    ensures AddFlowEdges(st, es).Ok? <==> forall j | 0 <= j < |es| :: EndsBuilt(st.bbMap, es[j])
    ensures AddFlowEdges(st, es).Err? ==> AddFlowEdges(st, es).error.UnknownFlowBlock?
  {
    FlowEdgesResolveStep(st, es);
    AllEndsBuiltEach(st.bbMap, es);
  }

  /** Flow edge `e` resolves against the maps of `r` and is linked in `r`. */
  ghost predicate FlowEdgeLinked(r: Assembly, e: FlowEdge) {
    && EdgeSource(r, e.source).Ok? && EdgeTarget(r, e.target).Ok?
    && EdgeLinked(r, EdgeSource(r, e.source).value, EdgeTarget(r, e.target).value)
  }

  /** Adding flow edges drops nothing. */
  lemma {:induction false} FlowEdgesGrow(st: Assembly, es: seq<FlowEdge>)
    requires Wired(st)
    requires AddFlowEdges(st, es).Ok?
    ensures Grows(st, AddFlowEdges(st, es).value)
    decreases |es|
  {
    FlowEdgesResolve(st, es);
    if |es| > 0 {
      EdgeEndpoints(st, es[0].source);
      EdgeEndpoints(st, es[0].target);
      var s := EdgeSource(st, es[0].source).value;
      var d := EdgeTarget(st, es[0].target).value;
      var st1 := AddEdge(st, s, d);
      AddEdgeEffect(st, s, d);
      AddEdgeLinks(st, s, d);
      assert AddFlowEdges(st, es) == AddFlowEdges(st1, es[1..]);
      FlowEdgesGrow(st1, es[1..]);
      GrowsTransitive(st, st1, AddFlowEdges(st1, es[1..]).value);
    }
  }

  /** The first flow edge stays linked however many edges follow it. */
  lemma FirstFlowEdgeLinked(st: Assembly, es: seq<FlowEdge>)
    requires Wired(st)
    requires |es| > 0 && AddFlowEdges(st, es).Ok?
    ensures FlowEdgeLinked(AddFlowEdges(st, es).value, es[0])
  {
    FlowEdgesResolve(st, es);
    EdgeEndpoints(st, es[0].source);
    EdgeEndpoints(st, es[0].target);
    var s := EdgeSource(st, es[0].source).value;
    var d := EdgeTarget(st, es[0].target).value;
    var st1 := AddEdge(st, s, d);
    AddEdgeEffect(st, s, d);
    assert AddFlowEdges(st, es) == AddFlowEdges(st1, es[1..]);
    var r := AddFlowEdges(st1, es[1..]).value;
    AddEdgeLinks(st, s, d);
    FlowEdgesGrow(st1, es[1..]);
    GrowsKeepsLinks(st1, r, s, d);
    assert EdgeSource(r, es[0].source) == EdgeSource(st, es[0].source);
    assert EdgeTarget(r, es[0].target) == EdgeTarget(st, es[0].target);
  }

  /** Every flow edge of `es` is linked in `r`. */
  ghost predicate AllFlowLinked(r: Assembly, es: seq<FlowEdge>)
    decreases |es|
  {
    |es| == 0 || (FlowEdgeLinked(r, es[0]) && AllFlowLinked(r, es[1..]))
  }

  lemma {:induction false} AllFlowLinkedEach(r: Assembly, es: seq<FlowEdge>)
    requires AllFlowLinked(r, es)
    ensures forall j | 0 <= j < |es| :: FlowEdgeLinked(r, es[j])
    decreases |es|
  {
    if |es| > 0 {
      AllFlowLinkedEach(r, es[1..]);
      assert forall j | 1 <= j < |es| :: es[j] == es[1..][j - 1];
    }
  }

  lemma {:induction false} FlowEdgesAllLinked(st: Assembly, es: seq<FlowEdge>)
    requires Wired(st)
    requires AddFlowEdges(st, es).Ok?
    ensures AllFlowLinked(AddFlowEdges(st, es).value, es)
    decreases |es|
  {
    if |es| > 0 {
      FlowEdgesResolve(st, es);
      EdgeEndpoints(st, es[0].source);
      EdgeEndpoints(st, es[0].target);
      var s := EdgeSource(st, es[0].source).value;
      var d := EdgeTarget(st, es[0].target).value;
      var st1 := AddEdge(st, s, d);
      AddEdgeEffect(st, s, d);
      assert AddFlowEdges(st, es) == AddFlowEdges(st1, es[1..]);
      FirstFlowEdgeLinked(st, es);
      FlowEdgesAllLinked(st1, es[1..]);
    }
  }

  /** Once the flow edges are added, every one of them is in the graph between its remapped
      endpoints, with the target among the source's children and the source among the
      target's parents. */
  lemma FlowEdgesLinked(st: Assembly, es: seq<FlowEdge>)
    requires Wired(st)
    requires AddFlowEdges(st, es).Ok?
    ensures forall j | 0 <= j < |es| :: FlowEdgeLinked(AddFlowEdges(st, es).value, es[j])
  {
    FlowEdgesAllLinked(st, es);
    AllFlowLinkedEach(AddFlowEdges(st, es).value, es);
  }

  /** The same, with the endpoints resolved against the maps the edges were added with. */
  lemma FlowEdgesInGraph(st: Assembly, es: seq<FlowEdge>)
    requires Wired(st)
    requires AddFlowEdges(st, es).Ok?
    ensures var r := AddFlowEdges(st, es).value;
            forall j | 0 <= j < |es| ::
              && EdgeSource(st, es[j].source).Ok? && EdgeTarget(st, es[j].target).Ok?
              && InGraph(r.blocks, r.edges, EdgeSource(st, es[j].source).value, EdgeTarget(st, es[j].target).value)
  {
    var r := AddFlowEdges(st, es).value;
    FlowEdgesLinked(st, es);
    forall j | 0 <= j < |es|
      ensures EdgeSource(st, es[j].source) == EdgeSource(r, es[j].source)
      ensures EdgeTarget(st, es[j].target) == EdgeTarget(r, es[j].target)
    {
    }
  }

  // ---------------------------------------------------------------------------------------
  // The whole function

  /** The records of a flow graph that the loader indexes exist. */
  predicate FlowGraphInBounds(a: Artifact, fg: FlowGraph) {
    && fg.entry < |a.basicBlocks|
    && (|a.basicBlocks[fg.entry].ranges| > 0 ==> a.basicBlocks[fg.entry].ranges[0].begin < |a.instructions|)
    && RawBlocksInBounds(a, fg.blocks)
  }

  /** Moreover every instruction the loader walks or resolves has a stored address at or
      before it, so that resolution never wraps round the array. */
  predicate FlowGraphResolvable(a: Artifact, fg: FlowGraph) {
    && FlowGraphInBounds(a, fg)
    && (|a.basicBlocks[fg.entry].ranges| > 0 ==> Anchored(a.instructions, a.basicBlocks[fg.entry].ranges[0].begin))
    && RawBlocksResolvable(a, fg.blocks)
  }

  /** The block phase of `FunctionBinExport.__init__` (loader.py:241-263). */
  function AssembleBlocks(a: Artifact, x: XrefTables, fg: FlowGraph): (r: Result<Assembly, Fault>)
    requires FlowGraphInBounds(a, fg)
    ensures r.Ok? ==> Wired(r.value)
  {
    InitialAssemblySound(a.instructions);
    SplitAll(a, x, InitialAssembly, fg.blocks)
  }

  /** `FunctionBinExport.__init__` for a flow graph (loader.py:239-279). */
  function BuildFunction(a: Artifact, x: XrefTables, fg: FlowGraph): (r: Result<Func, Fault>)
    requires FlowGraphInBounds(a, fg)
    ensures |a.basicBlocks[fg.entry].ranges| == 0 ==> r == Err(EntryWithoutRange(fg.entry))
    ensures BasicBlockAddress(a, fg.entry).Err? ==> r == Err(BasicBlockAddress(a, fg.entry).error)
    ensures r.Ok? ==>
              && BasicBlockAddress(a, fg.entry) == Ok(r.value.addr)
              && r.value.ftype.None? && r.value.name.None?
              && r.value.parents == {} && r.value.children == {}
  {
    var addr :- BasicBlockAddress(a, fg.entry);
    var st :- AssembleBlocks(a, x, fg);
    var st' :- AddFlowEdges(st, fg.edges);
    Ok(Func(addr, st'.blocks, st'.edges, None, None, {}, {}))
  }

  /** A built function's blocks sit under their own addresses, every instruction under its
      resolved address, and block neighbours are recorded only along edges between blocks. */
  lemma BuildFunctionSound(a: Artifact, x: XrefTables, fg: FlowGraph)
    requires FlowGraphResolvable(a, fg)
    requires BuildFunction(a, x, fg).Ok?
    ensures BlocksSound(a.instructions, BuildFunction(a, x, fg).value.blocks, BuildFunction(a, x, fg).value.edges)
  {
    InitialAssemblySound(a.instructions);
    SplitAllSound(a, x, InitialAssembly, fg.blocks);
    var st := AssembleBlocks(a, x, fg).value;
    AddFlowEdgesSound(a.instructions, st, fg.edges);
  }

  /** Every flow-graph edge of a built function is in its graph and linked both ways, between
      the last true block of its source and the first true block of its target. */
  lemma BuildFunctionFlowEdges(a: Artifact, x: XrefTables, fg: FlowGraph)
    requires FlowGraphInBounds(a, fg)
    requires BuildFunction(a, x, fg).Ok?
    ensures AssembleBlocks(a, x, fg).Ok?
    ensures var st := AssembleBlocks(a, x, fg).value;
            var f := BuildFunction(a, x, fg).value;
            forall j | 0 <= j < |fg.edges| ::
              && EdgeSource(st, fg.edges[j].source).Ok? && EdgeTarget(st, fg.edges[j].target).Ok?
              && InGraph(f.blocks, f.edges, EdgeSource(st, fg.edges[j].source).value, EdgeTarget(st, fg.edges[j].target).value)
  {
    var st := AssembleBlocks(a, x, fg).value;
    var r := AddFlowEdges(st, fg.edges).value;
    assert BuildFunction(a, x, fg).value.blocks == r.blocks && BuildFunction(a, x, fg).value.edges == r.edges;
    FlowEdgesInGraph(st, fg.edges);
  }

  /** The function's address is a block of the function: when the entry raw block is one of
      the function's blocks and its first instruction does not resolve to 0, the address
      `_get_basic_block_addr` gave the function is a key of its block dict. The block under it
      is the entry's first true block unless a later range resolved to the same address and
      replaced it (loader.py:251-253). */
  lemma BuildFunctionEntryBlock(a: Artifact, x: XrefTables, fg: FlowGraph)
    requires FlowGraphResolvable(a, fg)
    requires BuildFunction(a, x, fg).Ok? && BuildFunction(a, x, fg).value.addr != 0
    requires fg.entry in fg.blocks
    ensures BuildFunction(a, x, fg).value.addr in BuildFunction(a, x, fg).value.blocks.entries
  {
    var insts := a.instructions;
    var first := a.basicBlocks[fg.entry].ranges[0].begin;
    ResolveAnchored(insts, first);
    var k :| 0 <= k < |fg.blocks| && fg.blocks[k] == fg.entry;
    InitialAssemblySound(insts);
    SplitAllHead(a, x, InitialAssembly, fg.blocks, k);
    var st := AssembleBlocks(a, x, fg).value;
    FlowEdgesGrow(st, fg.edges);
  }
}
