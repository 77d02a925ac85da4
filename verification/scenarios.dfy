/** Worked cases of the loader's behaviour on small, concrete record sets: how a range of
    instructions without stored addresses is walked, what the operand
    renderer prints for a register list and for a tree given child first, what
    the classifier does with a data label before any size, how a comment is picked at a
    function entry, and how a call-graph vertex without a function stops the load. */
module Scenarios {
  import opened Wrappers
  import opened Records
  import opened PyDict
  import opened CrossRefs
  import opened Functions
  import opened Programs
  import opened Operands
  import opened Walk
  import opened Instructions
  import opened Address

  /** Building a list one token longer places that token on the forest built so far. */
  lemma BuildSnoc(ts: seq<Token>, t: Token)
    ensures Build(ts + [t]) == Place(Build(ts), t)
  {
    assert (ts + [t])[..|ts|] == ts;
  }

  /** A register token under index 3, listed before the operator token that has index 3. */
  const Eax: Token := Token(Reg, Text("eax"), 5, 3)
  const Plus: Token := Token(SymbolKind, Text("+"), 3, 0)

  /** The register hangs under a placeholder object 0 made for index 3. */
  lemma EaxPlaced()
    ensures var f := Place(EmptyForest(), Eax);
            && |f.nodes| == 2 && f.tree == map[3 := 0, 5 := 1] && f.removed == map[] && f.minIdx == 3
            && f.nodes[0].children == [1]
  {
  }

  /** The operator gets a placeholder object for index 0 as its parent, becomes the newest
      object, and takes index 3 over from the placeholder that holds the register. */
  lemma PlusPlaced(f: Forest)
    requires Shaped(f) && |f.nodes| == 2 && f.tree == map[3 := 0, 5 := 1] && f.removed == map[] && f.minIdx == 3
    ensures var g := Place(f, Plus);
            && |g.nodes| == 4 && g.minIdx == 0 && g.tree[0] == 2 && g.tree[3] == 3
            && g.nodes[2] == Node(Text(""), false, [3]) && g.nodes[3] == Node(Text("+"), true, [])
  {
  }

  /** A token listed before its parent's token is lost: the parent's own token replaces the
      placeholder it hung under, so the operand prints as an operator without operands. */
  lemma ChildBeforeParent()
    ensures TreeString(Build([Eax, Plus])) == "+()"
  {
    BuildSnoc([], Eax);
    BuildSnoc([Eax], Plus);
    assert [] + [Eax] == [Eax] && [Eax] + [Plus] == [Eax, Plus];
    var f1 := Build([Eax]);
    EaxPlaced();
    PlusPlaced(f1);
    var g := Place(f1, Plus);
    assert Build([Eax, Plus]) == g;
    assert Render(g.nodes, 3) == "+()";
    assert Render(g.nodes, 2) == "+()";
  }

  /** The tokens of a register list `{r1, r2}`: a brace, a comma under it, the two registers
      under the comma. */
  const Brace: Token := Token(SymbolKind, Text("{"), 1, 0)
  const Comma: Token := Token(SymbolKind, Text(","), 2, 1)
  const R1: Token := Token(Reg, Text("r1"), 3, 2)
  const R2: Token := Token(Reg, Text("r2"), 4, 2)

  lemma BracePlaced()
    ensures var f := Place(EmptyForest(), Brace);
            && |f.nodes| == 2 && f.tree == map[0 := 0, 1 := 1] && f.removed == map[] && f.minIdx == 0
            && f.nodes[0] == Node(Text(""), false, [1]) && f.nodes[1] == Node(Text("{"), true, [])
  {
  }

  /** The comma makes no object; it only sends index 2 on to the brace. */
  lemma CommaPlaced(f: Forest)
    requires Shaped(f)
    ensures Place(f, Comma) == f.(removed := f.removed[2 := 1])
  {
  }

  /** Each register is redirected past the comma and hangs under the brace. */
  lemma RegisterPlaced(f: Forest, r: Token, children: seq<nat>)
    requires Shaped(f) && r.kind == Reg && r.parent == 2 && f.removed == map[2 := 1]
    requires 1 in f.tree && f.tree[1] == 1 && 1 < |f.nodes| && f.nodes[1] == Node(Text("{"), true, children)
    requires r.idx > 1 && f.minIdx == 0 && 0 in f.tree && f.tree[0] == 0
    ensures var g := Place(f, r);
            && |g.nodes| == |f.nodes| + 1 && g.removed == f.removed && g.minIdx == 0
            && g.nodes[1] == Node(Text("{"), true, children + [|f.nodes|])
            && g.nodes[|f.nodes|] == Node(r.value, false, [])
            && g.nodes[0] == f.nodes[0] && g.tree[0] == 0 && g.tree[1] == 1
  {
    assert !IsComma(r) && Redirect(f, r.parent) == 1;
    PlaceAttach(f, r);
  }

  /** The forest the register list builds, step by step. */
  lemma RegListBuilt()
    ensures Build([Brace, Comma, R1, R2]) == Place(Place(Place(Place(EmptyForest(), Brace), Comma), R1), R2)
  {
    assert [] + [Brace] == [Brace] && [Brace] + [Comma] == [Brace, Comma];
    assert [Brace, Comma] + [R1] == [Brace, Comma, R1] && [Brace, Comma, R1] + [R2] == [Brace, Comma, R1, R2];
    BuildSnoc([], Brace);
    BuildSnoc([Brace], Comma);
    BuildSnoc([Brace, Comma], R1);
    BuildSnoc([Brace, Comma, R1], R2);
  }

  /** The objects of the built register list print as the braced list. */
  lemma RegListRendered(f: Forest)
    requires Shaped(f) && |f.nodes| == 4 && f.minIdx == 0 && 0 in f.tree && f.tree[0] == 0
    requires f.nodes[0] == Node(Text(""), false, [1]) && f.nodes[1] == Node(Text("{"), true, [2, 3])
    requires f.nodes[2] == Node(Text("r1"), false, []) && f.nodes[3] == Node(Text("r2"), false, [])
    ensures TreeString(f) == "{r1,r2}"
  {
    assert Render(f.nodes, 2) == "r1";
    assert Render(f.nodes, 3) == "r2";
    assert [2, 3][..1] == [2];
    assert RenderChildren(f.nodes, 1, [2, 3]) == "r1,r2";
    assert Render(f.nodes, 1) == "{r1,r2}";
    assert Render(f.nodes, 0) == "{r1,r2}";
  }

  /** The comma expression is dropped and its operands hang under the brace directly, which
      closes with `}`, opens without a parenthesis, and joins its operands with commas. */
  lemma CommaElided()
    ensures TreeString(Build([Brace, Comma, R1, R2])) == "{r1,r2}"
  {
    RegListBuilt();
    var f1 := Place(EmptyForest(), Brace);
    BracePlaced();
    var f2 := Place(f1, Comma);
    CommaPlaced(f1);
    var f3 := Place(f2, R1);
    RegisterPlaced(f2, R1, []);
    var f := Place(f3, R2);
    RegisterPlaced(f3, R2, [2]);
    RegListRendered(f);
  }

  /** A program with no functions and no names, for classifying expressions in isolation. */
  function BareProgram(): (p: Program)
    ensures NamesResolve(p) && p.functions.entries == map[]
  {
    Program(0xFFFF_FFFF, XrefTables(map[], map[], map[]), Empty(), map[])
  }

  /** An immediate that the instruction references as data needs a size prefix before it: an
      operand of the bare immediate fails the walk, and one with a `b4` prefix in front walks
      to a `dword_` label. */
  lemma DataLabelNeedsSize()
    ensures var sc := Scope(BareProgram(), ImportFunction(0), [0x404000]);
            var exprs := [Expression(SizePrefix, "b4", 0, 0), Expression(ImmediateInt, "", 0x404000, 0)];
            && Iterate(sc, exprs, [1]) == Err(DataLabelWithoutSize(0x404000))
            && Iterate(sc, exprs, [0, 1]) == Ok((Some(4), [Token(DatName, Text(DataLabel(4, 0x404000)), 1, 0)]))
  {
    var sc := Scope(BareProgram(), ImportFunction(0), [0x404000]);
    var exprs := [Expression(SizePrefix, "b4", 0, 0), Expression(ImmediateInt, "", 0x404000, 0)];
    var first: seq<nat> := [0];
    var both: seq<nat> := [0, 1];
    var last: seq<nat> := [1];
    assert last[..0] == [] && first[..0] == [] && both[..1] == first;
    assert SizeOf("b4") == Some(4);
    assert Classify(sc, exprs[0], 0, None) == Ok((Some(4), []));
    assert |Iterate(sc, exprs, first).value.1| == 0;
    assert Iterate(sc, exprs, first) == Ok((Some(4), []));
    var dat := Token(DatName, Text(DataLabel(4, 0x404000)), 1, 0);
    assert Classify(sc, exprs[1], 1, Some(4)) == Ok((Some(4), [dat]));
    assert [] + [dat] == [dat];
  }

  /** The label spells the size's name, an underscore and the address in upper-case hex. */
  lemma DataLabelSpelling()
    ensures DataLabel(4, 0xAB) == "dword_AB"
  {
    assert Hex.Upper(0xAB) == "AB";
  }

  /** A program with one function, at 0x10, called `name` in the call graph. */
  function EntryProgram(name: string): (p: Program)
    requires name != ""
    ensures 0x10 in p.functions.entries
    ensures FunctionName(p.functions.entries[0x10]) == name
  {
    var f := Func(0x10, Empty(), {}, Some(Normal), Some(name), {}, {});
    Program(0xFFFF_FFFF, XrefTables(map[], map[], map[]), Dict([0x10], map[0x10 := f]), map[name := 0x10])
  }

  /** At a function entry the last address comment is skipped when it is the function's name,
      and the comment is lost altogether when it is not. Away from an entry the last one is
      the comment. */
  lemma EntryComments()
    ensures Comment(EntryProgram("b"), Instr(0x10, 0, [], ["a", "b"])) == Some("a")
    ensures Comment(EntryProgram("b"), Instr(0x10, 0, [], ["b"])) == Some("")
    ensures Comment(EntryProgram("c"), Instr(0x10, 0, [], ["a", "b"])).None?
    ensures Comment(EntryProgram("b"), Instr(0x14, 1, [], ["a", "b"])) == Some("b")
    ensures Comment(EntryProgram("b"), Instr(0x10, 0, [0x20, 0x30], ["a", "b"])) == Some("")
  {
  }

  /** A record set with one call-graph vertex and no flow graphs. */
  function OneVertex(v: Vertex): (a: Artifact)
    ensures Loadable(a)
  {
    Artifact("x86-64", [], [], [], CallGraph([v], []), [], [], [], [], [], [])
  }

  /** A normal vertex without a flow graph has no function to attach to, and the load fails. */
  lemma MissingVertexFunction()
    ensures LoadProgram(OneVertex(Vertex(0x1000, Normal, "f"))) == Err(MissingFunction(0x1000))
  {
  }

  /** The dict an imported vertex at 0x2000 called `puts` leaves behind. */
  const PutsDict: Dict<nat, Func> := Dict([0x2000], map[0x2000 := Retype(ImportFunction(0x2000), Vertex(0x2000, Imported, "puts"))])

  /** With no function built, the imported vertex synthesises one and names it. */
  lemma PutsOverlay()
    ensures Valid(LoadFunctions([])) && Valid(PutsDict)
    ensures OverlayVertices(LoadFunctions([]), [Vertex(0x2000, Imported, "puts")]) == Ok(PutsDict)
  {
    var v := Vertex(0x2000, Imported, "puts");
    var e: Dict<nat, Func> := Empty();
    assert FunctionEntries([]) == [];
    assert LoadFunctions([]) == e;
    var d1 := Put(e, 0x2000, ImportFunction(0x2000));
    assert d1 == Dict([0x2000], map[0x2000 := ImportFunction(0x2000)]);
    assert d1.entries[0x2000 := Retype(ImportFunction(0x2000), v)] == PutsDict.entries;
    assert OverlayVertex(e, v) == Ok(PutsDict);
    assert [v][..0] == [];
  }

  /** The one function is named `puts`. */
  lemma PutsNames()
    ensures Valid(PutsDict) && NameTable(PutsDict) == map["puts" := 0x2000]
  {
    assert Valid(PutsDict);
    assert FunctionName(PutsDict.entries[0x2000]) == "puts";
    assert PutsDict.order[..0] == [];
  }

  /** An imported vertex without a flow graph gets a bare function of its own, named by the
      vertex. */
  lemma ImportedVertexFunction()
    ensures var r := LoadProgram(OneVertex(Vertex(0x2000, Imported, "puts")));
            && r.Ok?
            && r.value.functions.order == [0x2000]
            && r.value.functions.entries[0x2000].ftype == Some(Imported)
            && r.value.funNames == map["puts" := 0x2000]
  {
    var a := OneVertex(Vertex(0x2000, Imported, "puts"));
    assert BuildAll(a, BuildXrefs(a), a.flowGraphs) == Ok([]);
    PutsOverlay();
    PutsNames();
    assert LinkCalls(PutsDict, a.callGraph.vertices, a.callGraph.edges) == Ok(PutsDict);
  }

  /** Two instructions without stored addresses, of 4 bytes and of 1 byte. */
  const Unaddressed: seq<Instruction> := [Instruction(None, [0x90, 0x90, 0x90, 0x90], []), Instruction(None, [0xC3], [])]

  /** The walk over both instructions: the first reads the default 0, the second takes the
      carried 4, and the carry ends after the second. */
  lemma UnaddressedWalk()
    ensures Walk.IndicesInBounds(Unaddressed, [0, 1])
    ensures WalkIndices(Unaddressed, InitialCarry, [0, 1]) == Ok(Walked([0, 4], Carry(Some(5), 1)))
  {
    var idxs: seq<nat> := [0, 1];
    assert PlaceAddress(Unaddressed, InitialCarry, 0) == Ok(0);
    assert PlaceAddress(Unaddressed, Carry(Some(4), 0), 1) == Ok(4);
    assert WalkIndices(Unaddressed, Carry(Some(5), 1), []) == Ok(Walked([], Carry(Some(5), 1)));
    assert [1][1..] == [] && idxs[1..] == [1];
    assert Advance(Unaddressed, 1, 4) == Carry(Some(5), 1) && Advance(Unaddressed, 0, 0) == Carry(Some(4), 0);
    var w1 := WalkIndices(Unaddressed, Carry(Some(4), 0), [1]);
    assert w1.Ok? && w1.value.addrs == [4] + [];
    assert [4] + [] == [4];
    assert w1 == Ok(Walked([4], Carry(Some(5), 1)));
    var w0 := WalkIndices(Unaddressed, InitialCarry, idxs);
    assert w0.Ok? && w0.value.addrs == [0] + [4];
    assert [0] + [4] == [0, 4];
  }

  /** Two assignments to distinct keys of an empty dict leave the keys in assignment order. */
  lemma PutTwoOrder<K, V>(kvs: seq<(K, V)>)
    requires |kvs| == 2 && kvs[0].0 != kvs[1].0
    ensures PutAll(Empty(), kvs).order == [kvs[0].0, kvs[1].0]
  {
    var one := kvs[..1];
    assert one[..0] == [] && one[0] == kvs[0] && kvs[..1] == one;
    assert PutAll(Empty<K, V>(), one) == Put(Empty(), kvs[0].0, kvs[0].1);
  }

  /** Filling a dict with the two placements keeps them in walk order. */
  lemma UnaddressedOrder(x: XrefTables)
    ensures PutAll(Empty(), Placements(x, [0, 4], [0, 1])).order == [0, 4]
  {
    var kvs := Placements(x, [0, 4], [0, 1]);
    assert kvs[0].0 == 0 && kvs[1].0 == 4;
    PutTwoOrder(kvs);
  }

  /** Walking range [0, 2) from the initial carry gives the first instruction the default
      address 0 and the second the carried address 4, and the block takes address 4 because 0
      counts as unset. Resolving the second instruction on its own would raise, as nothing
      before or after it has a stored address; the walk never asks. */
  lemma UnaddressedRange()
    ensures var b := BuildBlock(Unaddressed, XrefTables(map[], map[], map[]), InitialCarry, IndexRange(0, 2));
            && b.Ok?
            && b.value.block.addr == Some(4)
            && b.value.block.instrs.order == [0, 4]
    ensures Resolve(Unaddressed, 1) == Err(NoStoredAddress(1))
  {
    assert RangeIndices(IndexRange(0, 2)) == [0, 1];
    UnaddressedWalk();
    UnaddressedOrder(XrefTables(map[], map[], map[]));
    assert BlockAddress(None, [0, 4]) == Some(4);
  }
}
