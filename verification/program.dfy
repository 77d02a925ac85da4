/** `ProgramBinExport.__init__` (loader.py:80-131): the cross-reference tables, the dict from
    address to function, the call-graph overlay and the table of function names; and the
    address mask (loader.py:77, 174-182). */
module Programs {
  import opened Wrappers
  import opened Records
  import opened CrossRefs
  import opened PyDict
  import opened Functions
  import opened Address

  // ---------------------------------------------------------------------------------------
  // The address mask

  function Pow2(n: nat): (p: nat)
    ensures p > 0
  {
    if n == 0 then 1 else 2 * Pow2(n - 1)
  }

  /** Python's `&` on non-negative integers, bit by bit from the least significant. */
  function BitAnd(a: nat, b: nat): nat
    decreases a
  {
    if a == 0 || b == 0 then 0
    else 2 * BitAnd(a / 2, b / 2) + (if a % 2 == 1 && b % 2 == 1 then 1 else 0)
  }

  /** Python's `str.endswith`. */
  predicate EndsWith(s: string, suffix: string) {
    |suffix| <= |s| && s[|s| - |suffix|..] == suffix
  }

  /** `self._mask` (loader.py:77): 32 one-bits for an architecture whose name ends in "32",
      64 otherwise. */
  function AddressMask(architecture: string): nat {
    if EndsWith(architecture, "32") then 0xFFFF_FFFF else 0xFFFF_FFFF_FFFF_FFFF
  }

  /** And-ing with `w` one-bits keeps the low `w` bits: the value modulo 2^w. */
  lemma {:induction false} BitAndLowOnes(v: nat, w: nat)
    ensures BitAnd(v, Pow2(w) - 1) == v % Pow2(w)
    decreases w
  {
    if w > 0 && v > 0 {
      var m := Pow2(w - 1);
      var ones: nat := m - 1;
      var low := BitAnd(v / 2, ones);
      assert Pow2(w) == 2 * m;
      assert BitAnd(v, Pow2(w) - 1) == 2 * low + v % 2 by {
        assert Pow2(w) - 1 == 2 * ones + 1;
        BitAndOdd(v, ones);
      }
      assert low == (v / 2) % m by {
        BitAndLowOnes(v / 2, w - 1);
      }
      assert v % Pow2(w) == 2 * ((v / 2) % m) + v % 2 by {
        DivModPair(v, m);
      }
    } else if w == 0 {
      assert Pow2(w) == 1;
    } else {
      ModUnique(0, Pow2(w), 0, 0);
    }
  }

  lemma BitAndOdd(v: nat, m: nat)
    requires v > 0
    ensures BitAnd(v, 2 * m + 1) == 2 * BitAnd(v / 2, m) + v % 2
  {
    assert (2 * m + 1) / 2 == m && (2 * m + 1) % 2 == 1;
  }

  /** Splitting off the lowest bit: `v % 2m` is twice `(v / 2) % m` plus that bit. */
  lemma DivModPair(v: nat, m: nat)
    requires m > 0
    ensures v % (2 * m) == 2 * ((v / 2) % m) + v % 2
  {
    var q := (v / 2) / m;
    var r := (v / 2) % m;
    assert v / 2 == q * m + r;
    assert v == q * (2 * m) + (2 * r + v % 2);
    ModUnique(v, 2 * m, q, 2 * r + v % 2);
  }

  /** Quotient and remainder are the only such pair. */
  lemma ModUnique(v: int, d: int, q: int, s: int)
    requires d > 0 && v == q * d + s && 0 <= s < d
    ensures v % d == s
  {
    var q' := v / d;
    assert v == q' * d + v % d;
    assert (q - q') * d == v % d - s;
    if q > q' {
      MulAtLeast(q - q', d);
    } else if q < q' {
      MulAtLeast(q' - q, d);
    }
  }

  lemma MulAtLeast(x: int, d: int)
    requires x >= 1 && d > 0
    ensures x * d >= d
  {
    assert x * d == (x - 1) * d + d;
  }

  lemma {:induction false} Pow2Add(a: nat, b: nat)
    ensures Pow2(a + b) == Pow2(a) * Pow2(b)
    decreases a
  {
    if a > 0 {
      Pow2Add(a - 1, b);
      assert Pow2(a + b) == 2 * Pow2(a - 1 + b);
    }
  }

  lemma Pow2Widths()
    ensures Pow2(32) == 0x1_0000_0000 && Pow2(64) == 0x1_0000_0000_0000_0000
  {
    assert Pow2(4) == 16;
    Pow2Add(4, 4);
    assert Pow2(8) == 256;
    Pow2Add(8, 8);
    assert Pow2(16) == 0x1_0000;
    Pow2Add(16, 16);
    assert Pow2(32) == 0x1_0000_0000;
    Pow2Add(32, 32);
  }

  /** `addr_mask` (loader.py:174-182) truncates a value to the architecture's address width. */
  lemma AddrMaskWidth(architecture: string, v: nat)
    ensures BitAnd(v, AddressMask(architecture))
            == v % (if EndsWith(architecture, "32") then 0x1_0000_0000 else 0x1_0000_0000_0000_0000)
  {
    Pow2Widths();
    if EndsWith(architecture, "32") {
      BitAndLowOnes(v, 32);
    } else {
      BitAndLowOnes(v, 64);
    }
  }

  // ---------------------------------------------------------------------------------------
  // Loading the functions

  /** The values of a sequence of results, or the first error among them. */
  function Collect<T, E>(rs: seq<Result<T, E>>): (r: Result<seq<T>, E>)
    ensures r.Ok? ==> |r.value| == |rs|
    decreases |rs|
  {
    if |rs| == 0 then Ok([])
    else
      var vs :- Collect(rs[..|rs| - 1]);
      var v :- rs[|rs| - 1];
      Ok(vs + [v])
  }

  /** Collecting succeeds exactly when every result is a value, and then gives those values
      in order. */
  lemma {:induction false} CollectEach<T, E>(rs: seq<Result<T, E>>)
    ensures Collect(rs).Ok? <==> forall k | 0 <= k < |rs| :: rs[k].Ok?
    ensures Collect(rs).Ok? ==> forall k | 0 <= k < |rs| :: rs[k] == Ok(Collect(rs).value[k])
    decreases |rs|
  {
    if |rs| > 0 {
      var n := |rs| - 1;
      CollectEach(rs[..n]);
      assert forall k | 0 <= k < n :: rs[..n][k] == rs[k];
    }
  }

  /** A failed collection reports the first error. */
  lemma {:induction false} CollectFirstError<T, E>(rs: seq<Result<T, E>>)
    requires Collect(rs).Err?
    ensures exists k | 0 <= k < |rs| ::
              rs[k] == Err(Collect(rs).error) && forall j | 0 <= j < k :: rs[j].Ok?
    decreases |rs|
  {
    var n := |rs| - 1;
    assert forall k | 0 <= k < n :: rs[..n][k] == rs[k];
    if Collect(rs[..n]).Err? {
      CollectFirstError(rs[..n]);
    } else {
      CollectEach(rs[..n]);
    }
  }

  /** `FunctionBinExport(self, pb_fun)` for every flow graph in turn (loader.py:101-105);
      the first one that raises stops the load. The functions only read the records and the
      cross-reference tables, so they can all be built before any is stored. */
  function BuildAll(a: Artifact, x: XrefTables, fgs: seq<FlowGraph>): (r: Result<seq<Func>, Fault>)
    requires forall k | 0 <= k < |fgs| :: FlowGraphInBounds(a, fgs[k])
    ensures r.Ok? ==> |r.value| == |fgs|
  {
    Collect(seq(|fgs|, k requires 0 <= k < |fgs| => BuildFunction(a, x, fgs[k])))
  }

  /** Loading succeeds exactly when every flow graph builds, and then the k-th function is
      the one built from the k-th flow graph. */
  lemma BuildAllEach(a: Artifact, x: XrefTables, fgs: seq<FlowGraph>)
    requires forall k | 0 <= k < |fgs| :: FlowGraphInBounds(a, fgs[k])
    ensures BuildAll(a, x, fgs).Ok? <==> forall k | 0 <= k < |fgs| :: BuildFunction(a, x, fgs[k]).Ok?
    ensures BuildAll(a, x, fgs).Ok? ==>
              forall k | 0 <= k < |fgs| :: BuildFunction(a, x, fgs[k]) == Ok(BuildAll(a, x, fgs).value[k])
  {
    var rs := seq(|fgs|, k requires 0 <= k < |fgs| => BuildFunction(a, x, fgs[k]));
    CollectEach(rs);
    if Collect(rs).Ok? {
      forall k | 0 <= k < |fgs|
        ensures BuildFunction(a, x, fgs[k]) == Ok(Collect(rs).value[k])
      {
        assert rs[k] == BuildFunction(a, x, fgs[k]);
      }
    } else {
      var k :| 0 <= k < |rs| && !rs[k].Ok?;
      assert rs[k] == BuildFunction(a, x, fgs[k]);
    }
  }

  /** A failed load reports the error of the first flow graph that does not build. */
  lemma BuildAllFirstError(a: Artifact, x: XrefTables, fgs: seq<FlowGraph>)
    requires forall k | 0 <= k < |fgs| :: FlowGraphInBounds(a, fgs[k])
    requires BuildAll(a, x, fgs).Err?
    ensures exists k | 0 <= k < |fgs| ::
              && BuildFunction(a, x, fgs[k]) == Err(BuildAll(a, x, fgs).error)
              && forall j | 0 <= j < k :: BuildFunction(a, x, fgs[j]).Ok?
  {
    var rs := seq(|fgs|, k requires 0 <= k < |fgs| => BuildFunction(a, x, fgs[k]));
    CollectFirstError(rs);
    var k :| 0 <= k < |rs| && rs[k] == Err(Collect(rs).error) && forall j | 0 <= j < k :: rs[j].Ok?;
    assert forall j | 0 <= j < k :: BuildFunction(a, x, fgs[j]) == rs[j];
    assert BuildFunction(a, x, fgs[k]) == rs[k];
  }

  /** The (address, function) pairs `self[f.addr] = f` writes, in order. */
  function FunctionEntries(fs: seq<Func>): (kvs: seq<(nat, Func)>)
    ensures |kvs| == |fs|
  {
    seq(|fs|, k requires 0 <= k < |fs| => (fs[k].addr, fs[k]))
  }

  /** The program dict after the flow graphs (loader.py:101-108). */
  function LoadFunctions(fs: seq<Func>): (d: Dict<nat, Func>)
    ensures Valid(d)
  {
    PutAll(Empty(), FunctionEntries(fs))
  }

  /** Every function sits under its own address. */
  ghost predicate KeyedByAddr(d: Dict<nat, Func>) {
    forall k | k in d.entries :: d.entries[k].addr == k
  }

  /** An address holds a function exactly when some flow graph built one there. */
  lemma LoadFunctionsKeys(fs: seq<Func>, addr: nat)
    ensures addr in LoadFunctions(fs).entries <==> exists k | 0 <= k < |fs| :: fs[k].addr == addr
  {
    var kvs := FunctionEntries(fs);
    PutAllKeys(Empty<nat, Func>(), kvs);
    if addr in LoadFunctions(fs).entries {
      assert Writes(kvs, addr);
      var i :| 0 <= i < |kvs| && kvs[i].0 == addr;
      assert fs[i].addr == addr;
    }
    forall k | 0 <= k < |fs| && fs[k].addr == addr
      ensures Writes(kvs, addr)
    {
      assert kvs[k].0 == addr;
    }
  }

  /** The function under an address is the last one built there: a later function
      overwrites an earlier one. */
  lemma LoadFunctionsLastWins(fs: seq<Func>, k: nat)
    requires k < |fs| && forall j | k < j < |fs| :: fs[j].addr != fs[k].addr
    ensures fs[k].addr in LoadFunctions(fs).entries && LoadFunctions(fs).entries[fs[k].addr] == fs[k]
  {
    var kvs := FunctionEntries(fs);
    assert forall j | k < j < |kvs| :: kvs[j].0 != kvs[k].0;
    PutAllLastWins(Empty<nat, Func>(), kvs, k);
  }

  lemma LoadFunctionsKeyed(fs: seq<Func>)
    ensures KeyedByAddr(LoadFunctions(fs))
  {
    var kvs := FunctionEntries(fs);
    forall k | k in LoadFunctions(fs).entries
      ensures LoadFunctions(fs).entries[k].addr == k
    {
      PutAllValueWritten(Empty<nat, Func>(), kvs, k);
    }
  }

  // ---------------------------------------------------------------------------------------
  // The call-graph vertices

  /** The function a vertex names, with the vertex's type and mangled name set on it. */
  function Retype(f: Func, v: Vertex): Func {
    f.(ftype := Some(v.vtype), name := Some(v.mangledName))
  }

  /** One vertex of the call graph (loader.py:115-123): an IMPORTED vertex without a function
      gets a synthesised one; then the function at the vertex's address takes the vertex's
      type and name, and a vertex with no function there raises `KeyError`. */
  function OverlayVertex(d: Dict<nat, Func>, v: Vertex): (r: Result<Dict<nat, Func>, Fault>)
    requires Valid(d)
    ensures r.Ok? ==> Valid(r.value)
  {
    var d1 := if v.address !in d.entries && v.vtype == Imported then Put(d, v.address, ImportFunction(v.address)) else d;
    if v.address !in d1.entries then Err(MissingFunction(v.address))
    else Ok(Put(d1, v.address, Retype(d1.entries[v.address], v)))
  }

  /** `for node in cg.vertex` (loader.py:114-123), in record order. */
  function OverlayVertices(d: Dict<nat, Func>, vs: seq<Vertex>): (r: Result<Dict<nat, Func>, Fault>)
    requires Valid(d)
    ensures r.Ok? ==> Valid(r.value)
    decreases |vs|
  {
    if |vs| == 0 then Ok(d)
    else
      var d1 :- OverlayVertices(d, vs[..|vs| - 1]);
      OverlayVertex(d1, vs[|vs| - 1])
  }

  /** A vertex fails exactly when its address has no function and it is not IMPORTED; when it
      succeeds, its address is the only key that may be new, and only its function changes,
      taking the vertex's type and name. */
  lemma OverlayVertexEffect(d: Dict<nat, Func>, v: Vertex)
    requires Valid(d)
    ensures OverlayVertex(d, v).Ok? <==> v.address in d.entries || v.vtype == Imported
    ensures OverlayVertex(d, v).Err? ==> OverlayVertex(d, v).error == MissingFunction(v.address)
    ensures OverlayVertex(d, v).Ok? ==>
              var r := OverlayVertex(d, v).value.entries;
              && r.Keys == d.entries.Keys + {v.address}
              && (forall a | a in d.entries && a != v.address :: r[a] == d.entries[a])
              && r[v.address] == Retype(if v.address in d.entries then d.entries[v.address] else ImportFunction(v.address), v)
  {
  }

  /** Vertex `k` finds a function: one was built at its address, it is IMPORTED, or an
      earlier vertex has the same address. */
  predicate Found(d: Dict<nat, Func>, vs: seq<Vertex>, k: nat)
    requires k < |vs|
  {
    || vs[k].address in d.entries
    || vs[k].vtype == Imported
    || exists j | 0 <= j < k :: vs[j].address == vs[k].address
  }

  /** Some vertex names address `a`. */
  predicate Named(vs: seq<Vertex>, a: nat) {
    exists k | 0 <= k < |vs| :: vs[k].address == a
  }

  lemma NamedSnoc(vs: seq<Vertex>, a: nat)
    requires |vs| > 0
    ensures Named(vs, a) <==> Named(vs[..|vs| - 1], a) || vs[|vs| - 1].address == a
  {
    var n := |vs| - 1;
    if Named(vs[..n], a) {
      var k :| 0 <= k < n && vs[..n][k].address == a;
      assert vs[k].address == a;
    }
    if Named(vs, a) {
      var k :| 0 <= k < |vs| && vs[k].address == a;
      if k < n {
        assert vs[..n][k].address == a;
      }
    }
  }

  lemma OverlayVertexKeys(d: Dict<nat, Func>, v: Vertex)
    requires Valid(d) && OverlayVertex(d, v).Ok?
    ensures OverlayVertex(d, v).value.entries.Keys == d.entries.Keys + {v.address}
  {
  }

  /** After the vertices, the program holds a function at an address exactly when it held one
      before or some vertex names the address. */
  lemma {:induction false} OverlayKeys(d: Dict<nat, Func>, vs: seq<Vertex>, a: nat)
    requires Valid(d)
    requires OverlayVertices(d, vs).Ok?
    ensures a in OverlayVertices(d, vs).value.entries <==> a in d.entries || Named(vs, a)
    decreases |vs|
  {
    if |vs| > 0 {
      var n := |vs| - 1;
      var d1 := OverlayVertices(d, vs[..n]).value;
      assert OverlayVertices(d, vs) == OverlayVertex(d1, vs[n]);
      OverlayKeys(d, vs[..n], a);
      OverlayVertexKeys(d1, vs[n]);
      NamedSnoc(vs, a);
    }
  }

  /** Vertex `k` finds a function: one was built at its address, it is IMPORTED, or an
      earlier vertex has the same address. */
  predicate FoundAt(d: Dict<nat, Func>, vs: seq<Vertex>, k: nat)
    requires k < |vs|
  {
    || vs[k].address in d.entries
    || vs[k].vtype == Imported
    || exists i | 0 <= i < k :: vs[i].address == vs[k].address
  }

  lemma NamedBefore(vs: seq<Vertex>, k: nat)
    requires k < |vs|
    ensures Named(vs[..k], vs[k].address) <==> exists i | 0 <= i < k :: vs[i].address == vs[k].address
  {
    if Named(vs[..k], vs[k].address) {
      var i :| 0 <= i < k && vs[..k][i].address == vs[k].address;
      assert vs[i].address == vs[k].address;
    }
    if exists i | 0 <= i < k :: vs[i].address == vs[k].address {
      var i :| 0 <= i < k && vs[i].address == vs[k].address;
      assert vs[..k][i].address == vs[k].address;
    }
  }

  /** Every vertex finds a function, checked one prefix at a time. */
  predicate AllFound(d: Dict<nat, Func>, vs: seq<Vertex>)
    decreases |vs|
  {
    |vs| == 0 || (AllFound(d, vs[..|vs| - 1]) && FoundAt(d, vs, |vs| - 1))
  }

  lemma {:induction false} AllFoundEach(d: Dict<nat, Func>, vs: seq<Vertex>)
    ensures AllFound(d, vs) <==> forall k | 0 <= k < |vs| :: FoundAt(d, vs, k)
    decreases |vs|
  {
    if |vs| > 0 {
      var n := |vs| - 1;
      AllFoundEach(d, vs[..n]);
      forall k | 0 <= k < n
        ensures FoundAt(d, vs[..n], k) == FoundAt(d, vs, k)
      {
        FoundAtPrefix(d, vs, n, k);
      }
    }
  }

  lemma {:induction false} OverlayOkStep(d: Dict<nat, Func>, vs: seq<Vertex>)
    requires Valid(d)
    ensures OverlayVertices(d, vs).Ok? <==> AllFound(d, vs)
    decreases |vs|
  {
    if |vs| > 0 {
      var n := |vs| - 1;
      OverlayOkStep(d, vs[..n]);
      var p := OverlayVertices(d, vs[..n]);
      if p.Ok? {
        assert OverlayVertices(d, vs) == OverlayVertex(p.value, vs[n]);
        OverlayKeys(d, vs[..n], vs[n].address);
        NamedBefore(vs, n);
        OverlayVertexEffect(p.value, vs[n]);
      }
    }
  }

  /** The vertex pass succeeds exactly when every vertex finds a function. */
  lemma OverlayOk(d: Dict<nat, Func>, vs: seq<Vertex>)
    requires Valid(d)
    ensures OverlayVertices(d, vs).Ok? <==> forall k | 0 <= k < |vs| :: FoundAt(d, vs, k)
  {
    OverlayOkStep(d, vs);
    AllFoundEach(d, vs);
  }

  lemma OverlayErrorPropagates(d: Dict<nat, Func>, vs: seq<Vertex>)
    requires Valid(d)
    requires |vs| > 0 && OverlayVertices(d, vs[..|vs| - 1]).Err?
    ensures OverlayVertices(d, vs) == OverlayVertices(d, vs[..|vs| - 1])
  {
  }

  lemma OverlayLastError(d: Dict<nat, Func>, vs: seq<Vertex>)
    requires Valid(d)
    requires |vs| > 0 && OverlayVertices(d, vs[..|vs| - 1]).Ok?
    requires !FoundAt(d, vs, |vs| - 1)
    ensures OverlayVertices(d, vs) == Err(MissingFunction(vs[|vs| - 1].address))
  {
    var n := |vs| - 1;
    var p := OverlayVertices(d, vs[..n]).value;
    assert OverlayVertices(d, vs) == OverlayVertex(p, vs[n]);
    OverlayKeys(d, vs[..n], vs[n].address);
    NamedBefore(vs, n);
    OverlayVertexEffect(p, vs[n]);
  }

  /** Whether a vertex finds a function does not depend on the vertices after it. */
  lemma FoundAtPrefix(d: Dict<nat, Func>, vs: seq<Vertex>, n: nat, j: nat)
    requires j < n <= |vs|
    ensures FoundAt(d, vs[..n], j) == FoundAt(d, vs, j)
  {
    assert vs[..n][j] == vs[j];
    assert forall i | 0 <= i < j :: vs[..n][i] == vs[i];
  }

  lemma OverlayErrorAtEnd(d: Dict<nat, Func>, vs: seq<Vertex>)
    requires Valid(d)
    requires |vs| > 0 && !FoundAt(d, vs, |vs| - 1)
    requires forall j | 0 <= j < |vs| - 1 :: FoundAt(d, vs, j)
    ensures OverlayVertices(d, vs) == Err(MissingFunction(vs[|vs| - 1].address))
  {
    var n := |vs| - 1;
    forall j | 0 <= j < n
      ensures FoundAt(d, vs[..n], j)
    {
      FoundAtPrefix(d, vs, n, j);
    }
    AllFoundEach(d, vs[..n]);
    OverlayOkStep(d, vs[..n]);
    OverlayLastError(d, vs);
  }

  /** The first vertex without a function raises: `KeyError` on its address. */
  lemma {:induction false} OverlayFirstError(d: Dict<nat, Func>, vs: seq<Vertex>, k: nat)
    requires Valid(d)
    requires k < |vs| && !FoundAt(d, vs, k)
    requires forall j | 0 <= j < k :: FoundAt(d, vs, j)
    ensures OverlayVertices(d, vs) == Err(MissingFunction(vs[k].address))
    decreases |vs|
  {
    var n := |vs| - 1;
    if k < n {
      forall j | 0 <= j <= k
        ensures FoundAt(d, vs[..n], j) == FoundAt(d, vs, j)
      {
        FoundAtPrefix(d, vs, n, j);
      }
      OverlayFirstError(d, vs[..n], k);
      assert vs[..n][k] == vs[k];
      OverlayErrorPropagates(d, vs);
    } else {
      OverlayErrorAtEnd(d, vs);
    }
  }

  /** The function an address starts the vertex pass with: the built one, or a synthesised
      import stub. */
  function Base(d: Dict<nat, Func>, a: nat): Func {
    if a in d.entries then d.entries[a] else ImportFunction(a)
  }

  /** The vertex pass changes nothing of a function but its type and name, and a function no
      vertex names is left exactly as it was built. */
  lemma {:induction false} OverlayBody(d: Dict<nat, Func>, vs: seq<Vertex>, a: nat)
    requires Valid(d)
    requires OverlayVertices(d, vs).Ok? && a in OverlayVertices(d, vs).value.entries
    ensures var f := OverlayVertices(d, vs).value.entries[a];
            f == Base(d, a).(ftype := f.ftype, name := f.name)
    ensures !Named(vs, a) ==> a in d.entries && OverlayVertices(d, vs).value.entries[a] == d.entries[a]
    decreases |vs|
  {
    OverlayKeys(d, vs, a);
    if |vs| > 0 {
      var n := |vs| - 1;
      var p := OverlayVertices(d, vs[..n]).value;
      assert OverlayVertices(d, vs) == OverlayVertex(p, vs[n]);
      OverlayVertexEffect(p, vs[n]);
      NamedSnoc(vs, a);
      if a in p.entries {
        OverlayBody(d, vs[..n], a);
      } else {
        OverlayKeys(d, vs[..n], a);
      }
    }
  }

  lemma OverlayVertexOther(d: Dict<nat, Func>, v: Vertex, a: nat)
    requires Valid(d) && OverlayVertex(d, v).Ok?
    requires a in d.entries && a != v.address
    ensures OverlayVertex(d, v).value.entries[a] == d.entries[a]
  {
  }

  lemma OverlayVertexAt(d: Dict<nat, Func>, v: Vertex)
    requires Valid(d) && OverlayVertex(d, v).Ok?
    ensures OverlayVertex(d, v).value.entries[v.address] == Retype(Base(d, v.address), v)
  {
  }

  lemma OverlayLastWinsAtEnd(d: Dict<nat, Func>, vs: seq<Vertex>)
    requires Valid(d)
    requires |vs| > 0 && OverlayVertices(d, vs).Ok?
    ensures vs[|vs| - 1].address in OverlayVertices(d, vs).value.entries
    ensures OverlayVertices(d, vs).value.entries[vs[|vs| - 1].address]
            == Retype(Base(d, vs[|vs| - 1].address), vs[|vs| - 1])
  {
    var n := |vs| - 1;
    var a := vs[n].address;
    var p := OverlayVertices(d, vs[..n]).value;
    assert OverlayVertices(d, vs) == OverlayVertex(p, vs[n]);
    OverlayVertexKeys(p, vs[n]);
    OverlayVertexAt(p, vs[n]);
    if a in p.entries {
      OverlayBody(d, vs[..n], a);
    } else {
      OverlayKeys(d, vs[..n], a);
    }
  }

  /** `self[addr].type = node.type` and `.name = node.mangled_name`: the last vertex with an
      address decides its function's type and name. */
  lemma {:induction false} OverlayLastWins(d: Dict<nat, Func>, vs: seq<Vertex>, k: nat)
    requires Valid(d)
    requires OverlayVertices(d, vs).Ok?
    requires k < |vs| && forall j | k < j < |vs| :: vs[j].address != vs[k].address
    ensures vs[k].address in OverlayVertices(d, vs).value.entries
    ensures OverlayVertices(d, vs).value.entries[vs[k].address] == Retype(Base(d, vs[k].address), vs[k])
    decreases |vs|
  {
    var n := |vs| - 1;
    if k < n {
      var a := vs[k].address;
      var p := OverlayVertices(d, vs[..n]).value;
      assert OverlayVertices(d, vs) == OverlayVertex(p, vs[n]);
      assert vs[..n][k] == vs[k];
      OverlayLastWins(d, vs[..n], k);
      OverlayVertexKeys(p, vs[n]);
      OverlayVertexOther(p, vs[n], a);
    } else {
      OverlayLastWinsAtEnd(d, vs);
    }
  }

  /** Every function still sits under its own address after the vertex pass. */
  lemma OverlayKeyed(d: Dict<nat, Func>, vs: seq<Vertex>)
    requires Valid(d) && KeyedByAddr(d)
    requires OverlayVertices(d, vs).Ok?
    ensures KeyedByAddr(OverlayVertices(d, vs).value)
  {
    var r := OverlayVertices(d, vs).value;
    forall a | a in r.entries
      ensures r.entries[a].addr == a
    {
      OverlayBody(d, vs, a);
    }
  }

  // ---------------------------------------------------------------------------------------
  // The call-graph edges

  /** Both vertex indices of a call edge exist. */
  predicate EdgeIndexed(vs: seq<Vertex>, e: CallEdge) {
    e.source < |vs| && e.target < |vs|
  }

  /** A call edge can be linked: its vertices exist and both addresses hold functions. */
  predicate CallLinkable(d: Dict<nat, Func>, vs: seq<Vertex>, e: CallEdge) {
    EdgeIndexed(vs, e) && vs[e.source].address in d.entries && vs[e.target].address in d.entries
  }

  /** One call edge (loader.py:124-128): the caller gains the callee as a child and the callee
      gains the caller as a parent. An index past the vertices raises `IndexError`; an address
      without a function raises `KeyError`. */
  function LinkCall(d: Dict<nat, Func>, vs: seq<Vertex>, e: CallEdge): (r: Result<Dict<nat, Func>, Fault>)
    requires Valid(d)
    ensures r.Ok? ==> Valid(r.value)
  {
    if e.source >= |vs| then Err(UnknownVertex(e.source))
    else if e.target >= |vs| then Err(UnknownVertex(e.target))
    else
      var src := vs[e.source].address;
      var dst := vs[e.target].address;
      if src !in d.entries then Err(MissingFunction(src))
      else if dst !in d.entries then Err(MissingFunction(dst))
      else
        var d1 := Put(d, src, d.entries[src].(children := d.entries[src].children + {dst}));
        Ok(Put(d1, dst, d1.entries[dst].(parents := d1.entries[dst].parents + {src})))
  }

  /** `for edge in cg.edge` (loader.py:124-128), in record order. */
  function LinkCalls(d: Dict<nat, Func>, vs: seq<Vertex>, es: seq<CallEdge>): (r: Result<Dict<nat, Func>, Fault>)
    requires Valid(d)
    ensures r.Ok? ==> Valid(r.value)
    decreases |es|
  {
    if |es| == 0 then Ok(d)
    else
      var d1 :- LinkCalls(d, vs, es[..|es| - 1]);
      LinkCall(d1, vs, es[|es| - 1])
  }

  /** `f` and `g` differ at most in their call-graph links. */
  predicate SameButLinks(f: Func, g: Func) {
    g == f.(parents := g.parents, children := g.children)
  }

  /** A call edge fails exactly when it cannot be linked, with the error of the first lookup
      that fails; when it succeeds, the keys stay, every function keeps all but its links,
      and exactly the caller's children and the callee's parents grow, by each other. */
  lemma LinkCallEffect(d: Dict<nat, Func>, vs: seq<Vertex>, e: CallEdge)
    requires Valid(d)
    ensures LinkCall(d, vs, e).Ok? <==> CallLinkable(d, vs, e)
    ensures LinkCall(d, vs, e).Err? ==>
              LinkCall(d, vs, e).error
              == if e.source >= |vs| then UnknownVertex(e.source)
                 else if e.target >= |vs| then UnknownVertex(e.target)
                 else if vs[e.source].address !in d.entries then MissingFunction(vs[e.source].address)
                 else MissingFunction(vs[e.target].address)
    ensures LinkCall(d, vs, e).Ok? ==>
              var r := LinkCall(d, vs, e).value.entries;
              && r.Keys == d.entries.Keys
              && forall a | a in d.entries ::
                   && SameButLinks(d.entries[a], r[a])
                   && r[a].children == d.entries[a].children + (if a == vs[e.source].address then {vs[e.target].address} else {})
                   && r[a].parents == d.entries[a].parents + (if a == vs[e.target].address then {vs[e.source].address} else {})
  {
  }

  /** The address pair of a call edge whose vertices exist. */
  function CallPair(vs: seq<Vertex>, e: CallEdge): (nat, nat)
    requires EdgeIndexed(vs, e)
  {
    (vs[e.source].address, vs[e.target].address)
  }

  /** Some call edge goes from the function at `a` to the function at `c`. */
  predicate Calls(vs: seq<Vertex>, es: seq<CallEdge>, a: nat, c: nat) {
    exists j | 0 <= j < |es| :: EdgeIndexed(vs, es[j]) && CallPair(vs, es[j]) == (a, c)
  }

  lemma CallsSnoc(vs: seq<Vertex>, es: seq<CallEdge>, a: nat, c: nat)
    requires |es| > 0
    ensures Calls(vs, es, a, c) <==>
              || Calls(vs, es[..|es| - 1], a, c)
              || (EdgeIndexed(vs, es[|es| - 1]) && CallPair(vs, es[|es| - 1]) == (a, c))
  {
    var n := |es| - 1;
    if Calls(vs, es[..n], a, c) {
      var j :| 0 <= j < n && EdgeIndexed(vs, es[..n][j]) && CallPair(vs, es[..n][j]) == (a, c);
      assert es[j] == es[..n][j];
    }
    if Calls(vs, es, a, c) {
      var j :| 0 <= j < |es| && EdgeIndexed(vs, es[j]) && CallPair(vs, es[j]) == (a, c);
      if j < n {
        assert es[..n][j] == es[j];
      }
    }
  }

  lemma LinkCallsUnfold(d: Dict<nat, Func>, vs: seq<Vertex>, es: seq<CallEdge>)
    requires Valid(d) && |es| > 0
    ensures LinkCalls(d, vs, es)
            == if LinkCalls(d, vs, es[..|es| - 1]).Err? then LinkCalls(d, vs, es[..|es| - 1])
               else LinkCall(LinkCalls(d, vs, es[..|es| - 1]).value, vs, es[|es| - 1])
  {
  }

  /** The call edges keep every address and change nothing of a function but its links. */
  lemma {:induction false} LinkCallsKeep(d: Dict<nat, Func>, vs: seq<Vertex>, es: seq<CallEdge>, a: nat)
    requires Valid(d) && LinkCalls(d, vs, es).Ok?
    ensures a in LinkCalls(d, vs, es).value.entries <==> a in d.entries
    ensures a in d.entries ==> SameButLinks(d.entries[a], LinkCalls(d, vs, es).value.entries[a])
    decreases |es|
  {
    if |es| > 0 {
      var n := |es| - 1;
      LinkCallsUnfold(d, vs, es);
      LinkCallsKeep(d, vs, es[..n], a);
      LinkCallEffect(LinkCalls(d, vs, es[..n]).value, vs, es[n]);
    }
  }

  /** Every call edge can be linked, checked one prefix at a time. */
  predicate AllLinkable(d: Dict<nat, Func>, vs: seq<Vertex>, es: seq<CallEdge>)
    decreases |es|
  {
    |es| == 0 || (AllLinkable(d, vs, es[..|es| - 1]) && CallLinkable(d, vs, es[|es| - 1]))
  }

  lemma {:induction false} AllLinkableEach(d: Dict<nat, Func>, vs: seq<Vertex>, es: seq<CallEdge>)
    ensures AllLinkable(d, vs, es) <==> forall j | 0 <= j < |es| :: CallLinkable(d, vs, es[j])
    decreases |es|
  {
    if |es| > 0 {
      var n := |es| - 1;
      AllLinkableEach(d, vs, es[..n]);
      assert forall j | 0 <= j < n :: es[..n][j] == es[j];
    }
  }

  /** Linking an edge only depends on which addresses hold functions. */
  lemma LinkableSameKeys(d: Dict<nat, Func>, d1: Dict<nat, Func>, vs: seq<Vertex>, e: CallEdge)
    requires Valid(d) && Valid(d1) && d1.entries.Keys == d.entries.Keys
    ensures CallLinkable(d1, vs, e) == CallLinkable(d, vs, e)
    ensures LinkCall(d1, vs, e).Err? ==> LinkCall(d, vs, e) == LinkCall(d1, vs, e)
  {
    LinkCallEffect(d, vs, e);
    LinkCallEffect(d1, vs, e);
  }

  lemma {:induction false} LinkCallsOkStep(d: Dict<nat, Func>, vs: seq<Vertex>, es: seq<CallEdge>)
    requires Valid(d)
    ensures LinkCalls(d, vs, es).Ok? <==> AllLinkable(d, vs, es)
    decreases |es|
  {
    if |es| > 0 {
      var n := |es| - 1;
      LinkCallsUnfold(d, vs, es);
      LinkCallsOkStep(d, vs, es[..n]);
      var p := LinkCalls(d, vs, es[..n]);
      if p.Ok? {
        LinkCallsKeepKeys(d, vs, es[..n]);
        LinkableSameKeys(d, p.value, vs, es[n]);
        LinkCallEffect(p.value, vs, es[n]);
      }
    }
  }

  lemma LinkCallsKeepKeys(d: Dict<nat, Func>, vs: seq<Vertex>, es: seq<CallEdge>)
    requires Valid(d) && LinkCalls(d, vs, es).Ok?
    ensures LinkCalls(d, vs, es).value.entries.Keys == d.entries.Keys
  {
    forall a
      ensures a in LinkCalls(d, vs, es).value.entries <==> a in d.entries
    {
      LinkCallsKeep(d, vs, es, a);
    }
  }

  /** The call edges go through exactly when every edge names existing vertices whose
      addresses hold functions. */
  lemma LinkCallsOk(d: Dict<nat, Func>, vs: seq<Vertex>, es: seq<CallEdge>)
    requires Valid(d)
    ensures LinkCalls(d, vs, es).Ok? <==> forall j | 0 <= j < |es| :: CallLinkable(d, vs, es[j])
  {
    LinkCallsOkStep(d, vs, es);
    AllLinkableEach(d, vs, es);
  }

  lemma LinkCallsErrorAtEnd(d: Dict<nat, Func>, vs: seq<Vertex>, es: seq<CallEdge>)
    requires Valid(d)
    requires |es| > 0 && !CallLinkable(d, vs, es[|es| - 1])
    requires forall i | 0 <= i < |es| - 1 :: CallLinkable(d, vs, es[i])
    ensures LinkCalls(d, vs, es) == LinkCall(d, vs, es[|es| - 1])
  {
    var n := |es| - 1;
    LinkCallsUnfold(d, vs, es);
    assert forall i | 0 <= i < n :: es[..n][i] == es[i];
    AllLinkableEach(d, vs, es[..n]);
    LinkCallsOkStep(d, vs, es[..n]);
    LinkCallsKeepKeys(d, vs, es[..n]);
    var p := LinkCalls(d, vs, es[..n]).value;
    LinkableSameKeys(d, p, vs, es[n]);
    LinkCallEffect(p, vs, es[n]);
  }

  /** The first edge that cannot be linked raises what linking it alone would raise. */
  lemma {:induction false} LinkCallsFirstError(d: Dict<nat, Func>, vs: seq<Vertex>, es: seq<CallEdge>, j: nat)
    requires Valid(d)
    requires j < |es| && !CallLinkable(d, vs, es[j])
    requires forall i | 0 <= i < j :: CallLinkable(d, vs, es[i])
    ensures LinkCalls(d, vs, es) == LinkCall(d, vs, es[j])
    decreases |es|
  {
    var n := |es| - 1;
    if j < n {
      assert forall i | 0 <= i <= j :: es[..n][i] == es[i];
      LinkCallsFirstError(d, vs, es[..n], j);
      LinkCallEffect(d, vs, es[j]);
      LinkCallsUnfold(d, vs, es);
    } else {
      LinkCallsErrorAtEnd(d, vs, es);
    }
  }

  /** `children.add` / `parents.add`: after the call edges, a function's children are the ones
      it had plus the callees of its edges, and its parents the ones it had plus its callers. */
  lemma {:induction false} LinkCallsLinks(d: Dict<nat, Func>, vs: seq<Vertex>, es: seq<CallEdge>, a: nat, c: nat)
    requires Valid(d) && LinkCalls(d, vs, es).Ok? && a in d.entries
    ensures a in LinkCalls(d, vs, es).value.entries
    ensures c in LinkCalls(d, vs, es).value.entries[a].children <==>
              c in d.entries[a].children || Calls(vs, es, a, c)
    ensures c in LinkCalls(d, vs, es).value.entries[a].parents <==>
              c in d.entries[a].parents || Calls(vs, es, c, a)
    decreases |es|
  {
    LinkCallsKeep(d, vs, es, a);
    if |es| > 0 {
      var n := |es| - 1;
      LinkCallsUnfold(d, vs, es);
      LinkCallsLinks(d, vs, es[..n], a, c);
      LinkCallEffect(LinkCalls(d, vs, es[..n]).value, vs, es[n]);
      CallsSnoc(vs, es, a, c);
      CallsSnoc(vs, es, c, a);
    }
  }

  // ---------------------------------------------------------------------------------------
  // The name table

  /** `fun_names[f.name] = f` over the functions at `order` (loader.py:130-131): a later
      function with the same name replaces an earlier one. */
  function Names(entries: map<nat, Func>, order: seq<nat>): map<string, nat>
    requires forall i | 0 <= i < |order| :: order[i] in entries
    decreases |order|
  {
    if |order| == 0 then map[]
    else
      var n := |order| - 1;
      Names(entries, order[..n])[FunctionName(entries[order[n]]) := order[n]]
  }

  /** A name is in the table exactly when some function has it, and it maps to the last such
      function in dict order. */
  lemma {:induction false} NamesLastWins(entries: map<nat, Func>, order: seq<nat>, name: string)
    requires forall i | 0 <= i < |order| :: order[i] in entries
    ensures name in Names(entries, order) <==>
              exists i | 0 <= i < |order| :: FunctionName(entries[order[i]]) == name
    ensures forall i | 0 <= i < |order| && FunctionName(entries[order[i]]) == name
              && (forall j | i < j < |order| :: FunctionName(entries[order[j]]) != name)
              :: name in Names(entries, order) && Names(entries, order)[name] == order[i]
    decreases |order|
  {
    if |order| > 0 {
      var n := |order| - 1;
      NamesLastWins(entries, order[..n], name);
      if FunctionName(entries[order[n]]) != name {
        forall i | 0 <= i < n && FunctionName(entries[order[..n][i]]) == name
          ensures FunctionName(entries[order[i]]) == name
        {
        }
        forall i | 0 <= i < |order| && FunctionName(entries[order[i]]) == name
          ensures i < n && FunctionName(entries[order[..n][i]]) == name
        {
        }
      }
    }
  }

  /** `self.fun_names`, over the dict's insertion order. */
  function NameTable(d: Dict<nat, Func>): map<string, nat>
    requires Valid(d)
  {
    assert forall i | 0 <= i < |d.order| :: d.order[i] in d.entries;
    Names(d.entries, d.order)
  }

  /** Every name in the table is the name of a function of the dict, every function's name is
      in the table, and the table sends a name to a function that has it. */
  lemma NameTableSpec(d: Dict<nat, Func>, name: string)
    requires Valid(d)
    ensures name in NameTable(d) <==> exists a | a in d.entries :: FunctionName(d.entries[a]) == name
    ensures name in NameTable(d) ==>
              NameTable(d)[name] in d.entries && FunctionName(d.entries[NameTable(d)[name]]) == name
  {
    assert forall i | 0 <= i < |d.order| :: d.order[i] in d.entries;
    NamesLastWins(d.entries, d.order, name);
    if exists a | a in d.entries :: FunctionName(d.entries[a]) == name {
      var a :| a in d.entries && FunctionName(d.entries[a]) == name;
      assert a in d.order;
      var i :| 0 <= i < |d.order| && d.order[i] == a;
      assert FunctionName(d.entries[d.order[i]]) == name;
    }
    if name in NameTable(d) {
      var i :| 0 <= i < |d.order| && FunctionName(d.entries[d.order[i]]) == name;
      var last := LastNamed(d, name, i);
      assert NameTable(d)[name] == d.order[last];
    }
  }

  /** The last position of the dict order whose function has `name`, at or after `i`. */
  lemma LastNamed(d: Dict<nat, Func>, name: string, i: nat) returns (last: nat)
    requires Valid(d)
    requires i < |d.order| && d.order[i] in d.entries && FunctionName(d.entries[d.order[i]]) == name
    ensures i <= last < |d.order| && d.order[last] in d.entries
    ensures FunctionName(d.entries[d.order[last]]) == name
    ensures forall j | last < j < |d.order| :: d.order[j] !in d.entries || FunctionName(d.entries[d.order[j]]) != name
    decreases |d.order| - i
  {
    if exists j | i < j < |d.order| :: d.order[j] in d.entries && FunctionName(d.entries[d.order[j]]) == name {
      var j :| i < j < |d.order| && d.order[j] in d.entries && FunctionName(d.entries[d.order[j]]) == name;
      last := LastNamed(d, name, j);
    } else {
      last := i;
    }
  }

  // ---------------------------------------------------------------------------------------
  // The program

  /** A loaded `ProgramBinExport`: the address mask, the cross-reference tables, the dict from
      address to function and the table from function name to function address. */
  datatype Program = Program(
    mask: nat,
    xrefs: XrefTables,
    functions: Dict<nat, Func>,
    funNames: map<string, nat>)

  /** Every index the constructor follows without a guard of its own is in range. */
  predicate Loadable(a: Artifact) {
    && XrefsInBounds(a)
    && forall k | 0 <= k < |a.flowGraphs| :: FlowGraphInBounds(a, a.flowGraphs[k])
  }

  /** `ProgramBinExport.__init__` after the parse (loader.py:77-131). */
  function LoadProgram(a: Artifact): (r: Result<Program, Fault>)
    requires Loadable(a)
  {
    var x := BuildXrefs(a);
    var fs :- BuildAll(a, x, a.flowGraphs);
    var d :- OverlayVertices(LoadFunctions(fs), a.callGraph.vertices);
    var d' :- LinkCalls(d, a.callGraph.vertices, a.callGraph.edges);
    Ok(Program(AddressMask(a.architecture), x, d', NameTable(d')))
  }

  /** `ProgramBinExport.addr_mask` (loader.py:174-182): `value & self._mask`. */
  function AddrMask(p: Program, v: nat): nat {
    BitAnd(v, p.mask)
  }

  /** The functions built from the flow graphs, when they all build. */
  function Built(a: Artifact): seq<Func>
    requires Loadable(a) && BuildAll(a, BuildXrefs(a), a.flowGraphs).Ok?
  {
    BuildAll(a, BuildXrefs(a), a.flowGraphs).value
  }

  /** The dict after the vertex pass, when it goes through. */
  function Overlaid(a: Artifact): Dict<nat, Func>
    requires Loadable(a) && BuildAll(a, BuildXrefs(a), a.flowGraphs).Ok?
    requires OverlayVertices(LoadFunctions(Built(a)), a.callGraph.vertices).Ok?
  {
    OverlayVertices(LoadFunctions(Built(a)), a.callGraph.vertices).value
  }

  /** A loaded program went through every phase, and its parts are what those phases made. */
  lemma LoadProgramStages(a: Artifact)
    requires Loadable(a) && LoadProgram(a).Ok?
    ensures BuildAll(a, BuildXrefs(a), a.flowGraphs).Ok?
    ensures OverlayVertices(LoadFunctions(Built(a)), a.callGraph.vertices).Ok?
    ensures LinkCalls(Overlaid(a), a.callGraph.vertices, a.callGraph.edges).Ok?
    ensures LoadProgram(a).value.functions == LinkCalls(Overlaid(a), a.callGraph.vertices, a.callGraph.edges).value
    ensures LoadProgram(a).value.mask == AddressMask(a.architecture)
    ensures LoadProgram(a).value.xrefs == BuildXrefs(a)
    ensures LoadProgram(a).value.funNames == NameTable(LoadProgram(a).value.functions)
  {
  }

  /** After a successful vertex pass every vertex address holds a function, so an edge can be
      linked exactly when its vertex indices exist. */
  lemma LinkableAfterOverlay(d: Dict<nat, Func>, vs: seq<Vertex>, e: CallEdge)
    requires Valid(d) && OverlayVertices(d, vs).Ok?
    ensures CallLinkable(OverlayVertices(d, vs).value, vs, e) <==> EdgeIndexed(vs, e)
  {
    if EdgeIndexed(vs, e) {
      OverlayKeys(d, vs, vs[e.source].address);
      OverlayKeys(d, vs, vs[e.target].address);
    }
  }

  /** The first edge that cannot be linked, when there is one. */
  lemma FirstUnlinkable(d: Dict<nat, Func>, vs: seq<Vertex>, es: seq<CallEdge>) returns (j: nat)
    requires exists i | 0 <= i < |es| :: !CallLinkable(d, vs, es[i])
    ensures j < |es| && !CallLinkable(d, vs, es[j])
    ensures forall i | 0 <= i < j :: CallLinkable(d, vs, es[i])
    decreases |es|
  {
    var n := |es| - 1;
    if exists i | 0 <= i < n :: !CallLinkable(d, vs, es[i]) {
      assert exists i | 0 <= i < n :: !CallLinkable(d, vs, es[..n][i]);
      j := FirstUnlinkable(d, vs, es[..n]);
      assert es[..n][j] == es[j];
      assert forall i | 0 <= i < j :: es[..n][i] == es[i];
    } else {
      j := n;
    }
  }

  /** Once every vertex has found its function, the call edges fail only on a vertex index
      past the vertex array. */
  lemma EdgesAfterOverlay(d: Dict<nat, Func>, vs: seq<Vertex>, es: seq<CallEdge>)
    requires Valid(d) && OverlayVertices(d, vs).Ok?
    ensures LinkCalls(OverlayVertices(d, vs).value, vs, es).Ok? <==>
              forall j | 0 <= j < |es| :: EdgeIndexed(vs, es[j])
    ensures LinkCalls(OverlayVertices(d, vs).value, vs, es).Err? ==>
              var e := LinkCalls(OverlayVertices(d, vs).value, vs, es).error;
              e.UnknownVertex? && e.index >= |vs|
              && exists j | 0 <= j < |es| :: e.index == es[j].source || e.index == es[j].target
  {
    var o := OverlayVertices(d, vs).value;
    forall j | 0 <= j < |es|
      ensures CallLinkable(o, vs, es[j]) <==> EdgeIndexed(vs, es[j])
    {
      LinkableAfterOverlay(d, vs, es[j]);
    }
    LinkCallsOk(o, vs, es);
    if LinkCalls(o, vs, es).Err? {
      var j := FirstUnlinkable(o, vs, es);
      LinkCallsFirstError(o, vs, es, j);
      LinkCallEffect(o, vs, es[j]);
    }
  }

  /** Loading goes through exactly when every flow graph builds, every call-graph vertex finds
      a function, and every call edge names existing vertices. */
  lemma LoadProgramOk(a: Artifact)
    requires Loadable(a)
    ensures LoadProgram(a).Ok? <==>
              && (forall k | 0 <= k < |a.flowGraphs| :: BuildFunction(a, BuildXrefs(a), a.flowGraphs[k]).Ok?)
              && BuildAll(a, BuildXrefs(a), a.flowGraphs).Ok?
              && (forall k | 0 <= k < |a.callGraph.vertices| ::
                    FoundAt(LoadFunctions(Built(a)), a.callGraph.vertices, k))
              && (forall j | 0 <= j < |a.callGraph.edges| :: EdgeIndexed(a.callGraph.vertices, a.callGraph.edges[j]))
  {
    var x := BuildXrefs(a);
    var vs := a.callGraph.vertices;
    BuildAllEach(a, x, a.flowGraphs);
    if BuildAll(a, x, a.flowGraphs).Ok? {
      var d0 := LoadFunctions(Built(a));
      OverlayOk(d0, vs);
      if OverlayVertices(d0, vs).Ok? {
        EdgesAfterOverlay(d0, vs, a.callGraph.edges);
      }
    }
  }

  /** The first flow graph that fails to build decides the error. */
  lemma LoadProgramBuildError(a: Artifact, k: nat)
    requires Loadable(a)
    requires k < |a.flowGraphs| && BuildFunction(a, BuildXrefs(a), a.flowGraphs[k]).Err?
    requires forall j | 0 <= j < k :: BuildFunction(a, BuildXrefs(a), a.flowGraphs[j]).Ok?
    ensures LoadProgram(a) == Err(BuildFunction(a, BuildXrefs(a), a.flowGraphs[k]).error)
  {
    var x := BuildXrefs(a);
    BuildAllEach(a, x, a.flowGraphs);
    BuildAllFirstError(a, x, a.flowGraphs);
    var k' :| 0 <= k' < |a.flowGraphs|
              && BuildFunction(a, x, a.flowGraphs[k']) == Err(BuildAll(a, x, a.flowGraphs).error)
              && forall j | 0 <= j < k' :: BuildFunction(a, x, a.flowGraphs[j]).Ok?;
    assert k' == k;
  }

  /** Once the flow graphs build, the first vertex without a function raises `KeyError` on
      its address. */
  lemma LoadProgramVertexError(a: Artifact, k: nat)
    requires Loadable(a) && BuildAll(a, BuildXrefs(a), a.flowGraphs).Ok?
    requires k < |a.callGraph.vertices| && !FoundAt(LoadFunctions(Built(a)), a.callGraph.vertices, k)
    requires forall j | 0 <= j < k :: FoundAt(LoadFunctions(Built(a)), a.callGraph.vertices, j)
    ensures LoadProgram(a) == Err(MissingFunction(a.callGraph.vertices[k].address))
  {
    OverlayFirstError(LoadFunctions(Built(a)), a.callGraph.vertices, k);
  }

  /** Once the vertices have their functions, a call edge fails only on a vertex index past
      the vertex array. */
  lemma LoadProgramEdgeError(a: Artifact)
    requires Loadable(a) && BuildAll(a, BuildXrefs(a), a.flowGraphs).Ok?
    requires OverlayVertices(LoadFunctions(Built(a)), a.callGraph.vertices).Ok?
    requires LoadProgram(a).Err?
    ensures LoadProgram(a).error.UnknownVertex?
    ensures LoadProgram(a).error.index >= |a.callGraph.vertices|
  {
    EdgesAfterOverlay(LoadFunctions(Built(a)), a.callGraph.vertices, a.callGraph.edges);
  }

  /** A function as the flow-graph phase leaves it: no call-graph type, name or links yet. */
  predicate Bare(f: Func) {
    f.ftype.None? && f.name.None? && f.parents == {} && f.children == {}
  }

  /** The k-th built function is bare and sits at the address of its entry block. */
  lemma BuiltEach(a: Artifact, k: nat)
    requires Loadable(a) && BuildAll(a, BuildXrefs(a), a.flowGraphs).Ok?
    requires k < |a.flowGraphs|
    ensures |Built(a)| == |a.flowGraphs|
    ensures Bare(Built(a)[k])
    ensures BasicBlockAddress(a, a.flowGraphs[k].entry) == Ok(Built(a)[k].addr)
  {
    BuildAllEach(a, BuildXrefs(a), a.flowGraphs);
    assert BuildFunction(a, BuildXrefs(a), a.flowGraphs[k]) == Ok(Built(a)[k]);
  }

  /** Every function in the dict is one of the functions stored into it. */
  lemma LoadFunctionsFrom(fs: seq<Func>, addr: nat)
    requires addr in LoadFunctions(fs).entries
    ensures exists k | 0 <= k < |fs| :: LoadFunctions(fs).entries[addr] == fs[k]
  {
    var kvs := FunctionEntries(fs);
    PutAllValueWritten(Empty<nat, Func>(), kvs, addr);
    var i :| 0 <= i < |kvs| && kvs[i].0 == addr && PutAll(Empty(), kvs).entries[addr] == kvs[i].1;
    assert kvs[i].1 == fs[i];
  }

  /** Every function of the dict the flow graphs fill is bare. */
  lemma LoadedBare(a: Artifact, addr: nat)
    requires Loadable(a) && BuildAll(a, BuildXrefs(a), a.flowGraphs).Ok?
    ensures Bare(Base(LoadFunctions(Built(a)), addr))
  {
    var d0 := LoadFunctions(Built(a));
    if addr in d0.entries {
      LoadFunctionsFrom(Built(a), addr);
      var k :| 0 <= k < |Built(a)| && d0.entries[addr] == Built(a)[k];
      BuiltEach(a, k);
    }
  }

  /** The function a loaded program holds at `addr`, traced back through the phases: it is the
      bare function the flow graphs (or an import stub) put there, with a type, a name and
      call-graph links added on top. */
  lemma LoadProgramTrace(a: Artifact, addr: nat)
    requires Loadable(a) && LoadProgram(a).Ok?
    requires addr in LoadProgram(a).value.functions.entries
    ensures BuildAll(a, BuildXrefs(a), a.flowGraphs).Ok?
    ensures OverlayVertices(LoadFunctions(Built(a)), a.callGraph.vertices).Ok?
    ensures addr in Overlaid(a).entries
    ensures SameButLinks(Overlaid(a).entries[addr], LoadProgram(a).value.functions.entries[addr])
    ensures var f := Overlaid(a).entries[addr];
            f == Base(LoadFunctions(Built(a)), addr).(ftype := f.ftype, name := f.name)
  {
    LoadProgramStages(a);
    var vs := a.callGraph.vertices;
    LinkCallsKeep(Overlaid(a), vs, a.callGraph.edges, addr);
    OverlayBody(LoadFunctions(Built(a)), vs, addr);
  }

  /** A loaded program holds a function at an address exactly when some flow graph's entry
      block starts there or some call-graph vertex names it. */
  lemma LoadProgramFunctions(a: Artifact, addr: nat)
    requires Loadable(a) && LoadProgram(a).Ok?
    ensures addr in LoadProgram(a).value.functions.entries <==>
              || (exists k | 0 <= k < |a.flowGraphs| :: BasicBlockAddress(a, a.flowGraphs[k].entry) == Ok(addr))
              || Named(a.callGraph.vertices, addr)
  {
    LoadProgramStages(a);
    var fs := Built(a);
    LinkCallsKeep(Overlaid(a), a.callGraph.vertices, a.callGraph.edges, addr);
    OverlayKeys(LoadFunctions(fs), a.callGraph.vertices, addr);
    LoadFunctionsKeys(fs, addr);
    forall k | 0 <= k < |a.flowGraphs|
      ensures BasicBlockAddress(a, a.flowGraphs[k].entry) == Ok(addr) <==> fs[k].addr == addr
    {
      BuiltEach(a, k);
    }
    BuildAllEach(a, BuildXrefs(a), a.flowGraphs);
  }

  /** Every function of a loaded program sits under its own address. */
  lemma LoadProgramKeyed(a: Artifact)
    requires Loadable(a) && LoadProgram(a).Ok?
    ensures KeyedByAddr(LoadProgram(a).value.functions)
  {
    LoadProgramStages(a);
    LoadFunctionsKeyed(Built(a));
    OverlayKeyed(LoadFunctions(Built(a)), a.callGraph.vertices);
    var fns := LoadProgram(a).value.functions;
    forall addr | addr in fns.entries
      ensures fns.entries[addr].addr == addr
    {
      LoadProgramTrace(a, addr);
    }
  }

  /** A function's children are exactly the callees of its call edges, and its parents
      exactly the callers. */
  lemma LoadProgramLinks(a: Artifact, addr: nat, c: nat)
    requires Loadable(a) && LoadProgram(a).Ok?
    requires addr in LoadProgram(a).value.functions.entries
    ensures c in LoadProgram(a).value.functions.entries[addr].children <==>
              Calls(a.callGraph.vertices, a.callGraph.edges, addr, c)
    ensures c in LoadProgram(a).value.functions.entries[addr].parents <==>
              Calls(a.callGraph.vertices, a.callGraph.edges, c, addr)
  {
    LoadProgramTrace(a, addr);
    LoadedBare(a, addr);
    LinkCallsLinks(Overlaid(a), a.callGraph.vertices, a.callGraph.edges, addr, c);
  }

  /** A function's type and mangled name come from the last call-graph vertex at its address. */
  lemma LoadProgramVertexType(a: Artifact, k: nat)
    requires Loadable(a) && LoadProgram(a).Ok?
    requires k < |a.callGraph.vertices|
    requires forall j | k < j < |a.callGraph.vertices| ::
               a.callGraph.vertices[j].address != a.callGraph.vertices[k].address
    ensures a.callGraph.vertices[k].address in LoadProgram(a).value.functions.entries
    ensures var f := LoadProgram(a).value.functions.entries[a.callGraph.vertices[k].address];
            f.ftype == Some(a.callGraph.vertices[k].vtype) && f.name == Some(a.callGraph.vertices[k].mangledName)
  {
    LoadProgramStages(a);
    var v := a.callGraph.vertices[k];
    OverlayLastWins(LoadFunctions(Built(a)), a.callGraph.vertices, k);
    LinkCallsKeep(Overlaid(a), a.callGraph.vertices, a.callGraph.edges, v.address);
  }

  /** A function no vertex names keeps no type and no call-graph name, so its `name` is the
      `sub_` default. */
  lemma LoadProgramUnnamed(a: Artifact, addr: nat)
    requires Loadable(a) && LoadProgram(a).Ok?
    requires addr in LoadProgram(a).value.functions.entries && !Named(a.callGraph.vertices, addr)
    ensures LoadProgram(a).value.functions.entries[addr].ftype.None?
    ensures FunctionName(LoadProgram(a).value.functions.entries[addr]) == "sub_" + Hex.Upper(addr)
  {
    LoadProgramTrace(a, addr);
    LoadProgramKeyed(a);
    OverlayBody(LoadFunctions(Built(a)), a.callGraph.vertices, addr);
    LoadedBare(a, addr);
  }

  /** A function built from flow graphs has the blocks and edges of the last flow graph whose
      entry block starts at its address. */
  lemma LoadProgramBody(a: Artifact, k: nat)
    requires Loadable(a) && LoadProgram(a).Ok?
    requires k < |a.flowGraphs|
    requires BuildAll(a, BuildXrefs(a), a.flowGraphs).Ok?
    requires forall j | k < j < |a.flowGraphs| :: Built(a)[j].addr != Built(a)[k].addr
    ensures Built(a)[k].addr in LoadProgram(a).value.functions.entries
    ensures var f := LoadProgram(a).value.functions.entries[Built(a)[k].addr];
            f.blocks == Built(a)[k].blocks && f.edges == Built(a)[k].edges
  {
    LoadProgramStages(a);
    var fs := Built(a);
    BuiltEach(a, k);
    LoadFunctionsLastWins(fs, k);
    LoadProgramFunctions(a, fs[k].addr);
    LoadProgramTrace(a, fs[k].addr);
  }

  /** The first vertex at an address, when some vertex names it. */
  lemma FirstNamed(vs: seq<Vertex>, addr: nat) returns (k: nat)
    requires Named(vs, addr)
    ensures k < |vs| && vs[k].address == addr
    ensures forall j | 0 <= j < k :: vs[j].address != addr
    decreases |vs|
  {
    var n := |vs| - 1;
    if Named(vs[..n], addr) {
      k := FirstNamed(vs[..n], addr);
      assert vs[..n][k] == vs[k];
      assert forall j | 0 <= j < k :: vs[..n][j] == vs[j];
    } else {
      NamedSnoc(vs, addr);
      k := n;
      assert forall j | 0 <= j < k :: vs[..n][j] == vs[j];
    }
  }

  /** A function no flow graph built is an import stub: no blocks, no edges, and the first
      vertex at its address is IMPORTED. */
  lemma LoadProgramImport(a: Artifact, addr: nat)
    requires Loadable(a) && LoadProgram(a).Ok?
    requires addr in LoadProgram(a).value.functions.entries
    requires forall k | 0 <= k < |a.flowGraphs| :: BasicBlockAddress(a, a.flowGraphs[k].entry) != Ok(addr)
    ensures LoadProgram(a).value.functions.entries[addr].blocks.entries == map[]
    ensures LoadProgram(a).value.functions.entries[addr].edges == {}
    ensures exists k | 0 <= k < |a.callGraph.vertices| ::
              && a.callGraph.vertices[k].address == addr
              && a.callGraph.vertices[k].vtype == Imported
              && forall j | 0 <= j < k :: a.callGraph.vertices[j].address != addr
  {
    LoadProgramFunctions(a, addr);
    LoadProgramStages(a);
    var vs := a.callGraph.vertices;
    var fs := Built(a);
    forall k | 0 <= k < |fs|
      ensures fs[k].addr != addr
    {
      BuiltEach(a, k);
    }
    LoadFunctionsKeys(fs, addr);
    LoadProgramTrace(a, addr);
    var k := FirstNamed(vs, addr);
    OverlayOk(LoadFunctions(fs), vs);
    assert FoundAt(LoadFunctions(fs), vs, k);
  }

  /** The last vertex at an address, when some vertex names it. */
  lemma LastNamedVertex(vs: seq<Vertex>, addr: nat) returns (k: nat)
    requires Named(vs, addr)
    ensures k < |vs| && vs[k].address == addr
    ensures forall j | k < j < |vs| :: vs[j].address != addr
    decreases |vs|
  {
    var n := |vs| - 1;
    if vs[n].address == addr {
      k := n;
    } else {
      NamedSnoc(vs, addr);
      k := LastNamedVertex(vs[..n], addr);
      assert vs[..n][k] == vs[k];
    }
  }

  /** `is_import` on a loaded program: a function is an import exactly when the last call-graph
      vertex at its address is IMPORTED; a function no vertex names is never one. */
  lemma LoadProgramIsImport(a: Artifact, addr: nat)
    requires Loadable(a) && LoadProgram(a).Ok?
    requires addr in LoadProgram(a).value.functions.entries
    ensures IsImport(LoadProgram(a).value.functions.entries[addr]) <==>
              exists k | 0 <= k < |a.callGraph.vertices| ::
                && a.callGraph.vertices[k].address == addr
                && a.callGraph.vertices[k].vtype == Imported
                && forall j | k < j < |a.callGraph.vertices| :: a.callGraph.vertices[j].address != addr
  {
    var vs := a.callGraph.vertices;
    if Named(vs, addr) {
      var k := LastNamedVertex(vs, addr);
      LoadProgramVertexType(a, k);
      forall k' | 0 <= k' < |vs| && vs[k'].address == addr && forall j | k' < j < |vs| :: vs[j].address != addr
        ensures k' == k
      {
      }
    } else {
      LoadProgramUnnamed(a, addr);
    }
  }

  /** `fun_names` holds exactly the names of the loaded functions, each sent to the address of
      a function with that name. */
  lemma LoadProgramNames(a: Artifact, name: string)
    requires Loadable(a) && LoadProgram(a).Ok?
    ensures var p := LoadProgram(a).value;
            name in p.funNames <==> exists addr | addr in p.functions.entries :: FunctionName(p.functions.entries[addr]) == name
    ensures var p := LoadProgram(a).value;
            name in p.funNames ==>
              p.funNames[name] in p.functions.entries && FunctionName(p.functions.entries[p.funNames[name]]) == name
  {
    LoadProgramStages(a);
    NameTableSpec(LoadProgram(a).value.functions, name);
  }

  /** `addr_mask` keeps the low 32 bits on an architecture whose name ends in "32" and the low
      64 bits otherwise. */
  lemma LoadProgramMask(a: Artifact, v: nat)
    requires Loadable(a) && LoadProgram(a).Ok?
    ensures AddrMask(LoadProgram(a).value, v)
            == v % (if EndsWith(a.architecture, "32") then 0x1_0000_0000 else 0x1_0000_0000_0000_0000)
  {
    LoadProgramStages(a);
    AddrMaskWidth(a.architecture, v);
  }
}
