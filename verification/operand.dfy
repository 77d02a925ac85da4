/** `OperandBinExport` (loader.py:546-737): the expressions of an operand classified into
    IDA-style tokens, the tree they form, its rendering, and `byte_size`. */
module Operands {
  import opened Wrappers
  import opened Records
  import opened PyDict
  import opened Functions
  import opened Programs
  import Hex

  // ---------------------------------------------------------------------------------------
  // Operand sizes

  /** `__sz_lookup` (loader.py:552): a SIZE_PREFIX symbol to its size in bytes. */
  function SizeOf(symbol: string): Option<nat> {
    if symbol == "b1" then Some(1)
    else if symbol == "b2" then Some(2)
    else if symbol == "b4" then Some(4)
    else if symbol == "b8" then Some(8)
    else if symbol == "b10" then Some(10)
    else if symbol == "b16" then Some(16)
    else if symbol == "b32" then Some(32)
    else if symbol == "b64" then Some(64)
    else None
  }

  /** `__sz_name` (loader.py:553): a size in bytes to the IDA name of that width. */
  function SizeName(size: nat): Option<string> {
    if size == 1 then Some("byte")
    else if size == 2 then Some("word")
    else if size == 4 then Some("dword")
    else if size == 8 then Some("qword")
    else if size == 10 then Some("b10")
    else if size == 16 then Some("xmmword")
    else if size == 32 then Some("ymmword")
    else if size == 64 then Some("zmmword")
    else None
  }

  /** The two tables agree: every size a SIZE_PREFIX can set has a name, so a data label
      fails only for want of a size, never for an unnamed one; and no two symbols share a
      size, so the size determines the symbol it came from. */
  lemma SizeTablesAgree(symbol: string, other: string)
    ensures SizeOf(symbol).Some? ==> SizeName(SizeOf(symbol).value).Some?
    ensures SizeOf(symbol).Some? && SizeOf(symbol) == SizeOf(other) ==> symbol == other
  {
  }

  /** A size the walk may hold: unset, or one the name table knows. */
  predicate KnownSize(size: Option<nat>) {
    size.Some? ==> SizeName(size.value).Some?
  }

  // ---------------------------------------------------------------------------------------
  // Expression tokens

  /** The first component of the tuples `__iter_expressions` yields. */
  datatype Kind = CodName | LibName | ImpName | CName | LocName | DatName | Number | SymbolKind | Reg

  /** The second component: a string, or an integer for 'number'. */
  datatype Value = Text(text: string) | Num(num: nat)

  /** `(type, value, idx, parent_index)`. */
  datatype Token = Token(kind: Kind, value: Value, idx: nat, parent: nat)

  /** What an operand's expressions are read against: the program, the function the
      instruction belongs to, and the instruction's `data_refs`. */
  datatype Scope = Scope(program: Program, fn: Func, dataRefs: seq<nat>)

  /** Every name of `fun_names` refers to a function of the program. */
  ghost predicate NamesResolve(p: Program) {
    forall n | n in p.funNames :: p.funNames[n] in p.functions.entries
  }

  /** A loaded program's name table only names its own functions. */
  lemma LoadProgramNamesResolve(a: Artifact)
    requires Loadable(a) && LoadProgram(a).Ok?
    ensures NamesResolve(LoadProgram(a).value)
  {
    forall n | n in LoadProgram(a).value.funNames
      ensures LoadProgram(a).value.funNames[n] in LoadProgram(a).value.functions.entries
    {
      LoadProgramNames(a, n);
    }
  }

  /** The token kind of a name in `fun_names`, by its function's type; an INVALID or unset
      type yields nothing. */
  function NameKind(t: Option<VertexType>): Option<Kind> {
    match t
    case Some(Normal) => Some(CodName)
    case Some(Library) => Some(LibName)
    case Some(Imported) => Some(ImpName)
    case Some(Thunk) => Some(CName)
    case _ => None
  }

  /** The type of the function a name in `fun_names` refers to. */
  function NamedType(p: Program, name: string): Option<VertexType>
    requires NamesResolve(p) && name in p.funNames
  {
    p.functions.entries[p.funNames[name]].ftype
  }

  /** The label of a data reference: the size name, `_` and the upper-case hex immediate. */
  function DataLabel(size: nat, imm: nat): string
    requires SizeName(size).Some?
  {
    SizeName(size).value + "_" + Hex.Upper(imm)
  }

  /** One expression of `__iter_expressions` (loader.py:591-631): the size it leaves set and
      the tokens it yields (none or one). */
  function Classify(sc: Scope, e: Expression, idx: nat, size: Option<nat>): (r: Result<(Option<nat>, seq<Token>), Fault>)
    requires NamesResolve(sc.program) && KnownSize(size)
    ensures r.Ok? ==> KnownSize(r.value.0) && |r.value.1| <= 1
    ensures r.Ok? ==> forall t | t in r.value.1 :: t.idx == idx && t.parent == e.parentIndex
  {
    var p := e.parentIndex;
    match e.etype
    case Symbol =>
      if e.symbol in sc.program.funNames then
        (var k := NameKind(NamedType(sc.program, e.symbol));
         if k.Some? then Ok((size, [Token(k.value, Text(e.symbol), idx, p)])) else Ok((size, [])))
      else Ok((size, [Token(LocName, Text(e.symbol), idx, p)]))
    case ImmediateInt =>
      if e.immediate in sc.dataRefs then
        (if size.None? then Err(DataLabelWithoutSize(e.immediate))
         else Ok((size, [Token(DatName, Text(DataLabel(size.value, e.immediate)), idx, p)])))
      else if e.immediate in sc.program.functions.entries then
        Ok((size, [Token(CodName, Text("sub_" + Hex.Upper(e.immediate)), idx, p)]))
      else if e.immediate in sc.fn.blocks.entries then
        Ok((size, [Token(CodName, Text("loc_" + Hex.Upper(e.immediate)), idx, p)]))
      else Ok((size, [Token(Number, Num(AddrMask(sc.program, e.immediate)), idx, p)]))
    case ImmediateFloat => Ok((size, []))
    case Operator => Ok((size, [Token(SymbolKind, Text(e.symbol), idx, p)]))
    case Register => Ok((size, [Token(Reg, Text(e.symbol), idx, p)]))
    case Dereference => Ok((size, [Token(SymbolKind, Text(e.symbol), idx, p)]))
    case SizePrefix =>
      (var n := SizeOf(e.symbol);
       if n.None? then Err(UnknownSizePrefix(e.symbol))
       else SizeTablesAgree(e.symbol, e.symbol); Ok((n, [])))
    case UnknownType => Ok((size, []))
  }

  /** Every expression index of a list names an expression record. */
  predicate IndicesInBounds(exprs: seq<Expression>, idxs: seq<nat>) {
    forall k | 0 <= k < |idxs| :: idxs[k] < |exprs|
  }

  /** `__iter_expressions` (loader.py:585-631) over the expression indices `idxs`, in order,
      with the size of the latest SIZE_PREFIX threaded through: the size left set and the
      tokens yielded. */
  function Iterate(sc: Scope, exprs: seq<Expression>, idxs: seq<nat>): (r: Result<(Option<nat>, seq<Token>), Fault>)
    requires NamesResolve(sc.program) && IndicesInBounds(exprs, idxs)
    ensures r.Ok? ==> KnownSize(r.value.0)
    decreases |idxs|
  {
    if |idxs| == 0 then Ok((None, []))
    else
      var n := |idxs| - 1;
      var prev :- Iterate(sc, exprs, idxs[..n]);
      var step :- Classify(sc, exprs[idxs[n]], idxs[n], prev.0);
      Ok((step.0, prev.1 + step.1))
  }

  /** The position in `idxs` of the latest SIZE_PREFIX expression, if any. */
  function LastSizePrefix(exprs: seq<Expression>, idxs: seq<nat>): (j: Option<nat>)
    requires IndicesInBounds(exprs, idxs)
    ensures j.Some? ==> j.value < |idxs| && exprs[idxs[j.value]].etype == SizePrefix
    decreases |idxs|
  {
    if |idxs| == 0 then None
    else if exprs[idxs[|idxs| - 1]].etype == SizePrefix then Some(|idxs| - 1)
    else LastSizePrefix(exprs, idxs[..|idxs| - 1])
  }

  /** `LastSizePrefix` finds the last SIZE_PREFIX, and finds none exactly when there is none. */
  lemma {:induction false} LastSizePrefixSpec(exprs: seq<Expression>, idxs: seq<nat>)
    requires IndicesInBounds(exprs, idxs)
    ensures LastSizePrefix(exprs, idxs).None? <==>
              forall k | 0 <= k < |idxs| :: exprs[idxs[k]].etype != SizePrefix
    ensures LastSizePrefix(exprs, idxs).Some? ==>
              forall k | LastSizePrefix(exprs, idxs).value < k < |idxs| :: exprs[idxs[k]].etype != SizePrefix
    decreases |idxs|
  {
    if |idxs| > 0 {
      var n := |idxs| - 1;
      LastSizePrefixSpec(exprs, idxs[..n]);
      assert forall k | 0 <= k < n :: idxs[..n][k] == idxs[k];
    }
  }

  /** The size the walk holds: that of the latest SIZE_PREFIX, unset when there is none. */
  function SizeAfter(exprs: seq<Expression>, idxs: seq<nat>): Option<nat>
    requires IndicesInBounds(exprs, idxs)
  {
    match LastSizePrefix(exprs, idxs)
    case None => None
    case Some(j) => SizeOf(exprs[idxs[j]].symbol)
  }

  /** An expression yields a token: everything but a size prefix, a float, an unknown type,
      and a function name whose function has no usable type. */
  predicate Emits(sc: Scope, e: Expression)
    requires NamesResolve(sc.program)
  {
    match e.etype
    case Symbol => e.symbol !in sc.program.funNames || NameKind(NamedType(sc.program, e.symbol)).Some?
    case ImmediateInt => true
    case Operator => true
    case Register => true
    case Dereference => true
    case _ => false
  }

  /** The expressions of `idxs` that yield tokens, in order. */
  function Emitting(sc: Scope, exprs: seq<Expression>, idxs: seq<nat>): seq<nat>
    requires NamesResolve(sc.program) && IndicesInBounds(exprs, idxs)
    decreases |idxs|
  {
    if |idxs| == 0 then []
    else
      var n := |idxs| - 1;
      Emitting(sc, exprs, idxs[..n]) + (if Emits(sc, exprs[idxs[n]]) then [idxs[n]] else [])
  }

  function TokenIdxs(ts: seq<Token>): (r: seq<nat>)
    ensures |r| == |ts| && forall k | 0 <= k < |ts| :: r[k] == ts[k].idx
  {
    seq(|ts|, k requires 0 <= k < |ts| => ts[k].idx)
  }

  /** An expression that classifies yields a token exactly when it emits, and a SIZE_PREFIX
      replaces the size while every other expression keeps it. An operator or a dereference
      yields its symbol as a 'symbol' token, a register its name as a 'reg' token. */
  lemma ClassifyEmits(sc: Scope, e: Expression, idx: nat, size: Option<nat>)
    requires NamesResolve(sc.program) && KnownSize(size)
    requires Classify(sc, e, idx, size).Ok?
    ensures |Classify(sc, e, idx, size).value.1| == if Emits(sc, e) then 1 else 0
    ensures Classify(sc, e, idx, size).value.0 == if e.etype == SizePrefix then SizeOf(e.symbol) else size
    ensures e.etype == Operator || e.etype == Dereference ==>
              Classify(sc, e, idx, size).value.1 == [Token(SymbolKind, Text(e.symbol), idx, e.parentIndex)]
    ensures e.etype == Register ==>
              Classify(sc, e, idx, size).value.1 == [Token(Reg, Text(e.symbol), idx, e.parentIndex)]
  {
  }

  /** A fold step, unfolded. */
  lemma IterateUnfold(sc: Scope, exprs: seq<Expression>, idxs: seq<nat>)
    requires NamesResolve(sc.program) && IndicesInBounds(exprs, idxs) && |idxs| > 0
    requires Iterate(sc, exprs, idxs).Ok?
    ensures IndicesInBounds(exprs, idxs[..|idxs| - 1])
    ensures Iterate(sc, exprs, idxs[..|idxs| - 1]).Ok?
    ensures var prev := Iterate(sc, exprs, idxs[..|idxs| - 1]).value;
            var n := |idxs| - 1;
            && Classify(sc, exprs[idxs[n]], idxs[n], prev.0).Ok?
            && Iterate(sc, exprs, idxs).value
               == (Classify(sc, exprs[idxs[n]], idxs[n], prev.0).value.0,
                   prev.1 + Classify(sc, exprs[idxs[n]], idxs[n], prev.0).value.1)
  {
  }

  /** The walk holds the size of the latest SIZE_PREFIX (`size = __sz_lookup[...]`), and it
      yields one token per emitting expression, in order, each carrying that expression's
      index. */
  lemma {:induction false} IterateSpec(sc: Scope, exprs: seq<Expression>, idxs: seq<nat>)
    requires NamesResolve(sc.program) && IndicesInBounds(exprs, idxs)
    requires Iterate(sc, exprs, idxs).Ok?
    ensures Iterate(sc, exprs, idxs).value.0 == SizeAfter(exprs, idxs)
    ensures TokenIdxs(Iterate(sc, exprs, idxs).value.1) == Emitting(sc, exprs, idxs)
    decreases |idxs|
  {
    if |idxs| > 0 {
      var n := |idxs| - 1;
      IterateUnfold(sc, exprs, idxs);
      IterateSpec(sc, exprs, idxs[..n]);
      var prev := Iterate(sc, exprs, idxs[..n]).value;
      ClassifyEmits(sc, exprs[idxs[n]], idxs[n], prev.0);
      var step := Classify(sc, exprs[idxs[n]], idxs[n], prev.0).value;
      assert TokenIdxs(prev.1 + step.1) == TokenIdxs(prev.1) + TokenIdxs(step.1);
    }
  }

  /** A walk that goes through went through every prefix of its indices, yielding a prefix
      of its tokens. */
  lemma {:induction false} IteratePrefix(sc: Scope, exprs: seq<Expression>, idxs: seq<nat>, m: nat)
    requires NamesResolve(sc.program) && IndicesInBounds(exprs, idxs)
    requires Iterate(sc, exprs, idxs).Ok? && m <= |idxs|
    ensures IndicesInBounds(exprs, idxs[..m])
    ensures Iterate(sc, exprs, idxs[..m]).Ok?
    ensures Iterate(sc, exprs, idxs[..m]).value.1 <= Iterate(sc, exprs, idxs).value.1
    decreases |idxs|
  {
    if m < |idxs| {
      var n := |idxs| - 1;
      IterateUnfold(sc, exprs, idxs);
      IteratePrefix(sc, exprs, idxs[..n], m);
      assert idxs[..n][..m] == idxs[..m];
    } else {
      assert idxs[..m] == idxs;
    }
  }

  /** The token a walk yields for an emitting expression `k` sits after the tokens of the
      expressions before it, and is what that expression classifies to under the size of the
      latest SIZE_PREFIX before it. */
  lemma IterateTokenAt(sc: Scope, exprs: seq<Expression>, idxs: seq<nat>, k: nat)
    requires NamesResolve(sc.program) && IndicesInBounds(exprs, idxs)
    requires Iterate(sc, exprs, idxs).Ok? && k < |idxs| && Emits(sc, exprs[idxs[k]])
    ensures IndicesInBounds(exprs, idxs[..k]) && KnownSize(SizeAfter(exprs, idxs[..k]))
    ensures var c := Classify(sc, exprs[idxs[k]], idxs[k], SizeAfter(exprs, idxs[..k]));
            var ts := Iterate(sc, exprs, idxs).value.1;
            && c.Ok? && |c.value.1| == 1
            && |Emitting(sc, exprs, idxs[..k])| < |ts|
            && ts[|Emitting(sc, exprs, idxs[..k])|] == c.value.1[0]
  {
    IteratePrefix(sc, exprs, idxs, k + 1);
    var s := idxs[..k + 1];
    assert s[..k] == idxs[..k] && s[k] == idxs[k];
    IterateUnfold(sc, exprs, s);
    IterateSpec(sc, exprs, idxs[..k]);
    var prev := Iterate(sc, exprs, idxs[..k]).value;
    ClassifyEmits(sc, exprs[idxs[k]], idxs[k], prev.0);
    assert |TokenIdxs(prev.1)| == |prev.1|;
  }

  /** A data label is sized by the latest SIZE_PREFIX before it (`size` is reassigned by
      each one): the walk yields a 'datname' token naming that prefix's width. */
  lemma IterateDataLabel(sc: Scope, exprs: seq<Expression>, idxs: seq<nat>, k: nat)
    requires NamesResolve(sc.program) && IndicesInBounds(exprs, idxs)
    requires Iterate(sc, exprs, idxs).Ok? && k < |idxs|
    requires exprs[idxs[k]].etype == ImmediateInt && exprs[idxs[k]].immediate in sc.dataRefs
    ensures IndicesInBounds(exprs, idxs[..k]) && LastSizePrefix(exprs, idxs[..k]).Some?
    ensures var j := LastSizePrefix(exprs, idxs[..k]).value;
            var ts := Iterate(sc, exprs, idxs).value.1;
            && j < k && exprs[idxs[j]].etype == SizePrefix
            && (forall i | j < i < k :: exprs[idxs[i]].etype != SizePrefix)
            && SizeOf(exprs[idxs[j]].symbol).Some? && SizeName(SizeOf(exprs[idxs[j]].symbol).value).Some?
            && |Emitting(sc, exprs, idxs[..k])| < |ts|
            && ts[|Emitting(sc, exprs, idxs[..k])|]
               == Token(DatName, Text(DataLabel(SizeOf(exprs[idxs[j]].symbol).value, exprs[idxs[k]].immediate)),
                        idxs[k], exprs[idxs[k]].parentIndex)
  {
    IterateTokenAt(sc, exprs, idxs, k);
    assert forall i | 0 <= i < k :: idxs[..k][i] == idxs[i];
    LastSizePrefixSpec(exprs, idxs[..k]);
    var j := LastSizePrefix(exprs, idxs[..k]).value;
    SizeTablesAgree(exprs[idxs[j]].symbol, exprs[idxs[j]].symbol);
  }

  /** Expression `k` of the walk classifies: a SIZE_PREFIX names a known size, and an
      immediate among the instruction's data references comes after some SIZE_PREFIX. */
  predicate ExprFine(sc: Scope, exprs: seq<Expression>, idxs: seq<nat>, k: nat)
    requires IndicesInBounds(exprs, idxs) && k < |idxs|
  {
    var e := exprs[idxs[k]];
    && (e.etype == SizePrefix ==> SizeOf(e.symbol).Some?)
    && (e.etype == ImmediateInt && e.immediate in sc.dataRefs ==>
          exists j | 0 <= j < k :: exprs[idxs[j]].etype == SizePrefix)
  }

  /** What the first expression that does not classify raises. */
  function ExprFault(e: Expression): Fault {
    if e.etype == SizePrefix then UnknownSizePrefix(e.symbol) else DataLabelWithoutSize(e.immediate)
  }

  lemma ExprFinePrefix(sc: Scope, exprs: seq<Expression>, idxs: seq<nat>, n: nat, k: nat)
    requires IndicesInBounds(exprs, idxs) && k < n <= |idxs|
    ensures IndicesInBounds(exprs, idxs[..n])
    ensures ExprFine(sc, exprs, idxs[..n], k) == ExprFine(sc, exprs, idxs, k)
  {
    assert forall j | 0 <= j < n :: idxs[..n][j] == idxs[j];
  }

  /** A size is set exactly when some SIZE_PREFIX has been read. */
  lemma {:induction false} IterateSizeSet(sc: Scope, exprs: seq<Expression>, idxs: seq<nat>)
    requires NamesResolve(sc.program) && IndicesInBounds(exprs, idxs)
    requires Iterate(sc, exprs, idxs).Ok?
    ensures Iterate(sc, exprs, idxs).value.0.Some? <==>
              exists j | 0 <= j < |idxs| :: exprs[idxs[j]].etype == SizePrefix
    decreases |idxs|
  {
    if |idxs| > 0 {
      var n := |idxs| - 1;
      IterateUnfold(sc, exprs, idxs);
      IterateSizeSet(sc, exprs, idxs[..n]);
      var prev := Iterate(sc, exprs, idxs[..n]).value;
      ClassifyEmits(sc, exprs[idxs[n]], idxs[n], prev.0);
      assert forall j | 0 <= j < n :: idxs[..n][j] == idxs[j];
    }
  }

  /** The last expression classifies after a successful prefix exactly when it is fine. */
  lemma ClassifyLast(sc: Scope, exprs: seq<Expression>, idxs: seq<nat>)
    requires NamesResolve(sc.program) && IndicesInBounds(exprs, idxs) && |idxs| > 0
    requires IndicesInBounds(exprs, idxs[..|idxs| - 1]) && Iterate(sc, exprs, idxs[..|idxs| - 1]).Ok?
    ensures var n := |idxs| - 1;
            var c := Classify(sc, exprs[idxs[n]], idxs[n], Iterate(sc, exprs, idxs[..n]).value.0);
            && (c.Ok? <==> ExprFine(sc, exprs, idxs, n))
            && (c.Err? ==> c.error == ExprFault(exprs[idxs[n]]))
  {
    var n := |idxs| - 1;
    IterateSizeSet(sc, exprs, idxs[..n]);
    assert forall j | 0 <= j < n :: idxs[..n][j] == idxs[j];
  }

  /** Every expression is fine, checked one prefix at a time. */
  predicate AllFine(sc: Scope, exprs: seq<Expression>, idxs: seq<nat>)
    requires IndicesInBounds(exprs, idxs)
    decreases |idxs|
  {
    |idxs| == 0 || (AllFine(sc, exprs, idxs[..|idxs| - 1]) && ExprFine(sc, exprs, idxs, |idxs| - 1))
  }

  lemma {:induction false} AllFineEach(sc: Scope, exprs: seq<Expression>, idxs: seq<nat>)
    requires IndicesInBounds(exprs, idxs)
    ensures AllFine(sc, exprs, idxs) <==> forall k | 0 <= k < |idxs| :: ExprFine(sc, exprs, idxs, k)
    decreases |idxs|
  {
    if |idxs| > 0 {
      var n := |idxs| - 1;
      AllFineEach(sc, exprs, idxs[..n]);
      forall k | 0 <= k < n
        ensures ExprFine(sc, exprs, idxs[..n], k) == ExprFine(sc, exprs, idxs, k)
      {
        ExprFinePrefix(sc, exprs, idxs, n, k);
      }
    }
  }

  lemma {:induction false} IterateOkStep(sc: Scope, exprs: seq<Expression>, idxs: seq<nat>)
    requires NamesResolve(sc.program) && IndicesInBounds(exprs, idxs)
    ensures Iterate(sc, exprs, idxs).Ok? <==> AllFine(sc, exprs, idxs)
    decreases |idxs|
  {
    if |idxs| > 0 {
      var n := |idxs| - 1;
      assert IndicesInBounds(exprs, idxs[..n]);
      IterateOkStep(sc, exprs, idxs[..n]);
      if Iterate(sc, exprs, idxs[..n]).Ok? {
        ClassifyLast(sc, exprs, idxs);
      }
    }
  }

  /** The walk goes through exactly when every expression is fine. */
  lemma IterateOk(sc: Scope, exprs: seq<Expression>, idxs: seq<nat>)
    requires NamesResolve(sc.program) && IndicesInBounds(exprs, idxs)
    ensures Iterate(sc, exprs, idxs).Ok? <==> forall k | 0 <= k < |idxs| :: ExprFine(sc, exprs, idxs, k)
  {
    IterateOkStep(sc, exprs, idxs);
    AllFineEach(sc, exprs, idxs);
  }

  /** The first expression that is not fine raises: `KeyError` on the unknown SIZE_PREFIX
      symbol, or on the unset size of a data label. */
  lemma {:induction false} IterateFirstError(sc: Scope, exprs: seq<Expression>, idxs: seq<nat>, k: nat)
    requires NamesResolve(sc.program) && IndicesInBounds(exprs, idxs)
    requires k < |idxs| && !ExprFine(sc, exprs, idxs, k)
    requires forall j | 0 <= j < k :: ExprFine(sc, exprs, idxs, j)
    ensures Iterate(sc, exprs, idxs) == Err(ExprFault(exprs[idxs[k]]))
    decreases |idxs|
  {
    var n := |idxs| - 1;
    assert IndicesInBounds(exprs, idxs[..n]);
    if k < n {
      forall j | 0 <= j <= k
        ensures ExprFine(sc, exprs, idxs[..n], j) == ExprFine(sc, exprs, idxs, j)
      {
        ExprFinePrefix(sc, exprs, idxs, n, j);
      }
      IterateFirstError(sc, exprs, idxs[..n], k);
      assert idxs[..n][k] == idxs[k];
    } else {
      forall j | 0 <= j < n
        ensures ExprFine(sc, exprs, idxs[..n], j)
      {
        ExprFinePrefix(sc, exprs, idxs, n, j);
      }
      AllFineEach(sc, exprs, idxs[..n]);
      IterateOkStep(sc, exprs, idxs[..n]);
      ClassifyLast(sc, exprs, idxs);
    }
  }

  /** An immediate is tried, in this order, as a data reference of the instruction, a
      function address of the program, a block address of the function, and otherwise a
      plain number masked to the architecture's address width; a label ends in the upper-case
      hex of the immediate, which reads back as the immediate. */
  lemma ClassifyImmediate(sc: Scope, e: Expression, idx: nat, size: Option<nat>, architecture: string)
    requires NamesResolve(sc.program) && KnownSize(size)
    requires e.etype == ImmediateInt && Classify(sc, e, idx, size).Ok?
    requires sc.program.mask == AddressMask(architecture)
    ensures |Classify(sc, e, idx, size).value.1| == 1
    ensures var t := Classify(sc, e, idx, size).value.1[0];
            && (t.kind == DatName <==> e.immediate in sc.dataRefs)
            && (t.kind == CodName <==>
                  e.immediate !in sc.dataRefs
                  && (e.immediate in sc.program.functions.entries || e.immediate in sc.fn.blocks.entries))
            && (t.kind == Number <==>
                  && e.immediate !in sc.dataRefs
                  && e.immediate !in sc.program.functions.entries
                  && e.immediate !in sc.fn.blocks.entries)
    ensures var t := Classify(sc, e, idx, size).value.1[0];
            t.kind == DatName ==> size.Some? && t.value == Text(SizeName(size.value).value + "_" + Hex.Upper(e.immediate))
    ensures var t := Classify(sc, e, idx, size).value.1[0];
            t.kind == CodName ==>
              t.value == Text((if e.immediate in sc.program.functions.entries then "sub_" else "loc_") + Hex.Upper(e.immediate))
    ensures var t := Classify(sc, e, idx, size).value.1[0];
            t.kind == Number ==>
              t.value == Num(e.immediate % (if EndsWith(architecture, "32") then 0x1_0000_0000 else 0x1_0000_0000_0000_0000))
    ensures Hex.Value(Hex.Upper(e.immediate)) == e.immediate
  {
    AddrMaskWidth(architecture, e.immediate);
    Hex.DigitsRoundTrip(e.immediate, true);
  }

  /** A symbol that names no function is a local name; one that names a function yields that
      function's kind (code, library, import or thunk), and nothing when it has none. */
  lemma ClassifySymbol(sc: Scope, e: Expression, idx: nat, size: Option<nat>)
    requires NamesResolve(sc.program) && KnownSize(size)
    requires e.etype == Symbol
    ensures Classify(sc, e, idx, size).Ok?
    ensures var ts := Classify(sc, e, idx, size).value.1;
            && (forall t | t in ts :: t.value == Text(e.symbol))
            && (e.symbol !in sc.program.funNames ==> |ts| == 1 && ts[0].kind == LocName)
            && (e.symbol in sc.program.funNames ==>
                  var f := sc.program.functions.entries[sc.program.funNames[e.symbol]];
                  && (|ts| == 0 <==> f.ftype.None? || f.ftype == Some(Invalid))
                  && (f.ftype == Some(Normal) ==> ts == [Token(CodName, Text(e.symbol), idx, e.parentIndex)])
                  && (f.ftype == Some(Library) ==> ts == [Token(LibName, Text(e.symbol), idx, e.parentIndex)])
                  && (f.ftype == Some(Imported) ==> ts == [Token(ImpName, Text(e.symbol), idx, e.parentIndex)])
                  && (f.ftype == Some(Thunk) ==> ts == [Token(CName, Text(e.symbol), idx, e.parentIndex)]))
  {
  }

  // ---------------------------------------------------------------------------------------
  // The expression tree of `__str__` (loader.py:679-737)

  /** A `Tree` object: its value, whether it is an operator, and its children, named by the
      order in which the objects were created. */
  datatype Node = Node(value: Value, operator: bool, children: seq<nat>)

  /** The state of the loop in `__str__`: every `Tree` object created so far, in creation
      order; `tree`, from expression index to object; `removed_nodes`; and `min_idx`. */
  datatype Forest = Forest(nodes: seq<Node>, tree: map<nat, nat>, removed: map<nat, nat>, minIdx: nat)

  /** `default_min_idx`: the bound above every parent index the loop expects. */
  const DefaultMinIdx: nat := 999999

  /** A comma operator: `value == ',' and type_t == 'symbol'`. */
  predicate IsComma(t: Token) {
    t.kind == SymbolKind && t.value == Text(",")
  }

  /** Every object's children were created after it, and every object `tree` names exists;
      `min_idx` is unset or a key of `tree`. */
  predicate Shaped(f: Forest) {
    && Ordered(f.nodes)
    && (forall k | k in f.tree :: f.tree[k] < |f.nodes|)
    && (f.minIdx == DefaultMinIdx || f.minIdx in f.tree)
  }

  /** The parent index a token hangs under, after a removed comma is skipped (one level). */
  function Redirect(f: Forest, parent: nat): nat {
    if parent in f.removed then f.removed[parent] else parent
  }

  /** One iteration of the loop (loader.py:715-731): a comma is removed and remembered;
      any other token gets a new object under its (redirected) parent's object, which is made
      as an empty placeholder when missing, and `tree[idx]` is replaced by the new object. */
  function Place(f: Forest, t: Token): (r: Forest)
    requires Shaped(f)
    ensures Shaped(r)
  {
    if IsComma(t) then f.(removed := f.removed[t.idx := t.parent])
    else
      var p := Redirect(f, t.parent);
      var g := Ensure(f, p);
      var nid := |g.nodes|;
      Forest(Adopt(g.nodes + [Node(t.value, t.kind == SymbolKind, [])], g.tree[p], nid),
             g.tree[t.idx := nid], f.removed, if p < f.minIdx then p else f.minIdx)
  }

  /** `if p_idx not in tree: tree[p_idx] = Tree(idx=p_idx)`: an empty placeholder object. */
  function Ensure(f: Forest, p: nat): (r: Forest)
    requires Shaped(f)
    ensures Shaped(r) && p in r.tree && r.removed == f.removed && r.minIdx == f.minIdx
    ensures p in f.tree ==> r == f
    ensures p !in f.tree ==> r.nodes == f.nodes + [Node(Text(""), false, [])] && r.tree == f.tree[p := |f.nodes|]
  {
    if p in f.tree then f
    else f.(nodes := f.nodes + [Node(Text(""), false, [])], tree := f.tree[p := |f.nodes|])
  }

  /** `parent.childs.append(...)`: object `c` becomes the last child of object `pid`. */
  function Adopt(nodes: seq<Node>, pid: nat, c: nat): (r: seq<Node>)
    requires pid < |nodes|
    ensures |r| == |nodes| && r[pid].children == nodes[pid].children + [c]
    ensures r[pid].value == nodes[pid].value && r[pid].operator == nodes[pid].operator
    ensures forall i | 0 <= i < |nodes| && i != pid :: r[i] == nodes[i]
  {
    nodes[pid := nodes[pid].(children := nodes[pid].children + [c])]
  }

  function EmptyForest(): (f: Forest)
    ensures Shaped(f)
  {
    Forest([], map[], map[], DefaultMinIdx)
  }

  /** The loop over all tokens, in order. */
  function Build(ts: seq<Token>): (f: Forest)
    ensures Shaped(f)
    decreases |ts|
  {
    if |ts| == 0 then EmptyForest() else Place(Build(ts[..|ts| - 1]), ts[|ts| - 1])
  }

  /** Every object's children were created after it. */
  predicate Ordered(nodes: seq<Node>) {
    forall i, k | 0 <= i < |nodes| && 0 <= k < |nodes[i].children| :: i < nodes[i].children[k] < |nodes|
  }

  /** The closing glyph of an operator: `inv.get(value, ')')`. */
  function Close(v: Value): string {
    if v == Text("{") then "}" else if v == Text("[") then "]" else if v == Text("!") then "" else ")"
  }

  /** The text of one node around its rendered children: the value (`hex` for an integer),
      `(` after an operator other than `{`, `[` and `!`, the children, and the operator's
      closing glyph. */
  function Wrap(v: Value, operator: bool, inner: string): string {
    var head := match v case Num(n) => Hex.PyHex(n) case Text(s) => s;
    var open := if operator && v !in {Text("{"), Text("["), Text("!")} then "(" else "";
    head + open + inner + (if operator then Close(v) else "")
  }

  /** `Tree.__str__`. */
  function Render(nodes: seq<Node>, i: nat): string
    requires Ordered(nodes) && i < |nodes|
    decreases |nodes| - i, 1
  {
    Wrap(nodes[i].value, nodes[i].operator, RenderChildren(nodes, i, nodes[i].children))
  }

  /** `','.join(str(child) for child in childs)`. */
  function RenderChildren(nodes: seq<Node>, parent: nat, ids: seq<nat>): string
    requires Ordered(nodes) && forall k | 0 <= k < |ids| :: parent < ids[k] < |nodes|
    decreases |nodes| - parent, 0, |ids|
  {
    if |ids| == 0 then ""
    else if |ids| == 1 then Render(nodes, ids[0])
    else
      RenderChildren(nodes, parent, ids[..|ids| - 1]) + "," + Render(nodes, ids[|ids| - 1])
  }

  /** The string of the built tree: empty when no parent index below the default was seen,
      otherwise the object under the smallest one. */
  function TreeString(f: Forest): string
    requires Shaped(f)
  {
    if f.minIdx == DefaultMinIdx then "" else Render(f.nodes, f.tree[f.minIdx])
  }

  /** `OperandBinExport.__str__` (loader.py:679-737). */
  function OperandString(sc: Scope, exprs: seq<Expression>, op: Operand): Result<string, Fault>
    requires NamesResolve(sc.program) && IndicesInBounds(exprs, op.expressionIndex)
  {
    var walked :- Iterate(sc, exprs, op.expressionIndex);
    Ok(TreeString(Build(walked.1)))
  }

  /** `__str__` raises exactly when the walk does: it renders when every expression is fine,
      and then it renders the tree of the walk's tokens, one per emitting expression in order. */
  lemma OperandStringOk(sc: Scope, exprs: seq<Expression>, op: Operand)
    requires NamesResolve(sc.program) && IndicesInBounds(exprs, op.expressionIndex)
    ensures OperandString(sc, exprs, op).Ok? <==>
              forall k | 0 <= k < |op.expressionIndex| :: ExprFine(sc, exprs, op.expressionIndex, k)
    ensures OperandString(sc, exprs, op).Ok? ==>
              var ts := Iterate(sc, exprs, op.expressionIndex).value.1;
              && TokenIdxs(ts) == Emitting(sc, exprs, op.expressionIndex)
              && OperandString(sc, exprs, op).value == TreeString(Build(ts))
  {
    IterateOk(sc, exprs, op.expressionIndex);
    if Iterate(sc, exprs, op.expressionIndex).Ok? {
      IterateSpec(sc, exprs, op.expressionIndex);
    }
  }

  /** The first expression that is not fine makes `__str__` raise its fault. */
  lemma OperandStringFault(sc: Scope, exprs: seq<Expression>, op: Operand, k: nat)
    requires NamesResolve(sc.program) && IndicesInBounds(exprs, op.expressionIndex)
    requires k < |op.expressionIndex| && !ExprFine(sc, exprs, op.expressionIndex, k)
    requires forall j | 0 <= j < k :: ExprFine(sc, exprs, op.expressionIndex, j)
    ensures OperandString(sc, exprs, op) == Err(ExprFault(exprs[op.expressionIndex[k]]))
  {
    IterateFirstError(sc, exprs, op.expressionIndex, k);
  }

  /** The parent index token `k` of `ts` hangs under: its own, or, when that names a comma
      removed earlier, the comma's parent. */
  function ParentIndex(ts: seq<Token>, k: nat): nat
    requires k < |ts|
  {
    Redirect(Build(ts[..k]), ts[k].parent)
  }

  /** The object token `k`'s parent index resolves to when the token is placed: the one
      `tree` names, or the placeholder created for it. */
  function ParentObject(f: Forest, t: Token): nat {
    var p := Redirect(f, t.parent);
    if p in f.tree then f.tree[p] else |f.nodes|
  }

  /** The object created for token `k` of `ts` (meaningful for a token that is not a comma). */
  function ObjectOf(ts: seq<Token>, k: nat): nat
    requires k < |ts|
  {
    var f := Build(ts[..k]);
    if Redirect(f, ts[k].parent) in f.tree then |f.nodes| else |f.nodes| + 1
  }

  /** What one iteration does to a token that is not a comma: a new object with the token's
      value, an operator exactly for a symbol, hangs last under its parent's object (a fresh
      empty placeholder when the parent index was never seen); `tree[idx]` now names the new
      object; `min_idx` drops to the parent index if lower; no other object changes. */
  lemma PlaceAttach(f: Forest, t: Token)
    requires Shaped(f) && !IsComma(t)
    ensures var r := Place(f, t);
            var p := Redirect(f, t.parent);
            var pid := ParentObject(f, t);
            var nid := |r.nodes| - 1;
            && |r.nodes| == |f.nodes| + (if p in f.tree then 1 else 2)
            && r.nodes[nid] == Node(t.value, t.kind == SymbolKind, [])
            && pid < nid
            && r.nodes[pid].children == (if p in f.tree then f.nodes[pid].children else []) + [nid]
            && (p !in f.tree ==> r.nodes[pid].value == Text("") && !r.nodes[pid].operator)
            && (p in f.tree ==> r.nodes[pid].value == f.nodes[pid].value && r.nodes[pid].operator == f.nodes[pid].operator)
            && (forall i | 0 <= i < |f.nodes| && i != pid :: r.nodes[i] == f.nodes[i])
            && r.tree == (if p in f.tree then f.tree else f.tree[p := pid])[t.idx := nid]
            && r.minIdx == (if p < f.minIdx then p else f.minIdx)
            && r.removed == f.removed
  {
  }

  /** What one iteration does to a comma: it only records the comma's parent. */
  lemma PlaceComma(f: Forest, t: Token)
    requires Shaped(f) && IsComma(t)
    ensures Place(f, t).nodes == f.nodes && Place(f, t).tree == f.tree && Place(f, t).minIdx == f.minIdx
    ensures Place(f, t).removed == f.removed[t.idx := t.parent]
  {
  }

  /** An object, once created, keeps its value and kind, and its children only grow. */
  predicate Grown(f: Forest, g: Forest) {
    && |f.nodes| <= |g.nodes|
    && forall i | 0 <= i < |f.nodes| ::
         && g.nodes[i].value == f.nodes[i].value
         && g.nodes[i].operator == f.nodes[i].operator
         && f.nodes[i].children <= g.nodes[i].children
  }

  lemma PlaceGrows(f: Forest, t: Token)
    requires Shaped(f)
    ensures Grown(f, Place(f, t))
  {
    if !IsComma(t) {
      PlaceAttach(f, t);
    }
  }

  lemma BuildPrefix(ts: seq<Token>, m: nat)
    requires 0 < m <= |ts|
    ensures Build(ts[..m]) == Place(Build(ts[..m - 1]), ts[m - 1])
  {
    assert ts[..m][..m - 1] == ts[..m - 1];
  }

  /** Later tokens never take anything away from the objects made so far. */
  lemma {:induction false} BuildGrows(ts: seq<Token>, m: nat)
    requires m <= |ts|
    ensures Grown(Build(ts[..m]), Build(ts))
    decreases |ts| - m
  {
    if m < |ts| {
      BuildGrows(ts, m + 1);
      BuildPrefix(ts, m + 1);
      PlaceGrows(Build(ts[..m]), ts[m]);
    } else {
      assert ts[..m] == ts;
    }
  }

  /** Every token other than a comma ends up as an object of the tree with its value, an
      operator exactly when it is a symbol, hanging under the object its parent index
      resolved to when it was placed. */
  lemma TokenHung(ts: seq<Token>, k: nat)
    requires k < |ts| && !IsComma(ts[k])
    ensures var g := Build(ts);
            var o := ObjectOf(ts, k);
            var pid := ParentObject(Build(ts[..k]), ts[k]);
            && pid < o < |g.nodes|
            && g.nodes[o].value == ts[k].value
            && g.nodes[o].operator == (ts[k].kind == SymbolKind)
            && o in g.nodes[pid].children
  {
    var f := Build(ts[..k]);
    BuildPrefix(ts, k + 1);
    PlaceAttach(f, ts[k]);
    var r := Build(ts[..k + 1]);
    var o := ObjectOf(ts, k);
    assert o == |r.nodes| - 1;
    var pid := ParentObject(f, ts[k]);
    assert o in r.nodes[pid].children;
    BuildGrows(ts, k + 1);
    var g := Build(ts);
    assert r.nodes[pid].children <= g.nodes[pid].children;
  }

  /** No object sits in two children lists, nor twice in one. */
  predicate OneParent(nodes: seq<Node>) {
    forall i, j, a, b |
      && 0 <= i < |nodes| && 0 <= j < |nodes|
      && 0 <= a < |nodes[i].children| && 0 <= b < |nodes[j].children|
      && nodes[i].children[a] == nodes[j].children[b]
      :: i == j && a == b
  }

  /** Every child index is below `bound`. */
  predicate ChildrenBelow(nodes: seq<Node>, bound: nat) {
    forall i, k | 0 <= i < |nodes| && 0 <= k < |nodes[i].children| :: nodes[i].children[k] < bound
  }

  lemma AppendLeafOneParent(nodes: seq<Node>, leaf: Node)
    requires Ordered(nodes) && OneParent(nodes) && leaf.children == []
    ensures Ordered(nodes + [leaf]) && OneParent(nodes + [leaf]) && ChildrenBelow(nodes + [leaf], |nodes|)
  {
    var n := nodes + [leaf];
    forall i, k | 0 <= i < |n| && 0 <= k < |n[i].children|
      ensures i < n[i].children[k] < |nodes|
    {
      assert i < |nodes|;
      assert n[i] == nodes[i];
    }
  }

  /** Hanging the newest object, which nobody holds yet, under one earlier object keeps
      every object with at most one parent. */
  lemma AdoptOneParent(nodes: seq<Node>, pid: nat)
    requires pid + 1 < |nodes|
    requires Ordered(nodes) && OneParent(nodes) && ChildrenBelow(nodes, |nodes| - 1)
    ensures Ordered(Adopt(nodes, pid, |nodes| - 1)) && OneParent(Adopt(nodes, pid, |nodes| - 1))
  {
    var nid := |nodes| - 1;
    var n := Adopt(nodes, pid, nid);
    forall i, k | 0 <= i < |n| && 0 <= k < |n[i].children|
      ensures i < n[i].children[k] < |n|
    {
      if i == pid && k == |nodes[pid].children| {
      } else {
        assert n[i].children[k] == nodes[i].children[k];
      }
    }
    forall i, j, a, b |
      && 0 <= i < |n| && 0 <= j < |n|
      && 0 <= a < |n[i].children| && 0 <= b < |n[j].children|
      && n[i].children[a] == n[j].children[b]
      ensures i == j && a == b
    {
      if !(i == pid && a == |nodes[pid].children|) {
        assert n[i].children[a] == nodes[i].children[a] < nid;
      }
      if !(j == pid && b == |nodes[pid].children|) {
        assert n[j].children[b] == nodes[j].children[b] < nid;
      }
    }
  }

  lemma PlaceOneParent(f: Forest, t: Token)
    requires Shaped(f) && OneParent(f.nodes)
    ensures OneParent(Place(f, t).nodes)
  {
    if !IsComma(t) {
      var p := Redirect(f, t.parent);
      var g := Ensure(f, p);
      if p !in f.tree {
        AppendLeafOneParent(f.nodes, Node(Text(""), false, []));
      }
      assert OneParent(g.nodes) && Ordered(g.nodes);
      var leaf := Node(t.value, t.kind == SymbolKind, []);
      var n := g.nodes + [leaf];
      AppendLeafOneParent(g.nodes, leaf);
      AdoptOneParent(n, g.tree[p]);
      assert Place(f, t).nodes == Adopt(n, g.tree[p], |n| - 1);
    }
  }

  /** The objects form a forest: each has at most one parent, created before it. */
  lemma {:induction false} BuildOneParent(ts: seq<Token>)
    ensures Ordered(Build(ts).nodes) && OneParent(Build(ts).nodes)
    decreases |ts|
  {
    if |ts| > 0 {
      BuildOneParent(ts[..|ts| - 1]);
      PlaceOneParent(Build(ts[..|ts| - 1]), ts[|ts| - 1]);
    }
  }

  /** No object is a comma operator. */
  predicate NoCommaObject(nodes: seq<Node>) {
    forall i | 0 <= i < |nodes| :: !(nodes[i].operator && nodes[i].value == Text(","))
  }

  /** Comma operators never become objects of the tree: their children are hung under
      their parent instead. */
  lemma {:induction false} BuildNoComma(ts: seq<Token>)
    ensures NoCommaObject(Build(ts).nodes)
    decreases |ts|
  {
    if |ts| > 0 {
      var f := Build(ts[..|ts| - 1]);
      BuildNoComma(ts[..|ts| - 1]);
      if !IsComma(ts[|ts| - 1]) {
        PlaceAttach(f, ts[|ts| - 1]);
      }
    }
  }

  /** The token is a comma that was not removed again under the same index later on. */
  predicate LastComma(ts: seq<Token>, k: nat)
    requires k < |ts|
  {
    IsComma(ts[k]) && forall j | k < j < |ts| :: !(IsComma(ts[j]) && ts[j].idx == ts[k].idx)
  }

  lemma PlaceRemoved(f: Forest, t: Token)
    requires Shaped(f)
    ensures Place(f, t).removed == if IsComma(t) then f.removed[t.idx := t.parent] else f.removed
  {
  }

  /** The indices `removed_nodes` holds are exactly those of the commas seen. */
  lemma {:induction false} BuildRemovedKeys(ts: seq<Token>, c: nat)
    ensures c in Build(ts).removed <==> exists k | 0 <= k < |ts| :: IsComma(ts[k]) && ts[k].idx == c
    decreases |ts|
  {
    if |ts| > 0 {
      var n := |ts| - 1;
      var init := ts[..n];
      BuildRemovedKeys(init, c);
      PlaceRemoved(Build(init), ts[n]);
      if c in Build(init).removed {
        var k :| 0 <= k < n && IsComma(init[k]) && init[k].idx == c;
        assert ts[k] == init[k];
      }
      if exists k | 0 <= k < |ts| :: IsComma(ts[k]) && ts[k].idx == c {
        var k :| 0 <= k < |ts| && IsComma(ts[k]) && ts[k].idx == c;
        if k < n {
          assert init[k] == ts[k];
        }
      }
    }
  }

  /** Each removed index maps to the parent of the last comma with that index. */
  lemma {:induction false} BuildRemovedValue(ts: seq<Token>, c: nat, k: nat)
    requires k < |ts| && ts[k].idx == c && LastComma(ts, k)
    ensures c in Build(ts).removed && Build(ts).removed[c] == ts[k].parent
    decreases |ts|
  {
    var n := |ts| - 1;
    var init := ts[..n];
    PlaceRemoved(Build(init), ts[n]);
    if k < n {
      assert init[k] == ts[k];
      assert LastComma(init, k) by {
        forall j | k < j < |init| ensures !(IsComma(init[j]) && init[j].idx == init[k].idx) {
          assert init[j] == ts[j];
        }
      }
      BuildRemovedValue(init, c, k);
      assert !(IsComma(ts[n]) && ts[n].idx == c);
    }
  }

  /** `removed_nodes` holds exactly the indices of the commas seen, each mapped to the parent
      of the last comma with that index. */
  lemma BuildRemoved(ts: seq<Token>, c: nat)
    ensures c in Build(ts).removed <==> exists k | 0 <= k < |ts| :: IsComma(ts[k]) && ts[k].idx == c
    ensures forall k | 0 <= k < |ts| && ts[k].idx == c && LastComma(ts, k) :: Build(ts).removed[c] == ts[k].parent
  {
    BuildRemovedKeys(ts, c);
    forall k | 0 <= k < |ts| && ts[k].idx == c && LastComma(ts, k)
      ensures Build(ts).removed[c] == ts[k].parent
    {
      BuildRemovedValue(ts, c, k);
    }
  }

  lemma PlaceMin(f: Forest, t: Token)
    requires Shaped(f)
    ensures var p := Redirect(f, t.parent);
            Place(f, t).minIdx == if IsComma(t) || f.minIdx <= p then f.minIdx else p
  {
  }

  lemma ParentIndexPrefix(ts: seq<Token>, n: nat, k: nat)
    requires k < n <= |ts|
    ensures ParentIndex(ts[..n], k) == ParentIndex(ts, k) && ts[..n][k] == ts[k]
  {
    assert ts[..n][..k] == ts[..k];
  }

  /** `min_idx` is the smallest parent index a non-comma token hung under, or the default
      when that is smaller or there is none. */
  lemma {:induction false} BuildMinIdx(ts: seq<Token>)
    ensures Build(ts).minIdx <= DefaultMinIdx
    ensures forall k | 0 <= k < |ts| && !IsComma(ts[k]) :: Build(ts).minIdx <= ParentIndex(ts, k)
    ensures Build(ts).minIdx == DefaultMinIdx
            || exists k | 0 <= k < |ts| && !IsComma(ts[k]) :: Build(ts).minIdx == ParentIndex(ts, k)
    decreases |ts|
  {
    if |ts| > 0 {
      var n := |ts| - 1;
      var init := ts[..n];
      var f := Build(init);
      BuildMinIdx(init);
      var r := Build(ts);
      assert r == Place(f, ts[n]);
      var p := ParentIndex(ts, n);
      assert p == Redirect(f, ts[n].parent);
      PlaceMin(f, ts[n]);
      forall k | 0 <= k < |ts| && !IsComma(ts[k]) ensures r.minIdx <= ParentIndex(ts, k) {
        if k < n {
          ParentIndexPrefix(ts, n, k);
        }
      }
      if r.minIdx != DefaultMinIdx {
        if !IsComma(ts[n]) && p < f.minIdx {
          assert r.minIdx == ParentIndex(ts, n);
        } else {
          var k :| 0 <= k < n && !IsComma(init[k]) && f.minIdx == ParentIndex(init, k);
          ParentIndexPrefix(ts, n, k);
          assert r.minIdx == ParentIndex(ts, k);
        }
      }
    }
  }

  /** The operand renders as the empty string when no token other than a comma hangs under a
      parent index below the default; otherwise as the object under the smallest such index. */
  lemma TreeStringRoot(ts: seq<Token>)
    ensures (forall k | 0 <= k < |ts| && !IsComma(ts[k]) :: ParentIndex(ts, k) >= DefaultMinIdx)
            ==> TreeString(Build(ts)) == ""
    ensures (exists k | 0 <= k < |ts| && !IsComma(ts[k]) :: ParentIndex(ts, k) < DefaultMinIdx)
            ==> Build(ts).minIdx < DefaultMinIdx && Build(ts).minIdx in Build(ts).tree
                && TreeString(Build(ts)) == Render(Build(ts).nodes, Build(ts).tree[Build(ts).minIdx])
  {
    BuildMinIdx(ts);
  }

  // ---------------------------------------------------------------------------------------
  // Operand size

  /** `OperandBinExport.byte_size` (loader.py:646-656): the size named by the operand's first
      expression, which must be a SIZE_PREFIX of a known width. An operand without
      expressions fails on the first index. */
  function ByteSize(exprs: seq<Expression>, op: Operand): (r: Result<nat, Fault>)
    requires IndicesInBounds(exprs, op.expressionIndex)
    ensures |op.expressionIndex| == 0 <==> r == Err(NoExpression)
    ensures r.Ok? <==>
              && |op.expressionIndex| > 0
              && exprs[op.expressionIndex[0]].etype == SizePrefix
              && SizeOf(exprs[op.expressionIndex[0]].symbol).Some?
    ensures r.Ok? ==> SizeOf(exprs[op.expressionIndex[0]].symbol) == Some(r.value) && KnownSize(Some(r.value))
    ensures |op.expressionIndex| > 0 && exprs[op.expressionIndex[0]].etype != SizePrefix ==> r == Err(NotSizePrefix)
  {
    if |op.expressionIndex| == 0 then Err(NoExpression)
    else
      var e := exprs[op.expressionIndex[0]];
      if e.etype != SizePrefix then Err(NotSizePrefix)
      else match SizeOf(e.symbol)
        case None => Err(UnknownSizePrefix(e.symbol))
        case Some(n) => SizeTablesAgree(e.symbol, e.symbol); Ok(n)
  }

  /** `byte_size` and the walk agree: an operand whose first expression is a SIZE_PREFIX has
      the size the walk holds right after it, the walk fails on it exactly when `byte_size`
      does, with the same fault, and without a later SIZE_PREFIX the walk ends holding it. */
  lemma ByteSizeMatchesWalk(sc: Scope, exprs: seq<Expression>, op: Operand)
    requires NamesResolve(sc.program) && IndicesInBounds(exprs, op.expressionIndex)
    requires |op.expressionIndex| > 0 && exprs[op.expressionIndex[0]].etype == SizePrefix
    ensures IndicesInBounds(exprs, op.expressionIndex[..1])
    ensures var w := Iterate(sc, exprs, op.expressionIndex[..1]);
            && (w.Ok? <==> ByteSize(exprs, op).Ok?)
            && (w.Ok? ==> w.value.0 == Some(ByteSize(exprs, op).value))
            && (w.Err? ==> w.error == ByteSize(exprs, op).error)
    ensures ByteSize(exprs, op).Ok?
            && (forall k | 1 <= k < |op.expressionIndex| :: exprs[op.expressionIndex[k]].etype != SizePrefix)
            ==> SizeAfter(exprs, op.expressionIndex) == Some(ByteSize(exprs, op).value)
  {
    var idxs := op.expressionIndex;
    assert idxs[..1][..0] == [];
    assert idxs[..1][0] == idxs[0];
    if ByteSize(exprs, op).Ok? && forall k | 1 <= k < |idxs| :: exprs[idxs[k]].etype != SizePrefix {
      LastSizePrefixSpec(exprs, idxs);
    }
  }
}
