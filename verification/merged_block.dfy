/** The newer `BasicBlockBinExport` of basic_block.py, which keeps a BinExport basic block
    whole instead of splitting it at its ranges: its address is that of its first instruction,
    its bytes are the raw bytes of every range in turn, and its instructions are keyed by
    resolved address.

    `binexport.utils` is not part of this model. Its `instruction_index_range` is taken to be
    the range bound of loader.py:365 (`RangeIndices`), and its `get_instruction_address` the
    resolver of loader.py:12-44 (`Resolve`). */
module MergedBlocks {
  import opened Wrappers
  import opened Records
  import opened Address
  import opened PyDict
  import opened Walk
  import opened Functions

  /** The instruction indices the two nested loops visit: every range in order, each range in
      index order. */
  function CoveredIndices(ranges: seq<IndexRange>): seq<nat>
    decreases |ranges|
  {
    if |ranges| == 0 then [] else CoveredIndices(ranges[..|ranges| - 1]) + RangeIndices(ranges[|ranges| - 1])
  }

  lemma {:induction false} CoveredInBounds(insts: seq<Instruction>, ranges: seq<IndexRange>)
    requires RangesInBounds(insts, ranges)
    ensures IndicesInBounds(insts, CoveredIndices(ranges))
    decreases |ranges|
  {
    if |ranges| > 0 {
      var n := |ranges| - 1;
      assert RangesInBounds(insts, ranges[..n]) by {
        forall k | 0 <= k < n ensures RangeInBounds(insts, ranges[..n][k]) {
          assert ranges[..n][k] == ranges[k];
        }
      }
      CoveredInBounds(insts, ranges[..n]);
      RangeIndicesInBounds(insts, ranges[n]);
      var a := CoveredIndices(ranges[..n]);
      var b := RangeIndices(ranges[n]);
      forall k | 0 <= k < |a + b| ensures (a + b)[k] < |insts| {
        if k < |a| {
          assert (a + b)[k] == a[k];
        } else {
          assert (a + b)[k] == b[k - |a|];
        }
      }
    }
  }

  /** `addr` and `bytes` as the constructor leaves them. */
  datatype Header = Header(addr: Option<nat>, bytes: seq<byte>)

  /** One iteration of the constructor's loop (basic_block.py:44-50): the raw bytes are
      appended, and the address is resolved while it is still `None`. */
  function Visit(insts: seq<Instruction>, h: Header, idx: nat): (r: Result<Header, Fault>)
    requires idx < |insts|
    ensures r.Ok? ==> r.value.bytes == h.bytes + insts[idx].rawBytes
  {
    if h.addr.Some? then Ok(Header(h.addr, h.bytes + insts[idx].rawBytes))
    else
      var a :- Resolve(insts, idx);
      Ok(Header(Some(a), h.bytes + insts[idx].rawBytes))
  }

  function VisitAll(insts: seq<Instruction>, h: Header, idxs: seq<nat>): Result<Header, Fault>
    requires IndicesInBounds(insts, idxs)
    decreases |idxs|
  {
    if |idxs| == 0 then Ok(h)
    else
      var n := |idxs| - 1;
      assert IndicesInBounds(insts, idxs[..n]) by {
        forall k | 0 <= k < n ensures idxs[..n][k] < |insts| {
          assert idxs[..n][k] == idxs[k];
        }
      }
      var h' :- VisitAll(insts, h, idxs[..n]);
      Visit(insts, h', idxs[n])
  }

  /** `BasicBlockBinExport.__init__` (basic_block.py:19-50). */
  function MergedHeader(insts: seq<Instruction>, bb: BasicBlock): Result<Header, Fault>
    requires RangesInBounds(insts, bb.ranges)
  {
    CoveredInBounds(insts, bb.ranges);
    VisitAll(insts, Header(None, []), CoveredIndices(bb.ranges))
  }

  /** The raw bytes of instructions `idxs`, one after the other. */
  function Concat(insts: seq<Instruction>, idxs: seq<nat>): seq<byte>
    requires IndicesInBounds(insts, idxs)
    decreases |idxs|
  {
    if |idxs| == 0 then []
    else
      assert IndicesInBounds(insts, idxs[1..]) by {
        forall k | 0 <= k < |idxs[1..]| ensures idxs[1..][k] < |insts| {
          assert idxs[1..][k] == idxs[k + 1];
        }
      }
      insts[idxs[0]].rawBytes + Concat(insts, idxs[1..])
  }

  /** The bytes of one range, a true basic block. */
  function RangeBytes(insts: seq<Instruction>, r: IndexRange): seq<byte>
    requires RangeInBounds(insts, r)
  {
    RangeIndicesInBounds(insts, r);
    Concat(insts, RangeIndices(r))
  }

  /** The bytes of the ranges, range after range. */
  function RangesBytes(insts: seq<Instruction>, ranges: seq<IndexRange>): seq<byte>
    requires RangesInBounds(insts, ranges)
    decreases |ranges|
  {
    if |ranges| == 0 then [] else RangeBytes(insts, ranges[0]) + RangesBytes(insts, ranges[1..])
  }

  /** The loop resolves only the first instruction it visits, and only when no address is set
      yet: it raises exactly when that resolution does. It sets the address there and never
      again, and appends every instruction's bytes in turn. */
  lemma {:induction false} VisitAllSpec(insts: seq<Instruction>, h: Header, idxs: seq<nat>)
    requires IndicesInBounds(insts, idxs)
    ensures VisitAll(insts, h, idxs).Ok? <==> h.addr.Some? || |idxs| == 0 || Resolve(insts, idxs[0]).Ok?
    ensures VisitAll(insts, h, idxs).Ok? ==>
              VisitAll(insts, h, idxs).value.addr
              == if h.addr.Some? || |idxs| == 0 then h.addr else Some(Resolve(insts, idxs[0]).value)
    ensures VisitAll(insts, h, idxs).Ok? ==> VisitAll(insts, h, idxs).value.bytes == h.bytes + Concat(insts, idxs)
    decreases |idxs|
  {
    if |idxs| > 0 {
      var n := |idxs| - 1;
      VisitAllSpec(insts, h, idxs[..n]);
      ConcatSnoc(insts, idxs);
      if n > 0 {
        assert idxs[..n][0] == idxs[0];
      }
    }
  }

  lemma {:induction false} ConcatSnoc(insts: seq<Instruction>, idxs: seq<nat>)
    requires |idxs| > 0 && IndicesInBounds(insts, idxs)
    ensures IndicesInBounds(insts, idxs[..|idxs| - 1])
    ensures Concat(insts, idxs) == Concat(insts, idxs[..|idxs| - 1]) + insts[idxs[|idxs| - 1]].rawBytes
    decreases |idxs|
  {
    var n := |idxs| - 1;
    assert IndicesInBounds(insts, idxs[..n]) by {
      forall k | 0 <= k < n ensures idxs[..n][k] < |insts| {
        assert idxs[..n][k] == idxs[k];
      }
    }
    if |idxs| > 1 {
      assert IndicesInBounds(insts, idxs[1..]) by {
        forall k | 0 <= k < n ensures idxs[1..][k] < |insts| {
          assert idxs[1..][k] == idxs[k + 1];
        }
      }
      ConcatSnoc(insts, idxs[1..]);
      assert idxs[1..][..n - 1] == idxs[..n][1..];
      assert idxs[1..][n - 1] == idxs[n];
    } else {
      assert idxs[..0] == [];
    }
  }

  lemma {:induction false} ConcatAppend(insts: seq<Instruction>, a: seq<nat>, b: seq<nat>)
    requires IndicesInBounds(insts, a) && IndicesInBounds(insts, b)
    ensures IndicesInBounds(insts, a + b)
    ensures Concat(insts, a + b) == Concat(insts, a) + Concat(insts, b)
    decreases |a|
  {
    assert IndicesInBounds(insts, a + b) by {
      forall k | 0 <= k < |a + b| ensures (a + b)[k] < |insts| {
        if k < |a| {
          assert (a + b)[k] == a[k];
        } else {
          assert (a + b)[k] == b[k - |a|];
        }
      }
    }
    if |a| > 0 {
      assert IndicesInBounds(insts, a[1..]) by {
        forall k | 0 <= k < |a[1..]| ensures a[1..][k] < |insts| {
          assert a[1..][k] == a[k + 1];
        }
      }
      ConcatAppend(insts, a[1..], b);
      assert (a + b)[1..] == a[1..] + b;
    } else {
      assert a + b == b;
    }
  }

  lemma {:induction false} RangesBytesSnoc(insts: seq<Instruction>, ranges: seq<IndexRange>)
    requires |ranges| > 0 && RangesInBounds(insts, ranges)
    ensures RangesInBounds(insts, ranges[..|ranges| - 1])
    ensures RangesBytes(insts, ranges)
            == RangesBytes(insts, ranges[..|ranges| - 1]) + RangeBytes(insts, ranges[|ranges| - 1])
    decreases |ranges|
  {
    var n := |ranges| - 1;
    if n > 0 {
      RangesBytesSnoc(insts, ranges[1..]);
      assert ranges[1..][..n - 1] == ranges[..n][1..];
      assert ranges[1..][n - 1] == ranges[n];
    } else {
      assert ranges[..0] == [];
    }
  }

  /** The bytes of the covered indices are the ranges' bytes, range after range. */
  lemma {:induction false} CoveredBytes(insts: seq<Instruction>, ranges: seq<IndexRange>)
    requires RangesInBounds(insts, ranges)
    ensures IndicesInBounds(insts, CoveredIndices(ranges))
    ensures Concat(insts, CoveredIndices(ranges)) == RangesBytes(insts, ranges)
    decreases |ranges|
  {
    CoveredInBounds(insts, ranges);
    if |ranges| > 0 {
      var n := |ranges| - 1;
      RangesBytesSnoc(insts, ranges);
      CoveredBytes(insts, ranges[..n]);
      RangeIndicesInBounds(insts, ranges[n]);
      ConcatAppend(insts, CoveredIndices(ranges[..n]), RangeIndices(ranges[n]));
    }
  }

  /** The block raises exactly when it covers an instruction and resolving the first one
      raises; otherwise its address is that instruction's resolved address, `None` when it
      covers none, and its bytes are the bytes of its ranges (its true basic blocks), one
      range after the other. No other instruction is resolved. */
  lemma MergedHeaderSpec(insts: seq<Instruction>, bb: BasicBlock)
    requires RangesInBounds(insts, bb.ranges)
    ensures IndicesInBounds(insts, CoveredIndices(bb.ranges))
    ensures var idxs := CoveredIndices(bb.ranges);
            MergedHeader(insts, bb).Ok? <==> |idxs| == 0 || Resolve(insts, idxs[0]).Ok?
    ensures var idxs := CoveredIndices(bb.ranges);
            MergedHeader(insts, bb).Ok? ==>
              MergedHeader(insts, bb).value.addr == if |idxs| == 0 then None else Some(Resolve(insts, idxs[0]).value)
    ensures MergedHeader(insts, bb).Ok? ==> MergedHeader(insts, bb).value.bytes == RangesBytes(insts, bb.ranges)
  {
    CoveredInBounds(insts, bb.ranges);
    VisitAllSpec(insts, Header(None, []), CoveredIndices(bb.ranges));
    CoveredBytes(insts, bb.ranges);
  }

  /** Bytes and addresses line up: inside a range, an instruction reached from the range's
      first one through instructions without stored addresses resolves to the first one's
      address plus the raw bytes in between. */
  lemma {:induction false} RangeLayout(insts: seq<Instruction>, r: IndexRange, k: nat)
    requires RangeResolvable(insts, r) && r.begin + k < RangeEnd(r)
    requires forall j | r.begin < j <= r.begin + k && j < |insts| :: insts[j].address.None?
    ensures Resolvable(insts, r.begin) && Resolvable(insts, r.begin + k)
    ensures InstructionAddress(insts, r.begin + k)
            == InstructionAddress(insts, r.begin) + SumRawLengths(insts, r.begin, r.begin + k)
    decreases k
  {
    assert Resolvable(insts, r.begin) && Resolvable(insts, r.begin + k);
    if k > 0 {
      RangeLayout(insts, r, k - 1);
      AddressNoDrift(insts, r.begin + k);
    }
  }

  /** The resolved addresses of `idxs`, in order; the first resolution that raises ends the
      loop. */
  function ResolveAll(insts: seq<Instruction>, idxs: seq<nat>): (r: Result<seq<nat>, Fault>)
    requires IndicesInBounds(insts, idxs)
    ensures r.Ok? ==> |r.value| == |idxs|
    decreases |idxs|
  {
    if |idxs| == 0 then Ok([])
    else
      assert IndicesInBounds(insts, idxs[1..]) by {
        forall k | 0 <= k < |idxs[1..]| ensures idxs[1..][k] < |insts| {
          assert idxs[1..][k] == idxs[k + 1];
        }
      }
      var a :- Resolve(insts, idxs[0]);
      var rest :- ResolveAll(insts, idxs[1..]);
      Ok([a] + rest)
  }

  /** Resolving a sequence succeeds exactly when every index resolves, and then gives each
      index its own address. */
  lemma {:induction false} ResolveAllSpec(insts: seq<Instruction>, idxs: seq<nat>)
    requires IndicesInBounds(insts, idxs)
    ensures ResolveAll(insts, idxs).Ok? <==> forall k | 0 <= k < |idxs| :: Resolve(insts, idxs[k]).Ok?
    ensures ResolveAll(insts, idxs).Ok? ==>
              forall k | 0 <= k < |idxs| :: ResolveAll(insts, idxs).value[k] == Resolve(insts, idxs[k]).value
    decreases |idxs|
  {
    if |idxs| > 0 {
      assert IndicesInBounds(insts, idxs[1..]) by {
        forall k | 0 <= k < |idxs[1..]| ensures idxs[1..][k] < |insts| {
          assert idxs[1..][k] == idxs[k + 1];
        }
      }
      ResolveAllSpec(insts, idxs[1..]);
      assert forall k | 1 <= k < |idxs| :: idxs[1..][k - 1] == idxs[k];
    }
  }

  /** `uncached_instructions` (basic_block.py:85-110): every covered instruction under its
      resolved address, a later index overwriting an earlier one at the same address. The
      instruction objects are made bare, without cross-references. */
  function Placed(addrs: seq<nat>, idxs: seq<nat>): (kvs: seq<(nat, Instr)>)
    requires |addrs| == |idxs|
    ensures |kvs| == |idxs|
  {
    seq(|idxs|, k requires 0 <= k < |idxs| => (addrs[k], Instr(addrs[k], idxs[k], [], [])))
  }

  function UncachedInstructions(insts: seq<Instruction>, bb: BasicBlock): (d: Result<Dict<nat, Instr>, Fault>)
    requires RangesInBounds(insts, bb.ranges)
    ensures d.Ok? ==> Valid(d.value)
  {
    CoveredInBounds(insts, bb.ranges);
    var idxs := CoveredIndices(bb.ranges);
    var addrs :- ResolveAll(insts, idxs);
    Ok(PutAll(Empty(), Placed(addrs, idxs)))
  }

  /** Some instruction of `idxs` resolves to address `a`. */
  predicate ResolvesTo(insts: seq<Instruction>, idxs: seq<nat>, a: nat)
    requires IndicesInBounds(insts, idxs)
  {
    exists k | 0 <= k < |idxs| :: Resolve(insts, idxs[k]) == Ok(a)
  }

  /** The keys of the placed entries, over any index sequence. */
  lemma PlacedKeys(addrs: seq<nat>, idxs: seq<nat>, a: nat)
    requires |addrs| == |idxs|
    ensures a in PutAll(Empty(), Placed(addrs, idxs)).entries <==> exists k | 0 <= k < |idxs| :: addrs[k] == a
  {
    var kvs := Placed(addrs, idxs);
    PutAllKeys(Empty<nat, Instr>(), kvs);
    if a in PutAll(Empty(), kvs).entries {
      assert Writes(kvs, a);
      var i :| 0 <= i < |kvs| && kvs[i].0 == a;
      assert addrs[i] == a;
    } else {
      forall k | 0 <= k < |idxs| ensures addrs[k] != a {
        assert kvs[k].0 == addrs[k];
      }
    }
  }

  /** Each placed entry is an instruction at its key, made for one of the indices. */
  lemma PlacedValues(addrs: seq<nat>, idxs: seq<nat>, a: nat)
    requires |addrs| == |idxs|
    requires a in PutAll(Empty(), Placed(addrs, idxs)).entries
    ensures PutAll(Empty(), Placed(addrs, idxs)).entries[a].addr == a
    ensures PutAll(Empty(), Placed(addrs, idxs)).entries[a].index in idxs
  {
    var kvs := Placed(addrs, idxs);
    PutAllValueWritten(Empty<nat, Instr>(), kvs, a);
    var j :| 0 <= j < |kvs| && kvs[j].0 == a && PutAll(Empty(), kvs).entries[a] == kvs[j].1;
    assert kvs[j].1.index == idxs[j];
  }

  /** Building the mapping raises exactly when some covered instruction cannot be resolved. */
  lemma UncachedOk(insts: seq<Instruction>, bb: BasicBlock)
    requires RangesInBounds(insts, bb.ranges)
    ensures IndicesInBounds(insts, CoveredIndices(bb.ranges))
    ensures var idxs := CoveredIndices(bb.ranges);
            UncachedInstructions(insts, bb).Ok? <==> forall k | 0 <= k < |idxs| :: Resolve(insts, idxs[k]).Ok?
  {
    CoveredInBounds(insts, bb.ranges);
    ResolveAllSpec(insts, CoveredIndices(bb.ranges));
    assert UncachedInstructions(insts, bb).Ok? <==> ResolveAll(insts, CoveredIndices(bb.ranges)).Ok?;
  }

  /** An address has an entry exactly when some covered instruction resolves to it; the entry
      is an instruction at that address made for a covered index. */
  lemma UncachedKeys(insts: seq<Instruction>, bb: BasicBlock, a: nat)
    requires RangesInBounds(insts, bb.ranges) && UncachedInstructions(insts, bb).Ok?
    ensures IndicesInBounds(insts, CoveredIndices(bb.ranges))
    ensures var d := UncachedInstructions(insts, bb).value;
            a in d.entries <==> ResolvesTo(insts, CoveredIndices(bb.ranges), a)
    ensures var d := UncachedInstructions(insts, bb).value;
            a in d.entries ==> d.entries[a].addr == a && d.entries[a].index in CoveredIndices(bb.ranges)
  {
    CoveredInBounds(insts, bb.ranges);
    var idxs := CoveredIndices(bb.ranges);
    ResolveAllSpec(insts, idxs);
    var addrs := ResolveAll(insts, idxs).value;
    assert UncachedInstructions(insts, bb).value == PutAll(Empty(), Placed(addrs, idxs));
    PlacedKeys(addrs, idxs, a);
    assert (exists k | 0 <= k < |idxs| :: addrs[k] == a) <==> ResolvesTo(insts, idxs, a);
    if a in UncachedInstructions(insts, bb).value.entries {
      PlacedValues(addrs, idxs, a);
    }
  }

  /** On an address collision the instruction visited last wins. */
  lemma UncachedLastWins(insts: seq<Instruction>, bb: BasicBlock, k: nat)
    requires RangesInBounds(insts, bb.ranges) && UncachedInstructions(insts, bb).Ok?
    ensures IndicesInBounds(insts, CoveredIndices(bb.ranges))
    ensures var idxs := CoveredIndices(bb.ranges);
            k < |idxs| && (forall j | k < j < |idxs| :: Resolve(insts, idxs[j]) != Resolve(insts, idxs[k]))
            ==> Resolve(insts, idxs[k]).Ok?
                && var a := Resolve(insts, idxs[k]).value;
                   a in UncachedInstructions(insts, bb).value.entries
                   && UncachedInstructions(insts, bb).value.entries[a] == Instr(a, idxs[k], [], [])
  {
    CoveredInBounds(insts, bb.ranges);
    var idxs := CoveredIndices(bb.ranges);
    ResolveAllSpec(insts, idxs);
    if k < |idxs| && forall j | k < j < |idxs| :: Resolve(insts, idxs[j]) != Resolve(insts, idxs[k]) {
      var addrs := ResolveAll(insts, idxs).value;
      var kvs := Placed(addrs, idxs);
      forall j | k < j < |kvs| ensures kvs[j].0 != kvs[k].0 {
        assert Resolve(insts, idxs[j]) != Resolve(insts, idxs[k]);
      }
      PutAllLastWins(Empty<nat, Instr>(), kvs, k);
    }
  }

  /** Once the mapping is built, the header is too; the block's address is the first key of
      `uncached_instructions`, which holds an entry exactly when the block covers an
      instruction. */
  lemma UncachedFirstKey(insts: seq<Instruction>, bb: BasicBlock)
    requires RangesInBounds(insts, bb.ranges) && UncachedInstructions(insts, bb).Ok?
    ensures MergedHeader(insts, bb).Ok?
    ensures MergedHeader(insts, bb).value.addr.Some? <==> |UncachedInstructions(insts, bb).value.order| > 0
    ensures MergedHeader(insts, bb).value.addr.Some? ==>
              UncachedInstructions(insts, bb).value.order[0] == MergedHeader(insts, bb).value.addr.value
  {
    MergedHeaderSpec(insts, bb);
    UncachedOk(insts, bb);
    CoveredInBounds(insts, bb.ranges);
    var idxs := CoveredIndices(bb.ranges);
    ResolveAllSpec(insts, idxs);
    var addrs := ResolveAll(insts, idxs).value;
    var kvs := Placed(addrs, idxs);
    assert UncachedInstructions(insts, bb).value == PutAll(Empty(), kvs);
    if |idxs| > 0 {
      PutAllFirstKey(kvs);
    } else {
      assert kvs == [];
    }
  }

  /** `instructions` (basic_block.py:112-122): the same mapping, cached on first use. */
  function Instructions(insts: seq<Instruction>, bb: BasicBlock): (d: Result<Dict<nat, Instr>, Fault>)
    requires RangesInBounds(insts, bb.ranges)
    ensures d.Ok? ==> Valid(d.value)
  {
    UncachedInstructions(insts, bb)
  }
}
