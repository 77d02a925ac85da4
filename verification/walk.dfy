/** True basic blocks (loader.py:345-396). Each index range of a raw block becomes one block;
    instruction addresses are computed forward from a carry state `[cur_addr, prev_idx]` that
    the caller threads through every range of a function. */
module Walk {
  import opened Wrappers
  import opened Records
  import opened Address
  import opened CrossRefs
  import opened PyDict

  /** The carry state: the address the next instruction is expected at, and the index of the
      instruction consumed last. */
  datatype Carry = Carry(cur: Option<nat>, prev: int)

  /** `cur_state = [None, -2]` (loader.py:241). */
  const InitialCarry: Carry := Carry(None, -2)

  /** `InstructionBinExport`: its address, its record index and the cross-references the
      block attaches to it (loader.py:388-393). */
  datatype Instr = Instr(addr: nat, index: nat, dataRefs: seq<nat>, addrRefs: seq<string>)

  /** `BasicBlockBinExport`: an ordered dict from address to instruction; `addr` is `None`
      when the range is empty. Neighbours are kept as block addresses. */
  datatype Block = Block(addr: Option<nat>, instrs: Dict<nat, Instr>, parents: set<nat>, children: set<nat>)

  predicate IndicesInBounds(insts: seq<Instruction>, idxs: seq<nat>) {
    forall k | 0 <= k < |idxs| :: idxs[k] < |insts|
  }

  predicate IndicesResolvable(insts: seq<Instruction>, idxs: seq<nat>) {
    forall k | 0 <= k < |idxs| :: Resolvable(insts, idxs[k])
  }

  lemma RangeIndicesInBounds(insts: seq<Instruction>, r: IndexRange)
    requires RangeInBounds(insts, r)
    ensures IndicesInBounds(insts, RangeIndices(r))
  {
    var idxs := RangeIndices(r);
    forall k | 0 <= k < |idxs|
      ensures idxs[k] < |insts|
    {
      assert r.begin <= idxs[k] < RangeEnd(r);
    }
  }

  lemma RangeIndicesResolvable(insts: seq<Instruction>, r: IndexRange)
    requires RangeResolvable(insts, r)
    ensures IndicesResolvable(insts, RangeIndices(r))
  {
    var idxs := RangeIndices(r);
    forall k | 0 <= k < |idxs|
      ensures Resolvable(insts, idxs[k])
    {
      assert r.begin <= idxs[k] < RangeEnd(r);
    }
  }

  /** The address the walk gives instruction `idx` (loader.py:367-381): the carried address is
      dropped unless `idx` follows the previous index; a stored address always wins; without
      one, a carried address that is `None` or 0 (Python falsiness) is replaced by resolving,
      which is the only step that can raise. */
  function PlaceAddress(insts: seq<Instruction>, c: Carry, idx: nat): Result<nat, Fault>
    requires idx < |insts|
  {
    var carried := if idx != c.prev + 1 then None else c.cur;
    if insts[idx].address.Some? then Ok(insts[idx].address.value)
    else if carried.None? || carried.value == 0 then Resolve(insts, idx)
    else Ok(carried.value)
  }

  /** After an instruction: advance by its raw length and remember its index (loader.py:395-396). */
  function Advance(insts: seq<Instruction>, idx: nat, a: nat): Carry
    requires idx < |insts|
  {
    Carry(Some(a + |insts[idx].rawBytes|), idx)
  }

  datatype Walked = Walked(addrs: seq<nat>, carry: Carry)

  /** The addresses given to `idxs`, in order, and the carry left behind; the first
      resolution that raises ends the walk. */
  function WalkIndices(insts: seq<Instruction>, c: Carry, idxs: seq<nat>): (r: Result<Walked, Fault>)
    requires IndicesInBounds(insts, idxs)
    ensures r.Err? ==> r.error.NoStoredAddress?
    ensures r.Ok? ==> |r.value.addrs| == |idxs|
    ensures r.Ok? && |idxs| == 0 ==> r.value.carry == c
    ensures r.Ok? && |idxs| > 0 ==>
              r.value.carry == Carry(Some(r.value.addrs[|idxs| - 1] + |insts[idxs[|idxs| - 1]].rawBytes|), idxs[|idxs| - 1])
    decreases |idxs|
  {
    if |idxs| == 0 then Ok(Walked([], c))
    else
      var a :- PlaceAddress(insts, c, idxs[0]);
      assert IndicesInBounds(insts, idxs[1..]) by {
        forall k | 0 <= k < |idxs[1..]| ensures idxs[1..][k] < |insts| {
          assert idxs[1..][k] == idxs[k + 1];
        }
      }
      var rest :- WalkIndices(insts, Advance(insts, idxs[0], a), idxs[1..]);
      Ok(Walked([a] + rest.addrs, rest.carry))
  }

  /** When every instruction can be resolved the walk never raises, whatever the carry. */
  lemma {:induction false} WalkIndicesOk(insts: seq<Instruction>, c: Carry, idxs: seq<nat>)
    requires IndicesResolvable(insts, idxs)
    ensures IndicesInBounds(insts, idxs) && WalkIndices(insts, c, idxs).Ok?
    decreases |idxs|
  {
    if |idxs| > 0 {
      ResolveAnchored(insts, idxs[0]);
      var a := PlaceAddress(insts, c, idxs[0]).value;
      assert IndicesResolvable(insts, idxs[1..]) by {
        forall k | 0 <= k < |idxs[1..]|
          ensures Resolvable(insts, idxs[1..][k])
        {
          assert idxs[1..][k] == idxs[k + 1];
        }
      }
      WalkIndicesOk(insts, Advance(insts, idxs[0], a), idxs[1..]);
    }
  }

  /** A contiguous instruction without a stored address takes the carried address when it is
      set and non-zero, whatever lies before it: the walk does not resolve it. */
  lemma PlaceAddressCarried(insts: seq<Instruction>, c: Carry, idx: nat)
    requires idx < |insts| && insts[idx].address.None?
    requires idx == c.prev + 1 && c.cur.Some? && c.cur.value != 0
    ensures PlaceAddress(insts, c, idx) == Ok(c.cur.value)
  {
  }

  /** The carry agrees with resolution: if it holds an address, that is where the instruction
      after `prev` starts. */
  predicate Coherent(insts: seq<Instruction>, c: Carry) {
    c.cur.Some? ==>
      && 0 <= c.prev < |insts|
      && Anchored(insts, c.prev)
      && c.cur.value == InstructionAddress(insts, c.prev) + |insts[c.prev].rawBytes|
  }

  /** With a coherent carry, the walk places an instruction exactly where resolution puts it;
      the falsy-zero test only decides whether the address is recomputed. */
  lemma PlaceAddressResolves(insts: seq<Instruction>, c: Carry, idx: nat)
    requires Coherent(insts, c)
    requires idx < |insts| && Anchored(insts, idx)
    ensures PlaceAddress(insts, c, idx) == Ok(InstructionAddress(insts, idx))
  {
    if insts[idx].address.None? && idx == c.prev + 1 && c.cur.Some? && c.cur.value != 0 {
      AddressNoDrift(insts, idx);
    } else {
      ResolveAnchored(insts, idx);
    }
  }

  /** Every address the walk produces is the resolved address of its instruction, and the carry
      stays coherent, whatever mix of contiguous and non-contiguous indices it is fed. */
  lemma {:induction false} WalkResolves(insts: seq<Instruction>, c: Carry, idxs: seq<nat>)
    requires Coherent(insts, c)
    requires IndicesResolvable(insts, idxs)
    ensures WalkIndices(insts, c, idxs).Ok?
    ensures forall k | 0 <= k < |idxs| :: WalkIndices(insts, c, idxs).value.addrs[k] == InstructionAddress(insts, idxs[k])
    ensures Coherent(insts, WalkIndices(insts, c, idxs).value.carry)
    decreases |idxs|
  {
    if |idxs| > 0 {
      PlaceAddressResolves(insts, c, idxs[0]);
      var a := InstructionAddress(insts, idxs[0]);
      var c' := Advance(insts, idxs[0], a);
      assert IndicesResolvable(insts, idxs[1..]) by {
        forall k | 0 <= k < |idxs[1..]|
          ensures Resolvable(insts, idxs[1..][k])
        {
          assert idxs[1..][k] == idxs[k + 1];
        }
      }
      WalkResolves(insts, c', idxs[1..]);
      var rest := WalkIndices(insts, c', idxs[1..]).value;
      var w := WalkIndices(insts, c, idxs);
      assert w == Ok(Walked([a] + rest.addrs, rest.carry));
      forall k | 0 <= k < |idxs|
        ensures w.value.addrs[k] == InstructionAddress(insts, idxs[k])
      {
        if k > 0 {
          assert w.value.addrs[k] == rest.addrs[k - 1];
          assert idxs[1..][k - 1] == idxs[k];
        }
      }
    }
  }

  /** `if not self._addr: self._addr = state[0]` (loader.py:384-385), folded over the addresses
      in order: 0 counts as unset, so a leading 0 is overwritten by the next address. */
  function BlockAddress(acc: Option<nat>, addrs: seq<nat>): Option<nat>
    decreases |addrs|
  {
    if |addrs| == 0 then acc
    else BlockAddress(if acc.None? || acc.value == 0 then Some(addrs[0]) else acc, addrs[1..])
  }

  /** The block address is the first non-zero instruction address. */
  lemma {:induction false} BlockAddressFirstNonZero(acc: Option<nat>, addrs: seq<nat>, k: nat)
    requires acc.None? || acc == Some(0)
    requires k < |addrs| && addrs[k] != 0
    requires forall j | 0 <= j < k :: addrs[j] == 0
    ensures BlockAddress(acc, addrs) == Some(addrs[k])
    decreases |addrs|
  {
    if k == 0 {
      BlockAddressKeepsNonZero(addrs[k], addrs[1..]);
    } else {
      BlockAddressFirstNonZero(Some(0), addrs[1..], k - 1);
    }
  }

  lemma {:induction false} BlockAddressKeepsNonZero(a: nat, addrs: seq<nat>)
    requires a != 0
    ensures BlockAddress(Some(a), addrs) == Some(a)
    decreases |addrs|
  {
    if |addrs| > 0 {
      BlockAddressKeepsNonZero(a, addrs[1..]);
    }
  }

  /** Only a block whose instructions all sit at address 0 gets address 0, and only an empty
      block gets none. */
  lemma {:induction false} BlockAddressAllZero(acc: Option<nat>, addrs: seq<nat>)
    requires acc.None? || acc == Some(0)
    requires forall j | 0 <= j < |addrs| :: addrs[j] == 0
    ensures BlockAddress(acc, addrs) == (if |addrs| == 0 then acc else Some(0))
    decreases |addrs|
  {
    if |addrs| > 0 {
      BlockAddressAllZero(Some(0), addrs[1..]);
    }
  }

  /** The instruction objects a range produces, keyed by their addresses. */
  function Placements(x: XrefTables, addrs: seq<nat>, idxs: seq<nat>): (kvs: seq<(nat, Instr)>)
    requires |addrs| == |idxs|
    ensures |kvs| == |idxs|
  {
    seq(|idxs|, k requires 0 <= k < |idxs| =>
      (addrs[k], Instr(addrs[k], idxs[k], LookupList(x.dataRefs, idxs[k]), LookupList(x.addrRefs, idxs[k]))))
  }

  datatype Built = Built(block: Block, carry: Carry)

  /** `BasicBlockBinExport.__init__` (loader.py:351-396) for one range. */
  function BuildBlock(insts: seq<Instruction>, x: XrefTables, c: Carry, r: IndexRange): (b: Result<Built, Fault>)
    requires RangeInBounds(insts, r)
    ensures b.Err? ==> b.error.NoStoredAddress?
    ensures b.Ok? && |RangeIndices(r)| == 0 ==> b.value.block.addr.None? && b.value.carry == c
    ensures b.Ok? && |RangeIndices(r)| > 0 ==> b.value.block.addr.Some? && b.value.carry.prev == RangeEnd(r) - 1
    ensures b.Ok? ==> Valid(b.value.block.instrs)
    ensures b.Ok? ==> b.value.block.parents == {} && b.value.block.children == {}
  {
    var idxs := RangeIndices(r);
    RangeIndicesInBounds(insts, r);
    var w :- WalkIndices(insts, c, idxs);
    var instrs := PutAll(Empty(), Placements(x, w.addrs, idxs));
    var addr := BlockAddress(None, w.addrs);
    assert |idxs| > 0 ==> addr.Some? by {
      if |idxs| > 0 {
        BlockAddressSome(w.addrs[0], w.addrs[1..]);
      }
    }
    Ok(Built(Block(addr, instrs, {}, {}), w.carry))
  }

  lemma {:induction false} BlockAddressSome(a: nat, addrs: seq<nat>)
    ensures BlockAddress(Some(a), addrs).Some?
    decreases |addrs|
  {
    if |addrs| > 0 {
      BlockAddressSome(if a == 0 then addrs[0] else a, addrs[1..]);
    }
  }

  /** A range whose instructions all resolve is built, whatever the carry. */
  lemma BuildBlockOk(insts: seq<Instruction>, x: XrefTables, c: Carry, r: IndexRange)
    requires RangeResolvable(insts, r)
    ensures RangeInBounds(insts, r) && BuildBlock(insts, x, c, r).Ok?
  {
    RangeIndicesResolvable(insts, r);
    WalkIndicesOk(insts, c, RangeIndices(r));
  }

  /** With a coherent carry, the carry handed to the next range stays coherent. */
  lemma BuildBlockCarry(insts: seq<Instruction>, x: XrefTables, c: Carry, r: IndexRange)
    requires Coherent(insts, c)
    requires RangeResolvable(insts, r)
    ensures RangeInBounds(insts, r)
    ensures BuildBlock(insts, x, c, r).Ok?
    ensures Coherent(insts, BuildBlock(insts, x, c, r).value.carry)
  {
    RangeIndicesResolvable(insts, r);
    WalkResolves(insts, c, RangeIndices(r));
  }

  /** Every instruction of a true block sits under its resolved address, carries its own
      cross-references, and comes from the block's range. */
  lemma BuildBlockEntries(insts: seq<Instruction>, x: XrefTables, c: Carry, r: IndexRange)
    requires Coherent(insts, c)
    requires RangeResolvable(insts, r)
    ensures RangeInBounds(insts, r) && BuildBlock(insts, x, c, r).Ok?
    ensures var m := BuildBlock(insts, x, c, r).value.block.instrs.entries;
            forall a | a in m ::
              && m[a].addr == a
              && r.begin <= m[a].index < RangeEnd(r)
              && Resolvable(insts, m[a].index)
              && a == InstructionAddress(insts, m[a].index)
              && m[a].dataRefs == LookupList(x.dataRefs, m[a].index)
              && m[a].addrRefs == LookupList(x.addrRefs, m[a].index)
  {
    var idxs := RangeIndices(r);
    RangeIndicesResolvable(insts, r);
    WalkResolves(insts, c, idxs);
    var w := WalkIndices(insts, c, idxs).value;
    var kvs := Placements(x, w.addrs, idxs);
    var m := BuildBlock(insts, x, c, r).value.block.instrs.entries;
    assert m == PutAll(Empty(), kvs).entries;
    forall a | a in m
      ensures m[a].addr == a && r.begin <= m[a].index < RangeEnd(r) && Resolvable(insts, m[a].index)
      ensures a == InstructionAddress(insts, m[a].index)
      ensures m[a].dataRefs == LookupList(x.dataRefs, m[a].index)
      ensures m[a].addrRefs == LookupList(x.addrRefs, m[a].index)
    {
      PutAllValueWritten(Empty(), kvs, a);
      var i :| 0 <= i < |kvs| && kvs[i].0 == a && m[a] == kvs[i].1;
    }
  }

  /** Every placed instruction gets an entry under its address. */
  lemma PlacementsCover(x: XrefTables, addrs: seq<nat>, idxs: seq<nat>, k: nat)
    requires |addrs| == |idxs| && k < |idxs|
    ensures addrs[k] in PutAll(Empty(), Placements(x, addrs, idxs)).entries
  {
    var kvs := Placements(x, addrs, idxs);
    PutAllKeys(Empty<nat, Instr>(), kvs);
    assert Writes(kvs, kvs[k].0);
  }

  /** A true block holds the placements of its range's walk. */
  lemma BuildBlockPlacements(insts: seq<Instruction>, x: XrefTables, c: Carry, r: IndexRange)
    requires RangeInBounds(insts, r)
    requires BuildBlock(insts, x, c, r).Ok?
    ensures IndicesInBounds(insts, RangeIndices(r)) && WalkIndices(insts, c, RangeIndices(r)).Ok?
    ensures BuildBlock(insts, x, c, r).value.block.instrs
            == PutAll(Empty(), Placements(x, WalkIndices(insts, c, RangeIndices(r)).value.addrs, RangeIndices(r)))
  {
    RangeIndicesInBounds(insts, r);
  }

  /** Every instruction of the range has an entry in the true block. */
  lemma BuildBlockCovers(insts: seq<Instruction>, x: XrefTables, c: Carry, r: IndexRange)
    requires Coherent(insts, c)
    requires RangeResolvable(insts, r)
    ensures RangeInBounds(insts, r) && BuildBlock(insts, x, c, r).Ok?
    ensures forall idx | r.begin <= idx < RangeEnd(r) && Resolvable(insts, idx) ::
              InstructionAddress(insts, idx) in BuildBlock(insts, x, c, r).value.block.instrs.entries
  {
    var idxs := RangeIndices(r);
    RangeIndicesResolvable(insts, r);
    WalkResolves(insts, c, idxs);
    BuildBlockOk(insts, x, c, r);
    BuildBlockPlacements(insts, x, c, r);
    var w := WalkIndices(insts, c, idxs).value;
    var m := BuildBlock(insts, x, c, r).value.block.instrs.entries;
    forall idx | r.begin <= idx < RangeEnd(r) && Resolvable(insts, idx)
      ensures InstructionAddress(insts, idx) in m
    {
      var k := idx - r.begin;
      assert idxs[k] == idx;
      PlacementsCover(x, w.addrs, idxs, k);
    }
  }

  /** When the first instruction of a non-empty range resolves to a non-zero address, that is
      the block's address. */
  lemma BuildBlockAddress(insts: seq<Instruction>, x: XrefTables, c: Carry, r: IndexRange)
    requires Coherent(insts, c)
    requires RangeResolvable(insts, r)
    requires RangeStart(insts, r).Some? && RangeStart(insts, r) != Some(0)
    ensures RangeInBounds(insts, r) && BuildBlock(insts, x, c, r).Ok?
    ensures BuildBlock(insts, x, c, r).value.block.addr == RangeStart(insts, r)
  {
    var idxs := RangeIndices(r);
    RangeIndicesResolvable(insts, r);
    WalkResolves(insts, c, idxs);
    BlockAddressFirstNonZero(None, WalkIndices(insts, c, idxs).value.addrs, 0);
  }
}
