/** Instruction address resolution (loader.py:12-57). BinExport stores an instruction's address
    only when it does not follow from the previous instruction; every other address is
    recovered by walking back to the nearest stored one and adding the raw lengths passed. */
module Address {
  import opened Wrappers
  import opened Records

  /** Instruction `idx` can be resolved without running off the front of the array: it has
      an address, it is the first record, or some earlier record has one. */
  predicate Anchored(insts: seq<Instruction>, idx: nat)
    requires idx < |insts|
  {
    idx == 0 || insts[idx].address.Some? || exists j | 0 <= j < idx :: insts[j].address.Some?
  }

  /** Instruction `idx` exists and can be resolved. */
  predicate Resolvable(insts: seq<Instruction>, idx: nat) {
    idx < |insts| && Anchored(insts, idx)
  }

  /** Every instruction of a range exists: the range is empty or ends inside the array. */
  predicate RangeInBounds(insts: seq<Instruction>, r: IndexRange) {
    RangeEnd(r) <= r.begin || RangeEnd(r) <= |insts|
  }

  /** Every instruction of a range exists and can be resolved. */
  predicate RangeResolvable(insts: seq<Instruction>, r: IndexRange) {
    RangeInBounds(insts, r) && forall idx | r.begin <= idx < RangeEnd(r) :: Resolvable(insts, idx)
  }

  /** The address of a range's first instruction; `None` for an empty range. */
  function RangeStart(insts: seq<Instruction>, r: IndexRange): Option<nat>
    requires RangeResolvable(insts, r)
  {
    if r.begin < RangeEnd(r) then
      assert Resolvable(insts, r.begin);
      Some(InstructionAddress(insts, r.begin))
    else None
  }

  /** The closest index before `idx` whose record has an explicit address. */
  function NearestAnchor(insts: seq<Instruction>, idx: nat): (j: nat)
    requires idx <= |insts|
    requires exists k | 0 <= k < idx :: insts[k].address.Some?
    ensures j < idx && insts[j].address.Some?
    ensures forall k | j < k < idx :: insts[k].address.None?
    decreases idx
  {
    if insts[idx - 1].address.Some? then idx - 1 else NearestAnchor(insts, idx - 1)
  }

  /** Total raw length of the instructions `lo .. hi-1`. */
  function SumRawLengths(insts: seq<Instruction>, lo: nat, hi: nat): nat
    requires lo <= hi <= |insts|
    decreases hi - lo
  {
    if lo == hi then 0 else SumRawLengths(insts, lo, hi - 1) + |insts[hi - 1].rawBytes|
  }

  lemma {:induction false} SumRawLengthsPrepend(insts: seq<Instruction>, lo: nat, hi: nat)
    requires lo < hi <= |insts|
    ensures SumRawLengths(insts, lo, hi) == |insts[lo].rawBytes| + SumRawLengths(insts, lo + 1, hi)
    decreases hi - lo
  {
    if lo + 1 < hi {
      SumRawLengthsPrepend(insts, lo, hi - 1);
    }
  }

  /** The address of instruction `idx`, as a specification: its stored address if it has one;
      for the first record without one, the default it reads as; otherwise the nearest
      earlier stored address plus the raw lengths in between. */
  function InstructionAddress(insts: seq<Instruction>, idx: nat): nat
    requires idx < |insts| && Anchored(insts, idx)
  {
    if insts[idx].address.Some? then insts[idx].address.value
    else if idx == 0 then StoredAddress(insts[0])
    else
      var j := NearestAnchor(insts, idx);
      insts[j].address.value + SumRawLengths(insts, j, idx)
  }

  /** `NearestAnchor` is the stored address closest below `hi`: any stored address with none
      after it below `hi` is the one. */
  lemma {:induction false} NearestAnchorIs(insts: seq<Instruction>, hi: nat, j: nat)
    requires j < hi <= |insts| && insts[j].address.Some?
    requires forall k | j < k < hi :: insts[k].address.None?
    ensures NearestAnchor(insts, hi) == j
    decreases hi
  {
    if hi - 1 != j {
      NearestAnchorIs(insts, hi - 1, j);
    }
  }

  /** `_backtrack_instruction_address` (loader.py:27-44) as a specification. Index 0 reads its
      own field. Otherwise the walk goes back to the nearest stored address. When there is none
      before `idx`, Python's negative indices carry the walk round to the end of the array: it
      stops at the array's last stored address, having summed every raw length before `idx`
      and from that record to the end. With no stored address at all the walk reaches index
      `-n-1`, which raises IndexError. */
  function Backtrack(insts: seq<Instruction>, idx: nat): Result<nat, Fault>
    requires idx < |insts|
  {
    if idx == 0 then Ok(StoredAddress(insts[0]))
    else if exists k | 0 <= k < idx :: insts[k].address.Some? then
      var j := NearestAnchor(insts, idx);
      Ok(insts[j].address.value + SumRawLengths(insts, j, idx))
    else if exists k | 0 <= k < |insts| :: insts[k].address.Some? then
      var j := NearestAnchor(insts, |insts|);
      Ok(insts[j].address.value + SumRawLengths(insts, 0, idx) + SumRawLengths(insts, j, |insts|))
    else Err(NoStoredAddress(idx))
  }

  /** `_get_instruction_address` (loader.py:12-24) as a specification: the stored address, or
      backtracking. */
  function Resolve(insts: seq<Instruction>, idx: nat): Result<nat, Fault>
    requires idx < |insts|
  {
    if insts[idx].address.Some? then Ok(insts[idx].address.value) else Backtrack(insts, idx)
  }

  /** The backtracking loop. The index `t` may go negative, where it reads Python's way, from
      the end of the array; below `-n` the read raises. */
  method BacktrackInstructionAddress(insts: seq<Instruction>, idx: nat) returns (r: Result<nat, Fault>)
    requires idx < |insts|
    ensures r == Backtrack(insts, idx)
    ensures Anchored(insts, idx) && insts[idx].address.None? ==> r == Ok(InstructionAddress(insts, idx))
  {
    var n := |insts|;
    if idx == 0 {
      return Ok(StoredAddress(insts[0]));
    }
    var size := 0;
    var t: int := idx;
    while true
      invariant -n <= t <= idx
      invariant 0 <= t ==> size == SumRawLengths(insts, t, idx)
      invariant 0 <= t ==> forall k | t <= k < idx :: insts[k].address.None?
      invariant t < 0 ==> size == SumRawLengths(insts, 0, idx) + SumRawLengths(insts, n + t, n)
      invariant t < 0 ==> forall k | 0 <= k < idx :: insts[k].address.None?
      invariant t < 0 ==> forall k | n + t <= k < n :: insts[k].address.None?
      decreases t + n
    {
      t := t - 1;
      if t < -n {
        assert forall k | 0 <= k < n :: insts[k].address.None?;
        return Err(NoStoredAddress(idx));
      }
      var i := if t < 0 then n + t else t;
      SumRawLengthsPrepend(insts, i, if t < 0 then n else idx);
      size := size + |insts[i].rawBytes|;
      if insts[i].address.Some? {
        if t < 0 {
          NearestAnchorIs(insts, n, i);
        } else {
          NearestAnchorIs(insts, idx, i);
        }
        return Ok(insts[i].address.value + size);
      }
    }
  }

  /** `_get_instruction_address` (loader.py:12-24): the stored address, or backtracking. */
  method GetInstructionAddress(insts: seq<Instruction>, idx: nat) returns (r: Result<nat, Fault>)
    requires idx < |insts|
    ensures r == Resolve(insts, idx)
    ensures Anchored(insts, idx) ==> r == Ok(InstructionAddress(insts, idx))
  {
    if insts[idx].address.Some? {
      r := Ok(insts[idx].address.value);
    } else {
      r := BacktrackInstructionAddress(insts, idx);
    }
  }

  /** Where an instruction is anchored, resolving it gives the address of the specification. */
  lemma ResolveAnchored(insts: seq<Instruction>, idx: nat)
    requires idx < |insts| && Anchored(insts, idx)
    ensures Resolve(insts, idx) == Ok(InstructionAddress(insts, idx))
  {
  }

  /** Resolution fails only when backtracking has nothing to stop at: the instruction is not
      the first, and no instruction of the whole array has a stored address. */
  lemma ResolveFails(insts: seq<Instruction>, idx: nat)
    requires idx < |insts|
    ensures Resolve(insts, idx).Err? <==> idx > 0 && forall k | 0 <= k < |insts| :: insts[k].address.None?
    ensures Resolve(insts, idx).Err? ==> Resolve(insts, idx) == Err(NoStoredAddress(idx))
  {
  }

  /** With no stored address before it, an instruction resolves past the end of the array:
      to the last stored address, plus the raw lengths from there to the end and from the
      start up to the instruction. */
  lemma ResolveWraps(insts: seq<Instruction>, idx: nat, j: nat)
    requires 0 < idx < |insts| && insts[idx].address.None?
    requires forall k | 0 <= k < idx :: insts[k].address.None?
    requires idx < j < |insts| && insts[j].address.Some?
    requires forall k | j < k < |insts| :: insts[k].address.None?
    ensures Resolve(insts, idx) == Ok(insts[j].address.value + SumRawLengths(insts, 0, idx) + SumRawLengths(insts, j, |insts|))
  {
    NearestAnchorIs(insts, |insts|, j);
  }

  /** Resolution never drifts: an instruction without a stored address sits right after the
      previous instruction, at its address plus its raw length. */
  lemma AddressNoDrift(insts: seq<Instruction>, idx: nat)
    requires 0 < idx < |insts|
    requires insts[idx].address.None? && Anchored(insts, idx)
    ensures Anchored(insts, idx - 1)
    ensures InstructionAddress(insts, idx)
            == InstructionAddress(insts, idx - 1) + |insts[idx - 1].rawBytes|
  {
    var j := NearestAnchor(insts, idx);
    assert SumRawLengths(insts, j, idx) == SumRawLengths(insts, j, idx - 1) + |insts[idx - 1].rawBytes|;
    if j < idx - 1 {
      assert NearestAnchor(insts, idx - 1) == j;
    } else {
      assert SumRawLengths(insts, j, idx - 1) == 0;
    }
  }

  /** `_get_basic_block_addr` (loader.py:47-57): the first instruction of the first range of
      raw block `bbIdx`, resolved; a raw block without ranges raises. */
  function BasicBlockAddress(a: Artifact, bbIdx: nat): (r: Result<nat, Fault>)
    requires bbIdx < |a.basicBlocks|
    requires |a.basicBlocks[bbIdx].ranges| > 0 ==> a.basicBlocks[bbIdx].ranges[0].begin < |a.instructions|
    ensures |a.basicBlocks[bbIdx].ranges| == 0 <==> r == Err(EntryWithoutRange(bbIdx))
    ensures |a.basicBlocks[bbIdx].ranges| > 0 ==> r == Resolve(a.instructions, a.basicBlocks[bbIdx].ranges[0].begin)
  {
    var ranges := a.basicBlocks[bbIdx].ranges;
    if |ranges| == 0 then Err(EntryWithoutRange(bbIdx))
    else Resolve(a.instructions, ranges[0].begin)
  }
}
