/** `InstructionBinExport.comment` (loader.py:494-516): the comment of an instruction, taken
    from its address comments once its data references are accounted for. */
module Instructions {
  import opened Wrappers
  import opened Records
  import opened PyDict
  import opened CrossRefs
  import opened Walk
  import opened Functions
  import opened Programs

  /** `addr in program`: the instruction starts a function of the program (loader.py:518-523). */
  predicate IsFunctionEntry(p: Program, ins: Instr) {
    ins.addr in p.functions.entries
  }

  /** The comment property. It skips the first `len(data_refs)` address comments when there
      are at least as many data references, and reads the last address comment. At a function
      entry whose last comment is the function's own name it gives the one before, or the
      empty string; at a function entry with any other last comment it falls off the end and
      gives `None`. */
  function Comment(p: Program, ins: Instr): (r: Option<string>)
    ensures |ins.addrRefs| <= |ins.dataRefs| ==> r == Some("")
    ensures |ins.addrRefs| > |ins.dataRefs| && !IsFunctionEntry(p, ins)
            ==> r == Some(ins.addrRefs[|ins.addrRefs| - 1])
    ensures r.None? <==>
              && |ins.addrRefs| > |ins.dataRefs|
              && IsFunctionEntry(p, ins)
              && ins.addrRefs[|ins.addrRefs| - 1] != FunctionName(p.functions.entries[ins.addr])
  {
    var ith := if |ins.dataRefs| >= |ins.addrRefs| then |ins.dataRefs| else 0;
    if ith < |ins.addrRefs| then
      var last := ins.addrRefs[|ins.addrRefs| - 1];
      if IsFunctionEntry(p, ins) then
        if last == FunctionName(p.functions.entries[ins.addr]) then
          Some(if |ins.addrRefs| >= 2 then ins.addrRefs[|ins.addrRefs| - 2] else "")
        else None
      else Some(last)
    else Some("")
  }

  /** The instruction carries the cross-references the loader preloaded for its index, as
      every instruction of a built block does. */
  predicate CarriesXrefs(a: Artifact, ins: Instr)
    requires XrefsInBounds(a)
  {
    && ins.dataRefs == LookupList(BuildXrefs(a).dataRefs, ins.index)
    && ins.addrRefs == LookupList(BuildXrefs(a).addrRefs, ins.index)
  }

  /** The comment in terms of the exported records. The address comments of an instruction
      are listed latest first, so the comment is the instruction's FIRST address-comment
      record (its second, at a function entry whose first record is the function's name); an
      instruction with no more comment records than data-reference records has none. */
  lemma CommentFromRecords(a: Artifact, p: Program, ins: Instr)
    requires XrefsInBounds(a) && CarriesXrefs(a, ins)
    ensures var cs := Select(CommentEntries(a.addressComments, a.stringTable), ins.index);
            var ds := Select(DataEntries(a.dataReferences), ins.index);
            && (|cs| <= |ds| ==> Comment(p, ins) == Some(""))
            && (|cs| > |ds| && !IsFunctionEntry(p, ins) ==> Comment(p, ins) == Some(cs[0]))
            && (|cs| > |ds| && IsFunctionEntry(p, ins) && cs[0] == FunctionName(p.functions.entries[ins.addr])
                ==> Comment(p, ins) == Some(if |cs| >= 2 then cs[1] else ""))
  {
    AddrRefsLatestFirst(a, ins.index);
    DataRefsLatestFirst(a, ins.index);
  }
}
