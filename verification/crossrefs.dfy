/** The per-instruction cross-reference tables `ProgramBinExport.__init__` preloads before it
    builds any function (loader.py:80-99): data references, address comments and string
    references, each keyed by instruction index. */
module CrossRefs {
  import opened Records

  datatype XrefTables = XrefTables(
    dataRefs: map<nat, seq<nat>>,
    addrRefs: map<nat, seq<string>>,
    stringRefs: map<nat, StringReference>)

  function Reverse<V>(s: seq<V>): (r: seq<V>)
    ensures |r| == |s|
    ensures forall k | 0 <= k < |s| :: r[k] == s[|s| - 1 - k]
  {
    if |s| == 0 then [] else Reverse(s[1..]) + [s[0]]
  }

  /** The values recorded for key `i`, in record order. */
  function Select<V>(entries: seq<(nat, V)>, i: nat): seq<V> {
    if |entries| == 0 then []
    else (if entries[0].0 == i then [entries[0].1] else []) + Select(entries[1..], i)
  }

  /** `for e in entries[::-1]: table.setdefault(e.key, []).append(e.value)`: the reversed
      array is walked, so the first record is appended last. */
  function GroupReversed<V>(entries: seq<(nat, V)>): map<nat, seq<V>> {
    if |entries| == 0 then map[]
    else
      var rest := GroupReversed(entries[1..]);
      var i := entries[0].0;
      rest[i := (if i in rest then rest[i] else []) + [entries[0].1]]
  }

  /** Each instruction's list holds exactly its records' values, latest record first, and an
      instruction without records has no entry. */
  lemma {:induction false} GroupReversedSpec<V>(entries: seq<(nat, V)>, i: nat)
    ensures i in GroupReversed(entries) <==> |Select(entries, i)| > 0
    ensures i in GroupReversed(entries) ==> GroupReversed(entries)[i] == Reverse(Select(entries, i))
    decreases |entries|
  {
    if |entries| > 0 {
      GroupReversedSpec(entries[1..], i);
      var tail := Select(entries[1..], i);
      if entries[0].0 == i {
        var s := [entries[0].1] + tail;
        assert s[1..] == tail;
        assert Select(entries, i) == s;
      } else {
        assert Select(entries, i) == tail;
      }
    }
  }

  function LookupList<V>(t: map<nat, seq<V>>, i: nat): seq<V> {
    if i in t then t[i] else []
  }

  /** The data-reference records as (instruction index, address) pairs. */
  function DataEntries(drs: seq<DataReference>): seq<(nat, nat)> {
    seq(|drs|, k requires 0 <= k < |drs| => (drs[k].instructionIndex, drs[k].address))
  }

  /** `self.data_refs` (loader.py:81-86). */
  function DataRefTable(drs: seq<DataReference>): map<nat, seq<nat>> {
    GroupReversed(DataEntries(drs))
  }

  /** Every string-table index of the address comments exists. */
  predicate CommentsInBounds(acs: seq<AddressComment>, strings: seq<string>) {
    forall k | 0 <= k < |acs| :: acs[k].stringTableIndex < |strings|
  }

  /** The address comments as (instruction index, string) pairs. */
  function CommentEntries(acs: seq<AddressComment>, strings: seq<string>): seq<(nat, string)>
    requires CommentsInBounds(acs, strings)
  {
    seq(|acs|, k requires 0 <= k < |acs| => (acs[k].instructionIndex, strings[acs[k].stringTableIndex]))
  }

  /** `self.addr_refs` (loader.py:89-94): the comments' strings, looked up in the string table. */
  function AddressCommentTable(acs: seq<AddressComment>, strings: seq<string>): map<nat, seq<string>>
    requires CommentsInBounds(acs, strings)
  {
    GroupReversed(CommentEntries(acs, strings))
  }

  /** `self.string_refs` (loader.py:97-99): a plain assignment per record, so the last record
      for an instruction wins. */
  function StringRefTable(srs: seq<StringReference>): map<nat, StringReference>
    decreases |srs|
  {
    if |srs| == 0 then map[]
    else StringRefTable(srs[..|srs| - 1])[srs[|srs| - 1].instructionIndex := srs[|srs| - 1]]
  }

  /** An instruction has a string reference iff some record names it, and then it is the last
      such record. */
  lemma {:induction false} StringRefTableLastWins(srs: seq<StringReference>, i: nat)
    ensures i in StringRefTable(srs) <==> exists k | 0 <= k < |srs| :: srs[k].instructionIndex == i
    ensures forall k | 0 <= k < |srs| && srs[k].instructionIndex == i
              && (forall j | k < j < |srs| :: srs[j].instructionIndex != i)
              :: i in StringRefTable(srs) && StringRefTable(srs)[i] == srs[k]
    decreases |srs|
  {
    if |srs| > 0 {
      var n := |srs| - 1;
      StringRefTableLastWins(srs[..n], i);
      if srs[n].instructionIndex != i {
        forall k | 0 <= k < n && srs[..n][k].instructionIndex == i
          ensures srs[k].instructionIndex == i
        {
        }
        forall k | 0 <= k < |srs| && srs[k].instructionIndex == i
          ensures k < n && srs[..n][k].instructionIndex == i
        {
        }
      }
    }
  }

  /** Every index the tables are built from is in range. */
  predicate XrefsInBounds(a: Artifact) {
    CommentsInBounds(a.addressComments, a.stringTable)
  }

  function BuildXrefs(a: Artifact): XrefTables
    requires XrefsInBounds(a)
  {
    XrefTables(
      DataRefTable(a.dataReferences),
      AddressCommentTable(a.addressComments, a.stringTable),
      StringRefTable(a.stringReferences))
  }

  /** `data_refs` of an instruction: the addresses of its data-reference records, latest first;
      an instruction without such records has none. */
  lemma DataRefsLatestFirst(a: Artifact, i: nat)
    requires XrefsInBounds(a)
    ensures LookupList(BuildXrefs(a).dataRefs, i) == Reverse(Select(DataEntries(a.dataReferences), i))
  {
    GroupReversedSpec(DataEntries(a.dataReferences), i);
  }

  /** `addr_refs` of an instruction: the strings of its address comments, latest first. */
  lemma AddrRefsLatestFirst(a: Artifact, i: nat)
    requires XrefsInBounds(a)
    ensures LookupList(BuildXrefs(a).addrRefs, i)
            == Reverse(Select(CommentEntries(a.addressComments, a.stringTable), i))
  {
    GroupReversedSpec(CommentEntries(a.addressComments, a.stringTable), i);
  }
}
