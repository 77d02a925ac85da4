/** The BinExport2 record set after wire decoding: flat arrays whose entries refer to each
    other by index. Optional scalar fields that the loader tests for presence are `Option`s;
    the others carry their proto2 default (0 or "") when unset. */
module Records {
  import opened Wrappers

  newtype byte = x: int | 0 <= x < 256

  /** `BinExport2.Instruction`: the address is stored only where it cannot be derived from
      the previous instruction. */
  datatype Instruction = Instruction(address: Option<nat>, rawBytes: seq<byte>, operandIndex: seq<nat>)

  /** What reading `instruction.address` gives: the stored value, or the proto2 default 0. */
  function StoredAddress(inst: Instruction): nat {
    if inst.address.Some? then inst.address.value else 0
  }

  /** `BinExport2.BasicBlock.IndexRange`; an `end` of 0 means the field is unset. */
  datatype IndexRange = IndexRange(begin: nat, end: nat)

  /** The exclusive upper bound the loader iterates to (loader.py:365): `end_index` when it is
      non-zero, otherwise `begin_index + 1`. */
  function RangeEnd(r: IndexRange): nat {
    if r.end != 0 then r.end else r.begin + 1
  }

  /** `range(begin, RangeEnd(r))`: empty when the bound is not above `begin`. */
  function RangeIndices(r: IndexRange): (s: seq<nat>)
    ensures |s| == if RangeEnd(r) <= r.begin then 0 else RangeEnd(r) - r.begin
    ensures forall k | 0 <= k < |s| :: s[k] == r.begin + k
  {
    if RangeEnd(r) <= r.begin then [] else seq(RangeEnd(r) - r.begin, k requires 0 <= k => r.begin + k)
  }

  /** `BinExport2.BasicBlock`: one or more index ranges, each of them a true basic block. */
  datatype BasicBlock = BasicBlock(ranges: seq<IndexRange>)

  /** `BinExport2.FlowGraph.Edge`, between indices into the basic-block array. */
  datatype FlowEdge = FlowEdge(source: nat, target: nat)

  /** `BinExport2.FlowGraph`: one per function. */
  datatype FlowGraph = FlowGraph(entry: nat, blocks: seq<nat>, edges: seq<FlowEdge>)

  /** `BinExport2.CallGraph.Vertex.Type`. */
  datatype VertexType = Normal | Library | Imported | Thunk | Invalid

  datatype Vertex = Vertex(address: nat, vtype: VertexType, mangledName: string)

  /** `BinExport2.CallGraph.Edge`, between indices into the vertex array. */
  datatype CallEdge = CallEdge(source: nat, target: nat)

  datatype CallGraph = CallGraph(vertices: seq<Vertex>, edges: seq<CallEdge>)

  /** `BinExport2.Expression.Type`, with one extra tag for a value the loader does not know. */
  datatype ExpressionType =
    | Symbol | ImmediateInt | ImmediateFloat | Operator | Register | SizePrefix | Dereference
    | UnknownType

  /** `BinExport2.Expression`; the floating-point payload is not modelled. */
  datatype Expression = Expression(etype: ExpressionType, symbol: string, immediate: nat, parentIndex: nat)

  datatype Operand = Operand(expressionIndex: seq<nat>)

  datatype DataReference = DataReference(instructionIndex: nat, address: nat)

  datatype AddressComment = AddressComment(instructionIndex: nat, stringTableIndex: nat)

  datatype StringReference = StringReference(instructionIndex: nat, stringTableIndex: nat, operandExpressionIndex: nat)

  /** The whole decoded record set. */
  datatype Artifact = Artifact(
    architecture: string,
    instructions: seq<Instruction>,
    basicBlocks: seq<BasicBlock>,
    flowGraphs: seq<FlowGraph>,
    callGraph: CallGraph,
    operands: seq<Operand>,
    expressions: seq<Expression>,
    stringTable: seq<string>,
    dataReferences: seq<DataReference>,
    addressComments: seq<AddressComment>,
    stringReferences: seq<StringReference>)

  /** The exceptions the loader raises on content it cannot handle. */
  datatype Fault =
    | EntryWithoutRange(rawBlock: nat)       // `instruction_index[0]` of an entry block with no range
    | NoStoredAddress(index: nat)            // backtracking from `index` wraps round the whole array without meeting a stored address
    | NoneBlockNode(rawBlock: nat)           // an empty range leaves the block address `None`; networkx refuses it as a node
    | UnknownFlowBlock(rawBlock: nat)        // a flow edge names a block index the function did not build
    | MissingFunction(address: nat)          // a call-graph vertex with no function that is not IMPORTED
    | UnknownVertex(index: nat)              // a call edge names a vertex index past the vertex array
    | UnknownSizePrefix(symbol: string)      // a SIZE_PREFIX symbol outside the size table
    | DataLabelWithoutSize(immediate: nat)   // a data label before any SIZE_PREFIX (size is `None`)
    | NoExpression                           // `expression_index[0]` of an operand without expressions
    | NotSizePrefix                          // `byte_size` of an operand whose first expression is not a size
}
