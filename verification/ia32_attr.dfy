/** The per-node attribute record of an ia32 backend node (`ia32_attr_t`)
    and the few classification predicates over nodes that the update
    functions consult. */
module Ia32Attr {
  import opened Wrappers

  /** How a node encodes its operand (`ia32_op_type_t`). Being one enum, the
      five kinds are mutually exclusive by construction. */
  datatype OpType = Normal | Const | SymConst | AddrModeD | AddrModeS

  /** The operator that joins an addressing-mode offset term to the chain. */
  datatype Sign = Plus | Minus {
    /** The character the C code stores for this operator. */
    function Char(): char {
      if Plus? then '+' else '-'
    }

    /** The opposite operator, used when a term carries its own `-`. */
    function Flip(): (s: Sign)
      ensures s != this
    {
      if Plus? then Minus else Plus
    }
  }

  /** An opaque handle to a target value (`tarval *`). Its printed form is
      produced by a renderer handed to the operations that need it. */
  datatype Tarval = Tarval(handle: nat)

  /** The foreign tarval printer: the full text it would produce for a value,
      before any truncation to the destination buffer. */
  type TarvalRenderer = Tarval -> string

  /** A physical register as the allocator assigns it. */
  datatype Register = Register(name: string, index: nat)

  /** An opaque reference to a register requirement defined elsewhere. */
  datatype RegisterReq = RegisterReq(handle: nat)

  /** Allocator hints (`arch_irn_flags_t`); the empty set is "none". */
  datatype IrnFlag = DontSpill | Rematerializable | Ignore

  /** What stops the program: a failed debug-build assertion, a NULL pointer
      read or written, or an allocation the allocator refuses. */
  datatype Fault = AssertionFailed(message: string) | NullPointer(what: string) | OutOfMemory

  /** The ia32 opcode of a node, as far as the attribute functions look at it. */
  datatype Ia32Opcode = OpConst | OpFConst | OpOther(name: string)

  /** `ia32_attr_t`, restricted to the fields the modelled functions read or
      write. `amOffs` is the text accumulated in the offset obstack (`None`
      while the obstack is not yet created) and `offsSign` is the sign bit of
      the first term. `slots` is `[]` where the C pointer is NULL, and a slot
      is `None` while no register is assigned. */
  datatype Attr = Attr(
    tp: OpType,
    offsSign: bool,
    amOffs: Option<string>,
    tv: Option<Tarval>,
    sc: Option<string>,
    cnst: Option<string>,
    flags: set<IrnFlag>,
    inReq: seq<RegisterReq>,
    outReq: seq<RegisterReq>,
    slots: seq<Option<Register>>,
    nRes: int)

  /** An ia32 node: its opcode and the attribute record it owns. */
  datatype Node = Node(opcode: Ia32Opcode, attr: Attr)

  /** A zero-initialised attribute record, as a freshly built node has it. */
  const Blank: Attr := Attr(Normal, false, None, None, None, None, {}, [], [], [], 0)

  /** `is_ia32_Cnst`: the node is a Const or an fConst. */
  predicate IsCnst(n: Node) {
    n.opcode == OpConst || n.opcode == OpFConst
  }
}
