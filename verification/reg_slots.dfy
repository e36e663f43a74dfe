/** Result register slots: allocation at node construction and the
    out-register accessors the emitter and the dumper use. */
module RegSlots {
  import opened Wrappers
  import opened Ia32Attr

  /** True when no slot has a register assigned. */
  predicate AllUnassigned(slots: seq<Option<Register>>) {
    forall i :: 0 <= i < |slots| ==> slots[i].None?
  }

  /** `alloc_ia32_reg_slots`: `num` zeroed slots (none at all for zero) and
      `n_res = num`. A negative count reaches the allocator as a huge size and
      is refused. */
  function AllocRegSlots(n: Node, num: int): (r: Result<Node, Fault>)
    ensures r.Success? <==> num >= 0
    ensures r.Success? ==> r.value.attr.nRes == num && |r.value.attr.slots| == num
    ensures r.Success? ==> AllUnassigned(r.value.attr.slots)
    ensures r.Success? ==> r.value.opcode == n.opcode && r.value.attr.(slots := n.attr.slots, nRes := n.attr.nRes) == n.attr
  {
    if num < 0 then Failure(OutOfMemory)
    else if num == 0 then Success(n.(attr := n.attr.(slots := [], nRes := 0)))
    else Success(n.(attr := n.attr.(slots := seq(num, _ => None), nRes := num)))
  }

  /** `init_ia32_attributes`: flags, both requirement arrays and `nRes`
      fresh slots; the constant and offset fields are not touched. */
  function InitAttributes(n: Node, flags: set<IrnFlag>, inReqs: seq<RegisterReq>, outReqs: seq<RegisterReq>, nRes: int): (r: Result<Node, Fault>)
    ensures r.Success? <==> nRes >= 0
    ensures r.Success? ==>
              && r.value.attr.flags == flags
              && r.value.attr.inReq == inReqs
              && r.value.attr.outReq == outReqs
              && r.value.attr.nRes == nRes
              && |r.value.attr.slots| == nRes
              && AllUnassigned(r.value.attr.slots)
    ensures r.Success? ==>
              r.value.opcode == n.opcode &&
              r.value.attr.(flags := n.attr.flags, inReq := n.attr.inReq, outReq := n.attr.outReq,
                            slots := n.attr.slots, nRes := n.attr.nRes) == n.attr
  {
    AllocRegSlots(n.(attr := n.attr.(flags := flags, inReq := inReqs, outReq := outReqs)), nRes)
  }

  /** `get_ia32_out_reg`: the register in slot `pos`. The debug build asserts
      that `pos` is below `n_res` and that a register is assigned there. The
      caller must keep `pos` non-negative and inside the slot array (C does
      not check either). */
  function GetOutReg(n: Node, pos: int): (r: Result<Register, Fault>)
    requires 0 <= pos
    requires pos < n.attr.nRes ==> pos < |n.attr.slots|
    ensures r.Success? <==> pos < n.attr.nRes && n.attr.slots[pos].Some?
    ensures r.Success? ==> Some(r.value) == n.attr.slots[pos]
    ensures pos >= n.attr.nRes ==> r == Failure(AssertionFailed("Invalid OUT position."))
  {
    if pos >= n.attr.nRes then Failure(AssertionFailed("Invalid OUT position."))
    else if n.attr.slots[pos].None? then Failure(AssertionFailed("No register assigned"))
    else Success(n.attr.slots[pos].value)
  }

  /** `get_ia32_out_reg_name`: the name of the register in slot `pos`. */
  function GetOutRegName(n: Node, pos: int): (r: Result<string, Fault>)
    requires 0 <= pos
    requires pos < n.attr.nRes ==> pos < |n.attr.slots|
    ensures r.Success? <==> pos < n.attr.nRes && n.attr.slots[pos].Some?
    ensures r.Success? ==> r.value == n.attr.slots[pos].value.name
  {
    match GetOutReg(n, pos)
    case Failure(e) => Failure(e)
    case Success(reg) => Success(reg.name)
  }

  /** `get_ia32_out_regnr`: the index within its class of the register in
      slot `pos`. */
  function GetOutRegNr(n: Node, pos: int): (r: Result<nat, Fault>)
    requires 0 <= pos
    requires pos < n.attr.nRes ==> pos < |n.attr.slots|
    ensures r.Success? <==> pos < n.attr.nRes && n.attr.slots[pos].Some?
    ensures r.Success? ==> r.value == n.attr.slots[pos].value.index
  {
    match GetOutReg(n, pos)
    case Failure(e) => Failure(e)
    case Success(reg) => Success(reg.index)
  }

  /** Freshly allocated slots cannot be read: every position below the count
      has no register yet, and every other position is out of range. */
  lemma FreshSlotsHaveNoRegister(n: Node, num: int, pos: int)
    requires AllocRegSlots(n, num).Success?
    requires 0 <= pos
    ensures var m := AllocRegSlots(n, num).value;
            && (pos < num ==> GetOutReg(m, pos) == Failure(AssertionFailed("No register assigned")))
            && (pos >= num ==> GetOutReg(m, pos) == Failure(AssertionFailed("Invalid OUT position.")))
  {
  }

  /** Once the allocator has written register `reg` into slot `pos` of a node
      with allocated slots, all three accessors report it. */
  lemma AssignedSlotIsRead(n: Node, num: int, pos: int, reg: Register)
    requires AllocRegSlots(n, num).Success?
    requires 0 <= pos < num
    ensures var m := AllocRegSlots(n, num).value;
            var m' := m.(attr := m.attr.(slots := m.attr.slots[pos := Some(reg)]));
            && GetOutReg(m', pos) == Success(reg)
            && GetOutRegName(m', pos) == Success(reg.name)
            && GetOutRegNr(m', pos) == Success(reg.index)
  {
  }
}
