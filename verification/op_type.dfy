/** The op-type classification of a node: address-mode direction and the
    kind of an ia32 Const. */
module OpTypes {
  import opened Wrappers
  import opened Ia32Attr

  /** `is_ia32_AddrModeS`. */
  predicate IsAddrModeS(n: Node) {
    n.attr.tp == AddrModeS
  }

  /** `is_ia32_AddrModeD`. */
  predicate IsAddrModeD(n: Node) {
    n.attr.tp == AddrModeD
  }

  /** `set_ia32_AddrMode`: 'S' selects a source address mode, 'D' a
      destination address mode; any other direction is a failed assertion.
      Afterwards exactly one of the two predicates holds, and it is the one
      the direction named. */
  function SetAddrMode(n: Node, direction: char): (r: Result<Node, Fault>)
    ensures r.Success? <==> direction == 'S' || direction == 'D'
    ensures r.Success? ==> (IsAddrModeS(r.value) <==> direction == 'S')
    ensures r.Success? ==> (IsAddrModeD(r.value) <==> direction == 'D')
    ensures r.Success? ==> IsAddrModeS(r.value) != IsAddrModeD(r.value)
    ensures r.Success? ==> r.value.opcode == n.opcode && r.value.attr.(tp := n.attr.tp) == n.attr
  {
    match direction
    case 'D' => Success(n.(attr := n.attr.(tp := AddrModeD)))
    case 'S' => Success(n.(attr := n.attr.(tp := AddrModeS)))
    case _ => Failure(AssertionFailed("wrong AM type"))
  }

  /** No node is both a source and a destination address-mode node. */
  lemma AddrModeExclusive(n: Node)
    ensures !(IsAddrModeS(n) && IsAddrModeD(n))
  {
  }

  /** `get_ia32_Const_type`: the op type of an ia32 Const. */
  function GetConstType(n: Node): (r: Result<OpType, Fault>)
    ensures r.Success? <==> IsCnst(n)
    ensures r.Success? ==> r.value == n.attr.tp
  {
    if IsCnst(n) then Success(n.attr.tp) else Failure(AssertionFailed("Need ia32_Const to get type"))
  }

  /** `set_ia32_Const_type`: only an ia32 Const may be retyped, and only to
      `Const` or `SymConst`. */
  function SetConstType(n: Node, t: OpType): (r: Result<Node, Fault>)
    ensures r.Success? <==> IsCnst(n) && (t == Const || t == SymConst)
    ensures r.Success? ==> r.value.attr.tp == t
    ensures r.Success? ==> r.value.opcode == n.opcode && r.value.attr.(tp := n.attr.tp) == n.attr
  {
    if !IsCnst(n) then Failure(AssertionFailed("Need ia32_Const to set type"))
    else if t != Const && t != SymConst then Failure(AssertionFailed("Unsupported ia32_Const type"))
    else Success(n.(attr := n.attr.(tp := t)))
  }

  /** Reading back the type just set returns it, and a retyped Const is never
      an address-mode node. */
  lemma SetConstTypeRoundTrip(n: Node, t: OpType)
    requires SetConstType(n, t).Success?
    ensures GetConstType(SetConstType(n, t).value) == Success(t)
    ensures !IsAddrModeS(SetConstType(n, t).value) && !IsAddrModeD(SetConstType(n, t).value)
  {
  }
}
