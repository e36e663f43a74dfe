/** `ia32_compare_immop_attr`: the identity test used when folding nodes that
    load the same immediate. Zero means "same", anything else "different". */
module ImmopCompare {
  import opened Ia32Attr
  import opened CString
  import opened ConstAttr

  /** Same op type and both caches present: the caches decide via `strcmp`.
      A different op type, or a missing cache on either side, is "different". */
  function CompareImmop(a: Attr, b: Attr): (r: int)
    ensures a.tp != b.tp || a.cnst.None? || b.cnst.None? ==> r == 1
    ensures -1 <= r <= 1
  {
    if a.tp == b.tp then
      if a.cnst.None? || b.cnst.None? then 1
      else Strcmp(a.cnst.value, b.cnst.value)
    else 1
  }

  /** Both directions of "same": zero exactly when the op types agree and
      both caches are present and identical. */
  lemma CompareImmopSameIff(a: Attr, b: Attr)
    ensures CompareImmop(a, b) == 0 <==> a.tp == b.tp && a.cnst.Some? && b.cnst.Some? && a.cnst == b.cnst
  {
    if a.tp == b.tp && a.cnst.Some? && b.cnst.Some? {
      StrcmpZeroIffEqual(a.cnst.value, b.cnst.value);
    }
  }

  /** "Same" does not depend on the order of the operands. */
  lemma CompareImmopSymmetric(a: Attr, b: Attr)
    ensures CompareImmop(a, b) == 0 <==> CompareImmop(b, a) == 0
  {
    CompareImmopSameIff(a, b);
    CompareImmopSameIff(b, a);
  }

  /** A record without a cache is not even the same as itself. */
  lemma MissingCacheNeverSame(a: Attr)
    requires a.cnst.None?
    ensures CompareImmop(a, a) != 0
  {
  }

  /** Two ia32 Consts built by `set_ia32_Const_attr` compare as the same
      exactly when their sources are of the same kind (value or symbol) and
      produce the same cache text. */
  lemma ConstAttrsSameIff(n1: Node, s1: IrNode, n2: Node, s2: IrNode, render: TarvalRenderer)
    requires SetConstAttr(n1, s1, render).Success?
    requires SetConstAttr(n2, s2, render).Success?
    ensures var a := SetConstAttr(n1, s1, render).value.attr;
            var b := SetConstAttr(n2, s2, render).value.attr;
            CompareImmop(a, b) == 0 <==>
              s1.ConstNode? == s2.ConstNode? && SourceText(s1, render) == SourceText(s2, render)
  {
    CompareImmopSameIff(SetConstAttr(n1, s1, render).value.attr, SetConstAttr(n2, s2, render).value.attr);
  }
}
