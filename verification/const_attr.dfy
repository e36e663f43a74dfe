/** The constant attributes of a node and their text cache: `tv` (a target
    value), `sc` (a symbol name) and `cnst`, the printed form other passes
    read and compare. Every setter recomputes `cnst` at once. */
module ConstAttr {
  import opened Wrappers
  import opened Ia32Attr
  import opened CString

  /** The size `set_cnst_from_tv` hands to the tarval printer (its buffer
      holds 64 bytes). */
  const TarvalTextSize: int := 63

  /** The text the tarval printer leaves in the cache buffer for `t`. */
  function TarvalText(render: TarvalRenderer, t: Tarval): (s: string)
    ensures s <= render(t)
    ensures |s| <= TarvalTextSize - 1
    ensures |render(t)| < TarvalTextSize ==> s == render(t)
  {
    Snprintf(TarvalTextSize, render(t))
  }

  /** `set_cnst_from_tv`: prints `tv` into a fresh buffer. A NULL value reaches
      the printer as a NULL pointer, and the debug build asserts that the
      printer produced at least one character. */
  function CnstFromTv(tv: Option<Tarval>, render: TarvalRenderer): (r: Result<string, Fault>)
    ensures r.Success? <==> tv.Some? && render(tv.value) != ""
    ensures r.Success? ==> r.value == TarvalText(render, tv.value) && r.value != ""
  {
    match tv
    case None => Failure(NullPointer("tarval"))
    case Some(t) =>
      if render(t) == "" then Failure(AssertionFailed("tarval_snprintf"))
      else Success(TarvalText(render, t))
  }

  /** `set_ia32_Immop_tarval`: stores the value and re-renders the cache.
      Nothing else changes; in particular a symbol name in `sc` is kept. */
  function SetImmopTarval(n: Node, tv: Option<Tarval>, render: TarvalRenderer): (r: Result<Node, Fault>)
    ensures r.Success? <==> tv.Some? && render(tv.value) != ""
    ensures r.Success? ==> r.value.attr.tv == tv && r.value.attr.cnst == Some(TarvalText(render, tv.value))
    ensures r.Success? ==> r.value.opcode == n.opcode && r.value.attr.(tv := n.attr.tv, cnst := n.attr.cnst) == n.attr
  {
    match CnstFromTv(tv, render)
    case Failure(e) => Failure(e)
    case Success(text) => Success(n.(attr := n.attr.(tv := tv, cnst := Some(text))))
  }

  /** `set_ia32_sc`: the symbol name becomes both `sc` and the cache;
      `tp` and `tv` are left as they were. */
  function SetSc(n: Node, name: string): (r: Node)
    ensures r.attr.sc == Some(name) && r.attr.cnst == Some(name)
    ensures r.opcode == n.opcode && r.attr.(sc := n.attr.sc, cnst := n.attr.cnst) == n.attr
  {
    n.(attr := n.attr.(sc := Some(name), cnst := Some(name)))
  }

  /** `set_ia32_Immop_attr`: copies the constant of an ia32 Const node `c` into
      the immediate operand of `n`. The value is always copied; the cache
      follows the symbol name when `c` has one, and otherwise the value, with
      the symbol name cleared. */
  function SetImmopAttr(n: Node, c: Node, render: TarvalRenderer): (r: Result<Node, Fault>)
    ensures r.Success? <==> IsCnst(c) && (c.attr.sc.Some? || (c.attr.tv.Some? && render(c.attr.tv.value) != ""))
    ensures r.Success? ==> r.value.attr.tv == c.attr.tv
    ensures r.Success? && c.attr.sc.Some? ==> r.value.attr.sc == c.attr.sc && r.value.attr.cnst == c.attr.sc
    ensures r.Success? && c.attr.sc.None? ==>
              r.value.attr.sc.None? && r.value.attr.cnst == Some(TarvalText(render, c.attr.tv.value))
    ensures r.Success? ==>
              r.value.opcode == n.opcode &&
              r.value.attr.(tv := n.attr.tv, sc := n.attr.sc, cnst := n.attr.cnst) == n.attr
  {
    if !IsCnst(c) then Failure(AssertionFailed("Need ia32_Const to set Immop attr"))
    else
      match c.attr.sc
      case Some(name) => Success(n.(attr := n.attr.(tv := c.attr.tv, sc := Some(name), cnst := Some(name))))
      case None =>
        match CnstFromTv(c.attr.tv, render)
        case Failure(e) => Failure(e)
        case Success(text) => Success(n.(attr := n.attr.(tv := c.attr.tv, sc := None, cnst := Some(text))))
  }

  /** The kind of a generic SymConst, as far as its name is concerned. The
      identifier text and the entity's linker name are carried directly. */
  datatype SymConstKind = AddrName(ident: string) | AddrEnt(ldName: string) | OtherSymConstKind

  /** A generic (architecture-independent) node offered as the source of an
      ia32 constant. */
  datatype IrNode = ConstNode(value: Tarval) | SymConstNode(kind: SymConstKind) | UnknownNode | OtherNode(opname: string)

  /** `get_sc_name`: "NONE" for a node that is not a SymConst, the identifier
      or the entity's linker name for the two supported kinds, and a failed
      assertion for any other kind. */
  function GetScName(src: IrNode): (r: Result<string, Fault>)
    ensures !src.SymConstNode? ==> r == Success("NONE")
    ensures src.SymConstNode? ==> (r.Success? <==> !src.kind.OtherSymConstKind?)
    ensures src.SymConstNode? && src.kind.AddrName? ==> r == Success(src.kind.ident)
    ensures src.SymConstNode? && src.kind.AddrEnt? ==> r == Success(src.kind.ldName)
  {
    match src
    case SymConstNode(kind) =>
      (match kind
       case AddrName(ident) => Success(ident)
       case AddrEnt(ldName) => Success(ldName)
       case OtherSymConstKind => Failure(AssertionFailed("Unsupported SymConst")))
    case _ => Success("NONE")
  }

  /** `set_ia32_Const_attr`: turns the ia32 Const node `n` into a copy of the
      generic constant `src`. A Const gives `tp = Const`, its value and the
      rendered cache, keeping `sc`; a SymConst gives `tp = SymConst`, no value,
      and its name as both `sc` and cache. Every other source, and a target
      that is not an ia32 Const, is a failed assertion. */
  function SetConstAttr(n: Node, src: IrNode, render: TarvalRenderer): (r: Result<Node, Fault>)
    ensures r.Success? <==>
              IsCnst(n) &&
              ((src.ConstNode? && render(src.value) != "") ||
               (src.SymConstNode? && !src.kind.OtherSymConstKind?))
    ensures r.Success? && src.ConstNode? ==>
              && r.value.attr.tp == Const
              && r.value.attr.tv == Some(src.value)
              && r.value.attr.cnst == Some(TarvalText(render, src.value))
              && r.value.attr.sc == n.attr.sc
    ensures r.Success? && src.SymConstNode? ==>
              && r.value.attr.tp == SymConst
              && r.value.attr.tv.None?
              && r.value.attr.sc == Some(GetScName(src).value)
              && r.value.attr.cnst == r.value.attr.sc
    ensures r.Success? ==>
              r.value.opcode == n.opcode &&
              r.value.attr.(tp := n.attr.tp, tv := n.attr.tv, sc := n.attr.sc, cnst := n.attr.cnst) == n.attr
  {
    if !IsCnst(n) then Failure(AssertionFailed("Need ia32_Const to set Const attr"))
    else
      match src
      case ConstNode(t) =>
        (match CnstFromTv(Some(t), render)
         case Failure(e) => Failure(e)
         case Success(text) => Success(n.(attr := n.attr.(tp := Const, tv := Some(t), cnst := Some(text)))))
      case SymConstNode(_) =>
        (match GetScName(src)
         case Failure(e) => Failure(e)
         case Success(name) => Success(n.(attr := n.attr.(tp := SymConst, tv := None, sc := Some(name), cnst := Some(name)))))
      case UnknownNode => Failure(AssertionFailed("Unknown Const NYI"))
      case OtherNode(_) => Failure(AssertionFailed("Cannot create ia32_Const for this opcode"))
  }

  /** The cache mirrors whichever constant was set last: it is empty only on a
      record that never held a constant, otherwise it equals the symbol name
      or the rendered value. */
  predicate CacheInSync(a: Attr, render: TarvalRenderer) {
    || (a.cnst.None? && a.sc.None? && a.tv.None?)
    || (a.sc.Some? && a.cnst == a.sc)
    || (a.tv.Some? && a.cnst == Some(TarvalText(render, a.tv.value)))
  }

  /** Every successful constant setter leaves the cache in sync, whatever
      state the node was in before. */
  lemma SettersKeepCacheInSync(n: Node, c: Node, tv: Option<Tarval>, name: string, src: IrNode, render: TarvalRenderer)
    ensures CacheInSync(Ia32Attr.Blank, render)
    ensures SetImmopTarval(n, tv, render).Success? ==> CacheInSync(SetImmopTarval(n, tv, render).value.attr, render)
    ensures CacheInSync(SetSc(n, name).attr, render)
    ensures SetImmopAttr(n, c, render).Success? ==> CacheInSync(SetImmopAttr(n, c, render).value.attr, render)
    ensures SetConstAttr(n, src, render).Success? ==> CacheInSync(SetConstAttr(n, src, render).value.attr, render)
  {
  }

  /** The text a generic constant contributes to the cache once copied. */
  function SourceText(src: IrNode, render: TarvalRenderer): string
    requires src.ConstNode? || (src.SymConstNode? && !src.kind.OtherSymConstKind?)
  {
    if src.ConstNode? then TarvalText(render, src.value) else GetScName(src).value
  }

  /** Copying a constant into an immediate operand carries its cache over
      when `c` held no symbol name or is re-set from a SymConst: after
      `set_ia32_Const_attr` on `c` and `set_ia32_Immop_attr` from `c`, the
      operand's cache is the source's text. When `c` still holds a symbol
      name and is re-set from a numeric Const, the Const case keeps that
      name, and the operand receives the stale name instead of the value. */
  lemma ConstThenImmopCarriesText(n: Node, c: Node, src: IrNode, render: TarvalRenderer)
    requires SetConstAttr(c, src, render).Success?
    ensures var c' := SetConstAttr(c, src, render).value;
            && SetImmopAttr(n, c', render).Success?
            && SetImmopAttr(n, c', render).value.attr.tv == c'.attr.tv
    ensures src.SymConstNode? || c.attr.sc.None? ==>
              var c' := SetConstAttr(c, src, render).value;
              && SetImmopAttr(n, c', render).value.attr.cnst == Some(SourceText(src, render))
              && SetImmopAttr(n, c', render).value.attr.cnst == c'.attr.cnst
    ensures src.ConstNode? && c.attr.sc.Some? ==>
              var c' := SetConstAttr(c, src, render).value;
              && c'.attr.tp == Const
              && SetImmopAttr(n, c', render).value.attr.tv == Some(src.value)
              && SetImmopAttr(n, c', render).value.attr.cnst == c.attr.sc
              && SetImmopAttr(n, c', render).value.attr.sc == c.attr.sc
  {
  }

  /** An instance of the stale case: an ia32 Const that once held the symbol
      `sym` is re-set from the numeric constant 5; its own cache reads `5`,
      but an immediate operand copied from it reads `sym`. In C that name's
      buffer was freed by the re-set, so the copy reads freed memory; strings
      are values here, so the model shows the name that was stored. */
  lemma StaleSymbolNameWins()
    ensures var render: TarvalRenderer := _ => "5";
            var c := Node(OpConst, Ia32Attr.Blank.(tp := SymConst, sc := Some("sym"), cnst := Some("sym")));
            var c' := SetConstAttr(c, ConstNode(Tarval(5)), render);
            && c'.Success?
            && c'.value.attr.cnst == Some("5")
            && SetImmopAttr(Node(OpOther("Add"), Ia32Attr.Blank), c'.value, render).Success?
            && SetImmopAttr(Node(OpOther("Add"), Ia32Attr.Blank), c'.value, render).value.attr.cnst == Some("sym")
  {
    var render: TarvalRenderer := _ => "5";
    assert TarvalText(render, Tarval(5)) == "5";
  }

  /** `set_ia32_Const_attr` as evidently intended: the numeric case also drops
      the symbol name, so a record holds a name exactly when its type says
      it is a SymConst, and the cache is always the source's text. */
  function SetConstAttrCorrected(n: Node, src: IrNode, render: TarvalRenderer): (r: Result<Node, Fault>)
    ensures r.Success? <==> SetConstAttr(n, src, render).Success?
    ensures r.Success? ==>
              && (r.value.attr.sc.Some? <==> r.value.attr.tp == SymConst)
              && r.value.attr.cnst == Some(SourceText(src, render))
              && r.value.attr.tv == (if src.ConstNode? then Some(src.value) else None)
    ensures r.Success? ==>
              r.value.opcode == n.opcode &&
              r.value.attr.(tp := n.attr.tp, tv := n.attr.tv, sc := n.attr.sc, cnst := n.attr.cnst) == n.attr
  {
    if !IsCnst(n) then Failure(AssertionFailed("Need ia32_Const to set Const attr"))
    else
      match src
      case ConstNode(t) =>
        (match CnstFromTv(Some(t), render)
         case Failure(e) => Failure(e)
         case Success(text) => Success(n.(attr := n.attr.(tp := Const, tv := Some(t), sc := None, cnst := Some(text)))))
      case SymConstNode(_) =>
        (match GetScName(src)
         case Failure(e) => Failure(e)
         case Success(name) => Success(n.(attr := n.attr.(tp := SymConst, tv := None, sc := Some(name), cnst := Some(name)))))
      case UnknownNode => Failure(AssertionFailed("Unknown Const NYI"))
      case OtherNode(_) => Failure(AssertionFailed("Cannot create ia32_Const for this opcode"))
  }

  /** With the corrected setter the cache is carried over for every state of
      `c`: the operand reads exactly what the Const node reads. */
  lemma CorrectedConstThenImmopCarriesText(n: Node, c: Node, src: IrNode, render: TarvalRenderer)
    requires SetConstAttrCorrected(c, src, render).Success?
    ensures var c' := SetConstAttrCorrected(c, src, render).value;
            && SetImmopAttr(n, c', render).Success?
            && SetImmopAttr(n, c', render).value.attr.cnst == Some(SourceText(src, render))
            && SetImmopAttr(n, c', render).value.attr.cnst == c'.attr.cnst
            && SetImmopAttr(n, c', render).value.attr.sc == c'.attr.sc
  {
  }
}
