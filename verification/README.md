# ia32 node attribute store — a Dafny model

This project models the per-node attribute record of libFirm's ia32 backend
(`ia32_attr_t`) and the functions in `ir/be/ia32/ia32_new_nodes.c` that keep
it consistent:

- the **addressing-mode offset chain** (`add_ia32_am_offs`,
  `sub_ia32_am_offs`, `extend_ia32_am_offs`, `get_ia32_am_offs`): signed text
  terms folded into one chain with a separate sign bit for the first term;
- the **constant text cache** (`set_ia32_Immop_tarval`, `set_ia32_sc`,
  `set_ia32_Immop_attr`, `set_ia32_Const_attr`, `get_sc_name`): `cnst` is
  recomputed from the target value `tv` or the symbol name `sc` on every
  change;
- the **immediate comparison** `ia32_compare_immop_attr`;
- **result register slots** (`alloc_ia32_reg_slots`, `init_ia32_attributes`,
  `get_ia32_out_reg`, `_name`, `_regnr`);
- the **op-type classification** (`set_ia32_AddrMode`, `is_ia32_AddrModeS/D`,
  `get/set_ia32_Const_type`);
- the text built by `get_limited_regs` for the register dump.

The record is an immutable datatype (`Ia32Attr.Attr`) owned by a node
(`Ia32Attr.Node`, opcode plus attributes), and every operation is a pure
function from a node to a new node. A debug-build `assert` that fails, a NULL
pointer that is dereferenced and a refused allocation are outcomes
(`Result.Failure` with a `Fault`), not preconditions. NULL pointers are
`Option.None`. Strings are values: `copy_str` and the `free`/`xcalloc`
bookkeeping around them disappear.

Foreign code is abstract. The tarval printer `tarval_snprintf` is a parameter
`render: Tarval -> string` giving the full text of a value. The model applies
`snprintf` truncation to it: the 63-byte size argument keeps at most 62
characters. `get_id_str` and `get_entity_ld_name` are the text fields of the
`SymConstKind` constructors. A node's opcode is reduced to whether it is an
ia32 Const or fConst (`is_ia32_Cnst`).

Modules, one file each: `Wrappers` (Option, Result), `CString` (`snprintf`
truncation and `strcmp`), `Ia32Attr` (the record), `AmOffs`, `ConstAttr`,
`ImmopCompare`, `OpTypes`, `RegSlots`, `LimitedRegs`.

The model follows the code as written, including where it may surprise:

- `ia32_compare_immop_attr` treats a missing cache on either side as
  "different", even when both are missing.
- `set_ia32_sc` leaves `tv` and `tp` alone.
- `set_ia32_Immop_tarval` keeps a stale `sc`.
- `set_ia32_Const_attr` for a Const keeps the old `sc`, so a later
  `set_ia32_Immop_attr` copies that stale name; in C the name's buffer has
  already been freed (see Findings).
- `alloc_ia32_reg_slots` can be called at any time; nothing forbids re-allocation.

## Model

| member | source | states |
|---|---|---|
| AmOffs.SignedTerm | ir/be/ia32/ia32_new_nodes.c:492-501 | the effective operator is `-` exactly when the requested operator and a leading `-` disagree (XOR); exactly one leading sign character is stripped, and an unsigned term is kept whole |
| AmOffs.ExtendAmOffs | ir/be/ia32/ia32_new_nodes.c:486-516 | a NULL offset leaves the node unchanged; the first term creates the chain and sets the sign bit; later terms are appended after their operator character and never touch the sign bit; no other field changes |
| AmOffs.AddAmOffs | ir/be/ia32/ia32_new_nodes.c:494-523 | a NULL offset changes nothing; an added term counts negatively exactly when it starts with `-`: on a node without a chain that is the sign bit, otherwise the operator character appended before the term's text, which loses one leading sign |
| AmOffs.SubAmOffs | ir/be/ia32/ia32_new_nodes.c:494-530 | a NULL offset changes nothing; a subtracted term counts negatively exactly when it does not start with `-`: on a node without a chain that is the sign bit, otherwise the operator character appended before the term's text, which loses one leading sign |
| AmOffs.GetAmOffsAsWritten | ir/be/ia32/ia32_new_nodes.c:463-481 | NULL exactly when no chain exists; the sign-bit character followed by the chain text when the text is non-empty; a write through NULL exactly when the chain text is empty |
| AmOffs.GetAmOffs | ir/be/ia32/ia32_new_nodes.c:463-481 | corrected reader: no offset for a missing or empty chain, otherwise the sign-bit character followed by the chain text |
| AmOffs.GetAmOffsCorrectsOnlyTheFault | ir/be/ia32/ia32_new_nodes.c:472-479 | the corrected reader agrees with the code wherever the code does not fault |
| AmOffs.EmptyTermFaultsAsWritten | ir/be/ia32/ia32_new_nodes.c:472-479 | adding `""`, `"+"` or `"-"` to a node without a chain makes the as-written reader write through NULL |
| AmOffs.RenderIsSignThenChain | ir/be/ia32/ia32_new_nodes.c:475-476 | rendering a term list equals the first term's operator character followed by the stored chain text |
| AmOffs.ReplayStoresChain | ir/be/ia32/ia32_new_nodes.c:503-515 | after any calls on a node without a chain, the chain holds the joined terms, the sign bit is the first term's operator, and no other field has changed |
| AmOffs.NoTermsIffAllNull | ir/be/ia32/ia32_new_nodes.c:489-490 | a run of calls contributes no term exactly when every offset it passes is NULL |
| AmOffs.ReplayRendersTerms | ir/be/ia32/ia32_new_nodes.c:463-516 | after any calls on a node without a chain, unless the only term is empty, the offset read back (by both readers) is the reference rendering of the signed terms, each operator character followed by its text; it is NULL when every offset was NULL |
| AmOffs.ChainEmptyOnlyForOneEmptyTerm | ir/be/ia32/ia32_new_nodes.c:510-515 | the chain text is empty exactly when there is a single term and it is empty |
| AmOffs.SignBitIsStable | ir/be/ia32/ia32_new_nodes.c:503-513 | once a chain exists, no further addition or subtraction changes its sign bit |
| AmOffs.SubtractingIsAddingNegated | ir/be/ia32/ia32_new_nodes.c:494-501 | subtracting `+s` is adding `-s`, and subtracting `-s` is adding `+s` |
| AmOffs.AddThenSubExample | ir/be/ia32/ia32_new_nodes.c:486-530 | adding `-8` and then subtracting `+4` reads back as `-8-4`, the same node as adding `-8` and then `-4` |
| CString.Strcmp | ir/be/ia32/ia32_new_nodes.c:1051 | `strcmp`'s result is -1, 0 or 1; the lemmas below state what it means |
| CString.StrcmpFirstDifference | ir/be/ia32/ia32_new_nodes.c:1051 | at the first position where two strings differ, the smaller character decides the sign of `strcmp` |
| CString.StrcmpProperPrefix | ir/be/ia32/ia32_new_nodes.c:1051 | a proper prefix compares below the longer string |
| CString.Snprintf | ir/be/ia32/ia32_new_nodes.c:94 | `snprintf` keeps a prefix of its text shorter than the size, all of it when it fits |
| CString.StrcmpZeroIffEqual | ir/be/ia32/ia32_new_nodes.c:1051 | `strcmp` is zero exactly for identical strings |
| CString.StrcmpAntisymmetric | ir/be/ia32/ia32_new_nodes.c:1051 | swapping the operands of `strcmp` negates its result |
| ConstAttr.TarvalText | ir/be/ia32/ia32_new_nodes.c:398-399 | the cached text of a value is a prefix of its printed form of at most 62 characters, all of it when it fits |
| ConstAttr.CnstFromTv | ir/be/ia32/ia32_new_nodes.c:393-401 | rendering succeeds exactly for a non-NULL value whose printed form is non-empty, and yields its truncated text |
| ConstAttr.SetImmopTarval | ir/be/ia32/ia32_new_nodes.c:559-563 | only `tv` and `cnst` change, `cnst` being the rendered value; `sc` is kept |
| ConstAttr.SetSc | ir/be/ia32/ia32_new_nodes.c:576-584 | `sc` and `cnst` both become the name; `tp`, `tv` and every other field are unchanged |
| ConstAttr.SetImmopAttr | ir/be/ia32/ia32_new_nodes.c:867-883 | the source must be an ia32 Const; `tv` is always copied; `cnst` follows the source's `sc` when present, otherwise it is the rendered value and `sc` is cleared; `tp` is untouched |
| ConstAttr.GetScName | ir/be/ia32/ia32_new_nodes.c:63-79 | "NONE" for a non-SymConst, the identifier or the linker name for the two supported kinds, a failed assertion otherwise |
| ConstAttr.SetConstAttr | ir/be/ia32/ia32_new_nodes.c:888-911 | a Const gives `tp = Const`, its value and the rendered cache with `sc` kept; a SymConst gives `tp = SymConst`, no value, and its name as both `sc` and cache; anything else, or a target that is not an ia32 Const, is a failed assertion |
| ConstAttr.SettersKeepCacheInSync | ir/be/ia32/ia32_new_nodes.c:559-584 | each successful constant setter (also `set_ia32_Immop_attr` and `set_ia32_Const_attr`, lines 867-911) leaves `cnst` equal to the symbol name or the rendered value, from any prior state |
| ConstAttr.ConstThenImmopCarriesText | ir/be/ia32/ia32_new_nodes.c:867-911 | after `set_ia32_Const_attr` succeeds on any ia32 Const, `set_ia32_Immop_attr` from it succeeds and copies its value; the operand's cache is the source's text when the Const held no symbol name or the source is a SymConst, and the Const's stale symbol name when it held one and the source is a numeric Const |
| ConstAttr.StaleSymbolNameWins | ir/be/ia32/ia32_new_nodes.c:875-877 | an ia32 Const that held the symbol `sym` and is re-set from the value 5 reads `5`, but an operand copied from it reads `sym` |
| ConstAttr.SetConstAttrCorrected | ir/be/ia32/ia32_new_nodes.c:888-911 | corrected setter: succeeds exactly where the code does; afterwards a symbol name is present exactly for a SymConst and the cache is the source's text |
| ConstAttr.CorrectedConstThenImmopCarriesText | ir/be/ia32/ia32_new_nodes.c:867-911 | with the corrected setter, an operand copied from the Const always reads the source's text, the same cache and symbol name as the Const |
| ImmopCompare.CompareImmop | ir/be/ia32/ia32_new_nodes.c:1046-1055 | a different op type or a missing cache on either side answers "different" (1) |
| ImmopCompare.CompareImmopSameIff | ir/be/ia32/ia32_new_nodes.c:1046-1055 | zero exactly when the op types agree and both caches are present and identical |
| ImmopCompare.CompareImmopSymmetric | ir/be/ia32/ia32_new_nodes.c:1046-1055 | "same" does not depend on operand order |
| ImmopCompare.MissingCacheNeverSame | ir/be/ia32/ia32_new_nodes.c:1048-1049 | a record without a cache is not the same as itself |
| ImmopCompare.ConstAttrsSameIff | ir/be/ia32/ia32_new_nodes.c:888-911 | two Consts set from generic constants compare equal exactly when the sources are of the same kind and give the same text |
| Ia32Attr.IsCnst | ir/be/ia32/ia32_new_nodes.c:964-966 | a node is an ia32 constant exactly when its opcode is Const or fConst; only the source of `set_ia32_Immop_attr` (line 871), the target of `set_ia32_Const_attr` (line 891) and `get/set_ia32_Const_type` (lines 847, 858) are checked against it |
| OpTypes.IsAddrModeS | ir/be/ia32/ia32_new_nodes.c:934-937 | a source address-mode node is one whose op type is `AddrModeS`; `SetAddrMode` with `'S'` makes it hold |
| OpTypes.IsAddrModeD | ir/be/ia32/ia32_new_nodes.c:942-945 | a destination address-mode node is one whose op type is `AddrModeD`; `SetAddrMode` with `'D'` makes it hold |
| OpTypes.AddrModeExclusive | ir/be/ia32/ia32_new_nodes.c:934-945 | no node is both a source and a destination address-mode node |
| OpTypes.SetAddrMode | ir/be/ia32/ia32_new_nodes.c:916-929 | `'S'` gives a source and `'D'` a destination address mode, any other direction a failed assertion; afterwards exactly one of `is_ia32_AddrModeS/D` holds; nothing else changes |
| OpTypes.GetConstType | ir/be/ia32/ia32_new_nodes.c:844-850 | reads the op type of an ia32 Const; any other node is a failed assertion |
| OpTypes.SetConstType | ir/be/ia32/ia32_new_nodes.c:855-862 | succeeds exactly for an ia32 Const retyped to `Const` or `SymConst`; only `tp` changes |
| OpTypes.SetConstTypeRoundTrip | ir/be/ia32/ia32_new_nodes.c:844-862 | the type read back is the type set, and a retyped Const is not an address-mode node |
| RegSlots.AllocRegSlots | ir/be/ia32/ia32_new_nodes.c:1010-1021 | `n_res = num` and `num` unassigned slots (none for zero); a negative count is refused; other fields are unchanged |
| RegSlots.InitAttributes | ir/be/ia32/ia32_new_nodes.c:1026-1033 | flags, both requirement arrays and `n_res` unassigned slots are installed; the constant and offset fields are unchanged |
| RegSlots.GetOutReg | ir/be/ia32/ia32_new_nodes.c:997-1005 | succeeds exactly when `pos < n_res` and the slot holds a register, and returns it; otherwise the matching assertion fails |
| RegSlots.GetOutRegName | ir/be/ia32/ia32_new_nodes.c:971-979 | the assigned register's name, under the same conditions |
| RegSlots.GetOutRegNr | ir/be/ia32/ia32_new_nodes.c:984-992 | the assigned register's index, under the same conditions |
| RegSlots.FreshSlotsHaveNoRegister | ir/be/ia32/ia32_new_nodes.c:1010-1021 | right after allocation no position can be read: below the count it has no register, above it is out of range |
| RegSlots.AssignedSlotIsRead | ir/be/ia32/ia32_new_nodes.c:971-1005 | after a register is written into an allocated slot, all three accessors return it |
| LimitedRegs.ListingPrefix | ir/be/ia32/ia32_new_nodes.c:92-106 | the listing of the first registers is a prefix of the listing of any longer run of registers |
| LimitedRegs.ListingEmptyIffNoneAllowed | ir/be/ia32/ia32_new_nodes.c:92-94 | the listing is empty exactly when no register in the run is allowed, so nothing is printed exactly then |
| LimitedRegs.TruncatedListing | ir/be/ia32/ia32_new_nodes.c:94-104 | when a write reaches `max`, the buffer already holds the whole listing cut to `max - 1` characters, so stopping there loses nothing that would fit |
| LimitedRegs.GetLimitedRegs | ir/be/ia32/ia32_new_nodes.c:84-109 | the buffer holds the " name" listing of every allowed register, cut to fit `max` bytes; with no register allowed it keeps its previous text |

## Left out

- Dump routines (`dump_node_ia32`, `dump_reg_req`, lines 114-372): file output only. `get_limited_regs` is modelled for the text it builds.
- The plain field accessors between lines 407 and 828 (`get/set_ia32_op_type`, `am_support`, `am_flavour`, `am_scale`, `use_frame`, `commutative`, `ls_mode`, `frame_ent`, the per-position requirement setters, `flags`, `slots`, `n_res`, `flavour`, `pncode`, `orig_node`): each reads or writes one field and has no logic. The record keeps only the fields the modelled functions use.
- `set_ia32_n_res` is not modelled. It can make `n_res` disagree with the slot array. This is why the out-register accessors require that a position below `n_res` lies inside the slot array.
- RegSlots.GetOutReg, RegSlots.GetOutRegName, RegSlots.GetOutRegNr: require `pos >= 0`. The C code indexes with a negative position unchecked, which is undefined behaviour rather than a modelled outcome.
- `get_ia32_attr` and the `is_ia32_irn` assertions: every node in the model is an ia32 node.
- `is_ia32_Ld`, `is_ia32_St`: they only combine generated opcode predicates.
- The generated constructors (`gen_ia32_new_nodes.c.inl`, line 1058) are not part of this model. A new record is taken to be zero-filled (`Ia32Attr.Blank`).
- The constraint-assurance and post-allocation lowering passes (`ir/be/belower.h`): only their declarations exist, so there is nothing to model.
- `support/win32/sys/time.h`: platform declarations only.
- Release builds (NDEBUG): `tarval_snprintf` sits inside an `assert`, so without assertions `cnst` is never filled. The model follows the debug build.
- Memory management: `copy_str` ignores its destination argument and leaks the old string. After `set_ia32_sc`, the SymConst case of `set_ia32_Const_attr` or `set_ia32_Immop_attr` with a name, `cnst` and `sc` point at one buffer; `set_ia32_Immop_tarval` (line 562) and the Const case of `set_ia32_Const_attr` (line 897) then free it through `set_cnst_from_tv` (line 395) and leave `sc` dangling, and `set_ia32_Immop_attr` later reads it (line 876). Strings are values here, so the model keeps the name that was stored.
- `tarval_snprintf`, `get_id_str`, `get_entity_ld_name`: foreign. Their results are inputs to the model, and the tarval printer is assumed to truncate like `snprintf`.
- ConstAttr.CnstFromTv: a NULL value is taken to make `tarval_snprintf` dereference NULL (`NullPointer`); what the foreign printer does with NULL is not visible.
- RegSlots.AllocRegSlots: a negative count is taken to make `xcalloc` refuse and abort (`OutOfMemory`); the conversion to `size_t` and `xcalloc`'s behaviour are not visible.
- ConstAttr.SetSc: the name is a `string`, so `set_ia32_sc(n, NULL)` is not modelled; in C it dereferences NULL in `strlen` inside `copy_str` (line 388).
- CString.Strcmp: returns only -1, 0 or 1. C fixes only the sign of `strcmp`, and only its zero-ness is used here.
- Strings are NUL-free: a Dafny string holding `'\0'` matches no C string, and every result about names, offsets and caches is meant for NUL-free strings only.
- Lengths count characters, while `snprintf` and `tarval_snprintf` count bytes. `Snprintf`, `TarvalText` and the `max` arithmetic of `GetLimitedRegs` agree with C only for single-byte (ASCII) text, which is what tarvals and register names print.
- The offset chain (`amOffs`) is taken to grow by exactly the characters `obstack_printf` formats, with no terminator, so that `obstack_object_size` (lines 472, 512, 515) is the text's length. The `size + 2` allocation at line 474 supports this reading, but the obstack library is not part of this model.
- `get_limited_regs`' exit on a negative `snprintf` result is not modelled, because printing `" %s"` cannot fail. The `limited` callback is given as the bitset it fills.

## Findings

| source | as written | input that shows it | evidently intended | confidence | as-written member | corrected member |
|---|---|---|---|---|---|---|
| ir/be/ia32/ia32_new_nodes.c:472-479 | `res[size + 1] = '\0'` runs outside the `size > 0` branch, so with an empty chain text it writes through the NULL `res` | `add_ia32_am_offs(n, "")`, `"+"` or `"-"` on a node without an offset, then `get_ia32_am_offs(n)` | an empty chain reads as no offset (NULL) | medium, not executed | AmOffs.GetAmOffsAsWritten, AmOffs.EmptyTermFaultsAsWritten | AmOffs.GetAmOffs, AmOffs.ReplayRendersTerms |
| ir/be/ia32/ia32_new_nodes.c:891-897 | the Const case of `set_ia32_Const_attr` sets `tp`, `tv` and `cnst` but keeps `sc`, and `set_ia32_Immop_attr` (line 875) prefers `sc` | `set_ia32_sc(c, "sym")` on an ia32 Const, then `set_ia32_Const_attr(c, Const 5)`, then `set_ia32_Immop_attr(n, c)`: `c` reads `5`, and `n` is copied from `c`'s stale `sc`, which points at the buffer the Const case freed through `set_cnst_from_tv` (line 395): a use-after-free read at line 876, shown in the value model as `n` reading `sym` | a numeric Const drops the symbol name, so the operand reads the value and no freed buffer is read | low, not executed | ConstAttr.SetConstAttr, ConstAttr.StaleSymbolNameWins | ConstAttr.SetConstAttrCorrected, ConstAttr.CorrectedConstThenImmopCarriesText |
