/** The addressing-mode offset chain: `add_ia32_am_offs` and
    `sub_ia32_am_offs` fold signed textual terms into a node, and
    `get_ia32_am_offs` renders the chain with its sign bit in front.

    The attribute keeps exactly what the C code keeps (the obstack text and
    the sign bit). `Term`, `Terms` and `Render` give an independent view of
    the same chain as a list of (operator, text) pairs, and `ReplayRendersTerms`
    proves the two agree. */
module AmOffs {
  import opened Wrappers
  import opened Ia32Attr

  /** One offset term as it is stored: its effective operator and its text
      without the explicit sign it may have carried. */
  datatype Term = Term(op: Sign, text: string)

  /** True when `s` starts with the character `c`. */
  predicate StartsWith(s: string, c: char) {
    |s| > 0 && s[0] == c
  }

  /** Folds an explicit leading sign of `offset` into the requested operator
      and strips exactly that one sign character. */
  function SignedTerm(offset: string, op: Sign): (t: Term)
    ensures (t.op == Minus) <==> ((op == Minus) != StartsWith(offset, '-'))
    ensures StartsWith(offset, '-') || StartsWith(offset, '+') ==> offset == [offset[0]] + t.text
    ensures !StartsWith(offset, '-') && !StartsWith(offset, '+') ==> t.text == offset
  {
    if StartsWith(offset, '-') then Term(op.Flip(), offset[1..])
    else if StartsWith(offset, '+') then Term(op, offset[1..])
    else Term(op, offset)
  }

  /** `extend_ia32_am_offs`: a NULL offset changes nothing; the first term
      creates the chain and sets the sign bit; every later term is appended
      after its operator character. */
  function ExtendAmOffs(n: Node, offset: Option<string>, op: Sign): (r: Node)
    ensures offset.None? ==> r == n
    ensures r.opcode == n.opcode
    ensures r.attr.(amOffs := n.attr.amOffs, offsSign := n.attr.offsSign) == n.attr
    ensures offset.Some? ==> r.attr.amOffs.Some?
    ensures n.attr.amOffs.Some? ==> r.attr.offsSign == n.attr.offsSign
    ensures offset.Some? && n.attr.amOffs.None? ==>
              var t := SignedTerm(offset.value, op);
              r.attr.amOffs == Some(t.text) && r.attr.offsSign == (t.op == Minus)
    ensures offset.Some? && n.attr.amOffs.Some? ==>
              var t := SignedTerm(offset.value, op);
              r.attr.amOffs == Some(n.attr.amOffs.value + [t.op.Char()] + t.text)
  {
    match offset
    case None => n
    case Some(s) =>
      var t := SignedTerm(s, op);
      match n.attr.amOffs
      case None => n.(attr := n.attr.(amOffs := Some(t.text), offsSign := t.op == Minus))
      case Some(chain) => n.(attr := n.attr.(amOffs := Some(chain + [t.op.Char()] + t.text)))
  }

  /** `add_ia32_am_offs`: the term counts negatively exactly when it carries
      its own leading `-`. On a node without a chain that decides the sign
      bit; on a node with one, the operator character appended before the
      term's text. */
  function AddAmOffs(n: Node, offset: Option<string>): (r: Node)
    ensures offset.None? ==> r == n
    ensures offset.Some? && n.attr.amOffs.None? ==>
              r.attr.offsSign == StartsWith(offset.value, '-')
    ensures offset.Some? && n.attr.amOffs.Some? ==>
              var c := if StartsWith(offset.value, '-') then '-' else '+';
              r.attr.amOffs == Some(n.attr.amOffs.value + [c] + SignedTerm(offset.value, Plus).text)
  {
    ExtendAmOffs(n, offset, Plus)
  }

  /** `sub_ia32_am_offs`: the term counts negatively unless it carries its
      own leading `-`, which turns the subtraction into an addition. */
  function SubAmOffs(n: Node, offset: Option<string>): (r: Node)
    ensures offset.None? ==> r == n
    ensures offset.Some? && n.attr.amOffs.None? ==>
              r.attr.offsSign == !StartsWith(offset.value, '-')
    ensures offset.Some? && n.attr.amOffs.Some? ==>
              var c := if StartsWith(offset.value, '-') then '+' else '-';
              r.attr.amOffs == Some(n.attr.amOffs.value + [c] + SignedTerm(offset.value, Minus).text)
  {
    ExtendAmOffs(n, offset, Minus)
  }

  /** The character `get_ia32_am_offs` puts in front for a sign bit. */
  function SignChar(negative: bool): char {
    if negative then '-' else '+'
  }

  /** `get_ia32_am_offs` as written: NULL when no chain exists, the sign
      character followed by the chain text otherwise, and a write through a
      NULL pointer when the chain text is empty (the terminator is stored
      outside the `size > 0` branch that allocates the result). */
  function GetAmOffsAsWritten(n: Node): (r: Result<Option<string>, Fault>)
    ensures r.Failure? <==> n.attr.amOffs == Some("")
    ensures r == Success(None) <==> n.attr.amOffs.None?
    ensures r.Success? && r.value.Some? ==>
              |r.value.value| >= 2 && r.value.value[0] == SignChar(n.attr.offsSign) && r.value.value[1..] == n.attr.amOffs.value
  {
    match n.attr.amOffs
    case None => Success(None)
    case Some(chain) =>
      if |chain| > 0 then Success(Some([SignChar(n.attr.offsSign)] + chain))
      else Failure(NullPointer("get_ia32_am_offs result"))
  }

  /** `get_ia32_am_offs` as evidently intended: an empty chain text reads as
      no offset instead of writing through NULL. */
  function GetAmOffs(n: Node): (r: Option<string>)
    ensures r.None? <==> n.attr.amOffs.None? || n.attr.amOffs == Some("")
    ensures r.Some? ==> |r.value| >= 2 && r.value[0] == SignChar(n.attr.offsSign) && r.value[1..] == n.attr.amOffs.value
  {
    match n.attr.amOffs
    case None => None
    case Some(chain) => if |chain| > 0 then Some([SignChar(n.attr.offsSign)] + chain) else None
  }

  /** Wherever the code as written returns, the corrected reading returns the
      same; they differ only on the empty chain text, where the code faults. */
  lemma GetAmOffsCorrectsOnlyTheFault(n: Node)
    ensures GetAmOffsAsWritten(n).Success? ==> GetAmOffsAsWritten(n).value == GetAmOffs(n)
    ensures GetAmOffsAsWritten(n).Failure? ==> GetAmOffs(n).None? && n.attr.amOffs.Some?
  {
  }

  /** Adding the empty offset (or a bare sign) to a node without a chain
      makes the as-written reader write through NULL. */
  lemma EmptyTermFaultsAsWritten(n: Node, offset: string)
    requires n.attr.amOffs.None?
    requires offset in ["", "+", "-"]
    ensures GetAmOffsAsWritten(AddAmOffs(n, Some(offset))) == Failure(NullPointer("get_ia32_am_offs result"))
    ensures GetAmOffs(AddAmOffs(n, Some(offset))).None?
  {
  }

  /** One call of `add_ia32_am_offs` (`Plus`) or `sub_ia32_am_offs` (`Minus`). */
  datatype Call = Call(offset: Option<string>, op: Sign)

  /** Applies the calls in order. */
  function Replay(n: Node, calls: seq<Call>): Node
  {
    if |calls| == 0 then n
    else
      var last := calls[|calls| - 1];
      ExtendAmOffs(Replay(n, calls[..|calls| - 1]), last.offset, last.op)
  }

  /** The terms the calls contribute, in order: NULL offsets contribute none. */
  function Terms(calls: seq<Call>): seq<Term>
  {
    if |calls| == 0 then []
    else
      var last := calls[|calls| - 1];
      Terms(calls[..|calls| - 1]) +
        (match last.offset
         case None => []
         case Some(s) => [SignedTerm(s, last.op)])
  }

  /** The calls contribute no term exactly when every offset is NULL. */
  lemma {:induction false} NoTermsIffAllNull(calls: seq<Call>)
    ensures |Terms(calls)| == 0 <==> forall i :: 0 <= i < |calls| ==> calls[i].offset.None?
  {
    if |calls| > 0 {
      var init := calls[..|calls| - 1];
      NoTermsIffAllNull(init);
      assert forall i :: 0 <= i < |init| ==> init[i] == calls[i];
    }
  }

  /** Reference rendering of a list of terms: each term's operator character
      followed by its text. */
  function Render(ts: seq<Term>): string
  {
    if |ts| == 0 then ""
    else Render(ts[..|ts| - 1]) + [ts[|ts| - 1].op.Char()] + ts[|ts| - 1].text
  }

  /** The obstack text of a non-empty term list: the first term's text, then
      every later term after its operator character. */
  function Chain(ts: seq<Term>): string
    requires |ts| > 0
  {
    if |ts| == 1 then ts[0].text
    else Chain(ts[..|ts| - 1]) + [ts[|ts| - 1].op.Char()] + ts[|ts| - 1].text
  }

  /** Rendering a term list is its first operator followed by the chain text. */
  lemma {:induction false} RenderIsSignThenChain(ts: seq<Term>)
    requires |ts| > 0
    ensures Render(ts) == [ts[0].op.Char()] + Chain(ts)
  {
    if |ts| == 1 {
      assert Render(ts[..0]) == "";
    } else {
      var init := ts[..|ts| - 1];
      var last := ts[|ts| - 1];
      RenderIsSignThenChain(init);
      assert init[0] == ts[0];
      assert Render(ts) == Render(init) + [last.op.Char()] + last.text;
      assert Chain(ts) == Chain(init) + [last.op.Char()] + last.text;
    }
  }

  /** Starting without a chain, replaying the calls stores exactly the chain
      text of their terms, with the first term's operator as the sign bit. */
  lemma {:induction false} ReplayStoresChain(n: Node, calls: seq<Call>)
    requires n.attr.amOffs.None?
    ensures var ts := Terms(calls); var r := Replay(n, calls);
            && (|ts| == 0 ==> r.attr.amOffs.None?)
            && (|ts| > 0 ==> r.attr.amOffs == Some(Chain(ts)) && r.attr.offsSign == (ts[0].op == Minus))
            && r.attr.(amOffs := n.attr.amOffs, offsSign := n.attr.offsSign) == n.attr
            && r.opcode == n.opcode
  {
    if |calls| > 0 {
      var init := calls[..|calls| - 1];
      var last := calls[|calls| - 1];
      ReplayStoresChain(n, init);
      var ts0 := Terms(init);
      var ts := Terms(calls);
      if last.offset.Some? {
        var t := SignedTerm(last.offset.value, last.op);
        assert ts == ts0 + [t];
        assert ts[..|ts| - 1] == ts0;
        if |ts0| > 0 {
          assert ts[0] == ts0[0];
          assert Chain(ts) == Chain(ts0) + [t.op.Char()] + t.text;
        } else {
          assert ts == [t];
        }
      } else {
        assert ts == ts0;
      }
    }
  }

  /** The headline property of the chain: after any sequence of additions and
      subtractions on a node without a chain, the rendered offset is the
      reference rendering of the signed terms; the code as written faults
      only when the single stored term is empty. */
  lemma {:induction false} ReplayRendersTerms(n: Node, calls: seq<Call>)
    requires n.attr.amOffs.None?
    ensures var ts := Terms(calls); var r := Replay(n, calls);
            && ((forall i :: 0 <= i < |calls| ==> calls[i].offset.None?) ==> GetAmOffs(r).None?)
            && (|ts| > 0 && Chain(ts) != "" ==> GetAmOffs(r) == Some(Render(ts)))
            && (|ts| > 0 && Chain(ts) != "" ==> GetAmOffsAsWritten(r) == Success(Some(Render(ts))))
  {
    var ts := Terms(calls);
    var r := Replay(n, calls);
    ReplayStoresChain(n, calls);
    NoTermsIffAllNull(calls);
    if |ts| > 0 {
      RenderIsSignThenChain(ts);
      if Chain(ts) != "" {
        assert r.attr.amOffs == Some(Chain(ts));
        assert GetAmOffs(r) == Some([SignChar(r.attr.offsSign)] + Chain(ts));
      }
    } else {
      assert r.attr.amOffs.None?;
    }
  }

  /** The chain text is empty only for a single term with empty text, so
      requiring non-empty stored terms rules out the as-written fault. */
  lemma ChainEmptyOnlyForOneEmptyTerm(ts: seq<Term>)
    requires |ts| > 0
    ensures Chain(ts) == "" <==> |ts| == 1 && ts[0].text == ""
  {
  }

  /** Once the chain exists its sign bit never changes, whatever is added. */
  lemma {:induction false} SignBitIsStable(n: Node, calls: seq<Call>)
    requires n.attr.amOffs.Some?
    ensures Replay(n, calls).attr.offsSign == n.attr.offsSign
    ensures Replay(n, calls).attr.amOffs.Some?
  {
    if |calls| > 0 {
      SignBitIsStable(n, calls[..|calls| - 1]);
    }
  }

  /** Double negation cancels: subtracting `+s` is adding `-s`, and
      subtracting `-s` is adding `+s`. */
  lemma SubtractingIsAddingNegated(n: Node, s: string)
    ensures SubAmOffs(n, Some("+" + s)) == AddAmOffs(n, Some("-" + s))
    ensures SubAmOffs(n, Some("-" + s)) == AddAmOffs(n, Some("+" + s))
  {
  }

  /** Adding "-8" and then subtracting "+4" on a node without a chain renders
      as "-8-4", the same as adding "-8" and then "-4". */
  lemma AddThenSubExample(n: Node)
    requires n.attr.amOffs.None?
    ensures GetAmOffs(SubAmOffs(AddAmOffs(n, Some("-8")), Some("+4"))) == Some("-8-4")
    ensures SubAmOffs(AddAmOffs(n, Some("-8")), Some("+4")) == AddAmOffs(AddAmOffs(n, Some("-8")), Some("-4"))
  {
    var t1 := SignedTerm("-8", Plus);
    assert t1 == Term(Minus, "8");
    var t2 := SignedTerm("+4", Minus);
    assert t2 == Term(Minus, "4");
    assert SignedTerm("-4", Plus) == t2;
    var n1 := AddAmOffs(n, Some("-8"));
    assert n1.attr.amOffs == Some("8") && n1.attr.offsSign;
    var n2 := SubAmOffs(n1, Some("+4"));
    assert "8" + [Minus.Char()] + "4" == "8-4";
    assert n2.attr.amOffs == Some("8-4");
    assert ['-'] + "8-4" == "-8-4";
  }
}
