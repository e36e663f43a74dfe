/** The text part of `get_limited_regs`: the names of the registers a limited
    requirement allows, each after a blank, written into a caller buffer of
    `max` bytes with `snprintf`. The limited callback is given as the bitset
    it fills, one flag per register of the class. */
module LimitedRegs {
  import opened CString

  /** The dump entry of register `i`: " name" when it is allowed, nothing
      otherwise. */
  function Entry(names: seq<string>, allowed: seq<bool>, i: nat): string
    requires |names| == |allowed| && i < |names|
  {
    if allowed[i] then " " + names[i] else ""
  }

  /** The untruncated listing of the first `k` registers, in register order. */
  function ListingUpTo(names: seq<string>, allowed: seq<bool>, k: nat): string
    requires |names| == |allowed| && k <= |names|
  {
    if k == 0 then "" else ListingUpTo(names, allowed, k - 1) + Entry(names, allowed, k - 1)
  }

  /** The untruncated listing of the whole class. */
  function Listing(names: seq<string>, allowed: seq<bool>): string
    requires |names| == |allowed|
  {
    ListingUpTo(names, allowed, |names|)
  }

  /** One more register extends the listing by its entry. */
  lemma {:induction false} ListingStep(names: seq<string>, allowed: seq<bool>, i: nat)
    requires |names| == |allowed| && i < |names|
    ensures ListingUpTo(names, allowed, i + 1) == ListingUpTo(names, allowed, i) + Entry(names, allowed, i)
  {
  }

  /** The listing of the first registers is a prefix of the listing of any
      longer run of registers. */
  lemma {:induction false} ListingPrefix(names: seq<string>, allowed: seq<bool>, j: nat, k: nat)
    requires |names| == |allowed|
    requires j <= k <= |names|
    ensures |ListingUpTo(names, allowed, j)| <= |ListingUpTo(names, allowed, k)|
    ensures ListingUpTo(names, allowed, k)[..|ListingUpTo(names, allowed, j)|] == ListingUpTo(names, allowed, j)
    decreases k
  {
    var shorter := ListingUpTo(names, allowed, j);
    if j < k {
      ListingPrefix(names, allowed, j, k - 1);
      var longer := ListingUpTo(names, allowed, k - 1);
      ListingStep(names, allowed, k - 1);
      CutInsideFirstPart(longer, Entry(names, allowed, k - 1), |shorter|);
      assert ListingUpTo(names, allowed, k)[..|shorter|] == longer[..|shorter|];
    } else {
      assert shorter[..|shorter|] == shorter;
    }
  }

  /** True when at least one register is allowed. */
  predicate AnyAllowed(allowed: seq<bool>) {
    exists i :: 0 <= i < |allowed| && allowed[i]
  }

  /** The listing of the first `k` registers is empty exactly when none of
      them is allowed. */
  lemma {:induction false} ListingEmptyIffNoneAllowed(names: seq<string>, allowed: seq<bool>, k: nat)
    requires |names| == |allowed| && k <= |names|
    ensures |ListingUpTo(names, allowed, k)| == 0 <==> forall i :: 0 <= i < k ==> !allowed[i]
  {
    if k > 0 {
      ListingEmptyIffNoneAllowed(names, allowed, k - 1);
      ListingStep(names, allowed, k - 1);
      var entry := Entry(names, allowed, k - 1);
      assert |entry| == 0 <==> !allowed[k - 1];
      assert |ListingUpTo(names, allowed, k)| == |ListingUpTo(names, allowed, k - 1)| + |entry|;
      if forall i :: 0 <= i < k ==> !allowed[i] {
        assert forall i :: 0 <= i < k - 1 ==> !allowed[i];
      } else {
        var j :| 0 <= j < k && allowed[j];
        if j < k - 1 {
          assert |ListingUpTo(names, allowed, k - 1)| > 0;
        }
      }
    }
  }

  /** When the write of register `i` fills the buffer, the buffer holds the
      whole listing cut to fit. */
  lemma {:induction false} TruncatedListing(names: seq<string>, allowed: seq<bool>, i: nat, max: int)
    requires |names| == |allowed|
    requires i < |names| && allowed[i]
    requires |ListingUpTo(names, allowed, i)| < max <= |ListingUpTo(names, allowed, i + 1)|
    ensures ListingUpTo(names, allowed, i) +
              Snprintf(max - |ListingUpTo(names, allowed, i)|, " " + names[i]) ==
            Take(Listing(names, allowed), max - 1)
    ensures AnyAllowed(allowed)
  {
    var before := ListingUpTo(names, allowed, i);
    var through := ListingUpTo(names, allowed, i + 1);
    assert through == before + (" " + names[i]);
    ListingPrefix(names, allowed, i + 1, |names|);
    SnprintfAfterPrefix(before, " " + names[i], Listing(names, allowed), max - 1);
    assert 0 <= i < |allowed| && allowed[i];
  }

  /** A listing that fits the buffer is kept whole, and it is empty exactly
      when no register is allowed. */
  lemma {:induction false} FittingListing(names: seq<string>, allowed: seq<bool>, max: int)
    requires |names| == |allowed|
    requires |Listing(names, allowed)| < max
    ensures |Listing(names, allowed)| == 0 <==> !AnyAllowed(allowed)
    ensures Take(Listing(names, allowed), max - 1) == Listing(names, allowed)
  {
    ListingEmptyIffNoneAllowed(names, allowed, |names|);
  }

  /** The loop of `get_limited_regs`. Each allowed register is printed at the
      write position with the room that is left; the position advances by
      what `snprintf` reports, and the loop stops once that reaches `max`.
      The result is the listing cut to fit the buffer. When no register is
      allowed nothing is written and the buffer keeps its previous text. */
  method GetLimitedRegs(names: seq<string>, allowed: seq<bool>, buf: string, max: int) returns (r: string)
    requires |names| == |allowed|
    requires 1 <= max
    ensures !AnyAllowed(allowed) ==> r == buf
    ensures AnyAllowed(allowed) ==> r == Take(Listing(names, allowed), max - 1)
  {
    r := buf;
    var written := "";
    var i := 0;
    while i < |names|
      invariant 0 <= i <= |names|
      invariant written == ListingUpTo(names, allowed, i) && |written| < max
    {
      ListingStep(names, allowed, i);
      if allowed[i] {
        var piece := " " + names[i];
        var size := |written|;
        if size + |piece| >= max {
          TruncatedListing(names, allowed, i, max);
          r := written + Snprintf(max - size, piece);
          return;
        }
        assert Snprintf(max - size, piece) == piece;
        written := written + Snprintf(max - size, piece);
      }
      assert written == ListingUpTo(names, allowed, i + 1);
      i := i + 1;
    }
    assert written == Listing(names, allowed);
    FittingListing(names, allowed, max);
    if |written| > 0 {
      r := written;
    }
  }
}
