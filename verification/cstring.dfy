/** The handful of C string-library behaviours the attribute store relies on,
    stated over Dafny strings. C strings are modelled as NUL-free values. */
module CString {

  /** The first `n` characters of `s`, or all of `s` when it is shorter. */
  function Take(s: string, n: int): (r: string)
    ensures r <= s
    ensures |r| == if n <= 0 then 0 else if n < |s| then n else |s|
  {
    if n <= 0 then [] else if n < |s| then s[..n] else s
  }

  /** The text `snprintf(buf, size, "%s", text)` leaves in `buf` when
      `size >= 1`: as much of `text` as fits before the terminator. The call's
      own return value is `|text|`, the length it would have written. */
  function Snprintf(size: int, text: string): (written: string)
    requires 1 <= size
    ensures written <= text
    ensures |written| < size
    ensures |text| < size ==> written == text
    ensures |text| >= size ==> |written| == size - 1
  {
    Take(text, size - 1)
  }

  /** Taking `n` characters of a prefix that already has at least `n`
      characters is the same as taking them from the whole string. */
  lemma {:induction false} TakeOfLongPrefix(p: string, s: string, n: int)
    requires p <= s
    requires n <= |p|
    ensures Take(p, n) == Take(s, n)
  {
    if 0 < n {
      assert p[..n] == s[..n];
    }
  }

  /** Cutting a concatenation inside its first part cuts only that part. */
  lemma {:induction false} CutInsideFirstPart(a: string, b: string, n: nat)
    requires n <= |a|
    ensures (a + b)[..n] == a[..n]
  {
  }

  /** Appending a truncated tail to a string of length `k <= n` is truncating
      the concatenation at `n`. */
  lemma {:induction false} TakeAfterExactPrefix(p: string, q: string, n: int)
    requires |p| <= n
    ensures p + Take(q, n - |p|) == Take(p + q, n)
  {
    if n - |p| < |q| {
      assert (p + q)[..n] == p + q[..n - |p|];
    }
  }

  /** Writing `piece` with `snprintf` after a prefix `p` of `whole`, with the
      room a buffer of `n + 1` bytes has left, leaves `whole` cut to `n`
      characters whenever `p + piece` is itself a prefix of `whole` and the
      cut falls inside `piece`. */
  lemma {:induction false} SnprintfAfterPrefix(p: string, piece: string, whole: string, n: int)
    requires p + piece <= whole
    requires |p| <= n < |p| + |piece|
    ensures p + Snprintf(n + 1 - |p|, piece) == Take(whole, n)
  {
    TakeAfterExactPrefix(p, piece, n);
    TakeOfLongPrefix(p + piece, whole, n);
  }

  /** The sign of C `strcmp`: character codes compared left to right, a proper
      prefix ordering below the longer string. C fixes only the sign of the
      result, so the model returns -1, 0 or 1. */
  function Strcmp(x: string, y: string): (r: int)
    ensures -1 <= r <= 1
  {
    if |x| == 0 && |y| == 0 then 0
    else if |x| == 0 then -1
    else if |y| == 0 then 1
    else if x[0] < y[0] then -1
    else if x[0] > y[0] then 1
    else Strcmp(x[1..], y[1..])
  }

  /** `strcmp` reports "same" exactly for identical strings. */
  lemma {:induction false} StrcmpZeroIffEqual(x: string, y: string)
    ensures Strcmp(x, y) == 0 <==> x == y
  {
    if |x| > 0 && |y| > 0 && x[0] == y[0] {
      StrcmpZeroIffEqual(x[1..], y[1..]);
      assert x == [x[0]] + x[1..];
      assert y == [y[0]] + y[1..];
    }
  }

  /** At the first position where the strings differ, the smaller character
      decides the sign. */
  lemma {:induction false} StrcmpFirstDifference(x: string, y: string, k: nat)
    requires k < |x| && k < |y|
    requires x[..k] == y[..k] && x[k] != y[k]
    ensures Strcmp(x, y) == if x[k] < y[k] then -1 else 1
  {
    if k > 0 {
      assert x[0] == x[..k][0] == y[..k][0] == y[0];
      assert x[1..][..k - 1] == x[..k][1..] == y[..k][1..] == y[1..][..k - 1];
      StrcmpFirstDifference(x[1..], y[1..], k - 1);
    }
  }

  /** A proper prefix compares below the longer string. */
  lemma {:induction false} StrcmpProperPrefix(x: string, y: string)
    requires |x| < |y| && y[..|x|] == x
    ensures Strcmp(x, y) == -1
  {
    if |x| > 0 {
      assert x[0] == y[..|x|][0] == y[0];
      assert y[1..][..|x| - 1] == y[..|x|][1..] == x[1..];
      StrcmpProperPrefix(x[1..], y[1..]);
    }
  }

  /** Swapping the operands of `strcmp` flips the sign of its result. */
  lemma {:induction false} StrcmpAntisymmetric(x: string, y: string)
    ensures Strcmp(x, y) == -Strcmp(y, x)
  {
    if |x| > 0 && |y| > 0 && x[0] == y[0] {
      StrcmpAntisymmetric(x[1..], y[1..]);
    }
  }
}
