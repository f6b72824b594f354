/** Small shared vocabulary: optional values, bytes and C strings, sums over sequences. */
module Common {

  datatype Option<+T> = None | Some(value: T)

  type Byte = b: int | 0 <= b < 256

  const TWO_32: int := 0x1_0000_0000
  const TWO_63: int := 0x8000_0000_0000_0000
  const TWO_64: int := 0x1_0000_0000_0000_0000

  function Ascii(s: string): (b: seq<Byte>)
    ensures |b| == |s| && forall i :: 0 <= i < |s| ==> b[i] == (s[i] as int) % 256
  {
    seq(|s|, i requires 0 <= i < |s| => (s[i] as int) % 256)
  }

  function Text(b: seq<Byte>): (s: string)
    ensures |s| == |b| && forall i :: 0 <= i < |b| ==> s[i] == b[i] as char
  {
    seq(|b|, i requires 0 <= i < |b| => b[i] as char)
  }

  predicate NulFree(s: seq<Byte>) {
    0 !in s
  }

  /** What strlen and strdup see of a NUL-terminated buffer. */
  function CString(s: seq<Byte>): (t: seq<Byte>)
    ensures NulFree(t) && |t| <= |s|
    ensures NulFree(s) ==> t == s
  {
    if s == [] || s[0] == 0 then [] else [s[0]] + CString(s[1..])
  }

  /** The sum of `weight` over the elements of `xs`. */
  function SumBy<T>(xs: seq<T>, weight: T -> nat): (total: nat)
  {
    if xs == [] then 0 else weight(xs[0]) + SumBy(xs[1..], weight)
  }

  lemma {:induction false} SumByUpdate<T>(xs: seq<T>, weight: T -> nat, i: nat, x: T)
    requires i < |xs|
    ensures SumBy(xs[i := x], weight) + weight(xs[i]) == SumBy(xs, weight) + weight(x)
  {
    if i == 0 {
      assert xs[0 := x][1..] == xs[1..];
    } else {
      assert xs[i := x][1..] == xs[1..][i - 1 := x];
      SumByUpdate(xs[1..], weight, i - 1, x);
    }
  }

  lemma {:induction false} SumByAtLeast<T>(xs: seq<T>, weight: T -> nat, i: nat)
    requires i < |xs|
    ensures SumBy(xs, weight) >= weight(xs[i])
  {
    if i > 0 {
      SumByAtLeast(xs[1..], weight, i - 1);
    }
  }

  lemma {:induction false} SumByPair<T>(xs: seq<T>, weight: T -> nat, i: nat, j: nat)
    requires i < j < |xs|
    ensures SumBy(xs, weight) >= weight(xs[i]) + weight(xs[j])
  {
    if i == 0 {
      SumByAtLeast(xs[1..], weight, j - 1);
    } else {
      SumByPair(xs[1..], weight, i - 1, j - 1);
    }
  }

  lemma {:induction false} SumByZero<T>(xs: seq<T>, weight: T -> nat)
    requires forall i :: 0 <= i < |xs| ==> weight(xs[i]) == 0
    ensures SumBy(xs, weight) == 0
  {
    if xs != [] {
      assert forall i :: 0 <= i < |xs[1..]| ==> xs[1..][i] == xs[i + 1];
      SumByZero(xs[1..], weight);
    }
  }

  lemma {:induction false} SumByAppend<T>(xs: seq<T>, weight: T -> nat, x: T)
    ensures SumBy(xs + [x], weight) == SumBy(xs, weight) + weight(x)
  {
    if xs == [] {
      assert xs + [x] == [x];
    } else {
      assert (xs + [x])[1..] == xs[1..] + [x];
      SumByAppend(xs[1..], weight, x);
    }
  }

  lemma {:induction false} SumByWithout<T>(xs: seq<T>, weight: T -> nat, k: nat)
    requires k < |xs|
    ensures SumBy(xs, weight) == SumBy(xs[..k] + xs[k + 1..], weight) + weight(xs[k])
  {
    if k == 0 {
      assert xs[..0] + xs[1..] == xs[1..];
    } else {
      assert (xs[..k] + xs[k + 1..])[1..] == xs[1..][..k - 1] + xs[1..][k..];
      SumByWithout(xs[1..], weight, k - 1);
    }
  }
}
