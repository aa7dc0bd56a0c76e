/** Small sequence vocabulary shared by the models. */
module Sequences {

  datatype Option<+T> = None | Some(value: T)

  type Byte = b: int | 0 <= b < 256
  type Bytes = seq<Byte>

  function Min(a: int, b: int): int { if a <= b then a else b }

  /** The last `n` elements of `s`, or all of `s` when it is shorter. */
  function Last<T>(s: seq<T>, n: nat): seq<T>
  {
    if |s| <= n then s else s[|s| - n..]
  }

  /** `s` is what remains of `t` after dropping some leading elements. */
  ghost predicate IsSuffix<T>(s: seq<T>, t: seq<T>)
  {
    |s| <= |t| && t[|t| - |s|..] == s
  }

  /** `a` is obtained from `b` by deleting elements; order and multiplicity are kept. */
  ghost predicate Subsequence<T>(a: seq<T>, b: seq<T>)
    decreases |b|
  {
    || a == []
    || (b != [] &&
        (|| Subsequence(a, b[..|b| - 1])
         || (a[|a| - 1] == b[|b| - 1] && Subsequence(a[..|a| - 1], b[..|b| - 1]))))
  }

  lemma SubsequenceSkip<T>(a: seq<T>, b: seq<T>, x: T)
    requires Subsequence(a, b)
    ensures Subsequence(a, b + [x])
  {
    assert (b + [x])[..|b + [x]| - 1] == b;
  }

  lemma SubsequenceTake<T>(a: seq<T>, b: seq<T>, x: T)
    requires Subsequence(a, b)
    ensures Subsequence(a + [x], b + [x])
  {
    assert (a + [x])[..|a + [x]| - 1] == a;
    assert (b + [x])[..|b + [x]| - 1] == b;
  }

  /** The index after `c` on a circle of `n`. */
  function Advance(c: nat, n: nat): nat
    requires c < n
  {
    if c + 1 == n then 0 else c + 1
  }

  /** The same, computed as the programs do. */
  method NextIndex(c: nat, n: nat) returns (r: nat)
    requires c < n
    ensures r == Advance(c, n)
  {
    r := (c + 1) % n;
  }
}
