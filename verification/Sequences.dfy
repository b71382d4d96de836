module Sequences {
  /** The numbers below `n`, in order. */
  function Ids(n: nat): seq<nat> {
    seq(n, i requires 0 <= i < n => i)
  }

  /** A slice of a slice. */
  lemma SliceOf<T>(s: seq<T>, a: nat, b: nat, i: nat, j: nat)
    requires a <= b <= |s| && i <= j <= b - a
    ensures s[a..b][i..j] == s[a + i..a + j]
  {
    var x, y := s[a..b][i..j], s[a + i..a + j];
    forall k | 0 <= k < j - i
      ensures x[k] == y[k]
    {
      assert x[k] == s[a..b][i + k] == s[a + (i + k)];
      assert y[k] == s[(a + i) + k];
    }
    assert x == y;
  }

  /** A slice of `t`, where it is the same as `s` up to `m`. */
  lemma Joined<T>(s: seq<T>, t: seq<T>, a: nat, m: nat, b: nat)
    requires a <= m <= b <= |t| && |s| == |t| && forall k :: a <= k < m ==> t[k] == s[k]
    ensures t[a..b] == s[a..m] + t[m..b]
  {
    var x, y := t[a..b], s[a..m] + t[m..b];
    forall k | 0 <= k < b - a
      ensures x[k] == y[k]
    {
      assert x[k] == t[a + k];
    }
    assert x == y;
  }

  /** A slice of `t` that holds what stood `n` places further on in `s`. */
  lemma Moved<T>(s: seq<T>, t: seq<T>, a: nat, b: nat, n: nat)
    requires a <= b <= |t| && b + n <= |s| && forall k :: a <= k < b ==> t[k] == s[k + n]
    ensures t[a..b] == s[a + n..b + n]
  {
    var x, y := t[a..b], s[a + n..b + n];
    forall k | 0 <= k < b - a
      ensures x[k] == y[k]
    {
      assert x[k] == t[a + k] && y[k] == s[(a + k) + n];
    }
    assert x == y;
  }
}
