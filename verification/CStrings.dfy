/** C strings inside a character buffer. */
module CStrings {
  const NUL: char := '\0'

  /** The string that starts at `i` has its terminator at `e`. */
  ghost predicate Ends(s: seq<char>, i: nat, e: nat) {
    && i <= e < |s| && s[e] == NUL
    && forall k :: i <= k < e ==> s[k] != NUL
  }

  /** The string that starts at `i`: everything up to the first NUL. */
  function Str(s: seq<char>, i: nat): (r: seq<char>)
    requires i <= |s|
    ensures NUL !in r
    decreases |s| - i
  {
    if i == |s| || s[i] == NUL then [] else [s[i]] + Str(s, i + 1)
  }

  lemma {:induction false} StrIs(s: seq<char>, i: nat, e: nat)
    requires Ends(s, i, e)
    ensures Str(s, i) == s[i..e]
    decreases e - i
  {
    if i < e {
      StrIs(s, i + 1, e);
    }
  }

  /** Some NUL follows. */
  ghost predicate Terminated(s: seq<char>, i: nat) {
    exists e: nat :: Ends(s, i, e)
  }

  lemma {:induction false} TerminatedAt(s: seq<char>, i: nat, n: nat)
    requires i <= n < |s| && s[n] == NUL
    ensures Terminated(s, i)
    decreases n - i
  {
    var e := i;
    while s[e] != NUL
      invariant i <= e <= n && forall k :: i <= k < e ==> s[k] != NUL
      decreases n - e
    {
      e := e + 1;
    }
    assert Ends(s, i, e);
  }

  /** strchr: the first place from `i` on, before the terminator, that holds `ch`. */
  method Strchr(buf: array<char>, i: nat, ch: char) returns (found: bool, at: nat)
    requires i <= buf.Length && Terminated(buf[..], i) && ch != NUL
    ensures found ==> i <= at < i + |Str(buf[..], i)| && at < buf.Length && buf[at] == ch && ch !in buf[i..at]
    ensures !found ==> ch !in Str(buf[..], i)
  {
    ghost var e: nat :| Ends(buf[..], i, e);
    StrIs(buf[..], i, e);
    at := i;
    while buf[at] != NUL && buf[at] != ch
      invariant i <= at <= e && ch !in buf[i..at]
      decreases e - at
    {
      at := at + 1;
    }
    found := buf[at] == ch;
  }
}
