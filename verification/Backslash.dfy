/** Backslash quoting (nsh_strchr and nsh_dequote with CONFIG_NSH_QUOTE). */
module Backslash {
  import opened Wrappers
  import opened CStrings

  const BACKSLASH := '\\'

  /** A backslash before every backslash and every delimiter. */
  function Escape(t: seq<char>, ds: set<char>): seq<char> {
    if t == [] then []
    else (if t[0] == BACKSLASH || t[0] in ds then [BACKSLASH, t[0]] else [t[0]]) + Escape(t[1..], ds)
  }

  /** Character `i` follows a backslash that is not itself quoted. */
  predicate QuotedAt(s: seq<char>, i: nat)
    requires i <= |s|
    decreases i
  {
    i > 0 && s[i - 1] == BACKSLASH && !QuotedAt(s, i - 1)
  }

  /** What a string becomes when unquoted backslashes are dropped; `quoted` says whether
      its first character is quoted by what came before. */
  function Dequoted(s: seq<char>, quoted: bool): seq<char> {
    if s == [] then []
    else if s[0] == BACKSLASH && !quoted then Dequoted(s[1..], true)
    else [s[0]] + Dequoted(s[1..], false)
  }

  // ---------- The two loops ----------

  /** nsh_strchr: the first unquoted occurrence of `ch`, the terminator included; a backslash
      is never found. */
  method NshStrchr(buf: array<char>, str: nat, ch: char) returns (r: Option<nat>)
    requires str <= buf.Length && Terminated(buf[..], str)
    ensures var s := Str(buf[..], str) + [NUL];
      match r
      case Some(i) =>
        && ch != BACKSLASH && i < |s| && s[i] == ch && !QuotedAt(s, i)
        && forall j :: 0 <= j < i && s[j] == ch ==> QuotedAt(s, j)
      case None => ch == BACKSLASH || forall j :: 0 <= j < |s| && s[j] == ch ==> QuotedAt(s, j)
  {
    ghost var e: nat :| Ends(buf[..], str, e);
    StrIs(buf[..], str, e);
    ghost var s := Str(buf[..], str) + [NUL];
    var ptr := str;
    var quoted := false;
    while true
      invariant str <= ptr <= e && quoted == QuotedAt(s, ptr - str)
      invariant ch != BACKSLASH ==> forall j :: 0 <= j < ptr - str && s[j] == ch ==> QuotedAt(s, j)
      decreases e - ptr
    {
      assert s[ptr - str] == buf[ptr];
      if buf[ptr] == BACKSLASH && !quoted {
        quoted := true;
      } else if buf[ptr] == ch && !quoted {
        return Some(ptr - str);
      } else if buf[ptr] == NUL {
        return None;
      } else {
        quoted := false;
      }
      ptr := ptr + 1;
    }
  }

  /** Move the text after `ptr` down over the character at `ptr`. */
  method Eliminate(buf: array<char>, ptr: nat, ghost e: nat)
    requires ptr < e && Ends(buf[..], ptr, e)
    modifies buf
    ensures forall k :: 0 <= k < buf.Length && (k < ptr || e <= k) ==> buf[k] == old(buf[k])
    ensures buf[ptr..e] == old(buf[ptr + 1..e + 1])
  {
    var dest := ptr;
    var done := false;
    while !done
      invariant ptr <= dest <= e && (done <==> dest == e)
      invariant forall k :: 0 <= k < buf.Length && (k < ptr || dest <= k) ==> buf[k] == old(buf[k])
      invariant forall k :: ptr <= k < dest ==> buf[k] == old(buf[k + 1])
      decreases e - dest
    {
      var ch := buf[dest + 1];
      buf[dest] := ch;
      dest := dest + 1;
      done := ch == NUL;
    }
  }

  /** nsh_dequote: in place. */
  method NshDequote(buf: array<char>, cmdline: nat)
    requires cmdline <= buf.Length && Terminated(buf[..], cmdline)
    modifies buf
    ensures var s := old(Str(buf[..], cmdline));
      && cmdline + |s| < buf.Length && Terminated(buf[..], cmdline)
      && Str(buf[..], cmdline) == Dequoted(s, false)
      && forall k :: 0 <= k < buf.Length && (k < cmdline || cmdline + |s| <= k) ==> buf[k] == old(buf[k])
  {
    hide Str, Dequoted, Ends;
    ghost var e: nat :| Ends(buf[..], cmdline, e);
    StrIs(buf[..], cmdline, e);
    ghost var s, f := Str(buf[..], cmdline), e;
    EndsHere(buf[..], cmdline, f, cmdline);
    var ptr := cmdline;
    var quoted := false;
    while buf[ptr] != NUL
      invariant cmdline <= ptr <= f <= e < buf.Length && Ends(buf[..], cmdline, f) && (ptr == f <==> buf[ptr] == NUL)
      invariant forall k :: 0 <= k < buf.Length && (k < cmdline || e <= k) ==> buf[k] == old(buf[k])
      invariant buf[cmdline..ptr] + Dequoted(buf[ptr..f], quoted) == Dequoted(s, false)
      decreases f - ptr
    {
      ghost var was := buf[..];
      DequotedStep(buf[ptr..f], quoted);
      EndsHere(was, cmdline, f, ptr);
      if buf[ptr] == BACKSLASH && !quoted {
        Eliminate(buf, ptr, f);
        Closed(was, buf[..], cmdline, ptr, f);
        f := f - 1;
        quoted := true;
      } else {
        assert buf[ptr..f][1..] == buf[ptr + 1..f] && buf[cmdline..ptr + 1] == buf[cmdline..ptr] + [buf[ptr]];
        quoted := false;
        ptr := ptr + 1;
      }
      EndsHere(buf[..], cmdline, f, ptr);
    }
    DequotedStep(buf[ptr..f], quoted);
    StrIs(buf[..], cmdline, f);
    ghost var was := buf[..];
    buf[ptr] := NUL;
    assert buf[..] == was;
  }

  lemma DequotedStep(s: seq<char>, quoted: bool)
    ensures Dequoted(s, quoted) ==
      if s == [] then []
      else if s[0] == BACKSLASH && !quoted then Dequoted(s[1..], true)
      else [s[0]] + Dequoted(s[1..], false)
  {
  }

  /** A string's end is the first NUL at or after any of its positions. */
  lemma EndsHere(s: seq<char>, i: nat, e: nat, k: nat)
    requires Ends(s, i, e) && i <= k && (k == i || k <= e)
    ensures k <= e <  |s| && Ends(s, k, e) && (k == e <==> s[k] == NUL)
  {
  }

  /** With one character taken out, the string ends one place earlier. */
  lemma Closed(s: seq<char>, s': seq<char>, i: nat, p: nat, e: nat)
    requires Ends(s, i, e) && i <= p < e && |s'| == |s|
    requires forall k :: 0 <= k < |s| && (k < p || e <= k) ==> s'[k] == s[k]
    requires s'[p..e] == s[p + 1..e + 1]
    ensures Ends(s', i, e - 1)
    ensures s'[i..p] == s[i..p] && s'[p..e - 1] == s[p..e][1..]
  {
    forall k | p <= k < e
      ensures s'[k] == s[k + 1]
    {
      assert s'[k] == s'[p..e][k - p];
    }
  }

  // ---------- Round trip ----------

  lemma {:induction false} DequotedEscape(t: seq<char>, ds: set<char>)
    ensures Dequoted(Escape(t, ds), false) == t
  {
    hide Dequoted;
    DequotedStep(Escape(t, ds), false);
    if t != [] {
      DequotedEscape(t[1..], ds);
      var tail := Escape(t[1..], ds);
      if t[0] == BACKSLASH || t[0] in ds {
        assert Escape(t, ds)[1..] == [t[0]] + tail;
        assert ([t[0]] + tail)[1..] == tail;
        DequotedStep([t[0]] + tail, true);
      } else {
        assert Escape(t, ds)[1..] == tail;
      }
    }
  }

  /** QuotedAt looks only backwards, and starts afresh after an unquoted character that is
      no backslash, or after a quoted one. */
  lemma {:induction false} QuotedShift(a: seq<char>, b: seq<char>, i: nat)
    requires i <= |b| && !QuotedAt(a, |a|)
    ensures QuotedAt(a + b, |a| + i) == QuotedAt(b, i)
    decreases i
  {
    if i > 0 {
      QuotedShift(a, b, i - 1);
    } else {
      QuotedPrefix(a, b, |a|);
    }
  }

  lemma {:induction false} QuotedPrefix(a: seq<char>, b: seq<char>, i: nat)
    requires i <= |a|
    ensures QuotedAt(a + b, i) == QuotedAt(a, i)
    decreases i
  {
    if i > 0 {
      QuotedPrefix(a, b, i - 1);
    }
  }

  /** Inside escaped text every delimiter is quoted, and the character after it is not. */
  lemma {:induction false} EscapedIsQuoted(t: seq<char>, ds: set<char>)
    requires BACKSLASH !in ds
    ensures var x := Escape(t, ds);
      && !QuotedAt(x, |x|)
      && forall j :: 0 <= j < |x| && x[j] in ds ==> QuotedAt(x, j)
    decreases |t|
  {
    if t != [] {
      var head := if t[0] == BACKSLASH || t[0] in ds then [BACKSLASH, t[0]] else [t[0]];
      var tail := Escape(t[1..], ds);
      EscapedIsQuoted(t[1..], ds);
      assert !QuotedAt(head, |head|);
      QuotedShift(head, tail, |tail|);
      forall j | 0 <= j < |head + tail| && (head + tail)[j] in ds
        ensures QuotedAt(head + tail, j)
      {
        if j < |head| {
          QuotedPrefix(head, tail, j);
        } else {
          QuotedShift(head, tail, j - |head|);
        }
      }
    }
  }

  /** Quoting is undone: in a buffer that holds `t` escaped and then a delimiter, the first
      unquoted delimiter is exactly at the end of the escaped text. */
  lemma FirstDelimiter(t: seq<char>, ds: set<char>, d: char, rest: seq<char>, i: nat)
    requires BACKSLASH !in ds && d in ds
    requires var s := Escape(t, ds) + [d] + rest;
      i < |s| && s[i] == d && !QuotedAt(s, i) && forall j :: 0 <= j < i && s[j] == d ==> QuotedAt(s, j)
    ensures i == |Escape(t, ds)|
  {
    var x := Escape(t, ds);
    var s := x + [d] + rest;
    assert s == x + ([d] + rest);
    EscapedIsQuoted(t, ds);
    QuotedShift(x, [d] + rest, 0);
    assert s[|x|] == d;
    if i < |x| {
      assert s[i] == x[i];
      QuotedPrefix(x, [d] + rest, i);
    }
  }

  lemma {:induction false} EscapeNoNul(t: seq<char>, ds: set<char>)
    requires NUL !in t
    ensures NUL !in Escape(t, ds)
  {
    if t != [] {
      EscapeNoNul(t[1..], ds);
    }
  }

  /** End to end, in a buffer: escape, find the delimiter, cut there, dequote, and the
      text is back. */
  method RoundTrip(t: seq<char>, ds: set<char>, d: char, rest: seq<char>) returns (buf: array<char>)
    requires BACKSLASH !in ds && NUL !in ds && d in ds && NUL !in t && NUL !in rest
    ensures Terminated(buf[..], 0) && Str(buf[..], 0) == t
  {
    hide Str, Escape, QuotedAt, Dequoted;
    ghost var x := Escape(t, ds);
    var line := Escape(t, ds) + [d] + rest + [NUL];
    buf := new char[|line|](i requires 0 <= i < |line| => line[i]);
    assert buf[..] == line;
    EscapeNoNul(t, ds);
    assert Ends(buf[..], 0, |line| - 1);
    StrIs(buf[..], 0, |line| - 1);
    assert Str(buf[..], 0) == x + [d] + rest;
    var found := NshStrchr(buf, 0, d);
    assert Str(buf[..], 0) + [NUL] == x + [d] + (rest + [NUL]);
    HasDelimiter(t, ds, d, rest + [NUL]);
    assert (x + [d] + (rest + [NUL]))[|x|] == d;
    FirstDelimiter(t, ds, d, rest + [NUL], found.value);
    buf[found.value] := NUL;
    assert Ends(buf[..], 0, |x|);
    StrIs(buf[..], 0, |x|);
    assert buf[0..|x|] == x;
    NshDequote(buf, 0);
    DequotedEscape(t, ds);
  }

  lemma HasDelimiter(t: seq<char>, ds: set<char>, d: char, rest: seq<char>)
    requires BACKSLASH !in ds
    ensures !QuotedAt(Escape(t, ds) + [d] + rest, |Escape(t, ds)|)
  {
    var x := Escape(t, ds);
    EscapedIsQuoted(t, ds);
    assert x + [d] + rest == x + ([d] + rest);
    QuotedPrefix(x, [d] + rest, |x|);
  }

  // ---------- Every string ----------

  /** A character is quoted exactly when an odd number of backslashes stands right before it. */
  lemma {:induction false} QuotedIsOdd(s: seq<char>, i: nat, n: nat)
    requires n <= i <= |s| && (forall k :: i - n <= k < i ==> s[k] == '\\')
    requires n < i ==> s[i - n - 1] != '\\'
    ensures QuotedAt(s, i) <==> n % 2 == 1
    decreases n
  {
    if n > 0 {
      QuotedIsOdd(s, i - 1, n - 1);
    }
  }

  /** Dequoting any string drops exactly the backslashes that are not themselves quoted, a
      last one included: read from the front, each further character stays or goes. */
  lemma {:induction false} DequotedGrows(s: seq<char>, c: char)
    ensures Dequoted([], false) == []
    ensures Dequoted(s + [c], false) ==
      Dequoted(s, false) + if c == '\\' && !QuotedAt(s, |s|) then [] else [c]
  {
    DequotedOneMore(s, c, 0);
    assert s[0..] == s && (s + [c])[0..] == s + [c];
  }

  lemma {:induction false} DequotedOneMore(s: seq<char>, c: char, i: nat)
    requires i <= |s|
    ensures Dequoted((s + [c])[i..], QuotedAt(s, i)) ==
      Dequoted(s[i..], QuotedAt(s, i)) + if c == BACKSLASH && !QuotedAt(s, |s|) then [] else [c]
    decreases |s| - i
  {
    hide Dequoted;
    var (a, b) := ((s + [c])[i..], s[i..]);
    DequotedStep(a, QuotedAt(s, i));
    DequotedStep(b, QuotedAt(s, i));
    DequotedStep([], false);
    DequotedStep([], true);
    if i < |s| {
      assert a[1..] == (s + [c])[i + 1..] && b[1..] == s[i + 1..];
      DequotedOneMore(s, c, i + 1);
    } else {
      assert a == [c] && a[1..] == [];
    }
  }
}
